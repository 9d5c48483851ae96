# retainn core, modelled in Dafny

retainn is a spaced-repetition flashcard tool. Decks are markdown files that
the tool fetches, splits into cards and keeps in SQLite. A small web
application then shows the cards and records the answers. This project
models four parts of it and proves what each part guarantees:

- **Deck markup** (`lib/retainn/parse.py`).
  - The lexer splits the text into Code, Front, Back, Last and Other tokens,
    trying a fixed table of literal separators in priority order.
  - Recursive-descent parsers thread a token index and build the preamble and
    the cards.
  - The flatteners rebuild the text.
  - The title matcher finds the first markdown heading line of the preamble.
- **Deck synchronisation** (`lib/retainn/util.py`).
  - `update_deck` compares the stored card hashes of a deck with the hashes of
    the freshly parsed cards. It deletes the stale ones and inserts the new
    ones, so unchanged cards keep their score and last-seen time.
  - `import_deck_md` replaces the whole deck.
- **Storage helpers** (`lib/retainn/db.py`).
  - The card hash `md5(front) + "." + md5(back)`.
  - The score rules for "recalled", "not recalled" and "skip".
  - The `WHERE IN` placeholder expansion.
  - The card and deck tables, as an object whose methods reassign them.
- **Request routing** (`lib/retainn/webapp.py`).
  - An exact static table is tried first.
  - Then the first matching entry of an ordered table of `/cards/<id>...`
    patterns.
  - Anything else goes to the 404 handler.

Files:

- `common.dfy`: the option type and `OccursAt`.
- `lexer.dfy`, `parser.dfy`, `parse_laws.dfy`: the lexer, the parsers and flatteners, and their laws.
- `deck_shapes.dfy`: the token shape of a one-card deck and how it parses.
- `title.dfy`: `splitlines` and the title pattern.
- `db.dfy`: the pure storage helpers and the row-level meaning of each statement.
- `store.dfy`: the store class.
- `sync.dfy`, `sync_laws.dfy`: synchronisation and its laws.
- `routing.dfy`: the route tables, `compile_routes` and `route`.

Where the source loops and accumulates, the model is a method with loop
invariants. Each such method is proved equal to a reference function, and the
properties are proved about that function.

## Model

| member | source | states |
|---|---|---|
| Lexer.MatchPattern | lib/retainn/parse.py:20-26 | a pattern that matches at an offset matches a non-empty text that occurs there |
| Lexer.FirstMatch | lib/retainn/parse.py:39-48 | the token chosen by the table scan has non-empty text that occurs at the offset |
| Lexer.FirstMatchTotal | lib/retainn/parse.py:25 | the catch-all entry makes the scan succeed at every offset, so the error branch is never taken |
| Lexer.FirstMatchInTableOrder | lib/retainn/parse.py:39-48 | the chosen token is the first table entry, in table order, whose literal occurs at the offset; otherwise it is one Other character |
| Lexer.FrontBeatsLast | lib/retainn/parse.py:20-26 | "\n\n---\n\n" always lexes as Front, never Last; a fence token is chosen exactly when "\n```" occurs, so it starts with a newline; Last means Front did not occur |
| Lexer.LexDeck | lib/retainn/parse.py:35-59 | the lexing loop computes the reference lexing of the whole text |
| Lexer.LexFrom | lib/retainn/parse.py:35-59 | lexing with the deck table never fails, every token text is non-empty, and the token texts concatenated in order are the input |
| Lexer.LexWith | lib/retainn/parse.py:35-59 | reference definition of the scan for any table; an error names an offset of the text at which no entry matches |
| Lexer.LexTable | lib/retainn/parse.py:35-59 | for any pattern table, the outer loop computes the reference lexing from offset 0, and returns `Failed` when no entry matches, where the source would raise TypeError; with the real table that branch is unreachable |
| Lexer.MatchAt | lib/retainn/parse.py:39-48 | the inner loop yields the token of the first table entry that matches at the offset, or nothing when none does |
| Lexer.LexWithLossless | lib/retainn/parse.py:35-59 | for any table whose last entry is the catch-all, lexing never fails, every token text is non-empty, and the texts concatenate to the input from the offset |
| Parser.FirstOf | lib/retainn/parse.py:157-167 | the index found is a token of a wanted kind, or the end of the tokens |
| Parser.FirstOfIsFirst | lib/retainn/parse.py:157-167 | no token before the index found has a wanted kind |
| Parser.ParseCode | lib/retainn/parse.py:62-92 | with a later Code token, the fence is the text of the tokens up to and including the first one, and the index moves past it; otherwise None and the index is unchanged |
| Parser.PreambleEnd | lib/retainn/parse.py:95-119 | where the preamble ends: at a Front token outside any fence, or at the end |
| Parser.ParsePreamble | lib/retainn/parse.py:95-119 | parse_preamble returns the text of the tokens up to that end, or None with the index unchanged when a fence is never closed |
| Parser.FlattenPreamble | lib/retainn/parse.py:122-125 | definition: the preamble flattens to its text; DeckRoundTrip states what flattening a parsed deck gives |
| Parser.CardAt | lib/retainn/parse.py:143-185 | with no Back token the index is unchanged; otherwise the card opens with the Front token, its back marker is a Back token, and it stops before a Front or Last token or at the end |
| Parser.CardFlattens | lib/retainn/parse.py:188-194 | a parsed card flattens to exactly the text of the tokens parse_card consumed |
| Parser.FlattenCard | lib/retainn/parse.py:188-194 | definition: front marker, front text, back marker, back text, in that order; CardFlattens and ChainFlattens state what it gives for parsed cards |
| Parser.ParseCard | lib/retainn/parse.py:143-185 | the front and back loops compute the reference card |
| Parser.CollectUntil | lib/retainn/parse.py:157-180 | each of parse_card's two loops stops at the first token of a stopping kind, or at the end, having accumulated exactly the texts of the tokens before it |
| Parser.CardsFrom | lib/retainn/parse.py:209-222 | a closed chain of cards holds at least one card and ends just after a Last token |
| Parser.DeckAt | lib/retainn/parse.py:197-231 | a failure hands back the index it was given; a deck has at least one card and ends just after the Last token it keeps; the unguarded read happens one past the end of the tokens |
| Parser.ParseDeck | lib/retainn/parse.py:197-231 | parse_deck computes the reference outcome, including the IndexError of the unguarded token read |
| Parser.ParseCards | lib/retainn/parse.py:206-220 | parse_deck's card loop computes the reference chain: the cards up to a Last token, a card without Back, or a back that runs off the end |
| Parser.FlattenCards | lib/retainn/parse.py:234-241 | definition: the cards flattened one after the other; FlattenCardsAppend states that it distributes over concatenation |
| Parser.FlattenCardsAppend | lib/retainn/parse.py:234-241 | flattening a concatenation of card lists is the concatenation of their flattenings |
| Parser.Flatten | lib/retainn/parse.py:234-241 | definition: the preamble, the cards in order, then the last token; DeckRoundTrip and LexParseFlatten state that a parsed deck flattens to exactly the text it was parsed from |
| Parser.FlattenDeck | lib/retainn/parse.py:234-241 | flatten_deck's loop yields the preamble, each card in order, then the last token |
| ParseLaws.ChainFlattens | lib/retainn/parse.py:209-222 | a closed chain of cards flattens to exactly the tokens it consumed, Last token included |
| ParseLaws.ChainWellMarked | lib/retainn/parse.py:209-222 | every card of a closed chain opens with a Front token and is split by a Back token |
| ParseLaws.DeckRoundTrip | lib/retainn/parse.py:197-241 | a failed parse_deck keeps the index; a parsed deck has at least one well-marked card, ends just after its Last token, and flattens to exactly the tokens it consumed |
| ParseLaws.DeckRaisesOnlyAfterACard | lib/retainn/parse.py:216 | parse_deck raises exactly when the preamble ends at a card whose chain runs off the end of the tokens |
| ParseLaws.LexParseFlatten | lib/retainn/parse.py:197-241 | for any text, a parsed deck flattens to a prefix of the text, and to the whole text exactly when its Last token is the final token |
| ParseLaws.CardFailsIffNoBack | lib/retainn/parse.py:143-185 | parse_card fails exactly when no Back token follows the Front token |
| ParseLaws.CardFrontRunsToFirstBack | lib/retainn/parse.py:157-177 | the front is the text strictly between the Front token and the first Back token; the back runs to the next Front or Last token; Front, Last and Code tokens may sit in the front |
| ParseLaws.PreambleFailsOnlyOnOpenFence | lib/retainn/parse.py:103-108 | the preamble fails only when a Code token has no closing Code token after it |
| ParseLaws.PreambleWithoutFences | lib/retainn/parse.py:95-119 | without Code tokens the preamble ends at the first Front token, or at the end |
| ParseLaws.FencesProtectOnlyThePreamble | lib/retainn/parse.py:103-108 | a fenced Front token does not end the preamble, but a fence inside a card does not hide a Back token from parse_card |
| ParseLaws.DeckFailureCases | lib/retainn/parse.py:202-224 | parse_deck returns None exactly when the preamble fails, the preamble takes every token, or a card has no Back token |
| ParseLaws.PreambleSkips | lib/retainn/parse.py:101-117 | tokens that are neither Code nor Front do not end the preamble |
| ParseLaws.DeckWithOpenFenceFails | lib/retainn/parse.py:202-204 | a fence opened before any Front token and never closed makes parse_deck return None with the index unchanged |
| ParseLaws.DeckWithoutFrontFails | lib/retainn/parse.py:202-224 | without fences or Front tokens parse_deck returns None with the index unchanged |
| ParseLaws.DeckWithoutBackFails | lib/retainn/parse.py:209-212 | when the first Front token has no Back token after it, parse_deck returns None with the index unchanged |
| DeckShapes.LexOneChar | lib/retainn/parse.py:20-26 | a character other than newline lexes as one Other token, since every separator starts with a newline |
| DeckShapes.LexBack | lib/retainn/parse.py:20-26 | "\n\n%\n\n" lexes as a Back token |
| DeckShapes.LexLastAtEnd | lib/retainn/parse.py:20-26 | "\n\n---\n" at the very end lexes as the single Last token |
| DeckShapes.CardTokensPreamble | lib/retainn/parse.py:95-119 | the preamble of a one-card deck ends at its Front token |
| DeckShapes.CardTokensCard | lib/retainn/parse.py:143-185 | the card of a one-card deck holds exactly the front and back lines, without the blank lines the separators own |
| DeckShapes.SingleCardParses | lib/retainn/parse.py:197-231 | the tokens of a one-card deck parse to that preamble and that one card, consuming every token |
| DeckShapes.MinimalDeck | lib/retainn/parse.py:197-231 | the tokens of the minimal deck give one card with front "Q" and back "A", and the title "Title" |
| Titles.LineEnd | lib/retainn/parse.py:133 | a line runs up to the first line break, or to the end |
| Titles.SplitFrom | lib/retainn/parse.py:133 | no split line contains a break or is longer than the text from the offset |
| Titles.SplitLines | lib/retainn/parse.py:133 | the lines hold no break and are no longer than the text; only the empty text has no line |
| Titles.Hashes | lib/retainn/parse.py:132 | the greedy run of leading '#' characters |
| Titles.Spaces | lib/retainn/parse.py:132 | the greedy `\s*`: the length of the leading whitespace run, which a non-space or the end follows |
| Titles.MatchTitle | lib/retainn/parse.py:132-134 | definition of one line's match: the hashes, one more character and the whitespace are dropped; MatchTitleSound, MatchTitleComplete, NoTitleLines and TitleIsSuffix state its meaning |
| Titles.TitleIsSuffix | lib/retainn/parse.py:132-134 | a matched line starts with '#'; its title is a suffix of the line, at least two characters shorter, that does not start with whitespace |
| Titles.FirstTitle | lib/retainn/parse.py:133-140 | there is no title exactly when no line matches |
| Titles.MatchTitleSound | lib/retainn/parse.py:132 | a matched line is one or more '#', one non-'#' character, whitespace, then the title, which does not start with whitespace |
| Titles.MatchTitleComplete | lib/retainn/parse.py:132 | every line of that shape matches, with that title |
| Titles.NoTitleLines | lib/retainn/parse.py:132 | a line has no title exactly when it is empty, does not start with '#', or is all '#' |
| Titles.FirstTitleIsFirstMatch | lib/retainn/parse.py:133-140 | extract_title returns the title of the first matching line |
| Titles.ExtractTitle | lib/retainn/parse.py:128-140 | a title has no line break, does not start with whitespace, and is at least two characters shorter than the preamble |
| Titles.TitleOfShortLines | lib/retainn/parse.py:133-140 | the title found in lines without breaks and no longer than a bound has no break and is at least two characters shorter than the bound |
| Titles.SplitJoin | lib/retainn/parse.py:133 | splitting lines joined by "\n" gives them back |
| Titles.TitleExamples | lib/retainn/parse.py:128-140 | "# Title" gives "Title" but "#Title" gives "itle" |
| Titles.OneLine | lib/retainn/parse.py:133 | a non-empty text without breaks is one line |
| Titles.CrLfIsOneBreak | lib/retainn/parse.py:133 | "\r\n" is a single line break |
| Db.CardHash | lib/retainn/db.py:208-211 | the hash is 65 characters: the front's digest, '.', then the back's digest |
| Db.CardHashShape | lib/retainn/db.py:71-79 | with hex digests, '.' is at index 32 and nowhere else, and every other character is a lowercase hex digit |
| Db.CardHashInjective | lib/retainn/db.py:208-211 | two hashes are equal exactly when the fronts' and the backs' digests are equal; the hash depends on nothing else |
| Db.RecallScore | lib/retainn/db.py:337-340 | the new score is at least 1 and above the old one: 1 below 1, otherwise one more |
| Db.NotRecallScore | lib/retainn/db.py:351-354 | the new score is at most 0 and below the old one: -1 above 1, otherwise one less |
| Db.ScoresFollowLastAnswer | lib/retainn/db.py:335-360 | after any run of answers the score is positive when the last was a recall and non-positive when it was a miss; an all-recall run gives at least the old score plus the run length |
| Db.QMarks | lib/retainn/db.py:399 | empty for 0, otherwise 2n-1 characters alternating '?' and ',' |
| Db.ReplaceAll | lib/retainn/db.py:400 | definition of str.replace: scanning left to right, each non-overlapping occurrence becomes the replacement; ReplaceAbsent, ReplaceSkipsPlainText and ReplaceEveryMarker state what it does to templates |
| Db.SqlReplaceWhereIn | lib/retainn/db.py:396-401 | a template without `?...?` is returned unchanged |
| Db.ReplaceAbsent | lib/retainn/db.py:400 | text in which the pattern does not occur is left unchanged |
| Db.ReplaceSkipsPlainText | lib/retainn/db.py:400 | a prefix in which no occurrence of the pattern starts is copied unchanged, and the scan goes on after it |
| Db.MarkerNotAcross | lib/retainn/db.py:400 | no marker occurrence starts in a part that holds none and does not end with "?...", when a marker follows it |
| Db.ReplaceEveryMarker | lib/retainn/db.py:396-401 | every marker is replaced by the placeholders, not only the first, in a template whose other parts hold no marker and none but the last ends with "?..."; those parts may hold other '?' placeholders |
| Db.NoDotNoMarker | lib/retainn/db.py:400 | text without '.' holds no marker and does not end with "?..." |
| Db.DeleteTemplateShape | lib/retainn/db.py:388-390 | a `... deck_id = ? AND hash IN (?...?) ...` template keeps its positional '?' for the deck id, and its marker becomes one placeholder per hash |
| Db.RemoveByHash | lib/retainn/db.py:383-393 | the rows left are exactly those not of the deck or whose hash is not in the set |
| Db.RemoveDeckCards | lib/retainn/db.py:373-380 | the rows left are exactly those of other decks |
| Db.DeckHashes | lib/retainn/db.py:302-313 | exactly the hashes of the deck's rows |
| Db.FindCard | lib/retainn/db.py:281-299 | the row with the id, or None when no row has it |
| Db.SetScore | lib/retainn/db.py:316-332 | the row with the id gets the score and last_seen; every other row is unchanged |
| Db.RemoveDecksByUrl | lib/retainn/db.py:147-154 | the deck rows left are exactly those with another URL |
| Db.MaxDeckId | lib/retainn/db.py:141 | the largest deck id, 0 for no deck: no deck id is above it, and a positive one is a deck's id |
| Db.UpdateDeckRows | lib/retainn/db.py:157-181 | the deck row with the id is rewritten, every other deck row is unchanged |
| CardStore.Store.constructor | lib/retainn/db.py:49-62 | a new store is empty and valid |
| CardStore.Store.InsertCard | lib/retainn/db.py:214-242 | appends the row with the card hash, the given score and last_seen, and a fresh id |
| CardStore.Store.InsertDeck | lib/retainn/db.py:120-144 | appends the deck row; its id is positive and greater than every stored deck id, and may be the id of a deck deleted before |
| CardStore.Store.DeleteDeck | lib/retainn/db.py:147-154 | removes the decks from the URL; cards and ids are unchanged |
| CardStore.Store.UpdateDeckRow | lib/retainn/db.py:157-181 | rewrites one deck row; nothing else changes |
| CardStore.Store.DeleteCardsForDeck | lib/retainn/db.py:373-380 | removes the deck's cards; nothing else changes |
| CardStore.Store.SelectCardHashesByDeckId | lib/retainn/db.py:302-313 | returns exactly the hashes of the deck's cards |
| CardStore.Store.DeleteCardsByHash | lib/retainn/db.py:383-393 | requires a non-empty hash set; the SQL has the placeholders, the parameters are the deck id then each hash once, and exactly the deck's cards with those hashes are removed |
| CardStore.Store.UpdateCardScoreLastSeen | lib/retainn/db.py:316-332 | sets one card's score and last_seen; nothing else changes |
| CardStore.Store.SelectCard | lib/retainn/db.py:281-299 | returns the stored row with that id |
| CardStore.Store.DidRecallCard | lib/retainn/db.py:335-346 | stores the recall score and the current time for the card; nothing else changes |
| CardStore.Store.DidNotRecallCard | lib/retainn/db.py:349-360 | stores the miss score and the current time for the card; nothing else changes |
| CardStore.Store.SkipCard | lib/retainn/db.py:363-370 | keeps the score, stores the current time; nothing else changes |
| CardStore.ListOf | lib/retainn/db.py:390 | list(set) lists each element once |
| CardStore.RemoveByHashKeepsOrder | lib/retainn/db.py:383-393 | deleting by hash keeps the surviving rows in order |
| CardStore.RemoveDeckCardsKeepsOrder | lib/retainn/db.py:373-380 | deleting a deck's cards keeps the others in order |
| CardStore.RemoveDecksKeepsOrder | lib/retainn/db.py:147-154 | deleting decks by URL keeps the others in order |
| Sync.HashList | lib/retainn/util.py:60-65 | one card hash per parsed card, in order |
| Sync.Select | lib/retainn/util.py:71-78 | the cards chosen for insertion are no more than the parsed cards |
| Sync.NewRows | lib/retainn/util.py:71-78 | one new row per chosen card |
| Sync.SyncedCards | lib/retainn/util.py:55-79 | definition of the synchronised cards: the deck's rows whose hash is no longer parsed are removed, and the parsed cards whose hash was not stored are appended; SyncLaws states its properties |
| Sync.UpdateDeck | lib/retainn/util.py:42-79 | update_deck as written. It raises on a failed parse and writes nothing. Otherwise it rewrites the deck row, then stops at the failing assertion when nothing is to be removed, or reaches the synchronised cards |
| Sync.UpdateDeckCorrected | lib/retainn/util.py:42-79 | update_deck with the empty deletion skipped: on a parsed deck the cards always end synchronised |
| Sync.SyncDeckCards | lib/retainn/util.py:55-79 | the card half as written: it stops with the cards untouched exactly when no stored hash was dropped; otherwise the deck's dropped cards are removed and the new ones appended with fresh ids |
| Sync.SyncDeckCardsCorrected | lib/retainn/util.py:55-79 | the card half with the empty deletion skipped: the cards always end synchronised with the parsed deck |
| Sync.CollectHashes | lib/retainn/util.py:59-65 | the loop builds the set of the parsed cards' hashes |
| Sync.InsertSelected | lib/retainn/util.py:70-78 | the insertion loop appends, in deck order, a row for every parsed card whose hash is wanted, with score 0 and no last_seen |
| Sync.InsertAll | lib/retainn/util.py:33-38 | every parsed card is appended, in order |
| Sync.ImportDeckMd | lib/retainn/util.py:15-39 | a failed parse writes nothing. Otherwise the decks from the URL are replaced by one new deck row whose id is greater than every remaining deck id; every stored card that has that deck id is dropped, and the parsed cards are appended in order |
| SyncLaws.SyncedHashesAreParsedHashes | lib/retainn/util.py:56-78 | after an update the deck's stored hashes are exactly the parsed hashes |
| SyncLaws.SyncKeepsUnchangedCards | lib/retainn/util.py:67-78 | a row of another deck, or one whose hash is still parsed, survives with its score and last_seen; a row of the deck whose hash is gone is removed |
| SyncLaws.SyncAddsNewCards | lib/retainn/util.py:70-78 | the added rows are the parsed cards whose hash was not stored, in deck order with duplicates, score 0, no last_seen, and fresh ids |
| SyncLaws.DuplicatesAreBothInserted | lib/retainn/util.py:70-78 | two identical new cards are both inserted |
| SyncLaws.RerunFindsNothingToDo | lib/retainn/util.py:56-70 | a second run with the same markdown finds both difference sets empty |
| SyncLaws.CorrectedSyncIsIdempotent | lib/retainn/util.py:56-78 | with the empty deletion skipped, a second run leaves the cards as the first left them |
| SyncLaws.AddOnlyUpdateLosesNewCards | lib/retainn/util.py:67-68 | an update that only adds cards has an empty deletion set, so the code as written stops before inserting them, although the synchronised store would hold them |
| SyncLaws.FirstCardOfEmptyDeckIsLost | lib/retainn/util.py:67-68 | the smallest such case: one new card for a deck without stored cards |
| SyncLaws.ImportedHashesAreParsedHashes | lib/retainn/util.py:32-38 | after an import the deck's stored hashes are exactly the parsed hashes |
| Routing.CompileRoutes | lib/retainn/webapp.py:239-247 | one compiled entry per table entry, in table order, with the regex "^" + pattern + "/*$" |
| Routing.DigitRun | lib/retainn/webapp.py:232-236 | the greedy `[0-9]+`: the longest run of leading digits |
| Routing.MatchCardPath | lib/retainn/webapp.py:243 | definition of the anchored match; MatchCardPathSound and MatchCardPathComplete state exactly which paths it accepts and what it captures |
| Routing.MatchCardPathComplete | lib/retainn/webapp.py:243 | every path made of "/cards/", digits, the suffix, slashes and perhaps one final newline matches, capturing the digits |
| Routing.MatchCardPathSound | lib/retainn/webapp.py:243 | every accepted path has that shape, with the capture as its digits |
| Routing.FirstDynamic | lib/retainn/webapp.py:265-273 | the route found has the request's verb and a pattern that matches |
| Routing.FirstDynamicIsFirst | lib/retainn/webapp.py:265-273 | no earlier route has the verb and a matching pattern |
| Routing.Route | lib/retainn/webapp.py:252-278 | only a dynamic route captures, and what it captures is a non-empty run of decimal digits |
| Routing.RouteChoosesFirstMatch | lib/retainn/webapp.py:252-278 | a static entry wins and carries no match; otherwise the first dynamic route with the verb and a match wins; otherwise GET_404 with no match |
| Routing.CompiledDynamicRoutes | lib/retainn/webapp.py:249 | the module-level table is the four dynamic routes compiled in order |
| Routing.PostToRootIsNotFound | lib/retainn/webapp.py:226-229 | POST "/" routes to GET_404 with no match |
| Routing.RecallPathIsNotACardPath | lib/retainn/webapp.py:232 | the card pattern rejects "/cards/3/did-recall" |
| Routing.GetOfRecallActionIsNotFound | lib/retainn/webapp.py:275-278 | GET "/cards/3/did-recall" routes to GET_404 with no match |
| Routing.CardWithTrailingSlashes | lib/retainn/webapp.py:243 | GET "/cards/7//" routes to GET_card with id "7" |
| Routing.SkipWithFinalNewline | lib/retainn/webapp.py:243 | Python's `$` also matches before a final newline, so POST "/cards/42/skip\n" routes to POST_skip with id "42" |

## Left out

- Input and output.
  - SQLite itself, cursors, commits, `create_db`, `open_db` and the loading of SQL templates are not modelled.
  - The tables are sequences of rows, and each statement is modelled by what it does to them.
  - The template texts are not part of this model. `DeleteCardsByHash` receives its template as a parameter.
- MD5 is a parameter of type `string -> Digest`, where a digest is 32 lowercase hex characters. RFC 1321 is not implemented.
- The clock (`make_tstamp`) is a `now` parameter.
- Bytes and text are one `string` type. The `''`/`b''` distinction is dropped.
- Other modules and functions outside the model:
  - `import_deck_url` and `lib/retainn/curl.py`: network fetching;
  - `write_deck_to_disk`: file output;
  - the web handlers, markdown rendering and the WSGI application;
  - the command line, prompt and help modules.
- Runtime type checks. The `py23.is_*` assertions are not modelled. Note that `insert_deck` and the storage `update_deck` assert that the title is a string, so a preamble without a title would stop there. The model stores the optional title as it is.
- Lexer.LexWith: when no pattern matches, the source would raise TypeError while building the error message, because the format string has one `%s` for two values (lib/retainn/parse.py:55-56). The model returns `Failed` there instead. With the real table the branch is unreachable, because the catch-all pattern always matches.
- Sync.UpdateDeck: when the parse returns no deck, the source raises AttributeError on `deck_ast.preamble`. The model returns the outcome `NoDeckParsed`, with nothing written.
- Sync.UpdateDeck and Sync.ImportDeckMd: the two sources' assertions (`assert deck_ast is not None`, and the non-empty assertion of `delete_cards_by_hash`) are modelled as outcomes. Python run with `-O` would skip them.
- CardStore.Store.InsertCard: a new card's id comes from a counter, so the model never hands out a card id twice. For an integer primary key without AUTOINCREMENT, SQLite picks one more than the largest stored rowid, and so may reuse the id of a deleted card. Nothing in the model refers to a card id after its row is deleted, but the ids themselves can differ from SQLite's.
- CardStore.Store.SelectCard: select_card also returns the deck title by a join. The model returns only the card row.
- The other queries of the storage module are not part of the core: `select_decks`, `select_count_card` and `select_next_card`.
- DeckShapes.MinimalDeck: the minimal deck is proved on its token sequence, not on the literal markdown text. Lexing of each piece of such a text is proved separately by `LexOneChar`, `LexBack`, `LexLastAtEnd` and `Lexer.FrontBeatsLast`.
- Routing.Route: handlers are an enumeration. The regex match object is reduced to the captured card id.
- Three behaviours of the code that are easy to misread:
  - the front of the minimal deck is "Q", not "Q\n\n": the separators own the blank lines around them (lib/retainn/parse.py:20-26, and tests.py:203 expects a front without trailing newlines);
  - every duplicate new card is inserted, not only the first (lib/retainn/util.py:71-78);
  - `sql_replace_where_in` replaces every marker, although its docstring (lib/retainn/db.py:397-398) says the first one.

## Findings

| source | as written | input that shows it | evidently intended | confidence | as-written member | corrected member |
|---|---|---|---|---|---|---|
| lib/retainn/util.py:67-68 | `delete_cards_by_hash` is called even when `old - new` is empty, and it asserts a non-empty set (lib/retainn/db.py:387) | a stored deck with no cards, updated with markdown holding one card: nothing to remove, one card to add | skip the deletion when nothing is to be removed, and go on to insert the new cards | not executed | Sync.UpdateDeck / SyncLaws.AddOnlyUpdateLosesNewCards | Sync.UpdateDeckCorrected / SyncLaws.CorrectedSyncIsIdempotent |
