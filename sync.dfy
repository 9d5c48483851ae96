/**
 * Deck synchronisation (import_deck_md, update_deck): parse the markdown,
 * rewrite the deck row, and bring the deck's cards in line with the parsed
 * cards by content hash, so that cards whose text did not change keep their
 * score and last_seen.
 */
module Sync {
  import opened Common
  import opened Lexer
  import opened Parser
  import opened Titles
  import opened Db
  import opened CardStore

  /** What parsing the markdown from its first token gives. */
  function ParseMarkdown(markdown: string): DeckResult
  {
    DeckAt(LexFrom(markdown, 0).tokens, 0)
  }

  /** The card hashes of the parsed cards, in deck order. */
  function HashList(md5: string -> Digest, cards: seq<CardNode>): (r: seq<string>)
    ensures |r| == |cards|
    ensures forall k :: 0 <= k < |r| ==> r[k] == CardHash(md5, cards[k].frontText, cards[k].backText)
  {
    if cards == [] then []
    else HashList(md5, cards[..|cards| - 1]) + [CardHash(md5, cards[|cards| - 1].frontText, cards[|cards| - 1].backText)]
  }

  /** new_card_hashes: the set of the parsed cards' hashes. */
  function NewHashes(md5: string -> Digest, cards: seq<CardNode>): set<string>
  {
    set h | h in HashList(md5, cards)
  }

  /** old_card_hashes: the set of the hashes stored for the deck. */
  function StoredHashes(stored: seq<CardRow>, deckId: int): set<string>
  {
    set h | h in DeckHashes(stored, deckId)
  }

  /** The parsed cards whose hash is in `wanted`, in deck order, duplicates kept. */
  function Select(md5: string -> Digest, cards: seq<CardNode>, wanted: set<string>): (r: seq<CardNode>)
    ensures |r| <= |cards|
  {
    if cards == [] then []
    else
      var last := cards[|cards| - 1];
      Select(md5, cards[..|cards| - 1], wanted)
        + (if CardHash(md5, last.frontText, last.backText) in wanted then [last] else [])
  }

  /** The rows insert_card adds for `cards`, in order, with ids from `nextId` on, score 0 and no last_seen. */
  function NewRows(md5: string -> Digest, cards: seq<CardNode>, deckId: int, nextId: int): (r: seq<CardRow>)
    ensures |r| == |cards|
  {
    if cards == [] then []
    else
      var last := cards[|cards| - 1];
      NewRows(md5, cards[..|cards| - 1], deckId, nextId)
        + [CardRow(nextId + |cards| - 1, CardHash(md5, last.frontText, last.backText), last.frontText, last.backText, 0, None, deckId)]
  }

  /**
   * The cards after update_deck: the deck's cards whose hash is no longer
   * parsed are gone, and every parsed card whose hash was not stored is
   * added at the end.
   */
  function SyncedCards(md5: string -> Digest, stored: seq<CardRow>, deckId: int, cards: seq<CardNode>, nextId: int): seq<CardRow>
  {
    var oldHashes := StoredHashes(stored, deckId);
    var newHashes := NewHashes(md5, cards);
    RemoveByHash(stored, deckId, oldHashes - newHashes)
      + NewRows(md5, Select(md5, cards, newHashes - oldHashes), deckId, nextId)
  }

  /** How update_deck ends. */
  datatype UpdateOutcome =
    | Updated
      /** parse_deck's unguarded token read raised IndexError; nothing was written. */
    | ParseRaisedIndexError
      /** parse_deck returned no deck, so reading its preamble raised AttributeError; nothing was written. */
    | NoDeckParsed
      /** No stored card was dropped, so delete_cards_by_hash's assertion failed after the deck row was rewritten. */
    | NothingToRemove

  /** How import_deck_md ends. */
  datatype ImportOutcome =
    | Imported(deckId: int)
    | ImportParseRaisedIndexError
      /** The assertion that a deck was parsed failed; nothing was written. */
    | ImportNoDeckParsed

  /**
   * update_deck as written.  Time is `now`; `template` is the
   * delete_cards_by_hash statement template.
   */
  method UpdateDeck(store: Store, deckId: int, markdown: string, etag: Option<string>, now: int, template: string)
    returns (outcome: UpdateOutcome)
    requires store.Valid()
    modifies store
    ensures store.Valid()
    ensures ParseMarkdown(markdown).RaisesIndexError? ==> outcome == ParseRaisedIndexError && unchanged(store)
    ensures ParseMarkdown(markdown).Returned? && ParseMarkdown(markdown).step.node.None? ==>
      outcome == NoDeckParsed && unchanged(store)
    ensures ParseMarkdown(markdown).Returned? && ParseMarkdown(markdown).step.node.Some? ==>
      var deck := ParseMarkdown(markdown).step.node.value;
      var preamble := deck.preamble.text;
      var oldHashes := StoredHashes(old(store.cards), deckId);
      var newHashes := NewHashes(store.md5, deck.cards);
      && store.decks == UpdateDeckRows(old(store.decks), deckId, now, etag, store.md5(markdown), ExtractTitle(preamble), preamble)
      && (oldHashes - newHashes == {} ==>
            outcome == NothingToRemove && store.cards == old(store.cards) && store.nextCardId == old(store.nextCardId))
      && (oldHashes - newHashes != {} ==>
            && outcome == Updated
            && store.cards == SyncedCards(store.md5, old(store.cards), deckId, deck.cards, old(store.nextCardId))
            && store.nextCardId == old(store.nextCardId) + |Select(store.md5, deck.cards, newHashes - oldHashes)|)
  {
    var lastFetched := now;
    var deckHash := store.md5(markdown);
    var lexed := LexDeck(markdown);
    var parsed := ParseDeck(lexed.tokens, 0);
    if parsed.RaisesIndexError? {
      return ParseRaisedIndexError;
    }
    if parsed.step.node.None? {
      return NoDeckParsed;
    }
    var deck := parsed.step.node.value;
    var preambleMd := deck.preamble.text;
    var title := ExtractTitle(preambleMd);
    store.UpdateDeckRow(deckId, lastFetched, etag, deckHash, title, preambleMd);
    var nothingRemoved := SyncDeckCards(store, deckId, deck.cards, template);
    outcome := if nothingRemoved then NothingToRemove else Updated;
  }

  /**
   * The card half of update_deck as written: when no stored card is to be
   * removed it goes no further (delete_cards_by_hash's assertion fails);
   * otherwise it removes the dropped cards and inserts the new ones.
   */
  method SyncDeckCards(store: Store, deckId: int, cards: seq<CardNode>, template: string) returns (nothingRemoved: bool)
    requires store.Valid()
    modifies store
    ensures store.Valid()
    ensures store.decks == old(store.decks)
    ensures nothingRemoved <==> StoredHashes(old(store.cards), deckId) - NewHashes(store.md5, cards) == {}
    ensures nothingRemoved ==> store.cards == old(store.cards) && store.nextCardId == old(store.nextCardId)
    ensures !nothingRemoved ==>
      && store.cards == SyncedCards(store.md5, old(store.cards), deckId, cards, old(store.nextCardId))
      && store.nextCardId == old(store.nextCardId)
           + |Select(store.md5, cards, NewHashes(store.md5, cards) - StoredHashes(old(store.cards), deckId))|
  {
    var stored := store.SelectCardHashesByDeckId(deckId);
    var oldHashes := set h | h in stored;
    var newHashes := CollectHashes(store.md5, cards);
    var toBeRemoved := oldHashes - newHashes;
    if toBeRemoved == {} {
      return true;
    }
    var _ := store.DeleteCardsByHash(deckId, toBeRemoved, template);
    var toBeInserted := newHashes - oldHashes;
    InsertSelected(store, cards, toBeInserted, deckId);
    nothingRemoved := false;
  }

  /**
   * update_deck with the deletion skipped when nothing is to be removed:
   * the deck's cards always end as the parsed cards dictate.
   */
  method UpdateDeckCorrected(store: Store, deckId: int, markdown: string, etag: Option<string>, now: int, template: string)
    returns (outcome: UpdateOutcome)
    requires store.Valid()
    modifies store
    ensures store.Valid()
    ensures ParseMarkdown(markdown).RaisesIndexError? ==> outcome == ParseRaisedIndexError && unchanged(store)
    ensures ParseMarkdown(markdown).Returned? && ParseMarkdown(markdown).step.node.None? ==>
      outcome == NoDeckParsed && unchanged(store)
    ensures ParseMarkdown(markdown).Returned? && ParseMarkdown(markdown).step.node.Some? ==>
      var deck := ParseMarkdown(markdown).step.node.value;
      var preamble := deck.preamble.text;
      var oldHashes := StoredHashes(old(store.cards), deckId);
      var newHashes := NewHashes(store.md5, deck.cards);
      && outcome == Updated
      && store.decks == UpdateDeckRows(old(store.decks), deckId, now, etag, store.md5(markdown), ExtractTitle(preamble), preamble)
      && store.cards == SyncedCards(store.md5, old(store.cards), deckId, deck.cards, old(store.nextCardId))
      && store.nextCardId == old(store.nextCardId) + |Select(store.md5, deck.cards, newHashes - oldHashes)|
  {
    var lastFetched := now;
    var deckHash := store.md5(markdown);
    var lexed := LexDeck(markdown);
    var parsed := ParseDeck(lexed.tokens, 0);
    if parsed.RaisesIndexError? {
      return ParseRaisedIndexError;
    }
    if parsed.step.node.None? {
      return NoDeckParsed;
    }
    var deck := parsed.step.node.value;
    var preambleMd := deck.preamble.text;
    var title := ExtractTitle(preambleMd);
    store.UpdateDeckRow(deckId, lastFetched, etag, deckHash, title, preambleMd);
    SyncDeckCardsCorrected(store, deckId, deck.cards, template);
    outcome := Updated;
  }

  /** The card half of update_deck with the deletion skipped when nothing is to be removed. */
  method SyncDeckCardsCorrected(store: Store, deckId: int, cards: seq<CardNode>, template: string)
    requires store.Valid()
    modifies store
    ensures store.Valid()
    ensures store.decks == old(store.decks)
    ensures store.cards == SyncedCards(store.md5, old(store.cards), deckId, cards, old(store.nextCardId))
    ensures store.nextCardId == old(store.nextCardId)
      + |Select(store.md5, cards, NewHashes(store.md5, cards) - StoredHashes(old(store.cards), deckId))|
  {
    var stored := store.SelectCardHashesByDeckId(deckId);
    var oldHashes := set h | h in stored;
    var newHashes := CollectHashes(store.md5, cards);
    var toBeRemoved := oldHashes - newHashes;
    if toBeRemoved != {} {
      var _ := store.DeleteCardsByHash(deckId, toBeRemoved, template);
    } else {
      RemoveNothing(store.cards, deckId);
    }
    var toBeInserted := newHashes - oldHashes;
    InsertSelected(store, cards, toBeInserted, deckId);
  }

  /** The loop that fills new_card_hashes. */
  method CollectHashes(md5: string -> Digest, cards: seq<CardNode>) returns (hashes: set<string>)
    ensures hashes == NewHashes(md5, cards)
  {
    hashes := {};
    var k := 0;
    while k < |cards|
      invariant k <= |cards|
      invariant hashes == NewHashes(md5, cards[..k])
    {
      var card := cards[k];
      var cardHash := CardHash(md5, card.frontText, card.backText);
      assert cards[..k + 1][..k] == cards[..k];
      hashes := hashes + {cardHash};
      k := k + 1;
    }
    assert cards[..k] == cards;
  }

  /** The insertion loop: every card whose hash is wanted is inserted, in order, with the default score and last_seen. */
  method InsertSelected(store: Store, cards: seq<CardNode>, wanted: set<string>, deckId: int)
    requires store.Valid()
    modifies store
    ensures store.Valid()
    ensures store.cards == old(store.cards) + NewRows(store.md5, Select(store.md5, cards, wanted), deckId, old(store.nextCardId))
    ensures store.nextCardId == old(store.nextCardId) + |Select(store.md5, cards, wanted)|
    ensures store.decks == old(store.decks)
  {
    ghost var base := store.cards;
    ghost var firstId := store.nextCardId;
    ghost var chosen: seq<CardNode> := [];
    var k := 0;
    while k < |cards|
      invariant k <= |cards| && store.Valid()
      invariant chosen == Select(store.md5, cards[..k], wanted)
      invariant store.cards == base + NewRows(store.md5, chosen, deckId, firstId)
      invariant store.nextCardId == firstId + |chosen|
      invariant store.decks == old(store.decks)
    {
      var card := cards[k];
      var cardHash := CardHash(store.md5, card.frontText, card.backText);
      if cardHash in wanted {
        var _ := store.InsertCard(card.frontText, card.backText, deckId, None, 0);
        assert store.cards == base + NewRows(store.md5, chosen + [card], deckId, firstId) by {
          NewRowsSnoc(store.md5, base, chosen, card, deckId, firstId);
        }
        SelectPrefixIn(store.md5, cards, k, wanted);
        chosen := chosen + [card];
      } else {
        SelectPrefixOut(store.md5, cards, k, wanted);
      }
      k := k + 1;
    }
    assert cards[..k] == cards;
  }

  /** One more card of the prefix, with a wanted hash, is selected after the others. */
  lemma SelectPrefixIn(md5: string -> Digest, cards: seq<CardNode>, k: nat, wanted: set<string>)
    requires k < |cards| && CardHash(md5, cards[k].frontText, cards[k].backText) in wanted
    ensures Select(md5, cards[..k + 1], wanted) == Select(md5, cards[..k], wanted) + [cards[k]]
  {
    assert cards[..k + 1][..k] == cards[..k];
  }

  /** One more card of the prefix, with an unwanted hash, changes nothing. */
  lemma SelectPrefixOut(md5: string -> Digest, cards: seq<CardNode>, k: nat, wanted: set<string>)
    requires k < |cards| && CardHash(md5, cards[k].frontText, cards[k].backText) !in wanted
    ensures Select(md5, cards[..k + 1], wanted) == Select(md5, cards[..k], wanted)
  {
    assert cards[..k + 1][..k] == cards[..k];
    assert Select(md5, cards[..k], wanted) + [] == Select(md5, cards[..k], wanted);
  }

  /** One more card adds one row, whose id follows those of the rows before it. */
  lemma NewRowsSnoc(md5: string -> Digest, base: seq<CardRow>, cards: seq<CardNode>, card: CardNode, deckId: int, nextId: int)
    ensures base + NewRows(md5, cards + [card], deckId, nextId)
      == base + NewRows(md5, cards, deckId, nextId)
         + [CardRow(nextId + |cards|, CardHash(md5, card.frontText, card.backText), card.frontText, card.backText, 0, None, deckId)]
  {
    assert (cards + [card])[..|cards|] == cards;
  }

  /** The insertion loop of import_deck_md: every parsed card, in order. */
  method InsertAll(store: Store, cards: seq<CardNode>, deckId: int)
    requires store.Valid()
    modifies store
    ensures store.Valid()
    ensures store.cards == old(store.cards) + NewRows(store.md5, cards, deckId, old(store.nextCardId))
    ensures store.nextCardId == old(store.nextCardId) + |cards|
    ensures store.decks == old(store.decks)
  {
    ghost var base := store.cards;
    ghost var firstId := store.nextCardId;
    var k := 0;
    while k < |cards|
      invariant k <= |cards| && store.Valid()
      invariant store.cards == base + NewRows(store.md5, cards[..k], deckId, firstId)
      invariant store.nextCardId == firstId + k
      invariant store.decks == old(store.decks)
    {
      var card := cards[k];
      assert cards[..k + 1] == cards[..k] + [card];
      NewRowsSnoc(store.md5, base, cards[..k], card, deckId, firstId);
      var _ := store.InsertCard(card.frontText, card.backText, deckId, None, 0);
      k := k + 1;
    }
    assert cards[..k] == cards;
  }

  lemma {:induction false} RemoveNothing(cards: seq<CardRow>, deckId: int)
    ensures RemoveByHash(cards, deckId, {}) == cards
  {
    if cards != [] {
      RemoveNothing(cards[1..], deckId);
      assert cards == [cards[0]] + cards[1..];
    }
  }

  /**
   * import_deck_md: the deck must parse; every deck from the same URL is
   * replaced by a new deck row, and every parsed card is inserted in order,
   * duplicates included.
   */
  method ImportDeckMd(store: Store, gistUrl: string, etag: Option<string>, markdown: string, now: int)
    returns (outcome: ImportOutcome)
    requires store.Valid()
    modifies store
    ensures store.Valid()
    ensures ParseMarkdown(markdown).RaisesIndexError? ==> outcome == ImportParseRaisedIndexError && unchanged(store)
    ensures ParseMarkdown(markdown).Returned? && ParseMarkdown(markdown).step.node.None? ==>
      outcome == ImportNoDeckParsed && unchanged(store)
    ensures ParseMarkdown(markdown).Returned? && ParseMarkdown(markdown).step.node.Some? ==>
      var deck := ParseMarkdown(markdown).step.node.value;
      var preamble := deck.preamble.text;
      && outcome.Imported?
      && outcome.deckId >= 1
      && (forall d :: d in RemoveDecksByUrl(old(store.decks), gistUrl) ==> d.deckId < outcome.deckId)
      && store.decks == RemoveDecksByUrl(old(store.decks), gistUrl)
           + [DeckRow(outcome.deckId, gistUrl, now, etag, store.md5(markdown), ExtractTitle(preamble), preamble)]
      && store.cards == RemoveDeckCards(old(store.cards), outcome.deckId)
           + NewRows(store.md5, deck.cards, outcome.deckId, old(store.nextCardId))
      && store.nextCardId == old(store.nextCardId) + |deck.cards|
  {
    var lastFetched := now;
    var hash := store.md5(markdown);
    var lexed := LexDeck(markdown);
    var parsed := ParseDeck(lexed.tokens, 0);
    if parsed.RaisesIndexError? {
      return ImportParseRaisedIndexError;
    }
    if parsed.step.node.None? {
      return ImportNoDeckParsed;
    }
    var deck := parsed.step.node.value;
    var preambleMd := deck.preamble.text;
    var title := ExtractTitle(preambleMd);
    store.DeleteDeck(gistUrl);
    var deckId := store.InsertDeck(gistUrl, lastFetched, etag, hash, title, preambleMd);
    store.DeleteCardsForDeck(deckId);
    InsertAll(store, deck.cards, deckId);
    outcome := Imported(deckId);
  }
}
