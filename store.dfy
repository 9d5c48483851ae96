/**
 * The card and deck tables, as the storage module reads and writes them
 * through its SQL statements: each statement becomes a method that
 * reassigns the table it changes.  A new deck's id is only known to be
 * greater than every stored deck id, which is what SQLite guarantees for an
 * integer primary key; card ids come from a counter.  The digest function
 * is fixed when the store is made.
 */
module CardStore {
  import opened Common
  import opened Db

  /** The statement delete_cards_by_hash executes: its SQL text and its parameters. */
  datatype Statement = Statement(sql: string, params: seq<SqlParam>)

  class Store {
    var cards: seq<CardRow>
    var decks: seq<DeckRow>
    var nextCardId: int
    const md5: string -> Digest

    /** Every card id is below the next card id to hand out, and no two different rows of a table share an id. */
    predicate Valid()
      reads this
    {
      && (forall c :: c in cards ==> c.cardId < nextCardId)
      && (forall c, d :: c in cards && d in cards && c.cardId == d.cardId ==> c == d)
      && (forall d, e :: d in decks && e in decks && d.deckId == e.deckId ==> d == e)
    }

    constructor (md5: string -> Digest)
      ensures Valid() && this.md5 == md5
      ensures cards == [] && decks == [] && nextCardId == 1
    {
      this.md5 := md5;
      cards := [];
      decks := [];
      nextCardId := 1;
    }

    /**
     * insert_card: a new row with the card hash of its texts; callers that
     * pass no score and no last_seen get 0 and None.  Returns the new id.
     */
    method InsertCard(front: string, back: string, deckId: int, lastSeen: Option<int>, score: int)
      returns (cardId: int)
      requires Valid()
      modifies this
      ensures Valid()
      ensures cardId == old(nextCardId) && nextCardId == cardId + 1
      ensures cards == old(cards) + [CardRow(cardId, CardHash(md5, front, back), front, back, score, lastSeen, deckId)]
      ensures decks == old(decks)
    {
      cardId := nextCardId;
      var hash := CardHash(md5, front, back);
      cards := cards + [CardRow(cardId, hash, front, back, score, lastSeen, deckId)];
      nextCardId := nextCardId + 1;
    }

    /**
     * insert_deck: a new deck row.  Returns the new id, which is only known
     * to be positive and greater than every stored deck id.  It may be the
     * id of a deck deleted before, so cards left over from that deck would
     * now belong to the new one.  The body takes one more than the largest
     * id, as SQLite does for a table whose largest rowid is below its maximum.
     */
    method InsertDeck(gistUrl: string, lastFetched: int, etag: Option<string>, hash: Digest,
                      title: Option<string>, preamble: string)
      returns (deckId: int)
      requires Valid()
      modifies this
      ensures Valid()
      ensures deckId >= 1 && forall d :: d in old(decks) ==> d.deckId < deckId
      ensures decks == old(decks) + [DeckRow(deckId, gistUrl, lastFetched, etag, hash, title, preamble)]
      ensures cards == old(cards) && nextCardId == old(nextCardId)
    {
      deckId := MaxDeckId(decks) + 1;
      decks := decks + [DeckRow(deckId, gistUrl, lastFetched, etag, hash, title, preamble)];
    }

    /** delete_deck: remove every deck fetched from `gistUrl`. */
    method DeleteDeck(gistUrl: string)
      requires Valid()
      modifies this
      ensures Valid()
      ensures decks == RemoveDecksByUrl(old(decks), gistUrl)
      ensures cards == old(cards) && nextCardId == old(nextCardId)
    {
      decks := RemoveDecksByUrl(decks, gistUrl);
    }

    /** update_deck (the statement): rewrite the fetch data, hash, title and preamble of deck `deckId`. */
    method UpdateDeckRow(deckId: int, lastFetched: int, etag: Option<string>, hash: Digest,
                         title: Option<string>, preamble: string)
      requires Valid()
      modifies this
      ensures Valid()
      ensures decks == UpdateDeckRows(old(decks), deckId, lastFetched, etag, hash, title, preamble)
      ensures cards == old(cards) && nextCardId == old(nextCardId)
    {
      decks := UpdateDeckRows(decks, deckId, lastFetched, etag, hash, title, preamble);
    }

    /** delete_cards_for_deck: remove every card of deck `deckId`. */
    method DeleteCardsForDeck(deckId: int)
      requires Valid()
      modifies this
      ensures Valid()
      ensures cards == RemoveDeckCards(old(cards), deckId)
      ensures decks == old(decks) && nextCardId == old(nextCardId)
    {
      cards := RemoveDeckCards(cards, deckId);
    }

    /** select_card_hashes_by_deck_id: the hashes of the deck's cards. */
    method SelectCardHashesByDeckId(deckId: int) returns (hashes: seq<string>)
      ensures forall h :: h in hashes <==> exists c :: c in cards && c.deckId == deckId && c.hash == h
      ensures hashes == DeckHashes(cards, deckId)
    {
      hashes := DeckHashes(cards, deckId);
    }

    /**
     * delete_cards_by_hash: the hash set must be non-empty.  The statement
     * expands the template's `?...?` to one placeholder per hash and binds
     * the deck id followed by the hashes; it removes the deck's cards whose
     * hash is in the set.
     */
    method DeleteCardsByHash(deckId: int, hashes: set<string>, template: string) returns (stmt: Statement)
      requires Valid()
      requires |hashes| > 0
      modifies this
      ensures Valid()
      ensures stmt.sql == SqlReplaceWhereIn(template, |hashes|)
      ensures DeleteParamsShape(stmt.params, deckId, hashes)
      ensures cards == RemoveByHash(old(cards), deckId, hashes)
      ensures decks == old(decks) && nextCardId == old(nextCardId)
    {
      var sql := SqlReplaceWhereIn(template, |hashes|);
      var listed := ListOf(hashes);
      var params := [IntParam(deckId)];
      var k := 0;
      while k < |listed|
        invariant k <= |listed|
        invariant |params| == 1 + k && params[0] == IntParam(deckId)
        invariant forall j :: 1 <= j < |params| ==> params[j] == TextParam(listed[j - 1])
      {
        params := params + [TextParam(listed[k])];
        k := k + 1;
      }
      forall h | h in hashes
        ensures TextParam(h) in params[1..]
      {
        var j :| 0 <= j < |listed| && listed[j] == h;
        assert params[1..][j] == TextParam(h);
      }
      stmt := Statement(sql, params);
      cards := RemoveByHash(cards, deckId, hashes);
    }

    /** update_card_score_last_seen: set the score and last_seen of card `cardId`. */
    method UpdateCardScoreLastSeen(cardId: int, score: int, lastSeen: int)
      requires Valid()
      modifies this
      ensures Valid()
      ensures cards == SetScore(old(cards), cardId, score, lastSeen)
      ensures decks == old(decks) && nextCardId == old(nextCardId)
    {
      cards := SetScore(cards, cardId, score, lastSeen);
    }

    /** select_card: the card must exist. */
    method SelectCard(cardId: int) returns (card: CardRow)
      requires FindCard(cards, cardId).Some?
      ensures card in cards && card.cardId == cardId
      ensures card == FindCard(cards, cardId).value
    {
      card := FindCard(cards, cardId).value;
    }

    /** did_recall_card: the new score by the recall rule, seen `now`.  Returns the new score. */
    method DidRecallCard(cardId: int, now: int) returns (score: int)
      requires Valid() && FindCard(cards, cardId).Some?
      modifies this
      ensures Valid()
      ensures score == RecallScore(FindCard(old(cards), cardId).value.score)
      ensures cards == SetScore(old(cards), cardId, score, now)
      ensures decks == old(decks) && nextCardId == old(nextCardId)
    {
      var card := SelectCard(cardId);
      if card.score < 1 {
        score := 1;
      } else {
        score := card.score + 1;
      }
      var lastSeen := now;
      UpdateCardScoreLastSeen(cardId, score, lastSeen);
    }

    /** did_not_recall_card: the new score by the miss rule, seen `now`.  Returns the new score. */
    method DidNotRecallCard(cardId: int, now: int) returns (score: int)
      requires Valid() && FindCard(cards, cardId).Some?
      modifies this
      ensures Valid()
      ensures score == NotRecallScore(FindCard(old(cards), cardId).value.score)
      ensures cards == SetScore(old(cards), cardId, score, now)
      ensures decks == old(decks) && nextCardId == old(nextCardId)
    {
      var card := SelectCard(cardId);
      if card.score > 1 {
        score := -1;
      } else {
        score := card.score - 1;
      }
      var lastSeen := now;
      UpdateCardScoreLastSeen(cardId, score, lastSeen);
    }

    /** skip_card: the score stays, last_seen becomes `now`. */
    method SkipCard(cardId: int, now: int)
      requires Valid() && FindCard(cards, cardId).Some?
      modifies this
      ensures Valid()
      ensures cards == SetScore(old(cards), cardId, FindCard(old(cards), cardId).value.score, now)
      ensures decks == old(decks) && nextCardId == old(nextCardId)
    {
      var card := SelectCard(cardId);
      var score := card.score;
      var lastSeen := now;
      UpdateCardScoreLastSeen(cardId, score, lastSeen);
    }
  }

  /** list(s): the elements of a set, each once, in some order. */
  method ListOf(s: set<string>) returns (xs: seq<string>)
    ensures |xs| == |s|
    ensures forall x :: x in xs <==> x in s
  {
    xs := [];
    var rest := s;
    while rest != {}
      invariant rest !! (set x | x in xs) && rest + (set x | x in xs) == s
      invariant |xs| + |rest| == |s|
      invariant forall j, k :: 0 <= j < k < |xs| ==> xs[j] != xs[k]
      decreases |rest|
    {
      var x :| x in rest;
      xs := xs + [x];
      rest := rest - {x};
    }
    assert forall x :: x in xs <==> x in (set y | y in xs);
  }

  /** Deleting rows keeps the survivors in their order: the result is a subsequence. */
  predicate SubsequenceOf<T(==)>(r: seq<T>, s: seq<T>)
  {
    r == [] || (s != [] && ((r[0] == s[0] && SubsequenceOf(r[1..], s[1..])) || SubsequenceOf(r, s[1..])))
  }

  lemma {:induction false} RemoveByHashKeepsOrder(cards: seq<CardRow>, deckId: int, hashes: set<string>)
    ensures SubsequenceOf(RemoveByHash(cards, deckId, hashes), cards)
  {
    if cards != [] {
      RemoveByHashKeepsOrder(cards[1..], deckId, hashes);
    }
  }

  lemma {:induction false} RemoveDeckCardsKeepsOrder(cards: seq<CardRow>, deckId: int)
    ensures SubsequenceOf(RemoveDeckCards(cards, deckId), cards)
  {
    if cards != [] {
      RemoveDeckCardsKeepsOrder(cards[1..], deckId);
    }
  }

  lemma {:induction false} RemoveDecksKeepsOrder(decks: seq<DeckRow>, gistUrl: string)
    ensures SubsequenceOf(RemoveDecksByUrl(decks, gistUrl), decks)
  {
    if decks != [] {
      RemoveDecksKeepsOrder(decks[1..], gistUrl);
    }
  }
}
