/**
 * What synchronisation guarantees about the card table: after an update the
 * deck's stored hashes are the parsed hashes, cards whose text did not change
 * survive untouched, new cards come in deck order with default score and
 * last_seen, and a second run has nothing left to do.
 */
module SyncLaws {
  import opened Common
  import opened Parser
  import opened Db
  import opened Sync

  function Hash(md5: string -> Digest, c: CardNode): string
  {
    CardHash(md5, c.frontText, c.backText)
  }

  /** The k-th new row is the k-th card, with id nextId + k, score 0 and no last_seen. */
  lemma {:induction false} NewRowsAt(md5: string -> Digest, cards: seq<CardNode>, deckId: int, nextId: int, k: nat)
    requires k < |cards|
    ensures NewRows(md5, cards, deckId, nextId)[k]
      == CardRow(nextId + k, Hash(md5, cards[k]), cards[k].frontText, cards[k].backText, 0, None, deckId)
    decreases |cards|
  {
    if k < |cards| - 1 {
      NewRowsAt(md5, cards[..|cards| - 1], deckId, nextId, k);
    }
  }

  /** Select keeps exactly the cards whose hash is wanted. */
  lemma {:induction false} SelectMembers(md5: string -> Digest, cards: seq<CardNode>, wanted: set<string>, c: CardNode)
    ensures c in Select(md5, cards, wanted) <==> c in cards && Hash(md5, c) in wanted
    decreases |cards|
  {
    if cards != [] {
      var init := cards[..|cards| - 1];
      SelectMembers(md5, init, wanted, c);
      assert cards == init + [cards[|cards| - 1]];
    }
  }

  /** A parsed hash belongs to some parsed card. */
  lemma NewHashWitness(md5: string -> Digest, cards: seq<CardNode>, h: string) returns (c: CardNode)
    requires h in NewHashes(md5, cards)
    ensures c in cards && Hash(md5, c) == h
  {
    var k :| 0 <= k < |cards| && HashList(md5, cards)[k] == h;
    c := cards[k];
  }

  /** A row among the new rows is the row of a card of `cards`. */
  lemma NewRowWitness(md5: string -> Digest, cards: seq<CardNode>, deckId: int, nextId: int, r: CardRow)
    requires r in NewRows(md5, cards, deckId, nextId)
    ensures r.deckId == deckId && r.cardId >= nextId && r.score == 0 && r.lastSeen.None?
    ensures exists c :: c in cards && r.hash == Hash(md5, c)
  {
    var k :| 0 <= k < |NewRows(md5, cards, deckId, nextId)| && NewRows(md5, cards, deckId, nextId)[k] == r;
    NewRowsAt(md5, cards, deckId, nextId, k);
    assert cards[k] in cards;
  }

  /** The row of a card of `cards` is among the new rows. */
  lemma NewRowOf(md5: string -> Digest, cards: seq<CardNode>, deckId: int, nextId: int, c: CardNode) returns (r: CardRow)
    requires c in cards
    ensures r in NewRows(md5, cards, deckId, nextId) && r.deckId == deckId && r.hash == Hash(md5, c)
  {
    var k :| 0 <= k < |cards| && cards[k] == c;
    NewRowsAt(md5, cards, deckId, nextId, k);
    r := NewRows(md5, cards, deckId, nextId)[k];
  }

  /** After update_deck the hashes stored for the deck are exactly the hashes of the parsed cards. */
  lemma SyncedHashesAreParsedHashes(md5: string -> Digest, stored: seq<CardRow>, deckId: int, cards: seq<CardNode>, nextId: int)
    ensures StoredHashes(SyncedCards(md5, stored, deckId, cards, nextId), deckId) == NewHashes(md5, cards)
  {
    var oldHashes := StoredHashes(stored, deckId);
    var newHashes := NewHashes(md5, cards);
    var kept := RemoveByHash(stored, deckId, oldHashes - newHashes);
    var chosen := Select(md5, cards, newHashes - oldHashes);
    var added := NewRows(md5, chosen, deckId, nextId);
    var synced := SyncedCards(md5, stored, deckId, cards, nextId);
    assert synced == kept + added;
    forall h | h in StoredHashes(synced, deckId)
      ensures h in newHashes
    {
      var r :| r in synced && r.deckId == deckId && r.hash == h;
      if r in kept {
        assert h in DeckHashes(stored, deckId);
      } else {
        NewRowWitness(md5, chosen, deckId, nextId, r);
        var c :| c in chosen && r.hash == Hash(md5, c);
        SelectMembers(md5, cards, newHashes - oldHashes, c);
      }
    }
    forall h | h in newHashes
      ensures h in StoredHashes(synced, deckId)
    {
      if h in oldHashes {
        var r :| r in stored && r.deckId == deckId && r.hash == h;
        assert r in kept && r in synced;
      } else {
        var c := NewHashWitness(md5, cards, h);
        SelectMembers(md5, cards, newHashes - oldHashes, c);
        var r := NewRowOf(md5, chosen, deckId, nextId, c);
        assert r in synced;
      }
    }
  }

  /**
   * Nothing else changes: a stored card of another deck, or of this deck
   * with a hash still parsed, is still there with the same score and
   * last_seen; a card of this deck whose hash is no longer parsed is gone.
   */
  lemma SyncKeepsUnchangedCards(md5: string -> Digest, stored: seq<CardRow>, deckId: int, cards: seq<CardNode>, nextId: int, c: CardRow)
    requires c in stored && c.cardId < nextId
    ensures c in SyncedCards(md5, stored, deckId, cards, nextId)
      <==> c.deckId != deckId || c.hash in NewHashes(md5, cards)
  {
    var oldHashes := StoredHashes(stored, deckId);
    var newHashes := NewHashes(md5, cards);
    var chosen := Select(md5, cards, newHashes - oldHashes);
    var added := NewRows(md5, chosen, deckId, nextId);
    if c in added {
      NewRowWitness(md5, chosen, deckId, nextId, c);
    }
    if c.deckId == deckId {
      assert c.hash in DeckHashes(stored, deckId);
    }
  }

  /**
   * The rows added are the parsed cards whose hash was not stored, in deck
   * order and with duplicates, each with score 0, no last_seen, the deck's
   * id and a fresh id.
   */
  lemma SyncAddsNewCards(md5: string -> Digest, stored: seq<CardRow>, deckId: int, cards: seq<CardNode>, nextId: int)
    ensures var chosen := Select(md5, cards, NewHashes(md5, cards) - StoredHashes(stored, deckId));
      var synced := SyncedCards(md5, stored, deckId, cards, nextId);
      var kept := |synced| - |chosen|;
      && 0 <= kept
      && (forall k :: 0 <= k < |chosen| ==>
            synced[kept + k] == CardRow(nextId + k, Hash(md5, chosen[k]), chosen[k].frontText, chosen[k].backText, 0, None, deckId))
      && (forall c :: c in chosen <==> c in cards && Hash(md5, c) !in StoredHashes(stored, deckId))
  {
    var oldHashes := StoredHashes(stored, deckId);
    var newHashes := NewHashes(md5, cards);
    var chosen := Select(md5, cards, newHashes - oldHashes);
    var kept := RemoveByHash(stored, deckId, oldHashes - newHashes);
    var synced := SyncedCards(md5, stored, deckId, cards, nextId);
    assert synced == kept + NewRows(md5, chosen, deckId, nextId);
    forall k | 0 <= k < |chosen|
      ensures synced[|kept| + k] == CardRow(nextId + k, Hash(md5, chosen[k]), chosen[k].frontText, chosen[k].backText, 0, None, deckId)
    {
      NewRowsAt(md5, chosen, deckId, nextId, k);
    }
    forall c
      ensures c in chosen <==> c in cards && Hash(md5, c) !in oldHashes
    {
      SelectMembers(md5, cards, newHashes - oldHashes, c);
      if c in cards {
        var k :| 0 <= k < |cards| && cards[k] == c;
        assert HashList(md5, cards)[k] == Hash(md5, c);
      }
    }
  }

  /** Two identical new cards are both inserted: there is no first-occurrence deduplication. */
  lemma DuplicatesAreBothInserted(md5: string -> Digest, stored: seq<CardRow>, deckId: int, c: CardNode, nextId: int)
    requires Hash(md5, c) !in StoredHashes(stored, deckId)
    ensures Select(md5, [c, c], NewHashes(md5, [c, c]) - StoredHashes(stored, deckId)) == [c, c]
  {
    var wanted := NewHashes(md5, [c, c]) - StoredHashes(stored, deckId);
    assert HashList(md5, [c, c])[0] == Hash(md5, c);
    assert Hash(md5, c) in wanted;
    assert [c, c][..1] == [c];
    assert [c][..0] == [];
  }

  /**
   * A second update with the same markdown finds nothing to remove and
   * nothing to insert; update_deck as written then fails on the empty
   * deletion set.
   */
  lemma RerunFindsNothingToDo(md5: string -> Digest, stored: seq<CardRow>, deckId: int, cards: seq<CardNode>, nextId: int)
    ensures var synced := SyncedCards(md5, stored, deckId, cards, nextId);
      && StoredHashes(synced, deckId) - NewHashes(md5, cards) == {}
      && NewHashes(md5, cards) - StoredHashes(synced, deckId) == {}
  {
    SyncedHashesAreParsedHashes(md5, stored, deckId, cards, nextId);
  }

  /** The corrected update is idempotent: a second run leaves the cards as the first left them. */
  lemma CorrectedSyncIsIdempotent(md5: string -> Digest, stored: seq<CardRow>, deckId: int, cards: seq<CardNode>, nextId: int, laterId: int)
    ensures var once := SyncedCards(md5, stored, deckId, cards, nextId);
      SyncedCards(md5, once, deckId, cards, laterId) == once
  {
    var once := SyncedCards(md5, stored, deckId, cards, nextId);
    SyncedHashesAreParsedHashes(md5, stored, deckId, cards, nextId);
    var h := StoredHashes(once, deckId);
    assert h - NewHashes(md5, cards) == {};
    assert NewHashes(md5, cards) - h == {};
    RemoveNothing(once, deckId);
    SelectNothing(md5, cards);
    assert once + [] == once;
  }

  lemma {:induction false} SelectNothing(md5: string -> Digest, cards: seq<CardNode>)
    ensures Select(md5, cards, {}) == []
    decreases |cards|
  {
    if cards != [] {
      SelectNothing(md5, cards[..|cards| - 1]);
    }
  }

  /**
   * The finding: when the update removes no card but adds one, update_deck
   * as written stops at the empty deletion set, so the new cards are never
   * inserted and the stored hashes disagree with the deck; the corrected
   * update inserts them.
   */
  lemma AddOnlyUpdateLosesNewCards(md5: string -> Digest, stored: seq<CardRow>, deckId: int, cards: seq<CardNode>, nextId: int)
    requires StoredHashes(stored, deckId) <= NewHashes(md5, cards)
    requires NewHashes(md5, cards) - StoredHashes(stored, deckId) != {}
    ensures StoredHashes(stored, deckId) - NewHashes(md5, cards) == {}
    ensures StoredHashes(stored, deckId) != NewHashes(md5, cards)
    ensures |Select(md5, cards, NewHashes(md5, cards) - StoredHashes(stored, deckId))| > 0
    ensures StoredHashes(SyncedCards(md5, stored, deckId, cards, nextId), deckId) == NewHashes(md5, cards)
  {
    var wanted := NewHashes(md5, cards) - StoredHashes(stored, deckId);
    var h :| h in wanted;
    var c := NewHashWitness(md5, cards, h);
    SelectMembers(md5, cards, wanted, c);
    SyncedHashesAreParsedHashes(md5, stored, deckId, cards, nextId);
  }

  /** The smallest case of the finding: the first update of a deck with no stored cards that adds one card. */
  lemma FirstCardOfEmptyDeckIsLost(md5: string -> Digest, deckId: int, c: CardNode)
    ensures StoredHashes([], deckId) - NewHashes(md5, [c]) == {}
    ensures |Select(md5, [c], NewHashes(md5, [c]) - StoredHashes([], deckId))| == 1
  {
    assert HashList(md5, [c])[0] == Hash(md5, c);
    assert [c][..0] == [];
  }

  /** After import_deck_md the new deck's stored hashes are exactly the parsed hashes. */
  lemma ImportedHashesAreParsedHashes(md5: string -> Digest, stored: seq<CardRow>, deckId: int, cards: seq<CardNode>, nextId: int)
    ensures StoredHashes(RemoveDeckCards(stored, deckId) + NewRows(md5, cards, deckId, nextId), deckId) == NewHashes(md5, cards)
  {
    var rows := RemoveDeckCards(stored, deckId) + NewRows(md5, cards, deckId, nextId);
    forall h | h in StoredHashes(rows, deckId)
      ensures h in NewHashes(md5, cards)
    {
      var r :| r in rows && r.deckId == deckId && r.hash == h;
      NewRowWitness(md5, cards, deckId, nextId, r);
      var c :| c in cards && r.hash == Hash(md5, c);
      var k :| 0 <= k < |cards| && cards[k] == c;
      assert HashList(md5, cards)[k] == h;
    }
    forall h | h in NewHashes(md5, cards)
      ensures h in StoredHashes(rows, deckId)
    {
      var c := NewHashWitness(md5, cards, h);
      var r := NewRowOf(md5, cards, deckId, nextId, c);
      assert r in rows;
    }
  }
}
