/**
 * The pure helpers of the storage module: the card hash, the score rules of
 * the three review answers, the `WHERE IN` placeholder expansion, and the
 * row-level meaning of the statements the store issues.
 */
module Db {
  import opened Common

  predicate IsLowerHex(c: char)
  {
    ('0' <= c <= '9') || ('a' <= c <= 'f')
  }

  /** An MD5 hex digest: 32 lowercase hexadecimal characters. */
  predicate IsDigest(s: string)
  {
    |s| == 32 && forall k :: 0 <= k < |s| ==> IsLowerHex(s[k])
  }

  type Digest = s: string | IsDigest(s) witness "00000000000000000000000000000000"

  /** make_card_hash: the digest of the front, a dot, the digest of the back. */
  function CardHash(md5: string -> Digest, front: string, back: string): (h: string)
    ensures |h| == 65 && h[32] == '.'
    ensures h[..32] == md5(front) && h[33..] == md5(back)
  {
    md5(front) + "." + md5(back)
  }

  /** A card hash is 65 characters: hex digits, with the one dot at index 32. */
  lemma CardHashShape(md5: string -> Digest, front: string, back: string)
    ensures var h := CardHash(md5, front, back);
      forall k :: 0 <= k < |h| ==> (h[k] == '.' <==> k == 32) && (k != 32 ==> IsLowerHex(h[k]))
  {
    var h := CardHash(md5, front, back);
    forall k | 0 <= k < |h|
      ensures (h[k] == '.' <==> k == 32) && (k != 32 ==> IsLowerHex(h[k]))
    {
      if k < 32 {
        assert h[k] == md5(front)[k];
      } else if k > 32 {
        assert h[k] == md5(back)[k - 33];
      }
    }
  }

  /** Two cards have the same hash exactly when their fronts and their backs have the same digests. */
  lemma CardHashInjective(md5: string -> Digest, f1: string, b1: string, f2: string, b2: string)
    ensures CardHash(md5, f1, b1) == CardHash(md5, f2, b2) <==> md5(f1) == md5(f2) && md5(b1) == md5(b2)
  {
    var h1 := CardHash(md5, f1, b1);
    var h2 := CardHash(md5, f2, b2);
    if h1 == h2 {
      assert h1[..32] == h2[..32] && h1[33..] == h2[33..];
    }
  }

  /** did_recall_card: below 1 the score becomes 1, otherwise it goes up by one. */
  function RecallScore(score: int): (s: int)
    ensures s >= 1 && s > score
    ensures s == Max(1, score + 1)
  {
    if score < 1 then 1 else score + 1
  }

  /** did_not_recall_card: above 1 the score drops to -1, otherwise it goes down by one. */
  function NotRecallScore(score: int): (s: int)
    ensures s <= 0 && s < score
    ensures score <= 1 ==> s == score - 1
    ensures score >= 1 ==> s <= 0 && (s == 0 <==> score == 1)
  {
    if score > 1 then -1 else score - 1
  }

  function Max(a: int, b: int): int
  {
    if a < b then b else a
  }

  /** Any answer followed by a recall leaves a positive score; any answer followed by a miss leaves a non-positive one. */
  lemma {:induction false} ScoresFollowLastAnswer(score: int, answers: seq<bool>)
    requires answers != []
    ensures answers[|answers| - 1] ==> ApplyAnswers(score, answers) >= 1
    ensures !answers[|answers| - 1] ==> ApplyAnswers(score, answers) <= 0
    ensures (forall k :: 0 <= k < |answers| ==> answers[k]) ==> ApplyAnswers(score, answers) >= Max(1, score + |answers|)
    decreases |answers|
  {
    var rest := answers[..|answers| - 1];
    if rest != [] {
      ScoresFollowLastAnswer(score, rest);
    } else {
      assert ApplyAnswers(score, rest) == score;
    }
  }

  /** The score after a run of answers, true for a recall and false for a miss. */
  function ApplyAnswers(score: int, answers: seq<bool>): int
  {
    if answers == [] then score
    else
      var before := ApplyAnswers(score, answers[..|answers| - 1]);
      if answers[|answers| - 1] then RecallScore(before) else NotRecallScore(before)
  }

  /** ','.join('?' * n): n question marks separated by commas. */
  function QMarks(n: nat): (s: string)
    ensures n == 0 ==> s == []
    ensures n > 0 ==> |s| == 2 * n - 1
    ensures forall k :: 0 <= k < |s| ==> s[k] == (if k % 2 == 0 then '?' else ',')
  {
    if n == 0 then [] else if n == 1 then "?" else QMarks(n - 1) + ",?"
  }

  /** The placeholder that a `WHERE IN` template carries. */
  const WhereInMarker: string := "?...?"

  /** str.replace: every non-overlapping occurrence of `pat`, scanning left to right, becomes `rep`. */
  function ReplaceAll(s: string, pat: string, rep: string): string
    requires pat != []
    decreases |s|
  {
    if |s| < |pat| then s
    else if s[..|pat|] == pat then rep + ReplaceAll(s[|pat|..], pat, rep)
    else [s[0]] + ReplaceAll(s[1..], pat, rep)
  }

  /** sql_replace_where_in: every `?...?` becomes `count` comma-separated placeholders; a template without it is unchanged. */
  function SqlReplaceWhereIn(sql: string, count: nat): (r: string)
    ensures !Occurs(sql, WhereInMarker) ==> r == sql
  {
    ReplaceAbsent(sql, WhereInMarker, QMarks(count));
    ReplaceAll(sql, WhereInMarker, QMarks(count))
  }

  ghost predicate Occurs(s: string, pat: string)
  {
    exists i: nat :: OccursAt(s, pat, i)
  }

  /** Text in which `pat` does not occur is left unchanged. */
  lemma {:induction false} ReplaceAbsent(s: string, pat: string, rep: string)
    requires pat != []
    ensures !Occurs(s, pat) ==> ReplaceAll(s, pat, rep) == s
    decreases |s|
  {
    if !Occurs(s, pat) && |s| >= |pat| {
      assert !OccursAt(s, pat, 0);
      assert s[..|pat|] != pat;
      assert !Occurs(s[1..], pat) by {
        if Occurs(s[1..], pat) {
          var i: nat :| OccursAt(s[1..], pat, i);
          assert s[i + 1..i + 1 + |pat|] == s[1..][i..i + |pat|];
          assert OccursAt(s, pat, i + 1);
        }
      }
      ReplaceAbsent(s[1..], pat, rep);
    }
  }

  /** An occurrence in the tail of `s` is an occurrence in `s`, one further on. */
  lemma OccursInTail(s: string, pat: string, i: nat)
    requires s != []
    ensures OccursAt(s[1..], pat, i) <==> OccursAt(s, pat, i + 1)
  {
    if i + |pat| <= |s| - 1 {
      assert s[1..][i..i + |pat|] == s[i + 1..i + 1 + |pat|];
    }
  }

  /** Where no occurrence starts, the scan copies one character and goes on. */
  lemma ReplaceStep(s: string, pat: string, rep: string)
    requires pat != [] && s != [] && !OccursAt(s, pat, 0)
    ensures ReplaceAll(s, pat, rep) == [s[0]] + ReplaceAll(s[1..], pat, rep)
  {
    if |s| < |pat| {
      assert s == [s[0]] + s[1..];
    } else {
      assert s[..|pat|] != pat;
    }
  }

  /** No occurrence of `pat` starts in the first |p| characters: the scan copies `p` and goes on with `t`. */
  lemma {:induction false} ReplaceSkipsPlainText(p: string, t: string, pat: string, rep: string)
    requires pat != []
    requires forall i: nat :: i < |p| ==> !OccursAt(p + t, pat, i)
    ensures ReplaceAll(p + t, pat, rep) == p + ReplaceAll(t, pat, rep)
    decreases |p|
  {
    if p == [] {
      assert p + t == t;
    } else {
      var s := p + t;
      ReplaceStep(s, pat, rep);
      assert s[1..] == p[1..] + t;
      forall i: nat | i < |p[1..]|
        ensures !OccursAt(p[1..] + t, pat, i)
      {
        OccursInTail(s, pat, i);
      }
      ReplaceSkipsPlainText(p[1..], t, pat, rep);
      var rt := ReplaceAll(t, pat, rep);
      assert p + rt == [p[0]] + (p[1..] + rt) by {
        assert p == [p[0]] + p[1..];
      }
    }
  }

  /** `parts` joined with `sep` between them. */
  function Join(parts: seq<string>, sep: string): string
  {
    if parts == [] then [] else if |parts| == 1 then parts[0] else parts[0] + sep + Join(parts[1..], sep)
  }

  /** The part ends with the marker's first four characters, "?...", so that a marker right after it would overlap. */
  predicate OpensMarker(p: string)
  {
    |p| >= 4 && OccursAt(p, WhereInMarker[..4], |p| - 4)
  }

  /** No marker occurrence starts inside a part that holds none and does not end with "?...", when a marker follows it. */
  lemma MarkerNotAcross(p: string, rest: string)
    requires !Occurs(p, WhereInMarker) && !OpensMarker(p)
    ensures forall i: nat :: i < |p| ==> !OccursAt(p + (WhereInMarker + rest), WhereInMarker, i)
  {
    var m := WhereInMarker;
    var s := p + (m + rest);
    forall i: nat | i < |p|
      ensures !OccursAt(s, m, i)
    {
      if i + |m| <= |p| {
        assert s[i..i + |m|] == p[i..i + |m|];
        assert !OccursAt(p, m, i);
      } else if |p| - i == 4 {
        assert s[i..i + |m|][..4] == p[|p| - 4..|p|];
        assert p[|p| - 4..|p|] != m[..4];
      } else {
        assert s[i..i + |m|][|p| - i] == s[|p|] == '?';
        assert m[|p| - i] == '.';
      }
    }
  }

  /** Likewise for the last part, which nothing follows. */
  lemma LastPartNotAcross(p: string)
    requires !Occurs(p, WhereInMarker)
    ensures forall i: nat :: i < |p| ==> !OccursAt(p + [], WhereInMarker, i)
  {
    assert p + [] == p;
  }

  /**
   * Every occurrence is replaced, not only the first: a template whose parts
   * around the markers hold no marker, and none of which but the last ends
   * with "?...", becomes the same parts with each marker replaced by the
   * placeholders.  The parts may hold other '?' placeholders.
   */
  lemma {:induction false} ReplaceEveryMarker(parts: seq<string>, count: nat)
    requires forall j :: 0 <= j < |parts| ==> !Occurs(parts[j], WhereInMarker)
    requires forall j :: 0 <= j < |parts| - 1 ==> !OpensMarker(parts[j])
    ensures SqlReplaceWhereIn(Join(parts, WhereInMarker), count) == Join(parts, QMarks(count))
    decreases |parts|
  {
    if |parts| == 1 {
      LastPartNotAcross(parts[0]);
      ReplaceSkipsPlainText(parts[0], [], WhereInMarker, QMarks(count));
      assert parts[0] + [] == parts[0];
    } else if |parts| > 1 {
      var rest := Join(parts[1..], WhereInMarker);
      ReplaceEveryMarker(parts[1..], count);
      assert Join(parts, WhereInMarker) == parts[0] + (WhereInMarker + rest);
      MarkerNotAcross(parts[0], rest);
      ReplaceSkipsPlainText(parts[0], WhereInMarker + rest, WhereInMarker, QMarks(count));
      assert (WhereInMarker + rest)[..|WhereInMarker|] == WhereInMarker;
      assert (WhereInMarker + rest)[|WhereInMarker|..] == rest;
    }
  }

  predicate NoDot(s: string)
  {
    forall k :: 0 <= k < |s| ==> s[k] != '.'
  }

  /** Text without '.' holds no marker and does not end with "?...". */
  lemma NoDotNoMarker(p: string)
    requires NoDot(p)
    ensures !Occurs(p, WhereInMarker) && !OpensMarker(p)
  {
    forall i: nat | i + |WhereInMarker| <= |p|
      ensures !OccursAt(p, WhereInMarker, i)
    {
      assert p[i..i + |WhereInMarker|][1] == p[i + 1] != '.';
    }
    if |p| >= 4 {
      assert p[|p| - 4..|p|][1] == p[|p| - 3] != '.';
    }
  }

  /**
   * The template shape of delete_cards_by_hash, `... deck_id = ? AND hash IN
   * (?...?) ...`: the positional '?' for the deck id stays, and the marker
   * becomes `count` placeholders.
   */
  lemma DeleteTemplateShape(before: string, between: string, after: string, count: nat)
    requires NoDot(before) && NoDot(between) && NoDot(after)
    ensures SqlReplaceWhereIn(before + "?" + between + WhereInMarker + after, count)
      == before + "?" + between + QMarks(count) + after
  {
    var head := before + "?" + between;
    assert NoDot(head) by {
      assert forall k :: 0 <= k < |head| ==> head[k] == (if k < |before| then before[k] else if k == |before| then '?' else between[k - |before| - 1]);
    }
    NoDotNoMarker(head);
    NoDotNoMarker(after);
    ReplaceEveryMarker([head, after], count);
    assert Join([head, after], WhereInMarker) == head + WhereInMarker + after;
    assert Join([head, after], QMarks(count)) == head + QMarks(count) + after;
  }

  /** A statement parameter: the deck id, or a card hash. */
  datatype SqlParam = IntParam(i: int) | TextParam(t: string)

  /** delete_cards_by_hash's parameter list: the deck id, then each hash once. */
  predicate DeleteParamsShape(params: seq<SqlParam>, deckId: int, hashes: set<string>)
  {
    && |params| == 1 + |hashes|
    && params[0] == IntParam(deckId)
    && (forall k :: 1 <= k < |params| ==> params[k].TextParam? && params[k].t in hashes)
    && (forall h :: h in hashes ==> TextParam(h) in params[1..])
  }

  /** A stored card: its id, content hash, texts, score, when it was last seen, and its deck. */
  datatype CardRow = CardRow(cardId: int, hash: string, front: string, back: string, score: int, lastSeen: Option<int>, deckId: int)

  /** A stored deck. */
  datatype DeckRow = DeckRow(deckId: int, gistUrl: string, lastFetched: int, etag: Option<string>, hash: Digest, title: Option<string>, preamble: string)

  /** The cards that survive deleting, from deck `deckId`, those whose hash is in `hashes`; order kept. */
  function RemoveByHash(cards: seq<CardRow>, deckId: int, hashes: set<string>): (r: seq<CardRow>)
    ensures |r| <= |cards|
    ensures forall c :: c in r <==> c in cards && !(c.deckId == deckId && c.hash in hashes)
  {
    if cards == [] then []
    else
      var rest := RemoveByHash(cards[1..], deckId, hashes);
      assert forall c :: c in cards <==> c == cards[0] || c in cards[1..];
      if cards[0].deckId == deckId && cards[0].hash in hashes then rest else [cards[0]] + rest
  }

  /** The cards that survive deleting every card of deck `deckId`; order kept. */
  function RemoveDeckCards(cards: seq<CardRow>, deckId: int): (r: seq<CardRow>)
    ensures |r| <= |cards|
    ensures forall c :: c in r <==> c in cards && c.deckId != deckId
  {
    if cards == [] then []
    else
      var rest := RemoveDeckCards(cards[1..], deckId);
      assert forall c :: c in cards <==> c == cards[0] || c in cards[1..];
      if cards[0].deckId == deckId then rest else [cards[0]] + rest
  }

  /** The hashes of the cards of deck `deckId`, in store order. */
  function DeckHashes(cards: seq<CardRow>, deckId: int): (r: seq<string>)
    ensures forall h :: h in r <==> exists c :: c in cards && c.deckId == deckId && c.hash == h
  {
    if cards == [] then []
    else
      var rest := DeckHashes(cards[1..], deckId);
      assert forall c :: c in cards <==> c == cards[0] || c in cards[1..];
      if cards[0].deckId == deckId then [cards[0].hash] + rest else rest
  }

  /** The card with id `cardId`, if any. */
  function FindCard(cards: seq<CardRow>, cardId: int): (r: Option<CardRow>)
    ensures r.Some? ==> r.value in cards && r.value.cardId == cardId
    ensures r.None? ==> forall c :: c in cards ==> c.cardId != cardId
  {
    if cards == [] then None
    else if cards[0].cardId == cardId then Some(cards[0])
    else FindCard(cards[1..], cardId)
  }

  /** The cards after setting score and last_seen of card `cardId`; every other card is kept as it is. */
  function SetScore(cards: seq<CardRow>, cardId: int, score: int, lastSeen: int): (r: seq<CardRow>)
    ensures |r| == |cards|
    ensures forall k :: 0 <= k < |r| ==>
      if cards[k].cardId == cardId then r[k] == cards[k].(score := score, lastSeen := Some(lastSeen))
      else r[k] == cards[k]
  {
    if cards == [] then []
    else
      var c := cards[0];
      [if c.cardId == cardId then c.(score := score, lastSeen := Some(lastSeen)) else c]
        + SetScore(cards[1..], cardId, score, lastSeen)
  }

  /** The largest deck id, or 0 when there is no deck. */
  function MaxDeckId(decks: seq<DeckRow>): (m: int)
    ensures m >= 0 && forall d :: d in decks ==> d.deckId <= m
    ensures decks != [] && m > 0 ==> exists d :: d in decks && d.deckId == m
  {
    if decks == [] then 0
    else
      var rest := MaxDeckId(decks[1..]);
      assert forall d :: d in decks ==> d == decks[0] || d in decks[1..];
      if decks[0].deckId > rest then decks[0].deckId else rest
  }

  /** The decks that survive deleting those fetched from `gistUrl`; order kept. */
  function RemoveDecksByUrl(decks: seq<DeckRow>, gistUrl: string): (r: seq<DeckRow>)
    ensures forall d :: d in r <==> d in decks && d.gistUrl != gistUrl
  {
    if decks == [] then []
    else
      var rest := RemoveDecksByUrl(decks[1..], gistUrl);
      assert forall d :: d in decks <==> d == decks[0] || d in decks[1..];
      if decks[0].gistUrl == gistUrl then rest else [decks[0]] + rest
  }

  /** The decks after update_deck rewrites deck `deckId`'s fetch data, hash, title and preamble. */
  function UpdateDeckRows(decks: seq<DeckRow>, deckId: int, lastFetched: int, etag: Option<string>,
                          hash: Digest, title: Option<string>, preamble: string): (r: seq<DeckRow>)
    ensures |r| == |decks|
    ensures forall k :: 0 <= k < |r| ==>
      if decks[k].deckId == deckId
      then r[k] == decks[k].(lastFetched := lastFetched, etag := etag, hash := hash, title := title, preamble := preamble)
      else r[k] == decks[k]
  {
    if decks == [] then []
    else
      var d := decks[0];
      [if d.deckId == deckId then d.(lastFetched := lastFetched, etag := etag, hash := hash, title := title, preamble := preamble) else d]
        + UpdateDeckRows(decks[1..], deckId, lastFetched, etag, hash, title, preamble)
  }
}
