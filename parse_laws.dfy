/**
 * Properties of the lexer and parser taken together: the round trip through
 * the flatteners, the shape of a successful parse, where parsing fails, and
 * the asymmetric treatment of code fences.
 */
module ParseLaws {
  import opened Common
  import opened Lexer
  import opened Parser

  /** The first card of a closed chain, and how the rest of the chain follows it. */
  lemma ChainHead(tokens: seq<Token>, i: nat, cards: seq<CardNode>, next: nat) returns (node: CardNode, e: nat)
    requires i < |tokens| && tokens[i].kind == Front
    requires CardsFrom(tokens, i) == ClosedAt(cards, next)
    ensures i < e < next <= |tokens| && FlattenCard(node) == Concat(tokens[i..e]) && WellMarked(node)
    ensures cards != [] && cards[0] == node
    ensures tokens[e].kind == Last ==> cards == [node] && next == e + 1
    ensures tokens[e].kind != Last ==> tokens[e].kind == Front && CardsFrom(tokens, e) == ClosedAt(cards[1..], next)
  {
    var card := CardAt(tokens, i);
    CardFlattens(tokens, i);
    e := card.next;
    node := card.node.value;
    if tokens[e].kind != Last {
      var rest := CardsFrom(tokens, e);
      assert cards == [node] + rest.cards;
      assert cards[1..] == rest.cards;
    }
  }

  /** A closed chain of cards flattens back to exactly the tokens it consumed, its Last token included. */
  lemma {:induction false} ChainFlattens(tokens: seq<Token>, i: nat, cards: seq<CardNode>, next: nat)
    requires i < |tokens| && tokens[i].kind == Front
    requires CardsFrom(tokens, i) == ClosedAt(cards, next)
    ensures FlattenCards(cards) + tokens[next - 1].text == Concat(tokens[i..next])
    decreases |tokens| - i
  {
    var node, e := ChainHead(tokens, i, cards, next);
    if tokens[e].kind == Last {
      FlattenLastCard(tokens, i, e, node);
    } else {
      ChainFlattens(tokens, e, cards[1..], next);
      FlattenNextCards(tokens, i, e, next, node, cards[1..]);
      assert cards == [node] + cards[1..];
    }
  }

  /** A closing card and the Last token after it flatten to the tokens from the card's Front through that Last. */
  lemma FlattenLastCard(tokens: seq<Token>, i: nat, e: nat, node: CardNode)
    requires i < e < |tokens| && FlattenCard(node) == Concat(tokens[i..e])
    ensures FlattenCards([node]) + tokens[e].text == Concat(tokens[i..e + 1])
  {
    assert [node][1..] == [];
    ConcatSnoc(tokens, i, e);
  }

  /** A card followed by a chain that flattens to its tokens flattens, with the chain, to the tokens of both. */
  lemma FlattenNextCards(tokens: seq<Token>, i: nat, e: nat, next: nat, node: CardNode, rest: seq<CardNode>)
    requires i < e < next <= |tokens|
    requires FlattenCard(node) == Concat(tokens[i..e])
    requires FlattenCards(rest) + tokens[next - 1].text == Concat(tokens[e..next])
    ensures FlattenCards([node] + rest) + tokens[next - 1].text == Concat(tokens[i..next])
  {
    assert ([node] + rest)[1..] == rest;
    ConcatSplit(tokens, i, e, next);
    JoinParts(FlattenCards([node] + rest), FlattenCard(node), FlattenCards(rest), tokens[next - 1].text,
      Concat(tokens[i..e]), Concat(tokens[e..next]));
  }

  lemma JoinParts(whole: string, a: string, b: string, t: string, c1: string, c2: string)
    requires whole == a + b && a == c1 && b + t == c2
    ensures whole + t == c1 + c2
  {
    assert (a + b) + t == a + (b + t);
  }

  /** Every card of a closed chain opens with a Front token and is split by a Back token. */
  lemma {:induction false} ChainWellMarked(tokens: seq<Token>, i: nat, cards: seq<CardNode>, next: nat)
    requires i < |tokens| && tokens[i].kind == Front
    requires CardsFrom(tokens, i) == ClosedAt(cards, next)
    ensures AllWellMarked(cards)
    decreases |tokens| - i
  {
    var node, e := ChainHead(tokens, i, cards, next);
    if tokens[e].kind != Last {
      ChainWellMarked(tokens, e, cards[1..], next);
    }
  }

  /**
   * On success parse_deck returns a deck whose last token is a Last token,
   * the index just past that token, and a tree that flattens to exactly the
   * text of the tokens consumed.  On failure it returns the index it was given.
   */
  lemma DeckRoundTrip(tokens: seq<Token>, index: nat)
    requires index <= |tokens|
    ensures var r := DeckAt(tokens, index);
      && (r.Returned? && r.step.node.None? ==> r.step.next == index)
      && (r.Returned? && r.step.node.Some? ==>
            var d := r.step.node.value;
            && index < r.step.next <= |tokens|
            && d.lastToken.kind == Last
            && d.lastToken == tokens[r.step.next - 1]
            && |d.cards| >= 1
            && AllWellMarked(d.cards)
            && Flatten(d) == Concat(tokens[index..r.step.next]))
  {
    var r := DeckAt(tokens, index);
    if r.Returned? && r.step.node.Some? {
      var p := PreambleEnd(tokens, index).value;
      var chain := CardsFrom(tokens, p);
      assert r.step == Step(Some(DeckNode(PreambleNode(Concat(tokens[index..p])), chain.cards, tokens[chain.next - 1])), chain.next);
      ChainFlattens(tokens, p, chain.cards, chain.next);
      ChainWellMarked(tokens, p, chain.cards, chain.next);
      FlattenDeckParts(tokens, index, p, chain.cards, chain.next);
    }
  }

  /** A preamble that is the text of the tokens before `p` and a chain flattening to the rest make the whole text. */
  lemma FlattenDeckParts(tokens: seq<Token>, index: nat, p: nat, cards: seq<CardNode>, next: nat)
    requires index <= p < next <= |tokens|
    requires FlattenCards(cards) + tokens[next - 1].text == Concat(tokens[p..next])
    ensures Flatten(DeckNode(PreambleNode(Concat(tokens[index..p])), cards, tokens[next - 1])) == Concat(tokens[index..next])
  {
    ConcatSplit(tokens, index, p, next);
    var pre := Concat(tokens[index..p]);
    assert pre + FlattenCards(cards) + tokens[next - 1].text == pre + (FlattenCards(cards) + tokens[next - 1].text);
  }

  /** parse_deck raises exactly when the chain of cards runs off the end; it never raises without a card. */
  lemma DeckRaisesOnlyAfterACard(tokens: seq<Token>, index: nat)
    requires index <= |tokens|
    ensures DeckAt(tokens, index).RaisesIndexError? <==>
      PreambleEnd(tokens, index).Some? && PreambleEnd(tokens, index).value < |tokens|
      && CardsFrom(tokens, PreambleEnd(tokens, index).value) == RunsOff
  {
  }

  /** Every token text non-empty: a proper prefix of the tokens has strictly shorter text. */
  lemma {:induction false} ConcatPrefixShorter(ts: seq<Token>, n: nat)
    requires n <= |ts|
    requires forall k :: 0 <= k < |ts| ==> ts[k].text != []
    ensures |Concat(ts[..n])| + (|ts| - n) <= |Concat(ts)|
    decreases |ts| - n
  {
    if n < |ts| {
      ConcatPrefixShorter(ts, n + 1);
      ConcatSnoc(ts, 0, n);
      assert ts[0..n] == ts[..n] && ts[0..n + 1] == ts[..n + 1];
    } else {
      assert ts[..n] == ts;
    }
  }

  /**
   * Lexing, parsing and flattening: the flattened deck is the text of the
   * tokens consumed, a prefix of the input, and it is the whole input exactly
   * when the Last token that ended the deck was the final token.
   */
  lemma LexParseFlatten(text: string)
    ensures LexFrom(text, 0).Tokens?
    ensures var tokens := LexFrom(text, 0).tokens;
      var r := DeckAt(tokens, 0);
      r.Returned? && r.step.node.Some? ==>
        var flat := Flatten(r.step.node.value);
        && flat == Concat(tokens[..r.step.next])
        && flat <= text
        && (flat == text <==> r.step.next == |tokens|)
  {
    var tokens := LexFrom(text, 0).tokens;
    assert text[0..] == text;
    var r := DeckAt(tokens, 0);
    if r.Returned? && r.step.node.Some? {
      var n := r.step.next;
      DeckRoundTrip(tokens, 0);
      assert tokens[0..n] == tokens[..n];
      ConcatSplit(tokens, 0, n, |tokens|);
      assert tokens[0..|tokens|] == tokens;
      ConcatPrefixShorter(tokens, n);
    }
  }

  /** parse_card fails exactly when no Back token follows the Front token at `i`. */
  lemma CardFailsIffNoBack(tokens: seq<Token>, i: nat)
    requires i < |tokens| && tokens[i].kind == Front
    ensures CardAt(tokens, i).node.None? <==> forall k :: i < k < |tokens| ==> tokens[k].kind != Back
  {
    var b := FirstOf(tokens, i + 1, {Back});
    if b == |tokens| {
      forall k | i < k < |tokens|
        ensures tokens[k].kind != Back
      {
        FirstOfIsFirst(tokens, i + 1, {Back}, k);
      }
    }
  }

  /**
   * Card `c` spans tokens `i` to `e` split at the Back token `b`: its front is
   * the text strictly between `i` and `b`, where no token is Back, and its back
   * the text after `b` up to `e`, where no token is Front or Last.
   */
  predicate SplitAt(tokens: seq<Token>, i: nat, b: nat, e: nat, c: CardNode)
  {
    && i < b < e <= |tokens|
    && tokens[b] == c.backMarker
    && c.frontText == Concat(tokens[i + 1..b])
    && c.backText == Concat(tokens[b + 1..e])
    && (forall k :: i < k < b ==> tokens[k].kind != Back)
    && (forall k :: b < k < e ==> tokens[k].kind !in {Front, Last})
  }

  /**
   * A card's front is the text strictly between its Front token and the first
   * Back token after it, whatever lies in between: no token before that Back
   * token (a Front, Last or Code token included) ends the front.
   */
  lemma CardFrontRunsToFirstBack(tokens: seq<Token>, i: nat)
    requires i < |tokens| && tokens[i].kind == Front
    requires CardAt(tokens, i).node.Some?
    ensures SplitAt(tokens, i, FirstOf(tokens, i + 1, {Back}), CardAt(tokens, i).next, CardAt(tokens, i).node.value)
  {
    var b, e := CardParts(tokens, i);
    FrontBackSplit(tokens, i, b, e, CardAt(tokens, i).node.value);
  }

  /** The split of a card's tokens at its Back token, for the first Back after `i` and the first Front or Last after it. */
  lemma FrontBackSplit(tokens: seq<Token>, i: nat, b: nat, e: nat, c: CardNode)
    requires i < b < e <= |tokens|
    requires b == FirstOf(tokens, i + 1, {Back}) && e == FirstOf(tokens, b + 1, {Front, Last})
    requires c == CardNode(tokens[i], Concat(tokens[i + 1..b]), tokens[b], Concat(tokens[b + 1..e]))
    ensures SplitAt(tokens, i, b, e, c)
  {
    NoneBeforeFirst(tokens, i + 1, {Back});
    NoneBeforeFirst(tokens, b + 1, {Front, Last});
  }

  /** No token between `from` and the index FirstOf returns has a wanted kind. */
  lemma NoneBeforeFirst(tokens: seq<Token>, from: nat, kinds: set<TokenKind>)
    requires from <= |tokens|
    ensures forall k :: from <= k < FirstOf(tokens, from, kinds) ==> tokens[k].kind !in kinds
  {
    forall k | from <= k < FirstOf(tokens, from, kinds)
      ensures tokens[k].kind !in kinds
    {
      FirstOfIsFirst(tokens, from, kinds, k);
    }
  }

  /** The Back token and the end of a card parse_card finds. */
  lemma CardParts(tokens: seq<Token>, i: nat) returns (b: nat, e: nat)
    requires i < |tokens| && tokens[i].kind == Front
    requires CardAt(tokens, i).node.Some?
    ensures b == FirstOf(tokens, i + 1, {Back}) && e == FirstOf(tokens, b + 1, {Front, Last})
    ensures i < b < e <= |tokens|
    ensures CardAt(tokens, i) == Step(Some(CardNode(tokens[i], Concat(tokens[i + 1..b]), tokens[b], Concat(tokens[b + 1..e]))), e)
  {
    b := FirstOf(tokens, i + 1, {Back});
    e := FirstOf(tokens, b + 1, {Front, Last});
  }

  /**
   * parse_preamble fails only on an unterminated fence: if it returns None,
   * some Code token at or after `i` has no Code token after it.
   */
  lemma {:induction false} PreambleFailsOnlyOnOpenFence(tokens: seq<Token>, i: nat)
    requires i <= |tokens|
    requires PreambleEnd(tokens, i).None?
    ensures exists k :: i <= k < |tokens| && tokens[k].kind == Code && FirstOf(tokens, k + 1, {Code}) == |tokens|
    decreases |tokens| - i
  {
    if tokens[i].kind == Code {
      var j := FirstOf(tokens, i + 1, {Code});
      if j < |tokens| {
        PreambleFailsOnlyOnOpenFence(tokens, j + 1);
      }
    } else {
      PreambleFailsOnlyOnOpenFence(tokens, i + 1);
    }
  }

  /** Without Code tokens, the preamble ends at the first Front token, or at the end. */
  lemma {:induction false} PreambleWithoutFences(tokens: seq<Token>, i: nat)
    requires i <= |tokens|
    requires forall k :: i <= k < |tokens| ==> tokens[k].kind != Code
    ensures PreambleEnd(tokens, i) == Some(FirstOf(tokens, i, {Front}))
    decreases |tokens| - i
  {
    if i < |tokens| && tokens[i].kind != Front {
      PreambleWithoutFences(tokens, i + 1);
    }
  }

  /**
   * The fence asymmetry: in the preamble a fence hides the Front token inside
   * it, while in a card a fence does not hide the Back token inside it.
   */
  lemma FencesProtectOnlyThePreamble()
    ensures var fence := Token(Code, CodeFence);
      var front := Token(Front, FrontSep);
      var back := Token(Back, BackSep);
      var last := Token(Last, LastSep);
      && PreambleEnd([fence, front, fence], 0) == Some(3)
      && CardAt([front, fence, back, fence, last], 0)
           == Step(Some(CardNode(front, CodeFence, back, CodeFence)), 4)
  {
    var fence := Token(Code, CodeFence);
    var front := Token(Front, FrontSep);
    var back := Token(Back, BackSep);
    var last := Token(Last, LastSep);
    var pre := [fence, front, fence];
    assert FirstOf(pre, 2, {Code}) == 2;
    assert FirstOf(pre, 1, {Code}) == 2;
    assert PreambleEnd(pre, 3) == Some(3);
    var card := [front, fence, back, fence, last];
    assert FirstOf(card, 1, {Back}) == 2;
    assert FirstOf(card, 3, {Front, Last}) == 4;
    assert card[1..2] == [fence] && card[3..4] == [fence];
    assert Concat([fence]) == CodeFence by {
      assert [fence][..0] == [];
    }
  }

  /** parse_deck returns None exactly in three cases: the preamble fails, no card follows it, or a card has no Back token. */
  lemma DeckFailureCases(tokens: seq<Token>, index: nat)
    requires index <= |tokens|
    ensures var r := DeckAt(tokens, index);
      (r.Returned? && r.step.node.None?) <==>
        || PreambleEnd(tokens, index).None?
        || PreambleEnd(tokens, index) == Some(|tokens|)
        || (PreambleEnd(tokens, index).Some? && PreambleEnd(tokens, index).value < |tokens|
            && CardsFrom(tokens, PreambleEnd(tokens, index).value) == MissingBack)
  {
  }

  /** Tokens that are neither Code nor Front go into the preamble one by one. */
  lemma {:induction false} PreambleSkips(tokens: seq<Token>, i: nat, k: nat)
    requires i <= k <= |tokens|
    requires forall j :: i <= j < k ==> tokens[j].kind != Code && tokens[j].kind != Front
    ensures PreambleEnd(tokens, i) == PreambleEnd(tokens, k)
    decreases k - i
  {
    if i < k {
      PreambleSkips(tokens, i + 1, k);
    }
  }

  /** Failure stated on the tokens: a fence opened before any Front token and never closed. */
  lemma DeckWithOpenFenceFails(tokens: seq<Token>, index: nat, k: nat)
    requires index <= k < |tokens| && tokens[k].kind == Code
    requires forall j :: index <= j < k ==> tokens[j].kind != Code && tokens[j].kind != Front
    requires forall j :: k < j < |tokens| ==> tokens[j].kind != Code
    ensures DeckAt(tokens, index) == Returned(Step(None, index))
  {
    PreambleSkips(tokens, index, k);
    assert FirstOf(tokens, k + 1, {Code}) == |tokens|;
  }

  /** Failure stated on the tokens: no fence and no Front token at all. */
  lemma DeckWithoutFrontFails(tokens: seq<Token>, index: nat)
    requires index <= |tokens|
    requires forall j :: index <= j < |tokens| ==> tokens[j].kind != Code && tokens[j].kind != Front
    ensures DeckAt(tokens, index) == Returned(Step(None, index))
  {
    PreambleSkips(tokens, index, |tokens|);
  }

  /** Failure stated on the tokens: the first Front token, with no fence before it, has no Back token after it. */
  lemma DeckWithoutBackFails(tokens: seq<Token>, index: nat, f: nat)
    requires index <= f < |tokens| && tokens[f].kind == Front
    requires forall j :: index <= j < f ==> tokens[j].kind != Code && tokens[j].kind != Front
    requires forall j :: f < j < |tokens| ==> tokens[j].kind != Back
    ensures DeckAt(tokens, index) == Returned(Step(None, index))
  {
    PreambleSkips(tokens, index, f);
    CardFailsIffNoBack(tokens, f);
  }
}
