/**
 * The recursive-descent deck parser (parse_code, parse_preamble, parse_card,
 * parse_deck) and the flatteners that rebuild text from its nodes.  Each
 * parse operation threads a token index; on failure it returns "no node"
 * together with the index it was given.
 */
module Parser {
  import opened Common
  import opened Lexer

  datatype PreambleNode = PreambleNode(text: string)

  datatype CardNode = CardNode(frontMarker: Token, frontText: string, backMarker: Token, backText: string)

  datatype DeckNode = DeckNode(preamble: PreambleNode, cards: seq<CardNode>, lastToken: Token)

  /** The pair (node or None, next token index) that each parse operation returns. */
  datatype Step<T> = Step(node: Option<T>, next: nat)

  /** parse_deck either returns a Step, or raises IndexError from its unguarded `tokens[index]`. */
  datatype DeckResult = Returned(step: Step<DeckNode>) | RaisesIndexError(index: nat)

  /** The first index at or after `from` whose token kind is in `kinds`, or |tokens| if none. */
  function FirstOf(tokens: seq<Token>, from: nat, kinds: set<TokenKind>): (r: nat)
    requires from <= |tokens|
    ensures from <= r <= |tokens|
    ensures r < |tokens| ==> tokens[r].kind in kinds
    decreases |tokens| - from
  {
    if from == |tokens| || tokens[from].kind in kinds then from else FirstOf(tokens, from + 1, kinds)
  }

  /** FirstOf finds the first match: no token before the index it returns has a kind in `kinds`. */
  lemma {:induction false} FirstOfIsFirst(tokens: seq<Token>, from: nat, kinds: set<TokenKind>, k: nat)
    requires from <= |tokens| && from <= k < FirstOf(tokens, from, kinds)
    ensures tokens[k].kind !in kinds
    decreases k - from
  {
    if from < k {
      FirstOfIsFirst(tokens, from + 1, kinds, k);
    }
  }

  /** Appending one more token to a run appends its text. */
  lemma ConcatSnoc(tokens: seq<Token>, a: nat, b: nat)
    requires a <= b < |tokens|
    ensures Concat(tokens[a..b + 1]) == Concat(tokens[a..b]) + tokens[b].text
  {
    assert tokens[a..b + 1][..b - a] == tokens[a..b];
  }

  /** The text of a run of tokens splits at any inner index. */
  lemma ConcatSplit(tokens: seq<Token>, a: nat, b: nat, c: nat)
    requires a <= b <= c <= |tokens|
    ensures Concat(tokens[a..c]) == Concat(tokens[a..b]) + Concat(tokens[b..c])
  {
    assert tokens[a..c] == tokens[a..b] + tokens[b..c];
    ConcatAppend(tokens[a..b], tokens[b..c]);
  }

  /**
   * parse_code: from the opening fence at `index`, accumulate token text up
   * to and including the next fence token.  Without a closing fence the
   * result is (None, index).
   */
  method ParseCode(tokens: seq<Token>, index: nat) returns (r: Step<string>)
    requires index < |tokens| && tokens[index].kind == Code
    ensures var j := FirstOf(tokens, index + 1, {Code});
      if j < |tokens| then r == Step(Some(Concat(tokens[index..j + 1])), j + 1)
      else r == Step(None, index)
  {
    var codeText := tokens[index].text;
    assert codeText == Concat(tokens[index..index + 1]) by { ConcatSnoc(tokens, index, index); }
    var i := index + 1;
    var didFindClosing := false;
    while i < |tokens|
      invariant index + 1 <= i <= |tokens|
      invariant codeText == Concat(tokens[index..i])
      invariant !didFindClosing
      invariant FirstOf(tokens, index + 1, {Code}) == FirstOf(tokens, i, {Code})
    {
      var token := tokens[i];
      ConcatSnoc(tokens, index, i);
      codeText := codeText + token.text;
      i := i + 1;
      if token.kind == Code {
        didFindClosing := true;
        break;
      }
    }
    if !didFindClosing {
      return Step(None, index);
    }
    r := Step(Some(codeText), i);
  }

  /**
   * Reference definition of where the preamble starting at `i` ends: at the
   * first Front token that is not inside a fenced region, or at the end of
   * the tokens; None when a fence is never closed.
   */
  function PreambleEnd(tokens: seq<Token>, i: nat): (r: Option<nat>)
    requires i <= |tokens|
    ensures r.Some? ==> i <= r.value <= |tokens|
    ensures r.Some? && r.value < |tokens| ==> tokens[r.value].kind == Front
    decreases |tokens| - i
  {
    if i == |tokens| || tokens[i].kind == Front then Some(i)
    else if tokens[i].kind == Code then
      var j := FirstOf(tokens, i + 1, {Code});
      if j == |tokens| then None else PreambleEnd(tokens, j + 1)
    else PreambleEnd(tokens, i + 1)
  }

  /**
   * parse_preamble: accumulate tokens up to (not including) the first Front
   * token outside a fence; fenced regions are taken whole via ParseCode.
   */
  method ParsePreamble(tokens: seq<Token>, index: nat) returns (r: Step<PreambleNode>)
    requires index <= |tokens|
    ensures match PreambleEnd(tokens, index)
      case None => r == Step(None, index)
      case Some(e) => r == Step(Some(PreambleNode(Concat(tokens[index..e]))), e)
  {
    var preambleText: string := [];
    var i := index;
    while i < |tokens|
      invariant index <= i <= |tokens|
      invariant preambleText == Concat(tokens[index..i])
      invariant PreambleEnd(tokens, index) == PreambleEnd(tokens, i)
    {
      var token := tokens[i];
      if token.kind == Code {
        var code := ParseCode(tokens, i);
        if code.node.None? {
          return Step(None, index);
        }
        ConcatSplit(tokens, index, i, code.next);
        preambleText := preambleText + code.node.value;
        i := code.next;
      } else if token.kind == Front {
        break;
      } else {
        ConcatSnoc(tokens, index, i);
        preambleText := preambleText + token.text;
        i := i + 1;
      }
    }
    r := Step(Some(PreambleNode(preambleText)), i);
  }

  function FlattenPreamble(p: PreambleNode): string
  {
    p.text
  }

  function FlattenCard(c: CardNode): string
  {
    c.frontMarker.text + c.frontText + c.backMarker.text + c.backText
  }

  /**
   * What parse_card yields for the Front token at `index`: the front is every
   * token up to the next Back token (Front, Last and Code tokens included),
   * the back runs up to the next Front or Last token or the end.
   */
  function CardAt(tokens: seq<Token>, index: nat): (r: Step<CardNode>)
    requires index < |tokens| && tokens[index].kind == Front
    ensures r.node.None? ==> r.next == index
    ensures r.node.Some? ==>
      && index < r.next <= |tokens|
      && (r.next < |tokens| ==> tokens[r.next].kind in {Front, Last})
      && r.node.value.frontMarker == tokens[index]
      && r.node.value.backMarker.kind == Back
  {
    var b := FirstOf(tokens, index + 1, {Back});
    if b == |tokens| then Step(None, index)
    else
      var e := FirstOf(tokens, b + 1, {Front, Last});
      Step(Some(CardNode(tokens[index], Concat(tokens[index + 1..b]), tokens[b], Concat(tokens[b + 1..e]))), e)
  }

  /** A card flattens back to exactly the text of the tokens parse_card consumed. */
  lemma CardFlattens(tokens: seq<Token>, index: nat)
    requires index < |tokens| && tokens[index].kind == Front
    ensures var r := CardAt(tokens, index);
      r.node.Some? ==> FlattenCard(r.node.value) == Concat(tokens[index..r.next])
  {
    var b := FirstOf(tokens, index + 1, {Back});
    if b < |tokens| {
      CardTextIsItsTokens(tokens, index, b, FirstOf(tokens, b + 1, {Front, Last}));
    }
  }

  /** A card's marker, front, marker and back texts together are the text of its tokens. */
  lemma CardTextIsItsTokens(tokens: seq<Token>, a: nat, b: nat, e: nat)
    requires a < b < e <= |tokens|
    ensures tokens[a].text + Concat(tokens[a + 1..b]) + tokens[b].text + Concat(tokens[b + 1..e])
      == Concat(tokens[a..e])
  {
    assert Concat(tokens[a..a + 1]) == tokens[a].text by {
      ConcatSnoc(tokens, a, a);
      assert tokens[a..a] == [];
    }
    assert Concat(tokens[a..b]) == tokens[a].text + Concat(tokens[a + 1..b]) by {
      ConcatSplit(tokens, a, a + 1, b);
    }
    assert Concat(tokens[a..b + 1]) == Concat(tokens[a..b]) + tokens[b].text by {
      ConcatSnoc(tokens, a, b);
    }
    ConcatSplit(tokens, a, b + 1, e);
  }

  /**
   * The loop shape parse_card uses twice: append the text of each token from
   * `from` on until one whose kind is in `kinds`, or the end of the tokens.
   */
  method CollectUntil(tokens: seq<Token>, from: nat, kinds: set<TokenKind>) returns (text: string, stop: nat)
    requires from <= |tokens|
    ensures stop == FirstOf(tokens, from, kinds)
    ensures text == Concat(tokens[from..stop])
  {
    text := [];
    stop := from;
    while stop < |tokens|
      invariant from <= stop <= |tokens|
      invariant text == Concat(tokens[from..stop])
      invariant FirstOf(tokens, from, kinds) == FirstOf(tokens, stop, kinds)
    {
      var token := tokens[stop];
      if token.kind in kinds {
        break;
      }
      ConcatSnoc(tokens, from, stop);
      text := text + token.text;
      stop := stop + 1;
    }
  }

  /**
   * parse_card: the Front token at `index` opens the card; the front loop
   * stops at the first Back token, the back loop before the next Front or
   * Last token.  No Back token gives (None, index).
   */
  method ParseCard(tokens: seq<Token>, index: nat) returns (r: Step<CardNode>)
    requires index < |tokens| && tokens[index].kind == Front
    ensures r == CardAt(tokens, index)
  {
    var frontDemarcator := tokens[index];
    var frontText, b := CollectUntil(tokens, index + 1, {Back});
    if b == |tokens| {
      return Step(None, index);
    }
    var backDemarcator := tokens[b];
    var backText, e := CollectUntil(tokens, b + 1, {Front, Last});
    r := Step(Some(CardNode(frontDemarcator, frontText, backDemarcator, backText)), e);
  }

  /** How the chain of cards starting at a Front token ends. */
  datatype Chain = ClosedAt(cards: seq<CardNode>, next: nat) | MissingBack | RunsOff

  function Extend(cs: seq<CardNode>, c: Chain): Chain
  {
    match c
    case ClosedAt(rest, next) => ClosedAt(cs + rest, next)
    case _ => c
  }

  /** A card as parse_card builds it: opened by a Front token, split by a Back token. */
  predicate WellMarked(c: CardNode)
  {
    c.frontMarker.kind == Front && c.backMarker.kind == Back
  }

  predicate AllWellMarked(cards: seq<CardNode>)
  {
    cards == [] || (WellMarked(cards[0]) && AllWellMarked(cards[1..]))
  }

  /**
   * Reference definition of the card loop of parse_deck from the Front token
   * at `i`: cards follow one another until a card's back stops at a Last
   * token; a card without Back fails, and a back that runs to the end of the
   * tokens reaches the unguarded read.
   */
  function CardsFrom(tokens: seq<Token>, i: nat): (r: Chain)
    requires i < |tokens| && tokens[i].kind == Front
    ensures r.ClosedAt? ==> i < r.next <= |tokens| && tokens[r.next - 1].kind == Last && |r.cards| >= 1
    decreases |tokens| - i
  {
    var c := CardAt(tokens, i);
    if c.node.None? then MissingBack
    else if c.next == |tokens| then RunsOff
    else if tokens[c.next].kind == Last then ClosedAt([c.node.value], c.next + 1)
    else Extend([c.node.value], CardsFrom(tokens, c.next))
  }

  /**
   * Reference definition of parse_deck's outcome from token index `index`.
   * A failure hands back the index it was given; a deck has at least one
   * card and ends just after the Last token it keeps; the unguarded read
   * happens one past the end of the tokens.
   */
  function DeckAt(tokens: seq<Token>, index: nat): (r: DeckResult)
    requires index <= |tokens|
    ensures r.Returned? && r.step.node.None? ==> r.step.next == index
    ensures r.Returned? && r.step.node.Some? ==>
      && index < r.step.next <= |tokens|
      && r.step.node.value.lastToken == tokens[r.step.next - 1]
      && r.step.node.value.lastToken.kind == Last
      && |r.step.node.value.cards| >= 1
    ensures r.RaisesIndexError? ==> r.index == |tokens|
  {
    match PreambleEnd(tokens, index)
    case None => Returned(Step(None, index))
    case Some(p) =>
      if p == |tokens| then Returned(Step(None, index))
      else match CardsFrom(tokens, p)
        case MissingBack => Returned(Step(None, index))
        case RunsOff => RaisesIndexError(|tokens|)
        case ClosedAt(cards, next) =>
          Returned(Step(Some(DeckNode(PreambleNode(Concat(tokens[index..p])), cards, tokens[next - 1])), next))
  }

  /**
   * parse_deck: a preamble, then cards until the token after a card is Last.
   * Any failure yields (None, index); after a card whose back runs to the
   * end of the tokens, the read of the next token raises IndexError.
   */
  method ParseDeck(tokens: seq<Token>, index: nat) returns (r: DeckResult)
    requires index <= |tokens|
    ensures r == DeckAt(tokens, index)
  {
    var preamble := ParsePreamble(tokens, index);
    if preamble.node.None? {
      return Returned(Step(None, index));
    }
    var p := preamble.next;
    assert PreambleEnd(tokens, index) == Some(p);
    if p == |tokens| {
      return Returned(Step(None, index));
    }
    var chain := ParseCards(tokens, p);
    match chain
    case MissingBack =>
      r := Returned(Step(None, index));
    case RunsOff =>
      r := RaisesIndexError(|tokens|);
    case ClosedAt(cardNodes, next) =>
      assert preamble.node.value == PreambleNode(Concat(tokens[index..p]));
      r := Returned(Step(Some(DeckNode(preamble.node.value, cardNodes, tokens[next - 1])), next));
  }

  /**
   * The card loop of parse_deck from the Front token at `p`: parse a card,
   * stop with the cards when the next token is Last, fail when a card has no
   * Back, and reach the unguarded read when a back runs to the end.
   */
  method ParseCards(tokens: seq<Token>, p: nat) returns (chain: Chain)
    requires p < |tokens| && tokens[p].kind == Front
    ensures chain == CardsFrom(tokens, p)
  {
    var i := p;
    var cardNodes: seq<CardNode> := [];
    while true
      invariant p <= i < |tokens| && tokens[i].kind == Front
      invariant CardsFrom(tokens, p) == Extend(cardNodes, CardsFrom(tokens, i))
      decreases |tokens| - i
    {
      ghost var here := i;
      var card := ParseCard(tokens, i);
      if card.node.None? {
        return MissingBack;
      }
      ghost var before := cardNodes;
      cardNodes := cardNodes + [card.node.value];
      i := card.next;
      if i == |tokens| {
        return RunsOff;
      }
      if tokens[i].kind == Last {
        assert CardsFrom(tokens, here) == ClosedAt([card.node.value], i + 1);
        ExtendAppend(before, [card.node.value], ClosedAt([], i + 1));
        assert cardNodes + [] == cardNodes;
        return ClosedAt(cardNodes, i + 1);
      }
      assert CardsFrom(tokens, here) == Extend([card.node.value], CardsFrom(tokens, i));
      ExtendAppend(before, [card.node.value], CardsFrom(tokens, i));
    }
  }

  lemma ExtendAppend(a: seq<CardNode>, b: seq<CardNode>, c: Chain)
    ensures Extend(a, Extend(b, c)) == Extend(a + b, c)
  {
    if c.ClosedAt? {
      assert a + (b + c.cards) == (a + b) + c.cards;
    }
  }

  function FlattenCards(cards: seq<CardNode>): string
  {
    if cards == [] then [] else FlattenCard(cards[0]) + FlattenCards(cards[1..])
  }

  lemma {:induction false} FlattenCardsAppend(a: seq<CardNode>, b: seq<CardNode>)
    ensures FlattenCards(a + b) == FlattenCards(a) + FlattenCards(b)
    decreases |a|
  {
    if a == [] {
      assert a + b == b;
    } else {
      assert (a + b)[1..] == a[1..] + b;
      FlattenCardsAppend(a[1..], b);
    }
  }

  /** flatten_deck's result: the preamble, each card in order, then the last token. */
  function Flatten(d: DeckNode): string
  {
    FlattenPreamble(d.preamble) + FlattenCards(d.cards) + d.lastToken.text
  }

  /** flatten_deck: concatenate the preamble, every card and the last token. */
  method FlattenDeck(d: DeckNode) returns (s: string)
    ensures s == Flatten(d)
  {
    s := FlattenPreamble(d.preamble);
    var k := 0;
    while k < |d.cards|
      invariant k <= |d.cards|
      invariant s == FlattenPreamble(d.preamble) + FlattenCards(d.cards[..k])
    {
      assert d.cards[..k + 1] == d.cards[..k] + [d.cards[k]];
      FlattenCardsAppend(d.cards[..k], [d.cards[k]]);
      assert FlattenCards([d.cards[k]]) == FlattenCard(d.cards[k]);
      s := s + FlattenCard(d.cards[k]);
      k := k + 1;
    }
    assert d.cards[..k] == d.cards;
    s := s + d.lastToken.text;
  }
}
