/**
 * The smallest complete deck: a one-line preamble, a Front separator, a
 * one-line front, a Back separator, a one-line back and the closing Last
 * separator.  The lexing lemmas say which token each part of such a text
 * becomes; the parse of those tokens yields one card whose front and back
 * carry no blank lines, since the separators own them.
 */
module DeckShapes {
  import opened Common
  import opened Lexer
  import opened Parser
  import opened ParseLaws
  import opened Titles

  predicate NoNewline(s: string)
  {
    forall k :: 0 <= k < |s| ==> s[k] != '\n'
  }

  /** One Other token per character, as the lexer emits for text without newlines. */
  function Plain(s: string): (ts: seq<Token>)
    ensures |ts| == |s|
  {
    seq(|s|, k requires 0 <= k < |s| => Token(Other, [s[k]]))
  }

  lemma PlainCons(s: string)
    requires s != []
    ensures Plain(s) == [Token(Other, [s[0]])] + Plain(s[1..])
  {
  }

  lemma {:induction false} PlainConcat(s: string)
    ensures Concat(Plain(s)) == s
  {
    if s != [] {
      PlainConcat(s[1..]);
      PlainCons(s);
      ConcatAppend([Token(Other, [s[0]])], Plain(s[1..]));
      assert Concat([Token(Other, [s[0]])]) == [s[0]] by {
        assert [Token(Other, [s[0]])][..0] == [];
      }
      assert s == [s[0]] + s[1..];
    }
  }

  /** A pattern does not occur where the text holds a character other than its first. */
  lemma FirstCharDiffers(text: string, i: nat, p: string)
    requires i < |text| && p != [] && text[i] != p[0]
    ensures !OccursAt(text, p, i)
  {
  }

  /** Every literal separator starts with a newline, so a character other than newline lexes alone. */
  lemma LexOneChar(text: string, i: nat)
    requires i < |text| && text[i] != '\n'
    ensures LexFrom(text, i) == Prepend([Token(Other, [text[i]])], LexFrom(text, i + 1))
  {
    FirstCharDiffers(text, i, CodeFence);
    FirstCharDiffers(text, i, FrontSep);
    FirstCharDiffers(text, i, BackSep);
    FirstCharDiffers(text, i, LastSep);
    FirstMatchInTableOrder(text, i);
  }

  /** Two patterns that differ at position `k` cannot both occur at the same place. */
  lemma DifferAt(text: string, i: nat, p: string, q: string, k: nat)
    requires OccursAt(text, p, i) && k < |p| && k < |q| && p[k] != q[k]
    ensures !OccursAt(text, q, i)
  {
    assert text[i + k] == text[i..i + |p|][k];
  }

  lemma LexBack(text: string, i: nat)
    requires OccursAt(text, BackSep, i)
    ensures LexFrom(text, i) == Prepend([Token(Back, BackSep)], LexFrom(text, i + |BackSep|))
  {
    DifferAt(text, i, BackSep, CodeFence, 1);
    DifferAt(text, i, BackSep, FrontSep, 2);
    FirstMatchInTableOrder(text, i);
  }

  /** The closing separator at the very end is Last: too short for Front, and no fence or Back. */
  lemma LexLastAtEnd(text: string, i: nat)
    requires OccursAt(text, LastSep, i) && i + |LastSep| == |text|
    ensures LexFrom(text, i) == Tokens([Token(Last, LastSep)])
  {
    DifferAt(text, i, LastSep, CodeFence, 1);
    DifferAt(text, i, LastSep, BackSep, 2);
    assert !OccursAt(text, FrontSep, i);
    FirstMatchInTableOrder(text, i);
    assert LexFrom(text, i + |LastSep|) == Tokens([]);
  }

  /** The tokens of a one-card deck whose lines hold no newline. */
  function CardTokens(pre: string, q: string, a: string): seq<Token>
  {
    Plain(pre) + [Token(Front, FrontSep)] + Plain(q) + [Token(Back, BackSep)] + Plain(a) + [Token(Last, LastSep)]
  }

  /** FirstOf finds `j` when `j` is the first index from `from` on with a wanted kind. */
  lemma {:induction false} FirstOfAt(tokens: seq<Token>, from: nat, kinds: set<TokenKind>, j: nat)
    requires from <= j < |tokens| && tokens[j].kind in kinds
    requires forall k :: from <= k < j ==> tokens[k].kind !in kinds
    ensures FirstOf(tokens, from, kinds) == j
    decreases j - from
  {
    if from < j {
      FirstOfAt(tokens, from + 1, kinds, j);
    }
  }

  /** Where the markers of a one-card deck's tokens lie; every other token is Other. */
  lemma CardTokensLayout(pre: string, q: string, a: string)
    ensures var tokens := CardTokens(pre, q, a);
      var f := |pre|;
      var b := f + 1 + |q|;
      var e := b + 1 + |a|;
      && |tokens| == e + 1
      && tokens[f] == Token(Front, FrontSep) && tokens[b] == Token(Back, BackSep) && tokens[e] == Token(Last, LastSep)
      && tokens[..f] == Plain(pre) && tokens[f + 1..b] == Plain(q) && tokens[b + 1..e] == Plain(a)
      && (forall k :: 0 <= k < |tokens| && k != f && k != b && k != e ==> tokens[k].kind == Other)
  {
    var tokens := CardTokens(pre, q, a);
    var f := |pre|;
    var b := f + 1 + |q|;
    var e := b + 1 + |a|;
    assert tokens[..f] == Plain(pre);
    assert tokens[f + 1..b] == Plain(q);
    assert tokens[b + 1..e] == Plain(a);
    forall k | 0 <= k < |tokens| && k != f && k != b && k != e
      ensures tokens[k].kind == Other
    {
      if k < f {
        assert tokens[k] == tokens[..f][k];
      } else if k < b {
        assert tokens[k] == tokens[f + 1..b][k - f - 1];
      } else {
        assert tokens[k] == tokens[b + 1..e][k - b - 1];
      }
    }
  }

  /** The preamble of a one-card deck ends at its Front marker and holds the preamble line. */
  lemma CardTokensPreamble(pre: string, q: string, a: string)
    ensures PreambleEnd(CardTokens(pre, q, a), 0) == Some(|pre|)
  {
    var tokens := CardTokens(pre, q, a);
    CardTokensLayout(pre, q, a);
    PreambleWithoutFences(tokens, 0);
    FirstOfAt(tokens, 0, {Front}, |pre|);
  }

  /** A Front, Back and closing marker with only Other tokens between them make one card. */
  lemma CardBetween(tokens: seq<Token>, f: nat, b: nat, e: nat)
    requires f < b < e < |tokens|
    requires tokens[f].kind == Front && tokens[b].kind == Back && tokens[e].kind in {Front, Last}
    requires forall k :: f < k < e && k != b ==> tokens[k].kind == Other
    ensures CardAt(tokens, f) == Step(Some(CardNode(tokens[f], Concat(tokens[f + 1..b]), tokens[b], Concat(tokens[b + 1..e]))), e)
  {
    FirstOfAt(tokens, f + 1, {Back}, b);
    FirstOfAt(tokens, b + 1, {Front, Last}, e);
  }

  /** The card of a one-card deck holds the front and back lines and stops at the Last marker. */
  lemma CardTokensCard(pre: string, q: string, a: string)
    ensures var tokens := CardTokens(pre, q, a);
      && |pre| < |tokens| && tokens[|pre|].kind == Front
      && CardAt(tokens, |pre|) == Step(Some(CardNode(Token(Front, FrontSep), q, Token(Back, BackSep), a)), |pre| + |q| + |a| + 2)
  {
    var tokens := CardTokens(pre, q, a);
    var f := |pre|;
    var b := f + 1 + |q|;
    var e := b + 1 + |a|;
    assert f < b < e < |tokens| && tokens[f] == Token(Front, FrontSep) && tokens[b] == Token(Back, BackSep)
      && tokens[e].kind in {Front, Last} && forall k :: f < k < e && k != b ==> tokens[k].kind == Other
    by {
      CardTokensLayout(pre, q, a);
    }
    assert Concat(tokens[f + 1..b]) == q by {
      CardTokensLayout(pre, q, a);
      PlainConcat(q);
    }
    assert Concat(tokens[b + 1..e]) == a by {
      CardTokensLayout(pre, q, a);
      PlainConcat(a);
    }
    CardBetween(tokens, f, b, e);
  }

  /**
   * The tokens of a one-card deck parse to one card holding the front and
   * back, the preamble holding its own text, and the parse consumes every token.
   */
  lemma SingleCardParses(pre: string, q: string, a: string)
    ensures var tokens := CardTokens(pre, q, a);
      DeckAt(tokens, 0) == Returned(Step(Some(DeckNode(
        PreambleNode(pre),
        [CardNode(Token(Front, FrontSep), q, Token(Back, BackSep), a)],
        Token(Last, LastSep))), |tokens|))
  {
    var tokens := CardTokens(pre, q, a);
    var e := |pre| + |q| + |a| + 2;
    var card := CardNode(Token(Front, FrontSep), q, Token(Back, BackSep), a);
    CardTokensPreamble(pre, q, a);
    assert |tokens| == e + 1 && tokens[e] == Token(Last, LastSep) && Concat(tokens[0..|pre|]) == pre by {
      CardTokensLayout(pre, q, a);
      PlainConcat(pre);
      assert tokens[0..|pre|] == tokens[..|pre|];
    }
    assert CardsFrom(tokens, |pre|) == ClosedAt([card], e + 1) by {
      CardTokensCard(pre, q, a);
      OneCardChain(tokens, |pre|, card, e);
    }
    DeckOfParts(tokens, |pre|, [card], e + 1, pre, Token(Last, LastSep));
  }

  /** A card followed by a Last token closes the chain of cards with that one card. */
  lemma OneCardChain(tokens: seq<Token>, i: nat, card: CardNode, e: nat)
    requires i < |tokens| && tokens[i].kind == Front && CardAt(tokens, i) == Step(Some(card), e)
    requires e < |tokens| && tokens[e].kind == Last
    ensures CardsFrom(tokens, i) == ClosedAt([card], e + 1)
  {
  }

  /** parse_deck from a preamble ending at a Front token and a closed chain of cards after it. */
  lemma DeckOfParts(tokens: seq<Token>, p: nat, cards: seq<CardNode>, next: nat, pre: string, last: Token)
    requires PreambleEnd(tokens, 0) == Some(p) && p < |tokens| && Concat(tokens[0..p]) == pre
    requires CardsFrom(tokens, p) == ClosedAt(cards, next) && tokens[next - 1] == last
    ensures DeckAt(tokens, 0) == Returned(Step(Some(DeckNode(PreambleNode(pre), cards, last)), next))
  {
  }

  /**
   * The minimal deck "# Title", Front, "Q", Back, "A", Last, as tokens: one
   * card with front "Q" and back "A" (no blank lines), and the title "Title".
   */
  lemma MinimalDeck()
    ensures var tokens := CardTokens("# Title", "Q", "A");
      && DeckAt(tokens, 0) == Returned(Step(Some(DeckNode(
           PreambleNode("# Title"),
           [CardNode(Token(Front, FrontSep), "Q", Token(Back, BackSep), "A")],
           Token(Last, LastSep))), |tokens|))
      && ExtractTitle("# Title") == Some("Title")
  {
    SingleCardParses("# Title", "Q", "A");
    TitleExamples();
  }
}
