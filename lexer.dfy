/**
 * The deck markup lexer (lex_deck).  At each offset the five patterns of the
 * pattern table are tried in table order; the first one that matches a
 * prefix of the remaining text becomes the next token.
 */
module Lexer {
  import opened Common

  datatype TokenKind = Code | Front | Back | Last | Other

  datatype Token = Token(kind: TokenKind, text: string)

  /** A pattern of the table: a literal string, or the catch-all `[\s\S]`. */
  datatype Pattern = Literal(lit: string) | AnyChar

  /**
   * The lexer's error object.  The source would raise TypeError while building
   * its message; the catch-all pattern makes this case unreachable.
   */
  datatype LexError = LexError(offset: nat, context: string)

  datatype LexResult = Tokens(tokens: seq<Token>) | Failed(error: LexError)

  const CodeFence: string := "\n```"
  const FrontSep: string := "\n\n---\n\n"
  const BackSep: string := "\n\n%\n\n"
  const LastSep: string := "\n\n---\n"

  /** The pattern table, in priority order. */
  const PatternTable: seq<(TokenKind, Pattern)> := [
    (Code, Literal(CodeFence)),
    (Front, Literal(FrontSep)),
    (Back, Literal(BackSep)),
    (Last, Literal(LastSep)),
    (Other, AnyChar)
  ]

  /** The text a pattern matches at offset `i` of `text`, if any (Python's `regex.match(text, i)`). */
  function MatchPattern(p: Pattern, text: string, i: nat): (m: Option<string>)
    requires i < |text|
    ensures m.Some? ==> m.value != [] && OccursAt(text, m.value, i)
  {
    match p
    case Literal(lit) => if lit != [] && OccursAt(text, lit, i) then Some(lit) else None
    case AnyChar => Some([text[i]])
  }

  /** The token produced by the first entry of `table`, from `k` on, that matches at `i`. */
  function FirstMatch(table: seq<(TokenKind, Pattern)>, text: string, i: nat, k: nat): (t: Option<Token>)
    requires i < |text| && k <= |table|
    ensures t.Some? ==> t.value.text != [] && OccursAt(text, t.value.text, i)
    decreases |table| - k
  {
    if k == |table| then None
    else match MatchPattern(table[k].1, text, i)
      case Some(s) => Some(Token(table[k].0, s))
      case None => FirstMatch(table, text, i, k + 1)
  }

  /** The characters of `text` from `i` on, at most 16 (Python's clamped slice). */
  function Context(text: string, i: nat): string
  {
    if i >= |text| then [] else if i + 16 <= |text| then text[i..i + 16] else text[i..]
  }

  /**
   * Reference definition of lexing the text from offset `i` on with the
   * patterns of `table`.  An error names an offset of the text at which no
   * entry of the table matches.
   */
  function LexWith(table: seq<(TokenKind, Pattern)>, text: string, i: nat): (r: LexResult)
    ensures r.Failed? ==> i <= r.error.offset < |text| && FirstMatch(table, text, r.error.offset, 0).None?
    decreases |text| - i
  {
    if i >= |text| then Tokens([])
    else match FirstMatch(table, text, i, 0)
      case None => Failed(LexError(i, Context(text, i)))
      case Some(t) =>
        match LexWith(table, text, i + |t.text|)
        case Tokens(ts) => Tokens([t] + ts)
        case Failed(e) => Failed(e)
  }

  /**
   * Lexing with the deck markup's pattern table.  It never fails, every token
   * text is non-empty, and the token texts concatenated in order give back
   * the text lexed.
   */
  function LexFrom(text: string, i: nat): (r: LexResult)
    ensures r.Tokens?
    ensures i <= |text| ==> Concat(r.tokens) == text[i..]
    ensures forall k :: 0 <= k < |r.tokens| ==> r.tokens[k].text != []
  {
    if i <= |text| then
      LexWithLossless(PatternTable, text, i);
      LexWith(PatternTable, text, i)
    else
      LexWith(PatternTable, text, i)
  }

  /** Concatenation of token texts, in order. */
  function Concat(ts: seq<Token>): string
  {
    if ts == [] then [] else Concat(ts[..|ts| - 1]) + ts[|ts| - 1].text
  }

  /** `ts` followed by the tokens of `r`; an error stays an error. */
  function Prepend(ts: seq<Token>, r: LexResult): LexResult
  {
    match r
    case Tokens(rest) => Tokens(ts + rest)
    case Failed(e) => Failed(e)
  }

  /** lex_deck: lex the text with the deck markup's pattern table. */
  method LexDeck(text: string) returns (r: LexResult)
    ensures r == LexFrom(text, 0)
  {
    r := LexTable(PatternTable, text);
  }

  /**
   * The scanning loop of lex_deck: from left to right, emit the first match
   * at each offset.  If no entry matches, return `Failed`, where the source
   * would raise TypeError while formatting its message.
   */
  method LexTable(table: seq<(TokenKind, Pattern)>, text: string) returns (r: LexResult)
    ensures r == LexWith(table, text, 0)
  {
    var tokens: seq<Token> := [];
    var index := 0;
    while index < |text|
      invariant index <= |text|
      invariant LexWith(table, text, 0) == Prepend(tokens, LexWith(table, text, index))
      decreases |text| - index
    {
      var found := MatchAt(table, text, index);
      if found.None? {
        assert LexWith(table, text, index) == Failed(LexError(index, Context(text, index)));
        r := Failed(LexError(index, Context(text, index)));
        return;
      }
      PrependTwice(tokens, found.value, LexWith(table, text, index + |found.value.text|));
      tokens := tokens + [found.value];
      index := index + |found.value.text|;
    }
    r := Tokens(tokens);
  }

  /** The inner loop of lex_deck: try the entries of the table in order and take the first match. */
  method MatchAt(table: seq<(TokenKind, Pattern)>, text: string, index: nat) returns (found: Option<Token>)
    requires index < |text|
    ensures found == FirstMatch(table, text, index, 0)
  {
    found := None;
    var k := 0;
    while k < |table|
      invariant k <= |table|
      invariant FirstMatch(table, text, index, 0) == FirstMatch(table, text, index, k)
    {
      var entry := table[k];
      var m := MatchPattern(entry.1, text, index);
      if m.Some? {
        found := Some(Token(entry.0, m.value));
        return;
      }
      k := k + 1;
    }
  }

  /** Prepending one token and then more is prepending them all. */
  lemma PrependTwice(ts: seq<Token>, t: Token, r: LexResult)
    ensures Prepend(ts, Prepend([t], r)) == Prepend(ts + [t], r)
  {
    if r.Tokens? {
      assert ts + ([t] + r.tokens) == (ts + [t]) + r.tokens;
    }
  }

  /** Concatenation distributes over sequence concatenation. */
  lemma {:induction false} ConcatAppend(a: seq<Token>, b: seq<Token>)
    ensures Concat(a + b) == Concat(a) + Concat(b)
    decreases |b|
  {
    if b == [] {
      assert a + b == a;
    } else {
      var b' := b[..|b| - 1];
      var last := b[|b| - 1];
      assert Concat(a + b) == Concat(a + b') + last.text by {
        assert (a + b)[..|a + b| - 1] == a + b';
        assert (a + b)[|a + b| - 1] == last;
      }
      ConcatAppend(a, b');
    }
  }

  /** A table that ends with the catch-all entry. */
  predicate EndsWithCatchAll(table: seq<(TokenKind, Pattern)>)
  {
    |table| > 0 && table[|table| - 1].1 == AnyChar
  }

  /** The catch-all entry at the end of the table makes the first-match search total. */
  lemma FirstMatchTotal(table: seq<(TokenKind, Pattern)>, text: string, i: nat, k: nat)
    requires EndsWithCatchAll(table)
    requires i < |text| && k <= |table| - 1
    ensures FirstMatch(table, text, i, k).Some?
    decreases |table| - k
  {
    if k < |table| - 1 {
      if MatchPattern(table[k].1, text, i).None? {
        FirstMatchTotal(table, text, i, k + 1);
      }
    }
  }

  /** The token chosen at offset `i`: the first table entry that occurs there, else one character. */
  lemma FirstMatchInTableOrder(text: string, i: nat)
    requires i < |text|
    ensures FirstMatch(PatternTable, text, i, 0) == Some(
      if OccursAt(text, CodeFence, i) then Token(Code, CodeFence)
      else if OccursAt(text, FrontSep, i) then Token(Front, FrontSep)
      else if OccursAt(text, BackSep, i) then Token(Back, BackSep)
      else if OccursAt(text, LastSep, i) then Token(Last, LastSep)
      else Token(Other, [text[i]]))
  {
    assert PatternTable[4] == (Other, AnyChar);
    assert FirstMatch(PatternTable, text, i, 4) == Some(Token(Other, [text[i]]));
    assert PatternTable[3] == (Last, Literal(LastSep));
    assert FirstMatch(PatternTable, text, i, 3) == if OccursAt(text, LastSep, i) then Some(Token(Last, LastSep)) else FirstMatch(PatternTable, text, i, 4);
    assert PatternTable[2] == (Back, Literal(BackSep));
    assert FirstMatch(PatternTable, text, i, 2) == if OccursAt(text, BackSep, i) then Some(Token(Back, BackSep)) else FirstMatch(PatternTable, text, i, 3);
    assert PatternTable[1] == (Front, Literal(FrontSep));
    assert FirstMatch(PatternTable, text, i, 1) == if OccursAt(text, FrontSep, i) then Some(Token(Front, FrontSep)) else FirstMatch(PatternTable, text, i, 2);
    assert PatternTable[0] == (Code, Literal(CodeFence));
  }

  /**
   * Consequences of the priority order: "\n\n---\n\n" always lexes as Front and
   * never as Last, a fence token is exactly an occurrence of "\n```" (so it
   * begins with a newline), and a Last token is never followed by a blank line.
   */
  lemma FrontBeatsLast(text: string, i: nat)
    requires i < |text|
    ensures FirstMatch(PatternTable, text, i, 0).Some?
    ensures OccursAt(text, FrontSep, i) ==> FirstMatch(PatternTable, text, i, 0).value == Token(Front, FrontSep)
    ensures FirstMatch(PatternTable, text, i, 0).value.kind == Code <==> OccursAt(text, CodeFence, i)
    ensures FirstMatch(PatternTable, text, i, 0).value.kind == Code ==> text[i] == '\n'
    ensures FirstMatch(PatternTable, text, i, 0).value.kind == Last ==>
      OccursAt(text, LastSep, i) && !OccursAt(text, FrontSep, i)
  {
    FirstMatchInTableOrder(text, i);
    if OccursAt(text, FrontSep, i) {
      assert text[i + 1] == FrontSep[1];
      assert !OccursAt(text, CodeFence, i) by { assert CodeFence[1] != FrontSep[1]; }
    }
    if OccursAt(text, BackSep, i) {
      assert text[i + 1] == BackSep[1];
      assert !OccursAt(text, CodeFence, i) by { assert CodeFence[1] != BackSep[1]; }
    }
    if OccursAt(text, LastSep, i) {
      assert text[i + 1] == LastSep[1];
      assert !OccursAt(text, CodeFence, i) by { assert CodeFence[1] != LastSep[1]; }
    }
    if OccursAt(text, CodeFence, i) {
      assert text[i] == CodeFence[0];
    }
  }

  /** One lexing step: the first match at `i` is a non-empty piece of the text, and the rest is lexed after it. */
  lemma LexStep(table: seq<(TokenKind, Pattern)>, text: string, i: nat) returns (t: Token)
    requires EndsWithCatchAll(table) && i < |text|
    ensures t.text != [] && OccursAt(text, t.text, i)
    ensures LexWith(table, text, i) == Prepend([t], LexWith(table, text, i + |t.text|))
  {
    FirstMatchTotal(table, text, i, 0);
    t := FirstMatch(table, text, i, 0).value;
  }

  /** A non-empty piece of text at `i`, followed by tokens that give back the rest, gives back the text from `i`. */
  lemma LosslessStep(text: string, i: nat, t: Token, rest: seq<Token>)
    requires t.text != [] && OccursAt(text, t.text, i)
    requires Concat(rest) == text[i + |t.text|..]
    requires forall k :: 0 <= k < |rest| ==> rest[k].text != []
    ensures Concat([t] + rest) == text[i..]
    ensures forall k :: 0 <= k < |[t] + rest| ==> ([t] + rest)[k].text != []
  {
    var j := i + |t.text|;
    assert Concat([t] + rest) == t.text + Concat(rest) by {
      ConcatAppend([t], rest);
      assert [t][..0] == [];
    }
    assert text[i..] == text[i..j] + text[j..];
    forall k | 0 <= k < |[t] + rest|
      ensures ([t] + rest)[k].text != []
    {
      if k > 0 {
        assert ([t] + rest)[k] == rest[k - 1];
      }
    }
  }

  /**
   * Lexing with a table that ends with the catch-all never fails, every token
   * text is non-empty, and the token texts concatenated in order give back
   * the text lexed.
   */
  lemma {:induction false} LexWithLossless(table: seq<(TokenKind, Pattern)>, text: string, i: nat)
    requires EndsWithCatchAll(table) && i <= |text|
    ensures LexWith(table, text, i).Tokens?
    ensures Concat(LexWith(table, text, i).tokens) == text[i..]
    ensures forall k :: 0 <= k < |LexWith(table, text, i).tokens| ==> LexWith(table, text, i).tokens[k].text != []
    decreases |text| - i
  {
    if i < |text| {
      var t := LexStep(table, text, i);
      LexWithLossless(table, text, i + |t.text|);
      var rest := LexWith(table, text, i + |t.text|).tokens;
      LosslessStep(text, i, t, rest);
    }
  }
}
