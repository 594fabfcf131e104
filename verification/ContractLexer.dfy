/** The tokenizer of src/contracts/ContractParser.cpp. */
module ContractLexer {
  import opened Int64
  import opened Decimal
  import opened ContractSyntax

  predicate IsSpace(c: char) {
    c == ' ' || '\t' <= c <= '\r'
  }

  predicate IsLetter(c: char) {
    'a' <= c <= 'z' || 'A' <= c <= 'Z' || c == '_'
  }

  predicate IsWordChar(c: char) {
    IsLetter(c) || IsDigit(c)
  }

  function SkipSpaces(s: string): (r: string)
    ensures |r| <= |s|
    ensures r != "" ==> !IsSpace(r[0])
  {
    if s != "" && IsSpace(s[0]) then SkipSpaces(s[1..]) else s
  }

  /** How many leading characters are digits. */
  function DigitsLen(s: string): (n: nat)
    ensures n <= |s|
  {
    if s != "" && IsDigit(s[0]) then 1 + DigitsLen(s[1..]) else 0
  }

  function WordLen(s: string): (n: nat)
    ensures n <= |s|
  {
    if s != "" && IsWordChar(s[0]) then 1 + WordLen(s[1..]) else 0
  }

  /** std::stoll throws on a value outside 64 bits. */
  function NumberToken(text: string): Token {
    var v := IntValue(text);
    if Fits(v) then Int(v) else Overflow
  }

  predicate Second(s: string, c: char) {
    |s| > 1 && s[1] == c
  }

  predicate StartsNumber(s: string) {
    s != "" && (IsDigit(s[0]) || (s[0] == '-' && |s| > 1 && IsDigit(s[1])))
  }

  function NumberLen(s: string): (n: nat)
    requires StartsNumber(s)
    ensures 0 < n <= |s|
  {
    if s[0] == '-' then 1 + DigitsLen(s[1..]) else DigitsLen(s)
  }

  /** The operator or punctuation at the start of s, with its length. */
  function Symbol(s: string): (r: Option<(Token, nat)>)
    requires s != ""
    ensures r.Some? ==> 0 < r.value.1 <= |s|
  {
    var c := s[0];
    if c == '(' then Some((LParen, 1))
    else if c == ')' then Some((RParen, 1))
    else if c == '&' && Second(s, '&') then Some((AndAnd, 2))
    else if c == '|' && Second(s, '|') then Some((OrOr, 2))
    else if c == '!' then Some(if Second(s, '=') then (Cmp(NE), 2) else (Bang, 1))
    else if c == '=' then Some(if Second(s, '=') then (Cmp(EQ), 2) else (Bad('='), 1))
    else if c == '<' then Some(if Second(s, '=') then (Cmp(LE), 2) else (Cmp(LT), 1))
    else if c == '>' then Some(if Second(s, '=') then (Cmp(GE), 2) else (Cmp(GT), 1))
    else None
  }

  /** The token at the start of s, and how many characters it takes. */
  function LexToken(s: string): (r: (Token, nat))
    requires s != ""
    ensures 0 < r.1 <= |s|
  {
    if Symbol(s).Some? then Symbol(s).value
    else if StartsNumber(s) then (NumberToken(s[..NumberLen(s)]), NumberLen(s))
    else if IsLetter(s[0]) then (Ident(s[..WordLen(s)]), WordLen(s))
    else (Bad(s[0]), 1)
  }

  function Tokens(s: string): seq<Token>
    decreases |s|
  {
    var t := SkipSpaces(s);
    if t == "" then [] else [LexToken(t).0] + Tokens(t[LexToken(t).1..])
  }

  // --- Text of tokens ---

  predicate IsWord(n: string) {
    n != "" && IsLetter(n[0]) && forall i :: 0 <= i < |n| ==> IsWordChar(n[i])
  }

  predicate Writable(t: Token) {
    match t
    case Ident(n) => IsWord(n)
    case Int(v) => Fits(v)
    case Overflow => false
    case Bad(_) => false
    case _ => true
  }

  function Text(t: Token): string {
    match t
    case Ident(n) => n
    case Int(v) => IntText(v)
    case LParen => "("
    case RParen => ")"
    case Cmp(EQ) => "=="
    case Cmp(NE) => "!="
    case Cmp(LT) => "<"
    case Cmp(LE) => "<="
    case Cmp(GT) => ">"
    case Cmp(GE) => ">="
    case AndAnd => "&&"
    case OrOr => "||"
    case Bang => "!"
    case Bad(c) => [c]
    case Overflow => ""
  }

  /** The tokens as text, a space after each. */
  function Render(ts: seq<Token>): string {
    if ts == [] then "" else Text(ts[0]) + (" " + Render(ts[1..]))
  }

  lemma {:induction false} WordLenOf(n: string, rest: string)
    requires forall i :: 0 <= i < |n| ==> IsWordChar(n[i])
    ensures WordLen(n + (" " + rest)) == |n|
  {
    if n != "" {
      assert (n + (" " + rest))[1..] == n[1..] + (" " + rest);
      WordLenOf(n[1..], rest);
    } else {
      assert n + (" " + rest) == " " + rest;
    }
  }

  lemma {:induction false} DigitsLenOf(n: string, rest: string)
    requires Digits(n)
    ensures DigitsLen(n + (" " + rest)) == |n|
  {
    if n != "" {
      assert (n + (" " + rest))[1..] == n[1..] + (" " + rest);
      DigitsLenOf(n[1..], rest);
    } else {
      assert n + (" " + rest) == " " + rest;
    }
  }

  lemma LexNumber(v: int, rest: string)
    requires Fits(v)
    ensures var text := IntText(v); text != "" && LexToken(text + (" " + rest)) == (Int(v), |text|)
  {
    var text := IntText(v);
    var s := text + (" " + rest);
    IntTextRoundTrip(v);
    if v < 0 {
      var digits := text[1..];
      assert s[1..] == digits + (" " + rest);
      assert s[1] == digits[0];
      DigitsLenOf(digits, rest);
    } else {
      assert s[0] == text[0];
      DigitsLenOf(text, rest);
    }
    assert s[..|text|] == text;
  }

  lemma LexText(t: Token, rest: string)
    requires Writable(t)
    ensures Text(t) != "" && LexToken(Text(t) + (" " + rest)) == (t, |Text(t)|)
    ensures !IsSpace(Text(t)[0])
  {
    var s := Text(t) + (" " + rest);
    match t
    case Ident(n) =>
      WordLenOf(n, rest);
      assert s[0] == n[0] && s[..|n|] == n;
    case Int(v) =>
      LexNumber(v, rest);
      IntTextRoundTrip(v);
      assert v >= 0 ==> IsDigit(IntText(v)[0]);
    case Overflow =>
    case Bad(_) =>
    case _ =>
      assert s[|Text(t)|] == ' ';
  }

  /** Writing tokens out and reading them back gives the same tokens. */
  lemma {:induction false} RenderLexRoundTrip(ts: seq<Token>)
    requires forall i :: 0 <= i < |ts| ==> Writable(ts[i])
    ensures Tokens(Render(ts)) == ts
  {
    if ts != [] {
      var rest := Render(ts[1..]);
      LexText(ts[0], rest);
      var s := Render(ts);
      assert SkipSpaces(s) == s;
      assert s[|Text(ts[0])|..] == " " + rest;
      assert (" " + rest)[1..] == rest;
      assert SkipSpaces(" " + rest) == SkipSpaces(rest);
      assert Tokens(" " + rest) == Tokens(rest);
      RenderLexRoundTrip(ts[1..]);
    }
  }

  lemma TokensStep(s: string)
    ensures var t := SkipSpaces(s);
            Tokens(s) == if t == "" then [] else [LexToken(t).0] + Tokens(t[LexToken(t).1..])
    ensures Tokens("") == []
    ensures SkipSpaces(s) != "" ==> !IsSpace(SkipSpaces(s)[0])
  {
  }

  // --- The tokenizer object ---

  class Lexer {
    const s: string
    var pos: nat

    constructor (s: string)
      ensures this.s == s && pos == 0
    {
      this.s := s;
      this.pos := 0;
    }

    ghost predicate Valid()
      reads this
    {
      pos <= |s|
    }

    method SkipBlank()
      requires Valid()
      modifies this`pos
      ensures Valid() && s[pos..] == SkipSpaces(s[old(pos)..])
    {
      while pos < |s| && IsSpace(s[pos])
        invariant Valid() && SkipSpaces(s[pos..]) == SkipSpaces(s[old(pos)..])
        decreases |s| - pos
      {
        assert s[pos..][1..] == s[pos + 1..];
        pos := pos + 1;
      }
    }

    method SkipDigits()
      requires Valid()
      modifies this`pos
      ensures Valid() && pos == old(pos) + DigitsLen(s[old(pos)..])
    {
      while pos < |s| && IsDigit(s[pos])
        invariant Valid() && pos + DigitsLen(s[pos..]) == old(pos) + DigitsLen(s[old(pos)..])
        decreases |s| - pos
      {
        assert s[pos..][1..] == s[pos + 1..];
        pos := pos + 1;
      }
    }

    method SkipWord()
      requires Valid()
      modifies this`pos
      ensures Valid() && pos == old(pos) + WordLen(s[old(pos)..])
    {
      while pos < |s| && IsWordChar(s[pos])
        invariant Valid() && pos + WordLen(s[pos..]) == old(pos) + WordLen(s[old(pos)..])
        decreases |s| - pos
      {
        assert s[pos..][1..] == s[pos + 1..];
        pos := pos + 1;
      }
    }

    /** The next token; None at the end of the text. */
    method Next() returns (t: Option<Token>)
      requires Valid()
      modifies this`pos
      ensures Valid()
      ensures (if t.Some? then [t.value] else []) + Tokens(s[pos..]) == Tokens(s[old(pos)..])
      ensures t.None? ==> pos == |s|
    {
      hide LexToken, SkipSpaces, Tokens;
      SkipBlank();
      TokensStep(s[old(pos)..]);
      if pos == |s| {
        return None;
      }
      ghost var rest := s[pos..];
      ghost var from := pos;
      assert rest[0] == s[from];
      t := LexAt();
      assert rest[pos - from..] == s[pos..];
    }

    method LexAt() returns (t: Option<Token>)
      requires Valid() && pos < |s| && !IsSpace(s[pos])
      modifies this`pos
      ensures Valid() && t == Some(LexToken(s[old(pos)..]).0) && pos == old(pos) + LexToken(s[old(pos)..]).1
    {
      var start := pos;
      ghost var rest := s[start..];
      var symbol := Symbol(s[start..]);
      if symbol.Some? {
        pos := pos + symbol.value.1;
        return Some(symbol.value.0);
      }
      if IsDigit(s[pos]) || (s[pos] == '-' && pos + 1 < |s| && IsDigit(s[pos + 1])) {
        if s[pos] == '-' {
          assert s[start + 1..] == rest[1..];
          pos := pos + 1;
        }
        SkipDigits();
        assert s[start..pos] == rest[..NumberLen(rest)];
        return Some(NumberToken(s[start..pos]));
      }
      if IsLetter(s[pos]) {
        SkipWord();
        assert s[start..pos] == rest[..WordLen(rest)];
        return Some(Ident(s[start..pos]));
      }
      pos := pos + 1;
      return Some(Bad(s[start]));
    }
  }
}
