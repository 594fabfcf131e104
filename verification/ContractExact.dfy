/**
 What the tokenizer and the policy clause of src/contracts/ContractParser.cpp accept, said
 without them: every text has one division into longest tokens, and a policy clause is its
 keyword, blanks and a name.
 */
module ContractExact {
  import opened Int64
  import opened Decimal
  import opened ContractSyntax
  import opened ContractLexer
  import opened ContractParser
  import G = ContractGrammar

  // --- Characters, by their codes ---

  predicate Blank(c: char) {
    c as int in {9, 10, 11, 12, 13, 32}
  }

  predicate Digit(c: char) {
    48 <= c as int <= 57
  }

  predicate Letter(c: char) {
    65 <= c as int <= 90 || 97 <= c as int <= 122 || c as int == 95
  }

  lemma ClassesAgree(c: char)
    ensures IsSpace(c) <==> Blank(c)
    ensures IsDigit(c) <==> Digit(c)
    ensures IsLetter(c) <==> Letter(c)
    ensures IsWordChar(c) <==> Letter(c) || Digit(c)
  {
  }

  predicate Spaces(s: string) {
    forall i :: 0 <= i < |s| ==> Blank(s[i])
  }

  /** A word: a letter or underscore, then letters, underscores and digits. */
  predicate Word(n: string) {
    n != "" && Letter(n[0]) && forall i :: 0 <= i < |n| ==> Letter(n[i]) || Digit(n[i])
  }

  predicate AllDigits(s: string) {
    forall i :: 0 <= i < |s| ==> Digit(s[i])
  }

  // --- Tokens ---

  predicate Next(rest: string, c: char) {
    rest != "" && rest[0] == c
  }

  /** text is written as the token t, and rest does not continue it. */
  predicate Lexeme(t: Token, text: string, rest: string) {
    match t
    case LParen => text == "("
    case RParen => text == ")"
    case AndAnd => text == "&&"
    case OrOr => text == "||"
    case Bang => text == "!" && !Next(rest, '=')
    case Cmp(EQ) => text == "=="
    case Cmp(NE) => text == "!="
    case Cmp(LE) => text == "<="
    case Cmp(GE) => text == ">="
    case Cmp(LT) => text == "<" && !Next(rest, '=')
    case Cmp(GT) => text == ">" && !Next(rest, '=')
    case Int(v) => NumberText(text, rest) && v == IntValue(text) && Fits(v)
    case Overflow => NumberText(text, rest) && !Fits(IntValue(text))
    case Ident(n) => text == n && Word(n) && (rest == "" || !(Letter(rest[0]) || Digit(rest[0])))
    case Bad(c) =>
      && text == [c] && !Blank(c) && !Letter(c) && !Digit(c) && c !in "()!<>"
      && ((c == '&' || c == '|' || c == '=') ==> !Next(rest, c))
      && (c == '-' ==> rest == "" || !Digit(rest[0]))
  }

  /** An optional minus sign and all the digits there are. */
  predicate NumberText(text: string, rest: string) {
    && text != "" && (rest == "" || !Digit(rest[0]))
    && if text[0] == '-' then |text| > 1 && AllDigits(text[1..]) else AllDigits(text)
  }

  /** s is blanks and lexemes, one for each token. */
  ghost predicate Tokenises(s: string, ts: seq<Token>)
    decreases |ts|
  {
    if ts == [] then Spaces(s)
    else exists blanks, text, rest :: FirstLexeme(s, blanks, text, rest, ts[0]) && Tokenises(rest, ts[1..])
  }

  predicate FirstLexeme(s: string, blanks: string, text: string, rest: string, t: Token) {
    s == blanks + text + rest && Spaces(blanks) && Lexeme(t, text, rest)
  }

  lemma {:induction false} SkipsSpaces(blanks: string, rest: string)
    requires Spaces(blanks) && (rest == "" || !IsSpace(rest[0]))
    ensures SkipSpaces(blanks + rest) == rest
  {
    if blanks == "" {
      assert blanks + rest == rest;
    } else {
      assert (blanks + rest)[1..] == blanks[1..] + rest;
      SkipsSpaces(blanks[1..], rest);
    }
  }

  lemma {:induction false} SkippedSpaces(s: string) returns (blanks: string)
    ensures s == blanks + SkipSpaces(s) && Spaces(blanks)
  {
    if s != "" && IsSpace(s[0]) {
      var more := SkippedSpaces(s[1..]);
      blanks := [s[0]] + more;
      assert s == [s[0]] + s[1..];
    } else {
      blanks := "";
    }
  }

  lemma {:induction false} WordLenExact(text: string, rest: string)
    requires (forall i :: 0 <= i < |text| ==> IsWordChar(text[i])) && (rest == "" || !IsWordChar(rest[0]))
    ensures WordLen(text + rest) == |text|
  {
    if text == "" {
      assert text + rest == rest;
    } else {
      assert (text + rest)[1..] == text[1..] + rest;
      WordLenExact(text[1..], rest);
    }
  }

  lemma {:induction false} DigitsLenExact(text: string, rest: string)
    requires Digits(text) && (rest == "" || !IsDigit(rest[0]))
    ensures DigitsLen(text + rest) == |text|
  {
    if text == "" {
      assert text + rest == rest;
    } else {
      assert (text + rest)[1..] == text[1..] + rest;
      DigitsLenExact(text[1..], rest);
    }
  }

  lemma {:induction false} WordLenTaken(s: string)
    ensures var n := WordLen(s); (forall i :: 0 <= i < n ==> IsWordChar(s[i])) && (n < |s| ==> !IsWordChar(s[n]))
  {
    if s != "" && IsWordChar(s[0]) {
      WordLenTaken(s[1..]);
      forall i | 0 <= i < WordLen(s)
        ensures IsWordChar(s[i])
      {
        assert i > 0 ==> s[i] == s[1..][i - 1];
      }
    }
  }

  lemma {:induction false} DigitsLenTaken(s: string)
    ensures var n := DigitsLen(s); Digits(s[..n]) && (n < |s| ==> !IsDigit(s[n]))
  {
    if s != "" && IsDigit(s[0]) {
      DigitsLenTaken(s[1..]);
      assert s[..DigitsLen(s)] == [s[0]] + s[1..][..DigitsLen(s[1..])];
    }
  }

  lemma NumberTaken(s: string)
    requires StartsNumber(s)
    ensures NumberText(s[..NumberLen(s)], s[NumberLen(s)..])
  {
    if s[0] == '-' {
      DigitsLenTaken(s[1..]);
      assert s[..NumberLen(s)][1..] == s[1..][..DigitsLen(s[1..])];
    } else {
      DigitsLenTaken(s);
    }
  }

  lemma NumberLenExact(text: string, rest: string)
    requires NumberText(text, rest)
    ensures var s := text + rest; StartsNumber(s) && NumberLen(s) == |text| && s[..|text|] == text && Symbol(s).None?
  {
    var s := text + rest;
    assert s[..|text|] == text;
    if text[0] == '-' {
      assert s[1..] == text[1..] + rest;
      assert IsDigit(text[1..][0]);
      DigitsLenExact(text[1..], rest);
    } else {
      assert IsDigit(text[0]);
      DigitsLenExact(text, rest);
    }
  }

  /** The token taken is a lexeme, as long as possible. */
  lemma LexTokenTakes(s: string)
    requires s != "" && !IsSpace(s[0])
    ensures var (t, n) := LexToken(s); Lexeme(t, s[..n], s[n..])
  {
    WordLenTaken(s);
    if StartsNumber(s) {
      NumberTaken(s);
    }
    hide WordLen, DigitsLen, IntValue, NumberText;
  }

  /** And no other division of the text starts differently. */
  lemma LexTokenUnique(t: Token, text: string, rest: string)
    requires Lexeme(t, text, rest)
    ensures text != "" && !IsSpace(text[0]) && LexToken(text + rest) == (t, |text|)
  {
    var s := text + rest;
    match t
    case Int(_) => NumberLenExact(text, rest); NumberStart(text, rest);
    case Overflow => NumberLenExact(text, rest); NumberStart(text, rest);
    case Ident(n) =>
      WordLenExact(text, rest);
      assert s[..|n|] == n && s[0] == n[0];
    case _ =>
      assert |s| > |text| ==> s[|text|] == rest[0];
  }

  lemma NumberStart(text: string, rest: string)
    requires NumberText(text, rest)
    ensures !IsSpace(text[0])
  {
    assert text[0] == '-' || IsDigit(text[0]);
  }

  lemma TokensUnfold(s: string)
    ensures var t := SkipSpaces(s);
            Tokens(s) == if t == "" then [] else [LexToken(t).0] + Tokens(t[LexToken(t).1..])
    ensures SkipSpaces(s) != "" ==> Tokens(s)[1..] == Tokens(SkipSpaces(s)[LexToken(SkipSpaces(s)).1..])
  {
    hide LexToken, SkipSpaces;
  }

  lemma OnlyBlanks(s: string)
    requires Spaces(s)
    ensures Tokenises(s, [])
  {
  }

  lemma Divides(s: string, blanks: string, text: string, rest: string, ts: seq<Token>)
    requires ts != [] && FirstLexeme(s, blanks, text, rest, ts[0]) && Tokenises(rest, ts[1..])
    ensures Tokenises(s, ts)
  {
    hide FirstLexeme;
  }

  lemma {:induction false} TokensDivide(s: string)
    ensures Tokenises(s, Tokens(s))
    decreases |s|
  {
    hide Lexeme, LexToken, Tokens, SkipSpaces, Spaces;
    var blanks := SkippedSpaces(s);
    var t := SkipSpaces(s);
    TokensUnfold(s);
    if t == "" {
      assert s == blanks;
      OnlyBlanks(s);
    } else {
      var (first, n) := LexToken(t);
      LexTokenTakes(t);
      TokensDivide(t[n..]);
      assert t == t[..n] + t[n..];
      assert FirstLexeme(s, blanks, t[..n], t[n..], first);
      Divides(s, blanks, t[..n], t[n..], Tokens(s));
    }
  }

  lemma {:induction false} DivisionUnique(s: string, ts: seq<Token>)
    requires Tokenises(s, ts)
    ensures Tokens(s) == ts
    decreases |ts|
  {
    hide Lexeme, LexToken;
    if ts == [] {
      SkipsSpaces(s, "");
      assert s + "" == s;
    } else {
      var blanks, text, rest :| FirstLexeme(s, blanks, text, rest, ts[0]) && Tokenises(rest, ts[1..]);
      LexTokenUnique(ts[0], text, rest);
      assert s == blanks + (text + rest);
      SkipsSpaces(blanks, text + rest);
      assert (text + rest)[|text|..] == rest;
      DivisionUnique(rest, ts[1..]);
      assert ts == [ts[0]] + ts[1..];
    }
  }

  /** The tokens of a text are its one division into longest lexemes, blanks between them or not. */
  lemma TokensExact(s: string, ts: seq<Token>)
    ensures Tokens(s) == ts <==> Tokenises(s, ts)
  {
    if Tokens(s) == ts {
      TokensDivide(s);
    }
    if Tokenises(s, ts) {
      DivisionUnique(s, ts);
    }
  }

  // --- Policies ---

  /** The keyword, blanks, and a name of word characters and dashes that starts with a letter. */
  predicate PolicyText(body: string, before: string, blanks: string, name: string, after: string) {
    && body == before + "policy" + blanks + name + after && Spaces(before) && Spaces(blanks) && blanks != "" && Spaces(after)
    && name != "" && Letter(name[0]) && NameChars(name)
  }

  predicate NameChars(s: string) {
    forall i :: 0 <= i < |s| ==> Letter(s[i]) || Digit(s[i]) || s[i] == '-'
  }

  lemma {:induction false} TrimRightExact(name: string, after: string)
    requires Spaces(after) && (name == "" || !IsSpace(name[|name| - 1]))
    ensures TrimRight(name + after) == name
    decreases |after|
  {
    if after == "" {
      assert name + after == name;
    } else {
      var s := name + after;
      assert s[..|s| - 1] == name + after[..|after| - 1];
      TrimRightExact(name, after[..|after| - 1]);
    }
  }

  lemma {:induction false} TrimmedRight(s: string) returns (after: string)
    ensures s == TrimRight(s) + after && Spaces(after)
  {
    if s != "" && IsSpace(s[|s| - 1]) {
      var more := TrimmedRight(s[..|s| - 1]);
      after := more + [s[|s| - 1]];
    } else {
      after := "";
    }
  }

  /** A text is a policy clause exactly when it is written as one, and names what stands there. */
  lemma PolicyExact(body: string, name: string)
    ensures ClauseOf(body) == Accepted(Policy(name)) <==> exists before, blanks, after :: PolicyText(body, before, blanks, name, after)
  {
    if ClauseOf(body) == Accepted(Policy(name)) {
      var before, blanks, after := PolicyWritten(body, name);
      assert PolicyText(body, before, blanks, name, after);
    }
    if before, blanks, after :| PolicyText(body, before, blanks, name, after) {
      PolicyRead(body, before, blanks, name, after);
    }
  }

  lemma PolicyTokens(body: string, name: string)
    requires ClauseOf(body) == Accepted(Policy(name))
    ensures var ts := Tokens(body);
            ts != [] && ts[0] == Ident("policy") && |ts| > 1 && ts[1].Ident? && PolicyOutcome(body) == Accepted(Policy(name))
  {
    NoPolicyInTokens(Tokens(body));
    hide G.ParseTokens, Tokens, PolicyOutcome;
  }

  /** A text whose first token is a word: blanks, the word, and a rest that does not continue it. */
  lemma FirstIsWord(body: string, w: string) returns (before: string, rest: string)
    requires Tokens(body) != [] && Tokens(body)[0] == Ident(w)
    ensures body == before + w + rest && Spaces(before) && IsWord(w) && (rest == "" || !IsWordChar(rest[0]))
    ensures SkipSpaces(body) == w + rest && WordLen(w + rest) == |w| && Tokens(body)[1..] == Tokens(rest)
  {
    hide LexToken, Tokens, SkipSpaces, Spaces;
    TokensUnfold(body);
    before := SkippedSpaces(body);
    var t := SkipSpaces(body);
    LexTokenTakes(t);
    var n := LexToken(t).1;
    rest := t[n..];
    assert t[..n] == w && t == w + rest;
    WordLenExact(w, rest);
  }

  lemma PolicyWritten(body: string, name: string) returns (before: string, blanks: string, after: string)
    requires ClauseOf(body) == Accepted(Policy(name))
    ensures PolicyText(body, before, blanks, name, after)
  {
    PolicyTokens(body, name);
    var ts := Tokens(body);
    var u;
    before, u := FirstIsWord(body, "policy");
    hide ClauseOf, TrimRight, LexToken, Tokens;
    assert ("policy" + u)[6..] == u;
    var w := ts[1].text;
    assert ts[1..][0] == Ident(w);
    var b, v;
    b, v := FirstIsWord(u, w);
    var t := SkipSpaces(u);
    blanks := SkippedSpaces(u);
    after := TrimmedRight(t);
    assert name == TrimRight(t);
    PolicyPieces(body, before, u, blanks, t, w + v, name, after);
  }

  lemma PolicyPieces(
    body: string, before: string, u: string, blanks: string, t: string, v: string, name: string, after: string)
    requires body == before + "policy" + u && Spaces(before) && u == blanks + t && Spaces(blanks) && t == v && v != "" && IsLetter(v[0])
    requires !IsWordChar(u[0]) && t == name + after && Spaces(after) && name != "" && PolicyChars(name)
    ensures PolicyText(body, before, blanks, name, after)
  {
    assert name[0] == v[0];
    assert blanks == "" ==> u == v;
    assert body == before + "policy" + blanks + name + after;
  }

  lemma PolicyRead(body: string, before: string, blanks: string, name: string, after: string)
    requires PolicyText(body, before, blanks, name, after)
    ensures ClauseOf(body) == Accepted(Policy(name))
  {
    hide *;
    var v := name + after;
    var u := blanks + v;
    PolicyShape(body, before, blanks, name, after);
    TokensUnfold(body);
    TokensUnfold(u);
    NamesPolicy(body, u, v, name, after);
  }

  lemma PolicyShape(body: string, before: string, blanks: string, name: string, after: string)
    requires PolicyText(body, before, blanks, name, after)
    ensures var v := name + after;
            var u := blanks + v;
            && SkipSpaces(body) == "policy" + u && SkipSpaces(u) == v && v != "" && WordLen("policy" + u) == 6
            && LexToken("policy" + u) == (Ident("policy"), 6) && ("policy" + u)[6..] == u && LexToken(v).0.Ident?
            && TrimRight(v) == name && name != "" && PolicyChars(name)
  {
    hide *;
    NameShape(blanks, name, after, before, body);
    KeywordShape(body, before, blanks, blanks + (name + after), name + after, name);
  }

  lemma NameShape(blanks: string, name: string, after: string, before: string, body: string)
    requires PolicyText(body, before, blanks, name, after)
    ensures var v := name + after;
            && SkipSpaces(blanks + v) == v && v != "" && LexToken(v).0.Ident? && TrimRight(v) == name && name != "" && PolicyChars(name)
            && body == before + ("policy" + (blanks + v)) && Spaces(before) && blanks != "" && IsSpace(blanks[0])
  {
    var v := name + after;
    assert v[0] == name[0];
    hide LexToken, TrimRight, SkipSpaces;
    SkipsSpaces(blanks, v);
    LetterStarts(v);
    NoBlankAtEnd(name);
    TrimRightExact(name, after);
    assert body == before + ("policy" + (blanks + v));
  }

  lemma LetterStarts(v: string)
    requires v != "" && IsLetter(v[0])
    ensures LexToken(v).0.Ident?
  {
  }

  lemma KeywordShape(body: string, before: string, blanks: string, u: string, v: string, name: string)
    requires u == blanks + v && body == before + ("policy" + u) && Spaces(before) && blanks != "" && IsSpace(blanks[0])
    ensures SkipSpaces(body) == "policy" + u && WordLen("policy" + u) == 6
    ensures LexToken("policy" + u) == (Ident("policy"), 6) && ("policy" + u)[6..] == u
  {
    SkipsSpaces(before, "policy" + u);
    assert u[0] == blanks[0];
    WordLenExact("policy", u);
    hide SkipSpaces, WordLen, LexToken;
    LexTokenUnique(Ident("policy"), "policy", u);
  }

  lemma NamesPolicy(body: string, u: string, v: string, name: string, after: string)
    requires SkipSpaces(body) == "policy" + u && SkipSpaces(u) == v && v != "" && WordLen("policy" + u) == 6
    requires LexToken("policy" + u) == (Ident("policy"), 6) && ("policy" + u)[6..] == u && LexToken(v).0.Ident?
    requires Tokens(body) == [LexToken("policy" + u).0] + Tokens(u) && Tokens(u) == [LexToken(v).0] + Tokens(v[LexToken(v).1..])
    requires TrimRight(v) == name && name != "" && PolicyChars(name)
    ensures ClauseOf(body) == Accepted(Policy(name))
  {
    hide Tokens, LexToken, TrimRight, PolicyChars, SkipSpaces, WordLen, G.ParseTokens;
    assert Tokens(body)[1..] == Tokens(u);
  }

  lemma NoBlankAtEnd(name: string)
    requires name != "" && PolicyChars(name)
    ensures !IsSpace(name[|name| - 1])
  {
    assert IsWordChar(name[|name| - 1]) || name[|name| - 1] == '-';
  }
}
