/** The stateful parser of src/contracts/ContractParser.cpp, and clause bodies as text. */
module ContractParser {
  import opened Int64
  import opened ContractSyntax
  import opened ContractLexer
  import G = ContractGrammar

  datatype Outcome = Accepted(clause: Clause) | Rejected | Throws

  predicate StartsWith(s: string, prefix: string) {
    |prefix| <= |s| && s[..|prefix|] == prefix
  }

  predicate AtOverflow(ts: seq<Token>) {
    ts != [] && ts[0] == Overflow
  }

  // --- Policies are read from the text, not from tokens ---

  function TrimRight(s: string): string {
    if s != "" && IsSpace(s[|s| - 1]) then TrimRight(s[..|s| - 1]) else s
  }

  predicate PolicyChars(s: string) {
    forall i :: 0 <= i < |s| ==> IsWordChar(s[i]) || s[i] == '-'
  }

  /** What follows the keyword, trimmed; a policy name has word characters and dashes. */
  function PolicyOutcome(body: string): Outcome {
    var rest := TrimRight(SkipSpaces(SkipSpaces(body)[WordLen(SkipSpaces(body))..]));
    if rest != "" && PolicyChars(rest) then Accepted(Policy(rest)) else Rejected
  }

  /** owns and borrows are told apart by how the text begins. */
  function WithKindOf(body: string, c: Clause): Clause {
    match c
    case Owns(n) => if StartsWith(body, "owns") then c else Borrows(n)
    case Borrows(n) => if StartsWith(body, "owns") then Owns(n) else c
    case _ => c
  }

  function OutcomeOf(body: string, p: G.Parse<Clause>): Outcome {
    if AtOverflow(p.rest) then Throws
    else if p.result.None? then Rejected
    else Accepted(WithKindOf(body, p.result.value))
  }

  /** parseClauseBody. */
  function ClauseOf(body: string): Outcome {
    var ts := Tokens(body);
    if ts != [] && ts[0] == Ident("policy") then
      if AtOverflow(ts[1..]) then Throws
      else if |ts| == 1 || !ts[1].Ident? then Rejected
      else PolicyOutcome(body)
    else OutcomeOf(body, G.ParseTokens(ts))
  }

  // --- The parser object ---

  class Parser {
    const lex: Lexer
    var tok: Option<Token>
    var failed: bool

    constructor (s: string)
      ensures Valid() && Clean() && fresh(lex) && lex.s == s
      ensures Remaining() == Tokens(s)
    {
      var l := new Lexer(s);
      var t := l.Next();
      lex, tok, failed := l, t, t.Some? && t.value.Bad?;
      new;
      assert lex.s[0..] == s;
    }

    /** The lookahead is a character no token starts with. */
    predicate AtBad()
      reads this
    {
      tok.Some? && tok.value.Bad?
    }

    ghost predicate Valid()
      reads this, lex
    {
      lex.Valid() && (tok.None? ==> Tokens(lex.s[lex.pos..]) == [])
    }

    /** The failure flag says no more than the lookahead does. */
    predicate Clean()
      reads this
    {
      failed == AtBad()
    }

    /** The lookahead and the tokens after it. */
    ghost function Remaining(): seq<Token>
      reads this, lex
      requires Valid()
    {
      (if tok.Some? then [tok.value] else []) + Tokens(lex.s[lex.pos..])
    }

    method Advance()
      requires Valid() && Clean() && tok.Some? && !AtBad()
      modifies this, lex
      ensures Valid() && Clean() && Remaining() == old(Remaining())[1..]
    {
      tok := lex.Next();
      if AtBad() {
        failed := true;
      }
    }

    method EatIdent(word: string) returns (eaten: bool)
      requires Valid() && Clean()
      modifies this, lex
      ensures Valid() && Clean()
      ensures eaten == (old(Remaining()) != [] && old(Remaining())[0] == Ident(word))
      ensures Remaining() == if eaten then old(Remaining())[1..] else old(Remaining())
    {
      eaten := tok == Some(Ident(word));
      if eaten {
        Advance();
      }
    }

    method ParseOperand() returns (r: Option<Operand>)
      requires Valid() && Clean()
      modifies this, lex
      ensures Valid() && Clean()
      ensures G.Parse(r, Remaining()) == G.ParseOperand(old(Remaining()))
    {
      if tok.None? {
        return None;
      }
      r := OperandOf(tok.value);
      if r.Some? {
        Advance();
      }
    }

    method ParseAtom() returns (r: Option<Pred>)
      requires Valid() && Clean()
      modifies this, lex
      ensures Valid() && (r.Some? ==> Clean())
      ensures G.Parse(r, Remaining()) == G.ParseAtom(old(Remaining()))
      decreases |Remaining()|, 0
    {
      hide G.ParsePred, Tokens;
      if tok == Some(LParen) {
        Advance();
        r := ParsePred();
        if r.None? {
          return;
        }
        if tok != Some(RParen) {
          failed := true;
          return None;
        }
        Advance();
        return;
      }
      var lhs := ParseOperand();
      if lhs.None? {
        return None;
      }
      if tok.Some? && tok.value.Cmp? {
        var op := tok.value.op;
        Advance();
        var rhs := ParseOperand();
        if rhs.None? {
          failed := true;
          return None;
        }
        return Some(Compare(lhs.value, op, rhs.value));
      }
      return Some(Truth(lhs.value));
    }

    method ParseUnary() returns (r: Option<Pred>)
      requires Valid() && Clean()
      modifies this, lex
      ensures Valid() && (r.Some? ==> Clean())
      ensures G.Parse(r, Remaining()) == G.ParseUnary(old(Remaining()))
      decreases |Remaining()|, 1
    {
      hide G.ParseAtom, Tokens;
      if tok == Some(Bang) {
        Advance();
        var sub := ParseUnary();
        return if sub.Some? then Some(Not(sub.value)) else None;
      }
      r := ParseAtom();
    }

    method ParseAnd() returns (r: Option<Pred>)
      requires Valid() && Clean()
      modifies this, lex
      ensures Valid() && (r.Some? ==> Clean())
      ensures G.Parse(r, Remaining()) == G.ParseAnd(old(Remaining()))
      decreases |Remaining()|, 2
    {
      hide G.ParseUnary, Tokens;
      var first := ParseUnary();
      if first.None? || tok != Some(AndAnd) {
        return first;
      }
      var children := [first.value];
      while tok == Some(AndAnd)
        invariant Valid() && Clean()
        invariant G.AndTail(children, Remaining()) == G.ParseAnd(old(Remaining()))
        invariant |Remaining()| < |old(Remaining())|
        decreases |Remaining()|
      {
        Advance();
        var next := ParseUnary();
        if next.None? {
          failed := true;
          return None;
        }
        children := children + [next.value];
      }
      return Some(And(children));
    }

    method ParsePred() returns (r: Option<Pred>)
      requires Valid() && Clean()
      modifies this, lex
      ensures Valid() && (r.Some? ==> Clean())
      ensures G.Parse(r, Remaining()) == G.ParsePred(old(Remaining()))
      decreases |Remaining()|, 3
    {
      hide G.ParseAnd, Tokens;
      var first := ParseAnd();
      if first.None? || tok != Some(OrOr) {
        return first;
      }
      var children := [first.value];
      while tok == Some(OrOr)
        invariant Valid() && Clean()
        invariant G.OrTail(children, Remaining()) == G.ParsePred(old(Remaining()))
        invariant |Remaining()| < |old(Remaining())|
        decreases |Remaining()|
      {
        Advance();
        var next := ParseAnd();
        if next.None? {
          failed := true;
          return None;
        }
        children := children + [next.value];
      }
      return Some(Or(children));
    }

    method ParseRequires() returns (r: Option<Clause>)
      requires Valid() && Clean()
      modifies this, lex
      ensures Valid() && G.Parse(r, Remaining()) == G.ParseRequires(old(Remaining()))
    {
      hide G.ParsePred, Tokens;
      var pred := ParsePred();
      if pred.None? || failed || tok.Some? {
        return None;
      }
      return Some(Requires(pred.value));
    }

    method ParseEnsures() returns (r: Option<Clause>)
      requires Valid() && Clean()
      modifies this, lex
      ensures Valid() && G.Parse(r, Remaining()) == G.ParseEnsures(old(Remaining()))
    {
      hide G.ParsePred, Tokens;
      var pred := ParsePred();
      if pred.None? || failed {
        return None;
      }
      var guarded := EatIdent("if");
      if guarded {
        var guard := ParsePred();
        if guard.None? || failed || tok.Some? {
          return None;
        }
        return Some(Ensures(pred.value, guard));
      }
      if tok.Some? {
        return None;
      }
      return Some(Ensures(pred.value, None));
    }

    method ParseOwnership(owns: bool) returns (r: Option<Clause>)
      requires Valid() && Clean()
      modifies this, lex
      ensures Valid() && G.Parse(r, Remaining()) == G.ParseOwnership(owns, old(Remaining()))
    {
      hide Tokens;
      if tok != Some(LParen) {
        return None;
      }
      Advance();
      if tok.None? || !tok.value.Ident? {
        return None;
      }
      var name := tok.value.text;
      Advance();
      if tok != Some(RParen) {
        return None;
      }
      Advance();
      if tok.Some? {
        return None;
      }
      return Some(if owns then Owns(name) else Borrows(name));
    }

    method ParseReturns() returns (r: Option<Clause>)
      requires Valid() && Clean()
      modifies this, lex
      ensures Valid() && G.Parse(r, Remaining()) == G.ParseReturns(old(Remaining()))
    {
      hide Tokens;
      var owned := EatIdent("owned");
      if !owned || tok.Some? {
        return None;
      }
      return Some(ReturnsOwned);
    }

    /** Every clause but a policy, chosen by its first word. */
    method ParseClause() returns (r: Option<Clause>)
      requires Valid() && Clean()
      modifies this, lex
      ensures Valid() && G.Parse(r, Remaining()) == G.ParseTokens(old(Remaining()))
    {
      hide G.ParseRequires, G.ParseEnsures, G.ParseOwnership, G.ParseReturns, Tokens;
      var eaten := EatIdent("requires");
      if eaten {
        r := ParseRequires();
        return;
      }
      eaten := EatIdent("ensures");
      if eaten {
        r := ParseEnsures();
        return;
      }
      eaten := EatIdent("owns");
      if eaten {
        r := ParseOwnership(true);
        return;
      }
      eaten := EatIdent("borrows");
      if eaten {
        r := ParseOwnership(false);
        return;
      }
      eaten := EatIdent("returns");
      if eaten {
        r := ParseReturns();
        return;
      }
      return None;
    }
  }

  /** parseClauseBody; a number outside 64 bits at the lookahead has thrown. */
  method ParseClauseBody(body: string) returns (r: Outcome)
    ensures r == ClauseOf(body)
  {
    hide G.ParseTokens, Tokens;
    var p := new Parser(body);
    var policy := p.EatIdent("policy");
    if policy {
      if p.tok == Some(Overflow) {
        return Throws;
      }
      if p.tok.None? || !p.tok.value.Ident? {
        return Rejected;
      }
      return PolicyOutcome(body);
    }
    var clause := p.ParseClause();
    if p.tok == Some(Overflow) {
      return Throws;
    }
    return if clause.None? then Rejected else Accepted(WithKindOf(body, clause.value));
  }

  // --- Clause texts ---

  lemma SkipSpacesOf(s: string)
    requires s != "" && !IsSpace(s[0])
    ensures SkipSpaces(s) == s
  {
  }

  /** When the first token is a word, the text starts with it, leading blanks aside. */
  lemma FirstWord(body: string, w: string)
    requires Tokens(body) != [] && Tokens(body)[0] == Ident(w)
    ensures StartsWith(SkipSpaces(body), w)
    ensures w != "" && IsLetter(w[0])
  {
    var t := SkipSpaces(body);
    assert LexToken(t).0 == Ident(w);
    assert t[..WordLen(t)] == w;
    assert IsWordChar(t[0]);
  }

  /**
   A clause beginning with `owns` is read as owns exactly when no blank precedes it, and one
   beginning with `borrows` always as borrows; every caller strips leading blanks first.
   */
  lemma OwnershipKindExact(body: string, name: string)
    requires G.ParseTokens(Tokens(body)).result == Some(Owns(name)) || G.ParseTokens(Tokens(body)).result == Some(Borrows(name))
    ensures var c := G.ParseTokens(Tokens(body)).result.value;
            ClauseOf(body) == Accepted(c) <==> (c.Owns? ==> !IsSpace(body[0]))
  {
    hide G.ParseTokens, Tokens;
    var ts := Tokens(body);
    var c := G.ParseTokens(ts).result.value;
    AcceptedLeavesNothing(ts);
    OwnershipKeyword(ts);
    KeywordPosition(body, if c.Owns? then "owns" else "borrows");
  }

  lemma OwnershipKeyword(ts: seq<Token>)
    requires G.ParseTokens(ts).result.Some?
    ensures G.ParseTokens(ts).result.value.Owns? ==> ts != [] && ts[0] == Ident("owns")
    ensures G.ParseTokens(ts).result.value.Borrows? ==> ts != [] && ts[0] == Ident("borrows")
  {
    hide G.ParsePred;
  }

  lemma KeywordPosition(body: string, w: string)
    requires Tokens(body) != [] && Tokens(body)[0] == Ident(w) && (w == "owns" || w == "borrows")
    ensures body != "" && (StartsWith(body, "owns") <==> w == "owns" && !IsSpace(body[0]))
  {
    FirstWord(body, w);
    hide Tokens;
    var t := SkipSpaces(body);
    assert body != "" && t[0] == w[0] && t[..|w|] == w;
    if IsSpace(body[0]) {
      FirstDiffers(body, "owns");
    } else {
      SkipSpacesOf(body);
      if w == "borrows" {
        FirstDiffers(body, "owns");
      }
    }
  }

  lemma FirstDiffers(s: string, prefix: string)
    requires s != "" && prefix != "" && s[0] != prefix[0]
    ensures !StartsWith(s, prefix)
  {
  }

  /** A text without leading blank is accepted exactly when its tokens are in the grammar, with that meaning. */
  lemma TextAcceptedExactly(body: string, c: Clause)
    requires body != "" && !IsSpace(body[0]) && !c.Policy?
    ensures ClauseOf(body) == Accepted(c) <==>
              exists t :: ClauseOk(t) && ClauseYield(t) == Tokens(body) && ClauseMeaning(t) == c
  {
    G.AcceptsExactlyTheGrammar(Tokens(body), c);
    var p := G.ParseTokens(Tokens(body));
    NoPolicyInTokens(Tokens(body));
    hide G.ParseTokens, ClauseYield, ClauseMeaning, Tokens;
    if p.result.Some? {
      AcceptedLeavesNothing(Tokens(body));
      match p.result.value
      case Owns(n) => OwnershipKindExact(body, n);
      case Borrows(n) => OwnershipKindExact(body, n);
      case _ =>
    }
  }

  lemma AcceptedLeavesNothing(ts: seq<Token>)
    requires G.ParseTokens(ts).result.Some?
    ensures G.ParseTokens(ts).rest == []
  {
    hide G.ParsePred;
  }

  lemma NoPolicyInTokens(ts: seq<Token>)
    ensures ts != [] && ts[0] == Ident("policy") ==> G.ParseTokens(ts).result.None?
    ensures G.ParseTokens(ts).result.Some? ==> !G.ParseTokens(ts).result.value.Policy?
  {
    hide G.ParsePred;
  }

  /** Printing a predicate as text after a keyword and parsing that text gives the clause back. */
  lemma ClauseTextRoundTrip(p: Pred)
    requires G.Printable(p) && forall i :: 0 <= i < |G.Print(p)| ==> Writable(G.Print(p)[i])
    ensures ClauseOf(Render([Ident("requires")] + G.Print(p))) == Accepted(Requires(p))
    ensures ClauseOf(Render([Ident("ensures")] + G.Print(p))) == Accepted(Ensures(p, None))
  {
    hide *;
    KeywordsAreWords();
    G.PrintParseRoundTrip(p);
    KeywordRender("requires", G.Print(p));
    KeywordRender("ensures", G.Print(p));
    WholePred(p, G.Print(p));
    ReadKeyword(Render([Ident("requires")] + G.Print(p)), "requires", G.Print(p));
    ReadKeyword(Render([Ident("ensures")] + G.Print(p)), "ensures", G.Print(p));
  }

  lemma KeywordsAreWords()
    ensures IsWord("requires") && IsWord("ensures")
  {
  }

  lemma WholePred(p: Pred, ts: seq<Token>)
    requires G.ParsePred(ts) == G.Parse(Some(p), [])
    ensures forall body :: OutcomeOf(body, G.ParseRequires(ts)) == Accepted(Requires(p))
    ensures forall body :: OutcomeOf(body, G.ParseEnsures(ts)) == Accepted(Ensures(p, None))
  {
    hide G.ParsePred;
  }

  lemma ReadKeyword(body: string, w: string, ts: seq<Token>)
    requires Tokens(body) == [Ident(w)] + ts && ([Ident(w)] + ts)[1..] == ts && (w == "requires" || w == "ensures")
    ensures ClauseOf(body) == OutcomeOf(body, if w == "requires" then G.ParseRequires(ts) else G.ParseEnsures(ts))
  {
    hide G.ParseRequires, G.ParseEnsures, Tokens, OutcomeOf;
  }

  lemma KeywordRender(w: string, ts: seq<Token>)
    requires IsWord(w) && forall i :: 0 <= i < |ts| ==> Writable(ts[i])
    ensures Tokens(Render([Ident(w)] + ts)) == [Ident(w)] + ts && ([Ident(w)] + ts)[1..] == ts
  {
    hide Tokens, Render, IsWord;
    RenderLexRoundTrip([Ident(w)] + ts);
  }
}
