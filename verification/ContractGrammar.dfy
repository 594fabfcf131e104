/** The recursive descent of src/contracts/ContractParser.cpp on tokens, and the grammar it decides. */
module ContractGrammar {
  import opened Int64
  import opened ContractSyntax

  /** What a parsing function returns and the tokens it leaves. */
  datatype Parse<T> = Parse(result: Option<T>, rest: seq<Token>)

  function ParseOperand(ts: seq<Token>): (r: Parse<Operand>)
    ensures r.result.Some? ==> |r.rest| < |ts|
    ensures r.result.None? ==> r.rest == ts
  {
    if ts != [] && OperandOf(ts[0]).Some? then Parse(OperandOf(ts[0]), ts[1..]) else Parse(None, ts)
  }

  function ParseAtom(ts: seq<Token>): (r: Parse<Pred>)
    ensures if r.result.Some? then |r.rest| < |ts| else |r.rest| <= |ts|
    decreases |ts|, 0
  {
    if ts != [] && ts[0] == LParen then
      var inner := ParsePred(ts[1..]);
      if inner.result.None? || inner.rest == [] || inner.rest[0] != RParen then Parse(None, inner.rest)
      else Parse(inner.result, inner.rest[1..])
    else
      var lhs := ParseOperand(ts);
      if lhs.result.None? then Parse(None, ts)
      else if lhs.rest != [] && lhs.rest[0].Cmp? then
        var rhs := ParseOperand(lhs.rest[1..]);
        if rhs.result.None? then Parse(None, rhs.rest)
        else Parse(Some(Compare(lhs.result.value, lhs.rest[0].op, rhs.result.value)), rhs.rest)
      else Parse(Some(Truth(lhs.result.value)), lhs.rest)
  }

  function ParseUnary(ts: seq<Token>): (r: Parse<Pred>)
    ensures if r.result.Some? then |r.rest| < |ts| else |r.rest| <= |ts|
    decreases |ts|, 1
  {
    if ts != [] && ts[0] == Bang then
      var sub := ParseUnary(ts[1..]);
      if sub.result.None? then sub else Parse(Some(Not(sub.result.value)), sub.rest)
    else ParseAtom(ts)
  }

  function ParseAnd(ts: seq<Token>): (r: Parse<Pred>)
    ensures if r.result.Some? then |r.rest| < |ts| else |r.rest| <= |ts|
    decreases |ts|, 2
  {
    var first := ParseUnary(ts);
    if first.result.None? || first.rest == [] || first.rest[0] != AndAnd then first
    else AndTail([first.result.value], first.rest)
  }

  /** The loop over `&&`. */
  function AndTail(children: seq<Pred>, ts: seq<Token>): (r: Parse<Pred>)
    ensures |r.rest| <= |ts|
    decreases |ts|, 2
  {
    if ts == [] || ts[0] != AndAnd then Parse(Some(And(children)), ts)
    else
      var next := ParseUnary(ts[1..]);
      if next.result.None? then next else AndTail(children + [next.result.value], next.rest)
  }

  function ParsePred(ts: seq<Token>): (r: Parse<Pred>)
    ensures if r.result.Some? then |r.rest| < |ts| else |r.rest| <= |ts|
    decreases |ts|, 3
  {
    var first := ParseAnd(ts);
    if first.result.None? || first.rest == [] || first.rest[0] != OrOr then first
    else OrTail([first.result.value], first.rest)
  }

  /** The loop over `||`. */
  function OrTail(children: seq<Pred>, ts: seq<Token>): (r: Parse<Pred>)
    ensures |r.rest| <= |ts|
    decreases |ts|, 3
  {
    if ts == [] || ts[0] != OrOr then Parse(Some(Or(children)), ts)
    else
      var next := ParseAnd(ts[1..]);
      if next.result.None? then next else OrTail(children + [next.result.value], next.rest)
  }

  // --- Whole clauses ---

  /** The clauses with a grammar; policies and leftovers are decided elsewhere. */
  function ParseTokens(ts: seq<Token>): Parse<Clause> {
    if ts == [] then Parse(None, ts)
    else if ts[0] == Ident("requires") then ParseRequires(ts[1..])
    else if ts[0] == Ident("ensures") then ParseEnsures(ts[1..])
    else if ts[0] == Ident("owns") then ParseOwnership(true, ts[1..])
    else if ts[0] == Ident("borrows") then ParseOwnership(false, ts[1..])
    else if ts[0] == Ident("returns") then ParseReturns(ts[1..])
    else Parse(None, ts)
  }

  function ParseRequires(ts: seq<Token>): Parse<Clause> {
    var p := ParsePred(ts);
    if p.result.None? || p.rest != [] then Parse(None, p.rest) else Parse(Some(Requires(p.result.value)), [])
  }

  function ParseReturns(ts: seq<Token>): Parse<Clause> {
    if ts == [] || ts[0] != Ident("owned") then Parse(None, ts)
    else if |ts| > 1 then Parse(None, ts[1..])
    else Parse(Some(ReturnsOwned), [])
  }

  function ParseEnsures(ts: seq<Token>): Parse<Clause> {
    var p := ParsePred(ts);
    if p.result.None? then Parse(None, p.rest)
    else if p.rest != [] && p.rest[0] == Ident("if") then
      var g := ParsePred(p.rest[1..]);
      if g.result.None? || g.rest != [] then Parse(None, g.rest) else Parse(Some(Ensures(p.result.value, g.result)), [])
    else if p.rest != [] then Parse(None, p.rest)
    else Parse(Some(Ensures(p.result.value, None)), [])
  }

  function ParseOwnership(owns: bool, ts: seq<Token>): Parse<Clause> {
    if ts == [] || ts[0] != LParen then Parse(None, ts)
    else if |ts| == 1 || !ts[1].Ident? then Parse(None, ts[1..])
    else if |ts| == 2 || ts[2] != RParen then Parse(None, ts[2..])
    else if |ts| > 3 then Parse(None, ts[3..])
    else Parse(Some(if owns then Owns(ts[1].text) else Borrows(ts[1].text)), [])
  }

  // --- Every derivation is accepted ---

  /** A token at which a whole predicate ends. */
  predicate Stops(ts: seq<Token>) {
    ts == [] || (!ts[0].Cmp? && ts[0] != AndAnd && ts[0] != OrOr)
  }

  predicate StopsUnary(ts: seq<Token>) {
    ts == [] || !ts[0].Cmp?
  }

  lemma {:induction false} UnaryAccepted(t: UnaryTree, rest: seq<Token>)
    requires UnaryOk(t) && StopsUnary(rest)
    ensures ParseUnary(UnaryYield(t) + rest) == Parse(Some(UnaryMeaning(t)), rest)
    decreases t, 0
  {
    hide ParsePred, OrYield, OrMeaning, OrOk;
    var ts := UnaryYield(t) + rest;
    match t
    case NotTree(s) =>
      assert ts[1..] == UnaryYield(s) + rest;
      UnaryAccepted(s, rest);
    case AtomOf(Group(p)) =>
      assert ts[1..] == OrYield(p) + ([RParen] + rest);
      OrAccepted(p, [RParen] + rest);
      assert ([RParen] + rest)[1..] == rest;
    case AtomOf(Relation(l, op, r)) =>
      assert ts[1..] == [Cmp(op), r] + rest && ts[1..][1..] == [r] + rest && ([r] + rest)[1..] == rest;
    case AtomOf(Bare(o)) =>
      assert ts[1..] == rest;
  }

  lemma {:induction false} AndAccepted(t: AndTree, rest: seq<Token>)
    requires AndOk(t) && StopsUnary(rest) && (rest == [] || rest[0] != AndAnd)
    ensures ParseAnd(AndYield(t) + rest) == Parse(Some(AndMeaning(t)), rest)
    decreases t, 1
  {
    hide ParseUnary, UnaryYield, UnaryMeaning, UnaryOk, AndTail;
    match t
    case AndOne(u) => UnaryAccepted(u, rest);
    case AndMore(u, more) =>
      var tail := [AndAnd] + AndYield(more) + rest;
      assert AndYield(t) + rest == UnaryYield(u) + tail;
      UnaryAccepted(u, tail);
      AndTailAccepted([UnaryMeaning(u)], more, rest);
      assert [AndAnd] + (AndYield(more) + rest) == tail;
  }

  lemma {:induction false} AndTailAccepted(children: seq<Pred>, t: AndTree, rest: seq<Token>)
    requires AndOk(t) && StopsUnary(rest) && (rest == [] || rest[0] != AndAnd)
    ensures AndTail(children, [AndAnd] + (AndYield(t) + rest)) == Parse(Some(And(children + AndOperands(t))), rest)
    decreases t, 0
  {
    hide ParseUnary, UnaryYield, UnaryMeaning, UnaryOk;
    var ts := [AndAnd] + (AndYield(t) + rest);
    assert ts[1..] == AndYield(t) + rest;
    match t
    case AndOne(u) =>
      UnaryAccepted(u, rest);
      assert AndTail(children + [UnaryMeaning(u)], rest) == Parse(Some(And(children + [UnaryMeaning(u)])), rest);
    case AndMore(u, more) =>
      var tail := [AndAnd] + (AndYield(more) + rest);
      assert ts[1..] == UnaryYield(u) + tail;
      UnaryAccepted(u, tail);
      AndTailAccepted(children + [UnaryMeaning(u)], more, rest);
      assert (children + [UnaryMeaning(u)]) + AndOperands(more) == children + AndOperands(t);
  }

  lemma {:induction false} OrAccepted(t: OrTree, rest: seq<Token>)
    requires OrOk(t) && Stops(rest)
    ensures ParsePred(OrYield(t) + rest) == Parse(Some(OrMeaning(t)), rest)
    decreases t, 1
  {
    hide ParseAnd, AndYield, AndMeaning, AndOk, OrTail;
    match t
    case OrOne(a) => AndAccepted(a, rest);
    case OrMore(a, more) =>
      var tail := [OrOr] + (OrYield(more) + rest);
      assert OrYield(t) + rest == AndYield(a) + tail;
      AndAccepted(a, tail);
      OrTailAccepted([AndMeaning(a)], more, rest);
  }

  lemma {:induction false} OrTailAccepted(children: seq<Pred>, t: OrTree, rest: seq<Token>)
    requires OrOk(t) && Stops(rest)
    ensures OrTail(children, [OrOr] + (OrYield(t) + rest)) == Parse(Some(Or(children + OrOperands(t))), rest)
    decreases t, 0
  {
    hide ParseAnd, AndYield, AndMeaning, AndOk;
    var ts := [OrOr] + (OrYield(t) + rest);
    assert ts[1..] == OrYield(t) + rest;
    match t
    case OrOne(a) =>
      AndAccepted(a, rest);
      assert OrTail(children + [AndMeaning(a)], rest) == Parse(Some(Or(children + [AndMeaning(a)])), rest);
    case OrMore(a, more) =>
      var tail := [OrOr] + (OrYield(more) + rest);
      assert ts[1..] == AndYield(a) + tail;
      AndAccepted(a, tail);
      OrTailAccepted(children + [AndMeaning(a)], more, rest);
      assert (children + [AndMeaning(a)]) + OrOperands(more) == children + OrOperands(t);
  }

  // --- Everything accepted has a derivation ---

  lemma {:induction false} UnaryDerived(ts: seq<Token>) returns (t: UnaryTree)
    requires ParseUnary(ts).result.Some?
    ensures UnaryOk(t) && ts == UnaryYield(t) + ParseUnary(ts).rest && ParseUnary(ts).result.value == UnaryMeaning(t)
    decreases |ts|, 1
  {
    hide ParsePred, OrYield, OrMeaning, OrOk;
    assert ts == [ts[0]] + ts[1..];
    if ts[0] == Bang {
      var s := UnaryDerived(ts[1..]);
      t := NotTree(s);
    } else if ts[0] == LParen {
      var p := OrDerived(ts[1..]);
      var inner := ParsePred(ts[1..]);
      t := AtomOf(Group(p));
      assert inner.rest == [RParen] + inner.rest[1..];
    } else {
      t := PlainAtomDerived(ts);
    }
  }

  lemma PlainAtomDerived(ts: seq<Token>) returns (t: UnaryTree)
    requires ts != [] && ts[0] != Bang && ts[0] != LParen && ParseAtom(ts).result.Some?
    ensures UnaryOk(t) && ts == UnaryYield(t) + ParseAtom(ts).rest && ParseAtom(ts).result.value == UnaryMeaning(t)
  {
    hide ParsePred, OrYield, OrMeaning, OrOk;
    assert ts == [ts[0]] + ts[1..];
    if |ts| > 1 && ts[1].Cmp? {
      t := AtomOf(Relation(ts[0], ts[1].op, ts[2]));
      assert ts == [ts[0], ts[1], ts[2]] + ts[1..][1..][1..];
    } else {
      t := AtomOf(Bare(ts[0]));
    }
  }

  lemma {:induction false} AndDerived(ts: seq<Token>) returns (t: AndTree)
    requires ParseAnd(ts).result.Some?
    ensures AndOk(t) && ts == AndYield(t) + ParseAnd(ts).rest && ParseAnd(ts).result.value == AndMeaning(t)
    decreases |ts|, 2
  {
    hide ParseUnary, AndTail, UnaryYield, UnaryMeaning;
    var u := UnaryDerived(ts);
    var first := ParseUnary(ts);
    if first.rest == [] || first.rest[0] != AndAnd {
      t := AndOne(u);
    } else {
      var more := AndTailDerived([first.result.value], first.rest);
      t := AndMore(u, more);
    }
  }

  lemma {:induction false} AndTailDerived(children: seq<Pred>, ts: seq<Token>) returns (t: AndTree)
    requires ts != [] && ts[0] == AndAnd && AndTail(children, ts).result.Some?
    ensures AndOk(t) && ts == [AndAnd] + AndYield(t) + AndTail(children, ts).rest
    ensures AndTail(children, ts).result.value == And(children + AndOperands(t))
    decreases |ts|, 2
  {
    hide ParseUnary, UnaryYield, UnaryMeaning;
    var u := UnaryDerived(ts[1..]);
    var next := ParseUnary(ts[1..]);
    assert ts == [AndAnd] + ts[1..];
    if next.rest == [] || next.rest[0] != AndAnd {
      t := AndOne(u);
    } else {
      var more := AndTailDerived(children + [next.result.value], next.rest);
      t := AndMore(u, more);
      assert (children + [UnaryMeaning(u)]) + AndOperands(more) == children + AndOperands(t);
    }
  }

  lemma {:induction false} OrDerived(ts: seq<Token>) returns (t: OrTree)
    requires ParsePred(ts).result.Some?
    ensures OrOk(t) && ts == OrYield(t) + ParsePred(ts).rest && ParsePred(ts).result.value == OrMeaning(t)
    decreases |ts|, 3
  {
    hide ParseAnd, OrTail, AndYield, AndMeaning;
    var a := AndDerived(ts);
    var first := ParseAnd(ts);
    if first.rest == [] || first.rest[0] != OrOr {
      t := OrOne(a);
    } else {
      var more := OrTailDerived([first.result.value], first.rest);
      t := OrMore(a, more);
    }
  }

  lemma {:induction false} OrTailDerived(children: seq<Pred>, ts: seq<Token>) returns (t: OrTree)
    requires ts != [] && ts[0] == OrOr && OrTail(children, ts).result.Some?
    ensures OrOk(t) && ts == [OrOr] + OrYield(t) + OrTail(children, ts).rest
    ensures OrTail(children, ts).result.value == Or(children + OrOperands(t))
    decreases |ts|, 3
  {
    hide ParseAnd, AndYield, AndMeaning;
    var a := AndDerived(ts[1..]);
    var next := ParseAnd(ts[1..]);
    assert ts == [OrOr] + ts[1..];
    if next.rest == [] || next.rest[0] != OrOr {
      t := OrOne(a);
    } else {
      var more := OrTailDerived(children + [next.result.value], next.rest);
      t := OrMore(a, more);
      assert (children + [AndMeaning(a)]) + OrOperands(more) == children + OrOperands(t);
    }
  }

  // --- Clauses ---

  /**
   The clause parser accepts exactly the token sequences of the grammar, and builds the
   meaning of the derivation.
   */
  lemma AcceptsExactlyTheGrammar(ts: seq<Token>, c: Clause)
    ensures ParseTokens(ts).result == Some(c) <==> exists t :: ClauseOk(t) && ClauseYield(t) == ts && ClauseMeaning(t) == c
  {
    if ParseTokens(ts).result == Some(c) {
      var t := ClauseDerived(ts);
      assert ClauseOk(t) && ClauseYield(t) == ts && ClauseMeaning(t) == c;
    }
    forall t | ClauseOk(t) && ClauseYield(t) == ts && ClauseMeaning(t) == c
      ensures ParseTokens(ts).result == Some(c)
    {
      ClauseAccepted(t);
    }
  }

  /** No token sequence has two meanings. */
  lemma MeaningUnique(s: ClauseTree, t: ClauseTree)
    requires ClauseOk(s) && ClauseOk(t) && ClauseYield(s) == ClauseYield(t)
    ensures ClauseMeaning(s) == ClauseMeaning(t)
  {
    ClauseAccepted(s);
    ClauseAccepted(t);
  }

  lemma ClauseAccepted(t: ClauseTree)
    requires ClauseOk(t)
    ensures ParseTokens(ClauseYield(t)) == Parse(Some(ClauseMeaning(t)), [])
  {
    hide ParsePred, OrMeaning, OrYield;
    var ts := ClauseYield(t);
    match t
    case RequiresTree(p) =>
      assert ts[1..] == OrYield(p) + [];
      OrAccepted(p, []);
    case EnsuresTree(p) =>
      assert ts[1..] == OrYield(p) + [];
      OrAccepted(p, []);
    case GuardedTree(p, g) =>
      var tail := [Ident("if")] + OrYield(g);
      assert ts[1..] == OrYield(p) + tail;
      OrAccepted(p, tail);
      assert tail[1..] == OrYield(g) + [];
      OrAccepted(g, []);
    case _ =>
  }

  lemma ClauseDerived(ts: seq<Token>) returns (t: ClauseTree)
    requires ParseTokens(ts).result.Some?
    ensures ClauseOk(t) && ClauseYield(t) == ts && ClauseMeaning(t) == ParseTokens(ts).result.value
  {
    hide ParsePred, OrMeaning, OrYield;
    assert ts == [ts[0]] + ts[1..];
    if ts[0] == Ident("requires") {
      var p := OrDerived(ts[1..]);
      t := RequiresTree(p);
    } else if ts[0] == Ident("ensures") {
      var p := OrDerived(ts[1..]);
      var rest := ParsePred(ts[1..]).rest;
      if rest != [] {
        var g := OrDerived(rest[1..]);
        t := GuardedTree(p, g);
        assert rest == [Ident("if")] + rest[1..];
      } else {
        t := EnsuresTree(p);
      }
    } else if ts[0] == Ident("returns") {
      t := ReturnsTree;
    } else {
      var name := ts[1..][1].text;
      t := if ts[0] == Ident("owns") then OwnsTree(name) else BorrowsTree(name);
    }
  }

  // --- Printing ---

  /** Trees the parser can build: chains of two or more, names that are not reserved. */
  predicate Printable(p: Pred) {
    match p
    case Compare(l, _, r) => OperandPrintable(l) && OperandPrintable(r)
    case And(cs) => |cs| >= 2 && AllPrintable(cs)
    case Or(cs) => |cs| >= 2 && AllPrintable(cs)
    case Not(s) => Printable(s)
    case Truth(o) => OperandPrintable(o)
  }

  predicate AllPrintable(ps: seq<Pred>) {
    ps == [] || (Printable(ps[0]) && AllPrintable(ps[1..]))
  }

  predicate OperandPrintable(o: Operand) {
    o.Param? ==> o.name != "return" && o.name != "null" && o.name != "if"
  }

  function OperandToken(o: Operand): Token {
    match o
    case Return => Ident("return")
    case Null => Ident("null")
    case Param(n) => Ident(n)
    case IntLit(v) => Int(v)
  }

  /** The tokens of a predicate, compound children in parentheses. */
  function Print(p: Pred): seq<Token>
    decreases p, 0
  {
    match p
    case Compare(l, op, r) => [OperandToken(l), Cmp(op), OperandToken(r)]
    case And(cs) => PrintJoined(cs, AndAnd)
    case Or(cs) => PrintJoined(cs, OrOr)
    case Not(s) => [Bang] + PrintChild(s)
    case Truth(o) => [OperandToken(o)]
  }

  function PrintChild(p: Pred): seq<Token>
    decreases p, 1
  {
    if p.And? || p.Or? then [LParen] + Print(p) + [RParen] else Print(p)
  }

  function PrintJoined(ps: seq<Pred>, sep: Token): seq<Token> {
    if ps == [] then []
    else if |ps| == 1 then PrintChild(ps[0])
    else PrintChild(ps[0]) + [sep] + PrintJoined(ps[1..], sep)
  }

  function UnaryOf(p: Pred): UnaryTree
    requires Printable(p)
    decreases p, 1
  {
    match p
    case Compare(l, op, r) => AtomOf(Relation(OperandToken(l), op, OperandToken(r)))
    case Not(s) => NotTree(UnaryOf(s))
    case Truth(o) => AtomOf(Bare(OperandToken(o)))
    case _ => AtomOf(Group(CompoundOf(p)))
  }

  function CompoundOf(p: Pred): OrTree
    requires Printable(p) && (p.And? || p.Or?)
    decreases p, 0
  {
    if p.And? then OrOne(AndsOf(p.children)) else OrsOf(p.children)
  }

  function AndsOf(ps: seq<Pred>): AndTree
    requires ps != [] && AllPrintable(ps)
  {
    if |ps| == 1 then AndOne(UnaryOf(ps[0])) else AndMore(UnaryOf(ps[0]), AndsOf(ps[1..]))
  }

  function OrsOf(ps: seq<Pred>): OrTree
    requires ps != [] && AllPrintable(ps)
  {
    if |ps| == 1 then OrOne(AndOne(UnaryOf(ps[0]))) else OrMore(AndOne(UnaryOf(ps[0])), OrsOf(ps[1..]))
  }

  function TreeOf(p: Pred): OrTree
    requires Printable(p)
  {
    if p.And? || p.Or? then CompoundOf(p) else OrOne(AndOne(UnaryOf(p)))
  }

  lemma OperandTokenReads(o: Operand)
    requires OperandPrintable(o)
    ensures OperandOf(OperandToken(o)) == Some(o)
  {
  }

  lemma {:induction false} UnaryOfExact(p: Pred)
    requires Printable(p)
    ensures UnaryOk(UnaryOf(p)) && UnaryYield(UnaryOf(p)) == PrintChild(p) && UnaryMeaning(UnaryOf(p)) == p
    decreases p, 1
  {
    match p
    case Compare(l, _, r) => OperandTokenReads(l); OperandTokenReads(r);
    case Not(s) => UnaryOfExact(s);
    case Truth(o) => OperandTokenReads(o);
    case _ => CompoundOfExact(p);
  }

  lemma {:induction false} CompoundOfExact(p: Pred)
    requires Printable(p) && (p.And? || p.Or?)
    ensures OrOk(CompoundOf(p)) && OrYield(CompoundOf(p)) == Print(p) && OrMeaning(CompoundOf(p)) == p
    decreases p, 0
  {
    if p.And? {
      AndsOfExact(p.children);
    } else {
      OrsOfExact(p.children);
    }
  }

  lemma {:induction false} AndsOfExact(ps: seq<Pred>)
    requires ps != [] && AllPrintable(ps)
    ensures AndOk(AndsOf(ps)) && AndYield(AndsOf(ps)) == PrintJoined(ps, AndAnd) && AndOperands(AndsOf(ps)) == ps
    decreases ps
  {
    UnaryOfExact(ps[0]);
    assert ps == [ps[0]] + ps[1..];
    if |ps| > 1 {
      AndsOfExact(ps[1..]);
    }
  }

  lemma {:induction false} OrsOfExact(ps: seq<Pred>)
    requires ps != [] && AllPrintable(ps)
    ensures OrOk(OrsOf(ps)) && OrYield(OrsOf(ps)) == PrintJoined(ps, OrOr) && OrOperands(OrsOf(ps)) == ps
    decreases ps
  {
    UnaryOfExact(ps[0]);
    assert ps == [ps[0]] + ps[1..];
    if |ps| > 1 {
      OrsOfExact(ps[1..]);
    }
  }

  /** Reading back what was printed gives the same tree. */
  lemma PrintParseRoundTrip(p: Pred)
    requires Printable(p)
    ensures ParsePred(Print(p)) == Parse(Some(p), [])
  {
    if p.And? || p.Or? {
      CompoundOfExact(p);
    } else {
      UnaryOfExact(p);
    }
    OrAccepted(TreeOf(p), []);
    assert OrYield(TreeOf(p)) + [] == Print(p);
  }
}
