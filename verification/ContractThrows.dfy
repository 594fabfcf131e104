/** Which contract texts make the parser throw: those in which it gets as far as a number beyond 64 bits. */
module ContractThrows {
  import opened Int64
  import opened Decimal
  import opened ContractSyntax
  import opened ContractLexer
  import opened ContractGrammar
  import P = ContractParser

  /** The tokens at the lookahead when an unreadable number is reached. */
  predicate AtNumber(o: seq<Token>) {
    o != [] && o[0] == Overflow
  }

  /** Tokens some clause of the grammar begins with; a policy is read from its text after the first word. */
  ghost predicate Viable(pre: seq<Token>) {
    pre == [Ident("policy")] || exists t :: ClauseOk(t) && pre <= ClauseYield(t)
  }

  // --- A viable prefix is consumed up to the number ---

  lemma {:induction false} UnaryReaches(t: UnaryTree, pre: seq<Token>, o: seq<Token>)
    requires UnaryOk(t) && pre <= UnaryYield(t) && AtNumber(o)
    ensures ParseUnary(pre + o).rest == o
    decreases t, 0
  {
    var ts := pre + o;
    if pre == [] {
      assert ts == o;
    } else if pre == UnaryYield(t) {
      UnaryAccepted(t, o);
    } else {
      match t
      case NotTree(s) =>
        assert ts[1..] == pre[1..] + o;
        UnaryReaches(s, pre[1..], o);
      case AtomOf(Group(p)) =>
        assert ts[1..] == pre[1..] + o;
        assert pre[1..] <= OrYield(p) by {
          assert pre[1..] <= OrYield(p) + [RParen];
        }
        OrReaches(p, pre[1..], o);
      case AtomOf(Relation(l, op, r)) =>
        assert ts[1..] == pre[1..] + o;
        if |pre| == 1 {
          assert ts[1..] == o;
        } else {
          assert pre[1..] == [Cmp(op)] && ts[1..][1..] == o;
        }
      case AtomOf(Bare(_)) =>
    }
  }

  lemma {:induction false} AndReaches(t: AndTree, pre: seq<Token>, o: seq<Token>)
    requires AndOk(t) && pre <= AndYield(t) && AtNumber(o)
    ensures ParseAnd(pre + o).rest == o
    decreases t, 1
  {
    hide ParseUnary, UnaryYield, UnaryMeaning, UnaryOk, AndTail;
    match t
    case AndOne(u) => UnaryReaches(u, pre, o);
    case AndMore(u, more) =>
      var n := |UnaryYield(u)|;
      if |pre| <= n {
        UnaryReaches(u, pre, o);
      } else {
        var tail := pre[n + 1..];
        assert pre == UnaryYield(u) + ([AndAnd] + tail);
        assert pre + o == UnaryYield(u) + ([AndAnd] + (tail + o));
        UnaryAccepted(u, [AndAnd] + (tail + o));
        AndTailReaches([UnaryMeaning(u)], more, tail, o);
      }
  }

  lemma {:induction false} AndTailReaches(children: seq<Pred>, t: AndTree, pre: seq<Token>, o: seq<Token>)
    requires AndOk(t) && pre <= AndYield(t) && AtNumber(o)
    ensures AndTail(children, [AndAnd] + (pre + o)).rest == o
    decreases t, 0
  {
    hide ParseUnary, UnaryYield, UnaryMeaning, UnaryOk;
    assert ([AndAnd] + (pre + o))[1..] == pre + o;
    var next := ParseUnary(pre + o);
    var u := if t.AndOne? then t.only else t.first;
    var n := |UnaryYield(u)|;
    if |pre| <= n {
      UnaryReaches(u, pre, o);
    } else {
      var tail := pre[n + 1..];
      assert pre == UnaryYield(u) + ([AndAnd] + tail);
      assert pre + o == UnaryYield(u) + ([AndAnd] + (tail + o));
      UnaryAccepted(u, [AndAnd] + (tail + o));
      AndTailReaches(children + [UnaryMeaning(u)], t.rest, tail, o);
    }
  }

  lemma {:induction false} OrReaches(t: OrTree, pre: seq<Token>, o: seq<Token>)
    requires OrOk(t) && pre <= OrYield(t) && AtNumber(o)
    ensures ParsePred(pre + o).rest == o
    decreases t, 1
  {
    hide ParseAnd, AndYield, AndMeaning, AndOk, OrTail;
    match t
    case OrOne(a) => AndReaches(a, pre, o);
    case OrMore(a, more) =>
      var n := |AndYield(a)|;
      if |pre| <= n {
        AndReaches(a, pre, o);
      } else {
        var tail := pre[n + 1..];
        assert pre == AndYield(a) + ([OrOr] + tail);
        assert pre + o == AndYield(a) + ([OrOr] + (tail + o));
        AndAccepted(a, [OrOr] + (tail + o));
        OrTailReaches([AndMeaning(a)], more, tail, o);
      }
  }

  lemma {:induction false} OrTailReaches(children: seq<Pred>, t: OrTree, pre: seq<Token>, o: seq<Token>)
    requires OrOk(t) && pre <= OrYield(t) && AtNumber(o)
    ensures OrTail(children, [OrOr] + (pre + o)).rest == o
    decreases t, 0
  {
    hide ParseAnd, AndYield, AndMeaning, AndOk;
    assert ([OrOr] + (pre + o))[1..] == pre + o;
    var next := ParseAnd(pre + o);
    var a := if t.OrOne? then t.only else t.first;
    var n := |AndYield(a)|;
    if |pre| <= n {
      AndReaches(a, pre, o);
    } else {
      var tail := pre[n + 1..];
      assert pre == AndYield(a) + ([OrOr] + tail);
      assert pre + o == AndYield(a) + ([OrOr] + (tail + o));
      AndAccepted(a, [OrOr] + (tail + o));
      OrTailReaches(children + [AndMeaning(a)], t.rest, tail, o);
    }
  }

  lemma ClauseReaches(t: ClauseTree, pre: seq<Token>, o: seq<Token>)
    requires ClauseOk(t) && pre <= ClauseYield(t) && AtNumber(o)
    ensures ParseTokens(pre + o).rest == o
  {
    hide ParsePred, OrYield, OrMeaning, OrOk, ParseEnsures, ParseOwnership, ParseReturns;
    var ts := pre + o;
    if pre == [] {
      assert ts == o;
    } else {
      var rest := pre[1..];
      assert ts[1..] == rest + o;
      match t
      case RequiresTree(p) => OrReaches(p, rest, o);
      case EnsuresTree(p) => EnsuresReaches(p, rest, o);
      case GuardedTree(p, g) => GuardedReaches(p, g, rest, o);
      case OwnsTree(_) => OwnershipReaches(t, rest, o);
      case BorrowsTree(_) => OwnershipReaches(t, rest, o);
      case ReturnsTree => ReturnsReaches(rest, o);
    }
  }

  lemma ReturnsReaches(rest: seq<Token>, o: seq<Token>)
    requires rest <= [Ident("owned")] && AtNumber(o)
    ensures ParseReturns(rest + o).rest == o
  {
    assert |rest| == 1 ==> (rest + o)[1..] == o;
    assert |rest| == 0 ==> rest + o == o;
  }

  lemma EnsuresReaches(p: OrTree, rest: seq<Token>, o: seq<Token>)
    requires OrOk(p) && rest <= OrYield(p) && AtNumber(o)
    ensures ParseEnsures(rest + o).rest == o
  {
    hide ParsePred, OrYield, OrMeaning, OrOk;
    OrReaches(p, rest, o);
  }

  lemma OwnershipReaches(t: ClauseTree, rest: seq<Token>, o: seq<Token>)
    requires t.OwnsTree? || t.BorrowsTree?
    requires rest <= [LParen, Ident(t.name), RParen] && AtNumber(o)
    ensures ParseOwnership(t.OwnsTree?, rest + o).rest == o
  {
    var ts := rest + o;
    assert ts[|rest|..] == o;
    assert |rest| == 0 ==> ts == o;
  }

  lemma GuardedReaches(p: OrTree, g: OrTree, rest: seq<Token>, o: seq<Token>)
    requires OrOk(p) && OrOk(g) && rest <= OrYield(p) + [Ident("if")] + OrYield(g) && AtNumber(o)
    ensures ParseEnsures(rest + o).rest == o
  {
    hide ParsePred, OrYield, OrMeaning, OrOk;
    var n := |OrYield(p)|;
    if |rest| <= n {
      assert rest <= OrYield(p);
      OrReaches(p, rest, o);
    } else {
      var tail := rest[n + 1..];
      assert rest == OrYield(p) + ([Ident("if")] + tail);
      assert rest + o == OrYield(p) + ([Ident("if")] + (tail + o));
      OrAccepted(p, [Ident("if")] + (tail + o));
      assert ([Ident("if")] + (tail + o))[1..] == tail + o;
      assert tail <= OrYield(g);
      OrReaches(g, tail, o);
    }
  }

  // --- Whatever is consumed up to the number is a viable prefix ---

  lemma {:induction false} UnaryPlain(t: UnaryTree)
    requires UnaryOk(t)
    ensures Overflow !in UnaryYield(t)
  {
    match t
    case NotTree(s) => UnaryPlain(s);
    case AtomOf(Group(p)) => OrPlain(p);
    case _ =>
  }

  lemma {:induction false} AndPlain(t: AndTree)
    requires AndOk(t)
    ensures Overflow !in AndYield(t)
  {
    match t
    case AndOne(u) => UnaryPlain(u);
    case AndMore(u, r) => UnaryPlain(u); AndPlain(r);
  }

  lemma {:induction false} OrPlain(t: OrTree)
    requires OrOk(t)
    ensures Overflow !in OrYield(t)
  {
    match t
    case OrOne(a) => AndPlain(a);
    case OrMore(a, r) => AndPlain(a); OrPlain(r);
  }

  /** What was derived lies before the number. */
  lemma DerivedBefore(pre: seq<Token>, o: seq<Token>, y: seq<Token>, rest: seq<Token>)
    requires pre + o == y + rest && Overflow !in y && AtNumber(o)
    ensures |y| <= |pre| && y == pre[..|y|] && rest == pre[|y|..] + o
    ensures rest == o ==> y == pre
  {
    assert (pre + o)[|pre|] == Overflow;
    var n := |y|;
    assert (y + rest)[..n] == y;
    PrefixPlain(y + rest, n);
    assert (pre + o)[..n] == pre[..n] && (pre + o)[n..] == pre[n..] + o;
    assert (y + rest)[n..] == rest;
  }

  lemma PrefixPlain(ts: seq<Token>, n: nat)
    requires n <= |ts| && Overflow !in ts[..n]
    ensures forall i :: 0 <= i < n ==> ts[i] != Overflow
  {
    forall i | 0 <= i < n
      ensures ts[i] != Overflow
    {
      assert ts[i] == ts[..n][i];
    }
  }

  const AnyName: UnaryTree := AtomOf(Bare(Ident("x")))

  lemma {:induction false} UnaryViable(pre: seq<Token>, o: seq<Token>) returns (t: UnaryTree)
    requires AtNumber(o) && ParseUnary(pre + o).rest == o
    ensures UnaryOk(t) && pre <= UnaryYield(t)
    decreases |pre|, 1
  {
    hide ParsePred, OrYield, OrMeaning, OrOk;
    var ts := pre + o;
    if pre == [] {
      t := AnyName;
    } else if ParseUnary(ts).result.Some? {
      t := UnaryDerived(ts);
      UnaryPlain(t);
      DerivedBefore(pre, o, UnaryYield(t), o);
    } else {
      assert pre == [pre[0]] + pre[1..] && ts[1..] == pre[1..] + o;
      if pre[0] == Bang {
        var s := UnaryViable(pre[1..], o);
        t := NotTree(s);
      } else if pre[0] == LParen {
        var p := GroupViable(pre[1..], o);
        t := AtomOf(Group(p));
      } else {
        t := RelationViable(pre, o);
      }
    }
  }

  /** A group that is not closed before the number. */
  lemma {:induction false} GroupViable(pre: seq<Token>, o: seq<Token>) returns (p: OrTree)
    requires AtNumber(o) && ParsePred(pre + o).rest == o
    ensures OrOk(p) && pre <= OrYield(p)
    decreases |pre|, 4
  {
    p := OrViable(pre, o);
  }

  /** A comparison whose right side is the number. */
  lemma RelationViable(pre: seq<Token>, o: seq<Token>) returns (t: UnaryTree)
    requires pre != [] && pre[0] != Bang && pre[0] != LParen && AtNumber(o)
    requires ParseAtom(pre + o).result.None? && ParseAtom(pre + o).rest == o
    ensures UnaryOk(t) && pre <= UnaryYield(t)
  {
    hide ParsePred, OrYield, OrMeaning, OrOk;
    var ts := pre + o;
    assert ts != o;
    assert OperandOf(ts[0]).Some?;
    assert ts[1..] == pre[1..] + o;
    if |pre| > 1 {
      assert ts[1..][0] == pre[1] && ts[1..][1..] == pre[2..] + o;
      assert pre[2..] == [] by {
        assert |pre[2..] + o| == |o|;
      }
      assert pre == [pre[0], pre[1]];
      t := AtomOf(Relation(pre[0], pre[1].op, Ident("x")));
    } else {
      t := AnyName;
    }
  }

  lemma {:induction false} AndViable(pre: seq<Token>, o: seq<Token>) returns (t: AndTree)
    requires AtNumber(o) && ParseAnd(pre + o).rest == o
    ensures AndOk(t) && pre <= AndYield(t)
    decreases |pre|, 2
  {
    hide ParseUnary, UnaryYield, UnaryMeaning, UnaryOk, AndTail;
    var ts := pre + o;
    var first := ParseUnary(ts);
    if first.result.None? || first.rest == [] || first.rest[0] != AndAnd {
      var u := UnaryViable(pre, o);
      t := AndOne(u);
    } else {
      var u := UnaryDerived(ts);
      UnaryPlain(u);
      DerivedBefore(pre, o, UnaryYield(u), first.rest);
      var n := |UnaryYield(u)|;
      var more := AndTailViable([first.result.value], pre[n..], o);
      t := AndMore(u, more);
    }
  }

  lemma {:induction false} AndTailViable(children: seq<Pred>, pre: seq<Token>, o: seq<Token>) returns (t: AndTree)
    requires AtNumber(o) && (pre + o)[0] == AndAnd && AndTail(children, pre + o).rest == o
    ensures AndOk(t) && pre <= [AndAnd] + AndYield(t)
    decreases |pre|, 2
  {
    hide ParseUnary, UnaryYield, UnaryMeaning, UnaryOk;
    var ts, rest := pre + o, pre[1..];
    assert pre == [AndAnd] + rest && ts[1..] == rest + o;
    var next := ParseUnary(rest + o);
    if next.result.None? || next.rest == [] || next.rest[0] != AndAnd {
      var u := UnaryViable(rest, o);
      t := AndOne(u);
    } else {
      var u := UnaryDerived(rest + o);
      UnaryPlain(u);
      DerivedBefore(rest, o, UnaryYield(u), next.rest);
      var n := |UnaryYield(u)|;
      var more := AndTailViable(children + [next.result.value], rest[n..], o);
      t := AndMore(u, more);
    }
  }

  lemma {:induction false} OrViable(pre: seq<Token>, o: seq<Token>) returns (t: OrTree)
    requires AtNumber(o) && ParsePred(pre + o).rest == o
    ensures OrOk(t) && pre <= OrYield(t)
    decreases |pre|, 3
  {
    hide ParseAnd, AndYield, AndMeaning, AndOk, OrTail;
    var ts := pre + o;
    var first := ParseAnd(ts);
    if first.result.None? || first.rest == [] || first.rest[0] != OrOr {
      var a := AndViable(pre, o);
      t := OrOne(a);
    } else {
      var a := AndDerived(ts);
      AndPlain(a);
      DerivedBefore(pre, o, AndYield(a), first.rest);
      var n := |AndYield(a)|;
      var more := OrTailViable([first.result.value], pre[n..], o);
      t := OrMore(a, more);
    }
  }

  lemma {:induction false} OrTailViable(children: seq<Pred>, pre: seq<Token>, o: seq<Token>) returns (t: OrTree)
    requires AtNumber(o) && (pre + o)[0] == OrOr && OrTail(children, pre + o).rest == o
    ensures OrOk(t) && pre <= [OrOr] + OrYield(t)
    decreases |pre|, 3
  {
    hide ParseAnd, AndYield, AndMeaning, AndOk;
    var ts, rest := pre + o, pre[1..];
    assert pre == [OrOr] + rest && ts[1..] == rest + o;
    var next := ParseAnd(rest + o);
    if next.result.None? || next.rest == [] || next.rest[0] != OrOr {
      var a := AndViable(rest, o);
      t := OrOne(a);
    } else {
      var a := AndDerived(rest + o);
      AndPlain(a);
      DerivedBefore(rest, o, AndYield(a), next.rest);
      var n := |AndYield(a)|;
      var more := OrTailViable(children + [next.result.value], rest[n..], o);
      t := OrMore(a, more);
    }
  }

  lemma ClauseViable(pre: seq<Token>, o: seq<Token>) returns (t: ClauseTree)
    requires AtNumber(o) && ParseTokens(pre + o).rest == o
    ensures ClauseOk(t) && pre <= ClauseYield(t)
  {
    hide ParsePred, OrYield, OrMeaning, OrOk;
    var ts := pre + o;
    if pre == [] {
      t := ReturnsTree;
    } else {
      var rest := pre[1..];
      assert ts != o && ts[0] == pre[0] && pre == [pre[0]] + rest && ts[1..] == rest + o;
      if pre[0] == Ident("requires") {
        var p := OrViable(rest, o);
        t := RequiresTree(p);
      } else if pre[0] == Ident("ensures") {
        t := EnsuresViable(rest, o);
      } else if pre[0] == Ident("returns") {
        t := ReturnsTree;
        ReturnsViable(rest, o);
      } else {
        var name := OwnershipViable(pre[0] == Ident("owns"), rest, o);
        t := if pre[0] == Ident("owns") then OwnsTree(name) else BorrowsTree(name);
      }
    }
  }

  lemma ReturnsViable(rest: seq<Token>, o: seq<Token>)
    requires AtNumber(o) && ParseReturns(rest + o).rest == o
    ensures rest <= [Ident("owned")]
  {
    var ts := rest + o;
    assert forall k :: 0 <= k <= |ts| ==> |ts[k..]| == |ts| - k;
    assert |rest| > 0 ==> ts[0] == rest[0];
  }

  lemma OwnershipViable(owns: bool, rest: seq<Token>, o: seq<Token>) returns (name: string)
    requires AtNumber(o) && ParseOwnership(owns, rest + o).rest == o
    ensures rest <= [LParen, Ident(name), RParen]
  {
    var ts := rest + o;
    name := if |rest| > 1 && rest[1].Ident? then rest[1].text else "x";
    assert forall k :: 0 <= k <= |ts| ==> |ts[k..]| == |ts| - k;
    assert |rest| > 0 ==> ts[0] == rest[0];
    assert |rest| > 1 ==> ts[1] == rest[1];
    assert |rest| > 2 ==> ts[2] == rest[2];
  }

  lemma EnsuresViable(rest: seq<Token>, o: seq<Token>) returns (t: ClauseTree)
    requires AtNumber(o) && ParseEnsures(rest + o).rest == o
    ensures ClauseOk(t) && [Ident("ensures")] + rest <= ClauseYield(t)
  {
    hide ParsePred, OrYield, OrMeaning, OrOk;
    var first := ParsePred(rest + o);
    if first.result.Some? && first.rest != [] && first.rest[0] == Ident("if") {
      var p := OrDerived(rest + o);
      OrPlain(p);
      DerivedBefore(rest, o, OrYield(p), first.rest);
      var n := |OrYield(p)|;
      var tail := rest[n..];
      assert tail != [] && tail[0] == Ident("if") && first.rest[1..] == tail[1..] + o;
      var g := OrViable(tail[1..], o);
      t := GuardedTree(p, g);
      assert rest == OrYield(p) + ([Ident("if")] + tail[1..]);
    } else {
      var p := OrViable(rest, o);
      t := EnsuresTree(p);
    }
  }

  // --- No number beyond 64 bits is ever consumed ---

  /** rest is what is left of ts after tokens that are all readable. */
  predicate Leaves(ts: seq<Token>, rest: seq<Token>) {
    |rest| <= |ts| && rest == ts[|ts| - |rest|..] && Overflow !in ts[..|ts| - |rest|]
  }

  lemma LeavesAll(ts: seq<Token>)
    ensures Leaves(ts, ts)
  {
  }

  lemma LeavesOne(ts: seq<Token>)
    requires ts != [] && ts[0] != Overflow
    ensures Leaves(ts, ts[1..])
  {
  }

  lemma LeavesThen(a: seq<Token>, b: seq<Token>, c: seq<Token>)
    requires Leaves(a, b) && Leaves(b, c)
    ensures Leaves(a, c)
  {
    var i, j := |a| - |b|, |a| - |c|;
    assert a[..j] == a[..i] + b[..j - i];
    assert a[j..] == b[j - i..];
  }

  lemma {:induction false} AtomLeaves(ts: seq<Token>)
    ensures Leaves(ts, ParseAtom(ts).rest)
    decreases |ts|, 0
  {
    hide ParsePred;
    LeavesAll(ts);
    if ts != [] && ts[0] == LParen {
      var inner := ParsePred(ts[1..]);
      LeavesOne(ts);
      PredLeaves(ts[1..]);
      LeavesThen(ts, ts[1..], inner.rest);
      if inner.rest != [] && inner.rest[0] == RParen {
        LeavesOne(inner.rest);
        LeavesThen(ts, inner.rest, inner.rest[1..]);
      }
    }
  }

  lemma {:induction false} UnaryLeaves(ts: seq<Token>)
    ensures Leaves(ts, ParseUnary(ts).rest)
    decreases |ts|, 1
  {
    hide ParseAtom, Leaves;
    if ts != [] && ts[0] == Bang {
      LeavesOne(ts);
      UnaryLeaves(ts[1..]);
      LeavesThen(ts, ts[1..], ParseUnary(ts[1..]).rest);
    } else {
      AtomLeaves(ts);
    }
  }

  lemma {:induction false} AndLeaves(ts: seq<Token>)
    ensures Leaves(ts, ParseAnd(ts).rest)
    decreases |ts|, 2
  {
    hide ParseUnary, Leaves, AndTail;
    var first := ParseUnary(ts);
    UnaryLeaves(ts);
    if first.result.Some? && first.rest != [] && first.rest[0] == AndAnd {
      AndTailLeaves([first.result.value], first.rest);
      LeavesThen(ts, first.rest, ParseAnd(ts).rest);
    }
  }

  lemma {:induction false} AndTailLeaves(children: seq<Pred>, ts: seq<Token>)
    ensures Leaves(ts, AndTail(children, ts).rest)
    decreases |ts|, 2
  {
    hide ParseUnary, Leaves;
    LeavesAll(ts);
    if ts != [] && ts[0] == AndAnd {
      var next := ParseUnary(ts[1..]);
      LeavesOne(ts);
      UnaryLeaves(ts[1..]);
      LeavesThen(ts, ts[1..], next.rest);
      if next.result.Some? {
        AndTailLeaves(children + [next.result.value], next.rest);
        LeavesThen(ts, next.rest, AndTail(children, ts).rest);
      }
    }
  }

  lemma {:induction false} PredLeaves(ts: seq<Token>)
    ensures Leaves(ts, ParsePred(ts).rest)
    decreases |ts|, 3
  {
    hide ParseAnd, Leaves, OrTail;
    var first := ParseAnd(ts);
    AndLeaves(ts);
    if first.result.Some? && first.rest != [] && first.rest[0] == OrOr {
      OrTailLeaves([first.result.value], first.rest);
      LeavesThen(ts, first.rest, ParsePred(ts).rest);
    }
  }

  lemma {:induction false} OrTailLeaves(children: seq<Pred>, ts: seq<Token>)
    ensures Leaves(ts, OrTail(children, ts).rest)
    decreases |ts|, 3
  {
    hide ParseAnd, Leaves;
    LeavesAll(ts);
    if ts != [] && ts[0] == OrOr {
      var next := ParseAnd(ts[1..]);
      LeavesOne(ts);
      AndLeaves(ts[1..]);
      LeavesThen(ts, ts[1..], next.rest);
      if next.result.Some? {
        OrTailLeaves(children + [next.result.value], next.rest);
        LeavesThen(ts, next.rest, OrTail(children, ts).rest);
      }
    }
  }

  /** When a clause is not accepted, what is left starts at the token it stopped at. */
  lemma ClauseLeaves(ts: seq<Token>)
    requires ParseTokens(ts).result.None?
    ensures Leaves(ts, ParseTokens(ts).rest)
  {
    hide ParsePred, Leaves;
    LeavesAll(ts);
    if ts != [] && ts[0].Ident? {
      var rest := ts[1..];
      LeavesOne(ts);
      LeavesAll(rest);
      PredLeaves(rest);
      var after := ParsePred(rest).rest;
      LeavesThen(ts, rest, after);
      if after != [] && after[0] == Ident("if") {
        LeavesOne(after);
        PredLeaves(after[1..]);
        LeavesThen(ts, after, after[1..]);
        LeavesThen(ts, after[1..], ParsePred(after[1..]).rest);
      }
      WordsLeave(ts);
    }
  }

  /** The clauses without predicates. */
  lemma WordsLeave(ts: seq<Token>)
    requires ts != [] && ts[0].Ident?
    ensures forall owns :: Leaves(ts, ParseOwnership(owns, ts[1..]).rest) || ParseOwnership(owns, ts[1..]).result.Some?
    ensures Leaves(ts, ParseReturns(ts[1..]).rest) || ParseReturns(ts[1..]).result.Some?
  {
    assert |ts| > 1 ==> ts[1..][1..] == ts[2..];
    assert |ts| > 2 ==> ts[1..][2..] == ts[3..];
    assert |ts| > 3 ==> ts[1..][3..] == ts[4..];
  }

  // --- Texts ---

  /** The first number beyond 64 bits. */
  predicate FirstNumberAt(ts: seq<Token>, k: nat) {
    k < |ts| && ts[k] == Overflow && Overflow !in ts[..k]
  }

  /** The tokens have a number beyond 64 bits after a prefix the grammar can continue. */
  ghost predicate ReachesNumber(ts: seq<Token>) {
    exists k: nat :: FirstNumberAt(ts, k) && Viable(ts[..k])
  }

  lemma FirstNumber(ts: seq<Token>, rest: seq<Token>, k: nat)
    requires FirstNumberAt(ts, k)
    requires Leaves(ts, rest) && AtNumber(rest)
    ensures rest == ts[k..]
  {
    var m := |ts| - |rest|;
    assert ts[m] == Overflow;
    PrefixPlain(ts, m);
    PrefixPlain(ts, k);
  }

  lemma TokensReach(ts: seq<Token>, k: nat)
    requires FirstNumberAt(ts, k) && ts[0] != Ident("policy")
    ensures AtNumber(ParseTokens(ts).rest) <==> Viable(ts[..k])
  {
    if ParseTokens(ts).result.Some? {
      P.AcceptedLeavesNothing(ts);
    }
    hide ParseTokens, ClauseYield, ClauseOk;
    var pre, o := ts[..k], ts[k..];
    assert ts == pre + o;
    if t :| ClauseOk(t) && pre <= ClauseYield(t) {
      ClauseReaches(t, pre, o);
    }
    if AtNumber(ParseTokens(ts).rest) {
      ClauseLeaves(ts);
      FirstNumber(ts, ParseTokens(ts).rest, k);
      var t := ClauseViable(pre, o);
    }
  }

  lemma NoNumberNoThrow(ts: seq<Token>)
    requires Overflow !in ts
    ensures !AtNumber(ParseTokens(ts).rest)
  {
    if ParseTokens(ts).result.Some? {
      P.AcceptedLeavesNothing(ts);
    }
    hide ParseTokens;
    if ParseTokens(ts).result.None? {
      ClauseLeaves(ts);
      var rest := ParseTokens(ts).rest;
      assert rest != [] ==> rest[0] == ts[|ts| - |rest|];
    }
  }

  /**
   A clause text throws exactly when it has a number beyond 64 bits and the tokens before the
   first such number are a prefix of some clause of the grammar. Other texts with such a number
   are rejected before the tokenizer gets to it.
   */
  lemma ThrowsExact(body: string)
    ensures P.ClauseOf(body) == P.Throws <==> ReachesNumber(Tokens(body))
  {
    var ts := Tokens(body);
    OutcomeThrows(body);
    hide *;
    if k: nat :| FirstNumberAt(ts, k) {
      OnlyFirst(ts, k);
      ReachesFirst(ts, k);
    } else {
      NoFirstNumber(ts, |ts|);
      NeverReached(ts);
    }
  }

  /** Whether the tokenizer gets to a number it cannot represent. */
  predicate StopsAtNumber(ts: seq<Token>) {
    if ts != [] && ts[0] == Ident("policy") then AtNumber(ts[1..]) else AtNumber(ParseTokens(ts).rest)
  }

  lemma OnlyFirst(ts: seq<Token>, k: nat)
    requires FirstNumberAt(ts, k)
    ensures ReachesNumber(ts) <==> Viable(ts[..k])
  {
    hide Viable;
    forall j: nat | FirstNumberAt(ts, j)
      ensures j == k
    {
      PrefixPlain(ts, j);
      PrefixPlain(ts, k);
    }
  }

  lemma ReachesFirst(ts: seq<Token>, k: nat)
    requires FirstNumberAt(ts, k)
    ensures StopsAtNumber(ts) <==> Viable(ts[..k])
  {
    hide Viable, ParseTokens;
    if ts[0] == Ident("policy") {
      PolicyReach(ts, k);
    } else {
      TokensReach(ts, k);
    }
  }

  lemma NeverReached(ts: seq<Token>)
    requires Overflow !in ts[..|ts|]
    ensures !StopsAtNumber(ts) && !ReachesNumber(ts)
  {
    hide Viable, ParseTokens;
    assert ts[..|ts|] == ts;
    NoNumberNoThrow(ts);
  }

  /** No number beyond 64 bits anywhere means no throw. */
  lemma ReadableNeverThrows(body: string)
    requires Overflow !in Tokens(body)
    ensures P.ClauseOf(body) != P.Throws
  {
    OutcomeThrows(body);
    hide *;
    assert Tokens(body)[..|Tokens(body)|] == Tokens(body);
    NeverReached(Tokens(body));
  }

  lemma OutcomeThrows(body: string)
    ensures P.ClauseOf(body) == P.Throws <==> StopsAtNumber(Tokens(body))
  {
    hide ParseTokens, Tokens;
  }

  lemma PolicyReach(ts: seq<Token>, k: nat)
    requires FirstNumberAt(ts, k) && ts[0] == Ident("policy")
    ensures AtNumber(ts[1..]) <==> Viable(ts[..k])
  {
    var pre := ts[..k];
    assert k > 0 && pre[0] == Ident("policy");
    PrefixPlain(ts, k);
    assert pre == [Ident("policy")] <==> k == 1;
    forall t | ClauseOk(t)
      ensures !(pre <= ClauseYield(t))
    {
      NoPolicyYield(t);
    }
  }

  lemma NoPolicyYield(t: ClauseTree)
    ensures ClauseOk(t) ==> ClauseYield(t) != [] && ClauseYield(t)[0] != Ident("policy")
  {
    hide OrYield, OrOk;
  }

  lemma {:induction false} NoFirstNumber(ts: seq<Token>, n: nat)
    requires n <= |ts| && forall k: nat :: !FirstNumberAt(ts, k)
    ensures Overflow !in ts[..n]
  {
    if n > 0 {
      NoFirstNumber(ts, n - 1);
      assert !FirstNumberAt(ts, n - 1);
      assert ts[..n] == ts[..n - 1] + [ts[n - 1]];
    } else {
      assert ts[..0] == [];
    }
  }

  /** `requires 9223372036854775808` throws, and so does every number that is no 64-bit value. */
  lemma NumberThrows(v: int)
    requires !Fits(v)
    ensures P.ClauseOf("requires" + (" " + (IntText(v) + (" " + "")))) == P.Throws
  {
    var number := IntText(v) + (" " + "");
    var body := "requires" + (" " + number);
    NumberTokens(v);
    WordThen("requires", number);
    var ts := Tokens(body);
    assert ts == [Ident("requires"), Overflow];
    var t := RequiresTree(OrOne(AndOne(AnyName)));
    assert ClauseOk(t) && ClauseYield(t)[0] == Ident("requires");
    assert ts[..1] == [Ident("requires")] && ts[..1] <= ClauseYield(t);
    assert Viable(ts[..1]);
    ThrowsExact(body);
  }

  lemma NumberTokens(v: int)
    requires !Fits(v)
    ensures Tokens(IntText(v) + (" " + "")) == [Overflow]
  {
    var text := IntText(v);
    var s := text + (" " + "");
    IntTextRoundTrip(v);
    if v < 0 {
      assert s[1..] == text[1..] + (" " + "") && s[1] == text[1..][0];
      DigitsLenOf(text[1..], "");
    } else {
      assert s[0] == text[0];
      DigitsLenOf(text, "");
    }
    assert s[..|text|] == text && s[|text|..] == " ";
    assert LexToken(s) == (Overflow, |text|);
    assert SkipSpaces(s) == s;
    assert SkipSpaces(" ") == "" by {
      assert " "[1..] == "";
    }
    assert Tokens(" ") == [];
  }

  lemma WordThen(w: string, rest: string)
    requires IsWord(w)
    ensures Tokens(w + (" " + rest)) == [Ident(w)] + Tokens(rest)
  {
    var s := w + (" " + rest);
    LexText(Ident(w), rest);
    assert SkipSpaces(s) == s;
    assert s[|w|..] == " " + rest && (" " + rest)[1..] == rest;
    assert SkipSpaces(" " + rest) == SkipSpaces(rest);
    assert Tokens(" " + rest) == Tokens(rest);
  }
}
