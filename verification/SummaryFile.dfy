/** The version 11 text format of the cross-file store: src/engine/FunctionSummary.cpp. */
module SummaryFile {
  import opened Int64
  import opened Decimal
  import opened TextFormat
  import opened Summaries
  import opened SummaryMerge
  import I = Intervals

  const Header: string := "codeskeptic-summaries v11"

  // --- One character per value ---

  function NullnessChar(v: Nullness): char {
    match v case NeverNull => 'N' case MaybeNull => 'M' case AnyNull => 'U'
  }

  function NullnessOf(c: char): Option<Nullness> {
    if c == 'U' then Some(AnyNull) else if c == 'N' then Some(NeverNull) else if c == 'M' then Some(MaybeNull) else None
  }

  function ZeronessChar(v: Zeroness): char {
    match v case AlwaysZero => 'Z' case NeverZero => 'N' case MaybeZero => 'M' case AnyZero => 'U'
  }

  function ZeronessOf(c: char): Option<Zeroness> {
    if c == 'U' then Some(AnyZero) else if c == 'Z' then Some(AlwaysZero)
    else if c == 'N' then Some(NeverZero) else if c == 'M' then Some(MaybeZero) else None
  }

  function ReturnOwnershipChar(v: ReturnOwnership): char {
    match v case ReturnsOwned => 'O' case ReturnsBorrowed => 'B' case AnyOwner => 'U'
  }

  function ReturnOwnershipOf(c: char): Option<ReturnOwnership> {
    if c == 'U' then Some(AnyOwner) else if c == 'O' then Some(ReturnsOwned) else if c == 'B' then Some(ReturnsBorrowed) else None
  }

  function EffectChar(v: Effect): char {
    match v case ReadsOnly => 'R' case Frees => 'F' case Stores => 'S' case Opaque => 'O'
  }

  function EffectOf(c: char): Option<Effect> {
    if c == 'O' then Some(Opaque) else if c == 'R' then Some(ReadsOnly)
    else if c == 'F' then Some(Frees) else if c == 'S' then Some(Stores) else None
  }

  function PreconditionChar(v: Precondition): char {
    match v case NonNullCrash => 'C' case NonNullRejected => 'R' case NoPrecondition => 'O'
  }

  function PreconditionOf(c: char): Option<Precondition> {
    if c == 'O' then Some(NoPrecondition) else if c == 'C' then Some(NonNullCrash) else if c == 'R' then Some(NonNullRejected) else None
  }

  function PostconditionChar(v: Postcondition): char {
    match v case PostNull => '0' case PostNonNull => 'N' case AnyPostcondition => 'U'
  }

  function PostconditionOf(c: char): Option<Postcondition> {
    if c == 'U' then Some(AnyPostcondition) else if c == '0' then Some(PostNull) else if c == 'N' then Some(PostNonNull) else None
  }

  function AccessChar(v: Access): char {
    match v case NoAccess => 'O' case Reads => 'R' case Writes => 'W' case ReadsWrites => 'B' case AnyAccess => 'U'
  }

  function AccessOf(c: char): Option<Access> {
    if c == 'U' then Some(AnyAccess) else if c == 'O' then Some(NoAccess) else if c == 'R' then Some(Reads)
    else if c == 'W' then Some(Writes) else if c == 'B' then Some(ReadsWrites) else None
  }

  function OwnershipChar(v: Ownership): char {
    match v case Borrowed => 'B' case Consumed => 'C' case Transferred => 'T' case AnyOwnership => 'U'
  }

  function OwnershipOf(c: char): Option<Ownership> {
    if c == 'U' then Some(AnyOwnership) else if c == 'B' then Some(Borrowed)
    else if c == 'C' then Some(Consumed) else if c == 'T' then Some(Transferred) else None
  }

  function AllocatorSizeChar(v: AllocatorSize): char {
    match v case NoSize => 'O' case Sink => 'S' case AnySize => '?'
  }

  function AllocatorSizeOf(c: char): Option<AllocatorSize> {
    if c == '?' then Some(AnySize) else if c == 'O' then Some(NoSize) else if c == 'S' then Some(Sink) else None
  }

  // --- Vectors ---

  /** A column with n characters, "-" when there are no parameters. */
  function Column<T>(values: seq<T>, toChar: T -> char): string {
    if values == [] then "-" else seq(|values|, i requires 0 <= i < |values| => toChar(values[i]))
  }

  function DecodeAll<T>(s: string, fromChar: char -> Option<T>): Option<seq<T>> {
    if s == "" then Some([])
    else
      var first, rest := fromChar(s[0]), DecodeAll(s[1..], fromChar);
      if first.None? || rest.None? then None else Some([first.value] + rest.value)
  }

  function ParseColumn<T>(s: string, n: nat, fromChar: char -> Option<T>): Option<seq<T>> {
    if (s == "-") != (n == 0) then None
    else if n == 0 then Some([])
    else if |s| != n then None
    else DecodeAll(s, fromChar)
  }

  function ParseChar<T>(s: string, fromChar: char -> Option<T>): Option<T> {
    if |s| != 1 then None else fromChar(s[0])
  }

  lemma {:induction false} DecodeAllOf<T>(values: seq<T>, toChar: T -> char, fromChar: char -> Option<T>)
    requires forall v {:trigger toChar(v)} :: fromChar(toChar(v)) == Some(v)
    ensures DecodeAll(seq(|values|, i requires 0 <= i < |values| => toChar(values[i])), fromChar) == Some(values)
  {
    var s := seq(|values|, i requires 0 <= i < |values| => toChar(values[i]));
    if values != [] {
      assert s[1..] == seq(|values[1..]|, i requires 0 <= i < |values[1..]| => toChar(values[1..][i]));
      DecodeAllOf(values[1..], toChar, fromChar);
      assert values == [values[0]] + values[1..];
    }
  }

  /** A column reads back as the values written. */
  lemma ColumnRoundTrip<T>(values: seq<T>, toChar: T -> char, fromChar: char -> Option<T>)
    requires forall v {:trigger toChar(v)} :: fromChar(toChar(v)) == Some(v)
    requires forall v {:trigger toChar(v)} :: toChar(v) != '-'
    ensures ParseColumn(Column(values, toChar), |values|, fromChar) == Some(values)
    ensures Column(values, toChar) != ""
  {
    DecodeAllOf(values, toChar, fromChar);
    if values != [] {
      assert Column(values, toChar)[0] == toChar(values[0]);
    }
  }

  lemma {:induction false} DecodeAllLength<T>(s: string, fromChar: char -> Option<T>)
    requires DecodeAll(s, fromChar).Some?
    ensures |DecodeAll(s, fromChar).value| == |s|
  {
    if s != "" {
      DecodeAllLength(s[1..], fromChar);
    }
  }

  lemma ParseColumnLength<T>(s: string, n: nat, fromChar: char -> Option<T>)
    ensures ParseColumn(s, n, fromChar).Some? ==> |ParseColumn(s, n, fromChar).value| == n
  {
    if ParseColumn(s, n, fromChar).Some? && n > 0 {
      DecodeAllLength(s, fromChar);
    }
  }

  lemma ColumnFree<T>(values: seq<T>, toChar: T -> char, c: char)
    requires c != '-' && forall v {:trigger toChar(v)} :: toChar(v) != c
    ensures Free(Column(values, toChar), c)
  {
  }

  // --- Parameter indices and conditions ---

  function IndexText(p: int): string {
    if p < 0 then "-" else IntText(p)
  }

  /** "-" is no claim; otherwise an index, truncated to int. */
  function ParseIndex(s: string): Option<int> {
    if s == "-" then Some(-1)
    else match ReadInteger(s)
      case None => None
      case Some(v) => if v < 0 then None else Some(ToInt32(v))
  }

  lemma IndexRoundTrip(p: int)
    requires p <= INT_MAX
    ensures ParseIndex(IndexText(p)) == Some(if p < 0 then -1 else p)
  {
    if p >= 0 {
      ReadIntegerRoundTrip(p);
      IntTextRoundTrip(p);
    }
  }

  function LoText(r: Interval): string {
    if r.LoIsInf() then "~" else IntText(r.lo.v as int)
  }

  function HiText(r: Interval): string {
    if r.HiIsInf() then "~" else IntText(r.hi.v as int)
  }

  /** "param:lo:hi", "~" for an infinite bound, "-" without a condition. */
  function ConditionText(param: int, range: Interval): string {
    if param < 0 then "-" else Join([IntText(param), LoText(range), HiText(range)], ':')
  }

  function ParseBound(s: string): Option<I.Bound> {
    if s == "~" then Some(I.Infinite)
    else if s == "" then None
    else match ReadInteger(s)
      case None => None
      case Some(v) => if Fits(v) then Some(I.Finite(v as int64)) else None
  }

  function RangeOf(lo: I.Bound, hi: I.Bound): Option<Interval> {
    if lo.Finite? && hi.Finite? && lo.v > hi.v then None else Some(I.Between(lo, hi))
  }

  function ParseCondition(s: string): Option<(int, Interval)> {
    if s == "-" then Some((-1, I.Top))
    else
      var parts := Split(s, ':');
      if |parts| != 3 || parts[0] == "" then None
      else
        var param, lo, hi := ReadInteger(parts[0]), ParseBound(parts[1]), ParseBound(parts[2]);
        if param.None? || param.value < 0 || lo.None? || hi.None? then None
        else match RangeOf(lo.value, hi.value)
          case None => None
          case Some(range) => Some((ToInt32(param.value), range))
  }

  lemma BoundRoundTrip(b: I.Bound)
    ensures ParseBound(if b.Infinite? then "~" else IntText(b.v as int)) == Some(b)
    ensures Free(if b.Infinite? then "~" else IntText(b.v as int), ':')
  {
    if b.Finite? {
      ReadIntegerRoundTrip(b.v as int);
      IntTextRoundTrip(b.v as int);
      IntTextFree(b.v as int, ':');
      assert IntText(b.v as int) != "~";
    }
  }

  /** What a saved range reloads as: the empty one loses its emptiness. */
  function ReloadedRange(r: Interval): Interval {
    if r.Bottom? then I.Top else r
  }

  lemma ConditionRoundTrip(param: int, range: Interval)
    requires param <= INT_MAX
    ensures ParseCondition(ConditionText(param, range)) ==
              Some(if param < 0 then (-1, I.Top) else (param, ReloadedRange(range)))
  {
    if param >= 0 {
      hide Split, Join, ReadInteger, ParseBound, ReloadedRange, IntText, ConditionText, LoText, HiText, ToInt32;
      ToInt32Small(param);
      var r: Interval := ReloadedRange(range);
      SameText(param, range);
      ConditionParts(param, r);
      ReadIntegerRoundTrip(param);
    } else {
      assert ConditionText(param, range) == "-";
    }
  }

  /** An empty range is written as the unbounded one. */
  lemma SameText(param: int, range: Interval)
    ensures ReloadedRange(range).Between? && ConditionText(param, range) == ConditionText(param, ReloadedRange(range))
  {
  }

  lemma ConditionParts(param: int, r: Interval)
    requires 0 <= param <= INT_MAX && r.Between?
    ensures Split(ConditionText(param, r), ':') == [IntText(param), LoText(r), HiText(r)]
    ensures ConditionText(param, r) != "-" && IntText(param) != ""
    ensures ParseBound(LoText(r)) == Some(r.lo) && ParseBound(HiText(r)) == Some(r.hi)
  {
    hide ReadInteger, ParseBound, Split;
    var parts := [IntText(param), LoText(r), HiText(r)];
    BoundRoundTrip(r.lo);
    BoundRoundTrip(r.hi);
    IntTextRoundTrip(param);
    IntTextFree(param, ':');
    SplitJoin(parts, ':');
    assert Join(parts, ':')[0] == IntText(param)[0];
  }

  lemma ConditionFree(param: int, range: Interval, c: char)
    requires c == '\t' || c == '\n'
    ensures Free(ConditionText(param, range), c) && Free(IndexText(param), c)
  {
    IntTextFree(param, c);
    if range.Between? && range.lo.Finite? {
      IntTextFree(range.lo.v as int, c);
    }
    if range.Between? && range.hi.Finite? {
      IntTextFree(range.hi.v as int, c);
    }
    if param >= 0 {
      JoinFree([IntText(param), LoText(range), HiText(range)], ':', c);
    }
  }

  // --- Field sets ---

  predicate NameChar(c: char) {
    c > ' ' && c != ',' && c != ';' && c != '!' && c != '?'
  }

  predicate ValidName(s: string) {
    s != "" && forall i :: 0 <= i < |s| ==> NameChar(s[i])
  }

  /** The enumeration order of a set of names; any order without repetition. */
  type NameOrder = set<string> -> seq<string>

  predicate NoRepeats(names: seq<string>) {
    forall i, j :: 0 <= i < j < |names| ==> names[i] != names[j]
  }

  ghost predicate Enumerates(order: NameOrder) {
    forall s {:trigger order(s)} :: NoRepeats(order(s)) && (forall x :: x in s <==> x in order(s))
  }

  function FieldSetText(order: NameOrder, f: FieldSet): string {
    if !f.known then "?" else if f.fields == {} then "!" else Join(order(f.fields), ',')
  }

  function FieldSetTexts(order: NameOrder, sets: seq<FieldSet>): seq<string> {
    seq(|sets|, i requires 0 <= i < |sets| => FieldSetText(order, sets[i]))
  }

  function FieldWritesText(order: NameOrder, sets: seq<FieldSet>): string {
    if sets == [] then "-" else Join(FieldSetTexts(order, sets), ';')
  }

  /** The names of one set; a bad or repeated name rejects. */
  function ParseNames(names: seq<string>, seen: set<string>): Option<set<string>>
    decreases |names|
  {
    if names == [] then Some(seen)
    else if !ValidName(names[0]) || names[0] in seen then None
    else ParseNames(names[1..], seen + {names[0]})
  }

  function ParseFieldSet(s: string): Option<FieldSet> {
    if s == "?" then Some(UnknownFields)
    else if s == "!" then Some(FieldSet(true, {}))
    else match ParseNames(Split(s, ','), {})
      case None => None
      case Some(fields) => Some(FieldSet(true, fields))
  }

  function ParseFieldSets(parts: seq<string>): Option<seq<FieldSet>> {
    if parts == [] then Some([])
    else
      var first, rest := ParseFieldSet(parts[0]), ParseFieldSets(parts[1..]);
      if first.None? || rest.None? then None else Some([first.value] + rest.value)
  }

  function ParseFieldWrites(s: string, n: nat): Option<seq<FieldSet>> {
    if (s == "-") != (n == 0) then None
    else if n == 0 then Some([])
    else
      var parts := Split(s, ';');
      if |parts| != n then None else ParseFieldSets(parts)
  }

  predicate ValidFields(f: FieldSet) {
    f.known ==> forall x :: x in f.fields ==> ValidName(x)
  }

  /** An unknown set is written without its leftover names. */
  function ReloadedFields(f: FieldSet): FieldSet {
    if f.known then f else UnknownFields
  }

  lemma {:induction false} ParseNamesAll(names: seq<string>, seen: set<string>)
    requires NoRepeats(names) && (forall x :: x in names ==> ValidName(x) && x !in seen)
    ensures ParseNames(names, seen) == Some(seen + set x | x in names)
    decreases |names|
  {
    if names == [] {
      assert seen + (set x | x in names) == seen;
    } else {
      assert names == [names[0]] + names[1..];
      assert (set x | x in names) == {names[0]} + set x | x in names[1..];
      forall x | x in names[1..]
        ensures x != names[0]
      {
        var i :| 0 <= i < |names[1..]| && names[1..][i] == x;
        assert names[i + 1] == x;
      }
      forall i, j | 0 <= i < j < |names[1..]|
        ensures names[1..][i] != names[1..][j]
      {
        assert names[i + 1] != names[j + 1];
      }
      ParseNamesAll(names[1..], seen + {names[0]});
      assert seen + (set x | x in names) == (seen + {names[0]}) + set x | x in names[1..];
    }
  }

  lemma ValidNameFree(s: string, c: char)
    requires ValidName(s) && !NameChar(c)
    ensures Free(s, c)
  {
  }

  lemma FieldSetRoundTrip(order: NameOrder, f: FieldSet)
    requires Enumerates(order) && ValidFields(f)
    ensures ParseFieldSet(FieldSetText(order, f)) == Some(ReloadedFields(f))
    ensures forall c :: c != ',' && c != '?' && c != '!' && !NameChar(c) ==> Free(FieldSetText(order, f), c)
  {
    if f.known && f.fields != {} {
      var names := order(f.fields);
      var s := Join(names, ',');
      var x :| x in f.fields;
      assert x in names;
      forall i | 0 <= i < |names|
        ensures ValidName(names[i])
      {
        assert names[i] in names;
      }
      forall i | 0 <= i < |names|
        ensures Free(names[i], ',')
      {
        ValidNameFree(names[i], ',');
      }
      SplitJoin(names, ',');
      ParseNamesAll(names, {});
      assert (set y | y in names) == f.fields;
      assert {} + f.fields == f.fields;
      JoinedNamesStart(names);
      forall c | c != ',' && !NameChar(c)
        ensures Free(s, c)
      {
        forall i | 0 <= i < |names|
          ensures Free(names[i], c)
        {
          ValidNameFree(names[i], c);
        }
        JoinFree(names, ',', c);
      }
    }
  }

  lemma JoinedNamesStart(names: seq<string>)
    requires names != [] && ValidName(names[0])
    ensures Join(names, ',') != "?" && Join(names, ',') != "!" && Join(names, ',') != ""
  {
    assert Join(names, ',')[0] == names[0][0];
  }

  lemma {:induction false} FieldSetsRoundTrip(order: NameOrder, sets: seq<FieldSet>)
    requires Enumerates(order) && forall i :: 0 <= i < |sets| ==> ValidFields(sets[i])
    ensures ParseFieldSets(FieldSetTexts(order, sets)) == Some(seq(|sets|, i requires 0 <= i < |sets| => ReloadedFields(sets[i])))
  {
    hide Enumerates, ParseFieldSet, FieldSetText, ValidFields, ReloadedFields;
    var r := seq(|sets|, i requires 0 <= i < |sets| => ReloadedFields(sets[i]));
    if sets != [] {
      FieldSetRoundTrip(order, sets[0]);
      FieldSetsRoundTrip(order, sets[1..]);
      assert FieldSetTexts(order, sets)[1..] == FieldSetTexts(order, sets[1..]);
      assert r == [ReloadedFields(sets[0])] + seq(|sets[1..]|, i requires 0 <= i < |sets[1..]| => ReloadedFields(sets[1..][i]));
    } else {
      assert FieldSetTexts(order, sets) == [];
      assert r == [];
    }
  }

  /** One parameter that may write only a field named "-": the column says there are no parameters. */
  predicate LooksEmpty(sets: seq<FieldSet>) {
    |sets| == 1 && sets[0] == FieldSet(true, {"-"})
  }

  lemma FieldWritesRoundTrip(order: NameOrder, sets: seq<FieldSet>)
    requires Enumerates(order) && forall i :: 0 <= i < |sets| ==> ValidFields(sets[i])
    ensures ParseFieldWrites(FieldWritesText(order, sets), |sets|) ==
              if LooksEmpty(sets) then None
              else Some(seq(|sets|, i requires 0 <= i < |sets| => ReloadedFields(sets[i])))
    ensures forall c :: c == '\t' || c == '\n' ==> Free(FieldWritesText(order, sets), c)
  {
    if sets == [] {
      assert seq(|sets|, i requires 0 <= i < |sets| => ReloadedFields(sets[i])) == [];
    } else {
      var texts := FieldSetTexts(order, sets);
      forall i | 0 <= i < |texts|
        ensures Free(texts[i], ';') && Free(texts[i], '\t') && Free(texts[i], '\n')
      {
        FieldSetRoundTrip(order, sets[i]);
      }
      SplitJoin(texts, ';');
      FieldSetsRoundTrip(order, sets);
      DashExact(order, sets);
      JoinFree(texts, ';', '\t');
      JoinFree(texts, ';', '\n');
    }
  }

  lemma DashExact(order: NameOrder, sets: seq<FieldSet>)
    requires Enumerates(order) && sets != [] && forall i :: 0 <= i < |sets| ==> ValidFields(sets[i])
    ensures FieldWritesText(order, sets) == "-" <==> LooksEmpty(sets)
  {
    var s := FieldWritesText(order, sets);
    var texts := FieldSetTexts(order, sets);
    if |sets| > 1 {
      assert s == texts[0] + ([';'] + Join(texts[1..], ';'));
      FieldSetRoundTrip(order, sets[0]);
      assert s[|texts[0]|] == ';';
    } else {
      assert s == FieldSetText(order, sets[0]);
      OneDashExact(order, sets[0]);
    }
  }

  lemma OneDashExact(order: NameOrder, f: FieldSet)
    requires Enumerates(order) && ValidFields(f)
    ensures FieldSetText(order, f) == "-" <==> f == FieldSet(true, {"-"})
  {
    FieldSetRoundTrip(order, f);
    if FieldSetText(order, f) == "-" {
      assert ParseFieldSet("-") == Some(FieldSet(true, {"-"})) by {
        SplitWhole("-", ',');
        ParseNamesAll(["-"], {});
        assert {} + (set x | x in ["-"]) == {"-"};
      }
    }
    if f == FieldSet(true, {"-"}) {
      var names := order({"-"});
      assert "-" in {"-"} && "-" in names;
      TwoDiffer(names, "-");
      assert forall y :: y in names ==> y in {"-"};
      assert names == ["-"];
    }
  }

  lemma TwoDiffer(names: seq<string>, x: string)
    requires NoRepeats(names)
    ensures |names| > 1 ==> exists y :: y in names && y != x
  {
    if |names| > 1 {
      var y := if names[0] != x then names[0] else names[1];
      assert y in names && y != x;
    }
  }

  // --- Lines ---

  /** The vectors written for s.params, values beyond a short vector filled in by the accessors. */
  function Filled<T>(n: nat, value: nat -> T): seq<T> {
    seq(n, i requires 0 <= i < n => value(i))
  }

  function Columns(order: NameOrder, key: string, s: Summary): seq<string> {
    var n := |s.params|;
    [ key,
      [NullnessChar(s.nullness)],
      Column(s.params, EffectChar),
      [ZeronessChar(s.zeroness)],
      ConditionText(s.nullCondParam, s.nullCondRange),
      IndexText(s.zeroFromParam),
      IndexText(s.nullFromParam),
      IndexText(s.returnAliasParam),
      Column(Filled(n, i => s.ParamPrecondition(i)), PreconditionChar),
      Column(Filled(n, i => s.ParamPostcondition(i)), PostconditionChar),
      Column(Filled(n, i => s.ParamAccess(i)), AccessChar),
      Column(Filled(n, i => s.ParamOwnership(i)), OwnershipChar),
      [ReturnOwnershipChar(s.ownership)],
      FieldWritesText(order, Filled(n, i => At(s.fieldWrites, i, UnknownFields))),
      Column(Filled(n, i => s.ParamAllocatorSize(i)), AllocatorSizeChar) ]
  }

  function SaveLine(order: NameOrder, key: string, s: Summary): string {
    Join(Columns(order, key, s), '\t')
  }

  /** The return columns; conditions and passthroughs are refused off their defined side. */
  function ParseReturns(fields: seq<string>): Option<Summary>
    requires |fields| == 15
  {
    var nullness, zeroness := ParseChar(fields[1], NullnessOf), ParseChar(fields[3], ZeronessOf);
    var condition := ParseCondition(fields[4]);
    var zeroFrom, nullFrom, alias := ParseIndex(fields[5]), ParseIndex(fields[6]), ParseIndex(fields[7]);
    var ownership := ParseChar(fields[12], ReturnOwnershipOf);
    if nullness.None? || zeroness.None? || condition.None? || zeroFrom.None? || nullFrom.None? || alias.None? || ownership.None?
    then None
    else if fields[4] != "-" && nullness.value != MaybeNull then None
    else if fields[5] != "-" && zeroness.value != AnyZero then None
    else if fields[6] != "-" && nullness.value != AnyNull then None
    else
      Some(Summary(nullness.value, zeroness.value, ownership.value, zeroFrom.value, nullFrom.value, alias.value,
                   condition.value.0, condition.value.1, [], [], [], [], [], [], []))
  }

  function ParseParams(fields: seq<string>, s: Summary): Option<Summary>
    requires |fields| == 15
  {
    var params := if fields[2] == "-" then Some([]) else if fields[2] == "" then None else DecodeAll(fields[2], EffectOf);
    if params.None? then None
    else
      var n := |params.value|;
      var pre, post := ParseColumn(fields[8], n, PreconditionOf), ParseColumn(fields[9], n, PostconditionOf);
      var access, owner := ParseColumn(fields[10], n, AccessOf), ParseColumn(fields[11], n, OwnershipOf);
      var writes, sizes := ParseFieldWrites(fields[13], n), ParseColumn(fields[14], n, AllocatorSizeOf);
      if pre.None? || post.None? || access.None? || owner.None? || writes.None? || sizes.None? then None
      else
        Some(s.(params := params.value, preconditions := pre.value, postconditions := post.value, accesses := access.value,
                ownerships := owner.value, fieldWrites := writes.value, allocatorSizes := sizes.value))
  }

  function ParseLine(line: string): Option<(string, Summary)> {
    var fields := Split(line, '\t');
    if |fields| != 15 || fields[0] == "" then None
    else match ParseReturns(fields)
      case None => None
      case Some(partial) =>
        (match ParseParams(fields, partial)
         case None => None
         case Some(s) => Some((fields[0], s)))
  }

  /** Keys are qualified names with a parameter count: no tab or newline. */
  predicate ValidKey(key: string) {
    key != "" && Free(key, '\t') && Free(key, '\n')
  }

  /** The summaries the analysis produces: no vector longer than the parameters, claims on their side, C field names. */
  predicate Representable(s: Summary) {
    && |s.accesses| <= |s.params| && |s.ownerships| <= |s.params| && |s.fieldWrites| <= |s.params|
    && |s.preconditions| <= |s.params| && |s.postconditions| <= |s.params| && |s.allocatorSizes| <= |s.params|
    && (s.nullCondParam >= 0 ==> s.nullness == MaybeNull)
    && (s.zeroFromParam >= 0 ==> s.zeroness == AnyZero)
    && (s.nullFromParam >= 0 ==> s.nullness == AnyNull)
    && s.nullCondParam <= INT_MAX && s.zeroFromParam <= INT_MAX && s.nullFromParam <= INT_MAX && s.returnAliasParam <= INT_MAX
    && forall i :: 0 <= i < |s.fieldWrites| ==> ValidFields(s.fieldWrites[i])
  }

  /** What the format can carry: no single parameter writing only a field named "-", no empty condition range. */
  predicate Storable(s: Summary) {
    && !(|s.params| == 1 && LooksEmpty(s.fieldWrites))
    && !(s.HasNullCondition() && s.nullCondRange.Bottom?)
  }

  function NoClaim(p: int): int {
    if p < 0 then -1 else p
  }

  /** What a saved summary reads back as. */
  function Reloaded(s: Summary): Summary {
    var n := |s.params|;
    Summary(s.nullness, s.zeroness, s.ownership, NoClaim(s.zeroFromParam), NoClaim(s.nullFromParam), NoClaim(s.returnAliasParam),
            NoClaim(s.nullCondParam), if s.nullCondParam < 0 then I.Top else ReloadedRange(s.nullCondRange),
            s.params,
            Filled(n, i => s.ParamAccess(i)),
            Filled(n, i => s.ParamOwnership(i)),
            Filled(n, i => ReloadedFields(At(s.fieldWrites, i, UnknownFields))),
            Filled(n, i => s.ParamPrecondition(i)),
            Filled(n, i => s.ParamPostcondition(i)),
            Filled(n, i => s.ParamAllocatorSize(i)))
  }

  lemma ReturnsRoundTrip(order: NameOrder, key: string, s: Summary)
    requires Representable(s)
    ensures ParseReturns(Columns(order, key, s)) ==
              Some(Reloaded(s).(params := [], accesses := [], ownerships := [], fieldWrites := [],
                                preconditions := [], postconditions := [], allocatorSizes := []))
  {
    hide Column, FieldWritesText, ParseCondition, ConditionText, IndexText, ParseIndex, ReloadedRange;
    ConditionRoundTrip(s.nullCondParam, s.nullCondRange);
    ConditionDash(s.nullCondParam, s.nullCondRange);
    IndexRoundTrip(s.zeroFromParam);
    IndexRoundTrip(s.nullFromParam);
    IndexRoundTrip(s.returnAliasParam);
    IndexDash(s.zeroFromParam);
    IndexDash(s.nullFromParam);
  }

  lemma ConditionDash(param: int, range: Interval)
    ensures ConditionText(param, range) == "-" <==> param < 0
  {
    if param >= 0 {
      IntTextRoundTrip(param);
      assert ConditionText(param, range)[0] == IntText(param)[0];
    }
  }

  lemma IndexDash(p: int)
    ensures IndexText(p) == "-" <==> p < 0
  {
    if p >= 0 {
      IntTextRoundTrip(p);
      assert IsDigit(IndexText(p)[0]);
    }
  }

  lemma EffectColumn(params: seq<Effect>)
    ensures var c := Column(params, EffectChar);
            c != "" && if c == "-" then params == [] else DecodeAll(c, EffectOf) == Some(params)
  {
    DecodeAllOf(params, EffectChar, EffectOf);
    if params != [] {
      assert Column(params, EffectChar)[0] != '-';
    }
  }

  lemma ParamsRoundTrip(order: NameOrder, key: string, s: Summary, r: Summary)
    requires Enumerates(order) && Representable(s)
    ensures ParseParams(Columns(order, key, s), r) ==
              if |s.params| == 1 && LooksEmpty(s.fieldWrites) then None
              else var t := Reloaded(s);
                   Some(r.(params := t.params, accesses := t.accesses, ownerships := t.ownerships, fieldWrites := t.fieldWrites,
                           preconditions := t.preconditions, postconditions := t.postconditions, allocatorSizes := t.allocatorSizes))
  {
    var n := |s.params|;
    EffectColumn(s.params);
    ColumnRoundTrip(Filled(n, i => s.ParamPrecondition(i)), PreconditionChar, PreconditionOf);
    ColumnRoundTrip(Filled(n, i => s.ParamPostcondition(i)), PostconditionChar, PostconditionOf);
    ColumnRoundTrip(Filled(n, i => s.ParamAccess(i)), AccessChar, AccessOf);
    ColumnRoundTrip(Filled(n, i => s.ParamOwnership(i)), OwnershipChar, OwnershipOf);
    ColumnRoundTrip(Filled(n, i => s.ParamAllocatorSize(i)), AllocatorSizeChar, AllocatorSizeOf);
    WritesRoundTrip(order, s);
    hide Column, ParseColumn, FieldWritesText, ParseFieldWrites, DecodeAll, LooksEmpty, ConditionText, IndexText, Enumerates, Representable;
  }

  lemma WritesRoundTrip(order: NameOrder, s: Summary)
    requires Enumerates(order) && Representable(s)
    ensures ParseFieldWrites(FieldWritesText(order, Filled(|s.params|, i => At(s.fieldWrites, i, UnknownFields))), |s.params|) ==
              if |s.params| == 1 && LooksEmpty(s.fieldWrites) then None else Some(Reloaded(s).fieldWrites)
  {
    var sets := Filled(|s.params|, i => At(s.fieldWrites, i, UnknownFields));
    FieldWritesRoundTrip(order, sets);
    assert seq(|sets|, i requires 0 <= i < |sets| => ReloadedFields(sets[i])) == Reloaded(s).fieldWrites;
  }

  lemma ColumnsFree(order: NameOrder, key: string, s: Summary, c: char)
    requires Enumerates(order) && Representable(s) && ValidKey(key) && (c == '\t' || c == '\n')
    ensures forall i :: 0 <= i < 15 ==> Free(Columns(order, key, s)[i], c)
  {
    var n := |s.params|;
    ColumnFree(s.params, EffectChar, c);
    ConditionFree(s.nullCondParam, s.nullCondRange, c);
    ConditionFree(s.zeroFromParam, s.nullCondRange, c);
    ConditionFree(s.nullFromParam, s.nullCondRange, c);
    ConditionFree(s.returnAliasParam, s.nullCondRange, c);
    ColumnFree(Filled(n, i => s.ParamPrecondition(i)), PreconditionChar, c);
    ColumnFree(Filled(n, i => s.ParamPostcondition(i)), PostconditionChar, c);
    ColumnFree(Filled(n, i => s.ParamAccess(i)), AccessChar, c);
    ColumnFree(Filled(n, i => s.ParamOwnership(i)), OwnershipChar, c);
    ColumnFree(Filled(n, i => s.ParamAllocatorSize(i)), AllocatorSizeChar, c);
    FieldWritesRoundTrip(order, Filled(n, i => At(s.fieldWrites, i, UnknownFields)));
    hide Column, FieldWritesText, ConditionText, IndexText;
  }

  /** A saved line reads back as the reloaded summary, unless it carries the one field set the format cannot. */
  lemma LineRoundTrip(order: NameOrder, key: string, s: Summary)
    requires Enumerates(order) && Representable(s) && ValidKey(key)
    ensures ParseLine(SaveLine(order, key, s)) ==
              if |s.params| == 1 && LooksEmpty(s.fieldWrites) then None else Some((key, Reloaded(s)))
    ensures Free(SaveLine(order, key, s), '\n') && SaveLine(order, key, s) != ""
  {
    ReturnsRoundTrip(order, key, s);
    ParamsRoundTrip(order, key, s, ParseReturns(Columns(order, key, s)).value);
    ColumnsFree(order, key, s, '\t');
    ColumnsFree(order, key, s, '\n');
    hide ParseReturns, ParseParams, Representable, Enumerates, LooksEmpty;
    SplitJoin(Columns(order, key, s), '\t');
    JoinFree(Columns(order, key, s), '\t', '\n');
  }

  /** Reloading changes no answer exactly when the condition range is not empty. */
  lemma ReloadedAnswers(s: Summary)
    requires Representable(s)
    ensures SameAnswers(Reloaded(s), s) <==> !(s.HasNullCondition() && s.nullCondRange.Bottom?)
  {
    hide ReloadedRange, I.Top;
    forall i: nat
      ensures SameParamAnswers(Reloaded(s), s, i)
    {
      ReloadedParamAnswers(s, i);
    }
    RangeReloads(s.nullCondRange);
    hide Representable, SameParamAnswers;
  }

  lemma RangeReloads(r: Interval)
    ensures ReloadedRange(r) == r <==> !r.Bottom?
  {
  }

  lemma ReloadedParamAnswers(s: Summary, i: nat)
    requires Representable(s)
    ensures SameParamAnswers(Reloaded(s), s, i)
  {
    hide ValidFields;
    if i < |s.params| {
      assert Reloaded(s).fieldWrites[i] == ReloadedFields(At(s.fieldWrites, i, UnknownFields));
    }
  }
}
