/**
 The version 11 format itself, apart from its writer and its parser: which letter stands for
 which value in which of the 15 columns, and which numbers, conditions and field names are
 well written. The parser of src/engine/FunctionSummary.cpp accepts exactly this.
 */
module SummaryFormat {
  import opened Int64
  import opened Decimal
  import opened TextFormat
  import opened Summaries
  import opened SummaryMerge
  import opened SummaryFile
  import opened SummaryFileStore
  import S = SummaryStore
  import I = Intervals

  // --- Letters ---

  predicate NullnessLetter(v: Nullness, c: char) {
    (v, c) in {(AnyNull, 'U'), (NeverNull, 'N'), (MaybeNull, 'M')}
  }

  predicate EffectLetter(v: Effect, c: char) {
    (v, c) in {(Opaque, 'O'), (ReadsOnly, 'R'), (Frees, 'F'), (Stores, 'S')}
  }

  predicate ZeronessLetter(v: Zeroness, c: char) {
    (v, c) in {(AnyZero, 'U'), (AlwaysZero, 'Z'), (NeverZero, 'N'), (MaybeZero, 'M')}
  }

  predicate PreconditionLetter(v: Precondition, c: char) {
    (v, c) in {(NoPrecondition, 'O'), (NonNullCrash, 'C'), (NonNullRejected, 'R')}
  }

  predicate PostconditionLetter(v: Postcondition, c: char) {
    (v, c) in {(AnyPostcondition, 'U'), (PostNull, '0'), (PostNonNull, 'N')}
  }

  predicate AccessLetter(v: Access, c: char) {
    (v, c) in {(AnyAccess, 'U'), (NoAccess, 'O'), (Reads, 'R'), (Writes, 'W'), (ReadsWrites, 'B')}
  }

  predicate OwnershipLetter(v: Ownership, c: char) {
    (v, c) in {(AnyOwnership, 'U'), (Borrowed, 'B'), (Consumed, 'C'), (Transferred, 'T')}
  }

  predicate ReturnOwnershipLetter(v: ReturnOwnership, c: char) {
    (v, c) in {(AnyOwner, 'U'), (ReturnsOwned, 'O'), (ReturnsBorrowed, 'B')}
  }

  predicate AllocatorSizeLetter(v: AllocatorSize, c: char) {
    (v, c) in {(AnySize, '?'), (NoSize, 'O'), (Sink, 'S')}
  }

  /** The decoder reads exactly the letters of the table. */
  ghost predicate Decodes<T(!new)>(fromChar: char -> Option<T>, letter: (T, char) -> bool) {
    forall c, v {:trigger letter(v, c)} :: fromChar(c) == Some(v) <==> letter(v, c)
  }

  lemma LettersRead()
    ensures Decodes(NullnessOf, NullnessLetter) && Decodes(EffectOf, EffectLetter) && Decodes(ZeronessOf, ZeronessLetter)
    ensures Decodes(PreconditionOf, PreconditionLetter) && Decodes(PostconditionOf, PostconditionLetter) && Decodes(AccessOf, AccessLetter)
    ensures Decodes(OwnershipOf, OwnershipLetter) && Decodes(ReturnOwnershipOf, ReturnOwnershipLetter)
    ensures Decodes(AllocatorSizeOf, AllocatorSizeLetter)
  {
  }

  // --- Columns ---

  ghost predicate LetterColumn<T(!new)>(field: string, letter: (T, char) -> bool, v: T) {
    |field| == 1 && letter(v, field[0])
  }

  /** One letter for every parameter, "-" when there are none. */
  ghost predicate VectorColumn<T(!new)>(field: string, letter: (T, char) -> bool, values: seq<T>) {
    if values == [] then field == "-"
    else field != "-" && |field| == |values| && forall i :: 0 <= i < |values| ==> letter(values[i], field[i])
  }

  lemma LetterColumnExact<T(!new)>(field: string, fromChar: char -> Option<T>, letter: (T, char) -> bool, v: T)
    requires Decodes(fromChar, letter)
    ensures ParseChar(field, fromChar) == Some(v) <==> LetterColumn(field, letter, v)
  {
    if |field| == 1 {
      assert letter(v, field[0]) <==> fromChar(field[0]) == Some(v);
    }
  }

  lemma {:induction false} DecodeAllExact<T(!new)>(s: string, fromChar: char -> Option<T>, letter: (T, char) -> bool, values: seq<T>)
    requires Decodes(fromChar, letter)
    ensures DecodeAll(s, fromChar) == Some(values) <==>
            |s| == |values| && forall i :: 0 <= i < |values| ==> letter(values[i], s[i])
  {
    if s != "" && values != [] {
      DecodeAllExact(s[1..], fromChar, letter, values[1..]);
      assert letter(values[0], s[0]) <==> fromChar(s[0]) == Some(values[0]);
      assert values == [values[0]] + values[1..];
      if |s| == |values| && forall i :: 0 <= i < |values| ==> letter(values[i], s[i]) {
        forall i | 0 <= i < |values[1..]|
          ensures letter(values[1..][i], s[1..][i])
        {
          assert letter(values[i + 1], s[i + 1]);
        }
      }
      if |s| == |values| && letter(values[0], s[0]) && forall i :: 0 <= i < |values[1..]| ==> letter(values[1..][i], s[1..][i]) {
        forall i | 0 <= i < |values|
          ensures letter(values[i], s[i])
        {
          assert i > 0 ==> values[1..][i - 1] == values[i] && s[1..][i - 1] == s[i];
        }
      }
      if DecodeAll(s, fromChar) == Some(values) {
        var rest := DecodeAll(s[1..], fromChar);
        assert ([fromChar(s[0]).value] + rest.value)[1..] == rest.value;
      }
    }
  }

  lemma VectorColumnExact<T(!new)>(field: string, n: nat, fromChar: char -> Option<T>, letter: (T, char) -> bool, values: seq<T>)
    requires Decodes(fromChar, letter)
    ensures ParseColumn(field, n, fromChar) == Some(values) <==> |values| == n && VectorColumn(field, letter, values)
  {
    DecodeAllExact(field, fromChar, letter, values);
    DecodeAllLengthIs(field, fromChar);
    hide DecodeAll;
  }

  lemma DecodeAllLengthIs<T>(s: string, fromChar: char -> Option<T>)
    ensures DecodeAll(s, fromChar).Some? ==> |DecodeAll(s, fromChar).value| == |s|
  {
    if DecodeAll(s, fromChar).Some? {
      DecodeAllLength(s, fromChar);
    }
  }

  // --- Numbers ---

  /** Space, tab, newline, vertical tab, form feed, carriage return. */
  predicate Blank(c: char) {
    c as int in {9, 10, 11, 12, 13, 32}
  }

  predicate Blanks(s: string) {
    forall i :: 0 <= i < |s| ==> Blank(s[i])
  }

  predicate IntegerParts(s: string, blanks: string, sign: string, digits: string, v: int) {
    && s == blanks + sign + digits && Blanks(blanks) && (sign == "" || sign == "+" || sign == "-")
    && digits != "" && Digits(digits) && v == (if sign == "-" then -NatValue(digits) else NatValue(digits))
  }

  /** What strtoll reads to the end: blanks, a sign, digits, a 64-bit value; of nothing it reads zero. */
  ghost predicate IntegerText(s: string, v: int) {
    Fits(v) && if s == "" then v == 0 else exists blanks, sign, digits :: IntegerParts(s, blanks, sign, digits, v)
  }

  lemma {:induction false} SkippedBlanks(s: string) returns (blanks: string)
    ensures s == blanks + SkipBlanks(s) && Blanks(blanks)
    ensures SkipBlanks(s) != "" ==> !IsBlank(SkipBlanks(s)[0])
  {
    if s != "" && IsBlank(s[0]) {
      var rest := SkippedBlanks(s[1..]);
      blanks := [s[0]] + rest;
      assert s == [s[0]] + s[1..];
    } else {
      blanks := "";
    }
  }

  lemma {:induction false} SkipsAllBlanks(blanks: string, rest: string)
    requires Blanks(blanks) && (rest == "" || !IsBlank(rest[0]))
    ensures SkipBlanks(blanks + rest) == rest
  {
    if blanks != "" {
      assert (blanks + rest)[1..] == blanks[1..] + rest;
      SkipsAllBlanks(blanks[1..], rest);
    } else {
      assert blanks + rest == rest;
    }
  }

  lemma IntegerTextExact(s: string, v: int)
    ensures ReadInteger(s) == Some(v) <==> IntegerText(s, v)
  {
    hide NatValue, Digits, SkipBlanks, Blanks;
    if s != "" {
      if ReadInteger(s) == Some(v) {
        ReadIsText(s, v);
      }
      if IntegerText(s, v) {
        var blanks, sign, digits :| IntegerParts(s, blanks, sign, digits, v);
        TextIsRead(s, blanks, sign, digits, v);
      }
    }
  }

  lemma ReadIsText(s: string, v: int)
    requires s != "" && ReadInteger(s) == Some(v)
    ensures IntegerText(s, v)
  {
    hide NatValue, Digits, Blanks;
    var blanks := SkippedBlanks(s);
    var t := SkipBlanks(s);
    hide SkipBlanks;
    var sign := if t != "" && (t[0] == '-' || t[0] == '+') then [t[0]] else "";
    var digits := t[|sign|..];
    assert t == sign + digits && s == blanks + sign + digits;
    assert IntegerParts(s, blanks, sign, digits, v);
  }

  lemma TextIsRead(s: string, blanks: string, sign: string, digits: string, v: int)
    requires Fits(v) && IntegerParts(s, blanks, sign, digits, v)
    ensures ReadInteger(s) == Some(v)
  {
    hide NatValue, SkipBlanks, Blanks;
    var t := sign + digits;
    assert IsDigit(digits[0]);
    assert t[0] == if sign == "" then digits[0] else sign[0];
    assert s == blanks + t;
    SkipsAllBlanks(blanks, t);
    assert t[|sign|..] == digits;
    hide Digits;
  }

  /** The value kept of an index: its low 32 bits as a signed number. */
  predicate Truncates(v: int, p: int) {
    -0x8000_0000 <= p < 0x8000_0000 && (v - p) % 0x1_0000_0000 == 0
  }

  lemma TruncatesExact(v: int, p: int)
    ensures p == ToInt32(v) <==> Truncates(v, p)
  {
  }

  ghost predicate IndexColumn(field: string, p: int) {
    if field == "-" then p == -1 else exists v :: v >= 0 && IntegerText(field, v) && Truncates(v, p)
  }

  lemma IndexColumnExact(field: string, p: int)
    ensures ParseIndex(field) == Some(p) <==> IndexColumn(field, p)
  {
    hide ReadInteger, ToInt32, Truncates, IntegerText;
    if field != "-" {
      if ReadInteger(field).Some? {
        IntegerTextExact(field, ReadInteger(field).value);
        TruncatesExact(ReadInteger(field).value, p);
      }
      if v :| v >= 0 && IntegerText(field, v) && Truncates(v, p) {
        IntegerTextExact(field, v);
        TruncatesExact(v, p);
      }
    }
  }

  // --- Null conditions ---

  ghost predicate BoundText(s: string, b: I.Bound) {
    if s == "~" then b.Infinite? else s != "" && b.Finite? && IntegerText(s, b.v as int)
  }

  lemma BoundTextExact(s: string, b: I.Bound)
    ensures ParseBound(s) == Some(b) <==> BoundText(s, b)
  {
    hide ReadInteger, IntegerText;
    if s != "~" && s != "" {
      if b.Finite? {
        IntegerTextExact(s, b.v as int);
      }
      if ReadInteger(s).Some? {
        IntegerTextExact(s, ReadInteger(s).value);
        IntegerFits(s, ReadInteger(s).value);
      }
    }
  }

  lemma IntegerFits(s: string, v: int)
    requires IntegerText(s, v)
    ensures Fits(v)
  {
  }

  /** parameter:low:high, the bounds in order, "~" for none; "-" without a condition. */
  ghost predicate ConditionColumn(field: string, param: int, range: Interval) {
    if field == "-" then param == -1 && range == I.Top
    else
      var parts := Split(field, ':');
      && |parts| == 3 && parts[0] != "" && (exists v :: v >= 0 && IntegerText(parts[0], v) && Truncates(v, param))
      && range.Between? && BoundText(parts[1], range.lo) && BoundText(parts[2], range.hi)
  }

  lemma RangeExact(lo: I.Bound, hi: I.Bound, range: Interval)
    ensures RangeOf(lo, hi) == Some(range) <==> range.Between? && range.lo == lo && range.hi == hi
  {
  }

  lemma ConditionColumnExact(field: string, param: int, range: Interval)
    ensures ParseCondition(field) == Some((param, range)) <==> ConditionColumn(field, param, range)
  {
    hide ReadInteger, ParseBound, BoundText, IntegerText, Split, ToInt32, Truncates, RangeOf;
    if field != "-" {
      var parts := Split(field, ':');
      if |parts| == 3 && parts[0] != "" {
        NumberExact(parts[0], param);
        BoundExact(parts[1], range, true);
        BoundExact(parts[2], range, false);
        var lo, hi := ParseBound(parts[1]), ParseBound(parts[2]);
        if lo.Some? && hi.Some? {
          RangeExact(lo.value, hi.value, range);
        }
      }
    }
  }

  lemma NumberExact(s: string, p: int)
    ensures (exists v :: v >= 0 && IntegerText(s, v) && Truncates(v, p)) <==>
            ReadInteger(s).Some? && ReadInteger(s).value >= 0 && ToInt32(ReadInteger(s).value) == p
  {
    hide ReadInteger, ToInt32, Truncates, IntegerText;
    if ReadInteger(s).Some? {
      IntegerTextExact(s, ReadInteger(s).value);
      TruncatesExact(ReadInteger(s).value, p);
    }
    if v :| v >= 0 && IntegerText(s, v) && Truncates(v, p) {
      IntegerTextExact(s, v);
      TruncatesExact(v, p);
    }
  }

  lemma BoundExact(s: string, range: Interval, low: bool)
    ensures range.Between? ==> (BoundText(s, if low then range.lo else range.hi) <==> ParseBound(s) == Some(if low then range.lo else range.hi))
  {
    if range.Between? {
      BoundTextExact(s, if low then range.lo else range.hi);
    }
  }

  // --- Field names ---

  /** A field name: no control character or blank, and none of the four marks of the column. */
  predicate FieldName(s: string) {
    s != "" && forall i :: 0 <= i < |s| ==> s[i] as int > 32 && s[i] !in ",;!?"
  }

  lemma NamesAgree(s: string)
    ensures ValidName(s) <==> FieldName(s)
  {
  }

  ghost predicate FieldSetPart(part: string, f: FieldSet) {
    if part == "?" then f == FieldSet(false, {})
    else if part == "!" then f == FieldSet(true, {})
    else
      var names := Split(part, ',');
      && f.known && NoRepeats(names) && (forall x :: x in names ==> FieldName(x))
      && forall x :: x in f.fields <==> x in names
  }

  ghost predicate FieldsColumn(field: string, sets: seq<FieldSet>) {
    if sets == [] then field == "-"
    else
      var parts := Split(field, ';');
      field != "-" && |parts| == |sets| && forall i :: 0 <= i < |sets| ==> FieldSetPart(parts[i], sets[i])
  }

  lemma {:induction false} ParseNamesNoRepeats(names: seq<string>, seen: set<string>)
    requires ParseNames(names, seen).Some?
    ensures NoRepeats(names)
    decreases |names|
  {
    if names != [] {
      ParseNamesNoRepeats(names[1..], seen + {names[0]});
      ParseNamesExact(names[1..], seen + {names[0]});
      forall i, j | 0 <= i < j < |names|
        ensures names[i] != names[j]
      {
        assert names[j] == names[1..][j - 1] && names[j] in names[1..];
        assert i > 0 ==> names[i] == names[1..][i - 1];
      }
    }
  }

  lemma FieldSetPartExact(part: string, f: FieldSet)
    ensures ParseFieldSet(part) == Some(f) <==> FieldSetPart(part, f)
  {
    forall x: string
      ensures ValidName(x) <==> FieldName(x)
    {
      NamesAgree(x);
    }
    hide Split, ParseNames, NoRepeats, ValidName, FieldName;
    if part != "?" && part != "!" {
      var names := Split(part, ',');
      if ParseNames(names, {}).Some? {
        ParseNamesExact(names, {});
        ParseNamesNoRepeats(names, {});
      }
      if FieldSetPart(part, f) {
        ParseNamesAll(names, {});
        assert {} + (set x | x in names) == f.fields;
      }
    }
  }

  lemma {:induction false} FieldSetPartsExact(parts: seq<string>, sets: seq<FieldSet>)
    ensures ParseFieldSets(parts) == Some(sets) <==>
            |parts| == |sets| && forall i :: 0 <= i < |sets| ==> FieldSetPart(parts[i], sets[i])
  {
    hide ParseFieldSet, FieldSetPart;
    if parts != [] && sets != [] {
      FieldSetPartExact(parts[0], sets[0]);
      FieldSetPartsExact(parts[1..], sets[1..]);
      assert sets == [sets[0]] + sets[1..];
      if |parts| == |sets| && (forall i :: 0 <= i < |sets| ==> FieldSetPart(parts[i], sets[i])) {
        forall i | 0 <= i < |sets[1..]|
          ensures FieldSetPart(parts[1..][i], sets[1..][i])
        {
          assert FieldSetPart(parts[i + 1], sets[i + 1]);
        }
      }
      if ParseFieldSets(parts) == Some(sets) {
        var rest := ParseFieldSets(parts[1..]);
        assert ([ParseFieldSet(parts[0]).value] + rest.value)[1..] == rest.value;
        forall i | 0 <= i < |sets|
          ensures FieldSetPart(parts[i], sets[i])
        {
          assert i > 0 ==> parts[1..][i - 1] == parts[i] && sets[1..][i - 1] == sets[i];
        }
      }
    }
  }

  lemma FieldsColumnExact(field: string, n: nat, sets: seq<FieldSet>)
    ensures ParseFieldWrites(field, n) == Some(sets) <==> |sets| == n && FieldsColumn(field, sets)
  {
    FieldSetPartsExact(Split(field, ';'), sets);
    hide Split, ParseFieldSets, FieldSetPart;
    if ParseFieldSets(Split(field, ';')).Some? {
      FieldSetPartsExact(Split(field, ';'), ParseFieldSets(Split(field, ';')).value);
    }
  }

  // --- Lines ---

  /** Columns 2, 4, 5, 6, 7, 8 and 13: what the call returns. */
  ghost predicate ReturnColumns(fields: seq<string>, s: Summary)
    requires |fields| == 15
  {
    && LetterColumn(fields[1], NullnessLetter, s.nullness)
    && LetterColumn(fields[3], ZeronessLetter, s.zeroness)
    && ConditionColumn(fields[4], s.nullCondParam, s.nullCondRange) && (fields[4] != "-" ==> s.nullness == MaybeNull)
    && IndexColumn(fields[5], s.zeroFromParam) && (fields[5] != "-" ==> s.zeroness == AnyZero)
    && IndexColumn(fields[6], s.nullFromParam) && (fields[6] != "-" ==> s.nullness == AnyNull)
    && IndexColumn(fields[7], s.returnAliasParam)
    && LetterColumn(fields[12], ReturnOwnershipLetter, s.ownership)
  }

  /** Columns 3, 9 to 12, 14 and 15: what it does to each parameter. */
  ghost predicate ParamColumns(fields: seq<string>, s: Summary)
    requires |fields| == 15
  {
    var n := |s.params|;
    && VectorColumn(fields[2], EffectLetter, s.params)
    && |s.preconditions| == n && VectorColumn(fields[8], PreconditionLetter, s.preconditions)
    && |s.postconditions| == n && VectorColumn(fields[9], PostconditionLetter, s.postconditions)
    && |s.accesses| == n && VectorColumn(fields[10], AccessLetter, s.accesses)
    && |s.ownerships| == n && VectorColumn(fields[11], OwnershipLetter, s.ownerships)
    && |s.fieldWrites| == n && FieldsColumn(fields[13], s.fieldWrites)
    && |s.allocatorSizes| == n && VectorColumn(fields[14], AllocatorSizeLetter, s.allocatorSizes)
  }

  /** A line of the file. */
  ghost predicate LineOf(line: string, key: string, s: Summary) {
    var fields := Split(line, '\t');
    |fields| == 15 && fields[0] == key && key != "" && ReturnColumns(fields, s) && ParamColumns(fields, s)
  }

  function OnlyReturns(s: Summary): Summary {
    s.(params := [], accesses := [], ownerships := [], fieldWrites := [], preconditions := [], postconditions := [], allocatorSizes := [])
  }

  lemma ReturnColumnsExact(fields: seq<string>, s: Summary)
    requires |fields| == 15
    ensures ParseReturns(fields) == Some(OnlyReturns(s)) <==> ReturnColumns(fields, s)
  {
    LettersRead();
    LetterColumnExact(fields[1], NullnessOf, NullnessLetter, s.nullness);
    LetterColumnExact(fields[3], ZeronessOf, ZeronessLetter, s.zeroness);
    LetterColumnExact(fields[12], ReturnOwnershipOf, ReturnOwnershipLetter, s.ownership);
    ConditionColumnExact(fields[4], s.nullCondParam, s.nullCondRange);
    IndexColumnExact(fields[5], s.zeroFromParam);
    IndexColumnExact(fields[6], s.nullFromParam);
    IndexColumnExact(fields[7], s.returnAliasParam);
    hide ParseChar, LetterColumn, ParseCondition, ConditionColumn, ParseIndex, IndexColumn, Decodes;
  }

  lemma EffectsExact(field: string, values: seq<Effect>)
    ensures (if field == "-" then Some([]) else if field == "" then None else DecodeAll(field, EffectOf)) == Some(values) <==>
            VectorColumn(field, EffectLetter, values)
  {
    LettersRead();
    DecodeAllExact(field, EffectOf, EffectLetter, values);
    hide DecodeAll, EffectOf;
  }

  lemma ParamColumnsExact(fields: seq<string>, s: Summary)
    requires |fields| == 15
    ensures ParseParams(fields, OnlyReturns(s)) == Some(s) <==> ParamColumns(fields, s)
  {
    var n := |s.params|;
    LettersRead();
    EffectsExact(fields[2], s.params);
    VectorColumnExact(fields[8], n, PreconditionOf, PreconditionLetter, s.preconditions);
    VectorColumnExact(fields[9], n, PostconditionOf, PostconditionLetter, s.postconditions);
    VectorColumnExact(fields[10], n, AccessOf, AccessLetter, s.accesses);
    VectorColumnExact(fields[11], n, OwnershipOf, OwnershipLetter, s.ownerships);
    FieldsColumnExact(fields[13], n, s.fieldWrites);
    VectorColumnExact(fields[14], n, AllocatorSizeOf, AllocatorSizeLetter, s.allocatorSizes);
    hide DecodeAll, ParseColumn, VectorColumn, ParseFieldWrites, FieldsColumn, Decodes;
  }

  lemma ParsedReturns(fields: seq<string>)
    requires |fields| == 15 && ParseReturns(fields).Some?
    ensures OnlyReturns(ParseReturns(fields).value) == ParseReturns(fields).value
  {
    hide ParseChar, ParseCondition, ParseIndex;
  }

  lemma ParsedParams(fields: seq<string>, r: Summary)
    requires |fields| == 15 && OnlyReturns(r) == r && ParseParams(fields, r).Some?
    ensures OnlyReturns(ParseParams(fields, r).value) == r
  {
    hide ParseColumn, ParseFieldWrites, DecodeAll;
  }

  /** A line is accepted as the summary of a key exactly when it is a line of the format for them. */
  lemma ParseLineExact(line: string, key: string, s: Summary)
    ensures ParseLine(line) == Some((key, s)) <==> LineOf(line, key, s)
  {
    var fields := Split(line, '\t');
    if |fields| == 15 {
      ReturnColumnsExact(fields, s);
      ParamColumnsExact(fields, s);
      hide ParseReturns, ParseParams, ReturnColumns, ParamColumns, Split;
      if ParseReturns(fields).Some? {
        ParsedReturns(fields);
        var r := ParseReturns(fields).value;
        if ParseParams(fields, r).Some? {
          ParsedParams(fields, r);
        }
      }
    }
  }

  /** A saved line is a line of the format, for the same key and a summary with the same answers. */
  lemma SaveLineExact(order: NameOrder, key: string, s: Summary)
    requires Enumerates(order) && Representable(s) && ValidKey(key) && Storable(s)
    ensures LineOf(SaveLine(order, key, s), key, Reloaded(s)) && SameAnswers(Reloaded(s), s)
  {
    LineRoundTrip(order, key, s);
    ReloadedAnswers(s);
    hide ParseLine, SaveLine, Representable, Enumerates, LineOf, Reloaded, SameAnswers;
    ParseLineExact(SaveLine(order, key, s), key, Reloaded(s));
  }

  // --- Files ---

  ghost predicate GoodLine(line: string) {
    line == "" || exists key, s :: LineOf(line, key, s)
  }

  lemma {:induction false} ParseLinesExact(lines: seq<string>, parsed: S.Store)
    ensures ParseLines(lines, parsed).Some? <==> forall i :: 0 <= i < |lines| ==> GoodLine(lines[i])
    decreases |lines|
  {
    hide ParseLine, LineOf, S.Add, GoodLine;
    if lines != [] {
      GoodLineExact(lines[0]);
      if lines[0] == "" || ParseLine(lines[0]).Some? {
        var next := if lines[0] == "" then parsed else S.Add(parsed, ParseLine(lines[0]).value.0, ParseLine(lines[0]).value.1);
        ParseLinesExact(lines[1..], next);
        if forall i :: 0 <= i < |lines[1..]| ==> GoodLine(lines[1..][i]) {
          forall i | 0 <= i < |lines|
            ensures GoodLine(lines[i])
          {
            assert i > 0 ==> lines[1..][i - 1] == lines[i];
          }
        } else {
          var i :| 0 <= i < |lines[1..]| && !GoodLine(lines[1..][i]);
          assert lines[i + 1] == lines[1..][i];
        }
      }
    }
  }

  lemma GoodLineExact(line: string)
    ensures GoodLine(line) <==> line == "" || ParseLine(line).Some?
  {
    hide ParseLine, LineOf;
    if ParseLine(line).Some? {
      ParseLineExact(line, ParseLine(line).value.0, ParseLine(line).value.1);
    }
    if line != "" && GoodLine(line) {
      var key, s :| LineOf(line, key, s);
      ParseLineExact(line, key, s);
    }
  }

  /** A text is accepted exactly when its first line is the version 11 header and every other line is empty or of the format. */
  lemma ParseTextExact(text: string)
    ensures ParseText(text).Some? <==>
            var lines := Split(text, '\n');
            lines[0] == "codeskeptic-summaries v11" && forall i :: 0 < i < |lines| ==> GoodLine(lines[i])
  {
    hide GoodLine, ParseLines;
    var lines := Split(text, '\n');
    ParseLinesExact(lines[1..], map[]);
    if forall i :: 0 <= i < |lines[1..]| ==> GoodLine(lines[1..][i]) {
      forall i | 0 < i < |lines|
        ensures GoodLine(lines[i])
      {
        assert lines[1..][i - 1] == lines[i];
      }
    } else {
      var i :| 0 <= i < |lines[1..]| && !GoodLine(lines[1..][i]);
      assert lines[i + 1] == lines[1..][i];
    }
  }

  /** The entries of the lines, in order; empty lines have none. */
  ghost predicate EntriesOf(lines: seq<string>, entries: seq<S.Entry>)
    decreases |lines|
  {
    if lines == [] then entries == []
    else if lines[0] == "" then EntriesOf(lines[1..], entries)
    else entries != [] && entries[0].visible && LineOf(lines[0], entries[0].key, entries[0].summary) && EntriesOf(lines[1..], entries[1..])
  }

  lemma {:induction false} LinesHarvested(lines: seq<string>, entries: seq<S.Entry>, parsed: S.Store)
    requires EntriesOf(lines, entries)
    ensures ParseLines(lines, parsed) == Some(S.HarvestAll(parsed, entries))
    decreases |lines|
  {
    hide ParseLine, LineOf, S.Add;
    if lines != [] {
      if lines[0] == "" {
        LinesHarvested(lines[1..], entries, parsed);
      } else {
        var e := entries[0];
        ParseLineExact(lines[0], e.key, e.summary);
        LinesHarvested(lines[1..], entries[1..], S.Add(parsed, e.key, e.summary));
      }
    }
  }

  /** An accepted file is the store that harvesting its entries in order gives: repeated keys merge. */
  lemma ParsedStore(text: string, entries: seq<S.Entry>)
    requires Split(text, '\n')[0] == "codeskeptic-summaries v11" && EntriesOf(Split(text, '\n')[1..], entries)
    ensures ParseText(text) == Some(S.ApplyAll(map[], [S.Harvest(entries)]))
  {
    hide EntriesOf, ParseLines, S.HarvestAll;
    LinesHarvested(Split(text, '\n')[1..], entries, map[]);
    var h := [S.Harvest(entries)];
    assert h[1..] == [];
    assert S.ApplyAll(map[], h) == S.ApplyAll(S.Apply(map[], h[0]), h[1..]);
  }

  /** A saved text begins with that header. */
  lemma SavedHeader(order: NameOrder, entries: Entries)
    ensures Split(SaveText(order, entries), '\n')[0] == "codeskeptic-summaries v11"
  {
    hide Split, Body;
    SplitFirst(Header, Body(order, entries), '\n');
    assert Header == "codeskeptic-summaries v11";
  }
}
