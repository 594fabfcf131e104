/** Whole summary files: saving a store, parsing it back, and the parsing loops. */
module SummaryFileStore {
  import opened Int64
  import opened Decimal
  import opened TextFormat
  import opened Summaries
  import opened SummaryMerge
  import opened SummaryFile
  import S = SummaryStore

  type Entries = seq<(string, Summary)>

  function Body(order: NameOrder, entries: Entries): string {
    if entries == [] then ""
    else SaveLine(order, entries[0].0, entries[0].1) + (['\n'] + Body(order, entries[1..]))
  }

  /** saveGlobal, for the entries in the order the store enumerates them. */
  function SaveText(order: NameOrder, entries: Entries): string {
    Header + (['\n'] + Body(order, entries))
  }

  /** Lines after the header; empty ones are skipped, and a key seen before merges. */
  function ParseLines(lines: seq<string>, parsed: S.Store): Option<S.Store>
    decreases |lines|
  {
    if lines == [] then Some(parsed)
    else if lines[0] == "" then ParseLines(lines[1..], parsed)
    else match ParseLine(lines[0])
      case None => None
      case Some((key, s)) => ParseLines(lines[1..], S.Add(parsed, key, s))
  }

  /** parseSummaryFile on a version 11 file; any defect rejects the whole text. */
  function ParseText(text: string): Option<S.Store> {
    var lines := Split(text, '\n');
    if lines[0] != Header then None else ParseLines(lines[1..], map[])
  }

  // --- Round trip ---

  predicate DistinctKeys(entries: Entries) {
    forall i, j :: 0 <= i < j < |entries| ==> entries[i].0 != entries[j].0
  }

  predicate AllRepresentable(entries: Entries) {
    forall i :: 0 <= i < |entries| ==> ValidKey(entries[i].0) && Representable(entries[i].1)
  }

  /** The entries list the store, each key once. */
  predicate Lists(entries: Entries, store: S.Store) {
    && DistinctKeys(entries)
    && (forall i :: 0 <= i < |entries| ==> entries[i].0 in store && store[entries[i].0] == entries[i].1)
    && (forall key :: key in store ==> (key, store[key]) in entries)
  }

  predicate LooksCorrupt(s: Summary) {
    |s.params| == 1 && LooksEmpty(s.fieldWrites)
  }

  predicate AnyCorrupt(entries: Entries) {
    exists i :: 0 <= i < |entries| && LooksCorrupt(entries[i].1)
  }

  function AddReloaded(parsed: S.Store, entries: Entries): S.Store
    decreases |entries|
  {
    if entries == [] then parsed
    else AddReloaded(S.Add(parsed, entries[0].0, Reloaded(entries[0].1)), entries[1..])
  }

  lemma {:induction false} LinesRoundTrip(order: NameOrder, entries: Entries, parsed: S.Store)
    requires Enumerates(order) && AllRepresentable(entries)
    ensures ParseLines(Split(Body(order, entries), '\n'), parsed) ==
              if AnyCorrupt(entries) then None else Some(AddReloaded(parsed, entries))
    decreases |entries|
  {
    hide Enumerates, Representable, ValidKey, SaveLine, ParseLine, S.Add, Reloaded, LooksCorrupt;
    if entries == [] {
      assert Split("", '\n') == [""];
      assert [""][1..] == [];
    } else {
      var (key, s) := entries[0];
      var rest := Body(order, entries[1..]);
      EntryRoundTrip(order, entries);
      SplitFirst(SaveLine(order, key, s), rest, '\n');
      assert ([SaveLine(order, key, s)] + Split(rest, '\n'))[1..] == Split(rest, '\n');
      CorruptStep(entries);
      if !LooksCorrupt(s) {
        LinesRoundTrip(order, entries[1..], S.Add(parsed, key, Reloaded(s)));
      }
    }
  }

  lemma EntryRoundTrip(order: NameOrder, entries: Entries)
    requires Enumerates(order) && AllRepresentable(entries) && entries != []
    ensures var (key, s) := entries[0];
            && ParseLine(SaveLine(order, key, s)) == (if LooksCorrupt(s) then None else Some((key, Reloaded(s))))
            && Free(SaveLine(order, key, s), '\n') && SaveLine(order, key, s) != ""
    ensures AllRepresentable(entries[1..])
  {
    LineRoundTrip(order, entries[0].0, entries[0].1);
  }

  lemma CorruptStep(entries: Entries)
    requires entries != []
    ensures AnyCorrupt(entries) <==> LooksCorrupt(entries[0].1) || AnyCorrupt(entries[1..])
  {
    hide LooksCorrupt;
    forall i | 0 <= i < |entries[1..]| && LooksCorrupt(entries[1..][i].1)
      ensures AnyCorrupt(entries)
    {
      assert LooksCorrupt(entries[i + 1].1);
    }
    forall i | 0 < i < |entries| && LooksCorrupt(entries[i].1)
      ensures AnyCorrupt(entries[1..])
    {
      assert LooksCorrupt(entries[1..][i - 1].1);
    }
  }

  /** Entries under other keys leave a key as it was. */
  lemma {:induction false} OtherKeysKept(parsed: S.Store, entries: Entries, key: string)
    requires forall i :: 0 <= i < |entries| ==> entries[i].0 != key
    ensures var r := AddReloaded(parsed, entries);
            (key in r <==> key in parsed) && (key in parsed ==> r[key] == parsed[key])
    decreases |entries|
  {
    hide Reloaded;
    if entries != [] {
      OtherKeysKept(S.Add(parsed, entries[0].0, Reloaded(entries[0].1)), entries[1..], key);
    }
  }

  lemma {:induction false} EntryReloaded(parsed: S.Store, entries: Entries, n: nat)
    requires DistinctKeys(entries) && n < |entries| && entries[n].0 !in parsed
    ensures var r := AddReloaded(parsed, entries);
            entries[n].0 in r && r[entries[n].0] == Reloaded(entries[n].1)
    decreases |entries|
  {
    hide Reloaded;
    var next, rest := S.Add(parsed, entries[0].0, Reloaded(entries[0].1)), entries[1..];
    if n == 0 {
      forall i | 0 <= i < |rest|
        ensures rest[i].0 != entries[0].0
      {
        assert rest[i] == entries[i + 1];
      }
      OtherKeysKept(next, rest, entries[0].0);
    } else {
      RestDistinct(entries);
      assert rest[n - 1] == entries[n];
      EntryReloaded(next, rest, n - 1);
    }
  }

  lemma RestDistinct(entries: Entries)
    requires DistinctKeys(entries) && entries != []
    ensures DistinctKeys(entries[1..])
  {
    var rest := entries[1..];
    forall i, j | 0 <= i < j < |rest|
      ensures rest[i].0 != rest[j].0
    {
      assert rest[i] == entries[i + 1] && rest[j] == entries[j + 1];
    }
  }

  /** What a saved store reads back as. */
  lemma TextRoundTrip(order: NameOrder, entries: Entries)
    requires Enumerates(order) && AllRepresentable(entries)
    ensures ParseText(SaveText(order, entries)) == if AnyCorrupt(entries) then None else Some(AddReloaded(map[], entries))
  {
    hide Enumerates, AllRepresentable, Body;
    var text := SaveText(order, entries);
    SplitFirst(Header, Body(order, entries), '\n');
    assert Split(text, '\n')[1..] == Split(Body(order, entries), '\n');
    LinesRoundTrip(order, entries, map[]);
  }

  ghost predicate ReadsBack(order: NameOrder, entries: Entries, store: S.Store) {
    var r := ParseText(SaveText(order, entries));
    r.Some? && S.SameStore(r.value, store)
  }

  /**
   Parsing a saved store gives back a store that answers every accessor identically, exactly
   when every summary in it is one the format can carry.
   */
  lemma StoreRoundTrip(order: NameOrder, store: S.Store, entries: Entries)
    requires Enumerates(order) && Lists(entries, store) && AllRepresentable(entries)
    ensures ReadsBack(order, entries, store) <==> forall key :: key in store ==> Storable(store[key])
  {
    TextRoundTrip(order, entries);
    ReloadedEntries(store, entries);
    CorruptInStore(store, entries);
    hide Enumerates, ParseText, SaveText, AddReloaded, Reloaded, SameAnswers, Storable, LooksCorrupt, AllRepresentable, Lists, AnyCorrupt;
    var r := AddReloaded(map[], entries);
    forall key | key in store
      ensures Storable(store[key]) <==> !LooksCorrupt(store[key]) && SameAnswers(r[key], store[key])
    {
      RepresentableIn(store, entries, key);
      StorableExact(store[key]);
    }
  }

  lemma RepresentableIn(store: S.Store, entries: Entries, key: string)
    requires Lists(entries, store) && AllRepresentable(entries) && key in store
    ensures Representable(store[key])
  {
    hide Representable, ValidKey;
    var i :| 0 <= i < |entries| && entries[i] == (key, store[key]);
  }

  lemma ReloadedEntries(store: S.Store, entries: Entries)
    requires Lists(entries, store)
    ensures var r := AddReloaded(map[], entries);
            r.Keys == store.Keys && forall key :: key in store ==> r[key] == Reloaded(store[key])
  {
    hide Reloaded, AddReloaded, DistinctKeys;
    var r := AddReloaded(map[], entries);
    forall key
      ensures key in r <==> key in store
      ensures key in store ==> r[key] == Reloaded(store[key])
    {
      if key in store {
        var i :| 0 <= i < |entries| && entries[i] == (key, store[key]);
        EntryReloaded(map[], entries, i);
      } else {
        OtherKeysKept(map[], entries, key);
      }
    }
  }

  lemma CorruptInStore(store: S.Store, entries: Entries)
    requires Lists(entries, store)
    ensures AnyCorrupt(entries) <==> exists key :: key in store && LooksCorrupt(store[key])
  {
    hide LooksCorrupt;
    forall key | key in store && LooksCorrupt(store[key])
      ensures AnyCorrupt(entries)
    {
      var i :| 0 <= i < |entries| && entries[i] == (key, store[key]);
      assert LooksCorrupt(entries[i].1);
    }
  }

  lemma StorableExact(s: Summary)
    requires Representable(s)
    ensures Storable(s) <==> !LooksCorrupt(s) && SameAnswers(Reloaded(s), s)
  {
    ReloadedAnswers(s);
  }

  // --- What parsing accepts can be saved again ---

  /** The summaries a file yields: filled columns and everything the format can carry. */
  predicate Loaded(s: Summary) {
    && WellFormed(s, |s.params|) && Storable(s)
    && s.nullCondParam <= INT_MAX && s.zeroFromParam <= INT_MAX && s.nullFromParam <= INT_MAX && s.returnAliasParam <= INT_MAX
    && forall i :: 0 <= i < |s.fieldWrites| ==> ValidFields(s.fieldWrites[i])
  }

  lemma {:induction false} ParseNamesExact(names: seq<string>, seen: set<string>)
    requires ParseNames(names, seen).Some?
    ensures var r := ParseNames(names, seen).value;
            && (forall x :: x in r <==> x in seen || x in names)
            && (forall x :: x in names ==> ValidName(x) && x !in seen)
            && |r| == |seen| + |names|
    decreases |names|
  {
    if names != [] {
      assert names == [names[0]] + names[1..];
      ParseNamesExact(names[1..], seen + {names[0]});
    }
  }

  lemma {:induction false} JoinSplit(s: string, sep: char)
    ensures Join(Split(s, sep), sep) == s
  {
    if s != "" {
      JoinSplit(s[1..], sep);
      var rest := Split(s[1..], sep);
      assert s == [s[0]] + s[1..];
      if s[0] != sep && |rest| > 1 {
        assert Split(s, sep)[1..] == rest[1..];
        assert [s[0]] + (rest[0] + ([sep] + Join(rest[1..], sep))) == ([s[0]] + rest[0]) + ([sep] + Join(rest[1..], sep));
      }
    }
  }

  lemma ParseFieldSetValid(s: string)
    requires ParseFieldSet(s).Some?
    ensures ValidFields(ParseFieldSet(s).value)
    ensures ParseFieldSet(s).value == FieldSet(true, {"-"}) ==> s == "-"
  {
    if s != "?" && s != "!" {
      var names := Split(s, ',');
      ParseNamesExact(names, {});
      JoinSplit(s, ',');
      if ParseFieldSet(s).value.fields == {"-"} {
        assert |names| == 1;
        assert names[0] in names;
        assert names == ["-"];
      }
    }
  }

  lemma {:induction false} ParseFieldSetsValid(parts: seq<string>)
    requires ParseFieldSets(parts).Some?
    ensures |ParseFieldSets(parts).value| == |parts|
    ensures forall i :: 0 <= i < |parts| ==> ValidFields(ParseFieldSets(parts).value[i])
    ensures |parts| == 1 && LooksEmpty(ParseFieldSets(parts).value) ==> parts[0] == "-"
  {
    hide ParseFieldSet, ValidFields;
    if parts != [] {
      ParseFieldSetValid(parts[0]);
      ParseFieldSetsValid(parts[1..]);
    }
  }

  lemma ParseFieldWritesValid(s: string, n: nat)
    requires ParseFieldWrites(s, n).Some?
    ensures var r := ParseFieldWrites(s, n).value;
            |r| == n && (forall i :: 0 <= i < n ==> ValidFields(r[i])) && !LooksEmpty(r)
  {
    hide ParseFieldSets, ValidFields;
    if n > 0 {
      ParseFieldSetsValid(Split(s, ';'));
      JoinSplit(s, ';');
    }
  }

  lemma ParseReturnsLoaded(fields: seq<string>)
    requires |fields| == 15 && ParseReturns(fields).Some?
    ensures Loaded(ParseReturns(fields).value) && ParseReturns(fields).value.params == []
  {
    hide ReadInteger, Split, ParseChar;
  }

  lemma ParseParamsLoaded(fields: seq<string>, s: Summary)
    requires |fields| == 15 && Loaded(s) && ParseParams(fields, s).Some?
    ensures Loaded(ParseParams(fields, s).value)
  {
    var r := ParseParams(fields, s).value;
    var n := |r.params|;
    ParseColumnLength(fields[8], n, PreconditionOf);
    ParseColumnLength(fields[9], n, PostconditionOf);
    ParseColumnLength(fields[10], n, AccessOf);
    ParseColumnLength(fields[11], n, OwnershipOf);
    ParseColumnLength(fields[14], n, AllocatorSizeOf);
    ParseFieldWritesValid(fields[13], n);
    hide ParseColumn, ParseFieldWrites, DecodeAll, ValidFields;
  }

  lemma ParseLineLoaded(line: string)
    requires ParseLine(line).Some? && Free(line, '\n')
    ensures var (key, s) := ParseLine(line).value; ValidKey(key) && Loaded(s)
  {
    hide ParseReturns, ParseParams, Loaded;
    var fields := Split(line, '\t');
    ParseReturnsLoaded(fields);
    ParseParamsLoaded(fields, ParseReturns(fields).value);
    SplitPartsFree(line, '\t');
    PartsKeepFree(line, '\t', '\n');
  }

  lemma {:induction false} PartsKeepFree(s: string, sep: char, c: char)
    requires Free(s, c)
    ensures forall i :: 0 <= i < |Split(s, sep)| ==> Free(Split(s, sep)[i], c)
  {
    if s != "" {
      PartsKeepFree(s[1..], sep, c);
    }
  }

  /** Merging two lines of one key keeps the store saveable, whatever their parameter counts. */
  lemma MergeLoaded(a: Summary, b: Summary)
    requires Loaded(a) && Loaded(b)
    ensures Loaded(Merge(a, b))
  {
    var r := Merge(a, b);
    forall i | 0 <= i < |r.fieldWrites|
      ensures ValidFields(r.fieldWrites[i])
    {
      assert r.fieldWrites[i] == MergeFieldSets(a.fieldWrites[i], b.fieldWrites[i]);
    }
    hide ValidFields;
    MergeNotCorrupt(a, b);
  }

  lemma MergeNotCorrupt(a: Summary, b: Summary)
    requires WellFormed(a, |a.params|) && WellFormed(b, |b.params|) && !LooksCorrupt(a) && !LooksCorrupt(b)
    ensures !LooksCorrupt(Merge(a, b))
  {
    if |a.params| == |b.params| == 1 {
      UnionSingleton(a.fieldWrites[0].fields, b.fieldWrites[0].fields, "-");
    }
  }

  lemma UnionSingleton(x: set<string>, y: set<string>, e: string)
    ensures x + y == {e} ==> x == {e} || y == {e}
  {
    if x + y == {e} {
      assert e in x || e in y;
      if e in x {
        assert x == {e};
      } else {
        assert y == {e};
      }
    }
  }

  predicate LoadedStore(store: S.Store) {
    forall key :: key in store ==> ValidKey(key) && Loaded(store[key])
  }

  lemma {:induction false} ParseLinesLoaded(lines: seq<string>, parsed: S.Store)
    requires LoadedStore(parsed) && ParseLines(lines, parsed).Some? && forall i :: 0 <= i < |lines| ==> Free(lines[i], '\n')
    ensures LoadedStore(ParseLines(lines, parsed).value)
    decreases |lines|
  {
    hide ParseLine, Merge, Loaded;
    if lines != [] {
      if lines[0] == "" {
        ParseLinesLoaded(lines[1..], parsed);
      } else {
        var (key, s) := ParseLine(lines[0]).value;
        ParseLineLoaded(lines[0]);
        if key in parsed {
          MergeLoaded(parsed[key], s);
        }
        ParseLinesLoaded(lines[1..], S.Add(parsed, key, s));
      }
    }
  }

  lemma LoadedRepresentable(s: Summary)
    requires Loaded(s)
    ensures Representable(s) && Storable(s)
  {
  }

  /** Whatever text was accepted, saving its store and parsing again changes no answer. */
  lemma AcceptedTextSavesAndReloads(text: string, order: NameOrder, entries: Entries)
    requires Enumerates(order) && ParseText(text).Some? && Lists(entries, ParseText(text).value)
    ensures ReadsBack(order, entries, ParseText(text).value)
  {
    hide Enumerates, Lists, ParseLines, ReadsBack, Loaded, Representable, Storable, ValidKey;
    var lines, store := Split(text, '\n'), ParseText(text).value;
    SplitPartsFree(text, '\n');
    ParseLinesLoaded(lines[1..], map[]);
    forall key | key in store
      ensures Representable(store[key]) && Storable(store[key])
    {
      LoadedRepresentable(store[key]);
    }
    EntriesRepresentable(entries, store);
    StoreRoundTrip(order, store, entries);
  }

  lemma EntriesRepresentable(entries: Entries, store: S.Store)
    requires Lists(entries, store) && forall key :: key in store ==> ValidKey(key) && Representable(store[key])
    ensures AllRepresentable(entries)
  {
    hide ValidKey, Representable;
  }

  // --- The parsing loops ---

  method DecodeLoop<T>(s: string, fromChar: char -> Option<T>) returns (r: Option<seq<T>>)
    ensures r == DecodeAll(s, fromChar)
  {
    var values: seq<T> := [];
    var rest := s;
    PrependEnds(values, DecodeAll(s, fromChar));
    while rest != ""
      invariant DecodeAll(s, fromChar) == Prepend(values, DecodeAll(rest, fromChar))
      decreases |rest|
    {
      var v := fromChar(rest[0]);
      if v.None? {
        return None;
      }
      PrependStep(values, v.value, DecodeAll(rest[1..], fromChar));
      values, rest := values + [v.value], rest[1..];
    }
    PrependEnds(values, DecodeAll(rest, fromChar));
    return Some(values);
  }

  function Prepend<T>(values: seq<T>, rest: Option<seq<T>>): Option<seq<T>> {
    match rest case None => None case Some(more) => Some(values + more)
  }

  lemma PrependEnds<T>(values: seq<T>, rest: Option<seq<T>>)
    ensures Prepend([], rest) == rest && Prepend(values, Some([])) == Some(values)
  {
    assert values + [] == values;
    assert rest.Some? ==> [] + rest.value == rest.value;
  }

  lemma PrependStep<T>(values: seq<T>, v: T, rest: Option<seq<T>>)
    ensures Prepend(values, Prepend([v], rest)) == Prepend(values + [v], rest)
  {
    if rest.Some? {
      assert values + ([v] + rest.value) == (values + [v]) + rest.value;
    }
  }

  method NamesLoop(part: string) returns (r: Option<FieldSet>)
    ensures r == ParseFieldSet(part)
  {
    if part == "?" {
      return Some(UnknownFields);
    }
    if part == "!" {
      return Some(FieldSet(true, {}));
    }
    var names := SplitLoop(part, ',');
    var fields: set<string> := {};
    for i := 0 to |names|
      invariant ParseNames(names[i..], fields) == ParseNames(names, {})
    {
      assert names[i..][0] == names[i] && names[i..][1..] == names[i + 1..];
      if !ValidName(names[i]) || names[i] in fields {
        return None;
      }
      fields := fields + {names[i]};
    }
    return Some(FieldSet(true, fields));
  }

  method FieldSetsLoop(encoded: string, n: nat) returns (r: Option<seq<FieldSet>>)
    ensures r == ParseFieldWrites(encoded, n)
  {
    hide ParseFieldSet;
    if (encoded == "-") != (n == 0) {
      return None;
    }
    if n == 0 {
      return Some([]);
    }
    var rest := SplitLoop(encoded, ';');
    if |rest| != n {
      return None;
    }
    var sets: seq<FieldSet> := [];
    ghost var parts := rest;
    PrependEnds(sets, ParseFieldSets(rest));
    while rest != []
      invariant ParseFieldSets(parts) == Prepend(sets, ParseFieldSets(rest))
      decreases |rest|
    {
      var one := NamesLoop(rest[0]);
      if one.None? {
        return None;
      }
      PrependStep(sets, one.value, ParseFieldSets(rest[1..]));
      sets, rest := sets + [one.value], rest[1..];
    }
    PrependEnds(sets, ParseFieldSets(rest));
    return Some(sets);
  }

  method ColumnLoop<T>(s: string, n: nat, fromChar: char -> Option<T>) returns (r: Option<seq<T>>)
    ensures r == ParseColumn(s, n, fromChar)
  {
    if (s == "-") != (n == 0) {
      return None;
    }
    if n == 0 {
      return Some([]);
    }
    if |s| != n {
      return None;
    }
    r := DecodeLoop(s, fromChar);
  }

  method ParamsLoop(fields: seq<string>, partial: Summary) returns (r: Option<Summary>)
    requires |fields| == 15
    ensures r == ParseParams(fields, partial)
  {
    hide ParseColumn, ParseFieldWrites, DecodeAll;
    var params: Option<seq<Effect>> := Some([]);
    if fields[2] == "" {
      return None;
    }
    if fields[2] != "-" {
      params := DecodeLoop(fields[2], EffectOf);
    }
    if params.None? {
      return None;
    }
    var n := |params.value|;
    var pre := ColumnLoop(fields[8], n, PreconditionOf);
    var post := ColumnLoop(fields[9], n, PostconditionOf);
    var access := ColumnLoop(fields[10], n, AccessOf);
    var owner := ColumnLoop(fields[11], n, OwnershipOf);
    var writes := FieldSetsLoop(fields[13], n);
    var sizes := ColumnLoop(fields[14], n, AllocatorSizeOf);
    if pre.None? || post.None? || access.None? || owner.None? || writes.None? || sizes.None? {
      return None;
    }
    return Some(partial.(params := params.value, preconditions := pre.value, postconditions := post.value,
                         accesses := access.value, ownerships := owner.value, fieldWrites := writes.value,
                         allocatorSizes := sizes.value));
  }

  /** One line of the file. */
  method LineLoop(line: string) returns (r: Option<(string, Summary)>)
    ensures r == ParseLine(line)
  {
    hide ParseReturns, ParseParams;
    var fields := SplitLoop(line, '\t');
    if |fields| != 15 || fields[0] == "" {
      return None;
    }
    var partial := ParseReturns(fields);
    if partial.None? {
      return None;
    }
    var s := ParamsLoop(fields, partial.value);
    if s.None? {
      return None;
    }
    return Some((fields[0], s.value));
  }

  class Parsed {
    var store: S.Store

    constructor ()
      ensures store == map[]
    {
      store := map[];
    }

    /** parseSummaryFile: nothing is handed over until every line was accepted. */
    method ParseFile(text: string) returns (ok: bool)
      modifies this
      ensures ok == ParseText(text).Some?
      ensures store == if ok then ParseText(text).value else old(store)
    {
      hide ParseLine;
      var lines := SplitLoop(text, '\n');
      if lines[0] != Header {
        return false;
      }
      var global := new S.Global();
      for i := 1 to |lines|
        invariant ParseLines(lines[i..], global.store) == ParseText(text)
        invariant store == old(store)
      {
        assert lines[i..][0] == lines[i] && lines[i..][1..] == lines[i + 1..];
        if lines[i] != "" {
          var entry := LineLoop(lines[i]);
          if entry.None? {
            return false;
          }
          global.AddOne(entry.value.0, entry.value.1);
        }
      }
      store := global.store;
      return true;
    }
  }

  /** The writing loop of saveGlobal. */
  method SaveLoop(order: NameOrder, entries: Entries) returns (text: string)
    ensures text == SaveText(order, entries)
  {
    hide SaveLine;
    text := Header + ['\n'];
    for i := 0 to |entries|
      invariant text + Body(order, entries[i..]) == SaveText(order, entries)
    {
      assert entries[i..][0] == entries[i] && entries[i..][1..] == entries[i + 1..];
      var line := SaveLine(order, entries[i].0, entries[i].1);
      assert text + (line + (['\n'] + Body(order, entries[i + 1..]))) == ((text + line) + ['\n']) + Body(order, entries[i + 1..]);
      text := text + line + ['\n'];
    }
  }
}
