/** Splitting and joining of separated text, and integers as strtoll reads them. */
module TextFormat {
  import opened Int64
  import opened Decimal

  predicate Free(s: string, c: char) {
    forall i :: 0 <= i < |s| ==> s[i] != c
  }

  function Split(s: string, sep: char): (r: seq<string>)
    ensures |r| > 0
  {
    if s == "" then [""]
    else if s[0] == sep then [""] + Split(s[1..], sep)
    else
      var rest := Split(s[1..], sep);
      [[s[0]] + rest[0]] + rest[1..]
  }

  function Join(parts: seq<string>, sep: char): string {
    if parts == [] then ""
    else if |parts| == 1 then parts[0]
    else parts[0] + ([sep] + Join(parts[1..], sep))
  }

  lemma {:induction false} SplitFirst(a: string, rest: string, sep: char)
    requires Free(a, sep)
    ensures Split(a + ([sep] + rest), sep) == [a] + Split(rest, sep)
  {
    var s := a + ([sep] + rest);
    if a == "" {
      assert s == [sep] + rest && s[1..] == rest;
    } else {
      assert s[1..] == a[1..] + ([sep] + rest);
      SplitFirst(a[1..], rest, sep);
      assert [a[0]] + a[1..] == a;
    }
  }

  lemma {:induction false} SplitWhole(a: string, sep: char)
    requires Free(a, sep)
    ensures Split(a, sep) == [a]
  {
    if a != "" {
      SplitWhole(a[1..], sep);
      assert [a[0]] + a[1..] == a;
    }
  }

  lemma {:induction false} SplitJoin(parts: seq<string>, sep: char)
    requires parts != [] && forall i :: 0 <= i < |parts| ==> Free(parts[i], sep)
    ensures Split(Join(parts, sep), sep) == parts
  {
    if |parts| == 1 {
      SplitWhole(parts[0], sep);
    } else {
      SplitFirst(parts[0], Join(parts[1..], sep), sep);
      SplitJoin(parts[1..], sep);
      assert parts == [parts[0]] + parts[1..];
    }
  }

  lemma {:induction false} SplitPartsFree(s: string, sep: char)
    ensures forall i :: 0 <= i < |Split(s, sep)| ==> Free(Split(s, sep)[i], sep)
  {
    if s != "" {
      SplitPartsFree(s[1..], sep);
    }
  }

  lemma {:induction false} JoinFree(parts: seq<string>, sep: char, c: char)
    requires c != sep && forall i :: 0 <= i < |parts| ==> Free(parts[i], c)
    ensures Free(Join(parts, sep), c)
  {
    if |parts| > 1 {
      JoinFree(parts[1..], sep, c);
    }
  }

  predicate IsBlank(c: char) {
    c == ' ' || '\t' <= c <= '\r'
  }

  function SkipBlanks(s: string): string {
    if s != "" && IsBlank(s[0]) then SkipBlanks(s[1..]) else s
  }

  /**
   std::strtoll over the whole text: leading blanks and a sign are allowed, the value must fit,
   and the empty text reads as zero because nothing is left unread.
   */
  function ReadInteger(s: string): Option<int> {
    if s == "" then Some(0)
    else
      var t := SkipBlanks(s);
      var digits := if t != "" && (t[0] == '-' || t[0] == '+') then t[1..] else t;
      var v := if t != "" && t[0] == '-' then -NatValue(digits) else NatValue(digits);
      if digits == "" || !Digits(digits) || !Fits(v) then None else Some(v)
  }

  lemma ReadIntegerRoundTrip(v: int)
    requires Fits(v)
    ensures ReadInteger(IntText(v)) == Some(v)
  {
    IntTextRoundTrip(v);
    var s := IntText(v);
    if v >= 0 {
      assert IsDigit(s[0]);
    }
  }

  lemma IntTextFree(v: int, c: char)
    requires !IsDigit(c) && c != '-'
    ensures Free(IntText(v), c)
  {
    IntTextRoundTrip(v);
  }

  const INT_MAX: int := 0x7FFF_FFFF

  /** static_cast<int> of a 64-bit value. */
  function ToInt32(v: int): int {
    (v + 0x8000_0000) % 0x1_0000_0000 - 0x8000_0000
  }

  lemma ToInt32Small(v: int)
    requires 0 <= v <= INT_MAX
    ensures ToInt32(v) == v
  {
  }

  lemma SplitStep(s: string, parts: seq<string>, start: nat, i: nat, sep: char)
    requires start <= i < |s| && s[i] == sep && Free(s[start..i], sep)
    ensures parts + Split(s[start..], sep) == (parts + [s[start..i]]) + Split(s[i + 1..], sep)
  {
    var a, rest := s[start..i], s[i + 1..];
    assert s[start..] == a + ([sep] + rest);
    SplitFirst(a, rest, sep);
    assert parts + ([a] + Split(rest, sep)) == (parts + [a]) + Split(rest, sep);
  }

  /** The cursor loop over separators. */
  method SplitLoop(s: string, sep: char) returns (parts: seq<string>)
    ensures parts == Split(s, sep)
  {
    hide Split;
    parts := [];
    var start := 0;
    var i := 0;
    while i < |s|
      invariant start <= i <= |s| && Free(s[start..i], sep)
      invariant parts + Split(s[start..], sep) == Split(s, sep)
    {
      if s[i] == sep {
        SplitStep(s, parts, start, i, sep);
        parts := parts + [s[start..i]];
        start := i + 1;
      } else {
        assert s[start..i + 1] == s[start..i] + [s[i]];
      }
      i := i + 1;
    }
    SplitWhole(s[start..i], sep);
    assert s[start..i] == s[start..];
    parts := parts + [s[start..]];
  }
}
