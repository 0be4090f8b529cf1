/** Ordinal string operations of the .NET base library, as the analysis code uses
    them: ASCII case folding for the `OrdinalIgnoreCase` comparisons, substring
    search, `Split`, `Trim` and the digit parsing of `int.TryParse`. */
module Text {
  import opened Wrappers

  /** `int.MaxValue`. */
  const Int32Max: int := 0x7FFF_FFFF

  // ---------------------------------------------------------------- case folding

  function ToLowerAscii(c: char): char {
    if 'A' <= c <= 'Z' then (c as int - 'A' as int + 'a' as int) as char else c
  }

  /** Case folding used by every case-insensitive comparison of the model. */
  function Lower(s: string): (r: string)
    ensures |r| == |s|
    ensures forall i :: 0 <= i < |s| ==> r[i] == ToLowerAscii(s[i])
  {
    if s == [] then [] else [ToLowerAscii(s[0])] + Lower(s[1..])
  }

  /** Folding twice is folding once. */
  lemma LowerIdempotent(s: string)
    ensures Lower(Lower(s)) == Lower(s)
  {
    var r := Lower(s);
    forall i | 0 <= i < |s| ensures Lower(r)[i] == r[i] {
      assert r[i] == ToLowerAscii(s[i]);
    }
  }

  /** `a.Equals(b, StringComparison.OrdinalIgnoreCase)`. */
  predicate EqualsIgnoreCase(a: string, b: string) {
    Lower(a) == Lower(b)
  }

  // ---------------------------------------------------------------- prefixes, suffixes, search

  predicate IsPrefix(p: string, s: string) {
    |p| <= |s| && s[..|p|] == p
  }

  predicate IsSuffix(t: string, s: string) {
    |t| <= |s| && s[|s| - |t|..] == t
  }

  /** `s.StartsWith(p, StringComparison.OrdinalIgnoreCase)`. */
  predicate StartsWithIgnoreCase(s: string, p: string) {
    IsPrefix(Lower(p), Lower(s))
  }

  /** `s.EndsWith(t, StringComparison.OrdinalIgnoreCase)`. */
  predicate EndsWithIgnoreCase(s: string, t: string) {
    IsSuffix(Lower(t), Lower(s))
  }

  /** `t` occurs in `s` starting at offset `i`. */
  predicate OccursAt(s: string, t: string, i: int) {
    0 <= i && i + |t| <= |s| && s[i..i + |t|] == t
  }

  /** `s.Contains(t)` with ordinal comparison. */
  predicate Contains(s: string, t: string) {
    exists i :: 0 <= i <= |s| - |t| && OccursAt(s, t, i)
  }

  /** `s.Contains(t, StringComparison.OrdinalIgnoreCase)`. */
  predicate ContainsIgnoreCase(s: string, t: string) {
    Contains(Lower(s), Lower(t))
  }

  /** `s.IndexOf(t, from, StringComparison.Ordinal)`: the least offset at or after
      `from` where `t` occurs, or -1 when there is none (`IndexOfSpec`). */
  function IndexOf(s: string, t: string, from: nat): (r: int)
    requires from <= |s|
    ensures r == -1 || (from <= r && r + |t| <= |s|)
    decreases |s| - from
  {
    if from + |t| > |s| then -1
    else if s[from..from + |t|] == t then from
    else IndexOf(s, t, from + 1)
  }

  /** `IndexOf` finds an occurrence, and there is none before it. */
  lemma {:induction false} IndexOfSpec(s: string, t: string, from: nat)
    requires from <= |s|
    ensures IndexOf(s, t, from) == -1 || OccursAt(s, t, IndexOf(s, t, from))
    ensures forall i :: from <= i && (IndexOf(s, t, from) == -1 || i < IndexOf(s, t, from)) ==> !OccursAt(s, t, i)
    decreases |s| - from
  {
    if from + |t| <= |s| && s[from..from + |t|] != t {
      IndexOfSpec(s, t, from + 1);
    }
  }

  /** Number of occurrences of `c` in `s`. */
  function CountChar(s: string, c: char): nat {
    if s == [] then 0 else (if s[0] == c then 1 else 0) + CountChar(s[1..], c)
  }

  lemma {:induction false} CountCharAppend(a: string, b: string, c: char)
    ensures CountChar(a + b, c) == CountChar(a, c) + CountChar(b, c)
  {
    if a == [] {
      assert a + b == b;
    } else {
      assert (a + b)[1..] == a[1..] + b;
      CountCharAppend(a[1..], b, c);
    }
  }

  lemma {:induction false} CountCharAbsent(s: string, c: char)
    requires forall i :: 0 <= i < |s| ==> s[i] != c
    ensures CountChar(s, c) == 0
  {
    if s != [] {
      CountCharAbsent(s[1..], c);
    }
  }

  // ---------------------------------------------------------------- Split and Join

  /** `s.Split(seps)` without options: every separator character ends a part,
      so empty parts are kept and there is always at least one part. */
  function Split(s: string, seps: set<char>): (parts: seq<string>)
    ensures |parts| >= 1
    decreases |s|
  {
    if s == [] then [[]]
    else
      var rest := Split(s[1..], seps);
      if s[0] in seps then [[]] + rest
      else [[s[0]] + rest[0]] + rest[1..]
  }

  /** No part holds a separator. */
  lemma {:induction false} SplitHasNoSeparator(s: string, seps: set<char>)
    ensures forall k, i :: 0 <= k < |Split(s, seps)| && 0 <= i < |Split(s, seps)[k]| ==> Split(s, seps)[k][i] !in seps
    decreases |s|
  {
    if s != [] {
      var rest := Split(s[1..], seps);
      SplitHasNoSeparator(s[1..], seps);
      var parts := Split(s, seps);
      forall k, i | 0 <= k < |parts| && 0 <= i < |parts[k]| ensures parts[k][i] !in seps {
        if s[0] in seps {
          assert parts == [[]] + rest;
          if k > 0 { assert parts[k] == rest[k - 1]; }
        } else {
          assert parts == [[s[0]] + rest[0]] + rest[1..];
          if k == 0 {
            if i > 0 { assert parts[0][i] == rest[0][i - 1]; }
          } else {
            assert parts[k] == rest[k];
          }
        }
      }
    }
  }

  /** `string.Join(sep, parts)`. */
  function Join(parts: seq<string>, sep: char): string {
    if |parts| == 0 then []
    else if |parts| == 1 then parts[0]
    else parts[0] + [sep] + Join(parts[1..], sep)
  }

  /** Splitting on one character and joining with it gives the input back. */
  lemma {:induction false} JoinSplit(s: string, c: char)
    ensures Join(Split(s, {c}), c) == s
    decreases |s|
  {
    if s != [] {
      var rest := Split(s[1..], {c});
      JoinSplit(s[1..], c);
      if s[0] == c {
        assert Split(s, {c}) == [[]] + rest;
        assert ([[]] + rest)[1..] == rest;
      } else {
        var parts := Split(s, {c});
        assert parts == [[s[0]] + rest[0]] + rest[1..];
        if |rest| == 1 {
          assert Join(parts, c) == [s[0]] + rest[0];
        } else {
          assert parts[1..] == rest[1..];
          assert Join(rest, c) == rest[0] + [c] + Join(rest[1..], c);
          assert Join(parts, c) == [s[0]] + rest[0] + [c] + Join(rest[1..], c);
        }
      }
    }
  }

  /** Joining a list with one more part appends the separator and the part. */
  lemma {:induction false} JoinSnoc(ps: seq<string>, p: string, c: char)
    requires |ps| >= 1
    ensures Join(ps + [p], c) == Join(ps, c) + [c] + p
  {
    if |ps| == 1 {
      assert (ps + [p])[1..] == [p];
    } else {
      assert (ps + [p])[1..] == ps[1..] + [p];
      JoinSnoc(ps[1..], p, c);
    }
  }

  lemma JoinTwo(a: string, b: string, c: char)
    ensures Join([a, b], c) == a + [c] + b
  {
    assert [a, b][1..] == [b];
  }

  lemma JoinThree(a: string, b: string, d: string, c: char)
    ensures Join([a, b, d], c) == a + [c] + b + [c] + d
  {
    assert [a, b, d][1..] == [b, d];
    JoinTwo(b, d, c);
  }

  /** A piece without separators followed by more text stays glued to the first part. */
  lemma {:induction false} SplitGluesPrefix(a: string, rest: string, seps: set<char>)
    requires forall i :: 0 <= i < |a| ==> a[i] !in seps
    ensures Split(a + rest, seps) == [a + Split(rest, seps)[0]] + Split(rest, seps)[1..]
  {
    var sr := Split(rest, seps);
    if a == [] {
      assert a + rest == rest;
      assert a + sr[0] == sr[0];
      assert [sr[0]] + sr[1..] == sr;
    } else {
      assert (a + rest)[0] == a[0];
      assert (a + rest)[1..] == a[1..] + rest;
      SplitGluesPrefix(a[1..], rest, seps);
      var r := Split(a[1..] + rest, seps);
      assert r[0] == a[1..] + sr[0] && r[1..] == sr[1..];
      assert Split(a + rest, seps) == [[a[0]] + r[0]] + r[1..];
      assert [a[0]] + (a[1..] + sr[0]) == a + sr[0];
    }
  }

  /** Parts free of separators, joined with a separator, split back into themselves. */
  lemma {:induction false} SplitJoin(parts: seq<string>, c: char, seps: set<char>)
    requires |parts| >= 1 && c in seps
    requires forall k, i :: 0 <= k < |parts| && 0 <= i < |parts[k]| ==> parts[k][i] !in seps
    ensures Split(Join(parts, c), seps) == parts
  {
    if |parts| == 1 {
      SplitGluesPrefix(parts[0], [], seps);
      assert parts[0] + [] == parts[0];
    } else {
      var tail := Join(parts[1..], c);
      SplitJoin(parts[1..], c, seps);
      assert Join(parts, c) == parts[0] + ([c] + tail);
      SplitGluesPrefix(parts[0], [c] + tail, seps);
      assert ([c] + tail)[1..] == tail;
      var ct := Split([c] + tail, seps);
      assert ct == [[]] + parts[1..];
      assert ct[0] == [] && ct[1..] == parts[1..];
      assert parts[0] + [] == parts[0];
      assert [parts[0]] + parts[1..] == parts;
    }
  }

  // ---------------------------------------------------------------- Trim

  /** `char.IsWhiteSpace`: the separators, tab to carriage return, next line
      and no-break space, which `string.Trim()` removes. */
  predicate IsWhiteSpace(c: char) {
    c == ' ' || '\t' <= c <= '\r' || c == '\U{0085}' || c == '\U{00A0}' || c == '\U{1680}'
    || '\U{2000}' <= c <= '\U{200A}' || c == '\U{2028}' || c == '\U{2029}' || c == '\U{202F}'
    || c == '\U{205F}' || c == '\U{3000}'
  }

  function TrimStart(s: string, drop: char -> bool): string {
    if s != [] && drop(s[0]) then TrimStart(s[1..], drop) else s
  }

  function TrimEnd(s: string, drop: char -> bool): string {
    if s != [] && drop(s[|s| - 1]) then TrimEnd(s[..|s| - 1], drop) else s
  }

  /** `s.Trim()` for `drop == IsWhiteSpace`, `s.Trim(c)` for a test against one
      character; `TrimSpec` states what it keeps. */
  function Trim(s: string, drop: char -> bool): string {
    TrimEnd(TrimStart(s, drop), drop)
  }

  lemma {:induction false} TrimStartSpec(s: string, drop: char -> bool)
    ensures IsSuffix(TrimStart(s, drop), s)
    ensures TrimStart(s, drop) == [] || !drop(TrimStart(s, drop)[0])
    ensures forall i :: 0 <= i < |s| - |TrimStart(s, drop)| ==> drop(s[i])
  {
    if s != [] && drop(s[0]) {
      var t := TrimStart(s[1..], drop);
      TrimStartSpec(s[1..], drop);
      assert TrimStart(s, drop) == t;
      assert s[|s| - |t|..] == s[1..][|s| - 1 - |t|..];
      forall i | 0 <= i < |s| - |t| ensures drop(s[i]) {
        if i > 0 {
          assert s[i] == s[1..][i - 1];
        }
      }
    }
  }

  lemma {:induction false} TrimEndSpec(s: string, drop: char -> bool)
    ensures IsPrefix(TrimEnd(s, drop), s)
    ensures TrimEnd(s, drop) == [] || !drop(TrimEnd(s, drop)[|TrimEnd(s, drop)| - 1])
    ensures forall i :: |TrimEnd(s, drop)| <= i < |s| ==> drop(s[i])
  {
    if s != [] && drop(s[|s| - 1]) {
      var front := s[..|s| - 1];
      var t := TrimEnd(front, drop);
      TrimEndSpec(front, drop);
      assert TrimEnd(s, drop) == t;
      assert s[..|t|] == front[..|t|];
      forall i | |t| <= i < |s| ensures drop(s[i]) {
        if i < |front| {
          assert s[i] == front[i];
        }
      }
    }
  }

  /** `r` is `s` with `i` dropped characters cut from the front and the rest of
      the characters beyond `r` (all dropped ones) cut from the back. */
  predicate TrimmedAt(s: string, r: string, drop: char -> bool, i: int) {
    0 <= i && i + |r| <= |s| && r == s[i..i + |r|]
    && (forall j :: 0 <= j < i ==> drop(s[j]))
    && (forall j :: i + |r| <= j < |s| ==> drop(s[j]))
  }

  /** `Trim` cuts only dropped characters, from the two ends, and what it keeps
      neither starts nor ends with one. */
  lemma TrimSpec(s: string, drop: char -> bool)
    ensures exists i :: TrimmedAt(s, Trim(s, drop), drop, i)
    ensures Trim(s, drop) == [] || (!drop(Trim(s, drop)[0]) && !drop(Trim(s, drop)[|Trim(s, drop)| - 1]))
  {
    var t := TrimStart(s, drop);
    TrimStartSpec(s, drop);
    TrimEndSpec(t, drop);
    TrimmedAtOfParts(s, t, TrimEnd(t, drop), drop);
    assert TrimmedAt(s, Trim(s, drop), drop, |s| - |t|);
  }

  /** A prefix `r` of a suffix `t` of `s`, where only dropped characters lie
      outside, is `s` trimmed at the start of `t`. */
  lemma TrimmedAtOfParts(s: string, t: string, r: string, drop: char -> bool)
    requires IsSuffix(t, s) && IsPrefix(r, t)
    requires forall i :: 0 <= i < |s| - |t| ==> drop(s[i])
    requires forall i :: |r| <= i < |t| ==> drop(t[i])
    requires t == [] || !drop(t[0])
    requires r == [] || !drop(r[|r| - 1])
    ensures TrimmedAt(s, r, drop, |s| - |t|)
    ensures r == [] || (!drop(r[0]) && !drop(r[|r| - 1]))
  {
    var i := |s| - |t|;
    assert r == s[i..i + |r|];
    forall j | i + |r| <= j < |s| ensures drop(s[j]) {
      assert s[j] == t[j - i];
    }
  }

  // ---------------------------------------------------------------- digits

  predicate IsDigit(c: char) {
    '0' <= c <= '9'
  }

  predicate AllDigits(s: string) {
    forall i :: 0 <= i < |s| ==> IsDigit(s[i])
  }

  /** The first code point of each run of ten decimal digits (Unicode
      category Nd) beyond ASCII within the Basic Multilingual Plane, where
      every UTF-16 `char` lies: Arabic-Indic, Devanagari, Thai, full-width
      and the other scripts. */
  const OtherDigitZeros: set<int> := {
    0x660, 0x6F0, 0x7C0, 0x966, 0x9E6, 0xA66, 0xAE6, 0xB66, 0xBE6, 0xC66, 0xCE6, 0xD66, 0xDE6,
    0xE50, 0xED0, 0xF20, 0x1040, 0x1090, 0x17E0, 0x1810, 0x1946, 0x19D0, 0x1A80, 0x1A90, 0x1B50,
    0x1BB0, 0x1C40, 0x1C50, 0xA620, 0xA8D0, 0xA900, 0xA9D0, 0xA9F0, 0xAA50, 0xABF0, 0xFF10}

  /** `char.IsDigit`: a decimal digit of any script, which is wider than the
      ASCII digits `int.TryParse` reads. */
  predicate IsDecimalDigit(c: char) {
    IsDigit(c) || ('\U{0660}' <= c && exists z :: z in OtherDigitZeros && z <= c as int < z + 10)
  }

  predicate AllDecimalDigits(s: string) {
    forall i :: 0 <= i < |s| ==> IsDecimalDigit(s[i])
  }

  /** A run of zero digits. */
  predicate AllZeros(z: string) {
    forall i :: 0 <= i < |z| ==> z[i] == '0'
  }

  /** Decimal value of a digit string (empty gives 0). */
  function DigitsValue(s: string): nat
    requires AllDigits(s)
  {
    if s == [] then 0 else DigitsValue(s[..|s| - 1]) * 10 + (s[|s| - 1] as int - '0' as int)
  }

  /** `int.TryParse` on a digit string: fails on the empty string, on any
      character other than the ASCII digits and on values above `int.MaxValue`. */
  function ParseInt(s: string): (r: Option<int>)
    ensures r.Some? <==> s != [] && AllDigits(s) && DigitsValue(s) <= Int32Max
    ensures r.Some? ==> r.value == DigitsValue(s) && 0 <= r.value <= Int32Max
  {
    if s != [] && AllDigits(s) && DigitsValue(s) <= Int32Max then Some(DigitsValue(s)) else None
  }

  /** The `out` value of `int.TryParse`: the parsed number, or 0 on failure. */
  function ParseIntOrZero(s: string): (n: int)
    ensures 0 <= n <= Int32Max
    ensures ParseInt(s).None? ==> n == 0
    ensures ParseInt(s).Some? ==> n == ParseInt(s).value
  {
    ParseInt(s).GetOr(0)
  }

  /** `TakeWhile(char.IsDigit)`: the longest prefix of decimal digits of any script. */
  function LeadingDigits(s: string): (r: string)
    ensures IsPrefix(r, s) && AllDecimalDigits(r)
    ensures r == s || !IsDecimalDigit(s[|r|])
  {
    if s != [] && IsDecimalDigit(s[0]) then [s[0]] + LeadingDigits(s[1..]) else []
  }

  function DigitChar(d: nat): char
    requires d < 10
  {
    ('0' as int + d) as char
  }

  /** Decimal rendering of a natural number, without leading zeros. */
  function ShowNat(n: nat): (r: string)
    ensures r != [] && AllDigits(r)
    ensures |r| > 1 ==> r[0] != '0'
  {
    if n < 10 then [DigitChar(n)] else ShowNat(n / 10) + [DigitChar(n % 10)]
  }

  /** Reading back a rendered number gives the number. */
  lemma {:induction false} ShowNatValue(n: nat)
    ensures DigitsValue(ShowNat(n)) == n
  {
    if n >= 10 {
      ShowNatValue(n / 10);
      var s := ShowNat(n);
      assert s[..|s| - 1] == ShowNat(n / 10);
    }
  }

  /** Leading zeros do not change the value of a digit string. */
  lemma {:induction false} DigitsValueLeadingZeros(z: string, s: string)
    requires forall i :: 0 <= i < |z| ==> z[i] == '0'
    requires AllDigits(s)
    ensures AllDigits(z + s) && DigitsValue(z + s) == DigitsValue(s)
    decreases |z| + |s|
  {
    var zs := z + s;
    if s == [] {
      assert zs == z;
      if z != [] {
        DigitsValueLeadingZeros(z[..|z| - 1], []);
        assert z[..|z| - 1] + [] == z[..|z| - 1];
      }
    } else {
      assert zs[..|zs| - 1] == z + s[..|s| - 1];
      DigitsValueLeadingZeros(z, s[..|s| - 1]);
    }
  }

  /** `int.TryParse` reads back every rendered number within range. */
  lemma ParseShowNat(n: nat)
    requires n <= Int32Max
    ensures ParseInt(ShowNat(n)) == Some(n)
  {
    ShowNatValue(n);
  }

  /** A digit string without superfluous leading zeros is the rendering of its value. */
  lemma {:induction false} CanonicalDigits(t: string)
    requires AllDigits(t) && t != [] && (|t| == 1 || t[0] != '0')
    ensures t == ShowNat(DigitsValue(t))
  {
    var front := t[..|t| - 1];
    var d := t[|t| - 1] as int - '0' as int;
    if |t| == 1 {
      assert front == [];
    } else {
      CanonicalDigits(front);
      var m := DigitsValue(front);
      assert ShowNat(0) == "0";
      assert m != 0;
      assert DigitsValue(t) == m * 10 + d;
      assert ShowNat(m * 10 + d) == ShowNat(m) + [DigitChar(d)];
      assert t == front + [t[|t| - 1]];
    }
  }

  /** The number of leading zeros of `s`, keeping its last character. */
  function LeadingZeroCount(s: string): (k: nat)
    requires s != []
    ensures k < |s| && AllZeros(s[..k])
    ensures k == |s| - 1 || s[k] != '0'
  {
    if |s| > 1 && s[0] == '0' then 1 + LeadingZeroCount(s[1..]) else 0
  }

  /** Every non-empty digit string is some zeros followed by the rendering of its value. */
  lemma ZerosThenRendering(s: string)
    requires AllDigits(s) && s != []
    ensures exists z :: AllZeros(z) && s == z + ShowNat(DigitsValue(s))
  {
    var k := LeadingZeroCount(s);
    var z, t := s[..k], s[k..];
    assert s == z + t;
    assert AllDigits(t);
    DigitsValueLeadingZeros(z, t);
    CanonicalDigits(t);
    assert s == z + ShowNat(DigitsValue(s));
  }

  /** `int.TryParse` reads `n` exactly from the texts that render `n`, with
      any number of leading zeros, and only when `n` fits an `int`. */
  lemma ParseIntReadsRendering(s: string, n: nat)
    ensures ParseInt(s) == Some(n) <==> n <= Int32Max && exists z :: AllZeros(z) && s == z + ShowNat(n)
  {
    if ParseInt(s) == Some(n) {
      ZerosThenRendering(s);
    }
    if n <= Int32Max && exists z :: AllZeros(z) && s == z + ShowNat(n) {
      var z :| AllZeros(z) && s == z + ShowNat(n);
      DigitsValueLeadingZeros(z, ShowNat(n));
      ShowNatValue(n);
    }
  }
}
