/**
 * String and value helpers shared by the theme model: PHP's `trim`,
 * `explode`/`implode`, `str_replace`, `strpos`, `empty`, `is_numeric` and
 * `intval` on the inputs the theme gives them, and decimal rendering of
 * integers.
 */
module Util {

  datatype Option<T> = None | Some(value: T)

  // ---------------------------------------------------------------------
  // Characters

  /** The characters PHP's `trim` removes by default. */
  predicate IsSpace(c: char) {
    c == ' ' || c == '\t' || c == '\n' || c == '\r' || c == '\0' || c as int == 11
  }

  /** ASCII lower-casing, as `stripos`/`/i` treat the ASCII letters. */
  function Lower(c: char): (r: char)
    ensures 'A' <= c <= 'Z' ==> r != c && 'a' <= r <= 'z'
    ensures !('A' <= c <= 'Z') ==> r == c
  {
    if 'A' <= c <= 'Z' then (c as int + 32) as char else c
  }

  function LowerStr(s: string): (r: string)
    ensures |r| == |s|
    ensures forall i :: 0 <= i < |s| ==> r[i] == Lower(s[i])
  {
    if s == [] then [] else [Lower(s[0])] + LowerStr(s[1..])
  }

  predicate IsDigit(c: char) { '0' <= c <= '9' }

  predicate AllDigits(s: string) { forall i :: 0 <= i < |s| ==> IsDigit(s[i]) }

  // ---------------------------------------------------------------------
  // Trimming

  /** PHP `ltrim($s)`: a suffix of `s` that does not start with a blank. */
  function TrimLeft(s: string): (r: string)
    ensures |r| <= |s|
    ensures r == [] || !IsSpace(r[0])
  {
    if s != [] && IsSpace(s[0]) then TrimLeft(s[1..]) else s
  }

  /** PHP `rtrim($s)`: a prefix of `s` that does not end with a blank. */
  function TrimRight(s: string): (r: string)
    ensures |r| <= |s| && r == s[..|r|]
    ensures r == [] || !IsSpace(r[|r| - 1])
  {
    if s != [] && IsSpace(s[|s| - 1]) then TrimRight(s[..|s| - 1]) else s
  }

  /** `ltrim` keeps a suffix. */
  lemma {:induction false} TrimLeftSuffix(s: string)
    ensures TrimLeft(s) == s[|s| - |TrimLeft(s)|..]
    decreases |s|
  {
    if s != [] && IsSpace(s[0]) {
      TrimLeftSuffix(s[1..]);
      assert s[1..][|s[1..]| - |TrimLeft(s)|..] == s[|s| - |TrimLeft(s)|..];
    }
  }

  /** `ltrim` removes blanks only. */
  lemma {:induction false} TrimLeftRemovesBlanks(s: string)
    ensures forall i :: 0 <= i < |s| - |TrimLeft(s)| ==> IsSpace(s[i])
    decreases |s|
  {
    if s != [] && IsSpace(s[0]) {
      TrimLeftRemovesBlanks(s[1..]);
      assert forall i :: 1 <= i < |s| - |TrimLeft(s)| ==> s[i] == s[1..][i - 1];
    }
  }

  /** `rtrim` removes blanks only. */
  lemma {:induction false} TrimRightRemovesBlanks(s: string)
    ensures forall i :: |TrimRight(s)| <= i < |s| ==> IsSpace(s[i])
    decreases |s|
  {
    if s != [] && IsSpace(s[|s| - 1]) {
      TrimRightRemovesBlanks(s[..|s| - 1]);
      assert forall i :: |TrimRight(s)| <= i < |s| - 1 ==> s[i] == s[..|s| - 1][i];
    }
  }

  /** PHP `trim($s)`. */
  function Trim(s: string): (r: string)
    ensures |r| <= |s|
    ensures r == [] || (!IsSpace(r[0]) && !IsSpace(r[|r| - 1]))
  {
    TrimRight(TrimLeft(s))
  }

  /** PHP `trim($s, $c)` for a single character `c`. */
  function TrimChar(s: string, c: char): (r: string)
    ensures |r| <= |s|
    ensures r == [] || (r[0] != c && r[|r| - 1] != c)
    decreases |s|
  {
    if s != [] && s[0] == c then TrimChar(s[1..], c)
    else if s != [] && s[|s| - 1] == c then TrimChar(s[..|s| - 1], c)
    else s
  }

  // ---------------------------------------------------------------------
  // Substrings

  predicate OccursAt(s: string, p: string, i: int) {
    0 <= i && i + |p| <= |s| && s[i..i + |p|] == p
  }

  /** `strpos($s, $p) !== false`. */
  predicate Contains(s: string, p: string) {
    exists i :: 0 <= i <= |s| && OccursAt(s, p, i)
  }

  /** `stripos($s, $p) !== false` / a case-insensitive literal regex. */
  predicate ContainsCI(s: string, p: string) {
    Contains(LowerStr(s), LowerStr(p))
  }

  predicate StartsWith(s: string, p: string) { |p| <= |s| && s[..|p|] == p }

  predicate EndsWith(s: string, p: string) { |p| <= |s| && s[|s| - |p|..] == p }

  /** A prefix of the second part, after the first part, is a prefix of the whole. */
  lemma PrefixAfter(a: string, x: string, b: string, p: string)
    requires StartsWith(x, p)
    ensures StartsWith(a + x + b, a + p)
  {
    assert (a + x + b)[..|a + p|] == a + x[..|p|];
  }

  /** Two prefixes that differ at a position cannot both start a string. */
  lemma DistinctPrefixes(s: string, p: string, q: string, i: nat)
    requires StartsWith(s, p) && i < |p| && i < |q| && p[i] != q[i]
    ensures !StartsWith(s, q)
  {
    assert s[i] == s[..|p|][i];
  }

  /** A concatenation starts with its first part and ends with its last. */
  lemma Framed(a: string, m: string, b: string)
    ensures StartsWith(a + m + b, a) && EndsWith(a + m + b, b)
  {
    assert (a + m + b)[..|a|] == a;
    assert (a + m + b)[|a + m|..] == b;
  }

  lemma ContainsWitness(s: string, p: string, i: int)
    requires OccursAt(s, p, i)
    ensures Contains(s, p)
  {
  }

  lemma ContainsInfix(a: string, p: string, b: string)
    ensures Contains(a + p + b, p)
  {
    assert (a + p + b)[|a|..|a| + |p|] == p;
    ContainsWitness(a + p + b, p, |a|);
  }

  /** An occurrence inside the middle part of a concatenation is an occurrence of the whole. */
  lemma ContainsMiddle(a: string, m: string, b: string, p: string)
    requires Contains(m, p)
    ensures Contains(a + m + b, p)
  {
    var i :| 0 <= i <= |m| && OccursAt(m, p, i);
    assert (a + m + b)[|a| + i..|a| + i + |p|] == m[i..i + |p|];
    ContainsWitness(a + m + b, p, |a| + i);
  }

  // ---------------------------------------------------------------------
  // str_replace

  /**
   * PHP `str_replace($p, $t, $s)`: occurrences are found from the left and
   * do not overlap; an empty needle leaves the subject as it is.
   */
  function ReplaceAll(s: string, p: string, t: string): string
    decreases |s|
  {
    if |p| == 0 || |s| < |p| then s
    else if s[..|p|] == p then t + ReplaceAll(s[|p|..], p, t)
    else [s[0]] + ReplaceAll(s[1..], p, t)
  }

  lemma {:induction false} ReplaceAllAbsent(s: string, p: string, t: string)
    requires |p| > 0 && !Contains(s, p)
    ensures ReplaceAll(s, p, t) == s
    decreases |s|
  {
    if |s| >= |p| {
      assert !OccursAt(s, p, 0);
      assert s[..|p|] != p;
      forall i | 0 <= i <= |s[1..]| ensures !OccursAt(s[1..], p, i) {
        if OccursAt(s[1..], p, i) {
          assert s[1 + i..1 + i + |p|] == s[1..][i..i + |p|];
          ContainsWitness(s, p, i + 1);
        }
      }
      ReplaceAllAbsent(s[1..], p, t);
    }
  }

  lemma ContainsSuffix(s: string, p: string, k: nat)
    requires k <= |s| && Contains(s[k..], p)
    ensures Contains(s, p)
  {
    var i :| 0 <= i <= |s[k..]| && OccursAt(s[k..], p, i);
    assert s[k + i..k + i + |p|] == s[k..][i..i + |p|];
    ContainsWitness(s, p, k + i);
  }

  /** An occurrence at the very start is replaced and scanning resumes after it. */
  lemma {:induction false} ReplaceAllPrefix(s: string, p: string, t: string)
    requires |p| > 0 && StartsWith(s, p)
    ensures ReplaceAll(s, p, t) == t + ReplaceAll(s[|p|..], p, t)
  {
  }

  /** A needle that occurs in `s` leaves at least one copy of its replacement behind. */
  lemma {:induction false} ReplaceAllIntroduces(s: string, p: string, t: string)
    requires |p| > 0 && Contains(s, p)
    ensures Contains(ReplaceAll(s, p, t), t)
    decreases |s|
  {
    var i :| 0 <= i <= |s| && OccursAt(s, p, i);
    if s[..|p|] == p {
      ContainsWitness(t + ReplaceAll(s[|p|..], p, t), t, 0);
    } else {
      assert i > 0;
      assert s[1..][i - 1..i - 1 + |p|] == s[i..i + |p|];
      ContainsWitness(s[1..], p, i - 1);
      ReplaceAllIntroduces(s[1..], p, t);
      var r := [s[0]] + ReplaceAll(s[1..], p, t);
      assert r[1..] == ReplaceAll(s[1..], p, t);
      ContainsSuffix(r, t, 1);
    }
  }

  /** A string containing `t` contains every prefix `p` of `t`. */
  lemma ContainsStart(s: string, t: string, p: string)
    requires Contains(s, t) && StartsWith(t, p)
    ensures Contains(s, p)
  {
    assert t == p + t[|p|..];
    ContainsPrefixOf(s, p, t[|p|..]);
  }

  /** A joined list starts with its first part. */
  lemma JoinStartsWithFirst(parts: seq<string>, sep: string)
    requires |parts| >= 1
    ensures StartsWith(Join(parts, sep), parts[0])
  {
    if |parts| > 1 {
      var j := Join(parts, sep);
      assert j == parts[0] + (sep + Join(parts[1..], sep));
      assert j[..|parts[0]|] == parts[0];
    }
  }

  /** Prefixes compose, and a common head and any tail keep a prefix. */
  lemma StartsWithWithin(a: string, s: string, t: string, q: string, p: string)
    requires StartsWith(s, q) && StartsWith(q, p)
    ensures StartsWith(a + s + t, a + p)
  {
    assert (a + s + t)[..|a| + |p|] == a + s[..|p|];
    assert s[..|p|] == q[..|p|];
  }

  /** The separator after `a` is the first one in `a + [c] + x` when `a` has none. */
  lemma FirstSeparator(a: string, x: string, c: char)
    requires c !in a
    ensures (a + ([c] + x))[|a|] == c
    ensures forall k :: 0 <= k < |a| ==> (a + ([c] + x))[k] != c
  {
  }

  lemma SplitAtSeparator(a: string, x: string, b: string, y: string, c: char)
    requires c !in a && c !in b && a + ([c] + x) == b + ([c] + y)
    ensures a == b && x == y
  {
    var s := a + ([c] + x);
    FirstSeparator(a, x, c);
    FirstSeparator(b, y, c);
    assert |a| == |b|;
    assert a == s[..|a|] && b == s[..|b|];
    assert x == s[|a| + 1..] && y == s[|b| + 1..];
  }


  lemma ContainsSuffixOf(s: string, q: string, p: string)
    requires Contains(s, q + p)
    ensures Contains(s, p)
  {
    var i :| 0 <= i <= |s| && OccursAt(s, q + p, i);
    assert s[i + |q|..i + |q| + |p|] == (q + p)[|q|..];
    ContainsWitness(s, p, i + |q|);
  }

  /** A string containing `p + q` contains `p`. */
  lemma ContainsPrefixOf(s: string, p: string, q: string)
    requires Contains(s, p + q)
    ensures Contains(s, p)
  {
    var i :| 0 <= i <= |s| && OccursAt(s, p + q, i);
    assert s[i..i + |p|] == (p + q)[..|p|];
    ContainsWitness(s, p, i);
  }

  // ---------------------------------------------------------------------
  // explode / implode

  /** PHP `implode($sep, $parts)`. */
  function Join(parts: seq<string>, sep: string): string
  {
    if parts == [] then ""
    else if |parts| == 1 then parts[0]
    else parts[0] + sep + Join(parts[1..], sep)
  }

  /** PHP `explode($c, $s)` for a one-character separator. */
  function Split(s: string, c: char): (r: seq<string>)
    ensures |r| >= 1
    ensures forall k :: 0 <= k < |r| ==> c !in r[k]
    decreases |s|
  {
    if s == [] then [""]
    else if s[0] == c then [""] + Split(s[1..], c)
    else var rest := Split(s[1..], c); [[s[0]] + rest[0]] + rest[1..]
  }

  /** A string without the separator is one part. */
  lemma {:induction false} SplitNone(s: string, c: char)
    requires c !in s
    ensures Split(s, c) == [s]
    decreases |s|
  {
    if s != [] {
      SplitNone(s[1..], c);
      assert [s[0]] + s[1..] == s;
    }
  }

  lemma {:induction false} JoinSplit(s: string, c: char)
    ensures Join(Split(s, c), [c]) == s
    decreases |s|
  {
    if s == [] {
    } else if s[0] == c {
      JoinSplit(s[1..], c);
      var rest := Split(s[1..], c);
      assert Split(s, c) == [""] + rest;
      assert ([""] + rest)[1..] == rest;
    } else {
      JoinSplit(s[1..], c);
      var rest := Split(s[1..], c);
      var r := [[s[0]] + rest[0]] + rest[1..];
      assert Split(s, c) == r;
      if |rest| == 1 {
        assert Join(r, [c]) == [s[0]] + rest[0];
      } else {
        assert r[1..] == rest[1..];
        assert Join(rest, [c]) == rest[0] + [c] + Join(rest[1..], [c]);
      }
    }
  }

  lemma {:induction false} JoinFree(parts: seq<string>, c: char)
    requires forall k :: 0 <= k < |parts| ==> c !in parts[k]
    ensures c !in Join(parts, "")
  {
    if |parts| > 1 {
      JoinFree(parts[1..], c);
    }
  }

  /**
   * PHP `explode($sep, $s)` for a separator of any length: `s` cut at every
   * occurrence of `sep`, found from the left and not overlapping.
   */
  function Explode(s: string, sep: string): (r: seq<string>)
    requires sep != []
    ensures |r| >= 1
    decreases |s|
  {
    if |s| < |sep| then [s]
    else if s[..|sep|] == sep then [""] + Explode(s[|sep|..], sep)
    else var rest := Explode(s[1..], sep); [[s[0]] + rest[0]] + rest[1..]
  }

  /** A text without the separator is one part. */
  lemma {:induction false} ExplodeAbsent(s: string, sep: string)
    requires sep != [] && !Contains(s, sep)
    ensures Explode(s, sep) == [s]
    decreases |s|
  {
    if |s| >= |sep| {
      assert !OccursAt(s, sep, 0);
      forall i | 0 <= i <= |s[1..]| ensures !OccursAt(s[1..], sep, i) {
        if OccursAt(s[1..], sep, i) {
          assert s[1 + i..1 + i + |sep|] == s[1..][i..i + |sep|];
          ContainsWitness(s, sep, i + 1);
        }
      }
      ExplodeAbsent(s[1..], sep);
      assert [s[0]] + s[1..] == s;
    }
  }

  /** The first part is where the text starts. */
  lemma {:induction false} ExplodeHead(s: string, sep: string)
    requires sep != []
    ensures |Explode(s, sep)[0]| <= |s| && Explode(s, sep)[0] == s[..|Explode(s, sep)[0]|]
    decreases |s|
  {
    if |s| >= |sep| && s[..|sep|] != sep {
      ExplodeHead(s[1..], sep);
      var y := Explode(s[1..], sep)[0];
      assert s[..1 + |y|] == [s[0]] + s[1..][..|y|];
    }
  }

  /** No part holds the separator. */
  lemma {:induction false} ExplodeFree(s: string, sep: string)
    requires sep != []
    ensures forall k :: 0 <= k < |Explode(s, sep)| ==> !Contains(Explode(s, sep)[k], sep)
    decreases |s|
  {
    var r := Explode(s, sep);
    if |s| < |sep| {
      assert r == [s];
    } else if s[..|sep|] == sep {
      ExplodeFree(s[|sep|..], sep);
      assert !OccursAt("", sep, 0);
      assert forall k :: 1 <= k < |r| ==> r[k] == Explode(s[|sep|..], sep)[k - 1];
    } else {
      var rest := Explode(s[1..], sep);
      ExplodeFree(s[1..], sep);
      ExplodeHead(s[1..], sep);
      assert forall k :: 1 <= k < |r| ==> r[k] == rest[k];
      HeadFree(s, rest[0], sep);
    }
  }

  /** One more character in front of a separator-free prefix of `s[1..]` adds no separator, unless `s` starts with it. */
  lemma HeadFree(s: string, y: string, sep: string)
    requires sep != [] && |s| >= 1 && (|s| >= |sep| ==> s[..|sep|] != sep)
    requires |y| <= |s| - 1 && y == s[1..][..|y|] && !Contains(y, sep)
    ensures !Contains([s[0]] + y, sep)
  {
    var x := [s[0]] + y;
    forall i | 0 <= i <= |x| ensures !OccursAt(x, sep, i) {
      if OccursAt(x, sep, i) && i > 0 {
        assert y[i - 1..i - 1 + |sep|] == x[i..i + |sep|];
        ContainsWitness(y, sep, i - 1);
      }
    }
  }

  /**
   * A separator whose first character does not come back inside it cannot
   * start within a text before it: after a separator-free text, the
   * separator ends the first part.
   */
  lemma {:induction false} ExplodeAfterFree(a: string, sep: string, b: string)
    requires sep != [] && forall k :: 1 <= k < |sep| ==> sep[k] != sep[0]
    requires !Contains(a, sep)
    ensures Explode(a + sep + b, sep) == [a] + Explode(b, sep)
    decreases |a|
  {
    var s := a + sep + b;
    if a == [] {
      assert s == sep + b && s[..|sep|] == sep && s[|sep|..] == b;
    } else {
      if |a| >= |sep| {
        assert s[..|sep|] == a[..|sep|];
        assert !OccursAt(a, sep, 0);
      } else {
        assert s[..|sep|][|a|] == sep[0];
      }
      assert s[..|sep|] != sep;
      assert !Contains(a[1..], sep) by {
        if Contains(a[1..], sep) {
          ContainsSuffix(a, sep, 1);
        }
      }
      ExplodeAfterFree(a[1..], sep, b);
      assert s[1..] == a[1..] + sep + b;
      assert [a[0]] + a[1..] == a;
    }
  }

  // ---------------------------------------------------------------------
  // PHP values

  /** PHP `empty()` on a string: the empty string and "0" are empty. */
  predicate EmptyStr(s: string) { |s| == 0 || (|s| == 1 && s[0] == '0') }

  /** Decimal digits of a natural number, most significant first. */
  function NatToString(n: nat): (r: string)
    ensures |r| >= 1 && AllDigits(r)
    ensures n < 10 <==> |r| == 1
    decreases n
  {
    if n < 10 then [('0' as int + n) as char]
    else NatToString(n / 10) + [('0' as int + n % 10) as char]
  }

  function IntToString(i: int): (r: string)
    ensures |r| >= 1
    ensures i >= 0 ==> AllDigits(r)
    ensures i < 0 ==> r[0] == '-'
  {
    if i < 0 then "-" + NatToString(-i) else NatToString(i)
  }

  function DigitValue(c: char): nat requires IsDigit(c) { c as int - '0' as int }

  /** The value of a non-empty string of decimal digits. */
  function DigitsValue(s: string): nat
    requires AllDigits(s)
    decreases |s|
  {
    if s == [] then 0 else DigitsValue(s[..|s| - 1]) * 10 + DigitValue(s[|s| - 1])
  }

  /** Rendering a number and reading it back gives the number. */
  lemma {:induction false} NatToStringValue(n: nat)
    ensures DigitsValue(NatToString(n)) == n
    decreases n
  {
    if n >= 10 {
      NatToStringValue(n / 10);
      var s := NatToString(n);
      assert s[..|s| - 1] == NatToString(n / 10);
    }
  }

  /** Distinct numbers have distinct renderings. */
  lemma NatToStringInjective(a: nat, b: nat)
    requires NatToString(a) == NatToString(b)
    ensures a == b
  {
    NatToStringValue(a);
    NatToStringValue(b);
  }

  // ---------------------------------------------------------------------
  // Numeric strings
  //
  // PHP 8 reads a numeric string as optional blanks, an optional sign, a
  // decimal number (`12`, `1.5`, `1.`, `.5`) with an optional exponent
  // (`1e3`, `2.5E-1`) and optional trailing blanks. `is_numeric` accepts
  // exactly those strings; `intval` reads the longest such number at the
  // head of the string and truncates it toward zero.

  /** The blanks a numeric string may carry around its number: space, tab, line feed, carriage return, vertical tab and form feed. */
  predicate NumSpace(c: char) {
    c == ' ' || c == '\t' || c == '\n' || c == '\r' || c as int == 11 || c as int == 12
  }

  predicate AllNumSpace(s: string) { forall i :: 0 <= i < |s| ==> NumSpace(s[i]) }

  /** The string after its leading blanks. */
  function SkipNumSpace(s: string): (r: string)
    ensures r == [] || !NumSpace(r[0])
  {
    if s != [] && NumSpace(s[0]) then SkipNumSpace(s[1..]) else s
  }

  /** The string after an optional leading `+` or `-`. */
  function Unsigned(t: string): string {
    if t != [] && (t[0] == '+' || t[0] == '-') then t[1..] else t
  }

  /**
   * A decimal number read off the head of a string: its integer digits,
   * its fraction digits, its exponent and the number of characters it
   * spans (`len == 0` when the head holds no number).
   */
  datatype Number = Number(whole: string, frac: string, expNegative: bool, exp: string, len: nat)

  /** The fraction digits when `rest` starts with a point, else none. */
  function FracDigits(rest: string): (f: string)
    ensures AllDigits(f)
  {
    if rest != [] && rest[0] == '.' then IntegerPart(rest[1..]) else []
  }

  /** The length of the point and fraction digits at the head of `rest`. */
  function FracLen(rest: string): nat {
    if rest != [] && rest[0] == '.' then 1 + |IntegerPart(rest[1..])| else 0
  }

  /** Where the exponent's digits start in `e`, which begins with `e` or `E`. */
  function ExpStart(e: string): nat
    requires |e| >= 2
  {
    if e[1] == '+' || e[1] == '-' then 2 else 1
  }

  /** The exponent digits at the head of `e`: none unless `e` or `E`, an optional sign and at least one digit come first. */
  function ExpDigits(e: string): (x: string)
    ensures AllDigits(x)
  {
    if |e| >= 2 && (e[0] == 'e' || e[0] == 'E') then IntegerPart(e[ExpStart(e)..]) else []
  }

  /** The longest number at the head of `u`, which follows the sign. */
  function LeadingNumber(u: string): (n: Number)
    ensures AllDigits(n.whole) && AllDigits(n.frac) && AllDigits(n.exp)
  {
    var whole := IntegerPart(u);
    var rest := u[|whole|..];
    var frac := FracDigits(rest);
    if whole == [] && frac == [] then Number([], [], false, [], 0)
    else
      var m := |whole| + FracLen(rest);
      if m <= |u| && ExpDigits(u[m..]) != [] then
        var e := u[m..];
        Number(whole, frac, e[1] == '-', ExpDigits(e), m + ExpStart(e) + |ExpDigits(e)|)
      else
        Number(whole, frac, false, [], m)
  }

  /** `m` with `k` zeros written after it: `m` times ten to the `k`. */
  function Scale(m: nat, k: nat): nat {
    if k == 0 then m else 10 * Scale(m, k - 1)
  }

  /** `m` with its last `k` digits dropped: `m` divided by ten to the `k`, truncated. */
  function Drop(m: nat, k: nat): nat {
    if k == 0 then m else Drop(m / 10, k - 1)
  }

  /** The digits before and after the point read as one whole number. */
  function Mantissa(whole: string, frac: string): nat
    requires AllDigits(whole) && AllDigits(frac)
  {
    Scale(DigitsValue(whole), |frac|) + DigitsValue(frac)
  }

  /** `m` times ten to the power `shift`, truncated toward zero when `shift` is negative. */
  function Shifted(m: nat, shift: int): nat {
    if shift >= 0 then Scale(m, shift) else Drop(m, -shift)
  }

  /** The magnitude of a number, truncated toward zero. */
  function Magnitude(n: Number): nat
    requires AllDigits(n.whole) && AllDigits(n.frac) && AllDigits(n.exp)
  {
    var exp := if n.expNegative then -(DigitsValue(n.exp) as int) else DigitsValue(n.exp);
    Shifted(Mantissa(n.whole, n.frac), exp - |n.frac|)
  }

  /** PHP `is_numeric` on a string. */
  predicate IsNumeric(s: string) {
    NumberThenBlanks(Unsigned(SkipNumSpace(s)))
  }

  /** `u` is a number followed by nothing but blanks. */
  predicate NumberThenBlanks(u: string) {
    var n := LeadingNumber(u);
    0 < n.len <= |u| && AllNumSpace(u[n.len..])
  }

  /** PHP `intval` of a string: the number at its head truncated toward zero, 0 when there is none. */
  function IntVal(s: string): int {
    SignedValue(SkipNumSpace(s))
  }

  /** The value of the number at the head of `t`, which may start with a sign. */
  function SignedValue(t: string): int {
    var v: int := Magnitude(LeadingNumber(Unsigned(t)));
    if t != [] && t[0] == '-' then -v else v
  }

  /** The integer part of a numeric string. */
  function IntegerPart(u: string): (r: string)
    ensures AllDigits(r) && |r| <= |u| && r == u[..|r|]
    ensures |r| < |u| ==> !IsDigit(u[|r|])
  {
    if u != [] && IsDigit(u[0]) then [u[0]] + IntegerPart(u[1..]) else []
  }

  /** Each element rendered by `f`, glued together in order. */
  function ConcatMap<T>(xs: seq<T>, f: T -> string): string {
    if xs == [] then "" else ConcatMap(xs[..|xs| - 1], f) + f(xs[|xs| - 1])
  }

  lemma ConcatMapSnoc<T>(xs: seq<T>, x: T, f: T -> string)
    ensures ConcatMap(xs + [x], f) == ConcatMap(xs, f) + f(x)
  {
    assert (xs + [x])[..|xs|] == xs;
  }

  lemma {:induction false} ConcatMapAppend<T>(xs: seq<T>, ys: seq<T>, f: T -> string)
    ensures ConcatMap(xs + ys, f) == ConcatMap(xs, f) + ConcatMap(ys, f)
    decreases |ys|
  {
    if ys == [] {
      assert xs + ys == xs;
    } else {
      var init, last := ys[..|ys| - 1], ys[|ys| - 1];
      assert xs + ys == (xs + init) + [last];
      assert init + [last] == ys;
      ConcatMapSnoc(xs + init, last, f);
      ConcatMapSnoc(init, last, f);
      ConcatMapAppend(xs, init, f);
    }
  }

  lemma ConcatMapCons<T>(x: T, ys: seq<T>, f: T -> string)
    ensures ConcatMap([x] + ys, f) == f(x) + ConcatMap(ys, f)
  {
    var e: seq<T> := [];
    assert [x] == e + [x];
    ConcatMapSnoc(e, x, f);
    ConcatMapAppend([x], ys, f);
  }

  lemma ConcatMapWrap<T>(first: T, middle: seq<T>, last: T, f: T -> string)
    ensures ConcatMap([first] + middle + [last], f) == f(first) + ConcatMap(middle, f) + f(last)
  {
    var e: seq<T> := [];
    assert e + [first] == [first];
    ConcatMapSnoc(e, first, f);
    ConcatMapAppend([first], middle, f);
    ConcatMapSnoc([first] + middle, last, f);
  }

  /** The integer part of digits followed by a non-digit is those digits. */
  lemma IntegerPartOf(d: string, t: string)
    requires AllDigits(d)
    requires t == [] || !IsDigit(t[0])
    ensures IntegerPart(d + t) == d
  {
    var u := d + t;
    assert forall k :: 0 <= k < |d| ==> u[k] == d[k];
    assert |d| < |u| ==> u[|d|] == t[0];
  }

  /** A stored setting or option field: PHP integers, strings and `null`. */
  datatype Value = Num(n: int) | Str(s: string) | Null

  /** PHP `empty`, `is_numeric` and `intval` on a stored setting. */
  predicate EmptyValue(v: Value) {
    match v
    case Num(n) => n == 0
    case Str(s) => EmptyStr(s)
    case Null => true
  }

  predicate NumericValue(v: Value) {
    match v
    case Num(_) => true
    case Str(s) => IsNumeric(s)
    case Null => false
  }

  function IntValue(v: Value): int {
    match v
    case Num(n) => n
    case Str(s) => IntVal(s)
    case Null => 0
  }

  /** A digit string followed by something that cannot continue a number is read as exactly those digits. */
  lemma LeadingDigits(d: string, t: string)
    requires AllDigits(d) && d != []
    requires t == [] || (!IsDigit(t[0]) && t[0] != '.' && t[0] != 'e' && t[0] != 'E')
    ensures LeadingNumber(d + t) == Number(d, [], false, [], |d|)
  {
    IntegerPartOf(d, t);
    assert (d + t)[|d|..] == t;
  }

  /** A number with neither fraction nor exponent is worth its digits. */
  lemma WholeMagnitude(d: string)
    requires AllDigits(d)
    ensures Magnitude(Number(d, [], false, [], |d|)) == DigitsValue(d)
  {
    var num := Number(d, [], false, [], |d|);
    assert DigitsValue(num.exp) == 0;
    assert Mantissa(d, []) == DigitsValue(d);
    assert Shifted(DigitsValue(d), 0) == DigitsValue(d);
  }

  /** A decimal rendering is numeric and reads back as its number. */
  lemma IntValOfNat(n: nat)
    ensures IsNumeric(NatToString(n)) && IntVal(NatToString(n)) == n
  {
    var s := NatToString(n);
    assert SkipNumSpace(s) == s by { assert IsDigit(s[0]); }
    DigitsRead(s);
    assert IsNumeric(s);
    assert IntVal(s) == SignedValue(s);
    NatToStringValue(n);
  }

  /** A string of digits is numeric and its value is the digits' value. */
  lemma DigitsRead(d: string)
    requires AllDigits(d) && d != []
    ensures NumberThenBlanks(d)
    ensures SignedValue(d) == DigitsValue(d)
  {
    DigitsNumber(d);
    assert d[|d|..] == [];
    assert Unsigned(d) == d && d[0] != '-' by { assert IsDigit(d[0]); }
    WholeMagnitude(d);
  }

  /** A string of digits alone is read as a whole number spanning all of it. */
  lemma DigitsNumber(d: string)
    requires AllDigits(d) && d != []
    ensures LeadingNumber(d) == Number(d, [], false, [], |d|)
  {
    LeadingDigits(d, []);
    assert d + [] == d;
  }

  lemma IntValOfInt(i: int)
    ensures IsNumeric(IntToString(i)) && IntVal(IntToString(i)) == i
  {
    if i < 0 {
      var n: nat := -i;
      var d := NatToString(n);
      var s := IntToString(i);
      assert s == "-" + d;
      assert SkipNumSpace(s) == s && Unsigned(s) == d;
      DigitsRead(d);
      assert IsNumeric(s);
      assert IntVal(s) == SignedValue(s);
      NatToStringValue(n);
    } else {
      IntValOfNat(i);
    }
  }

  /** Blanks in front of a string change neither whether it is numeric nor its value. */
  lemma {:induction false} LeadingBlanks(b: string, s: string)
    requires AllNumSpace(b)
    ensures IsNumeric(b + s) == IsNumeric(s)
    ensures IntVal(b + s) == IntVal(s)
  {
    SkipBlanks(b, s);
  }

  lemma {:induction false} SkipBlanks(b: string, s: string)
    requires AllNumSpace(b)
    ensures SkipNumSpace(b + s) == SkipNumSpace(s)
  {
    if b != [] {
      assert (b + s)[0] == b[0];
      assert (b + s)[1..] == b[1..] + s;
      SkipBlanks(b[1..], s);
    } else {
      assert b + s == s;
    }
  }

  /** A number in exponent notation is read with its exponent applied. */
  lemma Scientific(d: nat, e: nat)
    ensures IsNumeric(NatToString(d) + "e" + NatToString(e))
    ensures IntVal(NatToString(d) + "e" + NatToString(e)) == Scale(d, e)
  {
    var ds, es := NatToString(d), NatToString(e);
    var s := ds + "e" + es;
    assert SkipNumSpace(s) == s && Unsigned(s) == s by { assert s[0] == ds[0]; }
    ReadScientific(ds, es);
    var num := Number(ds, [], false, es, |s|);
    assert NumberThenBlanks(s) by { assert s[|s|..] == []; }
    assert IsNumeric(s);
    NatToStringValue(d);
    NatToStringValue(e);
    ScientificMagnitude(ds, es, |s|);
    assert IntVal(s) == SignedValue(s) == Magnitude(num);
  }

  lemma ReadScientific(ds: string, es: string)
    requires AllDigits(ds) && ds != [] && AllDigits(es) && es != []
    ensures LeadingNumber(ds + "e" + es) == Number(ds, [], false, es, |ds + "e" + es|)
  {
    var s := ds + "e" + es;
    IntegerPartOf(ds, "e" + es);
    assert s == ds + ("e" + es);
    var x := s[|ds|..];
    assert x == "e" + es;
    assert x[1..] == es;
    assert ExpStart(x) == 1 by { assert x[1] == es[0]; }
    assert IntegerPart(es) == es by { IntegerPartOf(es, []); assert es + [] == es; }
    assert FracDigits(x) == [] && FracLen(x) == 0;
    assert ExpDigits(x) == es;
  }

  lemma ScientificMagnitude(ds: string, es: string, len: nat)
    requires AllDigits(ds) && AllDigits(es)
    ensures Magnitude(Number(ds, [], false, es, len)) == Scale(DigitsValue(ds), DigitsValue(es))
  {
    assert Mantissa(ds, []) == DigitsValue(ds);
  }

  /** A fraction is dropped: the value is the integer part, whatever digits follow the point. */
  lemma Truncation(w: nat, f: string)
    requires AllDigits(f)
    ensures IsNumeric(NatToString(w) + "." + f)
    ensures IntVal(NatToString(w) + "." + f) == w
  {
    var ws := NatToString(w);
    var s := ws + "." + f;
    assert SkipNumSpace(s) == s && Unsigned(s) == s by { assert s[0] == ws[0]; }
    ReadFraction(ws, f);
    var num := Number(ws, f, false, [], |s|);
    assert NumberThenBlanks(s) by { assert s[|s|..] == []; }
    assert IsNumeric(s);
    NatToStringValue(w);
    FractionMagnitude(ws, f, |s|);
    assert IntVal(s) == SignedValue(s) == Magnitude(num);
  }

  lemma ReadFraction(ws: string, f: string)
    requires AllDigits(ws) && ws != [] && AllDigits(f)
    ensures LeadingNumber(ws + "." + f) == Number(ws, f, false, [], |ws + "." + f|)
  {
    var s := ws + "." + f;
    IntegerPartOf(ws, "." + f);
    assert s == ws + ("." + f);
    var x := s[|ws|..];
    assert x == "." + f;
    assert x[1..] == f;
    assert IntegerPart(f) == f by { IntegerPartOf(f, []); assert f + [] == f; }
    assert FracDigits(x) == f && FracLen(x) == 1 + |f|;
    assert s[|s|..] == [];
  }

  lemma FractionMagnitude(ws: string, f: string, len: nat)
    requires AllDigits(ws) && AllDigits(f)
    ensures Magnitude(Number(ws, f, false, [], len)) == DigitsValue(ws)
  {
    DigitsValueBound(f);
    DropScaled(DigitsValue(ws), DigitsValue(f), |f|);
  }

  /** `k` digits are worth less than one followed by `k` zeros. */
  lemma {:induction false} DigitsValueBound(s: string)
    requires AllDigits(s)
    ensures DigitsValue(s) < Scale(1, |s|)
    decreases |s|
  {
    if s != [] {
      DigitsValueBound(s[..|s| - 1]);
    }
  }

  /** Dropping the `k` digits that were appended gives back the number. */
  lemma {:induction false} DropScaled(q: nat, r: nat, k: nat)
    requires r < Scale(1, k)
    ensures Drop(Scale(q, k) + r, k) == q
  {
    if k > 0 {
      DropScaled(q, r / 10, k - 1);
    }
  }



  lemma {:induction false} IntegerPartDigits(s: string)
    requires AllDigits(s)
    ensures IntegerPart(s) == s
  {
    if s != [] { IntegerPartDigits(s[1..]); }
  }

  // ---------------------------------------------------------------------
  // Sequences

  lemma TakeDrop<T>(s: seq<T>, n: nat)
    requires n <= |s|
    ensures s[..n] + s[n..] == s
  {
  }

  lemma ConcatAssoc<T>(x: seq<T>, y: seq<T>, z: seq<T>)
    ensures (x + y) + z == x + (y + z)
  {
  }

  function Min(a: int, b: int): int { if a <= b then a else b }
  function Max(a: int, b: int): int { if a >= b then a else b }

  /** PHP `array_slice($s, 0, $limit)`: a negative limit drops that many entries from the end. */
  function SliceHead<T>(s: seq<T>, limit: int): (r: seq<T>)
    ensures limit >= 0 ==> r == s[..Min(limit, |s|)]
    ensures limit < 0 ==> r == s[..Max(|s| + limit, 0)]
  {
    if limit >= 0 then s[..Min(limit, |s|)] else s[..Max(|s| + limit, 0)]
  }
}
