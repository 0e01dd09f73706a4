/**
 * String facts the Slack backend relies on: Rust's ordering of `str` values,
 * substring search as done by `str::contains`, and the value of digit strings
 * (Slack message timestamps are digit strings with one dot).
 */
module Lexical {

  /**
   * Rust's `a < b` on `str`. Rust compares the UTF-8 bytes lexicographically,
   * which orders strings the same way as comparing their Unicode scalar values
   * one by one, as done here. (Dafny's own `<` on sequences means "proper
   * prefix", which is a different relation.)
   */
  predicate StrLess(a: string, b: string)
    decreases |a|
  {
    if |a| == 0 then |b| > 0
    else if |b| == 0 then false
    else if a[0] != b[0] then a[0] < b[0]
    else StrLess(a[1..], b[1..])
  }

  /** `a` and `b` agree before index `k` and `a` has the smaller character at `k`. */
  predicate DiffersFirstAt(a: string, b: string, k: nat) {
    k < |a| && k < |b| && a[..k] == b[..k] && a[k] < b[k]
  }

  /** `a` is a proper prefix of `b`. */
  predicate IsProperPrefix(a: string, b: string) {
    |a| < |b| && a == b[..|a|]
  }

  /** Below a common first character, first differences move one place. */
  lemma DiffersShift(a: string, b: string, k: nat)
    requires |a| > 0 && |b| > 0 && a[0] == b[0]
    ensures DiffersFirstAt(a, b, k + 1) <==> DiffersFirstAt(a[1..], b[1..], k)
  {
    if k + 1 < |a| && k + 1 < |b| {
      assert a[..k + 1] == [a[0]] + a[1..][..k];
      assert b[..k + 1] == [b[0]] + b[1..][..k];
    }
  }

  /** Below a common first character, proper prefixes stay proper prefixes. */
  lemma PrefixShift(a: string, b: string)
    requires |a| > 0 && |b| > 0 && a[0] == b[0]
    ensures IsProperPrefix(a, b) <==> IsProperPrefix(a[1..], b[1..])
  {
    if |a| <= |b| {
      assert b[..|a|] == [b[0]] + b[1..][..|a| - 1];
    }
    assert a == [a[0]] + a[1..];
  }

  /** Strings with different first characters first differ at index 0 and at no other index. */
  lemma DiffersAtHead(a: string, b: string, k: nat)
    requires |a| > 0 && |b| > 0 && a[0] != b[0]
    ensures DiffersFirstAt(a, b, k) <==> k == 0 && a[0] < b[0]
  {
    if 0 < k < |a| && k < |b| {
      assert a[..k][0] == a[0] && b[..k][0] == b[0];
    }
    assert a[..0] == b[..0];
  }

  /** `StrLess` is the textbook lexicographic order: a proper prefix, or smaller at the first difference. */
  lemma {:induction false} StrLessIff(a: string, b: string)
    ensures StrLess(a, b) <==> IsProperPrefix(a, b) || exists k: nat :: DiffersFirstAt(a, b, k)
    decreases |a|
  {
    if |a| == 0 || |b| == 0 {
    } else if a[0] != b[0] {
      DiffersAtHead(a, b, 0);
      if exists k: nat :: DiffersFirstAt(a, b, k) {
        var k: nat :| DiffersFirstAt(a, b, k);
        DiffersAtHead(a, b, k);
      }
    } else {
      var a', b' := a[1..], b[1..];
      StrLessIff(a', b');
      PrefixShift(a, b);
      if exists k: nat :: DiffersFirstAt(a, b, k) {
        var k: nat :| DiffersFirstAt(a, b, k);
        assert k != 0;
        DiffersShift(a, b, k - 1);
      }
      if exists k: nat :: DiffersFirstAt(a', b', k) {
        var k: nat :| DiffersFirstAt(a', b', k);
        DiffersShift(a, b, k);
      }
    }
  }

  lemma {:induction false} StrLessIrreflexive(a: string)
    ensures !StrLess(a, a)
    decreases |a|
  {
    if |a| > 0 {
      StrLessIrreflexive(a[1..]);
    }
  }

  lemma {:induction false} StrLessTransitive(a: string, b: string, c: string)
    requires StrLess(a, b) && StrLess(b, c)
    ensures StrLess(a, c)
    decreases |a|
  {
    if |a| > 0 && a[0] == b[0] && b[0] == c[0] {
      StrLessTransitive(a[1..], b[1..], c[1..]);
    }
  }

  lemma StrLessAsymmetric(a: string, b: string)
    requires StrLess(a, b)
    ensures !StrLess(b, a)
  {
    if StrLess(b, a) {
      StrLessTransitive(a, b, a);
      StrLessIrreflexive(a);
    }
  }

  /** Any two different strings are ordered one way or the other. */
  lemma {:induction false} StrLessTotal(a: string, b: string)
    ensures a == b || StrLess(a, b) || StrLess(b, a)
    decreases |a|
  {
    if |a| > 0 && |b| > 0 && a[0] == b[0] {
      StrLessTotal(a[1..], b[1..]);
      if a[1..] == b[1..] {
        assert a == [a[0]] + a[1..] && b == [b[0]] + b[1..];
      }
    }
  }

  /** Comparing two concatenations whose first parts have the same length compares the first parts, then the second. */
  lemma {:induction false} StrLessConcat(x: string, y: string, x': string, y': string)
    requires |x| == |x'|
    ensures StrLess(x + y, x' + y') <==> StrLess(x, x') || (x == x' && StrLess(y, y'))
    decreases |x|
  {
    if |x| == 0 {
      assert x + y == y && x' + y' == y';
    } else {
      assert (x + y)[0] == x[0] && (x' + y')[0] == x'[0];
      assert (x + y)[1..] == x[1..] + y && (x' + y')[1..] == x'[1..] + y';
      if x[0] == x'[0] {
        StrLessConcat(x[1..], y, x'[1..], y');
        assert x == [x[0]] + x[1..] && x' == [x'[0]] + x'[1..];
      } else {
        assert x != x';
      }
    }
  }

  /** `p` occurs in `s` starting at index `i`. */
  predicate OccursAt(s: string, p: string, i: nat) {
    i + |p| <= |s| && s[i..i + |p|] == p
  }

  /** `s` contains `p` as a contiguous piece (Rust's `str::contains` with a string pattern). */
  predicate Contains(s: string, p: string) {
    exists i: nat | i <= |s| :: OccursAt(s, p, i)
  }

  /** An occurrence stays an occurrence when text is added on either side. */
  lemma OccursInConcat(x: string, y: string, p: string, i: nat)
    ensures OccursAt(x, p, i) ==> OccursAt(x + y, p, i)
    ensures OccursAt(y, p, i) ==> OccursAt(x + y, p, |x| + i)
  {
    if OccursAt(x, p, i) {
      assert (x + y)[i..i + |p|] == x[i..i + |p|];
    }
    if OccursAt(y, p, i) {
      assert (x + y)[|x| + i..|x| + i + |p|] == y[i..i + |p|];
    }
  }

  /** An occurrence in a concatenation lies in one part or covers the seam. */
  lemma OccursSplit(x: string, y: string, p: string, i: nat)
    requires OccursAt(x + y, p, i)
    ensures i + |p| <= |x| ==> OccursAt(x, p, i)
    ensures i >= |x| ==> OccursAt(y, p, i - |x|)
  {
    if i + |p| <= |x| {
      assert (x + y)[i..i + |p|] == x[i..i + |p|];
    }
    if i >= |x| {
      assert (x + y)[i..i + |p|] == y[i - |x|..i - |x| + |p|];
    }
  }

  /** Every character an occurrence covers is a character of the pattern. */
  lemma OccursCovers(s: string, p: string, i: nat, k: nat)
    requires OccursAt(s, p, i) && i <= k < i + |p|
    ensures s[k] in p
  {
    assert s[k] == s[i..i + |p|][k - i];
  }

  /** An occurrence in `a + [c] + b` of a pattern without `c` lies in `a` or in `b`. */
  lemma OccursAroundSeparator(a: string, c: char, b: string, p: string, i: nat)
    requires c !in p && OccursAt(a + ([c] + b), p, i)
    ensures Contains(a, p) || Contains(b, p)
  {
    var cb := [c] + b;
    OccursSplit(a, cb, p, i);
    if i + |p| <= |a| {
      assert OccursAt(a, p, i);
    } else if i > |a| {
      OccursSplit([c], b, p, i - |a|);
      assert OccursAt(b, p, i - |a| - 1);
    } else {
      OccursCovers(a + cb, p, i, |a|);
      assert false;
    }
  }

  /** An occurrence in `b` is one in `a + [c] + b`, shifted past `a` and `c`. */
  lemma OccursAfterSeparator(a: string, c: char, b: string, p: string, i: nat)
    requires OccursAt(b, p, i)
    ensures OccursAt(a + ([c] + b), p, |a| + 1 + i)
  {
    OccursInConcat([c], b, p, i);
    OccursInConcat(a, [c] + b, p, 1 + i);
  }

  /** A character that the pattern does not use splits the search in two. */
  lemma ContainsAcross(a: string, c: char, b: string, p: string)
    requires c !in p
    ensures Contains(a + [c] + b, p) <==> Contains(a, p) || Contains(b, p)
  {
    var cb := [c] + b;
    var s := a + cb;
    assert a + [c] + b == s;
    if Contains(s, p) {
      var i: nat :| i <= |s| && OccursAt(s, p, i);
      OccursAroundSeparator(a, c, b, p, i);
    }
    if Contains(a, p) {
      var i: nat :| i <= |a| && OccursAt(a, p, i);
      OccursInConcat(a, cb, p, i);
      assert OccursAt(s, p, i);
    }
    if Contains(b, p) {
      var i: nat :| i <= |b| && OccursAt(b, p, i);
      OccursAfterSeparator(a, c, b, p, i);
      var j: nat := |a| + 1 + i;
      assert j <= |s| && OccursAt(s, p, j);
    }
  }

  /** A text that ends in the pattern contains it (so a code equal to the pattern is found). */
  lemma ContainsSelf(s: string, prefix: string)
    ensures Contains(prefix + s, s)
  {
    var t := prefix + s;
    assert t[|prefix|..|prefix| + |s|] == s;
    assert OccursAt(t, s, |prefix|);
  }

  predicate IsDigit(c: char) {
    '0' <= c <= '9'
  }

  predicate AllDigits(s: string) {
    forall i :: 0 <= i < |s| ==> IsDigit(s[i])
  }

  function Pow10(n: nat): (r: nat)
    ensures r >= 1
  {
    if n == 0 then 1 else 10 * Pow10(n - 1)
  }

  function DigitValue(c: char): (d: nat)
    requires IsDigit(c)
    ensures d <= 9
  {
    c as int - '0' as int
  }

  /** The number a string of decimal digits denotes, most significant digit first. */
  function DigitsValue(s: string): (v: nat)
    requires AllDigits(s)
    ensures v < Pow10(|s|)
  {
    if |s| == 0 then 0
    else
      var rest := DigitsValue(s[1..]);
      LeadingDigitBound(DigitValue(s[0]), rest, Pow10(|s| - 1));
      DigitValue(s[0]) * Pow10(|s| - 1) + rest
  }

  /** A leading digit and a smaller remainder stay below the next power of ten. */
  lemma LeadingDigitBound(d: nat, rest: nat, p: nat)
    requires d <= 9 && rest < p
    ensures 0 <= d * p + rest < 10 * p
  {
    assert d * p <= 9 * p;
  }

  /** A smaller leading digit wins whatever the remainders are. */
  lemma LeadingDigitOrder(da: nat, db: nat, ra: nat, rb: nat, p: nat)
    requires da < db && ra < p && rb < p
    ensures da * p + ra < db * p + rb
  {
    var k := db - da;
    assert k >= 1;
    assert db * p == da * p + k * p;
    assert k * p >= p;
  }

  /** Numbers written with a leading digit and a remainder below `p` compare digit first. */
  lemma LeadingDigitCompare(da: nat, db: nat, ra: nat, rb: nat, p: nat)
    requires ra < p && rb < p
    ensures da * p + ra < db * p + rb <==> da < db || (da == db && ra < rb)
  {
    if da < db {
      LeadingDigitOrder(da, db, ra, rb, p);
    } else if db < da {
      LeadingDigitOrder(db, da, rb, ra, p);
    }
  }

  /** Two digit strings of one length compare by their leading digits first, then by the rest. */
  lemma LeadingDigitsCompare(a: string, b: string)
    requires |a| == |b| > 0 && AllDigits(a) && AllDigits(b)
    ensures DigitsValue(a) < DigitsValue(b) <==>
              a[0] < b[0] || (a[0] == b[0] && DigitsValue(a[1..]) < DigitsValue(b[1..]))
  {
    var p: int := Pow10(|a| - 1);
    var da: int, db: int := DigitValue(a[0]), DigitValue(b[0]);
    var ra: int, rb: int := DigitsValue(a[1..]), DigitsValue(b[1..]);
    assert DigitsValue(a) == da * p + ra && DigitsValue(b) == db * p + rb;
    LeadingDigitCompare(da, db, ra, rb, p);
    assert a[0] < b[0] <==> da < db;
    assert a[0] == b[0] <==> da == db;
  }

  /**
   * For digit strings of one length, string order is numeric order. This is
   * the condition under which the backend's string comparison of timestamps
   * agrees with their numeric order.
   */
  lemma {:induction false} DigitOrderIsNumeric(a: string, b: string)
    requires |a| == |b| && AllDigits(a) && AllDigits(b)
    ensures StrLess(a, b) <==> DigitsValue(a) < DigitsValue(b)
    decreases |a|
  {
    if |a| > 0 {
      LeadingDigitsCompare(a, b);
      if a[0] == b[0] {
        DigitOrderIsNumeric(a[1..], b[1..]);
      }
    }
  }

  /** Equal-length digit strings with the same value are the same string. */
  lemma DigitsValueInjective(a: string, b: string)
    requires |a| == |b| && AllDigits(a) && AllDigits(b)
    requires DigitsValue(a) == DigitsValue(b)
    ensures a == b
  {
    StrLessTotal(a, b);
    DigitOrderIsNumeric(a, b);
    DigitOrderIsNumeric(b, a);
  }

  /**
   * Slack timestamps `seconds.micros`: when both parts have the same widths
   * in the two timestamps, string order is the numeric order of
   * (seconds, micros).
   */
  lemma TimestampOrderIsNumeric(sec: string, micro: string, sec': string, micro': string)
    requires |sec| == |sec'| && |micro| == |micro'|
    requires AllDigits(sec) && AllDigits(micro) && AllDigits(sec') && AllDigits(micro')
    ensures StrLess(sec + "." + micro, sec' + "." + micro') <==>
              DigitsValue(sec) < DigitsValue(sec') ||
              (DigitsValue(sec) == DigitsValue(sec') && DigitsValue(micro) < DigitsValue(micro'))
  {
    assert sec + "." + micro == sec + ("." + micro);
    assert sec' + "." + micro' == sec' + ("." + micro');
    StrLessConcat(sec, "." + micro, sec', "." + micro');
    StrLessConcat(".", micro, ".", micro');
    StrLessIrreflexive(".");
    DigitOrderIsNumeric(sec, sec');
    DigitOrderIsNumeric(micro, micro');
    if DigitsValue(sec) == DigitsValue(sec') {
      DigitsValueInjective(sec, sec');
    }
  }
}
