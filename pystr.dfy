/**
 * The parts of Python's `str` the core relies on: `strip()`, `upper()`,
 * `startswith`, `endswith`, the `in` substring test, `sep.join(...)`,
 * `str(n)` for an integer, and the order `sorted` puts strings in.
 *
 * Whitespace is exactly the set of code points for which Python's
 * `str.isspace()` holds; upper-casing is ASCII only (see README).
 */
module PyStr {

  // ---------------------------------------------------------------------
  // Whitespace and strip()

  /** `c.isspace()`: the 29 code points Python treats as whitespace. */
  predicate IsSpace(c: char) {
    || ('\t' <= c <= '\r')
    || ('\U{1C}' <= c <= ' ')
    || c == '\U{85}' || c == '\U{A0}' || c == '\U{1680}'
    || ('\U{2000}' <= c <= '\U{200A}')
    || c == '\U{2028}' || c == '\U{2029}' || c == '\U{202F}' || c == '\U{205F}' || c == '\U{3000}'
  }

  predicate AllSpace(s: string) {
    forall i :: 0 <= i < |s| ==> IsSpace(s[i])
  }

  lemma AllSpaceConcat(a: string, b: string)
    requires AllSpace(a) && AllSpace(b)
    ensures AllSpace(a + b)
  {
  }

  /** Neither end of `s` is whitespace: what `strip()` guarantees of its result. */
  predicate Trimmed(s: string) {
    |s| == 0 || (!IsSpace(s[0]) && !IsSpace(s[|s| - 1]))
  }

  /** `s.lstrip()`: `s` without its longest all-whitespace prefix. */
  function LStrip(s: string): string {
    if |s| > 0 && IsSpace(s[0]) then LStrip(s[1..]) else s
  }

  /** `s.rstrip()`: `s` without its longest all-whitespace suffix. */
  function RStrip(s: string): string {
    if |s| > 0 && IsSpace(s[|s| - 1]) then RStrip(s[..|s| - 1]) else s
  }

  lemma {:induction false} LStripSpec(s: string)
    ensures |LStrip(s)| <= |s| && LStrip(s) == s[|s| - |LStrip(s)|..]
    ensures AllSpace(s[..|s| - |LStrip(s)|])
    ensures LStrip(s) == [] || !IsSpace(LStrip(s)[0])
  {
    if |s| > 0 && IsSpace(s[0]) {
      LStripSpec(s[1..]);
      var r := LStrip(s[1..]);
      var pre := s[..|s| - |r|];
      forall i | 0 <= i < |pre|
        ensures IsSpace(pre[i])
      {
        if i > 0 {
          assert s[i] == s[1..][..|s| - 1 - |r|][i - 1];
        }
      }
    }
  }

  lemma {:induction false} RStripSpec(s: string)
    ensures |RStrip(s)| <= |s| && RStrip(s) == s[..|RStrip(s)|]
    ensures AllSpace(s[|RStrip(s)|..])
    ensures RStrip(s) == [] || !IsSpace(RStrip(s)[|RStrip(s)| - 1])
  {
    if |s| > 0 && IsSpace(s[|s| - 1]) {
      RStripSpec(s[..|s| - 1]);
      var r := RStrip(s[..|s| - 1]);
      assert s[|r|..] == s[..|s| - 1][|r|..] + [s[|s| - 1]];
    }
  }

  /** `s.strip()`: `s` without whitespace at either end. */
  function Strip(s: string): (r: string)
    ensures Trimmed(r)
  {
    LStripSpec(s);
    RStripSpec(LStrip(s));
    RStrip(LStrip(s))
  }

  /** What `strip()` removed: an all-whitespace prefix and suffix around its result. */
  lemma StripSplit(s: string) returns (a: string, b: string)
    ensures s == a + Strip(s) + b && AllSpace(a) && AllSpace(b)
  {
    var l := LStrip(s);
    LStripSpec(s);
    RStripSpec(l);
    var r := RStrip(l);
    a, b := s[..|s| - |l|], l[|r|..];
    assert l == r + b;
    assert s == a + l;
  }

  lemma {:induction false} LStripOf(a: string, t: string)
    requires AllSpace(a) && (t == [] || !IsSpace(t[0]))
    ensures LStrip(a + t) == t
  {
    if a != [] {
      assert (a + t)[1..] == a[1..] + t;
      LStripOf(a[1..], t);
    } else {
      assert a + t == t;
    }
  }

  lemma {:induction false} RStripOf(t: string, b: string)
    requires AllSpace(b) && (t == [] || !IsSpace(t[|t| - 1]))
    ensures RStrip(t + b) == t
  {
    if b != [] {
      assert (t + b)[..|t + b| - 1] == t + b[..|b| - 1];
      RStripOf(t, b[..|b| - 1]);
    } else {
      assert t + b == t;
    }
  }

  /**
   * `strip()` is determined by its result: whatever is framed by
   * whitespace on both sides and trimmed itself is what `strip()` returns.
   */
  lemma {:induction false} StripOf(a: string, r: string, b: string)
    requires AllSpace(a) && AllSpace(b) && Trimmed(r)
    ensures Strip(a + r + b) == r
  {
    if r == [] {
      assert a + r + b == (a + b) + [];
      AllSpaceConcat(a, b);
      LStripOf(a + b, []);
    } else {
      assert a + r + b == a + (r + b);
      LStripOf(a, r + b);
      RStripOf(r, b);
    }
  }

  /** Trailing whitespace after a trimmed string is all `Strip` removes. */
  lemma StripTrailing(r: string, b: string)
    requires AllSpace(b) && Trimmed(r)
    ensures Strip(r + b) == r
  {
    StripOf([], r, b);
    assert [] + r + b == r + b;
  }

  lemma StripTrimmed(s: string)
    requires Trimmed(s)
    ensures Strip(s) == s
  {
    assert s == [] + s + [];
    StripOf([], s, []);
  }

  /** `rstrip()` never eats into a prefix that ends in a non-space. */
  lemma {:induction false} RStripKeepsPrefix(p: string, t: string)
    requires |p| > 0 && !IsSpace(p[|p| - 1])
    ensures StartsWith(RStrip(p + t), p)
  {
    if t == [] {
      assert p + t == p;
    } else if IsSpace(t[|t| - 1]) {
      assert (p + t)[..|p + t| - 1] == p + t[..|t| - 1];
      RStripKeepsPrefix(p, t[..|t| - 1]);
    } else {
      assert (p + t)[..|p|] == p;
    }
  }

  /** After leading whitespace, a word that starts and ends in non-spaces survives `strip()`. */
  lemma StripStartsWith(a: string, p: string, t: string)
    requires AllSpace(a) && |p| > 0 && !IsSpace(p[0]) && !IsSpace(p[|p| - 1])
    ensures StartsWith(Strip(a + p + t), p)
  {
    assert a + p + t == a + (p + t);
    LStripOf(a, p + t);
    RStripKeepsPrefix(p, t);
  }

  /** `strip()` is idempotent, and whitespace around its argument is irrelevant. */
  lemma {:induction false} StripPadded(a: string, s: string, b: string)
    requires AllSpace(a) && AllSpace(b)
    ensures Strip(a + s + b) == Strip(s)
    ensures Strip(Strip(s)) == Strip(s)
  {
    var r := Strip(s);
    var a', b' := StripSplit(s);
    assert a + s + b == (a + a') + r + (b' + b);
    AllSpaceConcat(a, a');
    AllSpaceConcat(b', b);
    StripOf(a + a', r, b' + b);
    StripTrimmed(r);
  }

  // ---------------------------------------------------------------------
  // upper()

  /** ASCII upper-casing of one character. */
  function UpperChar(c: char): char {
    if 'a' <= c <= 'z' then (c as int - 32) as char else c
  }

  /** `s.upper()`, character by character. */
  function Upper(s: string): (r: string)
    ensures |r| == |s| && forall i :: 0 <= i < |s| ==> r[i] == UpperChar(s[i])
  {
    seq(|s|, i requires 0 <= i < |s| => UpperChar(s[i]))
  }

  lemma UpperCharSpace(c: char)
    ensures IsSpace(UpperChar(c)) == IsSpace(c)
  {
  }

  /** Upper-casing neither creates nor removes whitespace. */
  lemma UpperKeepsSpace(s: string)
    ensures AllSpace(s) ==> AllSpace(Upper(s))
    ensures Trimmed(s) ==> Trimmed(Upper(s))
  {
    forall i | 0 <= i < |s| ensures IsSpace(Upper(s)[i]) == IsSpace(s[i]) {
      UpperCharSpace(s[i]);
    }
  }

  lemma UpperConcat(a: string, b: string)
    ensures Upper(a + b) == Upper(a) + Upper(b)
  {
  }

  lemma UpperIdempotent(s: string)
    ensures Upper(Upper(s)) == Upper(s)
  {
  }

  /** Upper-casing leaves whitespace alone, so it commutes with `strip()`. */
  lemma {:induction false} StripUpper(s: string)
    ensures Strip(Upper(s)) == Upper(Strip(s))
  {
    var r := Strip(s);
    var a, b := StripSplit(s);
    UpperConcat(a + r, b);
    UpperConcat(a, r);
    UpperKeepsSpace(a);
    UpperKeepsSpace(r);
    UpperKeepsSpace(b);
    StripOf(Upper(a), Upper(r), Upper(b));
  }

  // ---------------------------------------------------------------------
  // startswith, endswith, `in`

  predicate StartsWith(s: string, p: string) {
    |p| <= |s| && s[..|p|] == p
  }

  predicate EndsWith(s: string, p: string) {
    |p| <= |s| && s[|s| - |p|..] == p
  }

  /** A string that starts with a non-empty `p` has `p`'s first character first. */
  lemma FirstChar(s: string, p: string)
    requires StartsWith(s, p) && |p| > 0
    ensures |s| > 0 && s[0] == p[0]
  {
    assert s[..|p|][0] == p[0];
  }

  /** A string that ends with a non-empty `p` has `p`'s last character last. */
  lemma LastChar(s: string, p: string)
    requires EndsWith(s, p) && |p| > 0
    ensures |s| > 0 && s[|s| - 1] == p[|p| - 1]
  {
    assert s[|s| - |p|..][|p| - 1] == p[|p| - 1];
  }

  /** A string that ends with `p` ends with `p`'s last character; usable to show it does not. */
  lemma EndsWithLast(s: string, p: string)
    requires |p| > 0
    ensures EndsWith(s, p) ==> |s| > 0 && s[|s| - 1] == p[|p| - 1]
  {
    if EndsWith(s, p) {
      LastChar(s, p);
    }
  }

  /** Prefixes compose: a string starting with `p` starts with every prefix of `p`. */
  lemma StartsWithShorter(s: string, p: string, q: string)
    requires StartsWith(p, q)
    ensures StartsWith(s, p) ==> StartsWith(s, q)
  {
    if StartsWith(s, p) {
      assert s[..|q|] == s[..|p|][..|q|];
    }
  }

  /** `p` occurs in `s` starting at index `i`. */
  predicate OccursAt(s: string, p: string, i: int) {
    0 <= i <= |s| - |p| && s[i..i + |p|] == p
  }

  /** `p in s`: `p` occurs in `s` as a contiguous substring. */
  predicate Contains(s: string, p: string) {
    exists i | 0 <= i <= |s| - |p| :: OccursAt(s, p, i)
  }

  lemma ContainsExtend(a: string, s: string, b: string, p: string)
    requires Contains(s, p)
    ensures Contains(a + s + b, p)
  {
    var i :| 0 <= i <= |s| - |p| && OccursAt(s, p, i);
    assert (a + s + b)[|a| + i..|a| + i + |p|] == s[i..i + |p|];
    assert OccursAt(a + s + b, p, |a| + i);
  }

  /** What occurs in `s` occurs in `s` followed by anything. */
  lemma ContainsLeft(s: string, b: string, p: string)
    requires Contains(s, p)
    ensures Contains(s + b, p)
  {
    ContainsExtend([], s, b, p);
    assert [] + s + b == s + b;
  }

  /** What occurs in `s` occurs in `s` preceded by anything. */
  lemma ContainsRight(a: string, s: string, p: string)
    requires Contains(s, p)
    ensures Contains(a + s, p)
  {
    ContainsExtend(a, s, [], p);
    assert a + s + [] == a + s;
  }

  /**
   * A pattern without whitespace that occurs in a whitespace-padded
   * string occurs in the part between the padding.
   */
  lemma ContainsInner(a: string, m: string, b: string, p: string)
    requires AllSpace(a) && AllSpace(b) && |p| > 0 && !IsSpace(p[0]) && !IsSpace(p[|p| - 1])
    requires Contains(a + m + b, p)
    ensures Contains(m, p)
  {
    var s := a + m + b;
    var i :| 0 <= i <= |s| - |p| && OccursAt(s, p, i);
    assert s[i] == s[i..i + |p|][0] == p[0];
    assert s[i + |p| - 1] == s[i..i + |p|][|p| - 1] == p[|p| - 1];
    assert |a| <= i && i + |p| <= |a| + |m|;
    assert m[i - |a|..i - |a| + |p|] == s[i..i + |p|];
    assert OccursAt(m, p, i - |a|);
  }

  /**
   * `p` does not occur in `s` when no position of `s` starts with the
   * first three characters of `p`.
   */
  lemma AbsentByPrefix(s: string, p: string)
    requires |p| >= 3
    requires forall i | 0 <= i <= |s| - 3 :: s[i] != p[0] || s[i + 1] != p[1] || s[i + 2] != p[2]
    ensures !Contains(s, p)
  {
    forall i | 0 <= i <= |s| - |p|
      ensures !OccursAt(s, p, i)
    {
      var w := s[i..i + |p|];
      assert w[0] == s[i] && w[1] == s[i + 1] && w[2] == s[i + 2];
    }
  }

  /** `r` is a contiguous piece of `s`. */
  predicate IsSlice(r: string, s: string) {
    exists i, j | 0 <= i <= j <= |s| :: s[i..j] == r
  }

  lemma SliceOfSlice(r: string, m: string, s: string)
    requires IsSlice(r, m) && IsSlice(m, s)
    ensures IsSlice(r, s)
  {
    var i, j :| 0 <= i <= j <= |m| && m[i..j] == r;
    var k, l :| 0 <= k <= l <= |s| && s[k..l] == m;
    forall t | 0 <= t < |r|
      ensures s[k + i..k + j][t] == r[t]
    {
      assert r[t] == m[i + t] == s[k + i + t];
    }
    assert s[k + i..k + j] == r;
  }

  /** `strip()` returns a contiguous piece of its argument. */
  lemma StripSlice(s: string)
    ensures IsSlice(Strip(s), s)
  {
    var a, b := StripSplit(s);
    assert s[|a|..|a| + |Strip(s)|] == Strip(s);
  }

  // ---------------------------------------------------------------------
  // sep.join(xs)

  /** `sep.join(xs)`: the elements of `xs` with `sep` between neighbours. */
  function Join(sep: string, xs: seq<string>): string {
    if |xs| == 0 then ""
    else if |xs| == 1 then xs[0]
    else Join(sep, xs[..|xs| - 1]) + sep + xs[|xs| - 1]
  }

  /** Joining one more string adds one separator and that string. */
  lemma JoinSnoc(sep: string, xs: seq<string>, x: string)
    requires |xs| > 0
    ensures Join(sep, xs + [x]) == Join(sep, xs) + sep + x
  {
    assert (xs + [x])[..|xs|] == xs;
  }

  /** A join of several strings starts with the first of them and ends with the last. */
  lemma {:induction false} JoinEnds(sep: string, xs: seq<string>)
    requires |xs| > 0
    ensures StartsWith(Join(sep, xs), xs[0])
    ensures EndsWith(Join(sep, xs), xs[|xs| - 1])
  {
    if |xs| > 1 {
      JoinEnds(sep, xs[..|xs| - 1]);
    }
  }

  /** Whatever occurs in one of the joined strings occurs in the join. */
  lemma {:induction false} JoinContains(sep: string, xs: seq<string>, k: nat, p: string)
    requires k < |xs| && Contains(xs[k], p)
    ensures Contains(Join(sep, xs), p)
  {
    if |xs| > 1 {
      var init := xs[..|xs| - 1];
      if k < |xs| - 1 {
        assert init[k] == xs[k];
        JoinContains(sep, init, k, p);
        ContainsExtend([], Join(sep, init), sep + xs[|xs| - 1], p);
        assert [] + Join(sep, init) + (sep + xs[|xs| - 1]) == Join(sep, xs);
      } else {
        ContainsExtend(Join(sep, init) + sep, xs[k], [], p);
        assert Join(sep, init) + sep + xs[k] + [] == Join(sep, xs);
      }
    }
  }

  // ---------------------------------------------------------------------
  // str(n)

  function DigitChar(d: nat): (c: char)
    requires d < 10
    ensures '0' <= c <= '9'
  {
    ('0' as int + d) as char
  }

  /** `str(n)` for `n >= 0`: decimal digits, most significant first, no leading zeros. */
  function NatToString(n: nat): (r: string)
    ensures |r| > 0 && forall i :: 0 <= i < |r| ==> '0' <= r[i] <= '9'
    ensures |r| > 1 <==> n >= 10
  {
    if n < 10 then [DigitChar(n)] else NatToString(n / 10) + [DigitChar(n % 10)]
  }

  /** `str(n)`: a minus sign for negative numbers, then the digits of the magnitude. */
  function IntToString(n: int): (r: string)
    ensures |r| > 0 && forall i :: 0 <= i < |r| ==> r[i] == '-' || '0' <= r[i] <= '9'
    ensures r[0] == '-' <==> n < 0
  {
    if n < 0 then "-" + NatToString(-n) else NatToString(n)
  }

  lemma {:induction false} NatToStringInjective(a: nat, b: nat)
    requires NatToString(a) == NatToString(b)
    ensures a == b
  {
    var s := NatToString(a);
    if a >= 10 && b >= 10 {
      assert s[|s| - 1] == DigitChar(a % 10) == DigitChar(b % 10);
      assert s[..|s| - 1] == NatToString(a / 10) == NatToString(b / 10);
      NatToStringInjective(a / 10, b / 10);
    }
  }

  /** Distinct numbers print differently. */
  lemma IntToStringInjective(a: int, b: int)
    requires IntToString(a) == IntToString(b)
    ensures a == b
  {
    if a < 0 {
      assert IntToString(a)[1..] == NatToString(-a) == NatToString(-b);
      NatToStringInjective(-a, -b);
    } else {
      NatToStringInjective(a, b);
    }
  }

  // ---------------------------------------------------------------------
  // The order `sorted` uses on strings

  /** Python's `a < b` on `str`: lexicographic by code point, a proper prefix first. */
  predicate Less(a: string, b: string) {
    if |a| == 0 then |b| > 0
    else if |b| == 0 then false
    else if a[0] != b[0] then a[0] < b[0]
    else Less(a[1..], b[1..])
  }

  lemma {:induction false} LessIrreflexive(a: string)
    ensures !Less(a, a)
  {
    if |a| > 0 {
      LessIrreflexive(a[1..]);
    }
  }

  lemma {:induction false} LessTransitive(a: string, b: string, c: string)
    requires Less(a, b) && Less(b, c)
    ensures Less(a, c)
  {
    if |a| > 0 && |b| > 0 && |c| > 0 && a[0] == b[0] == c[0] {
      LessTransitive(a[1..], b[1..], c[1..]);
    }
  }

  lemma {:induction false} LessTotal(a: string, b: string)
    requires a != b
    ensures Less(a, b) || Less(b, a)
  {
    if |a| > 0 && |b| > 0 && a[0] == b[0] {
      assert a == [a[0]] + a[1..] && b == [b[0]] + b[1..];
      LessTotal(a[1..], b[1..]);
    }
  }

  lemma LessAsymmetric(a: string, b: string)
    requires Less(a, b)
    ensures !Less(b, a)
  {
    if Less(b, a) {
      LessTransitive(a, b, a);
      LessIrreflexive(a);
    }
  }

  // ---------------------------------------------------------------------
  // sorted(...) over the keys of a dict

  /** Strictly increasing: each string occurs once, in ascending order. */
  predicate StrictlyAscending(s: seq<string>) {
    forall i, j :: 0 <= i < j < |s| ==> Less(s[i], s[j])
  }

  predicate Distinct<T(==)>(s: seq<T>) {
    forall i, j :: 0 <= i < j < |s| ==> s[i] != s[j]
  }

  lemma AscendingCons(y: string, t: seq<string>)
    requires StrictlyAscending(t)
    requires forall j :: 0 <= j < |t| ==> Less(y, t[j])
    ensures StrictlyAscending([y] + t)
  {
  }

  /** Inserts `x` into an ascending list that lacks it. */
  function Insert(x: string, s: seq<string>): (r: seq<string>)
    requires StrictlyAscending(s) && x !in s
    ensures StrictlyAscending(r) && |r| == |s| + 1
    ensures forall y :: y in r <==> y == x || y in s
  {
    if s == [] then [x]
    else if Less(s[0], x) then
      var t := Insert(x, s[1..]);
      assert forall y :: y in s <==> y == s[0] || y in s[1..] by {
        assert s == [s[0]] + s[1..];
      }
      forall j | 0 <= j < |t| ensures Less(s[0], t[j]) {
        assert t[j] in t;
        if t[j] != x {
          var k :| 0 <= k < |s| - 1 && s[1..][k] == t[j];
          assert s[k + 1] == t[j];
        }
      }
      AscendingCons(s[0], t);
      [s[0]] + t
    else
      assert s[0] != x;
      LessTotal(x, s[0]);
      forall j | 0 <= j < |s| ensures Less(x, s[j]) {
        if j > 0 {
          LessTransitive(x, s[0], s[j]);
        }
      }
      AscendingCons(x, s);
      [x] + s
  }

  /**
   * `sorted(keys)` for the distinct keys of a dict, computed by insertion:
   * the same strings, ascending.
   */
  function SortKeys(s: seq<string>): (r: seq<string>)
    requires Distinct(s)
    ensures StrictlyAscending(r) && |r| == |s|
    ensures forall y :: y in r <==> y in s
  {
    if s == [] then []
    else
      var init := s[..|s| - 1];
      assert forall y :: y in s <==> y in init || y == s[|s| - 1] by {
        assert s == init + [s[|s| - 1]];
      }
      Insert(s[|s| - 1], SortKeys(init))
  }

  /**
   * An ascending list is determined by its elements, so any correct sort
   * (Python's Timsort included) returns what `SortKeys` returns.
   */
  lemma {:induction false} AscendingUnique(s: seq<string>, t: seq<string>)
    requires StrictlyAscending(s) && StrictlyAscending(t)
    requires forall y :: y in s <==> y in t
    ensures s == t
  {
    if s != [] {
      assert s[0] in t;
    }
    if t != [] {
      assert t[0] in s;
    }
    if s != [] && t != [] {
      var i :| 0 <= i < |t| && t[i] == s[0];
      var j :| 0 <= j < |s| && s[j] == t[0];
      if s[0] != t[0] {
        assert Less(t[0], s[0]) && Less(s[0], t[0]);
        LessAsymmetric(t[0], s[0]);
      }
      forall y ensures y in s[1..] <==> y in t[1..] {
        AscendingTail(s, y);
        AscendingTail(t, y);
      }
      AscendingUnique(s[1..], t[1..]);
      assert s == [s[0]] + s[1..] && t == [t[0]] + t[1..];
    }
  }

  lemma AscendingTail(s: seq<string>, y: string)
    requires StrictlyAscending(s) && s != []
    ensures y in s[1..] <==> y in s && y != s[0]
  {
    assert s == [s[0]] + s[1..];
    if y in s[1..] {
      var k :| 0 <= k < |s| - 1 && s[1..][k] == y;
      assert Less(s[0], s[k + 1]);
      LessIrreflexive(s[0]);
    }
  }
}
