/** Text operations the kernel assembly relies on: Rust's `str::replace`
    (replace every non-overlapping occurrence, scanning left to right) and the
    decimal rendering `format!("{}", n)` of an integer. */
module Strings {

  /** `pat` occurs somewhere in `s`. */
  predicate Occurs(s: string, pat: string)
    decreases |s|
  {
    |pat| <= |s| && (s[..|pat|] == pat || Occurs(s[1..], pat))
  }

  /** `s.replace(pat, rep)`: every occurrence of `pat` found by a left-to-right
      scan is replaced by `rep`; after a match the scan resumes behind it. An
      empty pattern matches before every character and at the end. A text in
      which the pattern does not occur comes back unchanged. */
  function ReplaceAll(s: string, pat: string, rep: string): (r: string)
    ensures !Occurs(s, pat) ==> r == s
    decreases |s|
  {
    if |pat| == 0 then
      if s == [] then rep else rep + [s[0]] + ReplaceAll(s[1..], pat, rep)
    else if |pat| <= |s| && s[..|pat|] == pat then
      rep + ReplaceAll(s[|pat|..], pat, rep)
    else if s == [] then
      []
    else
      assert s == [s[0]] + s[1..];
      [s[0]] + ReplaceAll(s[1..], pat, rep)
  }

  /** A text with exactly one occurrence of `pat`, placed so that the scan
      cannot find an earlier match overlapping it, has that occurrence
      replaced and nothing else touched. */
  lemma {:induction false} ReplaceSingle(pre: string, pat: string, post: string, rep: string)
    requires |pat| > 0
    requires !Occurs(pre + pat[..|pat| - 1], pat)
    requires !Occurs(post, pat)
    ensures ReplaceAll(pre + pat + post, pat, rep) == pre + rep + post
    decreases |pre|
  {
    var s := pre + pat + post;
    if pre == [] {
      assert s == pat + post;
      assert s[..|pat|] == pat;
      assert s[|pat|..] == post;
    } else {
      var w := pre + pat[..|pat| - 1];
      assert s[..|pat|] == w[..|pat|];
      assert w[1..] == pre[1..] + pat[..|pat| - 1];
      ReplaceSingle(pre[1..], pat, post, rep);
      DropFirst(pre, pat, post);
      DropFirst(pre, rep, post);
    }
  }

  /** The first character and the rest of a text that starts with non-empty `x`. */
  lemma JoinTail(x: string, y: string)
    requires |x| > 0
    ensures (x + y)[0] == x[0] && (x + y)[1..] == x[1..] + y
    ensures [x[0]] + (x[1..] + y) == x + y
  {
    assert x == [x[0]] + x[1..];
  }

  /** Taking the first character off a text that starts with non-empty `x`. */
  lemma DropFirst(x: string, y: string, z: string)
    requires |x| > 0
    ensures x + y + z == [x[0]] + (x[1..] + y + z)
    ensures (x + y + z)[1..] == x[1..] + y + z
  {
    assert x == [x[0]] + x[1..];
  }

  /** `t` begins with `p`. */
  predicate StartsWith(t: string, p: string) {
    |p| <= |t| && t[..|p|] == p
  }

  /** `x` and `y` agree on their common length: one is a prefix of the other. */
  predicate Compatible(x: string, y: string) {
    if |x| <= |y| then y[..|x|] == x else x[..|y|] == y
  }

  /** No occurrence of `pat` can start before a text that begins with `z` and
      run into it: no proper suffix of `pat` agrees with the start of `z`. */
  predicate Boundary(pat: string, z: string) {
    forall j :: 1 <= j < |pat| ==> !Compatible(pat[j..], z)
  }

  /** No occurrence of `pat` can start inside `m`, whatever follows it: no
      suffix of `m` agrees with the start of `pat`. */
  predicate NoneStartsIn(m: string, pat: string)
    decreases |m|
  {
    m == [] || (!Compatible(m, pat) && NoneStartsIn(m[1..], pat))
  }

  /** Wherever `m` is placed, no occurrence of `pat` overlaps it: none runs
      into it from the left, and none starts inside it. */
  predicate Inert(pat: string, m: string) {
    Boundary(pat, m) && NoneStartsIn(m, pat)
  }

  /** `NoneStartsIn` checked suffix by suffix. */
  lemma {:induction false} NoneStartsInSuffixes(m: string, pat: string)
    requires forall i :: 0 <= i < |m| ==> !Compatible(m[i..], pat)
    ensures NoneStartsIn(m, pat)
    decreases |m|
  {
    if m != [] {
      assert m[0..] == m;
      forall i | 0 <= i < |m[1..]|
        ensures !Compatible(m[1..][i..], pat)
      {
        assert m[1..][i..] == m[i + 1..];
      }
      NoneStartsInSuffixes(m[1..], pat);
    }
  }

  /** Two texts that differ at a position both have are not compatible. */
  lemma NotCompatibleAt(x: string, y: string, k: nat)
    requires k < |x| && k < |y| && x[k] != y[k]
    ensures !Compatible(x, y)
  {
    if |x| <= |y| {
      assert y[..|x|][k] == y[k];
    } else {
      assert x[..|y|][k] == x[k];
    }
  }

  /** A text that starts with `a` after `x` agrees with `a` on the next part. */
  lemma StraddleCompatible(x: string, m: string, y: string, a: string)
    requires |x| < |a|
    ensures StartsWith(x + m + y, a) ==> Compatible(a[|x|..], m)
  {
    if StartsWith(x + m + y, a) {
      var b := a[|x|..];
      assert b == (m + y)[..|a| - |x|];
      if |b| <= |m| {
        assert m[..|b|] == b;
      } else {
        assert b[..|m|] == m;
      }
    }
  }

  /** `ReplaceAll` treats the text before `m + y` on its own when no
      occurrence can run from it into `m`. */
  lemma {:induction false} ReplaceSplit(x: string, m: string, y: string, pat: string, rep: string)
    requires |pat| > 0 && Boundary(pat, m)
    ensures ReplaceAll(x + m + y, pat, rep) == ReplaceAll(x, pat, rep) + ReplaceAll(m + y, pat, rep)
    decreases |x|
  {
    var s := x + m + y;
    if x == [] {
      assert s == m + y;
    } else if |pat| <= |x| && x[..|pat|] == pat {
      assert s[..|pat|] == pat;
      assert s[|pat|..] == x[|pat|..] + m + y;
      ReplaceSplit(x[|pat|..], m, y, pat, rep);
    } else {
      if |pat| <= |x| {
        assert s[..|pat|] == x[..|pat|];
      } else {
        StraddleCompatible(x, m, y, pat);
      }
      DropFirst(x, m, y);
      ReplaceSplit(x[1..], m, y, pat, rep);
    }
  }

  /** A text that starts with `a` after `m` makes `m` and `a` compatible. */
  lemma LeadCompatible(m: string, y: string, a: string)
    ensures StartsWith(m + y, a) ==> Compatible(m, a)
  {
    if StartsWith(m + y, a) {
      if |m| <= |a| {
        assert a[..|m|] == m;
      } else {
        assert m[..|a|] == a;
      }
    }
  }

  /** A text none of whose suffixes is compatible with `pat` is passed over
      by the scan unchanged. */
  lemma {:induction false} ReplaceKeeps(m: string, y: string, pat: string, rep: string)
    requires |pat| > 0 && NoneStartsIn(m, pat)
    ensures ReplaceAll(m + y, pat, rep) == m + ReplaceAll(y, pat, rep)
    decreases |m|
  {
    if m != [] {
      LeadCompatible(m, y, pat);
      ReplaceSkip(m + y, pat, rep);
      JoinTail(m, y);
      ReplaceKeeps(m[1..], y, pat, rep);
      JoinTail(m, ReplaceAll(y, pat, rep));
    } else {
      assert m + y == y;
    }
  }

  /** One step of the scan at a position where no match starts. */
  lemma ReplaceSkip(s: string, pat: string, rep: string)
    requires |pat| > 0 && s != [] && !StartsWith(s, pat)
    ensures ReplaceAll(s, pat, rep) == [s[0]] + ReplaceAll(s[1..], pat, rep)
  {
  }

  /** Around an inert middle part, the two sides are replaced on their own and
      the middle part is kept. */
  lemma ReplaceAround(x: string, m: string, y: string, pat: string, rep: string)
    requires |pat| > 0 && Inert(pat, m)
    ensures ReplaceAll(x + m + y, pat, rep) == ReplaceAll(x, pat, rep) + m + ReplaceAll(y, pat, rep)
  {
    ReplaceSplit(x, m, y, pat, rep);
    ReplaceKeeps(m, y, pat, rep);
  }

  /** An occurrence of a pattern that cannot overlap another occurrence of
      itself is replaced, and the two sides are replaced on their own. */
  lemma ReplaceThrough(x: string, y: string, pat: string, rep: string)
    requires |pat| > 0 && Boundary(pat, pat)
    ensures ReplaceAll(x + pat + y, pat, rep) == ReplaceAll(x, pat, rep) + rep + ReplaceAll(y, pat, rep)
  {
    ReplaceSplit(x, pat, y, pat, rep);
    assert (pat + y)[..|pat|] == pat;
    assert (pat + y)[|pat|..] == y;
  }

  /** An occurrence in a suffix is an occurrence in the whole text. */
  lemma {:induction false} OccursInSuffix(s: string, pat: string, k: nat)
    requires k <= |s|
    ensures Occurs(s[k..], pat) ==> Occurs(s, pat)
    decreases k
  {
    if k > 0 {
      assert s[k..] == s[1..][k - 1..];
      OccursInSuffix(s[1..], pat, k - 1);
    }
  }

  /** An occurrence in `x + y` that cannot start inside `x` lies in `y`. */
  lemma {:induction false} OccursPast(x: string, y: string, pat: string)
    requires |pat| > 0 && NoneStartsIn(x, pat)
    ensures Occurs(x + y, pat) ==> Occurs(y, pat)
    decreases |x|
  {
    if x != [] {
      LeadCompatible(x, y, pat);
      OccursPast(x[1..], y, pat);
      assert (x + y)[1..] == x[1..] + y;
    } else {
      assert x + y == y;
    }
  }

  /** When `rep` cannot continue any proper suffix of `p`, the output of a
      replacement can start with a proper suffix of `p` only where the input
      already did. */
  lemma {:induction false} StartsThrough(s: string, p: string, pat: string, rep: string, j: nat)
    requires |pat| > 0 && 1 <= j <= |p| && Boundary(p, rep)
    ensures StartsWith(ReplaceAll(s, pat, rep), p[j..]) ==> StartsWith(s, p[j..])
    decreases |s|
  {
    if j < |p| {
      if |pat| <= |s| && s[..|pat|] == pat {
        LeadCompatible(rep, ReplaceAll(s[|pat|..], pat, rep), p[j..]);
        if |rep| <= |p[j..]| {
          assert rep[..|rep|] == rep;
        }
        CompatibleSymmetric(rep, p[j..]);
      } else if s != [] {
        StartsThrough(s[1..], p, pat, rep, j + 1);
        ReplaceSkip(s, pat, rep);
        StartsAfterFirst(s[0], ReplaceAll(s[1..], pat, rep), p[j..]);
        StartsAfterFirst(s[0], s[1..], p[j..]);
        assert [s[0]] + s[1..] == s;
        assert p[j..][1..] == p[j + 1..];
      }
    }
  }

  /** A text after a first character starts with `a` exactly when the
      character is `a`'s first and the rest starts with `a[1..]`. */
  lemma StartsAfterFirst(c: char, t: string, a: string)
    requires a != []
    ensures StartsWith([c] + t, a) <==> c == a[0] && StartsWith(t, a[1..])
  {
    if c == a[0] && StartsWith(t, a[1..]) {
      assert ([c] + t)[..|a|] == [c] + t[..|a| - 1];
      assert a == [a[0]] + a[1..];
    }
    if StartsWith([c] + t, a) {
      assert t[..|a| - 1] == ([c] + t)[1..|a|];
    }
  }

  /** Compatibility does not depend on the order of the two texts. */
  lemma CompatibleSymmetric(x: string, y: string)
    ensures Compatible(x, y) <==> Compatible(y, x)
  {
  }

  /** A replacement by inert text leaves no occurrence of `p` behind: none of
      the pattern itself, and none of another pattern absent from the input. */
  lemma {:induction false} ReplaceLeavesNone(s: string, p: string, pat: string, rep: string)
    requires |p| > 0 && |pat| > 0 && Inert(p, rep)
    requires pat == p || !Occurs(s, p)
    ensures !Occurs(ReplaceAll(s, pat, rep), p)
    decreases |s|
  {
    if |pat| <= |s| && s[..|pat|] == pat {
      OccursInSuffix(s, p, |pat|);
      ReplaceLeavesNone(s[|pat|..], p, pat, rep);
      OccursPast(rep, ReplaceAll(s[|pat|..], pat, rep), p);
    } else if s != [] {
      OccursInSuffix(s, p, 1);
      ReplaceLeavesNone(s[1..], p, pat, rep);
      StartsThrough(s[1..], p, pat, rep, 1);
      var r := ReplaceAll(s[1..], pat, rep);
      assert ReplaceAll(s, pat, rep) == [s[0]] + r;
      assert ([s[0]] + r)[1..] == r;
    }
  }

  /** The character of a decimal digit. */
  function DigitChar(d: nat): (c: char)
    requires d < 10
    ensures '0' <= c <= '9'
  {
    ('0' as int + d) as char
  }

  predicate IsDigit(c: char) {
    '0' <= c <= '9'
  }

  /** `format!("{}", n)` for a natural number: digits, most significant first,
      without leading zeros. */
  function NatToDecimal(n: nat): (s: string)
    ensures |s| >= 1
    ensures forall i :: 0 <= i < |s| ==> IsDigit(s[i])
    ensures s[0] == '0' ==> n == 0
    ensures |s| > 1 ==> s[0] != '0'
    decreases n
  {
    if n < 10 then [DigitChar(n)] else NatToDecimal(n / 10) + [DigitChar(n % 10)]
  }

  /** `format!("{}", n)` for a signed integer: a minus sign before negatives,
      and no leading zero after it. */
  function IntToDecimal(n: int): (s: string)
    ensures |s| >= 1
    ensures (s[0] == '-') <==> n < 0
    ensures forall i :: 0 < i < |s| ==> IsDigit(s[i])
    ensures n >= 0 ==> IsDigit(s[0])
    ensures n >= 0 && |s| > 1 ==> s[0] != '0'
    ensures n < 0 ==> |s| >= 2 && s[1] != '0'
  {
    if n < 0 then "-" + NatToDecimal(-n) else NatToDecimal(n)
  }

  /** The value of a string of decimal digits. */
  function ParseNat(s: string): nat
    requires forall i :: 0 <= i < |s| ==> IsDigit(s[i])
  {
    if s == [] then 0
    else
      assert IsDigit(s[|s| - 1]);
      10 * ParseNat(s[..|s| - 1]) + (s[|s| - 1] as int - '0' as int)
  }

  /** The value of an optionally signed decimal numeral. */
  function ParseInt(s: string): int
    requires |s| >= 1
    requires forall i :: 0 < i < |s| ==> IsDigit(s[i])
    requires s[0] == '-' || IsDigit(s[0])
  {
    if s[0] == '-' then -(ParseNat(s[1..]) as int) else ParseNat(s)
  }

  /** Reading back the digits of a natural number gives the number. */
  lemma {:induction false} NatDecimalRoundTrip(n: nat)
    ensures ParseNat(NatToDecimal(n)) == n
    decreases n
  {
    if n >= 10 {
      NatDecimalRoundTrip(n / 10);
      var s := NatToDecimal(n);
      assert s[..|s| - 1] == NatToDecimal(n / 10);
    }
  }

  /** Reading back the rendering of any integer gives the integer. */
  lemma IntDecimalRoundTrip(n: int)
    ensures ParseInt(IntToDecimal(n)) == n
  {
    if n < 0 {
      NatDecimalRoundTrip(-n);
      assert IntToDecimal(n)[1..] == NatToDecimal(-n);
    } else {
      NatDecimalRoundTrip(n);
    }
  }

  /** The rendering is injective: different integers give different text. */
  lemma IntDecimalInjective(m: int, n: int)
    requires IntToDecimal(m) == IntToDecimal(n)
    ensures m == n
  {
    IntDecimalRoundTrip(m);
    IntDecimalRoundTrip(n);
  }
}
