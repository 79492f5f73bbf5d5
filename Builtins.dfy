/** The few Python built-ins the career matcher relies on: `sum` over reals,
    `str.strip()` and the prefix slice `xs[:k]`. */
module Builtins {

  /** `sum(xs)` over reals. */
  function Sum(xs: seq<real>): real {
    if xs == [] then 0.0 else xs[0] + Sum(xs[1..])
  }

  /** Sum of a concatenation is the sum of the parts. */
  lemma {:induction false} SumAppend(xs: seq<real>, ys: seq<real>)
    ensures Sum(xs + ys) == Sum(xs) + Sum(ys)
  {
    if xs != [] {
      assert (xs + ys)[1..] == xs[1..] + ys;
      SumAppend(xs[1..], ys);
    } else {
      assert xs + ys == ys;
    }
  }

  /** The sum of four numbers, spelled out. */
  lemma SumFour(a: real, b: real, c: real, d: real)
    ensures Sum([a, b, c, d]) == a + b + c + d
  {
    assert [d][1..] == [];
    assert Sum([d]) == d;
    assert [c, d][1..] == [d];
    assert Sum([c, d]) == c + d;
    assert [b, c, d][1..] == [c, d];
    assert Sum([b, c, d]) == b + c + d;
    assert [a, b, c, d][1..] == [b, c, d];
  }

  /** Characters for which Python's `str.isspace()` holds; `str.strip()` with no
      argument removes exactly these. */
  predicate IsSpace(c: char) {
    var n := c as int;
    (9 <= n <= 13) || (28 <= n <= 32) || n == 0x85 || n == 0xA0 || n == 0x1680
    || (0x2000 <= n <= 0x200A) || n == 0x2028 || n == 0x2029 || n == 0x202F
    || n == 0x205F || n == 0x3000
  }

  /** Number of characters at the start of `s` that satisfy `sp`. */
  function LeadingWith(s: string, sp: char -> bool): (n: nat)
    ensures n <= |s|
    ensures forall k :: 0 <= k < n ==> sp(s[k])
    ensures n == |s| || !sp(s[n])
  {
    if s == [] || !sp(s[0]) then 0 else 1 + LeadingWith(s[1..], sp)
  }

  /** `s` without the characters satisfying `sp` at either end. */
  function StripWith(s: string, sp: char -> bool): string {
    if s != [] && sp(s[0]) then StripWith(s[1..], sp)
    else if s != [] && sp(s[|s| - 1]) then StripWith(s[..|s| - 1], sp)
    else s
  }

  /** `s.strip()`: drops whitespace from both ends. */
  function Strip(s: string): string {
    StripWith(s, IsSpace)
  }

  /** `r` neither starts nor ends with a character satisfying `sp`, and `s`
      is some such characters, then `r`, then some such characters. */
  predicate StrippedWith(s: string, r: string, sp: char -> bool) {
    && (r == [] || (!sp(r[0]) && !sp(r[|r| - 1])))
    && var i := LeadingWith(s, sp);
       i + |r| <= |s| && r == s[i..i + |r|] && forall k :: i + |r| <= k < |s| ==> sp(s[k])
  }

  lemma StripLeading(s: string, sp: char -> bool)
    requires s != [] && sp(s[0])
    requires StrippedWith(s[1..], StripWith(s[1..], sp), sp)
    ensures StrippedWith(s, StripWith(s, sp), sp)
  {
    var t := s[1..];
    var r := StripWith(t, sp);
    assert StripWith(s, sp) == r;
    var j := LeadingWith(t, sp);
    assert LeadingWith(s, sp) == 1 + j;
    assert j + |r| <= |t| && r == t[j..j + |r|] && forall k :: j + |r| <= k < |t| ==> sp(t[k]);
    SliceOfTail(s, j, j + |r|);
    assert forall k :: 1 + j + |r| <= k < |s| ==> sp(s[k]) by {
      forall k | 1 + j + |r| <= k < |s| ensures sp(s[k]) {
        assert s[k] == t[k - 1] && sp(t[k - 1]);
      }
    }
  }

  /** Removing characters satisfying `sp` from the end of `t`, which is `s`
      without its last character, leaves a prefix of `s` followed only by such characters. */
  lemma TrailingExtend(s: string, t: string, r: string, sp: char -> bool)
    requires s != [] && sp(s[|s| - 1]) && t == s[..|s| - 1]
    requires |r| <= |t| && r == t[..|r|]
    requires forall k :: |r| <= k < |t| ==> sp(t[k])
    ensures r == s[..|r|]
    ensures forall k :: |r| <= k < |s| ==> sp(s[k])
  {
    PrefixOfPrefix(s, |s| - 1, |r|);
    forall k | |r| <= k < |s| ensures sp(s[k]) {
      if k < |s| - 1 {
        assert s[k] == t[k];
      }
    }
  }

  lemma StripTrailing(s: string, sp: char -> bool)
    requires s != [] && !sp(s[0]) && sp(s[|s| - 1])
    requires StrippedWith(s[..|s| - 1], StripWith(s[..|s| - 1], sp), sp)
    ensures StrippedWith(s, StripWith(s, sp), sp)
  {
    var t := s[..|s| - 1];
    var r := StripWith(t, sp);
    assert StripWith(s, sp) == r;
    assert LeadingWith(s, sp) == 0;
    assert LeadingWith(t, sp) == 0 by {
      assert t == [] || t[0] == s[0];
    }
    TrailingExtend(s, t, r, sp);
  }

  /** What `StripWith` computes: `s` with the characters satisfying `sp` at
      its ends, and only those, removed. */
  lemma {:induction false} StripWithSpec(s: string, sp: char -> bool)
    ensures StrippedWith(s, StripWith(s, sp), sp)
  {
    if s != [] && sp(s[0]) {
      StripWithSpec(s[1..], sp);
      StripLeading(s, sp);
    } else if s != [] && sp(s[|s| - 1]) {
      StripWithSpec(s[..|s| - 1], sp);
      StripTrailing(s, sp);
    } else {
      assert LeadingWith(s, sp) == 0 by {
        if s != [] {
          assert !sp(s[0]);
        }
      }
    }
  }

  /** `s.strip()` removes the whitespace at both ends of `s`, and only
      that. */
  lemma StripSpec(s: string)
    ensures StrippedWith(s, Strip(s), IsSpace)
  {
    StripWithSpec(s, IsSpace);
  }

  /** A slice of the tail is a slice of the whole, one position on. */
  lemma SliceOfTail<T>(s: seq<T>, a: nat, b: nat)
    requires s != [] && a <= b <= |s| - 1
    ensures s[1..][a..b] == s[1 + a..1 + b]
  {
  }

  /** A prefix of a prefix is a prefix. */
  lemma PrefixOfPrefix<T>(s: seq<T>, n: nat, m: nat)
    requires m <= n <= |s|
    ensures s[..n][..m] == s[..m]
  {
  }

  /** Concatenation is associative. */
  lemma AppendAssoc<T>(a: seq<T>, b: seq<T>, c: seq<T>)
    ensures a + (b + c) == (a + b) + c
  {
  }

  /** A prefix one longer is the prefix and the next element. */
  lemma PrefixSnoc<T>(xs: seq<T>, i: nat)
    requires i < |xs|
    ensures xs[..i + 1] == xs[..i] + [xs[i]]
  {
  }

  /** Python's prefix slice `xs[:k]`: a non-negative `k` keeps the first
      `min(k, |xs|)` elements, a negative `k` drops the last `-k` elements. */
  function SliceTo<T>(xs: seq<T>, k: int): (r: seq<T>)
    ensures k >= 0 ==> |r| == if k < |xs| then k else |xs|
    ensures k < 0 ==> |r| == if |xs| + k < 0 then 0 else |xs| + k
    ensures r == xs[..|r|]
  {
    if k >= 0 then
      (if k < |xs| then xs[..k] else xs)
    else
      (if |xs| + k < 0 then [] else xs[..|xs| + k])
  }

  // Facts about dividing by a positive real, stated one at a time so that
  // each proof stays small.

  lemma DivPositive(x: real, s: real)
    requires x > 0.0 && s > 0.0
    ensures x / s > 0.0
  {
  }

  lemma DivTimes(x: real, s: real)
    requires s > 0.0
    ensures (x / s) * s == x
  {
  }

  lemma DivAdd(x: real, y: real, s: real)
    requires s > 0.0
    ensures x / s + y / s == (x + y) / s
  {
  }

  lemma DivSelf(s: real)
    requires s > 0.0
    ensures s / s == 1.0
  {
  }

  lemma DivMonotone(x: real, y: real, d: real)
    requires d > 0.0
    ensures x <= y <==> x / d <= y / d
    ensures x < y <==> x / d < y / d
  {
    DivTimes(x, d);
    DivTimes(y, d);
    if x / d <= y / d {
      assert (x / d) * d <= (y / d) * d;
    }
    if x / d < y / d {
      assert (x / d) * d < (y / d) * d;
    }
  }

  lemma DivUnitInterval(x: real, d: real)
    requires d > 0.0 && 0.0 <= x <= d
    ensures 0.0 <= x / d <= 1.0
  {
    DivMonotone(0.0, x, d);
    DivMonotone(x, d, d);
    DivSelf(d);
  }

  lemma DivByOne(x: real)
    ensures x / 1.0 == x
  {
  }
}
