/**
 * EMapVector (core/scoring/EnergyMap.hh): one energy or weight per score
 * type, held in a fixed-size array and indexed by score type from 1. The
 * arithmetic is specified entry by entry by functions on the array's
 * contents; the lemmas relate those functions to each other.
 *
 * Energies are Reals (doubles) in the source; here they are exact reals.
 */
module EnergyMap {

  /*
   * ---------------------------------------------------------------------
   * The contents of an energy map as values.
   * ---------------------------------------------------------------------
   */

  function Zeros(n: nat): (s: seq<real>)
    ensures |s| == n && forall i :: 0 <= i < n ==> s[i] == 0.0
  {
    seq(n, _ => 0.0)
  }

  /** Score types that name an entry of a map with `n` entries. */
  predicate ValidTypes(l: seq<int>, n: nat) {
    forall k :: 0 <= k < |l| ==> 0 < l[k] <= n
  }

  /** zero(l): the listed entries set to 0, one after the other. */
  function Zeroed(s: seq<real>, l: seq<int>): (r: seq<real>)
    requires ValidTypes(l, |s|)
    ensures |r| == |s|
  {
    if l == [] then s else Zeroed(s, l[..|l| - 1])[l[|l| - 1] - 1 := 0.0]
  }

  /**
   * accumulate(src, l): `src[st]` added to entry st for each st of l, in
   * order; accumulate(src, l, wt) accumulates the source scaled by wt.
   */
  function Accumulated(s: seq<real>, src: seq<real>, l: seq<int>): (r: seq<real>)
    requires |src| == |s| && ValidTypes(l, |s|)
    ensures |r| == |s|
  {
    if l == [] then s
    else
      var t := Accumulated(s, src, l[..|l| - 1]);
      var st := l[|l| - 1];
      t[st - 1 := t[st - 1] + src[st - 1]]
  }

  function Plus(a: seq<real>, b: seq<real>): (r: seq<real>)
    requires |a| == |b|
    ensures |r| == |a| && forall i :: 0 <= i < |a| ==> r[i] == a[i] + b[i]
  {
    seq(|a|, i requires 0 <= i < |a| => a[i] + b[i])
  }

  function Minus(a: seq<real>, b: seq<real>): (r: seq<real>)
    requires |a| == |b|
    ensures |r| == |a| && forall i :: 0 <= i < |a| ==> r[i] == a[i] - b[i]
  {
    seq(|a|, i requires 0 <= i < |a| => a[i] - b[i])
  }

  function Product(a: seq<real>, b: seq<real>): (r: seq<real>)
    requires |a| == |b|
    ensures |r| == |a| && forall i :: 0 <= i < |a| ==> r[i] == a[i] * b[i]
  {
    seq(|a|, i requires 0 <= i < |a| => a[i] * b[i])
  }

  function Scaled(a: seq<real>, c: real): (r: seq<real>)
    ensures |r| == |a| && forall i :: 0 <= i < |a| ==> r[i] == a[i] * c
  {
    seq(|a|, i requires 0 <= i < |a| => a[i] * c)
  }

  function Sum(s: seq<real>): real {
    if s == [] then 0.0 else Sum(s[..|s| - 1]) + s[|s| - 1]
  }

  /** dot(src): the sum of the entrywise products. */
  function Dot(a: seq<real>, b: seq<real>): real
    requires |a| == |b|
  {
    if a == [] then 0.0 else Dot(a[..|a| - 1], b[..|b| - 1]) + a[|a| - 1] * b[|b| - 1]
  }

  /** dot(src, l): the products of the listed entries only, one term per item of l. */
  function DotOver(a: seq<real>, b: seq<real>, l: seq<int>): real
    requires |a| == |b| && ValidTypes(l, |a|)
  {
    if l == [] then 0.0 else DotOver(a, b, l[..|l| - 1]) + a[l[|l| - 1] - 1] * b[l[|l| - 1] - 1]
  }

  /** Every score type once, in order: 1, 2, ..., n. */
  function AllTypes(n: nat): (l: seq<int>)
    ensures |l| == n && forall k :: 0 <= k < n ==> l[k] == k + 1
  {
    if n == 0 then [] else AllTypes(n - 1) + [n]
  }

  /*
   * ---------------------------------------------------------------------
   * What the functions mean.
   * ---------------------------------------------------------------------
   */

  /** zero(l) sets exactly the listed entries to 0 and leaves the others. */
  lemma {:induction false} ZeroedEntries(s: seq<real>, l: seq<int>)
    requires ValidTypes(l, |s|)
    ensures forall i :: 0 <= i < |s| ==> Zeroed(s, l)[i] == (if i + 1 in l then 0.0 else s[i])
    decreases |l|
  {
    if l != [] {
      var init := l[..|l| - 1];
      ZeroedEntries(s, init);
      assert l == init + [l[|l| - 1]];
      forall i | 0 <= i < |s|
        ensures Zeroed(s, l)[i] == (if i + 1 in l then 0.0 else s[i])
      {
        assert i + 1 in l <==> i + 1 in init || i + 1 == l[|l| - 1];
      }
    }
  }

  /** accumulate leaves every entry that is not listed unchanged. */
  lemma {:induction false} AccumulatedUnlisted(s: seq<real>, src: seq<real>, l: seq<int>, i: nat)
    requires |src| == |s| && ValidTypes(l, |s|) && i < |s| && i + 1 !in l
    ensures Accumulated(s, src, l)[i] == s[i]
    decreases |l|
  {
    if l != [] {
      var init := l[..|l| - 1];
      assert i + 1 !in init;
      AccumulatedUnlisted(s, src, init, i);
    }
  }

  /** A listed entry gains its source entry once for each time it is listed. */
  lemma {:induction false} AccumulatedListedOnce(s: seq<real>, src: seq<real>, l: seq<int>, k: nat)
    requires |src| == |s| && ValidTypes(l, |s|) && k < |l|
    requires forall j :: 0 <= j < |l| && j != k ==> l[j] != l[k]
    ensures Accumulated(s, src, l)[l[k] - 1] == s[l[k] - 1] + src[l[k] - 1]
    decreases |l|
  {
    var init := l[..|l| - 1];
    if k == |l| - 1 {
      assert forall j :: 0 <= j < |init| ==> init[j] != l[k];
      AccumulatedUnlisted(s, src, init, l[k] - 1);
    } else {
      AccumulatedListedOnce(s, src, init, k);
    }
  }

  /** Accumulating over a list twice over is accumulating over it twice. */
  lemma {:induction false} AccumulatedAppend(s: seq<real>, src: seq<real>, l1: seq<int>, l2: seq<int>)
    requires |src| == |s| && ValidTypes(l1, |s|) && ValidTypes(l2, |s|)
    ensures Accumulated(s, src, l1 + l2) == Accumulated(Accumulated(s, src, l1), src, l2)
    decreases |l2|
  {
    if l2 == [] {
      assert l1 + l2 == l1;
    } else {
      var init := l2[..|l2| - 1];
      AccumulatedAppend(s, src, l1, init);
      assert (l1 + l2)[..|l1 + l2| - 1] == l1 + init;
      assert (l1 + l2)[|l1 + l2| - 1] == l2[|l2| - 1];
    }
  }

  /** dot over two lists is the sum of the dots: a type listed twice counts twice. */
  lemma {:induction false} DotOverAppend(a: seq<real>, b: seq<real>, l1: seq<int>, l2: seq<int>)
    requires |a| == |b| && ValidTypes(l1, |a|) && ValidTypes(l2, |a|)
    ensures DotOver(a, b, l1 + l2) == DotOver(a, b, l1) + DotOver(a, b, l2)
    decreases |l2|
  {
    if l2 == [] {
      assert l1 + l2 == l1;
    } else {
      DotOverAppend(a, b, l1, l2[..|l2| - 1]);
      assert (l1 + l2)[..|l1 + l2| - 1] == l1 + l2[..|l2| - 1];
    }
  }

  /** dot over every type once, in order, is the full dot product. */
  lemma {:induction false} DotOverAllTypes(a: seq<real>, b: seq<real>, k: nat)
    requires |a| == |b| && k <= |a|
    ensures DotOver(a, b, AllTypes(k)) == Dot(a[..k], b[..k])
    decreases k
  {
    if k > 0 {
      DotOverAllTypes(a, b, k - 1);
      assert a[..k][..k - 1] == a[..k - 1] && b[..k][..k - 1] == b[..k - 1];
      assert AllTypes(k)[..k - 1] == AllTypes(k - 1);
    }
  }

  /** The dot product does not depend on the order of its operands. */
  lemma {:induction false} DotSymmetric(a: seq<real>, b: seq<real>)
    requires |a| == |b|
    ensures Dot(a, b) == Dot(b, a)
    decreases |a|
  {
    if a != [] {
      DotSymmetric(a[..|a| - 1], b[..|b| - 1]);
    }
  }

  /** The sum of an elementwise sum is the sum of the sums. */
  lemma {:induction false} SumPlus(a: seq<real>, b: seq<real>)
    requires |a| == |b|
    ensures Sum(Plus(a, b)) == Sum(a) + Sum(b)
    decreases |a|
  {
    if a != [] {
      var n := |a| - 1;
      SumPlus(a[..n], b[..n]);
      assert Plus(a, b)[..n] == Plus(a[..n], b[..n]);
    }
  }

  /** Scaling every entry scales the sum. */
  lemma {:induction false} SumScaled(a: seq<real>, c: real)
    ensures Sum(Scaled(a, c)) == Sum(a) * c
    decreases |a|
  {
    if a != [] {
      var n := |a| - 1;
      SumScaled(a[..n], c);
      forall i | 0 <= i < n
        ensures Scaled(a, c)[..n][i] == Scaled(a[..n], c)[i]
      {
        assert a[..n][i] == a[i];
      }
      assert Scaled(a, c)[..n] == Scaled(a[..n], c);
    }
  }

  /** The sum of the entrywise products is the dot product. */
  lemma {:induction false} SumProduct(a: seq<real>, b: seq<real>)
    requires |a| == |b|
    ensures Sum(Product(a, b)) == Dot(a, b)
    decreases |a|
  {
    if a != [] {
      var n := |a| - 1;
      SumProduct(a[..n], b[..n]);
      forall i | 0 <= i < n
        ensures Product(a, b)[..n][i] == Product(a[..n], b[..n])[i]
      {
        assert a[..n][i] == a[i] && b[..n][i] == b[i];
      }
      assert Product(a, b)[..n] == Product(a[..n], b[..n]);
    }
  }

  /** Adding then subtracting the same entries gives back the original. */
  lemma PlusMinus(a: seq<real>, b: seq<real>)
    requires |a| == |b|
    ensures Minus(Plus(a, b), b) == a
  {
  }

  /*
   * ---------------------------------------------------------------------
   * The class.
   * ---------------------------------------------------------------------
   */

  class EMapVector {
    var entries: array<real>

    /** The default constructor: every entry 0. */
    constructor (n: nat)
      ensures fresh(entries) && entries[..] == Zeros(n)
    {
      entries := new real[n];
      new;
      Clear();
    }

    /** The copy constructor. */
    constructor Copy(src: EMapVector)
      ensures fresh(entries) && entries[..] == src.entries[..]
    {
      var n := src.entries.Length;
      var a := new real[n];
      var i := 0;
      while i < n
        invariant 0 <= i <= n
        invariant forall j :: 0 <= j < i ==> a[j] == src.entries[j]
      {
        a[i] := src.entries[i];
        i := i + 1;
      }
      entries := a;
    }

    /** clear() and zero(): every entry 0. */
    method Clear()
      modifies entries
      ensures entries[..] == Zeros(entries.Length)
    {
      var i := 0;
      while i < entries.Length
        invariant 0 <= i <= entries.Length
        invariant forall j :: 0 <= j < i ==> entries[j] == 0.0
      {
        entries[i] := 0.0;
        i := i + 1;
      }
    }

    /** get(st), operator[]: the entry of score type st, counted from 1. */
    function Get(st: int): real
      requires 0 < st <= entries.Length
      reads this, entries
    {
      entries[st - 1]
    }

    /** set(st, v): entry st becomes v and the others stay; the new value is returned. */
    method Set(st: int, v: real) returns (r: real)
      requires 0 < st <= entries.Length
      modifies entries
      ensures r == v && Get(st) == v
      ensures forall t :: 0 < t <= entries.Length && t != st ==> Get(t) == old(Get(t))
    {
      entries[st - 1] := v;
      r := v;
    }

    /** zero(l): the listed entries set to 0. */
    method ZeroTypes(l: seq<int>)
      requires ValidTypes(l, entries.Length)
      modifies entries
      ensures entries[..] == Zeroed(old(entries[..]), l)
    {
      var k := 0;
      while k < |l|
        invariant 0 <= k <= |l|
        invariant entries[..] == Zeroed(old(entries[..]), l[..k])
      {
        assert l[..k + 1][..k] == l[..k];
        entries[l[k] - 1] := 0.0;
        k := k + 1;
      }
      assert l[..k] == l;
    }

    /** dot(src). */
    method DotWith(src: EMapVector) returns (total: real)
      requires src.entries.Length == entries.Length
      ensures total == Dot(entries[..], src.entries[..])
    {
      total := 0.0;
      var i := 0;
      while i < entries.Length
        invariant 0 <= i <= entries.Length
        invariant total == Dot(entries[..i], src.entries[..i])
      {
        assert entries[..i + 1][..i] == entries[..i] && src.entries[..i + 1][..i] == src.entries[..i];
        total := total + entries[i] * src.entries[i];
        i := i + 1;
      }
      assert entries[..i] == entries[..] && src.entries[..i] == src.entries[..];
    }

    /** dot(src, l). */
    method DotWithOver(src: EMapVector, l: seq<int>) returns (total: real)
      requires src.entries.Length == entries.Length && ValidTypes(l, entries.Length)
      ensures total == DotOver(entries[..], src.entries[..], l)
    {
      total := 0.0;
      var k := 0;
      while k < |l|
        invariant 0 <= k <= |l|
        invariant total == DotOver(entries[..], src.entries[..], l[..k])
      {
        assert l[..k + 1][..k] == l[..k];
        total := total + Get(l[k]) * src.Get(l[k]);
        k := k + 1;
      }
      assert l[..k] == l;
    }

    /** operator+=: entrywise sum; `src` may be this map itself. */
    method AddAssign(src: EMapVector)
      requires src.entries.Length == entries.Length
      modifies entries
      ensures entries[..] == Plus(old(entries[..]), old(src.entries[..]))
    {
      var i := 0;
      while i < entries.Length
        invariant 0 <= i <= entries.Length
        invariant forall j :: 0 <= j < i ==> entries[j] == old(entries[j]) + old(src.entries[j])
        invariant forall j :: i <= j < entries.Length ==> entries[j] == old(entries[j]) && src.entries[j] == old(src.entries[j])
      {
        entries[i] := entries[i] + src.entries[i];
        i := i + 1;
      }
    }

    /** operator-=: entrywise difference. */
    method SubtractAssign(src: EMapVector)
      requires src.entries.Length == entries.Length
      modifies entries
      ensures entries[..] == Minus(old(entries[..]), old(src.entries[..]))
    {
      var i := 0;
      while i < entries.Length
        invariant 0 <= i <= entries.Length
        invariant forall j :: 0 <= j < i ==> entries[j] == old(entries[j]) - old(src.entries[j])
        invariant forall j :: i <= j < entries.Length ==> entries[j] == old(entries[j]) && src.entries[j] == old(src.entries[j])
      {
        entries[i] := entries[i] - src.entries[i];
        i := i + 1;
      }
    }

    /** operator*= with a vector: entrywise product. */
    method MultiplyAssign(src: EMapVector)
      requires src.entries.Length == entries.Length
      modifies entries
      ensures entries[..] == Product(old(entries[..]), old(src.entries[..]))
    {
      var i := 0;
      while i < entries.Length
        invariant 0 <= i <= entries.Length
        invariant forall j :: 0 <= j < i ==> entries[j] == Product(old(entries[..]), old(src.entries[..]))[j]
        invariant forall j :: i <= j < entries.Length ==> entries[j] == old(entries[j]) && src.entries[j] == old(src.entries[j])
      {
        entries[i] := entries[i] * src.entries[i];
        i := i + 1;
      }
    }

    /** operator*= with a scalar: every entry scaled. */
    method ScaleAssign(c: real)
      modifies entries
      ensures entries[..] == Scaled(old(entries[..]), c)
    {
      var i := 0;
      while i < entries.Length
        invariant 0 <= i <= entries.Length
        invariant forall j :: 0 <= j < i ==> entries[j] == Scaled(old(entries[..]), c)[j]
        invariant forall j :: i <= j < entries.Length ==> entries[j] == old(entries[j])
      {
        entries[i] := entries[i] * c;
        i := i + 1;
      }
    }

    /** operator* with a scalar: a scaled copy; this map is left as it is. */
    method TimesScalar(c: real) returns (result: EMapVector)
      ensures fresh(result) && fresh(result.entries)
      ensures result.entries[..] == Scaled(entries[..], c)
    {
      result := new EMapVector.Copy(this);
      result.ScaleAssign(c);
    }

    /** operator* with a vector: an entrywise product in a copy; this map is left as it is. */
    method TimesVector(src: EMapVector) returns (result: EMapVector)
      requires src.entries.Length == entries.Length
      ensures fresh(result) && fresh(result.entries)
      ensures result.entries[..] == Product(entries[..], src.entries[..])
    {
      result := new EMapVector.Copy(this);
      result.MultiplyAssign(src);
    }

    /** operator==: the same entries in the same places. */
    method Equals(src: EMapVector) returns (same: bool)
      ensures same <==> entries[..] == src.entries[..]
    {
      if entries.Length != src.entries.Length {
        return false;
      }
      var i := 0;
      while i < entries.Length
        invariant 0 <= i <= entries.Length
        invariant forall j :: 0 <= j < i ==> entries[j] == src.entries[j]
      {
        if entries[i] != src.entries[i] {
          return false;
        }
        i := i + 1;
      }
      return true;
    }

    /** operator!=. */
    method NotEquals(src: EMapVector) returns (differ: bool)
      ensures differ <==> entries[..] != src.entries[..]
    {
      var same := Equals(src);
      differ := !same;
    }

    /** accumulate(src, l): src's listed entries added to this map's. */
    method Accumulate(src: EMapVector, l: seq<int>)
      requires src.entries.Length == entries.Length && ValidTypes(l, entries.Length)
      requires src.entries != entries
      modifies entries
      ensures entries[..] == Accumulated(old(entries[..]), src.entries[..], l)
    {
      var k := 0;
      while k < |l|
        invariant 0 <= k <= |l|
        invariant entries[..] == Accumulated(old(entries[..]), src.entries[..], l[..k])
      {
        assert l[..k + 1][..k] == l[..k];
        entries[l[k] - 1] := entries[l[k] - 1] + src.entries[l[k] - 1];
        k := k + 1;
      }
      assert l[..k] == l;
    }

    /** accumulate(src, l, wt): src's listed entries, times wt, added to this map's. */
    method AccumulateWeighted(src: EMapVector, l: seq<int>, wt: real)
      requires src.entries.Length == entries.Length && ValidTypes(l, entries.Length)
      requires src.entries != entries
      modifies entries
      ensures entries[..] == Accumulated(old(entries[..]), Scaled(src.entries[..], wt), l)
    {
      var k := 0;
      while k < |l|
        invariant 0 <= k <= |l|
        invariant entries[..] == Accumulated(old(entries[..]), Scaled(src.entries[..], wt), l[..k])
      {
        assert l[..k + 1][..k] == l[..k];
        var st := l[k];
        var w := wt * src.entries[st - 1];
        assert w == Scaled(src.entries[..], wt)[st - 1];
        entries[st - 1] := entries[st - 1] + w;
        k := k + 1;
      }
      assert l[..k] == l;
    }

    /** sum(). */
    method SumEntries() returns (total: real)
      ensures total == Sum(entries[..])
    {
      total := 0.0;
      var i := 0;
      while i < entries.Length
        invariant 0 <= i <= entries.Length
        invariant total == Sum(entries[..i])
      {
        assert entries[..i + 1][..i] == entries[..i];
        total := total + entries[i];
        i := i + 1;
      }
      assert entries[..i] == entries[..];
    }

    /** norm_squared(l): the squares of the listed entries, one term per item of l. */
    method NormSquared(l: seq<int>) returns (total: real)
      requires ValidTypes(l, entries.Length)
      ensures total == DotOver(entries[..], entries[..], l)
    {
      total := 0.0;
      var k := 0;
      while k < |l|
        invariant 0 <= k <= |l|
        invariant total == DotOver(entries[..], entries[..], l[..k])
      {
        assert l[..k + 1][..k] == l[..k];
        var val := Get(l[k]);
        total := total + val * val;
        k := k + 1;
      }
      assert l[..k] == l;
    }
  }
}
