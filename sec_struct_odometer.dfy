/**
 * The grid search of SecStructFinder::apply: a vector of n dihedrals, plus
 * one sentinel entry, is stepped like an odometer through every point of
 * the grid min, min + bin, ..., max - bin in each coordinate, the first
 * entry turning fastest. The model runs over integers; each grid point is
 * coded by its digits in base K = (max - min) / bin.
 */
module DihedralOdometer {
  import SecStructFinding

  function Pow(k: nat, n: nat): (p: nat)
    ensures k >= 1 ==> p >= 1
  {
    if n == 0 then 1 else k * Pow(k, n - 1)
  }

  /** The n base-k digits of t, least significant first. */
  function Digits(t: nat, k: nat, n: nat): (c: seq<int>)
    requires k >= 1
    ensures |c| == n
    ensures forall i :: 0 <= i < n ==> 0 <= c[i] < k
  {
    if n == 0 then [] else [t % k] + Digits(t / k, k, n - 1)
  }

  /** The number whose base-k digits, least significant first, are c. */
  function Value(c: seq<int>, k: nat): int {
    if c == [] then 0 else c[0] + k * Value(c[1..], k)
  }

  /** The dihedral values a digit tuple stands for. */
  function GridPoint(c: seq<int>, dmin: int, bin: int): (v: seq<int>)
    ensures |v| == |c|
    ensures forall i :: 0 <= i < |c| ==> v[i] == dmin + bin * c[i]
  {
    if c == [] then [] else [dmin + bin * c[0]] + GridPoint(c[1..], dmin, bin)
  }

  lemma {:induction false} MulMonotone(k: nat, a: nat, b: nat)
    requires a <= b
    ensures k * a <= k * b
    decreases b - a
  {
    if a < b {
      MulMonotone(k, a, b - 1);
      assert k * b == k * (b - 1) + k;
    }
  }

  lemma DivBelow(t: nat, k: nat, m: nat)
    requires k >= 1 && t < k * m
    ensures t / k < m
  {
    assert t == k * (t / k) + t % k;
    if t / k >= m {
      MulMonotone(k, m, t / k);
    }
  }

  /** Unfolds one level of Digits at a position above the lowest. */
  lemma DigitsShift(t: nat, k: nat, n: nat, i: nat)
    requires k >= 1 && 0 < i < n
    ensures Digits(t, k, n)[i] == Digits(t / k, k, n - 1)[i - 1]
  {
  }

  /** Digits are unique: numbers below k^n have distinct digit tuples. */
  lemma {:induction false} DigitsInjective(s: nat, t: nat, k: nat, n: nat)
    requires k >= 1 && s < Pow(k, n) && t < Pow(k, n)
    requires Digits(s, k, n) == Digits(t, k, n)
    ensures s == t
    decreases n
  {
    if n > 0 {
      DigitsSplit(s, t, k, n);
      QuotientBelow(s, k, n);
      QuotientBelow(t, k, n);
      DigitsInjective(s / k, t / k, k, n - 1);
      SameDivMod(s, t, k);
    }
  }

  /** Below k^n, the quotient by k is below k^(n-1). */
  lemma QuotientBelow(t: nat, k: nat, n: nat)
    requires k >= 1 && n > 0 && t < Pow(k, n)
    ensures 0 <= t / k < Pow(k, n - 1)
  {
    DivBelow(t, k, Pow(k, n - 1));
  }

  /** Equal digit tuples have equal lowest digits and equal tuples above it. */
  lemma DigitsSplit(s: nat, t: nat, k: nat, n: nat)
    requires k >= 1 && n > 0 && Digits(s, k, n) == Digits(t, k, n)
    ensures s % k == t % k && Digits(s / k, k, n - 1) == Digits(t / k, k, n - 1)
  {
    assert Digits(s, k, n)[0] == s % k && Digits(t, k, n)[0] == t % k;
    assert Digits(s, k, n)[1..] == Digits(s / k, k, n - 1);
    assert Digits(t, k, n)[1..] == Digits(t / k, k, n - 1);
  }

  /** Two numbers with the same quotient and remainder by k are equal. */
  lemma SameDivMod(s: nat, t: nat, k: nat)
    requires k >= 1 && s / k == t / k && s % k == t % k
    ensures s == t
  {
    assert s == k * (s / k) + s % k;
    assert t == k * (t / k) + t % k;
  }

  lemma {:induction false} ValueBelow(c: seq<int>, k: nat)
    requires k >= 1
    requires forall i :: 0 <= i < |c| ==> 0 <= c[i] < k
    ensures 0 <= Value(c, k) < Pow(k, |c|)
    decreases |c|
  {
    if c != [] {
      ValueBelow(c[1..], k);
      DigitBelow(c[0], Value(c[1..], k), k, Pow(k, |c| - 1));
    }
  }

  /** A lowest digit d plus k times a value below p stays below k*p. */
  lemma DigitBelow(d: int, v: int, k: nat, p: nat)
    requires 0 <= d < k && 0 <= v < p
    ensures 0 <= d + k * v < k * p
  {
    MulMonotone(k, v + 1, p);
    assert k * (v + 1) == k * v + k;
  }

  lemma {:induction false} DigitsOfValue(c: seq<int>, k: nat)
    requires k >= 1
    requires forall i :: 0 <= i < |c| ==> 0 <= c[i] < k
    ensures 0 <= Value(c, k) && Digits(Value(c, k), k, |c|) == c
    decreases |c|
  {
    if c != [] {
      var v := Value(c[1..], k);
      ValueBelow(c, k);
      ValueBelow(c[1..], k);
      DigitsOfValue(c[1..], k);
      SecStructFinding.ModUnique(Value(c, k), k, v, c[0]);
      assert Digits(Value(c, k), k, |c|) == [c[0]] + Digits(v, k, |c| - 1);
      assert c == [c[0]] + c[1..];
    }
  }

  /** Every tuple of digits below k is the digit tuple of exactly one number below k^n. */
  lemma DigitsSurjective(c: seq<int>, k: nat)
    requires k >= 1
    requires forall i :: 0 <= i < |c| ==> 0 <= c[i] < k
    ensures exists t: nat :: t < Pow(k, |c|) && Digits(t, k, |c|) == c
  {
    ValueBelow(c, k);
    DigitsOfValue(c, k);
    var t: nat := Value(c, k);
    assert t < Pow(k, |c|) && Digits(t, k, |c|) == c;
  }

  /** The first n of n + 1 digits are the n-digit tuple. */
  lemma {:induction false} DigitsPrefix(t: nat, k: nat, n: nat)
    requires k >= 1
    ensures Digits(t, k, n + 1)[..n] == Digits(t, k, n)
    decreases n
  {
    if n > 0 {
      DigitsPrefix(t / k, k, n - 1);
      assert Digits(t, k, n + 1)[..n] == [t % k] + Digits(t / k, k, n)[..n - 1];
    }
  }

  /** Below k^n the extra top digit of an (n+1)-digit tuple is 0. */
  lemma {:induction false} DigitsBelowTop(t: nat, k: nat, n: nat)
    requires k >= 1 && t < Pow(k, n)
    ensures Digits(t, k, n + 1)[n] == 0
    decreases n
  {
    if n > 0 {
      DivBelow(t, k, Pow(k, n - 1));
      DigitsBelowTop(t / k, k, n - 1);
      DigitsShift(t, k, n + 1, n);
    }
  }

  /** At k^n the top digit of the (n+1)-digit tuple turns to 1. */
  lemma {:induction false} DigitsAtTop(k: nat, n: nat)
    requires k >= 2
    ensures Digits(Pow(k, n), k, n + 1)[n] == 1
    decreases n
  {
    if n == 0 {
      SecStructFinding.ModUnique(1, k, 0, 1);
    } else {
      SecStructFinding.ModUnique(Pow(k, n), k, Pow(k, n - 1), 0);
      DigitsAtTop(k, n - 1);
      DigitsShift(Pow(k, n), k, n + 1, n);
    }
  }

  /**
   * Adding one to t: the low digits equal to k - 1 (positions below p)
   * become 0, digit p goes up by one, and the higher digits stay.
   */
  lemma {:induction false} DigitsSucc(t: nat, u: nat, k: nat, m: nat, p: nat)
    requires u == t + 1 && k >= 1 && p < m
    requires forall i :: 0 <= i < p ==> Digits(t, k, m)[i] == k - 1
    requires Digits(t, k, m)[p] + 1 < k
    ensures forall i :: 0 <= i < p ==> Digits(u, k, m)[i] == 0
    ensures Digits(u, k, m)[p] == Digits(t, k, m)[p] + 1
    ensures forall i :: p < i < m ==> Digits(u, k, m)[i] == Digits(t, k, m)[i]
    decreases p
  {
    if p == 0 {
      DigitsSuccLow(t, u, k, m);
    } else {
      var q, m1 := t / k, m - 1;
      assert Digits(t, k, m)[0] == t % k;
      SuccCarry(t, u, k);
      forall i | 0 <= i < p - 1
        ensures Digits(q, k, m1)[i] == k - 1
      {
        DigitsShift(t, k, m, i + 1);
      }
      DigitsShift(t, k, m, p);
      DigitsSucc(q, q + 1, k, m1, p - 1);
      DigitsTail(u, k, m);
      DigitsTail(t, k, m);
    }
  }

  /** DigitsSucc when the lowest digit is below k - 1: only that digit changes. */
  lemma DigitsSuccLow(t: nat, u: nat, k: nat, m: nat)
    requires u == t + 1 && k >= 1 && 0 < m && Digits(t, k, m)[0] + 1 < k
    ensures Digits(u, k, m)[0] == Digits(t, k, m)[0] + 1
    ensures forall i :: 0 < i < m ==> Digits(u, k, m)[i] == Digits(t, k, m)[i]
  {
    SuccNoCarry(t, u, k);
    DigitsTail(u, k, m);
    DigitsTail(t, k, m);
  }

  /** Above the lowest digit, the digits of t are those of t / k. */
  lemma DigitsTail(t: nat, k: nat, m: nat)
    requires k >= 1 && m > 0
    ensures Digits(t, k, m)[0] == t % k
    ensures Digits(t, k, m)[1..] == Digits(t / k, k, m - 1)
  {
  }

  /** Adding one to t whose lowest digit is below k - 1 raises only that digit. */
  lemma SuccNoCarry(t: nat, u: nat, k: nat)
    requires u == t + 1 && k >= 1 && t % k + 1 < k
    ensures u % k == t % k + 1 && u / k == t / k
  {
    assert t == k * (t / k) + t % k;
    SecStructFinding.ModUnique(u, k, t / k, t % k + 1);
  }

  /** Adding one to t whose lowest digit is k - 1 carries into the next digit. */
  lemma SuccCarry(t: nat, u: nat, k: nat)
    requires u == t + 1 && k >= 1 && t % k == k - 1
    ensures u % k == 0 && u / k == t / k + 1
  {
    assert t == k * (t / k) + t % k;
    assert k * (t / k + 1) == k * (t / k) + k;
    SecStructFinding.ModUnique(u, k, t / k + 1, 0);
  }

  lemma MulCancel(bin: nat, x: int, y: int)
    requires bin > 0 && bin * x == bin * y
    ensures x == y
  {
    if x > y {
      assert bin * (x - y) == bin * x - bin * y;
      SecStructFinding.MulAtLeast(bin, x - y);
    } else if y > x {
      assert bin * (y - x) == bin * y - bin * x;
      SecStructFinding.MulAtLeast(bin, y - x);
    }
  }

  /** The dihedral values v are the grid points of the bin counts c. */
  ghost predicate Codes(v: seq<int>, c: seq<int>, dmin: int, bin: int) {
    |v| == |c| && forall i :: 0 <= i < |v| ==> v[i] == dmin + bin * c[i]
  }

  lemma CodesSet(v: seq<int>, c: seq<int>, dmin: int, bin: int, j: nat)
    requires Codes(v, c, dmin, bin) && j < |v|
    ensures Codes(v[j := dmin], c[j := 0], dmin, bin)
  {
  }

  lemma CodesBump(v: seq<int>, c: seq<int>, dmin: int, bin: int, j: nat)
    requires Codes(v, c, dmin, bin) && j < |v|
    ensures Codes(v[j := v[j] + bin], c[j := c[j] + 1], dmin, bin)
  {
    assert bin * (c[j] + 1) == bin * c[j] + bin;
  }

  /** An entry equals max exactly when its bin count is k. */
  lemma CodesAtMax(v: seq<int>, c: seq<int>, dmin: int, bin: int, k: nat, j: nat)
    requires Codes(v, c, dmin, bin) && j < |v| && bin > 0
    ensures v[j] == dmin + bin * k <==> c[j] == k
  {
    if v[j] == dmin + bin * k {
      MulCancel(bin, c[j], k);
    }
  }

  /**
   * The carry has reached position p: the entries below p were at k - 1 and
   * are now 0, entry p has gained one, and the entries above are untouched.
   */
  ghost predicate Carrying(c: seq<int>, orig: seq<int>, p: nat, k: nat) {
    && |c| == |orig| && p < |c|
    && (forall i :: 0 <= i < p ==> c[i] == 0 && orig[i] == k - 1)
    && c[p] == orig[p] + 1
    && (forall i :: p < i < |c| ==> c[i] == orig[i])
  }

  /** An entry that overflowed hands the carry to the next one, which exists below the top digit 0. */
  lemma CarryMove(c: seq<int>, orig: seq<int>, p: nat, k: nat)
    requires Carrying(c, orig, p, k) && c[p] == k && k >= 2 && orig[|orig| - 1] == 0
    ensures p + 1 < |c| && Carrying(c[p := 0][p + 1 := c[p + 1] + 1], orig, p + 1, k)
  {
  }

  /** A carry that stops short of k leaves the digits of t + 1. */
  lemma CarryDone(c: seq<int>, t: nat, k: nat, p: nat)
    requires k >= 1 && Carrying(c, Digits(t, k, |c|), p, k) && c[p] != k
    ensures c == Digits(t + 1, k, |c|)
  {
    DigitsSucc(t, t + 1, k, |c|, p);
  }

  /**
   * One turn of the odometer: the first dihedral goes up by a bin; every
   * entry that reaches max goes back to min and carries a bin into the next
   * one. With the entries coding the digits of t, the result codes t + 1.
   * The carry cursor p of apply is 1 whenever this step begins and ends, so
   * it is kept local here.
   */
  method Advance(dihedrals: seq<int>, dmin: int, dmax: int, bin: int, ghost k: nat, ghost t: nat)
    returns (next: seq<int>)
    requires bin > 0 && k >= 2 && dmax == dmin + bin * k
    requires |dihedrals| >= 1 && t < Pow(k, |dihedrals| - 1)
    requires Codes(dihedrals, Digits(t, k, |dihedrals|), dmin, bin)
    ensures Codes(next, Digits(t + 1, k, |dihedrals|), dmin, bin)
  {
    var m := |dihedrals|;
    ghost var orig := Digits(t, k, m);
    DigitsBelowTop(t, k, m - 1);
    CodesBump(dihedrals, orig, dmin, bin, 0);
    next := dihedrals[0 := dihedrals[0] + bin];
    ghost var c := orig[0 := orig[0] + 1];
    var p: nat := 0;
    while next[p] == dmax
      invariant |c| == m && CarryState(next, c, p, dmin, bin, k, t)
      decreases if c[p] == k then m + 1 - p else 0
    {
      next, p, c := CarryOne(next, dmin, dmax, bin, p, c, k, t);
    }
    CodesAtMax(next, c, dmin, bin, k, p);
    if c != Digits(t + 1, k, m) {
      CarryDone(c, t, k, p);
    }
  }

  /**
   * Where the carry loop of Advance stands: the bin counts c match the
   * dihedrals, and either they are already the digits of t + 1 or the
   * carry has reached entry p of the digits of t.
   */
  ghost predicate CarryState(next: seq<int>, c: seq<int>, p: nat, dmin: int, bin: int, k: nat, t: nat) {
    && k >= 1 && |next| == |c| && p < |c| && Codes(next, c, dmin, bin)
    && (|| (p == 0 && c[0] != k && c == Digits(t + 1, k, |c|))
        || (Carrying(c, Digits(t, k, |c|), p, k) && (p > 0 ==> c[p] == k)))
  }

  /** One pass of the carry loop: the entry at max goes back to min and the next one goes up by a bin. */
  method CarryOne(next: seq<int>, dmin: int, dmax: int, bin: int, p: nat, ghost c: seq<int>, ghost k: nat, ghost t: nat)
    returns (nextAfter: seq<int>, pAfter: nat, ghost cAfter: seq<int>)
    requires bin > 0 && k >= 2 && dmax == dmin + bin * k
    requires CarryState(next, c, p, dmin, bin, k, t) && Digits(t, k, |c|)[|c| - 1] == 0
    requires next[p] == dmax
    ensures |cAfter| == |c| && CarryState(nextAfter, cAfter, pAfter, dmin, bin, k, t)
    ensures (if cAfter[pAfter] == k then |c| + 1 - pAfter else 0) < (if c[p] == k then |c| + 1 - p else 0)
  {
    CodesAtMax(next, c, dmin, bin, k, p);
    CarryMove(c, Digits(t, k, |c|), p, k);
    CodesSet(next, c, dmin, bin, p);
    nextAfter := next[p := dmin];
    cAfter := c[p := 0];
    pAfter := p + 1;
    CodesBump(nextAfter, cAfter, dmin, bin, pAfter);
    nextAfter := nextAfter[pAfter := nextAfter[pAfter] + bin];
    cAfter := cAfter[pAfter := cAfter[pAfter] + 1];
    CodesAtMax(nextAfter, cAfter, dmin, bin, k, pAfter);
    if nextAfter[pAfter] != dmax {
      CarryDone(cAfter, t, k, pAfter);
      pAfter := 0;
    }
  }

  /**
   * The odometer loop of apply, recording the dihedral tuple it holds at
   * every pass of the outer loop (where apply builds and scores a pose).
   * Entry n of `dihedrals` is the sentinel: the search ends when the carry
   * reaches it. The bin size must divide max - min exactly and leave at
   * least two grid values, or the equality tests against max never fire
   * (an endless loop) or the carry runs past the sentinel.
   */
  method EnumerateDihedralGrid(n: nat, dmin: int, dmax: int, bin: int) returns (visited: seq<seq<int>>)
    requires bin > 0 && (dmax - dmin) % bin == 0 && dmax - dmin >= 2 * bin
    ensures var k := (dmax - dmin) / bin;
      k >= 2 && |visited| == Pow(k, n)
      && forall t :: 0 <= t < |visited| ==> visited[t] == GridPoint(Digits(t, k, n), dmin, bin)
  {
    ghost var k: nat := (dmax - dmin) / bin;
    AtLeastTwoBins(dmax - dmin, bin);
    var dihedrals := seq(n + 1, _ => dmin);
    ghost var t: nat := 0;
    ZeroDigits(k, n + 1);
    assert Codes(dihedrals, Digits(0, k, n + 1), dmin, bin);
    visited := [];
    while dihedrals[n] == dmin
      invariant |dihedrals| == n + 1 && Codes(dihedrals, Digits(t, k, n + 1), dmin, bin)
      invariant t <= Pow(k, n) && |visited| == t
      invariant forall s :: 0 <= s < t ==> visited[s] == GridPoint(Digits(s, k, n), dmin, bin)
      decreases Pow(k, n) - t
    {
      visited, dihedrals := VisitAndAdvance(visited, dihedrals, n, dmin, dmax, bin, k, t);
      t := t + 1;
    }
    CodesAtMax(dihedrals, Digits(t, k, n + 1), dmin, bin, 0, n);
    if t < Pow(k, n) {
      DigitsBelowTop(t, k, n);
    }
  }

  /**
   * One pass of the outer loop of apply while the sentinel is still at min:
   * the first n entries are recorded and the odometer turns once.
   */
  method VisitAndAdvance(visited: seq<seq<int>>, dihedrals: seq<int>, n: nat, dmin: int, dmax: int, bin: int,
                         ghost k: nat, ghost t: nat)
    returns (visitedAfter: seq<seq<int>>, next: seq<int>)
    requires bin > 0 && k >= 2 && dmax == dmin + bin * k
    requires |dihedrals| == n + 1 && Codes(dihedrals, Digits(t, k, n + 1), dmin, bin) && dihedrals[n] == dmin
    requires t <= Pow(k, n)
    ensures t < Pow(k, n)
    ensures visitedAfter == visited + [GridPoint(Digits(t, k, n), dmin, bin)]
    ensures |next| == n + 1 && Codes(next, Digits(t + 1, k, n + 1), dmin, bin)
  {
    assert t < Pow(k, n) by {
      CodesAtMax(dihedrals, Digits(t, k, n + 1), dmin, bin, 0, n);
      if t == Pow(k, n) {
        DigitsAtTop(k, n);
      }
    }
    assert dihedrals[..n] == GridPoint(Digits(t, k, n), dmin, bin) by {
      DigitsPrefix(t, k, n);
    }
    visitedAfter := visited + [dihedrals[..n]];
    next := Advance(dihedrals, dmin, dmax, bin, k, t);
  }

  /** A width that is a whole multiple of bin, and at least two bins, holds at least two bins. */
  lemma AtLeastTwoBins(w: int, bin: int)
    requires bin > 0 && w % bin == 0 && w >= 2 * bin
    ensures w / bin >= 2 && w == bin * (w / bin)
  {
  }

  lemma {:induction false} ZeroDigits(k: nat, m: nat)
    requires k >= 1
    ensures Digits(0, k, m) == seq(m, _ => 0)
    decreases m
  {
    if m > 0 {
      ZeroDigits(k, m - 1);
      assert seq(m, _ => 0) == [0] + seq(m - 1, _ => 0);
    }
  }

  /**
   * Every visited tuple lies on the grid: each entry is min plus a whole
   * number of bins, at most max - bin.
   */
  lemma GridPointOnGrid(t: nat, k: nat, n: nat, dmin: int, bin: int, i: nat)
    requires k >= 1 && bin > 0 && i < n
    ensures var v := GridPoint(Digits(t, k, n), dmin, bin)[i];
      dmin <= v <= dmin + bin * (k - 1) && (v - dmin) % bin == 0
  {
    var j := Digits(t, k, n)[i];
    MulMonotone(bin, j, k - 1);
    SecStructFinding.ModUnique(bin * j, bin, j, 0);
  }
}
