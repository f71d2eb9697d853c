/**
 * The reduced-variable bookkeeping of the ncbb SecStructMinimizeMultiFunc:
 * every unique letter of the dihedral pattern owns two or three minimizer
 * variables, each variable drives a list of backbone torsions, and the
 * variables are mapped to and from the minimizer's vector of degrees of
 * freedom (DOFs). Vectors are 1-based in the source; here a vector is a
 * `seq<real>` and entry k of the source is element k - 1.
 */
module SecStructMinimize {
  import opened Text
  import opened SecStructFinding

  datatype TorsionType = BB | CHI | NU | JUMP

  /** A torsion of a pose: residue, torsion type and torsion number. */
  datatype TorsionId = TorsionId(rsd: nat, kind: TorsionType, num: nat)

  /** The entry of a map of lists under k, as std::map's operator[] sees it: empty when absent. */
  function Lookup<K, V>(m: map<K, seq<V>>, k: K): (r: seq<V>)
    ensures k !in m ==> r == []
  {
    if k in m then m[k] else []
  }

  /** The first index of c in s, or |s| when c is absent. */
  function IndexOf(s: seq<char>, c: char): (k: nat)
    ensures k <= |s|
    ensures k < |s| <==> c in s
    ensures k < |s| ==> s[k] == c
    ensures forall i :: 0 <= i < k ==> s[i] != c
  {
    if s == [] then 0
    else if s[0] == c then 0
    else 1 + IndexOf(s[1..], c)
  }

  predicate Distinct(s: seq<char>) {
    forall a, b :: 0 <= a < b < |s| ==> s[a] != s[b]
  }

  lemma IndexOfDistinct(s: seq<char>, i: nat)
    requires Distinct(s) && i < |s|
    ensures IndexOf(s, s[i]) == i
  {
  }

  /*
   * ---------------------------------------------------------------------
   * Variables per unique letter
   * ---------------------------------------------------------------------
   */

  /**
   * How many minimizer variables a letter owns: three for a beta letter,
   * two otherwise. The beta test is the scan from position 0
   * (SecStructFinding.RefersToBeta), not the as-written scan from 1.
   */
  function Width(dihedral: string, alphaBeta: string, u: char): (w: nat)
    ensures w == 2 || w == 3
  {
    if RefersToBeta(dihedral, alphaBeta, u) then 3 else 2
  }

  /** The variables owned by the letters of `uniqs` together. */
  function WidthSum(dihedral: string, alphaBeta: string, uniqs: seq<char>): nat
    decreases |uniqs|
  {
    if uniqs == [] then 0
    else WidthSum(dihedral, alphaBeta, uniqs[..|uniqs| - 1]) + Width(dihedral, alphaBeta, uniqs[|uniqs| - 1])
  }

  lemma WidthSumPrefix(dihedral: string, alphaBeta: string, uniqs: seq<char>, n: nat)
    requires n < |uniqs|
    ensures WidthSum(dihedral, alphaBeta, uniqs[..n + 1])
         == WidthSum(dihedral, alphaBeta, uniqs[..n]) + Width(dihedral, alphaBeta, uniqs[n])
  {
    assert uniqs[..n + 1][..n] == uniqs[..n];
  }

  lemma {:induction false} WidthSumBounds(dihedral: string, alphaBeta: string, uniqs: seq<char>)
    ensures 2 * |uniqs| <= WidthSum(dihedral, alphaBeta, uniqs) <= 3 * |uniqs|
    decreases |uniqs|
  {
    if uniqs != [] {
      WidthSumBounds(dihedral, alphaBeta, uniqs[..|uniqs| - 1]);
    }
  }

  /**
   * The first variable of each unique letter (the constructor's `starters`):
   * variable 1 for the first letter, and each next letter starts where the
   * previous letter's two or three variables end.
   */
  method Starters(dihedral: string, alphaBeta: string, uniqs: seq<char>) returns (starters: seq<nat>)
    requires |uniqs| >= 1
    ensures |starters| == |uniqs|
    ensures forall i :: 0 <= i < |uniqs| ==> starters[i] == 1 + WidthSum(dihedral, alphaBeta, uniqs[..i])
  {
    starters := seq(|uniqs|, _ => 0);
    starters := starters[0 := 1];
    var i := 1;
    while i < |uniqs|
      invariant 1 <= i <= |uniqs| && |starters| == |uniqs|
      invariant forall k :: 0 <= k < i ==> starters[k] == 1 + WidthSum(dihedral, alphaBeta, uniqs[..k])
    {
      WidthSumPrefix(dihedral, alphaBeta, uniqs, i - 1);
      starters := starters[i := starters[i - 1] + (if RefersToBeta(dihedral, alphaBeta, uniqs[i - 1]) then 3 else 2)];
      i := i + 1;
    }
  }

  /** nvar_: the number of minimizer variables, two or three per unique letter. */
  method CountVars(dihedral: string, alphaBeta: string, uniqs: seq<char>) returns (nvar: nat)
    ensures nvar == WidthSum(dihedral, alphaBeta, uniqs)
  {
    nvar := 0;
    var i := 0;
    while i < |uniqs|
      invariant 0 <= i <= |uniqs|
      invariant nvar == WidthSum(dihedral, alphaBeta, uniqs[..i])
    {
      WidthSumPrefix(dihedral, alphaBeta, uniqs, i);
      if RefersToBeta(dihedral, alphaBeta, uniqs[i]) {
        nvar := nvar + 3;
      } else {
        nvar := nvar + 2;
      }
      i := i + 1;
    }
    assert uniqs[..i] == uniqs;
  }

  /**
   * The letters' variable blocks tile 1 .. nvar: consecutive starters are a
   * width apart and the last block ends at nvar.
   */
  lemma StartersTile(dihedral: string, alphaBeta: string, uniqs: seq<char>, i: nat)
    requires i < |uniqs|
    ensures 1 + WidthSum(dihedral, alphaBeta, uniqs[..i]) + Width(dihedral, alphaBeta, uniqs[i]) - 1
         <= WidthSum(dihedral, alphaBeta, uniqs)
    ensures i + 1 == |uniqs| ==>
      WidthSum(dihedral, alphaBeta, uniqs) == 1 + WidthSum(dihedral, alphaBeta, uniqs[..i]) + Width(dihedral, alphaBeta, uniqs[i]) - 1
  {
    WidthSumPrefix(dihedral, alphaBeta, uniqs, i);
    WidthSumMonotone(dihedral, alphaBeta, uniqs, i + 1, |uniqs|);
    assert uniqs[..|uniqs|] == uniqs;
  }

  lemma {:induction false} WidthSumMonotone(dihedral: string, alphaBeta: string, uniqs: seq<char>, m: nat, n: nat)
    requires m <= n <= |uniqs|
    ensures WidthSum(dihedral, alphaBeta, uniqs[..m]) <= WidthSum(dihedral, alphaBeta, uniqs[..n])
    decreases n - m
  {
    if m < n {
      WidthSumPrefix(dihedral, alphaBeta, uniqs, n - 1);
      WidthSumMonotone(dihedral, alphaBeta, uniqs, m, n - 1);
    }
  }

  /**
   * With a class pattern of A, P and B letters covering the dihedral
   * pattern, the minimizer has one variable per dihedral the finder samples
   * (get_number_dihedrals).
   */
  lemma {:induction false} WidthSumIsDihedralCount(dihedral: string, alphaBeta: string, uniqs: seq<char>)
    requires |alphaBeta| >= |dihedral|
    requires forall k :: 0 <= k < |alphaBeta| ==> IsAlphaOrPeptoid(alphaBeta[k]) || alphaBeta[k] == 'B'
    requires forall k :: 0 <= k < |uniqs| ==> uniqs[k] in dihedral
    ensures WidthSum(dihedral, alphaBeta, uniqs) == WeightSum(dihedral, alphaBeta, uniqs)
    decreases |uniqs|
  {
    if uniqs != [] {
      var init := uniqs[..|uniqs| - 1];
      WidthSumIsDihedralCount(dihedral, alphaBeta, init);
      RefersToBetaAgreesWithWeight(dihedral, alphaBeta, uniqs[|uniqs| - 1]);
    }
  }

  /**
   * Width as the constructor computes it: with the as-written beta test,
   * which scans from position 1 and so misses a letter at position 0.
   */
  function AsWrittenWidth(dihedral: string, alphaBeta: string, u: char): (w: nat)
    ensures w == 2 || w == 3
  {
    if RefersToBetaFrom(dihedral, alphaBeta, u, 1) then 3 else 2
  }

  /** nvar_ as the constructor computes it, from the as-written widths. */
  function AsWrittenWidthSum(dihedral: string, alphaBeta: string, uniqs: seq<char>): nat
    decreases |uniqs|
  {
    if uniqs == [] then 0
    else AsWrittenWidthSum(dihedral, alphaBeta, uniqs[..|uniqs| - 1]) + AsWrittenWidth(dihedral, alphaBeta, uniqs[|uniqs| - 1])
  }

  /**
   * On dihedral pattern "AB" with class pattern "BA", the constructor as
   * written gives starters [1, 3] and nvar_ 4, while get_number_dihedrals
   * counts 5; the corrected widths give starters [1, 4] and nvar_ 5.
   */
  lemma AsWrittenVarCountDiffers()
    ensures 1 + AsWrittenWidth("AB", "BA", 'A') == 3
    ensures AsWrittenWidthSum("AB", "BA", "AB") == 4
    ensures 1 + Width("AB", "BA", 'A') == 4
    ensures WidthSum("AB", "BA", "AB") == 5
    ensures WeightSum("AB", "BA", "AB") == 5
  {
    RefersToBetaSkipsFirstPosition();
    assert "AB"[..1] == "A" && "A"[..0] == [];
    assert !RefersToBetaFrom("AB", "BA", 'B', 1);
    assert RefersToBetaFrom("AB", "BA", 'A', 0);
    assert DihedralWeight("AB", "BA", 'B') == 2 by {
      WidthSumIsDihedralCount("AB", "BA", "B");
      assert "B"[..0] == [];
    }
    assert WidthSum("AB", "BA", "AB") == 5;
    WidthSumIsDihedralCount("AB", "BA", "AB");
  }

  /*
   * ---------------------------------------------------------------------
   * The variable-to-torsion table
   * ---------------------------------------------------------------------
   */

  /**
   * Variable v drives torsion t: t is backbone torsion 1, 2 or 3 of a
   * residue of the pattern, and v is the first, second or third variable of
   * that residue's letter; torsion 3 only where the residue's class letter
   * is B.
   */
  predicate Controls(dihedral: string, alphaBeta: string, uniqs: seq<char>, starters: seq<nat>, v: nat, t: TorsionId)
    requires |starters| == |uniqs|
  {
    && t.kind == BB && 1 <= t.rsd <= |dihedral|
    && dihedral[t.rsd - 1] in uniqs
    && var s := starters[IndexOf(uniqs, dihedral[t.rsd - 1])];
       || (t.num == 1 && v == s)
       || (t.num == 2 && v == s + 1)
       || (t.num == 3 && v == s + 2 && CharAt(alphaBeta, t.rsd - 1) == 'B')
  }

  /** The table holds exactly the pairs that letters before i, and residues before j of letter i, contribute. */
  ghost predicate TableUpTo(table: map<nat, seq<TorsionId>>, dihedral: string, alphaBeta: string,
                            uniqs: seq<char>, starters: seq<nat>, i: nat, j: nat)
    requires |starters| == |uniqs|
  {
    forall v: nat, t: TorsionId :: t in Lookup(table, v) <==>
      && Controls(dihedral, alphaBeta, uniqs, starters, v, t)
      && (IndexOf(uniqs, dihedral[t.rsd - 1]) < i || (IndexOf(uniqs, dihedral[t.rsd - 1]) == i && t.rsd < j))
  }

  /** Residue j of letter i adds its two or three torsions. */
  lemma TableStep(table: map<nat, seq<TorsionId>>, dihedral: string, alphaBeta: string,
                  uniqs: seq<char>, starters: seq<nat>, i: nat, j: nat)
    requires |starters| == |uniqs| && Distinct(uniqs) && i < |uniqs|
    requires 1 <= j <= |dihedral| && dihedral[j - 1] == uniqs[i]
    requires TableUpTo(table, dihedral, alphaBeta, uniqs, starters, i, j)
    ensures var s := starters[i];
      var t1 := table[s := Lookup(table, s) + [TorsionId(j, BB, 1)]];
      var t2 := t1[s + 1 := Lookup(t1, s + 1) + [TorsionId(j, BB, 2)]];
      var t3 := if CharAt(alphaBeta, j - 1) == 'B' then t2[s + 2 := Lookup(t2, s + 2) + [TorsionId(j, BB, 3)]] else t2;
      TableUpTo(t3, dihedral, alphaBeta, uniqs, starters, i, j + 1)
  {
    IndexOfDistinct(uniqs, i);
    forall v: nat, t: TorsionId {
      TablePoint(table, dihedral, alphaBeta, uniqs, starters, i, j, v, t);
    }
  }

  /** TableStep at one variable and one torsion. */
  lemma TablePoint(table: map<nat, seq<TorsionId>>, dihedral: string, alphaBeta: string,
                   uniqs: seq<char>, starters: seq<nat>, i: nat, j: nat, v: nat, t: TorsionId)
    requires |starters| == |uniqs| && i < |uniqs| && IndexOf(uniqs, uniqs[i]) == i
    requires 1 <= j <= |dihedral| && dihedral[j - 1] == uniqs[i]
    requires t in Lookup(table, v) <==>
      && Controls(dihedral, alphaBeta, uniqs, starters, v, t)
      && (IndexOf(uniqs, dihedral[t.rsd - 1]) < i || (IndexOf(uniqs, dihedral[t.rsd - 1]) == i && t.rsd < j))
    ensures var s := starters[i];
      var t1 := table[s := Lookup(table, s) + [TorsionId(j, BB, 1)]];
      var t2 := t1[s + 1 := Lookup(t1, s + 1) + [TorsionId(j, BB, 2)]];
      var t3 := if CharAt(alphaBeta, j - 1) == 'B' then t2[s + 2 := Lookup(t2, s + 2) + [TorsionId(j, BB, 3)]] else t2;
      t in Lookup(t3, v) <==>
        && Controls(dihedral, alphaBeta, uniqs, starters, v, t)
        && (IndexOf(uniqs, dihedral[t.rsd - 1]) < i || (IndexOf(uniqs, dihedral[t.rsd - 1]) == i && t.rsd < j + 1))
  {
    var s := starters[i];
    var t1 := table[s := Lookup(table, s) + [TorsionId(j, BB, 1)]];
    var t2 := t1[s + 1 := Lookup(t1, s + 1) + [TorsionId(j, BB, 2)]];
    var t3 := if CharAt(alphaBeta, j - 1) == 'B' then t2[s + 2 := Lookup(t2, s + 2) + [TorsionId(j, BB, 3)]] else t2;
    ResidueAdded(table, j, s, CharAt(alphaBeta, j - 1) == 'B', v, t);
    TablePairStep(t in Lookup(table, v), t in Lookup(t3, v), dihedral, alphaBeta, uniqs, starters, i, j, v, t);
  }

  /** TableStep for one pair: whether v drives t before and after residue j of letter i is added. */
  lemma TablePairStep(before: bool, after: bool, dihedral: string, alphaBeta: string,
                      uniqs: seq<char>, starters: seq<nat>, i: nat, j: nat, v: nat, t: TorsionId)
    requires |starters| == |uniqs| && i < |uniqs| && IndexOf(uniqs, uniqs[i]) == i
    requires 1 <= j <= |dihedral| && dihedral[j - 1] == uniqs[i]
    requires before <==>
      && Controls(dihedral, alphaBeta, uniqs, starters, v, t)
      && (IndexOf(uniqs, dihedral[t.rsd - 1]) < i || (IndexOf(uniqs, dihedral[t.rsd - 1]) == i && t.rsd < j))
    requires var s := starters[i];
      after <==>
        || before
        || (t == TorsionId(j, BB, 1) && v == s)
        || (t == TorsionId(j, BB, 2) && v == s + 1)
        || (t == TorsionId(j, BB, 3) && v == s + 2 && CharAt(alphaBeta, j - 1) == 'B')
    ensures after <==>
      && Controls(dihedral, alphaBeta, uniqs, starters, v, t)
      && (IndexOf(uniqs, dihedral[t.rsd - 1]) < i || (IndexOf(uniqs, dihedral[t.rsd - 1]) == i && t.rsd < j + 1))
  {
    if t.rsd == j && t.kind == BB {
      // Residue j belongs to letter i, so none of its torsions is listed before.
      assert IndexOf(uniqs, dihedral[t.rsd - 1]) == i;
      assert !before;
    } else {
      assert t != TorsionId(j, BB, 1) && t != TorsionId(j, BB, 2) && t != TorsionId(j, BB, 3);
    }
  }

  /** The torsions the updates above add to the table: those of residue j, under variables s, s + 1 and s + 2. */
  lemma ResidueAdded(table: map<nat, seq<TorsionId>>, j: nat, s: nat, beta: bool, v: nat, t: TorsionId)
    ensures var t1 := table[s := Lookup(table, s) + [TorsionId(j, BB, 1)]];
      var t2 := t1[s + 1 := Lookup(t1, s + 1) + [TorsionId(j, BB, 2)]];
      var t3 := if beta then t2[s + 2 := Lookup(t2, s + 2) + [TorsionId(j, BB, 3)]] else t2;
      t in Lookup(t3, v) <==>
        || t in Lookup(table, v)
        || (t == TorsionId(j, BB, 1) && v == s)
        || (t == TorsionId(j, BB, 2) && v == s + 1)
        || (t == TorsionId(j, BB, 3) && v == s + 2 && beta)
  {
  }

  /** A residue of another letter adds nothing. */
  lemma TableSkip(table: map<nat, seq<TorsionId>>, dihedral: string, alphaBeta: string,
                  uniqs: seq<char>, starters: seq<nat>, i: nat, j: nat)
    requires |starters| == |uniqs| && Distinct(uniqs) && i < |uniqs|
    requires 1 <= j <= |dihedral| && dihedral[j - 1] != uniqs[i]
    requires TableUpTo(table, dihedral, alphaBeta, uniqs, starters, i, j)
    ensures TableUpTo(table, dihedral, alphaBeta, uniqs, starters, i, j + 1)
  {
    forall v: nat, t: TorsionId | Controls(dihedral, alphaBeta, uniqs, starters, v, t) && t.rsd == j
      ensures IndexOf(uniqs, dihedral[t.rsd - 1]) != i
    {
    }
  }

  /** After the last residue, letter i is complete. */
  lemma TableNext(table: map<nat, seq<TorsionId>>, dihedral: string, alphaBeta: string,
                  uniqs: seq<char>, starters: seq<nat>, i: nat)
    requires |starters| == |uniqs|
    requires TableUpTo(table, dihedral, alphaBeta, uniqs, starters, i, |dihedral| + 1)
    ensures TableUpTo(table, dihedral, alphaBeta, uniqs, starters, i + 1, 1)
  {
  }

  /**
   * The constructor's var-to-torsion table: for every residue j whose
   * pattern letter is uniqs[i], variable starters[i] drives (j, BB, 1),
   * starters[i] + 1 drives (j, BB, 2), and starters[i] + 2 drives (j, BB, 3)
   * when the residue's class letter is B; nothing else is listed.
   */
  method TorsionTable(dihedral: string, alphaBeta: string, uniqs: seq<char>, starters: seq<nat>)
    returns (table: map<nat, seq<TorsionId>>)
    requires |starters| == |uniqs| && Distinct(uniqs)
    ensures forall v: nat, t: TorsionId :: t in Lookup(table, v) <==> Controls(dihedral, alphaBeta, uniqs, starters, v, t)
  {
    table := map[];
    var i := 0;
    while i < |uniqs|
      invariant 0 <= i <= |uniqs|
      invariant TableUpTo(table, dihedral, alphaBeta, uniqs, starters, i, 1)
    {
      var j := 1;
      while j <= |dihedral|
        invariant 1 <= j <= |dihedral| + 1
        invariant TableUpTo(table, dihedral, alphaBeta, uniqs, starters, i, j)
      {
        if dihedral[j - 1] != uniqs[i] {
          TableSkip(table, dihedral, alphaBeta, uniqs, starters, i, j);
          j := j + 1;
          continue;
        }
        TableStep(table, dihedral, alphaBeta, uniqs, starters, i, j);
        table := table[starters[i] := Lookup(table, starters[i]) + [TorsionId(j, BB, 1)]];
        table := table[starters[i] + 1 := Lookup(table, starters[i] + 1) + [TorsionId(j, BB, 2)]];
        if CharAt(alphaBeta, j - 1) == 'B' {
          table := table[starters[i] + 2 := Lookup(table, starters[i] + 2) + [TorsionId(j, BB, 3)]];
        }
        j := j + 1;
      }
      TableNext(table, dihedral, alphaBeta, uniqs, starters, i);
      i := i + 1;
    }
  }

  /*
   * ---------------------------------------------------------------------
   * Variables to DOF indices
   * ---------------------------------------------------------------------
   */

  /** The 1-based positions of the DOF nodes whose torsion is in `torsions`, in order. */
  function MatchingDofs(nodes: seq<TorsionId>, torsions: seq<TorsionId>): (r: seq<nat>)
    decreases |nodes|
  {
    if nodes == [] then []
    else MatchingDofs(nodes[..|nodes| - 1], torsions) + (if nodes[|nodes| - 1] in torsions then [|nodes|] else [])
  }

  /** A DOF index is listed exactly when its node's torsion is one of the variable's torsions. */
  lemma {:induction false} MatchingDofsMembers(nodes: seq<TorsionId>, torsions: seq<TorsionId>)
    ensures forall d :: d in MatchingDofs(nodes, torsions) <==> 1 <= d <= |nodes| && nodes[d - 1] in torsions
    decreases |nodes|
  {
    if nodes != [] {
      var init := nodes[..|nodes| - 1];
      MatchingDofsMembers(init, torsions);
      assert forall d :: 0 <= d < |init| ==> nodes[d] == init[d];
    }
  }

  /** The largest variable among 1 .. n whose torsion list holds t; 0 when there is none. */
  function LastVarOf(t: TorsionId, table: map<nat, seq<TorsionId>>, n: nat): (v: nat)
    ensures v <= n
    ensures v != 0 ==> t in Lookup(table, v)
    ensures forall w :: v < w <= n ==> t !in Lookup(table, w)
  {
    if n == 0 then 0
    else if t in Lookup(table, n) then n
    else LastVarOf(t, table, n - 1)
  }

  /** The last variable recorded by the as-written mapping: that of the last node any variable claims. */
  function LastClaimed(nodes: seq<TorsionId>, table: map<nat, seq<TorsionId>>, n: nat): nat
    decreases |nodes|
  {
    if nodes == [] then 0
    else if LastVarOf(nodes[|nodes| - 1], table, n) != 0 then LastVarOf(nodes[|nodes| - 1], table, n)
    else LastClaimed(nodes[..|nodes| - 1], table, n)
  }

  /** n ones. */
  function Ones(n: nat): (r: seq<nat>)
    ensures |r| == n
  {
    if n == 0 then [] else Ones(n - 1) + [1]
  }

  /** What a variable's list holds for its matching DOFs: their positions, or a 1 for each as the source records. */
  function Recorded(got: seq<nat>, number: bool): seq<nat> {
    if number then got else Ones(|got|)
  }

  /**
   * Variable v's entry in the var-to-DOF map after the nodes `seen` have
   * been looked at: present exactly when v is a variable driving one of
   * them, and then holding what is recorded for those nodes; `number` is
   * true when each node records its own position, false when every node
   * records 1.
   */
  predicate ListOf(m: map<nat, seq<nat>>, v: nat, seen: seq<TorsionId>, table: map<nat, seq<TorsionId>>,
                   nvar: nat, number: bool)
  {
    var got := MatchingDofs(seen, Lookup(table, v));
    && (v in m <==> 1 <= v <= nvar && got != [])
    && (v in m ==> m[v] == Recorded(got, number))
  }

  /** The var-to-DOF map after the nodes before k, and for node k the variables before i, have been looked at. */
  ghost predicate DofListsUpTo(m: map<nat, seq<nat>>, nodes: seq<TorsionId>, table: map<nat, seq<TorsionId>>,
                               nvar: nat, k: nat, i: nat, number: bool)
    requires k < |nodes|
  {
    var before, after := nodes[..k], nodes[..k + 1];
    && (forall v: nat | v < i :: ListOf(m, v, after, table, nvar, number))
    && (forall v: nat | v >= i :: ListOf(m, v, before, table, nvar, number))
  }

  /** The var-to-DOF map once every node has been looked at. */
  ghost predicate DofListsOf(m: map<nat, seq<nat>>, nodes: seq<TorsionId>, table: map<nat, seq<TorsionId>>,
                             nvar: nat, number: bool)
  {
    forall v: nat :: ListOf(m, v, nodes, table, nvar, number)
  }

  /** Node k's DOF index goes to the last variable among 1 .. nvar claiming its torsion. */
  ghost predicate DofOwnersOf(m: map<nat, nat>, nodes: seq<TorsionId>, table: map<nat, seq<TorsionId>>, nvar: nat, k: nat)
    requires k <= |nodes|
  {
    forall d: nat ::
      && (d in m <==> 1 <= d <= k && LastVarOf(nodes[d - 1], table, nvar) != 0)
      && (d in m ==> m[d] == LastVarOf(nodes[d - 1], table, nvar))
  }

  lemma DofListsStart(m: map<nat, seq<nat>>, nodes: seq<TorsionId>, table: map<nat, seq<TorsionId>>,
                      nvar: nat, k: nat, number: bool)
    requires k < |nodes|
    requires k == 0 ==> m == map[]
    requires k > 0 ==> DofListsOf(m, nodes[..k], table, nvar, number)
    ensures DofListsUpTo(m, nodes, table, nvar, k, 1, number)
  {
    forall v: nat
      ensures ListOf(m, v, nodes[..k], table, nvar, number)
    {
      if k == 0 {
        assert nodes[..k] == [];
      }
    }
    assert !(0 in m) by {
      assert ListOf(m, 0, nodes[..k], table, nvar, number);
    }
  }

  /** Node k's torsion is one of variable i's: i's list gains the node's index. */
  lemma DofListsRecord(m: map<nat, seq<nat>>, nodes: seq<TorsionId>, table: map<nat, seq<TorsionId>>,
                       nvar: nat, k: nat, i: nat, number: bool)
    requires k < |nodes| && 1 <= i <= nvar && nodes[k] in Lookup(table, i)
    requires DofListsUpTo(m, nodes, table, nvar, k, i, number)
    ensures DofListsUpTo(m[i := Lookup(m, i) + [if number then k + 1 else 1]], nodes, table, nvar, k, i + 1, number)
  {
    var table_i := Lookup(table, i);
    assert nodes[..k + 1][..k] == nodes[..k];
    var before := MatchingDofs(nodes[..k], table_i);
    assert MatchingDofs(nodes[..k + 1], table_i) == before + [k + 1];
    assert Recorded(before + [k + 1], number) == Recorded(before, number) + [if number then k + 1 else 1];
    assert ListOf(m, i, nodes[..k], table, nvar, number);
    var m' := m[i := Lookup(m, i) + [if number then k + 1 else 1]];
    var after := nodes[..k + 1];
    forall v: nat | v < i + 1
      ensures ListOf(m', v, after, table, nvar, number)
    {
      if v != i {
        assert ListOf(m, v, after, table, nvar, number);
      }
    }
    forall v: nat | v >= i + 1
      ensures ListOf(m', v, nodes[..k], table, nvar, number)
    {
      assert ListOf(m, v, nodes[..k], table, nvar, number);
    }
  }

  /** Node k's torsion is not one of variable i's: nothing changes. */
  lemma DofListsPass(m: map<nat, seq<nat>>, nodes: seq<TorsionId>, table: map<nat, seq<TorsionId>>,
                     nvar: nat, k: nat, i: nat, number: bool)
    requires k < |nodes| && 1 <= i <= nvar && nodes[k] !in Lookup(table, i)
    requires DofListsUpTo(m, nodes, table, nvar, k, i, number)
    ensures DofListsUpTo(m, nodes, table, nvar, k, i + 1, number)
  {
    var table_i := Lookup(table, i);
    assert nodes[..k + 1][..k] == nodes[..k];
    assert MatchingDofs(nodes[..k + 1], table_i) == MatchingDofs(nodes[..k], table_i);
    assert ListOf(m, i, nodes[..k], table, nvar, number);
    assert ListOf(m, i, nodes[..k + 1], table, nvar, number);
  }

  lemma DofListsFinish(m: map<nat, seq<nat>>, nodes: seq<TorsionId>, table: map<nat, seq<TorsionId>>,
                       nvar: nat, k: nat, number: bool)
    requires k < |nodes|
    requires DofListsUpTo(m, nodes, table, nvar, k, nvar + 1, number)
    ensures DofListsOf(m, nodes[..k + 1], table, nvar, number)
  {
    var after := nodes[..k + 1];
    forall v: nat
      ensures ListOf(m, v, after, table, nvar, number)
    {
      if v > nvar {
        assert ListOf(m, v, nodes[..k], table, nvar, number);
      }
    }
  }

  /** Whether t is in the list, by the source's scan that stops at the first equal entry. */
  method FindTorsion(torsions: seq<TorsionId>, t: TorsionId) returns (found: bool)
    ensures found <==> t in torsions
  {
    var j := 0;
    while j < |torsions|
      invariant 0 <= j <= |torsions|
      invariant forall k :: 0 <= k < j ==> torsions[k] != t
    {
      if torsions[j] == t {
        return true;
      }
      j := j + 1;
    }
    return false;
  }

  /** Lists of DOF indices that no two variables share. */
  predicate DisjointLists(m: map<nat, seq<nat>>) {
    forall v, w, d :: v in m && w in m && d in m[v] && d in m[w] ==> v == w
  }

  /*
   * ---------------------------------------------------------------------
   * Moving values between variables and DOFs
   * ---------------------------------------------------------------------
   */

  /** Every entry of the list is a 1-based index into a vector of n values. */
  predicate InRange(list: seq<nat>, n: nat) {
    forall k :: 0 <= k < |list| ==> 1 <= list[k] <= n
  }

  /** Every listed index addresses an entry of a vector of n values. */
  predicate IndicesWithin(m: map<nat, seq<nat>>, n: nat) {
    forall v :: v in m ==> InRange(m[v], n)
  }

  /** `dofs` with `value` written at each listed 1-based index. */
  function Overwrite(dofs: seq<real>, list: seq<nat>, value: real): (r: seq<real>)
    requires InRange(list, |dofs|)
    ensures |r| == |dofs|
    decreases |list|
  {
    if list == [] then dofs
    else Overwrite(dofs, list[..|list| - 1], value)[list[|list| - 1] - 1 := value]
  }

  /** The listed entries take the value; the others keep theirs. */
  lemma {:induction false} OverwriteAt(dofs: seq<real>, list: seq<nat>, value: real, d: nat)
    requires InRange(list, |dofs|)
    requires 1 <= d <= |dofs|
    ensures Overwrite(dofs, list, value)[d - 1] == if d in list then value else dofs[d - 1]
    decreases |list|
  {
    if list != [] {
      var init := list[..|list| - 1];
      assert list == init + [list[|list| - 1]];
      OverwriteAt(dofs, init, value, d);
    }
  }

  /** The DOFs after variables 1 .. n have written their values over `dofs`, in order. */
  function Impose(dofs: seq<real>, vars: seq<real>, m: map<nat, seq<nat>>, n: nat): (r: seq<real>)
    requires n <= |vars| && IndicesWithin(m, |dofs|)
    ensures |r| == |dofs|
  {
    if n == 0 then dofs
    else Overwrite(Impose(dofs, vars, m, n - 1), Lookup(m, n), vars[n - 1])
  }

  /** A DOF no variable lists keeps its value from `dofs`. */
  lemma {:induction false} ImposeUntouched(dofs: seq<real>, vars: seq<real>, m: map<nat, seq<nat>>, n: nat, d: nat)
    requires n <= |vars| && IndicesWithin(m, |dofs|) && 1 <= d <= |dofs|
    requires forall v: nat :: 1 <= v <= n ==> d !in Lookup(m, v)
    ensures Impose(dofs, vars, m, n)[d - 1] == dofs[d - 1]
  {
    if n > 0 {
      ImposeUntouched(dofs, vars, m, n - 1, d);
      assert d !in Lookup(m, n);
      OverwriteAt(Impose(dofs, vars, m, n - 1), Lookup(m, n), vars[n - 1], d);
    }
  }

  /** A DOF takes the value of the last variable that lists it. */
  lemma {:induction false} ImposeLastWriter(dofs: seq<real>, vars: seq<real>, m: map<nat, seq<nat>>, n: nat, v: nat, d: nat)
    requires n <= |vars| && IndicesWithin(m, |dofs|) && 1 <= d <= |dofs|
    requires 1 <= v <= n && d in Lookup(m, v)
    requires forall w: nat :: v < w <= n ==> d !in Lookup(m, w)
    ensures Impose(dofs, vars, m, n)[d - 1] == vars[v - 1]
  {
    OverwriteAt(Impose(dofs, vars, m, n - 1), Lookup(m, n), vars[n - 1], d);
    if v < n {
      assert d !in Lookup(m, n);
      ImposeLastWriter(dofs, vars, m, n - 1, v, d);
    }
  }

  /** The total of the listed 1-based entries. */
  function SumOver(dofs: seq<real>, list: seq<nat>): real
    requires InRange(list, |dofs|)
    decreases |list|
  {
    if list == [] then 0.0
    else SumOver(dofs, list[..|list| - 1]) + dofs[list[|list| - 1] - 1]
  }

  lemma {:induction false} SumOverConstant(dofs: seq<real>, list: seq<nat>, c: real)
    requires InRange(list, |dofs|)
    requires forall k :: 0 <= k < |list| ==> dofs[list[k] - 1] == c
    ensures SumOver(dofs, list) == Times(|list|, c)
    decreases |list|
  {
    if list != [] {
      SumOverConstant(dofs, list[..|list| - 1], c);
    }
  }

  /** A variable's value read back from the DOFs: the mean over its DOFs, 0 for a variable without any. */
  function DofMean(dofs: seq<real>, m: map<nat, seq<nat>>, v: nat): real
    requires IndicesWithin(m, |dofs|)
  {
    if v in m && m[v] != [] then SumOver(dofs, m[v]) / (|m[v]| as real) else 0.0
  }

  /** A variable's derivative from the DOF derivatives: the sum over its DOFs, 0 for a variable without any. */
  function DofSum(dofs: seq<real>, m: map<nat, seq<nat>>, v: nat): real
    requires IndicesWithin(m, |dofs|)
  {
    if v in m then SumOver(dofs, m[v]) else 0.0
  }

  /**
   * Reading the variables back from the DOFs they were written to gives the
   * variables again, when no DOF is shared between variables.
   */
  lemma DofMeanInvertsImpose(dofs: seq<real>, vars: seq<real>, m: map<nat, seq<nat>>, v: nat)
    requires IndicesWithin(m, |dofs|) && DisjointLists(m)
    requires forall w :: w in m ==> 1 <= w <= |vars|
    requires v in m && m[v] != []
    ensures DofMean(Impose(dofs, vars, m, |vars|), m, v) == vars[v - 1]
  {
    var r := Impose(dofs, vars, m, |vars|);
    ImposeOwnDofs(dofs, vars, m, v, r);
    TimesMean(|m[v]|, vars[v - 1]);
  }

  /** With no DOF shared, every DOF of variable v ends up holding v's value, so they sum to |DOFs| times it. */
  lemma ImposeOwnDofs(dofs: seq<real>, vars: seq<real>, m: map<nat, seq<nat>>, v: nat, r: seq<real>)
    requires IndicesWithin(m, |dofs|) && DisjointLists(m)
    requires forall w :: w in m ==> 1 <= w <= |vars|
    requires v in m && r == Impose(dofs, vars, m, |vars|)
    ensures SumOver(r, m[v]) == Times(|m[v]|, vars[v - 1])
  {
    var list := m[v];
    forall k | 0 <= k < |list|
      ensures r[list[k] - 1] == vars[v - 1]
    {
      var d := list[k];
      forall w: nat | v < w <= |vars|
        ensures d !in Lookup(m, w)
      {
        if w in m {
          assert d in m[v];
        }
      }
      ImposeLastWriter(dofs, vars, m, |vars|, v, d);
    }
    SumOverConstant(r, list, vars[v - 1]);
  }

  /** c added to itself n times. */
  function Times(n: nat, c: real): real {
    if n == 0 then 0.0 else Times(n - 1, c) + c
  }

  lemma {:induction false} TimesMean(n: nat, c: real)
    requires n > 0
    ensures Times(n, c) / (n as real) == c
  {
    TimesIsProduct(n, c);
  }

  lemma {:induction false} TimesIsProduct(n: nat, c: real)
    ensures Times(n, c) == n as real * c
  {
    if n > 0 {
      TimesIsProduct(n - 1, c);
    }
  }

  /**
   * The derivative of a variable is the sum over its DOFs, not their mean:
   * it is the mean scaled by the number of DOFs.
   */
  lemma DofSumIsScaledMean(dofs: seq<real>, m: map<nat, seq<nat>>, v: nat)
    requires IndicesWithin(m, |dofs|) && v in m && m[v] != []
    ensures DofSum(dofs, m, v) == |m[v]| as real * DofMean(dofs, m, v)
  {
  }

  /** The distinct letters count_uniq_char hands the constructor. */
  function Uniqs(dihedral: string): seq<char> {
    if dihedral == [] then ['\0'] else FirstOccurrences(dihedral)
  }

  lemma UniqsDistinct(dihedral: string)
    ensures |Uniqs(dihedral)| >= 1 && Distinct(Uniqs(dihedral))
  {
    if dihedral != [] {
      FirstOccurrencesProperties(dihedral);
      assert dihedral[0] in dihedral;
    }
  }

  /** The first variable of every unique letter. */
  function StartersOf(dihedral: string, alphaBeta: string, uniqs: seq<char>): (s: seq<nat>)
    ensures |s| == |uniqs|
  {
    seq(|uniqs|, i requires 0 <= i < |uniqs| => 1 + WidthSum(dihedral, alphaBeta, uniqs[..i]))
  }

  /** Each torsion is driven by at most one variable, so no two variables share a DOF. */
  lemma ControlsUnique(dihedral: string, alphaBeta: string, uniqs: seq<char>, starters: seq<nat>, v: nat, w: nat, t: TorsionId)
    requires |starters| == |uniqs|
    requires Controls(dihedral, alphaBeta, uniqs, starters, v, t) && Controls(dihedral, alphaBeta, uniqs, starters, w, t)
    ensures v == w
  {
  }

  /** In the constructor's table no torsion is driven by two variables. */
  lemma TableUnique(dihedral: string, alphaBeta: string, uniqs: seq<char>, starters: seq<nat>, table: map<nat, seq<TorsionId>>)
    requires |starters| == |uniqs|
    requires forall v: nat, t: TorsionId :: t in Lookup(table, v) <==> Controls(dihedral, alphaBeta, uniqs, starters, v, t)
    ensures forall v, w, t :: t in Lookup(table, v) && t in Lookup(table, w) ==> v == w
  {
    forall v, w, t | t in Lookup(table, v) && t in Lookup(table, w)
      ensures v == w
    {
      ControlsUnique(dihedral, alphaBeta, uniqs, starters, v, w, t);
    }
  }

  /** The DOF-to-var map after `owner` (0 for none) claims DOF d. */
  function Claim(m: map<nat, nat>, d: nat, owner: nat): (r: map<nat, nat>)
    ensures owner == 0 ==> r == m
    ensures owner != 0 ==> r.Keys == m.Keys + {d} && r[d] == owner
    ensures forall e :: e in m && e != d ==> e in r && r[e] == m[e]
  {
    if owner == 0 then m else m[d := owner]
  }

  /** Looking at variable i keeps DOF d owned by the last variable so far claiming torsion t. */
  lemma ClaimStep(m: map<nat, nat>, d: nat, t: TorsionId, table: map<nat, seq<TorsionId>>, i: nat, db: map<nat, nat>)
    requires 1 <= i && db == Claim(m, d, LastVarOf(t, table, i - 1))
    ensures t in Lookup(table, i) ==> db[d := i] == Claim(m, d, LastVarOf(t, table, i))
    ensures t !in Lookup(table, i) ==> db == Claim(m, d, LastVarOf(t, table, i))
  {
    if t in Lookup(table, i) && LastVarOf(t, table, i - 1) != 0 {
      assert m[d := LastVarOf(t, table, i - 1)][d := i] == m[d := i];
    }
  }

  /** As written, the only DOF index, 1, belongs to the last variable of the last node any variable claims. */
  ghost predicate SingleOwner(m: map<nat, nat>, nodes: seq<TorsionId>, table: map<nat, seq<TorsionId>>, nvar: nat) {
    && m.Keys <= {1}
    && (1 in m <==> LastClaimed(nodes, table, nvar) != 0)
    && (1 in m ==> m[1] == LastClaimed(nodes, table, nvar))
  }

  lemma SingleOwnerExtend(m: map<nat, nat>, nodes: seq<TorsionId>, table: map<nat, seq<TorsionId>>, nvar: nat, k: nat)
    requires k < |nodes| && SingleOwner(m, nodes[..k], table, nvar)
    ensures SingleOwner(Claim(m, 1, LastVarOf(nodes[k], table, nvar)), nodes[..k + 1], table, nvar)
  {
    assert nodes[..k + 1][..k] == nodes[..k];
  }

  lemma DofOwnersExtend(m: map<nat, nat>, nodes: seq<TorsionId>, table: map<nat, seq<TorsionId>>, nvar: nat, k: nat)
    requires k < |nodes| && DofOwnersOf(m, nodes, table, nvar, k)
    ensures DofOwnersOf(Claim(m, k + 1, LastVarOf(nodes[k], table, nvar)), nodes, table, nvar, k + 1)
  {
  }

  /**
   * One pass of get_dofs_map's loop over the variables 1 .. nvar for DOF
   * node k: every variable whose torsion list holds the node's torsion
   * records `dofIndex` (`imap` in the source) in its DOF list, and
   * `dofIndex` maps back to the last such variable.
   */
  method ClaimDof(bbToDof: map<nat, seq<nat>>, dofToBB: map<nat, nat>, table: map<nat, seq<TorsionId>>, nvar: nat,
                  nodes: seq<TorsionId>, k: nat, dofIndex: nat, ghost number: bool)
    returns (bb: map<nat, seq<nat>>, db: map<nat, nat>)
    requires k < |nodes| && dofIndex == (if number then k + 1 else 1)
    requires DofListsUpTo(bbToDof, nodes, table, nvar, k, 1, number)
    ensures DofListsUpTo(bb, nodes, table, nvar, k, nvar + 1, number)
    ensures db == Claim(dofToBB, dofIndex, LastVarOf(nodes[k], table, nvar))
  {
    var torId := nodes[k];
    bb, db := bbToDof, dofToBB;
    var i := 1;
    while i <= nvar
      invariant 1 <= i <= nvar + 1
      invariant DofListsUpTo(bb, nodes, table, nvar, k, i, number)
      invariant db == Claim(dofToBB, dofIndex, LastVarOf(torId, table, i - 1))
    {
      var torsions := Lookup(table, i);
      var found := FindTorsion(torsions, torId);
      ClaimStep(dofToBB, dofIndex, torId, table, i, db);
      if found {
        DofListsRecord(bb, nodes, table, nvar, k, i, number);
        bb := bb[i := Lookup(bb, i) + [dofIndex]];
        db := db[dofIndex := i];
      } else {
        DofListsPass(bb, nodes, table, nvar, k, i, number);
      }
      i := i + 1;
    }
  }

  /**
   * Lists built with each node's own position address the nodes, and only
   * variables 1 .. nvar with at least one DOF are listed.
   */
  lemma NumberedListsValid(m: map<nat, seq<nat>>, nodes: seq<TorsionId>, table: map<nat, seq<TorsionId>>, nvar: nat)
    requires DofListsOf(m, nodes, table, nvar, true)
    ensures IndicesWithin(m, |nodes|)
    ensures forall v :: v in m ==> 1 <= v <= nvar && m[v] != []
  {
    forall v: nat | v in m
      ensures InRange(m[v], |nodes|) && 1 <= v <= nvar && m[v] != []
    {
      assert ListOf(m, v, nodes, table, nvar, true);
      MatchingDofsMembers(nodes, Lookup(table, v));
      forall k | 0 <= k < |m[v]|
        ensures 1 <= m[v][k] <= |nodes|
      {
        assert m[v][k] in MatchingDofs(nodes, Lookup(table, v));
      }
    }
  }

  /** When no torsion is driven by two variables, lists built with each node's own position share no DOF. */
  lemma NumberedListsDisjoint(m: map<nat, seq<nat>>, nodes: seq<TorsionId>, table: map<nat, seq<TorsionId>>, nvar: nat)
    requires DofListsOf(m, nodes, table, nvar, true)
    requires forall v, w, t :: t in Lookup(table, v) && t in Lookup(table, w) ==> v == w
    ensures DisjointLists(m)
  {
    forall v, w, d | v in m && w in m && d in m[v] && d in m[w]
      ensures v == w
    {
      assert ListOf(m, v, nodes, table, nvar, true);
      assert ListOf(m, w, nodes, table, nvar, true);
      MatchingDofsMembers(nodes, Lookup(table, v));
      MatchingDofsMembers(nodes, Lookup(table, w));
    }
  }

  /**
   * With each node's own position recorded and no torsion shared between
   * variables, reading a variable back from the DOFs the variables were
   * written to gives that variable's value.
   */
  lemma NumberedRoundTrip(m: map<nat, seq<nat>>, nodes: seq<TorsionId>, table: map<nat, seq<TorsionId>>, nvar: nat,
                          dofs: seq<real>, vars: seq<real>, v: nat)
    requires DofListsOf(m, nodes, table, nvar, true) && |dofs| == |nodes| && |vars| == nvar
    requires forall v, w, t :: t in Lookup(table, v) && t in Lookup(table, w) ==> v == w
    requires v in m
    ensures IndicesWithin(m, |dofs|) && 1 <= v <= |vars|
    ensures DofMean(Impose(dofs, vars, m, |vars|), m, v) == vars[v - 1]
  {
    NumberedListsValid(m, nodes, table, nvar);
    NumberedListsDisjoint(m, nodes, table, nvar);
    DofMeanInvertsImpose(dofs, vars, m, v);
  }

  /** Two DOF nodes on residue 1, backbone torsions 1 and 2. */
  function ExampleNodes(): seq<TorsionId> {
    [TorsionId(1, BB, 1), TorsionId(1, BB, 2)]
  }

  /** Variable 1 drives residue 1's torsion 1, variable 2 its torsion 2. */
  function ExampleTable(): map<nat, seq<TorsionId>> {
    map[1 := [TorsionId(1, BB, 1)], 2 := [TorsionId(1, BB, 2)]]
  }

  /** With the DOF counter never advanced, both variables of the example record DOF 1. */
  lemma AsWrittenExampleLists(m: map<nat, seq<nat>>)
    requires DofListsOf(m, ExampleNodes(), ExampleTable(), 2, false)
    ensures m == map[1 := [1], 2 := [1]]
  {
    var nodes, table := ExampleNodes(), ExampleTable();
    assert nodes[..1] == [nodes[0]] && nodes[..1][..0] == [];
    assert MatchingDofs(nodes, table[1]) == [1];
    assert MatchingDofs(nodes, table[2]) == [2];
    assert Ones(1) == [1];
    assert ListOf(m, 1, nodes, table, 2, false);
    assert ListOf(m, 2, nodes, table, 2, false);
    forall v: nat | v in m
      ensures v == 1 || v == 2
    {
      assert ListOf(m, v, nodes, table, 2, false);
    }
    assert m.Keys == {1, 2};
  }

  /**
   * Writing variables (1.0, 2.0) through the as-written lists and reading
   * variable 1 back gives 2.0: variable 2 overwrote the one DOF both list.
   */
  lemma AsWrittenMapBreaksRoundTrip(m: map<nat, seq<nat>>)
    requires DofListsOf(m, ExampleNodes(), ExampleTable(), 2, false)
    ensures IndicesWithin(m, 2)
    ensures DofMean(Impose([0.0, 0.0], [1.0, 2.0], m, 2), m, 1) == 2.0
  {
    AsWrittenExampleLists(m);
    var once := Overwrite([0.0, 0.0], [1], 1.0);
    assert once == [1.0, 0.0];
    var twice := Overwrite(once, [1], 2.0);
    assert twice == [2.0, 0.0];
    assert Impose([0.0, 0.0], [1.0, 2.0], m, 0) == [0.0, 0.0];
    assert Impose([0.0, 0.0], [1.0, 2.0], m, 1) == once;
    assert Impose([0.0, 0.0], [1.0, 2.0], m, 2) == twice;
    assert SumOver(twice, [1]) == 2.0;
  }

  /**
   * The minimizer function's bookkeeping: the patterns, the number of
   * variables, the var-to-torsion table, the two maps between variables and
   * DOF indices, and the DOF values of the starting pose.
   */
  class MinimizeMultiFunc {
    var alphaBetaPattern: string
    var dihedralPattern: string
    var nvar: nat
    var varsToTorsions: map<nat, seq<TorsionId>>
    var mapBBToDof: map<nat, seq<nat>>
    var mapDofToBB: map<nat, nat>
    var dofsForPose0: seq<real>

    /** Each listed variable is one of 1 .. nvar with at least one DOF, and every DOF index addresses the pose's DOFs. */
    predicate Valid()
      reads this
    {
      && IndicesWithin(mapBBToDof, |dofsForPose0|)
      && (forall v :: v in mapBBToDof ==> 1 <= v <= nvar && mapBBToDof[v] != [])
    }

    /**
     * The constructor: the distinct letters of the dihedral pattern, their
     * first variables, the number of variables, the var-to-torsion table,
     * the maps between variables and DOF nodes (`nodes`, the torsions of
     * the minimizer map's DOF nodes in order), and the starting pose's DOF
     * values (`pose0Dofs`, one per node).
     */
    constructor(alphaBeta: string, dihedral: string, nodes: seq<TorsionId>, pose0Dofs: seq<real>)
      requires |pose0Dofs| == |nodes|
      ensures alphaBetaPattern == alphaBeta && dihedralPattern == dihedral && dofsForPose0 == pose0Dofs
      ensures nvar == WidthSum(dihedral, alphaBeta, Uniqs(dihedral))
      ensures forall v: nat, t: TorsionId :: t in Lookup(varsToTorsions, v) <==>
        Controls(dihedral, alphaBeta, Uniqs(dihedral), StartersOf(dihedral, alphaBeta, Uniqs(dihedral)), v, t)
      ensures DofListsOf(mapBBToDof, nodes, varsToTorsions, nvar, true)
      ensures DofOwnersOf(mapDofToBB, nodes, varsToTorsions, nvar, |nodes|)
      ensures Valid() && DisjointLists(mapBBToDof)
    {
      alphaBetaPattern := alphaBeta;
      dihedralPattern := dihedral;
      var num, uniqs := CountUniqChar(dihedral);
      UniqsDistinct(dihedral);
      var starters := Starters(dihedral, alphaBeta, uniqs);
      assert starters == StartersOf(dihedral, alphaBeta, uniqs);
      var count := CountVars(dihedral, alphaBeta, uniqs);
      var table := TorsionTable(dihedral, alphaBeta, uniqs, starters);
      nvar := count;
      varsToTorsions := table;
      mapBBToDof := map[];
      mapDofToBB := map[];
      dofsForPose0 := pose0Dofs;
      new;
      GetDofsMapNumbered(nodes);
      NumberedListsValid(mapBBToDof, nodes, varsToTorsions, nvar);
      TableUnique(dihedral, alphaBeta, uniqs, starters, varsToTorsions);
      NumberedListsDisjoint(mapBBToDof, nodes, varsToTorsions, nvar);
    }

    /**
     * get_dofs_map as written: the DOF counter starts at 1 and is never
     * advanced, so every DOF a variable claims is recorded as DOF 1, and the
     * DOF-to-var map holds at most key 1, owned by the last claim made.
     */
    method GetDofsMap(nodes: seq<TorsionId>)
      modifies this`mapBBToDof, this`mapDofToBB
      ensures DofListsOf(mapBBToDof, nodes, varsToTorsions, nvar, false)
      ensures SingleOwner(mapDofToBB, nodes, varsToTorsions, nvar)
    {
      var bbToDof: map<nat, seq<nat>> := map[];
      var dofToBB: map<nat, nat> := map[];
      var dofIndex := 1;
      var k := 0;
      while k < |nodes|
        invariant 0 <= k <= |nodes|
        invariant k == 0 ==> bbToDof == map[]
        invariant k > 0 ==> DofListsOf(bbToDof, nodes[..k], varsToTorsions, nvar, false)
        invariant SingleOwner(dofToBB, nodes[..k], varsToTorsions, nvar)
      {
        DofListsStart(bbToDof, nodes, varsToTorsions, nvar, k, false);
        SingleOwnerExtend(dofToBB, nodes, varsToTorsions, nvar, k);
        bbToDof, dofToBB := ClaimDof(bbToDof, dofToBB, varsToTorsions, nvar, nodes, k, dofIndex, false);
        DofListsFinish(bbToDof, nodes, varsToTorsions, nvar, k, false);
        k := k + 1;
      }
      assert nodes[..k] == nodes;
      mapBBToDof, mapDofToBB := bbToDof, dofToBB;
    }

    /**
     * get_dofs_map with the DOF counter advanced once per DOF node, as the
     * minimizer map's DOF numbering evidently intends: each variable lists
     * the positions of the nodes whose torsion it drives, and each such
     * position maps back to the last variable driving it.
     */
    method GetDofsMapNumbered(nodes: seq<TorsionId>)
      modifies this`mapBBToDof, this`mapDofToBB
      ensures DofListsOf(mapBBToDof, nodes, varsToTorsions, nvar, true)
      ensures DofOwnersOf(mapDofToBB, nodes, varsToTorsions, nvar, |nodes|)
    {
      var bbToDof: map<nat, seq<nat>> := map[];
      var dofToBB: map<nat, nat> := map[];
      var dofIndex := 1;
      var k := 0;
      while k < |nodes|
        invariant 0 <= k <= |nodes| && dofIndex == k + 1
        invariant k == 0 ==> bbToDof == map[]
        invariant k > 0 ==> DofListsOf(bbToDof, nodes[..k], varsToTorsions, nvar, true)
        invariant DofOwnersOf(dofToBB, nodes, varsToTorsions, nvar, k)
      {
        DofListsStart(bbToDof, nodes, varsToTorsions, nvar, k, true);
        DofOwnersExtend(dofToBB, nodes, varsToTorsions, nvar, k);
        bbToDof, dofToBB := ClaimDof(bbToDof, dofToBB, varsToTorsions, nvar, nodes, k, dofIndex, true);
        DofListsFinish(bbToDof, nodes, varsToTorsions, nvar, k, true);
        dofIndex := dofIndex + 1;
        k := k + 1;
      }
      assert nodes[..k] == nodes;
      mapBBToDof, mapDofToBB := bbToDof, dofToBB;
    }

    /**
     * vars_to_dofs: the starting pose's DOFs with each variable 1 .. |vars|
     * in turn writing its value over every DOF it lists.
     */
    method VarsToDofs(vars: seq<real>) returns (dofs: seq<real>)
      requires IndicesWithin(mapBBToDof, |dofsForPose0|)
      ensures dofs == Impose(dofsForPose0, vars, mapBBToDof, |vars|)
    {
      dofs := dofsForPose0;
      var i := 1;
      while i <= |vars|
        invariant 1 <= i <= |vars| + 1
        invariant dofs == Impose(dofsForPose0, vars, mapBBToDof, i - 1)
      {
        if i !in mapBBToDof {
          i := i + 1;
          continue;
        }
        var list := mapBBToDof[i];
        ghost var before := dofs;
        var j := 0;
        while j < |list|
          invariant 0 <= j <= |list| && |dofs| == |before|
          invariant InRange(list, |before|)
          invariant dofs == Overwrite(before, list[..j], vars[i - 1])
        {
          assert list[..j + 1][..j] == list[..j];
          dofs := dofs[list[j] - 1 := vars[i - 1]];
          j := j + 1;
        }
        assert list[..j] == list;
        i := i + 1;
      }
    }

    /**
     * dofs_to_vars: each variable with DOFs takes the mean of its DOFs'
     * values, every other variable 0.
     */
    method DofsToVars(dofs: seq<real>) returns (vars: seq<real>)
      requires Valid() && IndicesWithin(mapBBToDof, |dofs|)
      ensures |vars| == nvar
      ensures forall k :: 0 <= k < nvar ==> vars[k] == DofMean(dofs, mapBBToDof, k + 1)
    {
      vars := seq(nvar, _ => 0.0);
      var i := 1;
      while i <= nvar
        invariant 1 <= i <= nvar + 1 && |vars| == nvar
        invariant forall k :: 0 <= k < i - 1 ==> vars[k] == DofMean(dofs, mapBBToDof, k + 1)
        invariant forall k :: i - 1 <= k < nvar ==> vars[k] == 0.0
      {
        if i !in mapBBToDof {
          i := i + 1;
          continue;
        }
        var list := mapBBToDof[i];
        var j := 0;
        while j < |list|
          invariant 0 <= j <= |list| && |vars| == nvar
          invariant InRange(list, |dofs|)
          invariant vars[i - 1] == SumOver(dofs, list[..j])
          invariant forall k :: 0 <= k < i - 1 ==> vars[k] == DofMean(dofs, mapBBToDof, k + 1)
          invariant forall k :: i <= k < nvar ==> vars[k] == 0.0
        {
          assert list[..j + 1][..j] == list[..j];
          vars := vars[i - 1 := vars[i - 1] + dofs[list[j] - 1]];
          j := j + 1;
        }
        assert list[..j] == list;
        vars := vars[i - 1 := vars[i - 1] / (|list| as real)];
        i := i + 1;
      }
    }

    /**
     * dEddofs_to_dEdvars: each variable's derivative is the sum of its
     * DOFs' derivatives (not their mean), every other variable's 0.
     */
    method DEddofsToDEdvars(dEddofs: seq<real>) returns (dEdvars: seq<real>)
      requires IndicesWithin(mapBBToDof, |dEddofs|)
      ensures |dEdvars| == nvar
      ensures forall k :: 0 <= k < nvar ==> dEdvars[k] == DofSum(dEddofs, mapBBToDof, k + 1)
    {
      dEdvars := seq(nvar, _ => 0.0);
      var i := 1;
      while i <= nvar
        invariant 1 <= i <= nvar + 1 && |dEdvars| == nvar
        invariant forall k :: 0 <= k < i - 1 ==> dEdvars[k] == DofSum(dEddofs, mapBBToDof, k + 1)
        invariant forall k :: i - 1 <= k < nvar ==> dEdvars[k] == 0.0
      {
        if i !in mapBBToDof {
          i := i + 1;
          continue;
        }
        var list := mapBBToDof[i];
        var j := 0;
        while j < |list|
          invariant 0 <= j <= |list| && |dEdvars| == nvar
          invariant InRange(list, |dEddofs|)
          invariant dEdvars[i - 1] == SumOver(dEddofs, list[..j])
          invariant forall k :: 0 <= k < i - 1 ==> dEdvars[k] == DofSum(dEddofs, mapBBToDof, k + 1)
          invariant forall k :: i <= k < nvar ==> dEdvars[k] == 0.0
        {
          assert list[..j + 1][..j] == list[..j];
          dEdvars := dEdvars[i - 1 := dEdvars[i - 1] + dEddofs[list[j] - 1]];
          j := j + 1;
        }
        assert list[..j] == list;
        i := i + 1;
      }
    }
  }
}
