/**
 * The spans and fold trees of the DSSP strings used by the bootcamp unit
 * tests. A long string is taken apart at coil residues, whose spans are
 * those of its pieces shifted into place.
 */
module FoldTreeFixtures {
  import opened FoldTreeFromSs
  import opened FoldTreeShape
  import opened Sequences

  /** Spans renumbered `d` residues further along the chain. */
  function Shift(spans: seq<Span>, d: nat): (r: seq<Span>)
    ensures |r| == |spans|
  {
    if spans == [] then [] else [Span(spans[0].first + d, spans[0].second + d)] + Shift(spans[1..], d)
  }

  lemma {:induction false} ShiftAppend(a: seq<Span>, b: seq<Span>, d: nat)
    ensures Shift(a + b, d) == Shift(a, d) + Shift(b, d)
    decreases |a|
  {
    if a == [] {
      assert a + b == b;
    } else {
      assert (a + b)[0] == a[0] && (a + b)[1..] == a[1..] + b;
      ShiftAppend(a[1..], b, d);
    }
  }

  /** The spans from a helix or strand residue on: its run, then the spans after it. */
  lemma SpansFromRun(s: string, i: nat)
    requires i < |s| && IsSecondaryStructure(s[i])
    ensures SpansFrom(s, i) == [Span(i + 1, RunEnd(s, i, i + 1))] + SpansFrom(s, RunEnd(s, i, i + 1))
  {
  }

  lemma ShiftOne(x: Span, d: nat)
    ensures Shift([x], d) == [Span(x.first + d, x.second + d)]
  {
    assert [x][1..] == [];
  }

  lemma {:induction false} RunEndSuffix(a: string, b: string, i: nat, j: nat)
    requires i < j <= |b|
    ensures RunEnd(a + b, |a| + i, |a| + j) == |a| + RunEnd(b, i, j)
    decreases |b| - j
  {
    if j < |b| && b[j] == b[i] {
      RunEndSuffix(a, b, i, j + 1);
    }
  }

  lemma {:induction false} SpansFromSuffix(a: string, b: string, i: nat)
    requires i <= |b|
    ensures SpansFrom(a + b, |a| + i) == Shift(SpansFrom(b, i), |a|)
    decreases |b| - i
  {
    var s := a + b;
    if i < |b| {
      assert s[|a| + i] == b[i];
      if !IsSecondaryStructure(b[i]) {
        SpansFromSuffix(a, b, i + 1);
      } else {
        var e := RunEnd(b, i, i + 1);
        RunEndSuffix(a, b, i, i + 1);
        SpansFromRun(s, |a| + i);
        SpansFromRun(b, i);
        SpansFromSuffix(a, b, e);
        ShiftAppend([Span(i + 1, e)], SpansFrom(b, e), |a|);
        ShiftOne(Span(i + 1, e), |a|);
      }
    }
  }

  lemma {:induction false} RunEndPrefix(a: string, b: string, i: nat, j: nat)
    requires i < j <= |a| && IsSecondaryStructure(a[i]) && CleanCut(a, b)
    requires forall k :: i <= k < j ==> a[k] == a[i]
    ensures RunEnd(a + b, i, j) == RunEnd(a, i, j)
    decreases |a| - j
  {
    if j < |a| && a[j] == a[i] {
      RunEndPrefix(a, b, i, j + 1);
    }
  }

  lemma {:induction false} SpansFromPrefix(a: string, b: string, i: nat)
    requires i <= |a| && CleanCut(a, b)
    ensures SpansFrom(a + b, i) == SpansFrom(a, i) + Shift(Spans(b), |a|)
    decreases |a| - i
  {
    var s := a + b;
    if i == |a| {
      SpansFromSuffix(a, b, 0);
      assert SpansFrom(a, i) == [];
    } else {
      assert s[i] == a[i];
      if !IsSecondaryStructure(a[i]) {
        SpansFromPrefix(a, b, i + 1);
      } else {
        RunEndPrefix(a, b, i, i + 1);
        var e := RunEnd(a, i, i + 1);
        SpansFromPrefix(a, b, e);
        ConcatAssoc([Span(i + 1, e)], SpansFrom(a, e), Shift(Spans(b), |a|));
      }
    }
  }

  /**
   * A cut between two residues that cannot belong to the same span: after a
   * coil residue, or between a helix and a strand residue.
   */
  predicate CleanCut(a: string, b: string) {
    a == [] || !IsSecondaryStructure(a[|a| - 1]) || b == [] || b[0] != a[|a| - 1]
  }

  /** Cutting a DSSP string where no span can continue cuts its span list in the same place. */
  lemma SpansSplit(a: string, b: string)
    requires CleanCut(a, b)
    ensures Spans(a + b) == Spans(a) + Shift(Spans(b), |a|)
  {
    SpansFromPrefix(a, b, 0);
  }

  /** 71 residues, written as pieces cut where no span can continue. */
  const DsspString1: string :=
    "   " + "EEEEE   " + "HHHHHHHH  " + "EEEEE   " + "IGN" + "OR " + "EEEEEE   " +
    "HHHHHHHHHHH  " + "EEEEE  " + "HHHH   "

  lemma DsspString1Prefix2()
    ensures Spans("   " + "EEEEE   ")
      == [Span(4, 8)]
  {
    RunEndAt("EEEEE   ", 0, 1, 5);
    SpansSplit("   ", "EEEEE   ");
  }

  lemma DsspString1Prefix3()
    ensures Spans("   " + "EEEEE   " + "HHHHHHHH  ")
      == [Span(4, 8), Span(12, 19)]
  {
    DsspString1Prefix2();
    RunEndAt("HHHHHHHH  ", 0, 1, 8);
    SpansSplit("   " + "EEEEE   ", "HHHHHHHH  ");
  }

  lemma DsspString1Prefix4()
    ensures Spans("   " + "EEEEE   " + "HHHHHHHH  " + "EEEEE   ")
      == [Span(4, 8), Span(12, 19), Span(22, 26)]
  {
    DsspString1Prefix3();
    RunEndAt("EEEEE   ", 0, 1, 5);
    SpansSplit("   " + "EEEEE   " + "HHHHHHHH  ", "EEEEE   ");
  }

  lemma DsspString1Prefix5()
    ensures Spans("   " + "EEEEE   " + "HHHHHHHH  " + "EEEEE   " + "IGN")
      == [Span(4, 8), Span(12, 19), Span(22, 26)]
  {
    DsspString1Prefix4();
    SpansSplit("   " + "EEEEE   " + "HHHHHHHH  " + "EEEEE   ", "IGN");
  }

  lemma DsspString1Prefix6()
    ensures Spans("   " + "EEEEE   " + "HHHHHHHH  " + "EEEEE   " + "IGN" + "OR ")
      == [Span(4, 8), Span(12, 19), Span(22, 26)]
  {
    DsspString1Prefix5();
    SpansSplit("   " + "EEEEE   " + "HHHHHHHH  " + "EEEEE   " + "IGN", "OR ");
  }

  lemma DsspString1Prefix7()
    ensures Spans("   " + "EEEEE   " + "HHHHHHHH  " + "EEEEE   " + "IGN" + "OR " + "EEEEEE   ")
      == [Span(4, 8), Span(12, 19), Span(22, 26), Span(36, 41)]
  {
    DsspString1Prefix6();
    RunEndAt("EEEEEE   ", 0, 1, 6);
    SpansSplit("   " + "EEEEE   " + "HHHHHHHH  " + "EEEEE   " + "IGN" + "OR ", "EEEEEE   ");
  }

  lemma DsspString1Prefix8()
    ensures Spans("   " + "EEEEE   " + "HHHHHHHH  " + "EEEEE   " + "IGN" + "OR " + "EEEEEE   " + "HHHHHHHHHHH  ")
      == [Span(4, 8), Span(12, 19), Span(22, 26), Span(36, 41), Span(45, 55)]
  {
    DsspString1Prefix7();
    RunEndAt("HHHHHHHHHHH  ", 0, 1, 11);
    SpansSplit("   " + "EEEEE   " + "HHHHHHHH  " + "EEEEE   " + "IGN" + "OR " + "EEEEEE   ", "HHHHHHHHHHH  ");
  }

  lemma DsspString1Prefix9()
    ensures Spans("   " + "EEEEE   " + "HHHHHHHH  " + "EEEEE   " + "IGN" + "OR " + "EEEEEE   " + "HHHHHHHHHHH  " + "EEEEE  ")
      == [Span(4, 8), Span(12, 19), Span(22, 26), Span(36, 41), Span(45, 55), Span(58, 62)]
  {
    DsspString1Prefix8();
    RunEndAt("EEEEE  ", 0, 1, 5);
    SpansSplit("   " + "EEEEE   " + "HHHHHHHH  " + "EEEEE   " + "IGN" + "OR " + "EEEEEE   " + "HHHHHHHHHHH  ", "EEEEE  ");
  }

  lemma DsspString1Spans()
    ensures Spans(DsspString1)
      == [Span(4, 8), Span(12, 19), Span(22, 26), Span(36, 41), Span(45, 55), Span(58, 62), Span(65, 68)]
  {
    DsspString1Prefix9();
    RunEndAt("HHHH   ", 0, 1, 4);
    SpansSplit("   " + "EEEEE   " + "HHHHHHHH  " + "EEEEE   " + "IGN" + "OR " + "EEEEEE   " + "HHHHHHHHHHH  " + "EEEEE  ", "HHHH   ");
  }

  /** 66 residues, written as pieces cut where no span can continue. */
  const DsspString2: string :=
    "HHHHHHH   " + "HHHHHHHHHHHH   " + "   " + "HHHHHHHHHHHH" + "EEEEEEEEEE" + "HHHHHHH " +
    "EEEE" + "HHH "

  /** The second piece of DsspString2 on its own: one helix of twelve residues. */
  lemma DsspString2Piece2()
    ensures Spans("HHHHHHHHHHHH   ") == [Span(1, 12)]
  {
    RunEndAt("HHHHHHHHHHHH   ", 0, 1, 12);
  }

  lemma DsspString2Prefix2()
    ensures Spans("HHHHHHH   " + "HHHHHHHHHHHH   ")
      == [Span(1, 7), Span(11, 22)]
  {
    RunEndAt("HHHHHHH   ", 0, 1, 7);
    SpansSplit("HHHHHHH   ", "HHHHHHHHHHHH   ");
    DsspString2Piece2();
  }

  lemma DsspString2Prefix3()
    ensures Spans("HHHHHHH   " + "HHHHHHHHHHHH   " + "   ")
      == [Span(1, 7), Span(11, 22)]
  {
    DsspString2Prefix2();
    SpansSplit("HHHHHHH   " + "HHHHHHHHHHHH   ", "   ");
  }

  lemma DsspString2Prefix4()
    ensures Spans("HHHHHHH   " + "HHHHHHHHHHHH   " + "   " + "HHHHHHHHHHHH")
      == [Span(1, 7), Span(11, 22), Span(29, 40)]
  {
    DsspString2Prefix3();
    RunEndAt("HHHHHHHHHHHH", 0, 1, 12);
    SpansSplit("HHHHHHH   " + "HHHHHHHHHHHH   " + "   ", "HHHHHHHHHHHH");
  }

  lemma DsspString2Prefix5()
    ensures Spans("HHHHHHH   " + "HHHHHHHHHHHH   " + "   " + "HHHHHHHHHHHH" + "EEEEEEEEEE")
      == [Span(1, 7), Span(11, 22), Span(29, 40), Span(41, 50)]
  {
    DsspString2Prefix4();
    RunEndAt("EEEEEEEEEE", 0, 1, 10);
    SpansSplit("HHHHHHH   " + "HHHHHHHHHHHH   " + "   " + "HHHHHHHHHHHH", "EEEEEEEEEE");
  }

  lemma DsspString2Prefix6()
    ensures Spans("HHHHHHH   " + "HHHHHHHHHHHH   " + "   " + "HHHHHHHHHHHH" + "EEEEEEEEEE" + "HHHHHHH ")
      == [Span(1, 7), Span(11, 22), Span(29, 40), Span(41, 50), Span(51, 57)]
  {
    DsspString2Prefix5();
    RunEndAt("HHHHHHH ", 0, 1, 7);
    SpansSplit("HHHHHHH   " + "HHHHHHHHHHHH   " + "   " + "HHHHHHHHHHHH" + "EEEEEEEEEE", "HHHHHHH ");
  }

  lemma DsspString2Prefix7()
    ensures Spans("HHHHHHH   " + "HHHHHHHHHHHH   " + "   " + "HHHHHHHHHHHH" + "EEEEEEEEEE" + "HHHHHHH " + "EEEE")
      == [Span(1, 7), Span(11, 22), Span(29, 40), Span(41, 50), Span(51, 57), Span(59, 62)]
  {
    DsspString2Prefix6();
    RunEndAt("EEEE", 0, 1, 4);
    SpansSplit("HHHHHHH   " + "HHHHHHHHHHHH   " + "   " + "HHHHHHHHHHHH" + "EEEEEEEEEE" + "HHHHHHH ", "EEEE");
  }

  lemma DsspString2Spans()
    ensures Spans(DsspString2)
      == [Span(1, 7), Span(11, 22), Span(29, 40), Span(41, 50), Span(51, 57), Span(59, 62), Span(63, 65)]
  {
    DsspString2Prefix7();
    RunEndAt("HHH ", 0, 1, 3);
    SpansSplit("HHHHHHH   " + "HHHHHHHHHHHH   " + "   " + "HHHHHHHHHHHH" + "EEEEEEEEEE" + "HHHHHHH " + "EEEE", "HHH ");
  }

  /** 51 residues, written as pieces cut where no span can continue. */
  const DsspString3: string :=
    "EEEEEEEEE " + "EEEEEEEE " + "EEEEEEEEE " + "H " + "EEEEE " + "H " + "H " + "H " + "EEEEEEEE"

  lemma DsspString3Prefix2()
    ensures Spans("EEEEEEEEE " + "EEEEEEEE ")
      == [Span(1, 9), Span(11, 18)]
  {
    RunEndAt("EEEEEEEEE ", 0, 1, 9);
    RunEndAt("EEEEEEEE ", 0, 1, 8);
    SpansSplit("EEEEEEEEE ", "EEEEEEEE ");
  }

  lemma DsspString3Prefix3()
    ensures Spans("EEEEEEEEE " + "EEEEEEEE " + "EEEEEEEEE ")
      == [Span(1, 9), Span(11, 18), Span(20, 28)]
  {
    DsspString3Prefix2();
    RunEndAt("EEEEEEEEE ", 0, 1, 9);
    SpansSplit("EEEEEEEEE " + "EEEEEEEE ", "EEEEEEEEE ");
  }

  lemma DsspString3Prefix4()
    ensures Spans("EEEEEEEEE " + "EEEEEEEE " + "EEEEEEEEE " + "H ")
      == [Span(1, 9), Span(11, 18), Span(20, 28), Span(30, 30)]
  {
    DsspString3Prefix3();
    RunEndAt("H ", 0, 1, 1);
    SpansSplit("EEEEEEEEE " + "EEEEEEEE " + "EEEEEEEEE ", "H ");
  }

  lemma DsspString3Prefix5()
    ensures Spans("EEEEEEEEE " + "EEEEEEEE " + "EEEEEEEEE " + "H " + "EEEEE ")
      == [Span(1, 9), Span(11, 18), Span(20, 28), Span(30, 30), Span(32, 36)]
  {
    DsspString3Prefix4();
    RunEndAt("EEEEE ", 0, 1, 5);
    SpansSplit("EEEEEEEEE " + "EEEEEEEE " + "EEEEEEEEE " + "H ", "EEEEE ");
  }

  lemma DsspString3Prefix6()
    ensures Spans("EEEEEEEEE " + "EEEEEEEE " + "EEEEEEEEE " + "H " + "EEEEE " + "H ")
      == [Span(1, 9), Span(11, 18), Span(20, 28), Span(30, 30), Span(32, 36), Span(38, 38)]
  {
    DsspString3Prefix5();
    RunEndAt("H ", 0, 1, 1);
    SpansSplit("EEEEEEEEE " + "EEEEEEEE " + "EEEEEEEEE " + "H " + "EEEEE ", "H ");
  }

  lemma DsspString3Prefix7()
    ensures Spans("EEEEEEEEE " + "EEEEEEEE " + "EEEEEEEEE " + "H " + "EEEEE " + "H " + "H ")
      == [Span(1, 9), Span(11, 18), Span(20, 28), Span(30, 30), Span(32, 36), Span(38, 38), Span(40, 40)]
  {
    DsspString3Prefix6();
    RunEndAt("H ", 0, 1, 1);
    SpansSplit("EEEEEEEEE " + "EEEEEEEE " + "EEEEEEEEE " + "H " + "EEEEE " + "H ", "H ");
  }

  lemma DsspString3Prefix8()
    ensures Spans("EEEEEEEEE " + "EEEEEEEE " + "EEEEEEEEE " + "H " + "EEEEE " + "H " + "H " + "H ")
      == [Span(1, 9), Span(11, 18), Span(20, 28), Span(30, 30), Span(32, 36), Span(38, 38), Span(40, 40), Span(42, 42)]
  {
    DsspString3Prefix7();
    RunEndAt("H ", 0, 1, 1);
    SpansSplit("EEEEEEEEE " + "EEEEEEEE " + "EEEEEEEEE " + "H " + "EEEEE " + "H " + "H ", "H ");
  }

  lemma DsspString3Spans()
    ensures Spans(DsspString3)
      == [Span(1, 9), Span(11, 18), Span(20, 28), Span(30, 30), Span(32, 36), Span(38, 38), Span(40, 40), Span(42, 42), Span(44, 51)]
  {
    DsspString3Prefix8();
    RunEndAt("EEEEEEEE", 0, 1, 8);
    SpansSplit("EEEEEEEEE " + "EEEEEEEE " + "EEEEEEEEE " + "H " + "EEEEE " + "H " + "H " + "H ", "EEEEEEEE");
  }

  /** 99 residues, written as pieces cut where no span can continue. */
  const TestDssp: string :=
    "   " + "EEEEEEE   " + " " + "EEEEEEE   " + "   " + "   " + "EEEEEEEEE   " + " " +
    "EEEEEEEEEE   " + "HHHHHH   " + "   " + "   " + "EEEEEEEEE   " + "   " + "   " + "EEEEE   " +
    "  "

  lemma TestDsspPrefix2()
    ensures Spans("   " + "EEEEEEE   ")
      == [Span(4, 10)]
  {
    RunEndAt("EEEEEEE   ", 0, 1, 7);
    SpansSplit("   ", "EEEEEEE   ");
  }

  lemma TestDsspPrefix3()
    ensures Spans("   " + "EEEEEEE   " + " ")
      == [Span(4, 10)]
  {
    TestDsspPrefix2();
    SpansSplit("   " + "EEEEEEE   ", " ");
  }

  lemma TestDsspPrefix4()
    ensures Spans("   " + "EEEEEEE   " + " " + "EEEEEEE   ")
      == [Span(4, 10), Span(15, 21)]
  {
    TestDsspPrefix3();
    RunEndAt("EEEEEEE   ", 0, 1, 7);
    SpansSplit("   " + "EEEEEEE   " + " ", "EEEEEEE   ");
  }

  lemma TestDsspPrefix5()
    ensures Spans("   " + "EEEEEEE   " + " " + "EEEEEEE   " + "   ")
      == [Span(4, 10), Span(15, 21)]
  {
    TestDsspPrefix4();
    SpansSplit("   " + "EEEEEEE   " + " " + "EEEEEEE   ", "   ");
  }

  lemma TestDsspPrefix6()
    ensures Spans("   " + "EEEEEEE   " + " " + "EEEEEEE   " + "   " + "   ")
      == [Span(4, 10), Span(15, 21)]
  {
    TestDsspPrefix5();
    SpansSplit("   " + "EEEEEEE   " + " " + "EEEEEEE   " + "   ", "   ");
  }

  lemma TestDsspPrefix7()
    ensures Spans("   " + "EEEEEEE   " + " " + "EEEEEEE   " + "   " + "   " + "EEEEEEEEE   ")
      == [Span(4, 10), Span(15, 21), Span(31, 39)]
  {
    TestDsspPrefix6();
    RunEndAt("EEEEEEEEE   ", 0, 1, 9);
    SpansSplit("   " + "EEEEEEE   " + " " + "EEEEEEE   " + "   " + "   ", "EEEEEEEEE   ");
  }

  lemma TestDsspPrefix8()
    ensures Spans("   " + "EEEEEEE   " + " " + "EEEEEEE   " + "   " + "   " + "EEEEEEEEE   " + " ")
      == [Span(4, 10), Span(15, 21), Span(31, 39)]
  {
    TestDsspPrefix7();
    SpansSplit("   " + "EEEEEEE   " + " " + "EEEEEEE   " + "   " + "   " + "EEEEEEEEE   ", " ");
  }

  lemma TestDsspPrefix9()
    ensures Spans("   " + "EEEEEEE   " + " " + "EEEEEEE   " + "   " + "   " + "EEEEEEEEE   " + " " + "EEEEEEEEEE   ")
      == [Span(4, 10), Span(15, 21), Span(31, 39), Span(44, 53)]
  {
    TestDsspPrefix8();
    RunEndAt("EEEEEEEEEE   ", 0, 1, 10);
    SpansSplit("   " + "EEEEEEE   " + " " + "EEEEEEE   " + "   " + "   " + "EEEEEEEEE   " + " ", "EEEEEEEEEE   ");
  }

  lemma TestDsspPrefix10()
    ensures Spans("   " + "EEEEEEE   " + " " + "EEEEEEE   " + "   " + "   " + "EEEEEEEEE   " + " " + "EEEEEEEEEE   " + "HHHHHH   ")
      == [Span(4, 10), Span(15, 21), Span(31, 39), Span(44, 53), Span(57, 62)]
  {
    TestDsspPrefix9();
    RunEndAt("HHHHHH   ", 0, 1, 6);
    SpansSplit("   " + "EEEEEEE   " + " " + "EEEEEEE   " + "   " + "   " + "EEEEEEEEE   " + " " + "EEEEEEEEEE   ", "HHHHHH   ");
  }

  lemma TestDsspPrefix11()
    ensures Spans("   " + "EEEEEEE   " + " " + "EEEEEEE   " + "   " + "   " + "EEEEEEEEE   " + " " + "EEEEEEEEEE   " + "HHHHHH   " + "   ")
      == [Span(4, 10), Span(15, 21), Span(31, 39), Span(44, 53), Span(57, 62)]
  {
    TestDsspPrefix10();
    SpansSplit("   " + "EEEEEEE   " + " " + "EEEEEEE   " + "   " + "   " + "EEEEEEEEE   " + " " + "EEEEEEEEEE   " + "HHHHHH   ", "   ");
  }

  lemma TestDsspPrefix12()
    ensures Spans("   " + "EEEEEEE   " + " " + "EEEEEEE   " + "   " + "   " + "EEEEEEEEE   " + " " + "EEEEEEEEEE   " + "HHHHHH   " + "   " + "   ")
      == [Span(4, 10), Span(15, 21), Span(31, 39), Span(44, 53), Span(57, 62)]
  {
    TestDsspPrefix11();
    SpansSplit("   " + "EEEEEEE   " + " " + "EEEEEEE   " + "   " + "   " + "EEEEEEEEE   " + " " + "EEEEEEEEEE   " + "HHHHHH   " + "   ", "   ");
  }

  lemma TestDsspPrefix13()
    ensures Spans("   " + "EEEEEEE   " + " " + "EEEEEEE   " + "   " + "   " + "EEEEEEEEE   " + " " + "EEEEEEEEEE   " + "HHHHHH   " + "   " + "   " + "EEEEEEEEE   ")
      == [Span(4, 10), Span(15, 21), Span(31, 39), Span(44, 53), Span(57, 62), Span(72, 80)]
  {
    TestDsspPrefix12();
    RunEndAt("EEEEEEEEE   ", 0, 1, 9);
    SpansSplit("   " + "EEEEEEE   " + " " + "EEEEEEE   " + "   " + "   " + "EEEEEEEEE   " + " " + "EEEEEEEEEE   " + "HHHHHH   " + "   " + "   ", "EEEEEEEEE   ");
  }

  lemma TestDsspPrefix14()
    ensures Spans("   " + "EEEEEEE   " + " " + "EEEEEEE   " + "   " + "   " + "EEEEEEEEE   " + " " + "EEEEEEEEEE   " + "HHHHHH   " + "   " + "   " + "EEEEEEEEE   " + "   ")
      == [Span(4, 10), Span(15, 21), Span(31, 39), Span(44, 53), Span(57, 62), Span(72, 80)]
  {
    TestDsspPrefix13();
    SpansSplit("   " + "EEEEEEE   " + " " + "EEEEEEE   " + "   " + "   " + "EEEEEEEEE   " + " " + "EEEEEEEEEE   " + "HHHHHH   " + "   " + "   " + "EEEEEEEEE   ", "   ");
  }

  lemma TestDsspPrefix15()
    ensures Spans("   " + "EEEEEEE   " + " " + "EEEEEEE   " + "   " + "   " + "EEEEEEEEE   " + " " + "EEEEEEEEEE   " + "HHHHHH   " + "   " + "   " + "EEEEEEEEE   " + "   " + "   ")
      == [Span(4, 10), Span(15, 21), Span(31, 39), Span(44, 53), Span(57, 62), Span(72, 80)]
  {
    TestDsspPrefix14();
    SpansSplit("   " + "EEEEEEE   " + " " + "EEEEEEE   " + "   " + "   " + "EEEEEEEEE   " + " " + "EEEEEEEEEE   " + "HHHHHH   " + "   " + "   " + "EEEEEEEEE   " + "   ", "   ");
  }

  lemma TestDsspPrefix16()
    ensures Spans("   " + "EEEEEEE   " + " " + "EEEEEEE   " + "   " + "   " + "EEEEEEEEE   " + " " + "EEEEEEEEEE   " + "HHHHHH   " + "   " + "   " + "EEEEEEEEE   " + "   " + "   " + "EEEEE   ")
      == [Span(4, 10), Span(15, 21), Span(31, 39), Span(44, 53), Span(57, 62), Span(72, 80), Span(90, 94)]
  {
    TestDsspPrefix15();
    RunEndAt("EEEEE   ", 0, 1, 5);
    SpansSplit("   " + "EEEEEEE   " + " " + "EEEEEEE   " + "   " + "   " + "EEEEEEEEE   " + " " + "EEEEEEEEEE   " + "HHHHHH   " + "   " + "   " + "EEEEEEEEE   " + "   " + "   ", "EEEEE   ");
  }

  lemma TestDsspSpans()
    ensures Spans(TestDssp)
      == [Span(4, 10), Span(15, 21), Span(31, 39), Span(44, 53), Span(57, 62), Span(72, 80), Span(90, 94)]
  {
    TestDsspPrefix16();
    SpansSplit("   " + "EEEEEEE   " + " " + "EEEEEEE   " + "   " + "   " + "EEEEEEEEE   " + " " + "EEEEEEEEEE   " + "HHHHHH   " + "   " + "   " + "EEEEEEEEE   " + "   " + "   " + "EEEEE   ", "  ");
  }

  /**
   * The unit test's fold-tree string: seven spans of five or more residues,
   * separated by loops of three or more, give 2 + 6 * 6 = 38 edges, and the
   * edges form a fold tree over residues 1..94 rooted at residue 7.
   */
  lemma TestDsspFoldTree()
    ensures |Spans(TestDssp)| == 7 && SizeSpans(Spans(TestDssp))
    ensures |FoldTreeOf(Spans(TestDssp))| == 38
    ensures Root(Spans(TestDssp)) == 7
    ensures IsFoldTree(FoldTreeOf(Spans(TestDssp)), 7, 94)
  {
    TestDsspSpans();
    var spans := Spans(TestDssp);
    assert SizeSpans(spans) && RoomyLayout(spans) && Separated(spans) by {
      forall k | 0 <= k < |spans| ensures spans[k].first + 2 <= spans[k].second {
        assert k in {0, 1, 2, 3, 4, 5, 6};
      }
      forall k | 0 <= k < |spans| - 1 ensures spans[k].second + 4 <= spans[k + 1].first {
        assert k in {0, 1, 2, 3, 4, 5};
      }
    }
    EdgeCount(spans);
    FoldTreeIsTree(spans);
  }
}
