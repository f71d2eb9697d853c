/**
 * BootCampMover::apply (protocols/bootcamp/BootCampMover.cc): give the pose
 * the fold tree built from its secondary structure, switch on the
 * linear_chainbreak term, then run Monte Carlo cycles that each perturb the
 * phi and psi of one random residue, repack and minimize, and let the
 * Metropolis criterion accept or reject the result; finally report how many
 * cycles were accepted and the average score.
 *
 * The random number generator, the repacker with the minimizer, and the
 * MonteCarlo object's decisions are parameters: `draws(i)` is what cycle i
 * draws, `relax` is what repacking and minimization do to the backbone
 * torsions, and `judge(i, t)` is what boltzmann answers in cycle i for a pose
 * with torsions t, with the score it records.
 */
module BootCamp {
  import opened Outcomes
  import opened FoldTreeFromSs

  /** The backbone torsions of a pose; residue r's are at index r - 1. */
  datatype Torsions = Torsions(phi: seq<real>, psi: seq<real>)

  /** What one cycle draws: uniform() for the residue, then gaussian() twice for the deltas. */
  datatype Draw = Draw(uniform: real, pert1: real, pert2: real)

  /** What MonteCarlo::boltzmann answers, with mc.last_score() after it. */
  datatype Verdict = Verdict(accepted: bool, lastScore: real)

  /** The final report: the accepted count, the acceptance fraction and the average score. */
  datatype Summary = Summary(accepted: nat, fraction: Option<real>, average: Option<real>)

  predicate Shaped(t: Torsions) {
    |t.phi| == |t.psi| && |t.phi| > 0
  }

  /** uniform() draws from [0, 1). */
  ghost predicate UniformDraws(draws: nat -> Draw) {
    forall i :: 0.0 <= draws(i).uniform < 1.0
  }

  /** Repacking and minimization keep the number of residues. */
  ghost predicate KeepsSize(relax: Torsions -> Torsions) {
    forall t :: |relax(t).phi| == |t.phi| && |relax(t).psi| == |t.psi|
  }

  /*
   * ---------------------------------------------------------------------
   * One cycle.
   * ---------------------------------------------------------------------
   */

  /** randres: uniform() * num_res + 1, truncated to a Size. */
  function RandomResidue(uniform: real, numRes: nat): (r: int)
    requires 0.0 <= uniform < 1.0 && numRes > 0
    ensures 1 <= r <= numRes
  {
    var x := uniform * numRes as real;
    assert x < numRes as real;
    (x + 1.0).Floor
  }

  /** set_phi and set_psi of one residue to their old values plus the deltas. */
  function Perturbed(t: Torsions, res: int, dPhi: real, dPsi: real): (u: Torsions)
    requires 1 <= res <= |t.phi| && |t.psi| == |t.phi|
    ensures |u.phi| == |t.phi| && |u.psi| == |t.psi|
    ensures u.phi[res - 1] == t.phi[res - 1] + dPhi && u.psi[res - 1] == t.psi[res - 1] + dPsi
    ensures forall j :: 0 <= j < |t.phi| && j != res - 1 ==> u.phi[j] == t.phi[j] && u.psi[j] == t.psi[j]
  {
    Torsions(t.phi[res - 1 := t.phi[res - 1] + dPhi], t.psi[res - 1 := t.psi[res - 1] + dPsi])
  }

  /** One cycle's move before the verdict: perturb a random residue, then repack and minimize. */
  function Moved(t: Torsions, d: Draw, relax: Torsions -> Torsions): (u: Torsions)
    requires Shaped(t) && 0.0 <= d.uniform < 1.0 && KeepsSize(relax)
    ensures Shaped(u) && |u.phi| == |t.phi|
  {
    relax(Perturbed(t, RandomResidue(d.uniform, |t.phi|), d.pert1, d.pert2))
  }

  /** The pose's torsions and the verdicts after some cycles. */
  datatype McState = McState(current: Torsions, verdicts: seq<Verdict>)

  /**
   * The first k cycles from torsions t0. boltzmann keeps an accepted pose as
   * the last accepted one and puts the last accepted pose back on a
   * rejection, so after every cycle the pose is the last accepted pose.
   */
  function Run(t0: Torsions, draws: nat -> Draw, relax: Torsions -> Torsions,
               judge: (nat, Torsions) -> Verdict, k: nat): (s: McState)
    requires Shaped(t0) && UniformDraws(draws) && KeepsSize(relax)
    ensures |s.verdicts| == k
    ensures Shaped(s.current) && |s.current.phi| == |t0.phi|
    decreases k
  {
    if k == 0 then McState(t0, [])
    else
      var s := Run(t0, draws, relax, judge, k - 1);
      var moved := Moved(s.current, draws(k - 1), relax);
      var v := judge(k - 1, moved);
      McState(if v.accepted then moved else s.current, s.verdicts + [v])
  }

  /** One more cycle of a run. */
  lemma RunNext(t0: Torsions, draws: nat -> Draw, relax: Torsions -> Torsions,
                judge: (nat, Torsions) -> Verdict, k: nat)
    requires Shaped(t0) && UniformDraws(draws) && KeepsSize(relax)
    ensures var s := Run(t0, draws, relax, judge, k);
            var moved := Moved(s.current, draws(k), relax);
            var v := judge(k, moved);
            Run(t0, draws, relax, judge, k + 1) == McState(if v.accepted then moved else s.current, s.verdicts + [v])
  {
  }

  /** As long as no cycle has been accepted, the pose is the one the run started from. */
  lemma {:induction false} RejectedKeepsPose(t0: Torsions, draws: nat -> Draw, relax: Torsions -> Torsions,
                                            judge: (nat, Torsions) -> Verdict, k: nat)
    requires Shaped(t0) && UniformDraws(draws) && KeepsSize(relax)
    requires AcceptedCount(Run(t0, draws, relax, judge, k).verdicts) == 0
    ensures Run(t0, draws, relax, judge, k).current == t0
    decreases k
  {
    if k > 0 {
      var s := Run(t0, draws, relax, judge, k - 1);
      var vs := Run(t0, draws, relax, judge, k).verdicts;
      assert vs[..k - 1] == s.verdicts;
      AcceptedCountPrefix(vs, k - 1);
      RejectedKeepsPose(t0, draws, relax, judge, k - 1);
    }
  }

  /*
   * ---------------------------------------------------------------------
   * Bookkeeping and the report.
   * ---------------------------------------------------------------------
   */

  /** accepted_count: the cycles boltzmann accepted. */
  function AcceptedCount(log: seq<Verdict>): (n: nat)
    ensures n <= |log|
  {
    if log == [] then 0
    else AcceptedCount(log[..|log| - 1]) + (if log[|log| - 1].accepted then 1 else 0)
  }

  /** running_score_avg before the division: every cycle's last score, accepted or not. */
  function ScoreSum(log: seq<Verdict>): real {
    if log == [] then 0.0 else ScoreSum(log[..|log| - 1]) + log[|log| - 1].lastScore
  }

  /** No prefix of a log has more acceptances than the log. */
  lemma {:induction false} AcceptedCountPrefix(log: seq<Verdict>, i: nat)
    requires i <= |log|
    ensures AcceptedCount(log[..i]) <= AcceptedCount(log)
    decreases |log| - i
  {
    if i < |log| {
      AcceptedCountPrefix(log, i + 1);
      assert log[..i + 1][..i] == log[..i];
    } else {
      assert log[..i] == log;
    }
  }

  /** When every cycle is accepted, all of them are counted. */
  lemma {:induction false} AllAcceptedCounted(log: seq<Verdict>)
    requires forall k :: 0 <= k < |log| ==> log[k].accepted
    ensures AcceptedCount(log) == |log|
    decreases |log|
  {
    if log != [] {
      AllAcceptedCounted(log[..|log| - 1]);
    }
  }

  /**
   * static_cast<Real>(x) / static_cast<Real>(n): dividing by zero gives no
   * number (an infinity or NaN), modelled as None.
   */
  function Quotient(x: real, n: nat): (q: Option<real>)
    ensures q.Some? <==> n > 0
    ensures q.Some? ==> q.value * n as real == x
  {
    if n == 0 then None else Some(x / n as real)
  }

  /** The printed report for a log of verdicts, dividing by the iteration setting n. */
  function Reported(log: seq<Verdict>, n: nat): Summary {
    Summary(AcceptedCount(log), Quotient(AcceptedCount(log) as real, n), Quotient(ScoreSum(log), n))
  }

  /** With one cycle per iteration, the fraction lies in [0, 1] and the average is the mean score. */
  lemma ReportedOneCyclePerIteration(log: seq<Verdict>)
    requires |log| > 0
    ensures Reported(log, |log|).accepted <= |log|
    ensures 0.0 <= Reported(log, |log|).fraction.value <= 1.0
    ensures Reported(log, |log|).average.value * |log| as real == ScoreSum(log)
  {
    var r := Reported(log, |log|);
    var a := AcceptedCount(log) as real;
    assert r.fraction == Quotient(a, |log|) == Some(a / |log| as real);
    WithinOne(a, |log| as real);
    assert r.average == Quotient(ScoreSum(log), |log|);
  }

  lemma WithinOne(a: real, n: real)
    requires 0.0 <= a <= n && n > 0.0
    ensures 0.0 <= a / n <= 1.0
  {
    assert n / n == 1.0;
    assert a / n <= n / n;
  }

  /** With no iterations the report divides by zero. */
  lemma ReportedNoIterations(log: seq<Verdict>)
    ensures Reported(log, 0).fraction == None && Reported(log, 0).average == None
  {
  }

  /**
   * The loop as written runs one cycle more than the iteration setting it
   * divides by: when every cycle is accepted, the fraction is above 1.
   */
  lemma AsWrittenFractionAboveOne(log: seq<Verdict>, n: nat)
    requires n > 0 && |log| == n + 1
    requires forall k :: 0 <= k < |log| ==> log[k].accepted
    ensures Reported(log, n).accepted == n + 1
    ensures Reported(log, n).fraction.value > 1.0
  {
    AllAcceptedCounted(log);
    var f := Reported(log, n).fraction.value;
    assert f * n as real == (n + 1) as real;
  }

  /** One iteration, two cycles each scoring 1.0: the reported average is 2.0. */
  lemma AsWrittenAverageDoubles()
    ensures Reported([Verdict(true, 1.0), Verdict(false, 1.0)], 1).average == Some(2.0)
  {
    var log := [Verdict(true, 1.0), Verdict(false, 1.0)];
    assert log[..1] == [Verdict(true, 1.0)];
    assert ScoreSum(log) == 2.0;
  }

  /*
   * ---------------------------------------------------------------------
   * The pose and the score function, as objects the mover changes.
   * ---------------------------------------------------------------------
   */

  /**
   * The part of a pose the mover reads and writes. `secStruct` is the string
   * Dssp assigns to the pose; Dssp is not part of this model.
   */
  class Pose {
    var phi: seq<real>
    var psi: seq<real>
    var secStruct: string
    var foldTree: seq<Edge>

    constructor (t: Torsions, ss: string)
      ensures phi == t.phi && psi == t.psi && secStruct == ss && foldTree == []
    {
      phi, psi, secStruct, foldTree := t.phi, t.psi, ss, [];
    }

    function Angles(): Torsions
      reads this
    {
      Torsions(phi, psi)
    }

    /** Pose::size(). */
    function Size(): nat
      reads this
    {
      |phi|
    }

    /** Pose::set_phi: residue res's phi becomes v; nothing else changes. */
    method SetPhi(res: int, v: real)
      requires 1 <= res <= |phi|
      modifies this
      ensures phi == old(phi)[res - 1 := v]
      ensures psi == old(psi) && secStruct == old(secStruct) && foldTree == old(foldTree)
    {
      phi := phi[res - 1 := v];
    }

    /** Pose::set_psi: residue res's psi becomes v; nothing else changes. */
    method SetPsi(res: int, v: real)
      requires 1 <= res <= |psi|
      modifies this
      ensures psi == old(psi)[res - 1 := v]
      ensures phi == old(phi) && secStruct == old(secStruct) && foldTree == old(foldTree)
    {
      psi := psi[res - 1 := v];
    }

    /** Replaces the torsions, as assigning a copy of another pose does. */
    method SetTorsions(t: Torsions)
      modifies this
      ensures Angles() == t && secStruct == old(secStruct) && foldTree == old(foldTree)
    {
      phi, psi := t.phi, t.psi;
    }
  }

  /** A score function; of its weights only linear_chainbreak's is modelled. */
  class ScoreFunction {
    var linearChainbreak: real

    constructor (w: real)
      ensures linearChainbreak == w
    {
      linearChainbreak := w;
    }
  }

  /** The perturbation of one cycle: a random residue's phi and psi moved by two deltas. */
  method PerturbPose(pose: Pose, d: Draw) returns (randres: int)
    requires Shaped(pose.Angles()) && 0.0 <= d.uniform < 1.0
    modifies pose
    ensures randres == RandomResidue(d.uniform, old(pose.Size()))
    ensures pose.Angles() == Perturbed(old(pose.Angles()), randres, d.pert1, d.pert2)
    ensures pose.secStruct == old(pose.secStruct) && pose.foldTree == old(pose.foldTree)
  {
    randres := RandomResidue(d.uniform, pose.Size());
    var origPhi := pose.phi[randres - 1];
    var origPsi := pose.psi[randres - 1];
    pose.SetPhi(randres, origPhi + d.pert1);
    pose.SetPsi(randres, origPsi + d.pert2);
  }

  /**
   * One Monte Carlo cycle from the last accepted pose: perturb, repack and
   * minimize, then boltzmann, which keeps the new pose or puts the last
   * accepted one back.
   */
  method MonteCarloCycle(pose: Pose, i: nat, d: Draw, relax: Torsions -> Torsions,
                         judge: (nat, Torsions) -> Verdict) returns (v: Verdict)
    requires Shaped(pose.Angles()) && 0.0 <= d.uniform < 1.0 && KeepsSize(relax)
    modifies pose
    ensures v == judge(i, Moved(old(pose.Angles()), d, relax))
    ensures pose.Angles() == if v.accepted then Moved(old(pose.Angles()), d, relax) else old(pose.Angles())
    ensures pose.secStruct == old(pose.secStruct) && pose.foldTree == old(pose.foldTree)
  {
    var lastAccepted := pose.Angles();
    var randres := PerturbPose(pose, d);
    pose.SetTorsions(relax(pose.Angles()));
    v := judge(i, pose.Angles());
    if !v.accepted {
      pose.SetTorsions(lastAccepted);
    }
  }

  /**
   * The Monte Carlo loop, run for `cycles` cycles, with accepted_count and
   * running_score_avg kept as it goes.
   */
  method MonteCarloCycles(pose: Pose, cycles: nat, draws: nat -> Draw, relax: Torsions -> Torsions,
                          judge: (nat, Torsions) -> Verdict)
    returns (acceptedCount: nat, runningScore: real)
    requires Shaped(pose.Angles()) && UniformDraws(draws) && KeepsSize(relax)
    modifies pose
    ensures pose.Angles() == Run(old(pose.Angles()), draws, relax, judge, cycles).current
    ensures acceptedCount == AcceptedCount(Run(old(pose.Angles()), draws, relax, judge, cycles).verdicts)
    ensures runningScore == ScoreSum(Run(old(pose.Angles()), draws, relax, judge, cycles).verdicts)
    ensures pose.secStruct == old(pose.secStruct) && pose.foldTree == old(pose.foldTree)
  {
    ghost var t0 := pose.Angles();
    acceptedCount, runningScore := 0, 0.0;
    var i := 0;
    while i < cycles
      invariant 0 <= i <= cycles
      invariant pose.Angles() == Run(t0, draws, relax, judge, i).current
      invariant acceptedCount == AcceptedCount(Run(t0, draws, relax, judge, i).verdicts)
      invariant runningScore == ScoreSum(Run(t0, draws, relax, judge, i).verdicts)
      invariant pose.secStruct == old(pose.secStruct) && pose.foldTree == old(pose.foldTree)
    {
      acceptedCount, runningScore := CountedCycle(pose, t0, i, draws, relax, judge, acceptedCount, runningScore);
      i := i + 1;
    }
  }

  /** Cycle i of the loop above, with accepted_count and running_score_avg brought up to date. */
  method CountedCycle(pose: Pose, ghost t0: Torsions, i: nat, draws: nat -> Draw, relax: Torsions -> Torsions,
                      judge: (nat, Torsions) -> Verdict, acceptedCount: nat, runningScore: real)
    returns (acceptedAfter: nat, scoreAfter: real)
    requires Shaped(t0) && UniformDraws(draws) && KeepsSize(relax)
    requires pose.Angles() == Run(t0, draws, relax, judge, i).current
    requires acceptedCount == AcceptedCount(Run(t0, draws, relax, judge, i).verdicts)
    requires runningScore == ScoreSum(Run(t0, draws, relax, judge, i).verdicts)
    modifies pose
    ensures pose.Angles() == Run(t0, draws, relax, judge, i + 1).current
    ensures acceptedAfter == AcceptedCount(Run(t0, draws, relax, judge, i + 1).verdicts)
    ensures scoreAfter == ScoreSum(Run(t0, draws, relax, judge, i + 1).verdicts)
    ensures pose.secStruct == old(pose.secStruct) && pose.foldTree == old(pose.foldTree)
  {
    ghost var s := Run(t0, draws, relax, judge, i);
    var v := MonteCarloCycle(pose, i, draws(i), relax, judge);
    RunNext(t0, draws, relax, judge, i);
    ghost var log := s.verdicts + [v];
    assert log[..|log| - 1] == s.verdicts;
    acceptedAfter := acceptedCount + if v.accepted then 1 else 0;
    scoreAfter := runningScore + v.lastScore;
  }

  /*
   * ---------------------------------------------------------------------
   * The mover.
   * ---------------------------------------------------------------------
   */

  class BootCampMover {
    var scoreFunction: ScoreFunction?
    var numIterations: nat

    /** BootCampMover.hh is not part of this model: the initial settings are parameters. */
    constructor (sfxn: ScoreFunction?, n: nat)
      ensures scoreFunction == sfxn && numIterations == n
    {
      scoreFunction, numIterations := sfxn, n;
    }

    function GetScoreFunction(): ScoreFunction?
      reads this
    {
      scoreFunction
    }

    function GetNumIterations(): nat
      reads this
    {
      numIterations
    }

    /** set_score_function: the mover now shares the given score function. */
    method SetScoreFunction(sfxn: ScoreFunction?)
      modifies this
      ensures GetScoreFunction() == sfxn && GetNumIterations() == old(GetNumIterations())
    {
      scoreFunction := sfxn;
    }

    method SetNumIterations(n: nat)
      modifies this
      ensures GetNumIterations() == n && GetScoreFunction() == old(GetScoreFunction())
    {
      numIterations := n;
    }

    /**
     * apply, running one Monte Carlo cycle per iteration. The fold tree comes
     * from the pose's secondary structure; a pose without any E or H run has
     * no residue to root it at, and the model reports that as an error
     * before anything is changed.
     */
    method Apply(pose: Pose, draws: nat -> Draw, relax: Torsions -> Torsions,
                 judge: (nat, Torsions) -> Verdict) returns (r: Result<Summary>)
      requires scoreFunction != null
      requires Shaped(pose.Angles()) && |pose.secStruct| + 1 < SizeModulus
      requires UniformDraws(draws) && KeepsSize(relax)
      modifies pose, scoreFunction
      ensures pose.secStruct == old(pose.secStruct)
      ensures r.Err? <==> Spans(old(pose.secStruct)) == []
      ensures r.Err? ==> pose.Angles() == old(pose.Angles()) && pose.foldTree == old(pose.foldTree)
      ensures r.Ok? ==> SizeSpans(Spans(old(pose.secStruct))) && pose.foldTree == FoldTreeOf(Spans(old(pose.secStruct)))
      ensures r.Ok? ==> scoreFunction.linearChainbreak == 1.0
      ensures r.Ok? ==> pose.Angles() == Run(old(pose.Angles()), draws, relax, judge, numIterations).current
      ensures r.Ok? ==> r.value == Reported(Run(old(pose.Angles()), draws, relax, judge, numIterations).verdicts, numIterations)
    {
      r := Sample(pose, numIterations, draws, relax, judge);
    }

    /** apply as written: the loop runs from 0 to num_iterations_ inclusive. */
    method ApplyAsWritten(pose: Pose, draws: nat -> Draw, relax: Torsions -> Torsions,
                          judge: (nat, Torsions) -> Verdict) returns (r: Result<Summary>)
      requires scoreFunction != null
      requires Shaped(pose.Angles()) && |pose.secStruct| + 1 < SizeModulus
      requires UniformDraws(draws) && KeepsSize(relax)
      modifies pose, scoreFunction
      ensures pose.secStruct == old(pose.secStruct)
      ensures r.Err? <==> Spans(old(pose.secStruct)) == []
      ensures r.Err? ==> pose.Angles() == old(pose.Angles()) && pose.foldTree == old(pose.foldTree)
      ensures r.Ok? ==> SizeSpans(Spans(old(pose.secStruct))) && pose.foldTree == FoldTreeOf(Spans(old(pose.secStruct)))
      ensures r.Ok? ==> scoreFunction.linearChainbreak == 1.0
      ensures r.Ok? ==> pose.Angles() == Run(old(pose.Angles()), draws, relax, judge, numIterations + 1).current
      ensures r.Ok? ==> r.value == Reported(Run(old(pose.Angles()), draws, relax, judge, numIterations + 1).verdicts, numIterations)
    {
      r := Sample(pose, numIterations + 1, draws, relax, judge);
    }

    /** The body of apply, for a given number of cycles; the report divides by num_iterations_. */
    method Sample(pose: Pose, cycles: nat, draws: nat -> Draw, relax: Torsions -> Torsions,
                  judge: (nat, Torsions) -> Verdict) returns (r: Result<Summary>)
      requires scoreFunction != null
      requires Shaped(pose.Angles()) && |pose.secStruct| + 1 < SizeModulus
      requires UniformDraws(draws) && KeepsSize(relax)
      modifies pose, scoreFunction
      ensures pose.secStruct == old(pose.secStruct)
      ensures r.Err? <==> Spans(old(pose.secStruct)) == []
      ensures r.Err? ==> pose.Angles() == old(pose.Angles()) && pose.foldTree == old(pose.foldTree)
      ensures r.Ok? ==> SizeSpans(Spans(old(pose.secStruct))) && pose.foldTree == FoldTreeOf(Spans(old(pose.secStruct)))
      ensures r.Ok? ==> scoreFunction.linearChainbreak == 1.0
      ensures r.Ok? ==> pose.Angles() == Run(old(pose.Angles()), draws, relax, judge, cycles).current
      ensures r.Ok? ==> r.value == Reported(Run(old(pose.Angles()), draws, relax, judge, cycles).verdicts, numIterations)
    {
      var ft := FoldTreeFromDsspString(pose.secStruct);
      if ft.Err? {
        return Err(ft.error);
      }
      pose.foldTree := ft.value;
      scoreFunction.linearChainbreak := 1.0;
      var acceptedCount, runningScore := MonteCarloCycles(pose, cycles, draws, relax, judge);
      r := Ok(Summary(acceptedCount,
                      Quotient(acceptedCount as real, numIterations),
                      Quotient(runningScore, numIterations)));
    }
  }
}
