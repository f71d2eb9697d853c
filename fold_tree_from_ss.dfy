/**
 * The bootcamp fold-tree builder: a DSSP secondary-structure string is cut
 * into helix/strand spans, and a fold tree is rooted at the centre of the
 * first span, with one jump to the centre of every later loop and span and
 * peptide edges running outwards from each centre.
 */
module FoldTreeFromSs {
  import opened Outcomes
  import opened Sequences

  /** core::Size is a 64-bit unsigned integer; its arithmetic wraps modulo 2^64. */
  const SizeModulus: int := 0x1_0000_0000_0000_0000

  /** A secondary-structure element: residues first..second, 1-based and inclusive. */
  datatype Span = Span(first: nat, second: nat)

  /** The two edge kinds the builder uses: a peptide edge, or a jump with its label. */
  datatype EdgeKind = Peptide | Jump(id: nat)

  /** A fold-tree edge from residue `start` to residue `stop`. */
  datatype Edge = Edge(start: nat, stop: nat, kind: EdgeKind)

  /** DSSP letters that open or continue a span: strand and helix. */
  predicate IsSecondaryStructure(c: char) {
    c == 'E' || c == 'H'
  }

  /*
   * ---------------------------------------------------------------------
   * Spans: the maximal runs of one letter, E or H, in the DSSP string.
   * ---------------------------------------------------------------------
   */

  /** First index at or after `j` whose letter differs from s[i], or |s|. */
  function RunEnd(s: string, i: nat, j: nat): (e: nat)
    requires i < j <= |s|
    ensures j <= e <= |s|
    ensures forall k :: j <= k < e ==> s[k] == s[i]
    ensures e == |s| || s[e] != s[i]
    decreases |s| - j
  {
    if j == |s| || s[j] != s[i] then j else RunEnd(s, i, j + 1)
  }

  /** The spans of `s` that start at 0-based index `i` or later. */
  function SpansFrom(s: string, i: nat): seq<Span>
    requires i <= |s|
    decreases |s| - i
  {
    if i == |s| then []
    else if !IsSecondaryStructure(s[i]) then SpansFrom(s, i + 1)
    else
      var e := RunEnd(s, i, i + 1);
      [Span(i + 1, e)] + SpansFrom(s, e)
  }

  /** The decomposition of a DSSP string into its helix/strand runs. */
  function Spans(s: string): seq<Span> {
    SpansFrom(s, 0)
  }

  lemma {:induction false} RunEndAt(s: string, i: nat, j: nat, e: nat)
    requires i < j <= e <= |s|
    requires forall k :: j <= k < e ==> s[k] == s[i]
    requires e == |s| || s[e] != s[i]
    ensures RunEnd(s, i, j) == e
    decreases e - j
  {
    if j < e {
      RunEndAt(s, i, j + 1, e);
    }
  }

  /**
   * identify_secondary_structure_spans: one pass with an open-span marker
   * (-1 when no span is open). A span closes when a non-E/H letter arrives,
   * or when the other of E and H arrives, which opens the next span at once.
   */
  method IdentifySecondaryStructureSpans(ss: string) returns (spans: seq<Span>)
    ensures spans == Spans(ss)
  {
    spans := [];
    var strandStart: int := -1;
    var ii := 0;
    while ii < |ss|
      invariant 0 <= ii <= |ss| && Scanned(ss, spans, strandStart, ii)
    {
      if ss[ii] == 'E' || ss[ii] == 'H' {
        if strandStart == -1 {
          ScanOpens(ss, spans, ii);
          strandStart := ii;
        } else if ss[ii] != ss[strandStart] {
          ScanSwitches(ss, spans, strandStart, ii);
          spans := spans + [Span(strandStart + 1, ii)];
          strandStart := ii;
        } else {
          ScanContinues(ss, spans, strandStart, ii);
        }
      } else {
        if strandStart != -1 {
          ScanCloses(ss, spans, strandStart, ii);
          spans := spans + [Span(strandStart + 1, ii)];
          strandStart := -1;
        } else {
          ScanSkips(ss, spans, ii);
        }
      }
      ii := ii + 1;
    }
    if strandStart != -1 {
      RunClosesAt(ss, strandStart, |ss|);
      spans := spans + [Span(strandStart + 1, |ss|)];
    }
  }

  /**
   * The state of the pass before index ii: the spans closed so far, then
   * either no open span and the spans from ii on, or a run of one E or H
   * letter open since `start` and the spans from `start` on, make up all the
   * spans of the string.
   */
  ghost predicate Scanned(ss: string, spans: seq<Span>, start: int, ii: nat) {
    && ii <= |ss| && -1 <= start < ii
    && (start == -1 ==> spans + SpansFrom(ss, ii) == Spans(ss))
    && (start != -1 ==>
        && IsSecondaryStructure(ss[start])
        && (forall k :: start <= k < ii ==> ss[k] == ss[start])
        && spans + SpansFrom(ss, start) == Spans(ss))
  }

  lemma ScanOpens(ss: string, spans: seq<Span>, ii: nat)
    requires ii < |ss| && Scanned(ss, spans, -1, ii) && IsSecondaryStructure(ss[ii])
    ensures Scanned(ss, spans, ii, ii + 1)
  {
  }

  lemma ScanContinues(ss: string, spans: seq<Span>, start: nat, ii: nat)
    requires ii < |ss| && Scanned(ss, spans, start, ii) && ss[ii] == ss[start]
    ensures Scanned(ss, spans, start, ii + 1)
  {
  }

  lemma ScanSwitches(ss: string, spans: seq<Span>, start: nat, ii: nat)
    requires ii < |ss| && Scanned(ss, spans, start, ii) && IsSecondaryStructure(ss[ii]) && ss[ii] != ss[start]
    ensures Scanned(ss, spans + [Span(start + 1, ii)], ii, ii + 1)
  {
    RunClosesAt(ss, start, ii);
    assert spans + [Span(start + 1, ii)] + SpansFrom(ss, ii) == spans + ([Span(start + 1, ii)] + SpansFrom(ss, ii));
  }

  lemma ScanCloses(ss: string, spans: seq<Span>, start: nat, ii: nat)
    requires ii < |ss| && Scanned(ss, spans, start, ii) && !IsSecondaryStructure(ss[ii])
    ensures Scanned(ss, spans + [Span(start + 1, ii)], -1, ii + 1)
  {
    RunClosesAt(ss, start, ii);
    assert spans + [Span(start + 1, ii)] + SpansFrom(ss, ii) == spans + ([Span(start + 1, ii)] + SpansFrom(ss, ii));
  }

  lemma ScanSkips(ss: string, spans: seq<Span>, ii: nat)
    requires ii < |ss| && Scanned(ss, spans, -1, ii) && !IsSecondaryStructure(ss[ii])
    ensures Scanned(ss, spans, -1, ii + 1)
  {
  }

  /** A run of one letter from `start` that ends at `e` is the first span from `start` on. */
  lemma RunClosesAt(s: string, start: nat, e: nat)
    requires start < e <= |s| && IsSecondaryStructure(s[start])
    requires forall k :: start <= k < e ==> s[k] == s[start]
    requires e == |s| || s[e] != s[start]
    ensures SpansFrom(s, start) == [Span(start + 1, e)] + SpansFrom(s, e)
  {
    RunEndAt(s, start, start + 1, e);
  }

  /** Every span lies inside the string, after index `lo`, and spans come in order without overlap. */
  ghost predicate Ordered(s: string, spans: seq<Span>, lo: nat) {
    (forall k :: 0 <= k < |spans| ==> lo < spans[k].first <= spans[k].second <= |s|)
    && (forall k :: 0 <= k < |spans| - 1 ==> spans[k].second < spans[k + 1].first)
  }

  /** Every residue of a span carries the span's letter, and that letter is E or H. */
  ghost predicate Uniform(s: string, spans: seq<Span>) {
    forall k, q :: 0 <= k < |spans| && 1 <= spans[k].first <= q + 1 <= spans[k].second <= |s| ==>
      IsSecondaryStructure(s[q]) && s[q] == s[spans[k].first - 1]
  }

  /** No span can be extended: the letters just outside it differ from its own. */
  ghost predicate Maximal(s: string, spans: seq<Span>) {
    forall k :: 0 <= k < |spans| && 1 <= spans[k].first <= spans[k].second <= |s| ==>
      (spans[k].first > 1 ==> s[spans[k].first - 2] != s[spans[k].first - 1])
      && (spans[k].second < |s| ==> s[spans[k].second] != s[spans[k].second - 1])
  }

  /** Residue p (1-based) lies in one of the spans. */
  ghost predicate Covered(spans: seq<Span>, p: int) {
    exists k :: 0 <= k < |spans| && spans[k].first <= p <= spans[k].second
  }

  /** True when a span starting at index i would not continue a run begun before i. */
  predicate CleanStart(s: string, i: nat)
    requires i <= |s|
  {
    i == 0 || i == |s| || !IsSecondaryStructure(s[i]) || s[i - 1] != s[i]
  }

  lemma {:induction false} SpansFromOrdered(s: string, i: nat)
    requires i <= |s|
    ensures Ordered(s, SpansFrom(s, i), i)
    decreases |s| - i
  {
    if i < |s| {
      if !IsSecondaryStructure(s[i]) {
        SpansFromOrdered(s, i + 1);
      } else {
        var e := RunEnd(s, i, i + 1);
        SpansFromOrdered(s, e);
        var rest := SpansFrom(s, e);
        var r := [Span(i + 1, e)] + rest;
        assert r[1..] == rest;
        forall k | 0 <= k < |r| - 1
          ensures r[k].second < r[k + 1].first
        {
          if k > 0 {
            assert r[k] == rest[k - 1] && r[k + 1] == rest[k];
          }
        }
      }
    }
  }

  lemma {:induction false} SpansFromUniform(s: string, i: nat)
    requires i <= |s|
    ensures Uniform(s, SpansFrom(s, i))
    decreases |s| - i
  {
    if i < |s| {
      if !IsSecondaryStructure(s[i]) {
        SpansFromUniform(s, i + 1);
      } else {
        var e := RunEnd(s, i, i + 1);
        SpansFromUniform(s, e);
        var rest := SpansFrom(s, e);
        var r := [Span(i + 1, e)] + rest;
        forall k, q | 0 <= k < |r| && 1 <= r[k].first <= q + 1 <= r[k].second <= |s|
          ensures IsSecondaryStructure(s[q]) && s[q] == s[r[k].first - 1]
        {
          if k > 0 {
            assert r[k] == rest[k - 1];
          }
        }
      }
    }
  }

  lemma {:induction false} SpansFromMaximal(s: string, i: nat)
    requires i <= |s|
    requires CleanStart(s, i)
    ensures Maximal(s, SpansFrom(s, i))
    decreases |s| - i
  {
    if i < |s| {
      if !IsSecondaryStructure(s[i]) {
        SpansFromMaximal(s, i + 1);
      } else {
        var e := RunEnd(s, i, i + 1);
        SpansFromMaximal(s, e);
        var rest := SpansFrom(s, e);
        var r := [Span(i + 1, e)] + rest;
        forall k | 0 <= k < |r| && 1 <= r[k].first <= r[k].second <= |s|
          ensures r[k].first > 1 ==> s[r[k].first - 2] != s[r[k].first - 1]
          ensures r[k].second < |s| ==> s[r[k].second] != s[r[k].second - 1]
        {
          if k > 0 {
            assert r[k] == rest[k - 1];
          }
        }
      }
    }
  }

  lemma {:induction false} SpansFromCover(s: string, i: nat, p: int)
    requires i <= |s| && i < p <= |s|
    ensures IsSecondaryStructure(s[p - 1]) <==> Covered(SpansFrom(s, i), p)
    decreases |s| - i
  {
    var r := SpansFrom(s, i);
    SpansFromOrdered(s, i);
    if !IsSecondaryStructure(s[i]) {
      if p == i + 1 {
        SpansFromOrdered(s, i + 1);
      } else {
        SpansFromCover(s, i + 1, p);
      }
    } else {
      var e := RunEnd(s, i, i + 1);
      var rest := SpansFrom(s, e);
      assert r == [Span(i + 1, e)] + rest;
      if p <= e {
        assert r[0].first <= p <= r[0].second;
      } else {
        SpansFromCover(s, e, p);
        if Covered(rest, p) {
          var k :| 0 <= k < |rest| && rest[k].first <= p <= rest[k].second;
          assert r[k + 1] == rest[k];
        }
        if Covered(r, p) {
          var k :| 0 <= k < |r| && r[k].first <= p <= r[k].second;
          assert k > 0;
          assert rest[k - 1] == r[k];
        }
      }
    }
  }

  /** identify_secondary_structure_spans: the spans are in bounds, increasing and disjoint. */
  lemma SpansOrdered(s: string)
    ensures forall k :: 0 <= k < |Spans(s)| ==> 1 <= Spans(s)[k].first <= Spans(s)[k].second <= |s|
    ensures forall k :: 0 <= k < |Spans(s)| - 1 ==> Spans(s)[k].second < Spans(s)[k + 1].first
  {
    SpansFromOrdered(s, 0);
  }

  /** Each span is a run of a single letter, E or H, that cannot be extended either way. */
  lemma SpansAreMaximalRuns(s: string)
    ensures Uniform(s, Spans(s)) && Maximal(s, Spans(s))
  {
    SpansFromUniform(s, 0);
    SpansFromMaximal(s, 0);
  }

  /** A residue lies in a span exactly when its DSSP letter is E or H. */
  lemma SpansCover(s: string, p: int)
    requires 1 <= p <= |s|
    ensures IsSecondaryStructure(s[p - 1]) <==> Covered(Spans(s), p)
  {
    SpansFromCover(s, 0, p);
  }

  /**
   * Where a helix runs straight into a strand (or back), the two spans are
   * adjacent: the second starts right after the first ends.
   */
  lemma SpansSwitchLetter(s: string, k: int)
    requires 0 <= k < |Spans(s)| - 1
    requires Spans(s)[k].second < |s| && IsSecondaryStructure(s[Spans(s)[k].second])
    ensures Spans(s)[k + 1].first == Spans(s)[k].second + 1
  {
    var r := Spans(s);
    SpansOrdered(s);
    var p := r[k].second + 1;
    SpansCover(s, p);
    var j :| 0 <= j < |r| && r[j].first <= p <= r[j].second;
    if j <= k {
      OrderedMonotone(s, r, j, k);
    } else if j > k + 1 {
      OrderedMonotone(s, r, k + 1, j - 1);
    }
  }

  lemma {:induction false} OrderedMonotone(s: string, r: seq<Span>, a: int, b: int)
    requires Ordered(s, r, 0)
    requires 0 <= a <= b < |r|
    ensures r[a].second <= r[b].second && r[a].first <= r[b].first
    ensures a < b ==> r[a].second < r[b].first
    decreases b - a
  {
    if a < b {
      OrderedMonotone(s, r, a, b - 1);
    }
  }

  /*
   * ---------------------------------------------------------------------
   * The fold tree.
   * ---------------------------------------------------------------------
   */

  /**
   * calculate_ss_center: second - (second - first) / 2 in core::Size
   * arithmetic. For an ordinary span this is its centre, the upper of the
   * two middle residues when the span has even length.
   */
  function CalculateSsCenter(first: nat, second: nat): (center: nat)
    requires first < SizeModulus && second < SizeModulus
    ensures center < SizeModulus
    ensures first <= second ==>
      first <= center <= second && first + second <= 2 * center <= first + second + 1
  {
    // Both subtractions are unsigned: each wraps by 2^64 when it would go negative.
    var diff := if first <= second then second - first else second - first + SizeModulus;
    var center := second - diff / 2;
    if center >= 0 then center else center + SizeModulus
  }

  /**
   * A loop of length zero (a helix running straight into a strand) has
   * first == second + 1, and the unsigned subtraction wraps: its "centre"
   * lies 2^63 + 1 residues past the loop.
   */
  lemma EmptyLoopCenter(second: nat)
    requires second + 1 < SizeModulus / 2
    ensures CalculateSsCenter(second + 1, second) == second + SizeModulus / 2 + 1
  {
  }

  /** Peptide edges from a centre residue out to both ends of its segment, skipping an end that is the centre. */
  function Outward(mid: nat, lo: nat, hi: nat): (edges: seq<Edge>)
    ensures |edges| == (if mid != lo then 1 else 0) + (if mid != hi then 1 else 0)
  {
    (if mid != lo then [Edge(mid, lo, Peptide)] else [])
    + (if mid != hi then [Edge(mid, hi, Peptide)] else [])
  }

  /** Spans whose residue numbers all stay inside core::Size, as any span list of a string does. */
  ghost predicate SizeSpans(spans: seq<Span>) {
    forall k :: 0 <= k < |spans| ==> 1 <= spans[k].first <= spans[k].second && spans[k].second + 1 < SizeModulus
  }

  /** The root: the centre of the first span. */
  function Root(spans: seq<Span>): nat
    requires |spans| > 0 && SizeSpans(spans)
  {
    CalculateSsCenter(spans[0].first, spans[0].second)
  }

  /**
   * The six edges (fewer where a centre is an end) that the builder adds for
   * span i (0-based, i >= 1): a jump to the centre of the loop before it,
   * peptide edges through that loop, a jump to the centre of the span, and
   * peptide edges through the span. The jumps are labelled 2i - 1 and 2i.
   */
  function SpanGroup(spans: seq<Span>, i: nat, root: nat): seq<Edge>
    requires 1 <= i < |spans| && SizeSpans(spans)
  {
    var loopStart := spans[i - 1].second + 1;
    var loopEnd := spans[i].first - 1;
    var loopMid := CalculateSsCenter(loopStart, loopEnd);
    var ssMid := CalculateSsCenter(spans[i].first, spans[i].second);
    [Edge(root, loopMid, Jump(2 * i - 1))] + Outward(loopMid, loopStart, loopEnd)
    + [Edge(root, ssMid, Jump(2 * i))] + Outward(ssMid, spans[i].first, spans[i].second)
  }

  /** The groups of spans 1 .. n - 1, in order. */
  function GroupsBefore(spans: seq<Span>, n: nat, root: nat): seq<Edge>
    requires n <= |spans| && SizeSpans(spans)
  {
    if n <= 1 then [] else GroupsBefore(spans, n - 1, root) + SpanGroup(spans, n - 1, root)
  }

  /** Appending the edges of span i one at a time, as the builder does, appends SpanGroup(spans, i, root). */
  lemma GroupAppended(spans: seq<Span>, i: nat, root: nat, before: seq<Edge>, afterLoop: seq<Edge>, after: seq<Edge>)
    requires 1 <= i < |spans| && SizeSpans(spans)
    requires
      var loopStart := spans[i - 1].second + 1;
      var loopEnd := spans[i].first - 1;
      var loopMid := CalculateSsCenter(loopStart, loopEnd);
      afterLoop == before + [Edge(root, loopMid, Jump(2 * i - 1))]
        + (if loopMid != loopStart then [Edge(loopMid, loopStart, Peptide)] else [])
        + (if loopMid != loopEnd then [Edge(loopMid, loopEnd, Peptide)] else [])
    requires
      var ssMid := CalculateSsCenter(spans[i].first, spans[i].second);
      after == afterLoop + [Edge(root, ssMid, Jump(2 * i))]
        + (if ssMid != spans[i].first then [Edge(ssMid, spans[i].first, Peptide)] else [])
        + (if ssMid != spans[i].second then [Edge(ssMid, spans[i].second, Peptide)] else [])
    ensures after == before + SpanGroup(spans, i, root)
  {
  }

  /** The edges of the fold tree built over a non-empty span list, in the order they are added. */
  function FoldTreeOf(spans: seq<Span>): seq<Edge>
    requires |spans| > 0 && SizeSpans(spans)
  {
    var root := Root(spans);
    Outward(root, 1, spans[0].second) + GroupsBefore(spans, |spans|, root)
  }

  lemma SpansFitSize(s: string)
    requires |s| + 1 < SizeModulus
    ensures SizeSpans(Spans(s))
  {
    SpansOrdered(s);
  }

  /** One pass of the builder's loop: a jump to the loop before span i and its peptide edges, then the same for span i. */
  method AddSpanGroup(ssBounds: seq<Span>, i: nat, rootRes: nat, jumpCounter: nat, ft: seq<Edge>)
    returns (next: seq<Edge>, counter: nat)
    requires 1 <= i < |ssBounds| && SizeSpans(ssBounds) && jumpCounter == 2 * i - 1
    ensures next == ft + SpanGroup(ssBounds, i, rootRes)
    ensures counter == jumpCounter + 2
  {
    next := ft;
    counter := jumpCounter;
    var loopStart := ssBounds[i - 1].second + 1;
    var loopEnd := ssBounds[i].first - 1;
    var loopMid := CalculateSsCenter(loopStart, loopEnd);
    next := next + [Edge(rootRes, loopMid, Jump(counter))];
    counter := counter + 1;
    next := next + (if loopMid != loopStart then [Edge(loopMid, loopStart, Peptide)] else []);
    next := next + (if loopMid != loopEnd then [Edge(loopMid, loopEnd, Peptide)] else []);
    ghost var afterLoop := next;
    var ssStart := ssBounds[i].first;
    var ssEnd := ssBounds[i].second;
    var ssMid := CalculateSsCenter(ssStart, ssEnd);
    next := next + [Edge(rootRes, ssMid, Jump(counter))];
    counter := counter + 1;
    next := next + (if ssMid != ssStart then [Edge(ssMid, ssStart, Peptide)] else []);
    next := next + (if ssMid != ssEnd then [Edge(ssMid, ssEnd, Peptide)] else []);
    GroupAppended(ssBounds, i, rootRes, ft, afterLoop, next);
  }

  /**
   * fold_tree_from_dssp_string. A string without any E or H has no first
   * span to root the tree at; the model reports that as an error.
   */
  method FoldTreeFromDsspString(dssp: string) returns (r: Result<seq<Edge>>)
    requires |dssp| + 1 < SizeModulus
    ensures r.Err? <==> Spans(dssp) == []
    ensures r.Ok? ==> SizeSpans(Spans(dssp)) && r.value == FoldTreeOf(Spans(dssp))
  {
    var ssBounds := IdentifySecondaryStructureSpans(dssp);
    SpansFitSize(dssp);
    if |ssBounds| == 0 {
      return Err("no secondary-structure span to root the fold tree at");
    }
    var ft: seq<Edge> := [];
    var rootRes := CalculateSsCenter(ssBounds[0].first, ssBounds[0].second);
    ft := ft + (if rootRes != 1 then [Edge(rootRes, 1, Peptide)] else []);
    ft := ft + (if rootRes != ssBounds[0].second then [Edge(rootRes, ssBounds[0].second, Peptide)] else []);
    var jumpCounter := 1;
    var i := 1;
    while i < |ssBounds|
      invariant 1 <= i <= |ssBounds|
      invariant jumpCounter == 2 * i - 1
      invariant ft == Outward(rootRes, 1, ssBounds[0].second) + GroupsBefore(ssBounds, i, rootRes)
    {
      ft, jumpCounter := AddSpanGroup(ssBounds, i, rootRes, jumpCounter, ft);
      ConcatAssoc(Outward(rootRes, 1, ssBounds[0].second), GroupsBefore(ssBounds, i, rootRes), SpanGroup(ssBounds, i, rootRes));
      i := i + 1;
    }
    return Ok(ft);
  }
}
