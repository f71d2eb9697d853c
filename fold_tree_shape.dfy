/**
 * What the edges built by fold_tree_from_dssp_string amount to: a fold
 * tree. Every edge hangs off a residue already in the tree, brings in
 * residues not yet in it, and together the edges reach every residue from
 * 1 to the end of the last span exactly once.
 */
module FoldTreeShape {
  import opened FoldTreeFromSs

  /** Residues lo..hi, inclusive. */
  function Interval(lo: int, hi: int): (s: set<int>)
    ensures forall r :: r in s <==> lo <= r <= hi
    decreases hi - lo
  {
    if lo > hi then {} else {lo} + Interval(lo + 1, hi)
  }

  /**
   * The residues an edge brings into the tree: for a peptide edge every
   * residue it walks over after its start, for a jump its landing residue.
   */
  function Entered(e: Edge): set<int> {
    match e.kind
    case Jump(_) => {e.stop}
    case Peptide =>
      if e.start < e.stop then Interval(e.start + 1, e.stop) else Interval(e.stop, e.start - 1)
  }

  /** All residues the edges bring in. */
  function EnteredAll(edges: seq<Edge>): set<int> {
    if edges == [] then {} else Entered(edges[0]) + EnteredAll(edges[1..])
  }

  /**
   * Edges taken in order grow a tree from the residues `placed`: each edge
   * starts at a residue already placed and brings in at least one residue,
   * none of them placed before.
   */
  ghost predicate GrowsFrom(placed: set<int>, edges: seq<Edge>)
    decreases |edges|
  {
    edges == []
    || (edges[0].start in placed && Entered(edges[0]) != {} && Entered(edges[0]) !! placed
        && GrowsFrom(placed + Entered(edges[0]), edges[1..]))
  }

  /** The edges form a fold tree rooted at `root` that spans residues 1..n. */
  ghost predicate IsFoldTree(edges: seq<Edge>, root: int, n: int) {
    1 <= root <= n && GrowsFrom({root}, edges) && {root} + EnteredAll(edges) == Interval(1, n)
  }

  /** Jump labels of the edges, in order. */
  function JumpLabels(edges: seq<Edge>): seq<nat> {
    if edges == [] then []
    else (if edges[0].kind.Jump? then [edges[0].kind.id] else []) + JumpLabels(edges[1..])
  }

  /** The labels 1, 2, ..., m. */
  function OneTo(m: nat): (r: seq<nat>)
    ensures |r| == m && forall t :: 0 <= t < m ==> r[t] == t + 1
  {
    if m == 0 then [] else OneTo(m - 1) + [m]
  }

  /** Consecutive spans are separated by a loop of at least one residue. */
  ghost predicate Separated(spans: seq<Span>) {
    forall k :: 0 <= k < |spans| - 1 ==> spans[k].second + 2 <= spans[k + 1].first
  }

  lemma {:induction false} EnteredAllAppend(a: seq<Edge>, b: seq<Edge>)
    ensures EnteredAll(a + b) == EnteredAll(a) + EnteredAll(b)
    decreases |a|
  {
    if a != [] {
      assert (a + b)[0] == a[0] && (a + b)[1..] == a[1..] + b;
      EnteredAllAppend(a[1..], b);
    } else {
      assert a + b == b;
    }
  }

  lemma {:induction false} GrowsFromAppend(p: set<int>, a: seq<Edge>, b: seq<Edge>)
    requires GrowsFrom(p, a) && GrowsFrom(p + EnteredAll(a), b)
    ensures GrowsFrom(p, a + b)
    decreases |a|
  {
    if a != [] {
      assert (a + b)[0] == a[0] && (a + b)[1..] == a[1..] + b;
      assert p + EnteredAll(a) == (p + Entered(a[0])) + EnteredAll(a[1..]);
      GrowsFromAppend(p + Entered(a[0]), a[1..], b);
    } else {
      assert a + b == b && p + EnteredAll(a) == p;
    }
  }

  lemma {:induction false} JumpLabelsAppend(a: seq<Edge>, b: seq<Edge>)
    ensures JumpLabels(a + b) == JumpLabels(a) + JumpLabels(b)
    decreases |a|
  {
    if a != [] {
      assert (a + b)[0] == a[0] && (a + b)[1..] == a[1..] + b;
      JumpLabelsAppend(a[1..], b);
    } else {
      assert a + b == b;
    }
  }

  /** Peptide edges out from a placed centre bring in the rest of its segment. */
  lemma OutwardGrows(p: set<int>, mid: nat, lo: nat, hi: nat)
    requires lo <= mid <= hi && mid in p
    requires Interval(lo, hi) * p == {mid}
    ensures GrowsFrom(p, Outward(mid, lo, hi))
    ensures EnteredAll(Outward(mid, lo, hi)) == Interval(lo, hi) - {mid}
    ensures JumpLabels(Outward(mid, lo, hi)) == []
  {
    var left := if mid != lo then [Edge(mid, lo, Peptide)] else [];
    var right := if mid != hi then [Edge(mid, hi, Peptide)] else [];
    assert Outward(mid, lo, hi) == left + right;
    assert EnteredAll(left) == Interval(lo, mid - 1) by {
      if mid != lo {
        assert EnteredAll(left) == Entered(left[0]) + EnteredAll(left[1..]);
      }
    }
    assert EnteredAll(right) == Interval(mid + 1, hi) by {
      if mid != hi {
        assert EnteredAll(right) == Entered(right[0]) + EnteredAll(right[1..]);
      }
    }
    assert GrowsFrom(p, left) by {
      if mid != lo {
        assert Entered(left[0]) == Interval(lo, mid - 1);
        assert lo in Entered(left[0]);
        forall x | x in Interval(lo, mid - 1) ensures x !in p {
          assert x in Interval(lo, hi);
        }
        assert left[1..] == [];
      }
    }
    assert GrowsFrom(p + EnteredAll(left), right) by {
      if mid != hi {
        assert Entered(right[0]) == Interval(mid + 1, hi);
        assert hi in Entered(right[0]);
        forall x | x in Interval(mid + 1, hi) ensures x !in p + EnteredAll(left) {
          assert x in Interval(lo, hi);
        }
        assert right[1..] == [];
      }
    }
    GrowsFromAppend(p, left, right);
    EnteredAllAppend(left, right);
    JumpLabelsAppend(left, right);
  }

  /** A jump from a placed residue to a residue not yet placed brings in just that residue. */
  lemma JumpGrows(p: set<int>, root: nat, target: nat, id: nat)
    requires root in p && target !in p
    ensures GrowsFrom(p, [Edge(root, target, Jump(id))])
    ensures EnteredAll([Edge(root, target, Jump(id))]) == {target}
    ensures JumpLabels([Edge(root, target, Jump(id))]) == [id]
  {
    var e := [Edge(root, target, Jump(id))];
    assert e[1..] == [];
  }

  /** A jump to a segment's centre followed by the peptide edges out from it brings in the whole segment. */
  lemma JumpThenOutward(p: set<int>, root: nat, mid: nat, lo: nat, hi: nat, id: nat)
    requires root in p && lo <= mid <= hi
    requires Interval(lo, hi) !! p
    ensures GrowsFrom(p, [Edge(root, mid, Jump(id))] + Outward(mid, lo, hi))
    ensures EnteredAll([Edge(root, mid, Jump(id))] + Outward(mid, lo, hi)) == Interval(lo, hi)
    ensures JumpLabels([Edge(root, mid, Jump(id))] + Outward(mid, lo, hi)) == [id]
  {
    var j := [Edge(root, mid, Jump(id))];
    assert mid in Interval(lo, hi);
    JumpGrows(p, root, mid, id);
    OutwardGrows(p + {mid}, mid, lo, hi);
    GrowsFromAppend(p, j, Outward(mid, lo, hi));
    EnteredAllAppend(j, Outward(mid, lo, hi));
    JumpLabelsAppend(j, Outward(mid, lo, hi));
  }

  /** The group of span i grows the tree from residues 1..end of span i - 1 to 1..end of span i. */
  lemma SpanGroupGrows(spans: seq<Span>, i: nat, root: nat)
    requires 1 <= i < |spans| && SizeSpans(spans) && Separated(spans)
    requires 1 <= root <= spans[i - 1].second
    ensures GrowsFrom(Interval(1, spans[i - 1].second), SpanGroup(spans, i, root))
    ensures Interval(1, spans[i - 1].second) + EnteredAll(SpanGroup(spans, i, root)) == Interval(1, spans[i].second)
    ensures JumpLabels(SpanGroup(spans, i, root)) == [2 * i - 1, 2 * i]
  {
    var loopStart := spans[i - 1].second + 1;
    var loopEnd := spans[i].first - 1;
    var loopMid := CalculateSsCenter(loopStart, loopEnd);
    var ssMid := CalculateSsCenter(spans[i].first, spans[i].second);
    var a := [Edge(root, loopMid, Jump(2 * i - 1))] + Outward(loopMid, loopStart, loopEnd);
    var b := [Edge(root, ssMid, Jump(2 * i))] + Outward(ssMid, spans[i].first, spans[i].second);
    assert SpanGroup(spans, i, root) == a + b;
    var p0 := Interval(1, spans[i - 1].second);
    JumpThenOutward(p0, root, loopMid, loopStart, loopEnd, 2 * i - 1);
    var p1 := Interval(1, loopEnd);
    assert p0 + Interval(loopStart, loopEnd) == p1;
    JumpThenOutward(p1, root, ssMid, spans[i].first, spans[i].second, 2 * i);
    assert p1 + Interval(spans[i].first, spans[i].second) == Interval(1, spans[i].second);
    GrowsFromAppend(p0, a, b);
    EnteredAllAppend(a, b);
    JumpLabelsAppend(a, b);
  }

  lemma {:induction false} GroupsGrow(spans: seq<Span>, n: nat, root: nat)
    requires 1 <= n <= |spans| && SizeSpans(spans) && Separated(spans)
    requires 1 <= root <= spans[0].second
    ensures GrowsFrom(Interval(1, spans[0].second), GroupsBefore(spans, n, root))
    ensures Interval(1, spans[0].second) + EnteredAll(GroupsBefore(spans, n, root)) == Interval(1, spans[n - 1].second)
  {
    if n > 1 {
      GroupsGrow(spans, n - 1, root);
      var g := GroupsBefore(spans, n - 1, root);
      var p0 := Interval(1, spans[0].second);
      assert spans[0].second <= spans[n - 2].second by { SeparatedMonotone(spans, 0, n - 2); }
      var sg := SpanGroup(spans, n - 1, root);
      assert GroupsBefore(spans, n, root) == g + sg;
      SpanGroupGrows(spans, n - 1, root);
      GrowsFromAppend(p0, g, sg);
      EnteredAllAppend(g, sg);
      assert p0 + EnteredAll(g + sg) == (p0 + EnteredAll(g)) + EnteredAll(sg);
    } else {
      assert GroupsBefore(spans, n, root) == [];
    }
  }

  lemma {:induction false} GroupsLabels(spans: seq<Span>, n: nat, root: nat)
    requires 1 <= n <= |spans| && SizeSpans(spans) && Separated(spans)
    requires 1 <= root <= spans[0].second
    ensures JumpLabels(GroupsBefore(spans, n, root)) == OneTo(2 * (n - 1))
  {
    if n > 1 {
      GroupsLabels(spans, n - 1, root);
      var g := GroupsBefore(spans, n - 1, root);
      var sg := SpanGroup(spans, n - 1, root);
      assert GroupsBefore(spans, n, root) == g + sg;
      assert spans[0].second <= spans[n - 2].second by { SeparatedMonotone(spans, 0, n - 2); }
      SpanGroupGrows(spans, n - 1, root);
      JumpLabelsAppend(g, sg);
      assert OneTo(2 * (n - 1)) == OneTo(2 * (n - 1) - 2) + [2 * (n - 1) - 1, 2 * (n - 1)] by {
        assert OneTo(2 * (n - 1)) == OneTo(2 * (n - 1) - 1) + [2 * (n - 1)];
        assert OneTo(2 * (n - 1) - 1) == OneTo(2 * (n - 1) - 2) + [2 * (n - 1) - 1];
      }
    } else {
      assert GroupsBefore(spans, n, root) == [];
    }
  }

  lemma {:induction false} SeparatedMonotone(spans: seq<Span>, a: int, b: int)
    requires SizeSpans(spans) && Separated(spans)
    requires 0 <= a <= b < |spans|
    ensures spans[a].second <= spans[b].second
    decreases b - a
  {
    if a < b {
      SeparatedMonotone(spans, a, b - 1);
    }
  }

  /**
   * When consecutive spans are separated by at least one loop residue, the
   * builder's edges form a fold tree rooted at the centre of the first span
   * that reaches exactly residues 1 .. end of the last span, and its jumps
   * are labelled 1, 2, ..., 2(k - 1) in the order they are added.
   */
  lemma FoldTreeIsTree(spans: seq<Span>)
    requires |spans| > 0 && SizeSpans(spans) && Separated(spans)
    ensures IsFoldTree(FoldTreeOf(spans), Root(spans), spans[|spans| - 1].second)
    ensures JumpLabels(FoldTreeOf(spans)) == OneTo(2 * (|spans| - 1))
  {
    FoldTreeReaches(spans);
    FoldTreeLabels(spans);
  }

  /** The builder's edges grow from the root over residues 1 .. end of the last span. */
  lemma FoldTreeReaches(spans: seq<Span>)
    requires |spans| > 0 && SizeSpans(spans) && Separated(spans)
    ensures IsFoldTree(FoldTreeOf(spans), Root(spans), spans[|spans| - 1].second)
  {
    var root := Root(spans);
    var rootEdges := Outward(root, 1, spans[0].second);
    var groups := GroupsBefore(spans, |spans|, root);
    assert FoldTreeOf(spans) == rootEdges + groups;
    assert Interval(1, spans[0].second) * {root} == {root};
    OutwardGrows({root}, root, 1, spans[0].second);
    assert {root} + EnteredAll(rootEdges) == Interval(1, spans[0].second);
    GroupsGrow(spans, |spans|, root);
    GrowsFromAppend({root}, rootEdges, groups);
    EnteredAllAppend(rootEdges, groups);
    SeparatedMonotone(spans, 0, |spans| - 1);
  }

  /** The builder's jumps are labelled 1, 2, ..., 2(k - 1) in the order they are added. */
  lemma FoldTreeLabels(spans: seq<Span>)
    requires |spans| > 0 && SizeSpans(spans) && Separated(spans)
    ensures JumpLabels(FoldTreeOf(spans)) == OneTo(2 * (|spans| - 1))
  {
    var root := Root(spans);
    var rootEdges := Outward(root, 1, spans[0].second);
    var groups := GroupsBefore(spans, |spans|, root);
    assert FoldTreeOf(spans) == rootEdges + groups;
    GroupsLabels(spans, |spans|, root);
    JumpLabelsAppend(rootEdges, groups);
  }

  lemma {:induction false} GrowsFromDisjoint(p: set<int>, edges: seq<Edge>, i: int, j: int)
    requires GrowsFrom(p, edges)
    requires 0 <= i < j < |edges|
    ensures Entered(edges[i]) !! Entered(edges[j])
    decreases |edges|
  {
    if i == 0 {
      GrowsFromPlaced(p + Entered(edges[0]), edges[1..], j - 1);
    } else {
      GrowsFromDisjoint(p + Entered(edges[0]), edges[1..], i - 1, j - 1);
    }
  }

  lemma {:induction false} GrowsFromPlaced(p: set<int>, edges: seq<Edge>, j: int)
    requires GrowsFrom(p, edges)
    requires 0 <= j < |edges|
    ensures Entered(edges[j]) !! p && Entered(edges[j]) != {}
    ensures edges[j].start in p + EnteredAll(edges[..j])
    decreases |edges|
  {
    if j > 0 {
      GrowsFromPlaced(p + Entered(edges[0]), edges[1..], j - 1);
      assert edges[1..][..j - 1] == edges[1..j];
      assert edges[..j] == [edges[0]] + edges[1..j];
      assert EnteredAll(edges[..j]) == Entered(edges[0]) + EnteredAll(edges[1..j]);
    } else {
      assert EnteredAll(edges[..0]) == {};
    }
  }

  lemma {:induction false} EnteredAllContains(edges: seq<Edge>, j: int)
    requires 0 <= j < |edges|
    ensures Entered(edges[j]) <= EnteredAll(edges)
    ensures EnteredAll(edges[..j]) <= EnteredAll(edges)
    decreases |edges|
  {
    EnteredAllAppend(edges[..j], edges[j..]);
    assert edges == edges[..j] + edges[j..];
    assert EnteredAll(edges[j..]) == Entered(edges[j]) + EnteredAll(edges[j + 1..]) by {
      assert edges[j..][0] == edges[j] && edges[j..][1..] == edges[j + 1..];
    }
  }

  /**
   * In a fold tree every residue other than the root has exactly one parent
   * edge, the root has none, and every edge starts and stops inside 1..n.
   */
  lemma FoldTreeParents(edges: seq<Edge>, root: int, n: int)
    requires IsFoldTree(edges, root, n)
    ensures forall i, j :: 0 <= i < j < |edges| ==> Entered(edges[i]) !! Entered(edges[j])
    ensures forall j :: 0 <= j < |edges| ==> root !in Entered(edges[j])
    ensures forall r :: 1 <= r <= n && r != root ==> HasParent(edges, r)
    ensures forall j :: 0 <= j < |edges| ==> 1 <= edges[j].start <= n && 1 <= edges[j].stop <= n
  {
    forall i, j | 0 <= i < j < |edges| ensures Entered(edges[i]) !! Entered(edges[j]) {
      GrowsFromDisjoint({root}, edges, i, j);
    }
    forall j | 0 <= j < |edges|
      ensures root !in Entered(edges[j])
      ensures 1 <= edges[j].start <= n && 1 <= edges[j].stop <= n
    {
      GrowsFromPlaced({root}, edges, j);
      EnteredAllContains(edges, j);
      assert edges[j].stop in Entered(edges[j]) by {
        if edges[j].kind.Peptide? {
          assert edges[j].start != edges[j].stop;
        }
      }
      assert edges[j].start in Interval(1, n);
      assert edges[j].stop in Interval(1, n);
    }
    forall r | 1 <= r <= n && r != root
      ensures HasParent(edges, r)
    {
      assert r in Interval(1, n);
      EnteredAllWitness(edges, r);
    }
  }

  /** Some edge brings residue r into the tree. */
  ghost predicate HasParent(edges: seq<Edge>, r: int) {
    exists j :: 0 <= j < |edges| && r in Entered(edges[j])
  }

  lemma {:induction false} EnteredAllWitness(edges: seq<Edge>, r: int)
    requires r in EnteredAll(edges)
    ensures HasParent(edges, r)
    decreases |edges|
  {
    if r !in Entered(edges[0]) {
      EnteredAllWitness(edges[1..], r);
      var j :| 0 <= j < |edges[1..]| && r in Entered(edges[1..][j]);
      assert edges[j + 1] == edges[1..][j];
    }
  }

  /** Spans and loops of at least three residues each: every centre is strictly inside its segment. */
  ghost predicate RoomyLayout(spans: seq<Span>) {
    (forall k :: 0 <= k < |spans| ==> spans[k].first + 2 <= spans[k].second)
    && (forall k :: 0 <= k < |spans| - 1 ==> spans[k].second + 4 <= spans[k + 1].first)
  }

  lemma {:induction false} GroupsCount(spans: seq<Span>, n: nat, root: nat)
    requires 1 <= n <= |spans| && SizeSpans(spans) && RoomyLayout(spans)
    ensures |GroupsBefore(spans, n, root)| == 6 * (n - 1)
  {
    if n > 1 {
      GroupsCount(spans, n - 1, root);
      var i := n - 1;
      var loopStart := spans[i - 1].second + 1;
      var loopEnd := spans[i].first - 1;
      var loopMid := CalculateSsCenter(loopStart, loopEnd);
      var ssMid := CalculateSsCenter(spans[i].first, spans[i].second);
      assert |SpanGroup(spans, i, root)|
        == 2 + |Outward(loopMid, loopStart, loopEnd)| + |Outward(ssMid, spans[i].first, spans[i].second)|;
    }
  }

  /**
   * With every span and every loop at least three residues long, no centre
   * coincides with an end, and the tree has 2 edges for the first span and
   * 6 for each later one: 6k - 4 in all.
   */
  lemma EdgeCount(spans: seq<Span>)
    requires |spans| > 0 && SizeSpans(spans) && RoomyLayout(spans)
    ensures |FoldTreeOf(spans)| == 6 * |spans| - 4
  {
    GroupsCount(spans, |spans|, Root(spans));
  }

  /**
   * The hazard of a loop of length zero: when span i starts right after span
   * i - 1 ends, the jump into that loop lands 2^63 + 1 residues past it, far
   * outside any chain.
   */
  lemma AdjacentSpansJumpOutside(spans: seq<Span>, i: nat)
    requires |spans| > 0 && SizeSpans(spans)
    requires 1 <= i < |spans| && spans[i].first == spans[i - 1].second + 1
    requires spans[i - 1].second + 1 < SizeModulus / 2
    ensures SpanGroup(spans, i, Root(spans))[0]
      == Edge(Root(spans), spans[i - 1].second + SizeModulus / 2 + 1, Jump(2 * i - 1))
  {
    EmptyLoopCenter(spans[i - 1].second);
  }

  /** H and E never touch: every E/H letter next to another E/H letter is the same letter. */
  ghost predicate NoDirectSwitch(s: string) {
    forall q :: 0 < q < |s| && IsSecondaryStructure(s[q - 1]) && IsSecondaryStructure(s[q]) ==> s[q - 1] == s[q]
  }

  /** Without a direct helix/strand switch, consecutive spans have at least one loop residue between them. */
  lemma NoDirectSwitchSeparated(s: string)
    requires NoDirectSwitch(s)
    ensures Separated(Spans(s))
  {
    var r := Spans(s);
    SpansOrdered(s);
    SpansAreMaximalRuns(s);
  }

  /** Residues after the last span carry neither E nor H. */
  lemma TrailingCoil(s: string)
    requires Spans(s) != []
    ensures forall q :: Spans(s)[|Spans(s)| - 1].second <= q < |s| ==> !IsSecondaryStructure(s[q])
  {
    var r := Spans(s);
    SpansOrdered(s);
    var last := r[|r| - 1].second;
    forall q | last <= q < |s| ensures !IsSecondaryStructure(s[q]) {
      SpansCover(s, q + 1);
      if Covered(r, q + 1) {
        var k :| 0 <= k < |r| && r[k].first <= q + 1 <= r[k].second;
        OrderedMonotone(s, r, k, |r| - 1);
      }
    }
  }

  /**
   * A DSSP string in which a helix never runs straight into a strand (or a
   * strand into a helix) makes the builder return a fold tree over residues
   * 1 .. end of the last span, rooted at the centre of the first span.
   * Residues after the last span are coil and are not in the tree.
   */
  lemma DsspFoldTree(s: string)
    requires |s| + 1 < SizeModulus && Spans(s) != [] && NoDirectSwitch(s)
    ensures SizeSpans(Spans(s))
    ensures IsFoldTree(FoldTreeOf(Spans(s)), Root(Spans(s)), Spans(s)[|Spans(s)| - 1].second)
    ensures forall q :: Spans(s)[|Spans(s)| - 1].second <= q < |s| ==> !IsSecondaryStructure(s[q])
  {
    SpansFitSize(s);
    NoDirectSwitchSeparated(s);
    FoldTreeIsTree(Spans(s));
    TrailingCoil(s);
  }
}
