/**
 * A residue-type patch as Patch::read_file builds it from the lines of a
 * patch file (core/chemical/Patch.cc): the NAME/TYPES header lines, the
 * patch's own selector block and its BEGIN_CASE ... END_CASE cases, each
 * case split by case_from_lines into selector lines and operations. Then
 * Patch::apply, which uses the first case that succeeds.
 *
 * Patch operations, residue selectors and residue types are opaque: an
 * operation is whatever the operation factory makes of a line, a selector
 * is the list of lines it was given, and whether something applies,
 * succeeds or validates is supplied by the caller.
 */
module Patches {
  import opened Outcomes
  import opened Text
  import opened PatchNaming

  /** A patch operation the factory built from one line. */
  datatype Operation = Operation(line: string, generatesBase: bool)

  /** A case of a patch: its selector lines and its operations, in file order. */
  datatype PatchCase = PatchCase(selector: seq<string>, operations: seq<Operation>)
  {
    /** PatchCase::add_operation: a case generates a new base type when one of its operations does. */
    predicate GeneratesBase() {
      exists k :: 0 <= k < |operations| && operations[k].generatesBase
    }
  }

  /** tag_from_line: the first word of a line, or "" for a blank line. */
  function Tag(line: string): string {
    FirstWord(line)
  }

  /** A tag that is a single word reads back as itself. */
  lemma TagOfMarker(m: string)
    requires m != "" && WordEnd(m, 0) == |m|
    ensures Tag(m) == m
  {
    assert IsWord(m);
    FirstWordOf("", m, "");
    assert "" + m + "" == m;
  }

  /** The tags of the four marker lines. */
  lemma MarkerTags()
    ensures Tag("BEGIN_SELECTOR") == "BEGIN_SELECTOR" && Tag("END_SELECTOR") == "END_SELECTOR"
    ensures Tag("BEGIN_CASE") == "BEGIN_CASE" && Tag("END_CASE") == "END_CASE"
  {
    SelectorMarkerTags();
    CaseMarkerTags();
  }

  lemma SelectorMarkerTags()
    ensures Tag("BEGIN_SELECTOR") == "BEGIN_SELECTOR" && Tag("END_SELECTOR") == "END_SELECTOR"
  {
    TagOfMarker("BEGIN_SELECTOR");
    TagOfMarker("END_SELECTOR");
  }

  lemma CaseMarkerTags()
    ensures Tag("BEGIN_CASE") == "BEGIN_CASE" && Tag("END_CASE") == "END_CASE"
  {
    TagOfMarker("BEGIN_CASE");
    TagOfMarker("END_CASE");
  }

  /*
   * ---------------------------------------------------------------------
   * Reading the file: only lines with a tag that is not a comment are kept.
   * ---------------------------------------------------------------------
   */

  predicate Significant(line: string) {
    var tag := Tag(line);
    |tag| > 0 && tag[0] != '#'
  }

  function Significants(raw: seq<string>): (lines: seq<string>)
    ensures forall k :: 0 <= k < |lines| ==> Significant(lines[k])
  {
    if raw == [] then []
    else Significants(raw[..|raw| - 1]) + (if Significant(raw[|raw| - 1]) then [raw[|raw| - 1]] else [])
  }

  /** The getline loop of read_file. */
  method KeepSignificant(raw: seq<string>) returns (lines: seq<string>)
    ensures lines == Significants(raw)
  {
    lines := [];
    var i := 0;
    while i < |raw|
      invariant 0 <= i <= |raw|
      invariant lines == Significants(raw[..i])
    {
      assert raw[..i + 1][..i] == raw[..i];
      if Significant(raw[i]) {
        lines := lines + [raw[i]];
      }
      i := i + 1;
    }
    assert raw[..i] == raw;
  }

  /** A line is kept exactly when it is significant; blank and comment lines go. */
  lemma {:induction false} SignificantsKeep(raw: seq<string>, x: string)
    ensures x in Significants(raw) <==> x in raw && Significant(x)
    decreases |raw|
  {
    if raw != [] {
      SignificantsKeep(raw[..|raw| - 1], x);
      assert raw == raw[..|raw| - 1] + [raw[|raw| - 1]];
    }
  }

  /*
   * ---------------------------------------------------------------------
   * The header: NAME, TYPES and REPLACE_RES_TYPE lines, anywhere in the file.
   * ---------------------------------------------------------------------
   */

  datatype Header = Header(name: string, isMetapatch: bool, types: seq<string>, replacesType: bool)

  /** `name.substr(0, 3) == "MP-"`: the name starts with "MP-". */
  function IsMetapatchName(name: string): (r: bool)
    ensures r <==> |name| >= 3 && name[..3] == "MP-"
  {
    (if |name| <= 3 then name else name[..3]) == "MP-"
  }

  /**
   * NAME reads the next word into the name (a NAME line without one leaves
   * the name as it was) and recomputes the metapatch flag; TYPES appends
   * every further word; REPLACE_RES_TYPE sets its flag.
   */
  function HeaderStep(h: Header, line: string): Header {
    var ws := Words(line);
    if ws == [] then h
    else if ws[0] == "NAME" then
      var name := if |ws| >= 2 then ws[1] else h.name;
      h.(name := name, isMetapatch := IsMetapatchName(name))
    else if ws[0] == "TYPES" then h.(types := h.types + ws[1..])
    else if ws[0] == "REPLACE_RES_TYPE" then h.(replacesType := true)
    else h
  }

  function HeaderRun(h: Header, lines: seq<string>): Header {
    if lines == [] then h else HeaderStep(HeaderRun(h, lines[..|lines| - 1]), lines[|lines| - 1])
  }

  /** The "misc parsing" loop of read_file. */
  method ReadHeader(lines: seq<string>, h0: Header) returns (h: Header)
    ensures h == HeaderRun(h0, lines)
  {
    h := h0;
    var i := 0;
    while i < |lines|
      invariant 0 <= i <= |lines|
      invariant h == HeaderRun(h0, lines[..i])
    {
      assert lines[..i + 1][..i] == lines[..i];
      var ws := Words(lines[i]);
      if ws != [] {
        if ws[0] == "NAME" {
          if |ws| >= 2 {
            h := h.(name := ws[1]);
          }
          h := h.(isMetapatch := IsMetapatchName(h.name));
        } else if ws[0] == "TYPES" {
          var j := 1;
          while j < |ws|
            invariant 1 <= j <= |ws|
            invariant h == HeaderRun(h0, lines[..i]).(types := HeaderRun(h0, lines[..i]).types + ws[1..j])
          {
            assert ws[1..j + 1] == ws[1..j] + [ws[j]];
            h := h.(types := h.types + [ws[j]]);
            j := j + 1;
          }
        } else if ws[0] == "REPLACE_RES_TYPE" {
          h := h.(replacesType := true);
        }
      }
      i := i + 1;
    }
    assert lines[..i] == lines;
  }

  predicate NameLine(line: string) {
    Words(line) != [] && Words(line)[0] == "NAME"
  }

  /**
   * After a file with a NAME line the metapatch flag says whether the name
   * starts with "MP-"; without one the flag is what it was before.
   */
  lemma {:induction false} MetapatchFollowsName(h0: Header, lines: seq<string>)
    ensures (exists k :: 0 <= k < |lines| && NameLine(lines[k]))
            ==> HeaderRun(h0, lines).isMetapatch == IsMetapatchName(HeaderRun(h0, lines).name)
    ensures (forall k :: 0 <= k < |lines| ==> !NameLine(lines[k]))
            ==> HeaderRun(h0, lines).isMetapatch == h0.isMetapatch
    decreases |lines|
  {
    if lines != [] {
      var init := lines[..|lines| - 1];
      MetapatchFollowsName(h0, init);
      if exists k :: 0 <= k < |lines| && NameLine(lines[k]) {
        if !NameLine(lines[|lines| - 1]) {
          var k :| 0 <= k < |lines| && NameLine(lines[k]);
          assert init[k] == lines[k];
        }
      } else {
        assert forall k :: 0 <= k < |init| ==> init[k] == lines[k];
      }
    }
  }

  /*
   * ---------------------------------------------------------------------
   * The patch's selector: the lines inside BEGIN_SELECTOR ... END_SELECTOR
   * before the first BEGIN_CASE.
   * ---------------------------------------------------------------------
   */

  datatype SelectorReader = SelectorReader(stopped: bool, inSelector: bool, lines: seq<string>)

  const SelectorStart := SelectorReader(false, false, [])

  function SelectorStep(r: SelectorReader, line: string): SelectorReader {
    var tag := Tag(line);
    if r.stopped then r
    else if tag == "BEGIN_CASE" then r.(stopped := true)
    else if tag == "BEGIN_SELECTOR" then r.(inSelector := true)
    else if tag == "END_SELECTOR" then r.(inSelector := false)
    else if r.inSelector then r.(lines := r.lines + [line])
    else r
  }

  function SelectorRun(r: SelectorReader, lines: seq<string>): SelectorReader {
    if lines == [] then r else SelectorStep(SelectorRun(r, lines[..|lines| - 1]), lines[|lines| - 1])
  }

  function SelectorOf(lines: seq<string>): seq<string> {
    SelectorRun(SelectorStart, lines).lines
  }

  /** Once the first case is reached the selector reader reads nothing more. */
  lemma {:induction false} SelectorStopped(r: SelectorReader, lines: seq<string>)
    requires r.stopped
    ensures SelectorRun(r, lines) == r
    decreases |lines|
  {
    if lines != [] {
      SelectorStopped(r, lines[..|lines| - 1]);
    }
  }

  lemma {:induction false} SelectorRunAppend(r: SelectorReader, a: seq<string>, b: seq<string>)
    ensures SelectorRun(r, a + b) == SelectorRun(SelectorRun(r, a), b)
    decreases |b|
  {
    if b == [] {
      assert a + b == a;
    } else {
      SelectorRunAppend(r, a, b[..|b| - 1]);
      assert (a + b)[..|a + b| - 1] == a + b[..|b| - 1];
    }
  }

  /** The selector loop of read_file, which breaks at the first BEGIN_CASE. */
  method ReadSelector(lines: seq<string>) returns (selector: seq<string>)
    ensures selector == SelectorOf(lines)
  {
    selector := [];
    var inSelector := false;
    var i := 0;
    while i < |lines|
      invariant 0 <= i <= |lines|
      invariant SelectorRun(SelectorStart, lines[..i]) == SelectorReader(false, inSelector, selector)
    {
      assert lines[..i + 1][..i] == lines[..i];
      var tag := Tag(lines[i]);
      if tag == "BEGIN_CASE" {
        SelectorRunAppend(SelectorStart, lines[..i + 1], lines[i + 1..]);
        assert lines[..i + 1] + lines[i + 1..] == lines;
        SelectorStopped(SelectorReader(true, inSelector, selector), lines[i + 1..]);
        return;
      } else if tag == "BEGIN_SELECTOR" {
        inSelector := true;
      } else if tag == "END_SELECTOR" {
        inSelector := false;
      } else if inSelector {
        selector := selector + [lines[i]];
      }
      i := i + 1;
    }
    assert lines[..i] == lines;
  }

  /** Lines from the first BEGIN_CASE on do not reach the patch's selector. */
  lemma SelectorBeforeCases(a: seq<string>, x: string, b: seq<string>)
    requires Tag(x) == "BEGIN_CASE"
    ensures SelectorOf(a + [x] + b) == SelectorOf(a)
  {
    SelectorRunAppend(SelectorStart, a + [x], b);
    var r := SelectorRun(SelectorStart, a);
    assert (a + [x])[..|a + [x]| - 1] == a;
    if !r.stopped {
      SelectorStopped(r.(stopped := true), b);
    } else {
      SelectorStopped(r, b);
    }
  }

  /** A line that is none of the markers the readers act on. */
  predicate PlainLine(line: string) {
    var tag := Tag(line);
    tag != "BEGIN_SELECTOR" && tag != "END_SELECTOR" && tag != "BEGIN_CASE" && tag != "END_CASE"
  }

  lemma {:induction false} SelectorReadsPlain(r: SelectorReader, lines: seq<string>)
    requires !r.stopped && r.inSelector
    requires forall k :: 0 <= k < |lines| ==> PlainLine(lines[k])
    ensures SelectorRun(r, lines) == r.(lines := r.lines + lines)
    decreases |lines|
  {
    if lines == [] {
      assert r.lines + lines == r.lines;
    } else {
      var init := lines[..|lines| - 1];
      SelectorReadsPlain(r, init);
      assert r.lines + init + [lines[|lines| - 1]] == r.lines + lines;
    }
  }

  /** A selector block at the top of a patch file is the patch's selector, line for line. */
  lemma SelectorBlockRead(sel: seq<string>)
    requires forall k :: 0 <= k < |sel| ==> PlainLine(sel[k])
    ensures SelectorOf(["BEGIN_SELECTOR"] + sel + ["END_SELECTOR"]) == sel
  {
    MarkerTags();
    var open := ["BEGIN_SELECTOR"];
    assert open[..0] == [];
    var r := SelectorRun(SelectorStart, open);
    assert r == SelectorReader(false, true, []);
    SelectorRunAppend(SelectorStart, open, sel);
    SelectorReadsPlain(r, sel);
    assert [] + sel == sel;
    SelectorRunAppend(SelectorStart, open + sel, ["END_SELECTOR"]);
    assert ["END_SELECTOR"][..0] == [];
  }

  /*
   * ---------------------------------------------------------------------
   * case_from_lines: selector-block lines go to the case's selector, every
   * other line to the operation factory, whose operations are kept in order.
   * ---------------------------------------------------------------------
   */

  datatype CaseReader = CaseReader(inSelector: bool, selector: seq<string>, operations: seq<Operation>)

  function CaseStep(r: CaseReader, line: string, build: string -> Option<Operation>): CaseReader {
    var tag := Tag(line);
    if tag == "BEGIN_SELECTOR" then r.(inSelector := true)
    else if tag == "END_SELECTOR" then r.(inSelector := false)
    else if r.inSelector then r.(selector := r.selector + [line])
    else match build(line)
      case Some(op) => r.(operations := r.operations + [op])
      case None => r
  }

  function CaseRun(r: CaseReader, lines: seq<string>, build: string -> Option<Operation>): CaseReader {
    if lines == [] then r else CaseStep(CaseRun(r, lines[..|lines| - 1], build), lines[|lines| - 1], build)
  }

  function CaseOf(lines: seq<string>, build: string -> Option<Operation>): PatchCase {
    var r := CaseRun(CaseReader(false, [], []), lines, build);
    PatchCase(r.selector, r.operations)
  }

  method CaseFromLines(lines: seq<string>, build: string -> Option<Operation>) returns (c: PatchCase)
    ensures c == CaseOf(lines, build)
  {
    var inSelector := false;
    var selector: seq<string> := [];
    var operations: seq<Operation> := [];
    var i := 0;
    while i < |lines|
      invariant 0 <= i <= |lines|
      invariant CaseRun(CaseReader(false, [], []), lines[..i], build) == CaseReader(inSelector, selector, operations)
    {
      assert lines[..i + 1][..i] == lines[..i];
      var tag := Tag(lines[i]);
      if tag == "BEGIN_SELECTOR" {
        inSelector := true;
      } else if tag == "END_SELECTOR" {
        inSelector := false;
      } else if inSelector {
        selector := selector + [lines[i]];
      } else {
        var op := build(lines[i]);
        if op.Some? {
          operations := operations + [op.value];
        }
      }
      i := i + 1;
    }
    assert lines[..i] == lines;
    c := PatchCase(selector, operations);
  }

  /** The operations the factory builds from some lines, in order. */
  function Built(lines: seq<string>, build: string -> Option<Operation>): seq<Operation> {
    if lines == [] then []
    else
      Built(lines[..|lines| - 1], build)
      + (match build(lines[|lines| - 1]) case Some(op) => [op] case None => [])
  }

  lemma {:induction false} CaseRunAppend(r: CaseReader, a: seq<string>, b: seq<string>, build: string -> Option<Operation>)
    ensures CaseRun(r, a + b, build) == CaseRun(CaseRun(r, a, build), b, build)
    decreases |b|
  {
    if b == [] {
      assert a + b == a;
    } else {
      CaseRunAppend(r, a, b[..|b| - 1], build);
      assert (a + b)[..|a + b| - 1] == a + b[..|b| - 1];
    }
  }

  lemma {:induction false} CaseReadsSelector(r: CaseReader, lines: seq<string>, build: string -> Option<Operation>)
    requires r.inSelector
    requires forall k :: 0 <= k < |lines| ==> PlainLine(lines[k])
    ensures CaseRun(r, lines, build) == r.(selector := r.selector + lines)
    decreases |lines|
  {
    if lines == [] {
      assert r.selector + lines == r.selector;
    } else {
      var init := lines[..|lines| - 1];
      CaseReadsSelector(r, init, build);
      assert r.selector + init + [lines[|lines| - 1]] == r.selector + lines;
    }
  }

  lemma {:induction false} CaseReadsOperations(r: CaseReader, lines: seq<string>, build: string -> Option<Operation>)
    requires !r.inSelector
    requires forall k :: 0 <= k < |lines| ==> PlainLine(lines[k])
    ensures CaseRun(r, lines, build) == r.(operations := r.operations + Built(lines, build))
    decreases |lines|
  {
    if lines == [] {
      assert r.operations + Built(lines, build) == r.operations;
    } else {
      var init := lines[..|lines| - 1];
      CaseReadsOperations(r, init, build);
      var last := match build(lines[|lines| - 1]) case Some(op) => [op] case None => [];
      assert r.operations + Built(init, build) + last == r.operations + Built(lines, build);
    }
  }

  lemma CaseRunOne(r: CaseReader, x: string, build: string -> Option<Operation>)
    ensures CaseRun(r, [x], build) == CaseStep(r, x, build)
  {
    assert [x][..0] == [];
  }

  /** Reading a selector block adds its lines to the case's selector. */
  lemma CaseSelectorBlock(sel: seq<string>, build: string -> Option<Operation>)
    requires forall k :: 0 <= k < |sel| ==> PlainLine(sel[k])
    ensures CaseRun(CaseReader(false, [], []), ["BEGIN_SELECTOR"] + sel + ["END_SELECTOR"], build)
            == CaseReader(false, sel, [])
  {
    var start := CaseReader(false, [], []);
    var open: seq<string> := ["BEGIN_SELECTOR"];
    var close: seq<string> := ["END_SELECTOR"];
    var r1 := CaseReader(true, [], []);
    var r2 := CaseReader(true, sel, []);
    assert CaseRun(start, open, build) == r1 by {
      MarkerTags();
      CaseRunOne(start, "BEGIN_SELECTOR", build);
    }
    assert CaseRun(r1, sel, build) == r2 by {
      CaseReadsSelector(r1, sel, build);
      assert [] + sel == sel;
    }
    assert CaseRun(r2, close, build) == CaseReader(false, sel, []) by {
      MarkerTags();
      CaseRunOne(r2, "END_SELECTOR", build);
    }
    CaseRunAppend(start, open, sel, build);
    CaseRunAppend(start, open + sel, close, build);
  }

  /**
   * A case written as a selector block followed by operation lines reads
   * back as that selector and the operations the factory makes of the rest.
   */
  lemma CaseOfBlocks(sel: seq<string>, ops: seq<string>, build: string -> Option<Operation>)
    requires forall k :: 0 <= k < |sel| ==> PlainLine(sel[k])
    requires forall k :: 0 <= k < |ops| ==> PlainLine(ops[k])
    ensures CaseOf(["BEGIN_SELECTOR"] + sel + ["END_SELECTOR"] + ops, build) == PatchCase(sel, Built(ops, build))
  {
    var start := CaseReader(false, [], []);
    var head := ["BEGIN_SELECTOR"] + sel + ["END_SELECTOR"];
    CaseSelectorBlock(sel, build);
    CaseReadsOperations(CaseReader(false, sel, []), ops, build);
    assert [] + Built(ops, build) == Built(ops, build);
    CaseRunAppend(start, head, ops, build);
  }

  /*
   * ---------------------------------------------------------------------
   * The cases: the lines strictly between BEGIN_CASE and END_CASE, in file
   * order. As written, an END_CASE outside a case still closes one (with
   * the lines left over, which are none), and a BEGIN_CASE inside a case is
   * skipped.
   * ---------------------------------------------------------------------
   */

  datatype CasesReader = CasesReader(inCase: bool, current: seq<string>, blocks: seq<seq<string>>)

  const CasesStart := CasesReader(false, [], [])

  function CasesStep(r: CasesReader, line: string): CasesReader {
    var tag := Tag(line);
    if tag == "BEGIN_CASE" then r.(inCase := true)
    else if tag == "END_CASE" then CasesReader(false, [], r.blocks + [r.current])
    else if r.inCase then r.(current := r.current + [line])
    else r
  }

  function CasesRun(r: CasesReader, lines: seq<string>): CasesReader {
    if lines == [] then r else CasesStep(CasesRun(r, lines[..|lines| - 1]), lines[|lines| - 1])
  }

  /** The line blocks of the cases of a file. */
  function CaseBlocks(lines: seq<string>): seq<seq<string>> {
    CasesRun(CasesStart, lines).blocks
  }

  /** The cases made of the blocks. */
  function CasesOf(blocks: seq<seq<string>>, build: string -> Option<Operation>): (cs: seq<PatchCase>)
    ensures |cs| == |blocks|
    ensures forall k :: 0 <= k < |blocks| ==> cs[k] == CaseOf(blocks[k], build)
  {
    if blocks == [] then [] else CasesOf(blocks[..|blocks| - 1], build) + [CaseOf(blocks[|blocks| - 1], build)]
  }

  lemma {:induction false} CasesRunAppend(r: CasesReader, a: seq<string>, b: seq<string>)
    ensures CasesRun(r, a + b) == CasesRun(CasesRun(r, a), b)
    decreases |b|
  {
    if b == [] {
      assert a + b == a;
    } else {
      CasesRunAppend(r, a, b[..|b| - 1]);
      assert (a + b)[..|a + b| - 1] == a + b[..|b| - 1];
    }
  }

  lemma {:induction false} CasesReadPlain(r: CasesReader, lines: seq<string>)
    requires r.inCase
    requires forall k :: 0 <= k < |lines| ==> PlainLine(lines[k])
    ensures CasesRun(r, lines) == r.(current := r.current + lines)
    decreases |lines|
  {
    if lines == [] {
      assert r.current + lines == r.current;
    } else {
      var init := lines[..|lines| - 1];
      CasesReadPlain(r, init);
      assert r.current + init + [lines[|lines| - 1]] == r.current + lines;
    }
  }

  /** A case as the file writes it. */
  function CaseText(block: seq<string>): seq<string> {
    ["BEGIN_CASE"] + block + ["END_CASE"]
  }

  function CasesText(blocks: seq<seq<string>>): seq<string> {
    if blocks == [] then [] else CasesText(blocks[..|blocks| - 1]) + CaseText(blocks[|blocks| - 1])
  }

  lemma CasesRunOne(r: CasesReader, x: string)
    ensures CasesRun(r, [x]) == CasesStep(r, x)
  {
    assert [x][..0] == [];
  }

  /** Reading one written case adds its lines as one block. */
  lemma CaseTextRead(r: CasesReader, block: seq<string>)
    requires !r.inCase && r.current == []
    requires forall k :: 0 <= k < |block| ==> PlainLine(block[k])
    ensures CasesRun(r, CaseText(block)) == CasesReader(false, [], r.blocks + [block])
  {
    var open := ["BEGIN_CASE"];
    var close := ["END_CASE"];
    MarkerTags();
    CasesRunOne(r, "BEGIN_CASE");
    var r1 := r.(inCase := true);
    CasesReadPlain(r1, block);
    assert r1.current + block == block;
    var r2 := r1.(current := block);
    CasesRunOne(r2, "END_CASE");
    CasesRunAppend(r, open, block);
    CasesRunAppend(r, open + block, close);
  }

  /** Cases written one after the other read back as the same blocks, in order. */
  lemma {:induction false} CaseBlocksOfText(blocks: seq<seq<string>>)
    requires forall i, k :: 0 <= i < |blocks| && 0 <= k < |blocks[i]| ==> PlainLine(blocks[i][k])
    ensures CasesRun(CasesStart, CasesText(blocks)) == CasesReader(false, [], blocks)
    ensures CaseBlocks(CasesText(blocks)) == blocks
    decreases |blocks|
  {
    if blocks != [] {
      var init := blocks[..|blocks| - 1];
      var last := blocks[|blocks| - 1];
      assert init + [last] == blocks;
      assert CasesText(blocks) == CasesText(init) + CaseText(last);
      assert forall i :: 0 <= i < |init| ==> init[i] == blocks[i];
      CaseBlocksOfText(init);
      assert forall k :: 0 <= k < |last| ==> PlainLine(last[k]);
      CasesRunAppend(CasesStart, CasesText(init), CaseText(last));
      CaseTextRead(CasesReader(false, [], init), last);
    }
  }

  /** An END_CASE line outside any case, as written, adds a case with no lines. */
  lemma StrayEndCaseAddsEmptyCase(r: CasesReader)
    requires !r.inCase
    ensures CaseBlocks(["END_CASE"]) == [[]]
    ensures CasesRun(r, ["END_CASE"]).blocks == r.blocks + [r.current]
  {
    MarkerTags();
    assert ["END_CASE"][..0] == [];
  }

  /*
   * ---------------------------------------------------------------------
   * Patch::apply: the first case that applies and succeeds gives the result.
   * ---------------------------------------------------------------------
   */

  /** What applying one case gives: a residue type, a null reference, or an exception. */
  datatype Attempt = Produced(rsd: ResidueNames) | NoResult | RosettaError | OtherError

  /** What Patch::apply gives: a patched residue type, a null reference, or a re-thrown exception. */
  datatype Applied = Patched(rsd: ResidueNames) | NotPatched | Rethrown

  /**
   * The oracles a case is judged by: whether it applies to the residue type,
   * what applying it gives, and whether a produced residue type validates.
   */
  datatype Judge = Judge(applies: PatchCase -> bool, attempt: PatchCase -> Attempt, validates: ResidueNames -> bool)
  {
    /** A case Patch::apply passes over: it does not apply, gives null, fails validation or throws a Rosetta exception. */
    predicate Skips(c: PatchCase) {
      !applies(c)
      || attempt(c).NoResult? || attempt(c).RosettaError?
      || (attempt(c).Produced? && !validates(attempt(c).rsd))
    }
  }

  /** The loop over the cases, as a recursion over what is left. */
  function FirstSuccess(cs: seq<PatchCase>, judge: Judge): Applied {
    if cs == [] then NotPatched
    else if judge.Skips(cs[0]) then FirstSuccess(cs[1..], judge)
    else if judge.attempt(cs[0]).OtherError? then Rethrown
    else Patched(judge.attempt(cs[0]).rsd)
  }

  /** The index of the first case that is not passed over, or |cs|. */
  function FirstDecisive(cs: seq<PatchCase>, judge: Judge): (k: nat)
    ensures k <= |cs|
    ensures forall j :: 0 <= j < k ==> judge.Skips(cs[j])
    ensures k < |cs| ==> !judge.Skips(cs[k])
  {
    if cs == [] then 0
    else if judge.Skips(cs[0]) then 1 + FirstDecisive(cs[1..], judge)
    else 0
  }

  /**
   * The result is decided by the first case not passed over: none gives
   * null, one that throws anything but a Rosetta exception re-throws, and
   * otherwise its residue type is the result.
   */
  lemma {:induction false} FirstSuccessIsFirstDecisive(cs: seq<PatchCase>, judge: Judge)
    ensures var k := FirstDecisive(cs, judge);
            FirstSuccess(cs, judge)
            == (if k == |cs| then NotPatched
                else if judge.attempt(cs[k]).OtherError? then Rethrown
                else Patched(judge.attempt(cs[k]).rsd))
    decreases |cs|
  {
    if cs != [] && judge.Skips(cs[0]) {
      FirstSuccessIsFirstDecisive(cs[1..], judge);
      var k := FirstDecisive(cs[1..], judge);
      if k < |cs[1..]| {
        assert cs[1..][k] == cs[k + 1];
      }
    }
  }

  /** A patched result comes from a case that applies, produced that residue type, and validates. */
  lemma PatchedFromValidCase(cs: seq<PatchCase>, judge: Judge)
    requires FirstSuccess(cs, judge).Patched?
    ensures exists k :: 0 <= k < |cs|
                        && judge.applies(cs[k])
                        && judge.attempt(cs[k]) == Produced(FirstSuccess(cs, judge).rsd)
                        && judge.validates(FirstSuccess(cs, judge).rsd)
                        && (forall j :: 0 <= j < k ==> judge.Skips(cs[j]))
  {
    FirstSuccessIsFirstDecisive(cs, judge);
    var k := FirstDecisive(cs, judge);
    assert judge.attempt(cs[k]) == Produced(FirstSuccess(cs, judge).rsd);
  }

  /** Patch::apply returns null exactly when the patch does not apply or every case is passed over. */
  lemma NotPatchedWhenAllSkip(cs: seq<PatchCase>, judge: Judge)
    ensures FirstSuccess(cs, judge) == NotPatched <==> forall k :: 0 <= k < |cs| ==> judge.Skips(cs[k])
  {
    FirstSuccessIsFirstDecisive(cs, judge);
  }

  /*
   * ---------------------------------------------------------------------
   * The patch object.
   * ---------------------------------------------------------------------
   */

  /** Some case of the list makes a new base residue type. */
  predicate AnyGeneratesBase(cs: seq<PatchCase>) {
    exists k :: 0 <= k < |cs| && cs[k].GeneratesBase()
  }

  lemma AnyGeneratesBaseAppend(cs: seq<PatchCase>, c: PatchCase)
    ensures AnyGeneratesBase(cs + [c]) <==> AnyGeneratesBase(cs) || c.GeneratesBase()
  {
    if AnyGeneratesBase(cs) {
      var k :| 0 <= k < |cs| && cs[k].GeneratesBase();
      assert (cs + [c])[k] == cs[k];
    }
    if c.GeneratesBase() {
      assert (cs + [c])[|cs|] == c;
    }
  }

  /** A type list after adding `t` unless it is already there. */
  function WithItem(ts: seq<string>, t: string): seq<string> {
    if t in ts then ts else ts + [t]
  }

  /** add_type and add_custom_type: idempotent, and a list without repeats stays so. */
  lemma WithItemIdempotent(ts: seq<string>, t: string)
    ensures WithItem(WithItem(ts, t), t) == WithItem(ts, t)
    ensures NoRepeats(ts) ==> NoRepeats(WithItem(ts, t))
    ensures forall x :: x in WithItem(ts, t) <==> x in ts || x == t
  {
  }

  class Patch {
    var name: string
    var isMetapatch: bool
    var types: seq<string>
    var customTypes: seq<string>
    var selector: seq<string>
    var cases: seq<PatchCase>
    var replacesResidueType: bool
    var generatesBaseResidueType: bool

    constructor ()
      ensures name == "" && !isMetapatch && types == [] && customTypes == []
      ensures selector == [] && cases == [] && !replacesResidueType && !generatesBaseResidueType
    {
      name, isMetapatch, types, customTypes := "", false, [], [];
      selector, cases, replacesResidueType, generatesBaseResidueType := [], [], false, false;
    }

    /** add_type: the variant type is added unless it is already there. */
    method AddType(t: string)
      modifies this`types
      ensures types == WithItem(old(types), t)
    {
      if t in types {
        return;
      }
      types := types + [t];
    }

    /** add_custom_type: the custom variant type is added unless it is already there. */
    method AddCustomType(t: string)
      modifies this`customTypes
      ensures customTypes == WithItem(old(customTypes), t)
    {
      if t in customTypes {
        return;
      }
      customTypes := customTypes + [t];
    }

    /** add_case: the case goes last; a case that makes a new base type marks the patch as doing so. */
    method AddCase(c: PatchCase)
      modifies this`cases, this`generatesBaseResidueType
      ensures cases == old(cases) + [c]
      ensures generatesBaseResidueType == (old(generatesBaseResidueType) || c.GeneratesBase())
    {
      if c.GeneratesBase() {
        generatesBaseResidueType := true;
      }
      cases := cases + [c];
    }

    /**
     * read_file once the file's lines are in hand: the old data cleared,
     * blank and comment lines dropped, then the header, the selector and
     * the cases read. The metapatch flag and the new-base-type flag are not
     * cleared first, as in the source.
     */
    method ReadLines(raw: seq<string>, build: string -> Option<Operation>)
      modifies this
      ensures var lines := Significants(raw);
              var h := HeaderRun(Header("", old(isMetapatch), [], false), lines);
              && name == h.name && isMetapatch == h.isMetapatch && types == h.types
              && replacesResidueType == h.replacesType && customTypes == []
              && selector == SelectorOf(lines)
              && cases == CasesOf(CaseBlocks(lines), build)
      ensures generatesBaseResidueType
              == (old(generatesBaseResidueType) || AnyGeneratesBase(cases))
    {
      customTypes, cases := [], [];
      var lines := KeepSignificant(raw);
      var h := ReadHeader(lines, Header("", isMetapatch, [], false));
      name, isMetapatch, types, replacesResidueType := h.name, h.isMetapatch, h.types, h.replacesType;
      selector := ReadSelector(lines);
      ReadCases(lines, build);
    }

    /** The case loop of read_file, which consumes the lines from the front. */
    method ReadCases(lines: seq<string>, build: string -> Option<Operation>)
      requires cases == []
      modifies this`cases, this`generatesBaseResidueType
      ensures cases == CasesOf(CaseBlocks(lines), build)
      ensures generatesBaseResidueType
              == (old(generatesBaseResidueType) || AnyGeneratesBase(cases))
    {
      var caseLines: seq<string> := [];
      var inCase := false;
      ghost var blocks: seq<seq<string>> := [];
      var i := 0;
      while i < |lines|
        invariant 0 <= i <= |lines|
        invariant CasesRun(CasesStart, lines[..i]) == CasesReader(inCase, caseLines, blocks)
        invariant cases == CasesOf(blocks, build)
        invariant generatesBaseResidueType
                  == (old(generatesBaseResidueType) || AnyGeneratesBase(cases))
      {
        assert lines[..i + 1][..i] == lines[..i];
        assert CasesRun(CasesStart, lines[..i + 1]) == CasesStep(CasesReader(inCase, caseLines, blocks), lines[i]);
        var tag := Tag(lines[i]);
        if tag == "BEGIN_CASE" {
          inCase := true;
        } else if tag == "END_CASE" {
          var c := CaseFromLines(caseLines, build);
          AnyGeneratesBaseAppend(cases, c);
          AddCase(c);
          assert (blocks + [caseLines])[..|blocks|] == blocks;
          blocks := blocks + [caseLines];
          caseLines := [];
          inCase := false;
        } else if inCase {
          caseLines := caseLines + [lines[i]];
        }
        i := i + 1;
      }
      assert lines[..i] == lines;
    }

    /**
     * Patch::apply, given whether the patch as a whole applies: the first
     * case that succeeds gives the residue type, renamed by patched_name
     * unless the patch replaces the residue type.
     */
    method Apply(patchApplies: bool, judge: Judge) returns (r: Applied)
      ensures !patchApplies ==> r == NotPatched
      ensures patchApplies ==> r == Renamed(FirstSuccess(cases, judge), name, generatesBaseResidueType, replacesResidueType)
    {
      if !patchApplies {
        return NotPatched;
      }
      var i := 0;
      while i < |cases|
        invariant 0 <= i <= |cases|
        invariant FirstSuccess(cases, judge) == FirstSuccess(cases[i..], judge)
      {
        var c := cases[i];
        assert cases[i..][1..] == cases[i + 1..];
        if judge.applies(c) {
          var attempt := judge.attempt(c);
          if attempt.RosettaError? || attempt.NoResult? {
          } else if attempt.OtherError? {
            return Rethrown;
          } else if judge.validates(attempt.rsd) {
            var patched := attempt.rsd;
            if !replacesResidueType {
              patched := patched.(name := PatchedName(name, generatesBaseResidueType, patched));
            }
            return Patched(patched);
          }
        }
        i := i + 1;
      }
      return NotPatched;
    }
  }

  /** The result of a successful case, renamed unless the patch replaces the residue type. */
  function Renamed(a: Applied, patch: string, generatesBase: bool, replacesType: bool): Applied {
    if a.Patched? && !replacesType then Patched(a.rsd.(name := PatchedName(patch, generatesBase, a.rsd))) else a
  }
}
