/**
 * The text format of an amino-acid composition (`.comp`) file, as
 * AACompositionEnergySetup reads it: PENALTY_DEFINITION ...
 * END_PENALTY_DEFINITION blocks, and inside each block keyword lines (TYPE,
 * PROPERTIES, NOT_PROPERTIES, DELTA_START, DELTA_END, PENALTIES, FRACTION,
 * ABSOLUTE) that together define one penalty function.
 *
 * Everything here is pure: the stateful reader that stores the definitions
 * is in module AACompositionSetup.
 */
module AACompositionDefinitions {
  import opened Outcomes
  import opened Text
  import opened Sequences

  /** The keywords a penalty definition block recognises; any other first word, "" included, is Other. */
  datatype Keyword = Type | Properties | NotProperties | DeltaStart | DeltaEnd | Penalties | Fraction | Absolute | Other

  function KeywordOf(w: string): Keyword {
    if w == "TYPE" then Type
    else if w == "PROPERTIES" then Properties
    else if w == "NOT_PROPERTIES" then NotProperties
    else if w == "DELTA_START" then DeltaStart
    else if w == "DELTA_END" then DeltaEnd
    else if w == "PENALTIES" then Penalties
    else if w == "FRACTION" then Fraction
    else if w == "ABSOLUTE" then Absolute
    else Other
  }

  /** The keyword a line of a block starts with. */
  function LineKeyword(line: string): Keyword {
    KeywordOf(FirstWord(line))
  }

  /** The items of a list of property names that are not "", in order. */
  function NonEmpty(names: seq<string>): (r: seq<string>)
    ensures forall k :: 0 <= k < |r| ==> r[k] != "" && r[k] in names
    ensures forall k :: 0 <= k < |names| && names[k] != "" ==> names[k] in r
  {
    if names == [] then []
    else
      var rest := NonEmpty(names[..|names| - 1]);
      var last := names[|names| - 1];
      assert forall k :: 0 <= k < |names| - 1 ==> names[..|names| - 1][k] == names[k];
      if last == "" then rest else rest + [last]
  }

  /** The deviation range [first, second] a penalty function covers. */
  datatype Range = Range(first: int, second: int)

  /**
   * One penalty definition once read: a residue type code or a pair of
   * property lists, the deviation range, one penalty per deviation, and
   * the expected count as a fraction (absolute == -1) or as an absolute
   * number (fraction == 0.0).
   */
  datatype Definition = Definition(
    typeCode: Option<string>,
    properties: seq<string>,
    notProperties: seq<string>,
    range: Range,
    penalties: seq<real>,
    fraction: real,
    absolute: int)

  /**
   * What the keyword lines of a block have set so far. A field is None
   * until its keyword's line is found: it plays the part of the source's
   * `...found` flag and of the value that line set.
   */
  datatype Scan = Scan(
    typeCode: Option<string>,
    properties: Option<seq<string>>,
    notProperties: Option<seq<string>>,
    deltaStart: Option<int>,
    deltaEnd: Option<int>,
    penalties: Option<seq<real>>,
    fraction: Option<real>,
    absolute: Option<int>)

  const NoneFound := Scan(None, None, None, None, None, None, None, None)

  /** Whether the line of keyword `kw` has been found. */
  predicate Found(s: Scan, kw: Keyword) {
    match kw
    case Type => s.typeCode.Some?
    case Properties => s.properties.Some?
    case NotProperties => s.notProperties.Some?
    case DeltaStart => s.deltaStart.Some?
    case DeltaEnd => s.deltaEnd.Some?
    case Penalties => s.penalties.Some?
    case Fraction => s.fraction.Some?
    case Absolute => s.absolute.Some?
    case Other => false
  }

  /**
   * One line of a block, with the checks in the source's order: a blank
   * line or an unknown keyword leaves the scan as it was; a keyword line
   * fails when it conflicts with a line already found (TYPE against
   * PROPERTIES or NOT_PROPERTIES, FRACTION against ABSOLUTE), then when its
   * own keyword was already found, then when its values cannot be read.
   */
  function Step(s: Scan, line: string): Result<Scan> {
    var kw := LineKeyword(line);
    if kw == Other then Ok(s)
    else if Conflicts(s, kw) then Err("conflicting keyword lines")
    else if Found(s, kw) then Err("keyword line found twice")
    else if !ArgsValid(line) then Err("could not parse keyword line")
    else Ok(Record(s, line))
  }

  /** TYPE excludes PROPERTIES and NOT_PROPERTIES, FRACTION excludes ABSOLUTE, both ways round. */
  predicate Conflicts(s: Scan, kw: Keyword) {
    match kw
    case Type => Found(s, Properties) || Found(s, NotProperties)
    case Properties => Found(s, Type)
    case NotProperties => Found(s, Type)
    case Fraction => Found(s, Absolute)
    case Absolute => Found(s, Fraction)
    case _ => false
  }

  /**
   * Whether `>>` can read what a keyword line needs: a residue type code of
   * at most three characters after TYPE; a number after DELTA_START,
   * DELTA_END, and a non-negative one after FRACTION and ABSOLUTE; for
   * PROPERTIES and NOT_PROPERTIES, which read words until the end of the
   * line, no trailing white space; for PENALTIES, doubles read one after the
   * other until the end of the line. Lines of any other keyword qualify.
   */
  predicate ArgsValid(line: string) {
    var ws := Words(line);
    ws == [] ||
    var args := ws[1..];
    match KeywordOf(ws[0])
    case Type => |args| > 0 && |args[0]| <= 3
    case Properties => EndsInWord(line)
    case NotProperties => EndsInWord(line)
    case DeltaStart => |args| > 0 && ReadLong(args[0]).Some?
    case DeltaEnd => |args| > 0 && ReadLong(args[0]).Some?
    case Penalties => RealsToEnd(line, KeywordEnd(line)).Some?
    case Fraction => |args| > 0 && ReadRealPrefix(args[0]).Some? && ReadRealPrefix(args[0]).value.0 >= 0.0
    case Absolute => |args| > 0 && ReadLong(args[0]).Some? && ReadLong(args[0]).value >= 0
    case Other => true
  }

  /** The scan once a readable keyword line has set its value. */
  function Record(s: Scan, line: string): (r: Scan)
    requires ArgsValid(line)
    ensures LineKeyword(line) == Type ==> |Words(line)| > 1 && r.typeCode == Some(Words(line)[1])
    ensures LineKeyword(line) != Type ==> r.typeCode == s.typeCode
  {
    var ws := Words(line);
    if ws == [] then s
    else
      var args := ws[1..];
      match KeywordOf(ws[0])
      case Type => s.(typeCode := Some(args[0]))
      case Properties => s.(properties := Some(args))
      case NotProperties => s.(notProperties := Some(args))
      case DeltaStart => s.(deltaStart := ReadLong(args[0]))
      case DeltaEnd => s.(deltaEnd := ReadLong(args[0]))
      case Penalties => s.(penalties := RealsToEnd(line, KeywordEnd(line)))
      case Fraction => s.(fraction := Some(ReadRealPrefix(args[0]).value.0))
      case Absolute => s.(absolute := ReadLong(args[0]))
      case Other => s
  }

  /** A readable keyword line marks its own keyword as found and leaves every other keyword as it was. */
  lemma RecordFound(s: Scan, line: string, kw: Keyword)
    requires ArgsValid(line) && kw != Other
    ensures Found(Record(s, line), kw) <==> Found(s, kw) || LineKeyword(line) == kw
  {
  }

  /** The scan after the lines of a block, in order, or the first failure. */
  function ScanAll(lines: seq<string>): Result<Scan> {
    if lines == [] then Ok(NoneFound)
    else
      match ScanAll(lines[..|lines| - 1])
      case Err(e) => Err(e)
      case Ok(s) => Step(s, lines[|lines| - 1])
  }

  /**
   * The checks after the last line of a block, and the definition it
   * stores. A property block also fails when a property is named twice in
   * one list, as adding it twice to its properties set does.
   */
  function Finish(s: Scan): Result<Definition> {
    if !FinalAssertsHold(s) then Err("a required keyword line is missing, or FRACTION and ABSOLUTE are both or neither there")
    else
      var props := if s.properties.Some? then s.properties.value else [];
      var notProps := if s.notProperties.Some? then s.notProperties.value else [];
      if s.typeCode.None? && !(NoRepeats(NonEmpty(props)) && NoRepeats(NonEmpty(notProps))) then
        Err("property added twice")
      else
        Ok(Definition(s.typeCode, props, notProps, Range(s.deltaStart.value, s.deltaEnd.value),
                      s.penalties.value,
                      if s.fraction.Some? then s.fraction.value else 0.0,
                      if s.absolute.Some? then s.absolute.value else -1))
  }

  /**
   * The asserts after the loop over a block: a TYPE, PROPERTIES or
   * NOT_PROPERTIES line, both DELTA lines, a PENALTIES line, and exactly one
   * of FRACTION and ABSOLUTE.
   */
  predicate FinalAssertsHold(s: Scan) {
    && (s.typeCode.Some? || s.properties.Some? || s.notProperties.Some?)
    && s.deltaStart.Some? && s.deltaEnd.Some?
    && s.penalties.Some?
    && s.fraction.Some? != s.absolute.Some?
  }

  /**
   * The scan as it stands when the loop over a block stops: after the last
   * line, or just before the first line that fails.
   */
  function ScanReached(lines: seq<string>): (s: Scan)
    ensures ScanAll(lines).Ok? ==> s == ScanAll(lines).value
  {
    if lines == [] then NoneFound
    else
      var init := lines[..|lines| - 1];
      match ScanAll(init)
      case Err(_) => ScanReached(init)
      case Ok(s) =>
        match Step(s, lines[|lines| - 1])
        case Ok(next) => next
        case Err(_) => s
  }

  /** The definition the lines strictly inside one block give, or the failure. */
  function ParseDefinition(lines: seq<string>): Result<Definition> {
    match ScanAll(lines)
    case Err(e) => Err(e)
    case Ok(s) => Finish(s)
  }

  /*
   * What ParseDefinition accepts, stated without the order of the lines.
   */

  /** How many lines of `lines` start with the keyword `kw`. */
  function CountFirst(lines: seq<string>, kw: Keyword): nat {
    if lines == [] then 0
    else CountFirst(lines[..|lines| - 1], kw) + (if LineKeyword(lines[|lines| - 1]) == kw then 1 else 0)
  }

  /**
   * The conditions the keyword lines of a block must meet: each keyword at
   * most once, no TYPE beside PROPERTIES or NOT_PROPERTIES, no FRACTION
   * beside ABSOLUTE, and every keyword line readable.
   */
  predicate ScanConditions(lines: seq<string>) {
    && CountFirst(lines, Type) <= 1 && CountFirst(lines, Properties) <= 1 && CountFirst(lines, NotProperties) <= 1
    && CountFirst(lines, DeltaStart) <= 1 && CountFirst(lines, DeltaEnd) <= 1 && CountFirst(lines, Penalties) <= 1
    && CountFirst(lines, Fraction) <= 1 && CountFirst(lines, Absolute) <= 1
    && !(CountFirst(lines, Type) > 0 && CountFirst(lines, Properties) + CountFirst(lines, NotProperties) > 0)
    && !(CountFirst(lines, Fraction) > 0 && CountFirst(lines, Absolute) > 0)
    && (forall i | 0 <= i < |lines| :: ArgsValid(lines[i]))
  }

  /** One line succeeds exactly when it is readable, conflicts with nothing found and repeats no keyword. */
  lemma StepOk(s: Scan, x: string)
    ensures Step(s, x).Ok? <==> ArgsValid(x) && (LineKeyword(x) != Other ==> !Conflicts(s, LineKeyword(x)) && !Found(s, LineKeyword(x)))
    ensures Step(s, x).Ok? ==> forall kw: Keyword | kw != Other ::
      Found(Step(s, x).value, kw) <==> Found(s, kw) || LineKeyword(x) == kw
  {
    if LineKeyword(x) == Other {
      var ws := Words(x);
      assert ws != [] ==> KeywordOf(ws[0]) == Other;
    } else if Step(s, x).Ok? {
      forall kw: Keyword | kw != Other
        ensures Found(Step(s, x).value, kw) <==> Found(s, kw) || LineKeyword(x) == kw
      {
        RecordFound(s, x, kw);
      }
    }
  }

  /** The scan has found exactly the keywords whose lines are present. */
  lemma {:induction false} ScanAllFound(lines: seq<string>)
    ensures ScanAll(lines).Ok? ==> forall kw: Keyword | kw != Other :: Found(ScanAll(lines).value, kw) <==> CountFirst(lines, kw) > 0
  {
    if lines != [] {
      var p, x := lines[..|lines| - 1], lines[|lines| - 1];
      ScanAllFound(p);
      if ScanAll(p).Ok? {
        StepOk(ScanAll(p).value, x);
      }
    }
  }

  /** Whether keyword `kw` conflicts with a line of `p`. */
  predicate ConflictsWith(p: seq<string>, kw: Keyword) {
    match kw
    case Type => CountFirst(p, Properties) + CountFirst(p, NotProperties) > 0
    case Properties => CountFirst(p, Type) > 0
    case NotProperties => CountFirst(p, Type) > 0
    case Fraction => CountFirst(p, Absolute) > 0
    case Absolute => CountFirst(p, Fraction) > 0
    case _ => false
  }

  /** ScanConditions holds after one more line exactly when it held before and the line fits the lines before it. */
  lemma ConditionsStep(p: seq<string>, x: string)
    ensures ScanConditions(p + [x]) <==>
      && ScanConditions(p) && ArgsValid(x)
      && (LineKeyword(x) != Other ==> !ConflictsWith(p, LineKeyword(x)) && CountFirst(p, LineKeyword(x)) == 0)
  {
    var lines := p + [x];
    assert lines[..|lines| - 1] == p;
    assert forall i | 0 <= i < |p| :: lines[i] == p[i];
    assert lines[|p|] == x;
  }

  /** The scan succeeds exactly under ScanConditions. */
  lemma {:induction false} ScanAllOk(lines: seq<string>)
    ensures ScanAll(lines).Ok? <==> ScanConditions(lines)
  {
    if lines != [] {
      var p, x := lines[..|lines| - 1], lines[|lines| - 1];
      ScanAllOk(p);
      ConditionsStep(p, x);
      assert p + [x] == lines;
      if ScanAll(p).Ok? {
        StepAfterOk(p, x);
      }
    }
  }

  /** After lines that scan, one more line succeeds exactly when it fits those lines. */
  lemma StepAfterOk(p: seq<string>, x: string)
    requires ScanAll(p).Ok?
    ensures Step(ScanAll(p).value, x).Ok? <==>
      && ArgsValid(x)
      && (LineKeyword(x) != Other ==> !ConflictsWith(p, LineKeyword(x)) && CountFirst(p, LineKeyword(x)) == 0)
  {
    var s := ScanAll(p).value;
    ScanAllFound(p);
    StepOk(s, x);
    var kw := LineKeyword(x);
    if kw != Other {
      assert Found(s, kw) <==> CountFirst(p, kw) > 0;
      assert Conflicts(s, kw) <==> ConflictsWith(p, kw) by {
        assert Found(s, Type) <==> CountFirst(p, Type) > 0;
        assert Found(s, Properties) <==> CountFirst(p, Properties) > 0;
        assert Found(s, NotProperties) <==> CountFirst(p, NotProperties) > 0;
        assert Found(s, Fraction) <==> CountFirst(p, Fraction) > 0;
        assert Found(s, Absolute) <==> CountFirst(p, Absolute) > 0;
      }
    }
  }

  /** The lines a definition needs: in particular every accepted block has exactly one of FRACTION and ABSOLUTE. */
  lemma DefinitionRequires(lines: seq<string>)
    ensures ParseDefinition(lines).Ok? ==>
      && ScanConditions(lines)
      && CountFirst(lines, DeltaStart) == 1 && CountFirst(lines, DeltaEnd) == 1
      && CountFirst(lines, Penalties) == 1
      && CountFirst(lines, Fraction) + CountFirst(lines, Absolute) == 1
      && CountFirst(lines, Type) + CountFirst(lines, Properties) + CountFirst(lines, NotProperties) >= 1
  {
    ScanAllOk(lines);
    ScanAllFound(lines);
    if ParseDefinition(lines).Ok? {
      var s := ScanAll(lines).value;
      assert Found(s, DeltaStart) && Found(s, DeltaEnd) && Found(s, Penalties);
      assert Found(s, Fraction) || Found(s, Absolute);
    }
  }

  /** Conversely, a TYPE block that meets the conditions and has all its lines is accepted. */
  lemma TypeDefinitionAccepted(lines: seq<string>)
    requires ScanConditions(lines)
    requires CountFirst(lines, Type) == 1
    requires CountFirst(lines, DeltaStart) == 1 && CountFirst(lines, DeltaEnd) == 1
    requires CountFirst(lines, Penalties) == 1
    requires CountFirst(lines, Fraction) + CountFirst(lines, Absolute) == 1
    ensures ParseDefinition(lines).Ok? && ParseDefinition(lines).value.typeCode.Some?
  {
    ScanAllOk(lines);
    ScanAllFound(lines);
    var s := ScanAll(lines).value;
    assert Found(s, Type) && Found(s, DeltaStart) && Found(s, DeltaEnd) && Found(s, Penalties);
    assert Found(s, Fraction) <==> !Found(s, Absolute);
    assert FinalAssertsHold(s) && ParseDefinition(lines) == Finish(s);
  }

  /**
   * What an accepted block stores: a type code of one to three characters,
   * and either a non-negative fraction with absolute == -1 (a FRACTION
   * line) or a non-negative absolute count with fraction == 0.0 (an
   * ABSOLUTE line).
   */
  lemma DefinitionValues(lines: seq<string>)
    requires ParseDefinition(lines).Ok?
    ensures var d := ParseDefinition(lines).value;
      && (d.typeCode.Some? ==> 1 <= |d.typeCode.value| <= 3 && CountFirst(lines, Type) == 1)
      && (d.typeCode.None? ==> NoRepeats(NonEmpty(d.properties)) && NoRepeats(NonEmpty(d.notProperties)))
      && (CountFirst(lines, Fraction) == 1 ==> d.absolute == -1 && d.fraction >= 0.0)
      && (CountFirst(lines, Absolute) == 1 ==> d.absolute >= 0 && d.fraction == 0.0)
  {
    ScanAllOk(lines);
    ScanAllFound(lines);
    ScanAllValues(lines);
    var s := ScanAll(lines).value;
    assert ParseDefinition(lines) == Finish(s);
    assert Found(s, Type) <==> CountFirst(lines, Type) > 0;
    assert Found(s, Fraction) <==> CountFirst(lines, Fraction) > 0;
    assert Found(s, Absolute) <==> CountFirst(lines, Absolute) > 0;
  }

  /**
   * A TYPE line that reads keeps its code in the scan until the loop over
   * the block stops, whatever fails after it: a second TYPE line fails as a
   * repeat before it could change the code.
   */
  lemma {:induction false} ReachedTypeCode(lines: seq<string>, i: nat)
    requires i < |lines| && ScanAll(lines[..i + 1]).Ok? && LineKeyword(lines[i]) == Type
    ensures |Words(lines[i])| > 1 && ScanReached(lines).typeCode == Some(Words(lines[i])[1])
    decreases |lines|
  {
    var init := lines[..|lines| - 1];
    if |lines| == i + 1 {
      assert lines[..i + 1] == lines;
      assert init == lines[..i];
    } else {
      assert init[..i + 1] == lines[..i + 1];
      ReachedTypeCode(init, i);
      match ScanAll(init)
      case Err(_) =>
      case Ok(s) =>
        StepOk(s, lines[|lines| - 1]);
    }
  }

  /** The values a scan holds: a type code of one to three characters, no negative fraction or absolute count. */
  predicate ScanValues(s: Scan) {
    && (s.typeCode.Some? ==> 1 <= |s.typeCode.value| <= 3)
    && (s.fraction.Some? ==> s.fraction.value >= 0.0)
    && (s.absolute.Some? ==> s.absolute.value >= 0)
  }

  lemma StepValues(s: Scan, x: string)
    requires ScanValues(s) && Step(s, x).Ok?
    ensures ScanValues(Step(s, x).value)
  {
    var ws := Words(x);
    if ws != [] && KeywordOf(ws[0]) == Type {
      assert IsWord(ws[1..][0]);
    }
  }

  lemma {:induction false} ScanAllValues(lines: seq<string>)
    ensures ScanAll(lines).Ok? ==> ScanValues(ScanAll(lines).value)
  {
    if lines != [] {
      var p := lines[..|lines| - 1];
      ScanAllValues(p);
      if ScanAll(p).Ok? && ScanAll(lines).Ok? {
        StepValues(ScanAll(p).value, lines[|lines| - 1]);
      }
    }
  }

  /** A blank line, or one whose first word is no keyword, can be dropped from a block anywhere without effect. */
  lemma {:induction false} IgnoredLine(a: seq<string>, x: string, b: seq<string>)
    requires LineKeyword(x) == Other
    ensures ParseDefinition(a + [x] + b) == ParseDefinition(a + b)
  {
    ScanIgnores(a, x, b);
  }

  lemma {:induction false} ScanIgnores(a: seq<string>, x: string, b: seq<string>)
    requires LineKeyword(x) == Other
    ensures ScanAll(a + [x] + b) == ScanAll(a + b)
    decreases |b|
  {
    if b == [] {
      ScanAllSnoc(a, x);
      assert a + [x] + b == a + [x];
      assert a + b == a;
    } else {
      var b', y := b[..|b| - 1], b[|b| - 1];
      ScanIgnores(a, x, b');
      ScanIgnoresStep(a, x, b', y);
      InitAndLast(b);
    }
  }

  /** Lines that scan alike with and without `x` still do after one more line. */
  lemma ScanIgnoresStep(a: seq<string>, x: string, b: seq<string>, y: string)
    requires ScanAll(a + [x] + b) == ScanAll(a + b)
    ensures ScanAll(a + [x] + (b + [y])) == ScanAll(a + (b + [y]))
  {
    ConcatAssoc(a + [x], b, [y]);
    ConcatAssoc(a, b, [y]);
    ScanAllAlike(a + [x] + b, a + b, y);
  }

  /** Lines that scan alike still do after the same line. */
  lemma ScanAllAlike(p: seq<string>, q: seq<string>, y: string)
    requires ScanAll(p) == ScanAll(q)
    ensures ScanAll(p + [y]) == ScanAll(q + [y])
  {
    ScanAllSnoc(p, y);
    ScanAllSnoc(q, y);
  }

  /** The scan after one more line. */
  lemma ScanAllSnoc(p: seq<string>, y: string)
    ensures ScanAll(p + [y]) == match ScanAll(p) case Err(e) => Err(e) case Ok(s) => Step(s, y)
  {
    assert (p + [y])[..|p|] == p;
  }

  /*
   * Splitting the lines of a file into blocks.
   */

  /** The block reader's state: inside a block or not, the lines of the block so far, the blocks completed. */
  datatype Splitter = Splitter(inBlock: bool, current: seq<string>, blocks: seq<seq<string>>)

  const Outside := Splitter(false, [], [])

  /**
   * One line of the file: outside a block only PENALTY_DEFINITION matters
   * (it opens a block); inside, PENALTY_DEFINITION is an error,
   * END_PENALTY_DEFINITION closes the block and any other line, blank ones
   * included, joins it.
   */
  function SplitStep(s: Splitter, line: string): Result<Splitter> {
    var w := FirstWord(line);
    if !s.inBlock then
      if w == "PENALTY_DEFINITION" then Ok(Splitter(true, [], s.blocks)) else Ok(s)
    else if w == "PENALTY_DEFINITION" then Err("PENALTY_DEFINITION inside a block")
    else if w == "END_PENALTY_DEFINITION" then Ok(Splitter(false, s.current, s.blocks + [s.current]))
    else Ok(s.(current := s.current + [line]))
  }

  /** The reader's state after `lines`, starting from `s`, or the first failure. */
  function SplitRun(s: Splitter, lines: seq<string>): Result<Splitter> {
    if lines == [] then Ok(s)
    else
      match SplitRun(s, lines[..|lines| - 1])
      case Err(e) => Err(e)
      case Ok(t) => SplitStep(t, lines[|lines| - 1])
  }

  /**
   * The blocks of a file, in order, each as the lines strictly between its
   * PENALTY_DEFINITION and END_PENALTY_DEFINITION lines. A file without
   * lines is an error; a block still open at the end is dropped.
   */
  function Blocks(lines: seq<string>): Result<seq<seq<string>>> {
    if |lines| == 0 then Err("no lines were read")
    else
      match SplitRun(Outside, lines)
      case Err(e) => Err(e)
      case Ok(s) => Ok(s.blocks)
  }

  /** Every definition of a file, in order, or a failure. */
  function Definitions(lines: seq<string>): Result<seq<Definition>> {
    match Blocks(lines)
    case Err(e) => Err(e)
    case Ok(bs) => ParseAll(bs)
  }

  function ParseAll(blocks: seq<seq<string>>): (r: Result<seq<Definition>>)
    ensures r.Ok? ==> |r.value| == |blocks|
  {
    if blocks == [] then Ok([])
    else
      match ParseAll(blocks[..|blocks| - 1])
      case Err(e) => Err(e)
      case Ok(ds) =>
        match ParseDefinition(blocks[|blocks| - 1])
        case Err(e) => Err(e)
        case Ok(d) => Ok(ds + [d])
  }

  /** A line that neither opens nor closes a block. */
  predicate Plain(line: string) {
    FirstWord(line) != "PENALTY_DEFINITION" && FirstWord(line) != "END_PENALTY_DEFINITION"
  }

  /** Running the reader over `a + b` runs it over `a`, then over `b`. */
  lemma {:induction false} SplitRunAppend(s: Splitter, a: seq<string>, b: seq<string>)
    ensures SplitRun(s, a + b) == (match SplitRun(s, a) case Err(e) => Err(e) case Ok(t) => SplitRun(t, b))
    decreases |b|
  {
    if b == [] {
      assert a + b == a;
    } else {
      SplitRunAppend(s, a, b[..|b| - 1]);
      assert (a + b)[..|a + b| - 1] == a + b[..|b| - 1];
    }
  }

  /** Inside a block, plain lines are appended to the block, in order. */
  lemma {:induction false} SplitRunInside(current: seq<string>, blocks: seq<seq<string>>, b: seq<string>)
    requires forall k :: 0 <= k < |b| ==> Plain(b[k])
    ensures SplitRun(Splitter(true, current, blocks), b) == Ok(Splitter(true, current + b, blocks))
    decreases |b|
  {
    if b == [] {
      assert current + b == current;
    } else {
      var init, last := b[..|b| - 1], b[|b| - 1];
      assert forall k :: 0 <= k < |init| ==> init[k] == b[k];
      SplitRunInside(current, blocks, init);
      assert Plain(last);
      assert b == init + [last];
      assert current + init + [last] == current + b;
    }
  }

  /** The lines of every block completed, and of the block still open, are plain. */
  predicate AllPlain(s: Splitter) {
    && (forall k, j :: 0 <= k < |s.blocks| && 0 <= j < |s.blocks[k]| ==> Plain(s.blocks[k][j]))
    && (forall j :: 0 <= j < |s.current| ==> Plain(s.current[j]))
  }

  /** The reader only ever keeps plain lines. */
  lemma {:induction false} BlocksArePlain(s: Splitter, lines: seq<string>)
    requires AllPlain(s)
    ensures SplitRun(s, lines).Ok? ==> AllPlain(SplitRun(s, lines).value)
  {
    if lines != [] {
      BlocksArePlain(s, lines[..|lines| - 1]);
      var r := SplitRun(s, lines[..|lines| - 1]);
      if r.Ok? {
        var t, x := r.value, lines[|lines| - 1];
        if SplitStep(t, x).Ok? {
          var u := SplitStep(t, x).value;
          if t.inBlock && FirstWord(x) == "END_PENALTY_DEFINITION" {
            assert u.blocks == t.blocks + [t.current];
            forall k, j | 0 <= k < |u.blocks| && 0 <= j < |u.blocks[k]|
              ensures Plain(u.blocks[k][j])
            {
              if k < |t.blocks| {
                assert u.blocks[k] == t.blocks[k];
              }
            }
          }
        }
      }
    }
  }

  /** The lines of a file made of the given blocks, each between its two marker lines. */
  function Render(blocks: seq<seq<string>>): seq<string> {
    if blocks == [] then []
    else Render(blocks[..|blocks| - 1]) + Wrap(blocks[|blocks| - 1])
  }

  /** One block between its two marker lines. */
  function Wrap(block: seq<string>): seq<string> {
    ["PENALTY_DEFINITION"] + block + ["END_PENALTY_DEFINITION"]
  }

  /** Reading back the file Render writes gives the same blocks: the two are inverse on plain blocks. */
  lemma {:induction false} BlocksOfRender(blocks: seq<seq<string>>)
    requires blocks != []
    requires forall k, j :: 0 <= k < |blocks| && 0 <= j < |blocks[k]| ==> Plain(blocks[k][j])
    ensures Blocks(Render(blocks)) == Ok(blocks)
  {
    RenderRun(blocks);
  }

  lemma {:induction false} RenderRun(blocks: seq<seq<string>>)
    requires forall k, j :: 0 <= k < |blocks| && 0 <= j < |blocks[k]| ==> Plain(blocks[k][j])
    ensures SplitRun(Outside, Render(blocks)).Ok?
    ensures !SplitRun(Outside, Render(blocks)).value.inBlock
    ensures SplitRun(Outside, Render(blocks)).value.blocks == blocks
    ensures blocks != [] ==> |Render(blocks)| > 0
  {
    if blocks != [] {
      var init, last := blocks[..|blocks| - 1], blocks[|blocks| - 1];
      assert forall k :: 0 <= k < |init| ==> init[k] == blocks[k];
      RenderRun(init);
      var t := SplitRun(Outside, Render(init)).value;
      assert Render(blocks) == Render(init) + Wrap(last);
      assert SplitRun(Outside, Render(blocks)) == Ok(Splitter(false, last, blocks)) by {
        SplitRunAppend(Outside, Render(init), Wrap(last));
        WrapRun(t, last);
        InitAndLast(blocks);
      }
    }
  }

  /** One block between its markers, read from outside any block, is completed as it stands. */
  lemma WrapRun(t: Splitter, block: seq<string>)
    requires !t.inBlock
    requires forall j :: 0 <= j < |block| ==> Plain(block[j])
    ensures SplitRun(t, Wrap(block)) == Ok(Splitter(false, block, t.blocks + [block]))
  {
    var open, close := ["PENALTY_DEFINITION"], ["END_PENALTY_DEFINITION"];
    OpenRun(t);
    SplitRunAppend(t, open, block);
    SplitRunInside([], t.blocks, block);
    assert [] + block == block;
    SplitRunAppend(t, open + block, close);
    CloseRun(block, t.blocks);
  }

  /** An END_PENALTY_DEFINITION line read inside a block completes it. */
  lemma CloseRun(current: seq<string>, blocks: seq<seq<string>>)
    ensures SplitRun(Splitter(true, current, blocks), ["END_PENALTY_DEFINITION"])
         == Ok(Splitter(false, current, blocks + [current]))
  {
    var close := ["END_PENALTY_DEFINITION"];
    assert close[..0] == [];
    FirstWordOf("", "END_PENALTY_DEFINITION", "");
    assert "" + "END_PENALTY_DEFINITION" + "" == "END_PENALTY_DEFINITION";
  }

  /** A PENALTY_DEFINITION line read outside any block opens an empty one. */
  lemma OpenRun(t: Splitter)
    requires !t.inBlock
    ensures SplitRun(t, ["PENALTY_DEFINITION"]) == Ok(Splitter(true, [], t.blocks))
  {
    var open := ["PENALTY_DEFINITION"];
    assert open[..0] == [];
    FirstWordOf("", "PENALTY_DEFINITION", "");
    assert "" + "PENALTY_DEFINITION" + "" == "PENALTY_DEFINITION";
  }

  /** A block that is never closed contributes nothing. */
  lemma UnterminatedBlockDropped(lines: seq<string>, rest: seq<string>)
    requires |lines| > 0 && SplitRun(Outside, lines).Ok? && !SplitRun(Outside, lines).value.inBlock
    requires forall k :: 0 <= k < |rest| ==> Plain(rest[k])
    ensures Blocks(lines + ["PENALTY_DEFINITION"] + rest) == Blocks(lines)
  {
    var t := SplitRun(Outside, lines).value;
    var open := ["PENALTY_DEFINITION"];
    SplitRunAppend(Outside, lines + open, rest);
    SplitRunAppend(Outside, lines, open);
    OpenRun(t);
    SplitRunInside([], t.blocks, rest);
  }

  /** A PENALTY_DEFINITION line inside an open block makes the whole file fail. */
  lemma NestedBlockRejected(lines: seq<string>, inner: seq<string>, rest: seq<string>)
    requires SplitRun(Outside, lines).Ok? && !SplitRun(Outside, lines).value.inBlock
    requires forall k :: 0 <= k < |inner| ==> Plain(inner[k])
    ensures Blocks(lines + ["PENALTY_DEFINITION"] + inner + ["PENALTY_DEFINITION"] + rest).Err?
  {
    var t := SplitRun(Outside, lines).value;
    var open := ["PENALTY_DEFINITION"];
    SplitRunAppend(Outside, lines + open + inner + open, rest);
    SplitRunAppend(Outside, lines + open + inner, open);
    SplitRunAppend(Outside, lines + open, inner);
    SplitRunAppend(Outside, lines, open);
    OpenRun(t);
    SplitRunInside([], t.blocks, inner);
    NestedOpenRun([] + inner, t.blocks);
  }

  /** A PENALTY_DEFINITION line read inside a block is an error. */
  lemma NestedOpenRun(current: seq<string>, blocks: seq<seq<string>>)
    ensures SplitRun(Splitter(true, current, blocks), ["PENALTY_DEFINITION"]).Err?
  {
    var open := ["PENALTY_DEFINITION"];
    assert open[..0] == [];
    FirstWordOf("", "PENALTY_DEFINITION", "");
    assert "" + "PENALTY_DEFINITION" + "" == "PENALTY_DEFINITION";
  }

  /** A failure part-way through the file is the file's failure. */
  lemma SplitErrPersists(lines: seq<string>, i: nat)
    requires i <= |lines| && SplitRun(Outside, lines[..i]).Err?
    ensures SplitRun(Outside, lines).Err?
  {
    SplitRunAppend(Outside, lines[..i], lines[i..]);
    assert lines[..i] + lines[i..] == lines;
  }

  /** The reader only ever adds blocks: those closed so far stay a prefix. */
  lemma {:induction false} SplitRunKeepsBlocks(s: Splitter, lines: seq<string>)
    ensures SplitRun(s, lines).Ok? ==> s.blocks <= SplitRun(s, lines).value.blocks
    decreases |lines|
  {
    if lines != [] {
      SplitRunKeepsBlocks(s, lines[..|lines| - 1]);
    }
  }

  /** A block that fails to parse fails every list of blocks that begins with it. */
  lemma {:induction false} ParseAllErrPersists(a: seq<seq<string>>, bs: seq<seq<string>>)
    requires a <= bs && ParseAll(a).Err?
    ensures ParseAll(bs).Err?
    decreases |bs|
  {
    if |a| == |bs| {
      assert a == bs;
    } else {
      assert a <= bs[..|bs| - 1];
      ParseAllErrPersists(a, bs[..|bs| - 1]);
    }
  }

  /** Once a closed block fails to parse, the whole file fails. */
  lemma BlockErrPersists(lines: seq<string>, i: nat, s: Splitter)
    requires i <= |lines| && SplitRun(Outside, lines[..i]) == Ok(s)
    requires ParseAll(s.blocks).Err?
    ensures Definitions(lines).Err?
  {
    SplitRunAppend(Outside, lines[..i], lines[i..]);
    assert lines[..i] + lines[i..] == lines;
    SplitRunKeepsBlocks(s, lines[i..]);
    if SplitRun(Outside, lines).Ok? {
      ParseAllErrPersists(s.blocks, SplitRun(Outside, lines).value.blocks);
    }
  }
}
