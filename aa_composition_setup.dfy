/**
 * AACompositionEnergySetup: the store of penalty definitions an
 * amino-acid composition energy reads from a `.comp` file, and
 * AACompositionPropertiesSet, the residue properties one definition
 * requires and forbids.
 *
 * Residue properties are kept by name: the translation of a name into a
 * property is not part of this model.
 */
module AACompositionSetup {
  import opened Outcomes
  import opened Text
  import opened AACompositionDefinitions
  import opened Sequences

  /** The two property lists of a properties set, as values. */
  datatype PropertyLists = PropertyLists(included: seq<string>, excluded: seq<string>)

  /** The properties a residue must have (included) and must not have (excluded). */
  class PropertiesSet {
    var included: seq<string>
    var excluded: seq<string>

    constructor ()
      ensures included == [] && excluded == []
    {
      included := [];
      excluded := [];
    }

    /** Builds a set from two lists of names; "" items are skipped and a name may appear once per list. */
    constructor FromLists(includedNames: seq<string>, excludedNames: seq<string>)
      requires NoRepeats(NonEmpty(includedNames)) && NoRepeats(NonEmpty(excludedNames))
      ensures included == NonEmpty(includedNames) && excluded == NonEmpty(excludedNames)
    {
      included := [];
      excluded := [];
      new;
      if includedNames != [] {
        var _ := ParseIncluded(includedNames);
      }
      if excludedNames != [] {
        var _ := ParseExcluded(excludedNames);
      }
    }

    /** Adds a required property; a property already present is an error. */
    method AddIncluded(p: string) returns (ok: bool)
      modifies this`included
      ensures ok <==> p !in old(included)
      ensures included == if ok then old(included) + [p] else old(included)
    {
      if p in included {
        return false;
      }
      included := included + [p];
      return true;
    }

    /** Adds a forbidden property; a property already present is an error. */
    method AddExcluded(p: string) returns (ok: bool)
      modifies this`excluded
      ensures ok <==> p !in old(excluded)
      ensures excluded == if ok then old(excluded) + [p] else old(excluded)
    {
      if p in excluded {
        return false;
      }
      excluded := excluded + [p];
      return true;
    }

    /**
     * Replaces the required properties by the non-empty names of the list;
     * it fails when a name comes twice, and the state it then leaves is
     * not stated.
     */
    method ParseIncluded(names: seq<string>) returns (ok: bool)
      modifies this`included
      ensures ok <==> NoRepeats(NonEmpty(names))
      ensures ok ==> included == NonEmpty(names)
    {
      included := [];
      var i := 0;
      while i < |names|
        invariant 0 <= i <= |names|
        invariant included == NonEmpty(names[..i]) && NoRepeats(included)
      {
        NonEmptyStep(names, i);
        if names[i] != "" {
          ok := AddIncluded(names[i]);
          if !ok {
            var k :| 0 <= k < |included| && included[k] == names[i];
            DuplicateFound(names, i, k);
            return false;
          }
        }
        i := i + 1;
      }
      assert names[..i] == names;
      return true;
    }

    /** The same for the forbidden properties. */
    method ParseExcluded(names: seq<string>) returns (ok: bool)
      modifies this`excluded
      ensures ok <==> NoRepeats(NonEmpty(names))
      ensures ok ==> excluded == NonEmpty(names)
    {
      excluded := [];
      var i := 0;
      while i < |names|
        invariant 0 <= i <= |names|
        invariant excluded == NonEmpty(names[..i]) && NoRepeats(excluded)
      {
        NonEmptyStep(names, i);
        if names[i] != "" {
          ok := AddExcluded(names[i]);
          if !ok {
            var k :| 0 <= k < |excluded| && excluded[k] == names[i];
            DuplicateFound(names, i, k);
            return false;
          }
        }
        i := i + 1;
      }
      assert names[..i] == names;
      return true;
    }

    /** The copy as the source's copy constructor makes it: the forbidden list is taken from the required one. */
    method CloneAsWritten() returns (c: PropertiesSet)
      ensures fresh(c)
      ensures PropertyLists(c.included, c.excluded) == CopiedAsWritten(PropertyLists(included, excluded))
    {
      c := new PropertiesSet();
      c.included := included;
      c.excluded := included;
    }

    /** The copy as intended: both lists are kept. */
    method Clone() returns (c: PropertiesSet)
      ensures fresh(c)
      ensures c.included == included && c.excluded == excluded
    {
      c := new PropertiesSet();
      c.included := included;
      c.excluded := excluded;
    }
  }

  /** What the as-written copy constructor turns a set's lists into. */
  function CopiedAsWritten(p: PropertyLists): (r: PropertyLists)
    ensures r.included == p.included
    ensures r == p <==> p.excluded == p.included
  {
    PropertyLists(p.included, p.included)
  }

  /** A name already kept from the first i names, met again at i, stays a repeat in the whole list. */
  lemma DuplicateFound(names: seq<string>, i: nat, k: nat)
    requires i < |names| && names[i] != ""
    requires k < |NonEmpty(names[..i])| && NonEmpty(names[..i])[k] == names[i]
    ensures !NoRepeats(NonEmpty(names))
  {
    var kept, all := NonEmpty(names[..i]), NonEmpty(names);
    assert kept + [names[i]] <= all by {
      NonEmptyStep(names, i);
      NonEmptyPrefix(names, i + 1);
    }
    RepeatPersists(kept, names[i], all, k);
  }

  /** A value kept earlier and appended again stays a repeat in any extension. */
  lemma RepeatPersists(kept: seq<string>, x: string, all: seq<string>, k: nat)
    requires kept + [x] <= all && k < |kept| && kept[k] == x
    ensures !NoRepeats(all)
  {
    var n := |kept|;
    assert all[k] == (kept + [x])[k] && all[n] == (kept + [x])[n];
  }

  /** Reading one more name appends it unless it is "". */
  lemma NonEmptyStep(names: seq<string>, i: nat)
    requires i < |names|
    ensures NonEmpty(names[..i + 1])
            == if names[i] == "" then NonEmpty(names[..i]) else NonEmpty(names[..i]) + [names[i]]
  {
    assert names[..i + 1][..i] == names[..i];
  }

  /** The names kept from a prefix begin the names kept from the whole list. */
  lemma NonEmptyPrefix(names: seq<string>, i: nat)
    requires i <= |names|
    ensures NonEmpty(names[..i]) <= NonEmpty(names)
  {
    TakeDrop(names, i);
    NonEmptyAppend(names[..i], names[i..]);
    PrefixOfConcat(NonEmpty(names[..i]), NonEmpty(names[i..]));
  }

  lemma {:induction false} NonEmptyAppend(a: seq<string>, b: seq<string>)
    ensures NonEmpty(a + b) == NonEmpty(a) + NonEmpty(b)
    decreases |b|
  {
    if b == [] {
      assert a + b == a;
    } else {
      var b' := b[..|b| - 1];
      NonEmptyAppend(a, b');
      assert (a + b)[..|a + b| - 1] == a + b';
    }
  }

  /*
   * The ten containers as values.
   */

  /**
   * The store's content: the residue-type index map and the four per-type
   * vectors, and the property sets with their four per-set vectors.
   */
  datatype Tables = Tables(
    typeIndex: map<string, nat>,
    typePenalties: seq<seq<real>>,
    typeRanges: seq<Range>,
    typeFraction: seq<real>,
    typeAbsolute: seq<int>,
    propertyLists: seq<PropertyLists>,
    propertiesFraction: seq<real>,
    propertiesAbsolute: seq<int>,
    propertyPenalties: seq<seq<real>>,
    propertyRanges: seq<Range>)

  function EmptyTables(): Tables {
    Tables(map[], [], [], [], [], [], [], [], [], [])
  }

  /**
   * Storing one definition: a TYPE definition maps its code to one more
   * than the number of codes mapped so far and appends to the four type
   * vectors; a property definition appends a new properties set and its
   * four vectors.
   */
  function Append(t: Tables, d: Definition): (r: Tables)
    ensures d.typeCode.Some? ==> |r.typeRanges| == |t.typeRanges| + 1 && r.propertyLists == t.propertyLists
    ensures d.typeCode.None? ==> |r.propertyLists| == |t.propertyLists| + 1 && r.typeIndex == t.typeIndex
  {
    match d.typeCode
    case Some(code) =>
      t.(typeIndex := t.typeIndex[code := |t.typeIndex| + 1],
         typePenalties := t.typePenalties + [d.penalties],
         typeRanges := t.typeRanges + [d.range],
         typeFraction := t.typeFraction + [d.fraction],
         typeAbsolute := t.typeAbsolute + [d.absolute])
    case None =>
      t.(propertyLists := t.propertyLists + [PropertyLists(NonEmpty(d.properties), NonEmpty(d.notProperties))],
         propertiesFraction := t.propertiesFraction + [d.fraction],
         propertiesAbsolute := t.propertiesAbsolute + [d.absolute],
         propertyPenalties := t.propertyPenalties + [d.penalties],
         propertyRanges := t.propertyRanges + [d.range])
  }

  /** Storing definitions one after the other. */
  function AppendAll(t: Tables, ds: seq<Definition>): Tables {
    if ds == [] then t else Append(AppendAll(t, ds[..|ds| - 1]), ds[|ds| - 1])
  }

  /** The tables once the code of a scan's TYPE line, if it has one, is mapped to the next 1-based index. */
  function TypeMapped(t: Tables, s: Scan): Tables {
    if s.typeCode.Some? then t.(typeIndex := t.typeIndex[s.typeCode.value := |t.typeIndex| + 1]) else t
  }

  /**
   * What a failing parse_a_penalty_definition leaves in the containers. A
   * TYPE line's code is mapped as soon as the line is read, so it stays
   * mapped whatever fails after it; a property block whose final asserts
   * hold pushes its deviation range before it builds its properties set, so
   * a property named twice leaves that range behind.
   */
  function AfterFailure(t: Tables, lines: seq<string>): Tables {
    var s := ScanReached(lines);
    var mapped := TypeMapped(t, s);
    if ScanAll(lines).Ok? && FinalAssertsHold(s) && s.typeCode.None? then
      mapped.(propertyRanges := mapped.propertyRanges + [Range(s.deltaStart.value, s.deltaEnd.value)])
    else mapped
  }

  /**
   * A block whose TYPE line reads but which fails later leaves that code
   * mapped to one more than the number of codes mapped before, and changes
   * nothing else.
   */
  lemma FailedTypeBlockKeepsCode(t: Tables, lines: seq<string>, i: nat)
    requires ParseDefinition(lines).Err?
    requires i < |lines| && ScanAll(lines[..i + 1]).Ok? && LineKeyword(lines[i]) == Type
    ensures |Words(lines[i])| > 1
    ensures AfterFailure(t, lines) == t.(typeIndex := t.typeIndex[Words(lines[i])[1] := |t.typeIndex| + 1])
  {
    ReachedTypeCode(lines, i);
  }

  /**
   * A property block that passes the final asserts fails only on a property
   * named twice in one list, and leaves its deviation range pushed and
   * everything else as it was.
   */
  lemma FailedPropertyBlockKeepsRange(t: Tables, lines: seq<string>)
    requires ParseDefinition(lines).Err? && ScanAll(lines).Ok?
    requires FinalAssertsHold(ScanAll(lines).value) && CountFirst(lines, Type) == 0
    ensures var s := ScanAll(lines).value;
      && !(NoRepeats(NonEmpty(if s.properties.Some? then s.properties.value else []))
           && NoRepeats(NonEmpty(if s.notProperties.Some? then s.notProperties.value else [])))
      && AfterFailure(t, lines) == t.(propertyRanges := t.propertyRanges + [Range(s.deltaStart.value, s.deltaEnd.value)])
  {
    ScanAllFound(lines);
    assert !Found(ScanAll(lines).value, Type);
  }

  /** A range whose every deviation has one penalty. */
  predicate RangeCovers(r: Range, penalties: seq<real>) {
    r.first <= r.second && |penalties| == r.second - r.first + 1
  }

  /**
   * What check_data demands: the four type vectors as long as the type
   * index map, the four property vectors as long as the list of sets, and
   * every range covered by its penalties.
   */
  predicate Consistent(t: Tables) {
    var n := |t.typeIndex|;
    var m := |t.propertyLists|;
    && |t.typePenalties| == n && |t.typeRanges| == n && |t.typeFraction| == n && |t.typeAbsolute| == n
    && (forall i | 0 <= i < n :: RangeCovers(t.typeRanges[i], t.typePenalties[i]))
    && |t.propertyPenalties| == m && |t.propertyRanges| == m && |t.propertiesFraction| == m && |t.propertiesAbsolute| == m
    && (forall i | 0 <= i < m :: RangeCovers(t.propertyRanges[i], t.propertyPenalties[i]))
  }

  /** The residue type codes of the TYPE definitions, in order. */
  function TypeCodes(ds: seq<Definition>): seq<string> {
    if ds == [] then []
    else TypeCodes(ds[..|ds| - 1]) + (if ds[|ds| - 1].typeCode.Some? then [ds[|ds| - 1].typeCode.value] else [])
  }

  /** The TYPE definitions, in order. */
  function TypeDefinitions(ds: seq<Definition>): (r: seq<Definition>)
    ensures |r| == |TypeCodes(ds)|
    ensures forall k :: 0 <= k < |r| ==> r[k].typeCode == Some(TypeCodes(ds)[k])
  {
    if ds == [] then []
    else TypeDefinitions(ds[..|ds| - 1]) + (if ds[|ds| - 1].typeCode.Some? then [ds[|ds| - 1]] else [])
  }

  /** The property definitions, in order. */
  function PropertyDefinitions(ds: seq<Definition>): (r: seq<Definition>)
    ensures forall k :: 0 <= k < |r| ==> r[k].typeCode.None?
  {
    if ds == [] then []
    else PropertyDefinitions(ds[..|ds| - 1]) + (if ds[|ds| - 1].typeCode.None? then [ds[|ds| - 1]] else [])
  }

  /** The store a sequence of definitions fills, starting empty. */
  function Loaded(ds: seq<Definition>): Tables {
    AppendAll(EmptyTables(), ds)
  }

  /**
   * What storing definitions into an empty store gives on the type side:
   * the index map's codes are the TYPE definitions' codes, and the k-th
   * entry of each type vector comes from the k-th TYPE definition.
   */
  lemma {:induction false} LoadedTypes(ds: seq<Definition>)
    ensures Loaded(ds).typeIndex.Keys == set c | c in TypeCodes(ds)
    ensures |Loaded(ds).typePenalties| == |TypeDefinitions(ds)| && |Loaded(ds).typeRanges| == |TypeDefinitions(ds)|
    ensures |Loaded(ds).typeFraction| == |TypeDefinitions(ds)| && |Loaded(ds).typeAbsolute| == |TypeDefinitions(ds)|
    ensures forall k | 0 <= k < |TypeDefinitions(ds)| ::
      && Loaded(ds).typeRanges[k] == TypeDefinitions(ds)[k].range
      && Loaded(ds).typePenalties[k] == TypeDefinitions(ds)[k].penalties
      && Loaded(ds).typeFraction[k] == TypeDefinitions(ds)[k].fraction
      && Loaded(ds).typeAbsolute[k] == TypeDefinitions(ds)[k].absolute
  {
    if ds != [] {
      var p, d := ds[..|ds| - 1], ds[|ds| - 1];
      LoadedTypes(p);
      var t0, t := Loaded(p), Loaded(ds);
      assert t == Append(t0, d);
      if d.typeCode.Some? {
        var c := d.typeCode.value;
        assert TypeCodes(ds) == TypeCodes(p) + [c];
        assert TypeDefinitions(ds) == TypeDefinitions(p) + [d];
        assert t.typeIndex.Keys == t0.typeIndex.Keys + {c};
        assert (set x | x in TypeCodes(ds)) == (set x | x in TypeCodes(p)) + {c};
        assert t.typeRanges == t0.typeRanges + [d.range];
      } else {
        assert TypeCodes(ds) == TypeCodes(p);
        assert TypeDefinitions(ds) == TypeDefinitions(p);
      }
    }
  }

  /** The same on the property side: the k-th entry of each property vector comes from the k-th property definition. */
  lemma {:induction false} LoadedProperties(ds: seq<Definition>)
    ensures |Loaded(ds).propertyLists| == |PropertyDefinitions(ds)|
    ensures |Loaded(ds).propertyPenalties| == |PropertyDefinitions(ds)| && |Loaded(ds).propertyRanges| == |PropertyDefinitions(ds)|
    ensures |Loaded(ds).propertiesFraction| == |PropertyDefinitions(ds)| && |Loaded(ds).propertiesAbsolute| == |PropertyDefinitions(ds)|
    ensures forall k | 0 <= k < |PropertyDefinitions(ds)| ::
      && Loaded(ds).propertyRanges[k] == PropertyDefinitions(ds)[k].range
      && Loaded(ds).propertyPenalties[k] == PropertyDefinitions(ds)[k].penalties
      && Loaded(ds).propertyLists[k]
         == PropertyLists(NonEmpty(PropertyDefinitions(ds)[k].properties), NonEmpty(PropertyDefinitions(ds)[k].notProperties))
  {
    if ds != [] {
      var p, d := ds[..|ds| - 1], ds[|ds| - 1];
      LoadedProperties(p);
      assert Loaded(ds) == Append(Loaded(p), d);
      if d.typeCode.None? {
        assert PropertyDefinitions(ds) == PropertyDefinitions(p) + [d];
      } else {
        assert PropertyDefinitions(ds) == PropertyDefinitions(p);
      }
    }
  }

  /** A sequence has as many distinct values as items exactly when no value repeats. */
  lemma {:induction false} DistinctCount<T>(s: seq<T>)
    ensures |set x | x in s| <= |s|
    ensures |set x | x in s| == |s| <==> NoRepeats(s)
  {
    if s != [] {
      var p, x := s[..|s| - 1], s[|s| - 1];
      DistinctCount(p);
      assert (set y | y in s) == (set y | y in p) + {x};
      if x in p {
        assert (set y | y in s) == (set y | y in p);
        var k :| 0 <= k < |p| && p[k] == x;
        assert s[k] == s[|s| - 1];
      } else {
        forall i, j | 0 <= i < j < |s| && NoRepeats(p)
          ensures s[i] != s[j]
        {
          if j < |s| - 1 {
            assert s[i] == p[i] && s[j] == p[j];
          } else {
            assert s[i] == p[i];
          }
        }
        if NoRepeats(s) {
          forall i, j | 0 <= i < j < |p| ensures p[i] != p[j] {
            assert s[i] == p[i] && s[j] == p[j];
          }
        }
      }
    }
  }

  /**
   * check_data accepts what a file loaded into an empty store exactly when
   * every definition's range is covered by its penalties and no residue
   * type is defined twice (a repeated TYPE code adds no key to the index
   * map but does grow the type vectors).
   */
  lemma LoadedConsistent(ds: seq<Definition>)
    ensures Consistent(Loaded(ds)) <==> AllCover(ds) && NoRepeats(TypeCodes(ds))
  {
    var t := Loaded(ds);
    var types, props := TypeDefinitions(ds), PropertyDefinitions(ds);
    LoadedTypes(ds);
    LoadedProperties(ds);
    DistinctCount(TypeCodes(ds));
    assert |t.typeIndex| == |t.typeIndex.Keys|;
    SplitCovers(ds);
    if Consistent(t) {
      forall k | 0 <= k < |types| ensures RangeCovers(types[k].range, types[k].penalties) {
        assert t.typeRanges[k] == types[k].range;
      }
      forall k | 0 <= k < |props| ensures RangeCovers(props[k].range, props[k].penalties) {
        assert t.propertyRanges[k] == props[k].range;
      }
    }
  }

  /** Every definition of `ds` covers its range. */
  predicate AllCover(ds: seq<Definition>) {
    forall k | 0 <= k < |ds| :: RangeCovers(ds[k].range, ds[k].penalties)
  }

  lemma AllCoverAppend(a: seq<Definition>, b: seq<Definition>)
    ensures AllCover(a + b) <==> AllCover(a) && AllCover(b)
  {
    assert forall k | 0 <= k < |a| :: (a + b)[k] == a[k];
    assert forall k | 0 <= k < |b| :: (a + b)[|a| + k] == b[k];
  }

  /** Every definition covers its range exactly when every TYPE and every property definition does. */
  lemma {:induction false} SplitCovers(ds: seq<Definition>)
    ensures AllCover(ds) <==> AllCover(TypeDefinitions(ds)) && AllCover(PropertyDefinitions(ds))
  {
    if ds != [] {
      var p, d := ds[..|ds| - 1], ds[|ds| - 1];
      SplitCovers(p);
      assert ds == p + [d];
      AllCoverAppend(p, [d]);
      AllCoverAppend(TypeDefinitions(p), if d.typeCode.Some? then [d] else []);
      AllCoverAppend(PropertyDefinitions(p), if d.typeCode.None? then [d] else []);
    }
  }

  /**
   * With no residue type defined twice, the index map sends the code of
   * the k-th TYPE definition to k + 1: the 1-based position of its entries
   * in the type vectors.
   */
  lemma {:induction false} TypeIndexLocates(ds: seq<Definition>)
    requires NoRepeats(TypeCodes(ds))
    ensures forall k | 0 <= k < |TypeCodes(ds)| ::
      TypeCodes(ds)[k] in Loaded(ds).typeIndex && Loaded(ds).typeIndex[TypeCodes(ds)[k]] == k + 1
  {
    if ds != [] {
      var p, d := ds[..|ds| - 1], ds[|ds| - 1];
      var codes := TypeCodes(p);
      var t0, t := Loaded(p), Loaded(ds);
      assert t == Append(t0, d);
      if d.typeCode.Some? {
        var c := d.typeCode.value;
        assert TypeCodes(ds) == codes + [c];
        assert NoRepeats(codes) by {
          forall i, j | 0 <= i < j < |codes| ensures codes[i] != codes[j] {
            assert TypeCodes(ds)[i] == codes[i] && TypeCodes(ds)[j] == codes[j];
          }
        }
        TypeIndexLocates(p);
        forall k | 0 <= k < |codes| ensures codes[k] != c {
          assert TypeCodes(ds)[k] == codes[k] && TypeCodes(ds)[|codes|] == c;
        }
        LoadedTypes(p);
        DistinctCount(codes);
        assert |t0.typeIndex| == |codes| by {
          assert |t0.typeIndex| == |t0.typeIndex.Keys|;
        }
        assert c in t.typeIndex && t.typeIndex[c] == |codes| + 1;
        forall k | 0 <= k < |codes| + 1
          ensures TypeCodes(ds)[k] in t.typeIndex && t.typeIndex[TypeCodes(ds)[k]] == k + 1
        {
          if k < |codes| {
            assert TypeCodes(ds)[k] == codes[k] != c;
            assert t.typeIndex[codes[k]] == t0.typeIndex[codes[k]];
          }
        }
      } else {
        assert TypeCodes(ds) == codes;
        TypeIndexLocates(p);
        assert t.typeIndex == t0.typeIndex;
      }
    }
  }

  /** The copy the as-written copy constructors make of a store: every property set's forbidden list replaced. */
  function CopiedTablesAsWritten(t: Tables): (r: Tables)
    ensures |r.propertyLists| == |t.propertyLists|
  {
    t.(propertyLists := seq(|t.propertyLists|, k requires 0 <= k < |t.propertyLists| => CopiedAsWritten(t.propertyLists[k])))
  }

  /** The as-written copy of a store differs from it as soon as one property set has different lists. */
  lemma CopyAsWrittenDiffers(t: Tables, k: nat)
    requires k < |t.propertyLists| && t.propertyLists[k].included != t.propertyLists[k].excluded
    ensures CopiedTablesAsWritten(t) != t
  {
    assert CopiedTablesAsWritten(t).propertyLists[k] == CopiedAsWritten(t.propertyLists[k]);
  }

  /** Lists that are, one by one, the as-written copies of a store's lists are that store's copied lists. */
  lemma CopiedListsAt(ls: seq<PropertyLists>, t: Tables)
    requires |ls| == |t.propertyLists|
    requires forall k :: 0 <= k < |ls| ==> ls[k] == CopiedAsWritten(t.propertyLists[k])
    ensures ls == CopiedTablesAsWritten(t).propertyLists
  {
  }

  /** The reader of parse_penalty_definitions after the first i lines: in state s, with the closed blocks parsed into defs. */
  ghost predicate Reading(lines: seq<string>, i: nat, s: Splitter, defs: seq<Definition>) {
    i <= |lines| && SplitRun(Outside, lines[..i]) == Ok(s) && ParseAll(s.blocks) == Ok(defs)
  }

  /** The lists of each properties set, in order. */
  function ListsOf(sets: seq<PropertiesSet>): (r: seq<PropertyLists>)
    reads sets
    ensures |r| == |sets|
    ensures forall k :: 0 <= k < |sets| ==> r[k] == PropertyLists(sets[k].included, sets[k].excluded)
  {
    if sets == [] then []
    else ListsOf(sets[..|sets| - 1]) + [PropertyLists(sets[|sets| - 1].included, sets[|sets| - 1].excluded)]
  }

  lemma ListsOfAppend(sets: seq<PropertiesSet>, p: PropertiesSet)
    ensures ListsOf(sets + [p]) == ListsOf(sets) + [PropertyLists(p.included, p.excluded)]
  {
    assert (sets + [p])[..|sets|] == sets;
  }

  /*
   * Reading a file.
   */

  /** A line cut at its first '#'. */
  function BeforePound(line: string): (r: string)
    ensures |r| <= |line| && r == line[..|r|]
    ensures '#' !in r
    ensures |r| < |line| ==> line[|r|] == '#'
  {
    if line == [] then []
    else if line[0] == '#' then []
    else [line[0]] + BeforePound(line[1..])
  }

  /** The lines a file yields: empty lines are skipped and every other line is cut at its first '#'. */
  function Uncommented(raw: seq<string>): (lines: seq<string>)
    ensures |lines| == |NonEmpty(raw)|
  {
    var kept := NonEmpty(raw);
    seq(|kept|, k requires 0 <= k < |kept| => BeforePound(kept[k]))
  }

  /** The read loop of initialize_from_file, over the lines of the file. */
  method StripComments(raw: seq<string>) returns (lines: seq<string>)
    ensures lines == Uncommented(raw)
  {
    lines := [];
    var i := 0;
    while i < |raw|
      invariant 0 <= i <= |raw|
      invariant lines == Uncommented(raw[..i])
    {
      assert raw[..i + 1][..i] == raw[..i];
      if |raw[i]| >= 1 {
        lines := lines + [BeforePound(raw[i])];
      }
      i := i + 1;
    }
    assert raw[..i] == raw;
  }

  /** A failure part-way through a block is the block's failure. */
  lemma {:induction false} ScanErrPersists(lines: seq<string>, i: nat)
    requires i <= |lines| && ScanAll(lines[..i]).Err?
    ensures ScanAll(lines) == ScanAll(lines[..i])
    decreases |lines| - i
  {
    if i < |lines| {
      assert lines[..i + 1][..i] == lines[..i];
      ScanErrPersists(lines, i + 1);
    } else {
      assert lines[..i] == lines;
    }
  }

  /** Once the scan of a prefix has failed, the loop has stopped where it stopped for that prefix. */
  lemma {:induction false} ScanReachedPersists(lines: seq<string>, i: nat)
    requires i <= |lines| && ScanAll(lines[..i]).Err?
    ensures ScanReached(lines) == ScanReached(lines[..i])
    decreases |lines| - i
  {
    if i < |lines| {
      assert lines[..i + 1][..i] == lines[..i];
      ScanReachedPersists(lines, i + 1);
    } else {
      assert lines[..i] == lines;
    }
  }

  /** A line that fails ends the block's scan with the state before that line. */
  lemma StopsAt(lines: seq<string>, i: nat, scan: Scan)
    requires i < |lines| && ScanAll(lines[..i]) == Ok(scan) && Step(scan, lines[i]).Err?
    ensures ScanAll(lines).Err? && ScanReached(lines) == scan
  {
    assert lines[..i + 1][..i] == lines[..i];
    ScanErrPersists(lines, i + 1);
    ScanReachedPersists(lines, i + 1);
  }

  /** Clones every properties set of a list, in order. */
  method CloneAll(sets: seq<PropertiesSet>) returns (copies: seq<PropertiesSet>)
    ensures forall k :: 0 <= k < |copies| ==> fresh(copies[k])
    ensures ListsOf(copies) == ListsOf(sets)
  {
    copies := [];
    var i := 0;
    while i < |sets|
      invariant 0 <= i <= |sets|
      invariant |copies| == i
      invariant forall k :: 0 <= k < i ==> fresh(copies[k])
      invariant forall k :: 0 <= k < i ==> copies[k].included == sets[k].included && copies[k].excluded == sets[k].excluded
    {
      var p := sets[i].Clone();
      copies := copies + [p];
      i := i + 1;
    }
  }

  /** Clones every properties set of a list, in order, with the as-written clone. */
  method CloneAllAsWritten(sets: seq<PropertiesSet>) returns (copies: seq<PropertiesSet>)
    ensures forall k :: 0 <= k < |copies| ==> fresh(copies[k])
    ensures |copies| == |sets|
    ensures forall k :: 0 <= k < |sets| ==>
      PropertyLists(copies[k].included, copies[k].excluded) == CopiedAsWritten(PropertyLists(sets[k].included, sets[k].excluded))
  {
    copies := [];
    var i := 0;
    while i < |sets|
      invariant 0 <= i <= |sets|
      invariant |copies| == i
      invariant forall k :: 0 <= k < i ==> fresh(copies[k])
      invariant forall k :: 0 <= k < i ==>
        PropertyLists(copies[k].included, copies[k].excluded) == CopiedAsWritten(PropertyLists(sets[k].included, sets[k].excluded))
    {
      var p := sets[i].CloneAsWritten();
      copies := copies + [p];
      i := i + 1;
    }
  }

  /** The setup object: the ten containers, filled from a file. */
  class CompositionSetup {
    var typeIndex: map<string, nat>
    var typePenalties: seq<seq<real>>
    var typeRanges: seq<Range>
    var typeFraction: seq<real>
    var typeAbsolute: seq<int>
    var propertySets: seq<PropertiesSet>
    var propertiesFraction: seq<real>
    var propertiesAbsolute: seq<int>
    var propertyPenalties: seq<seq<real>>
    var propertyRanges: seq<Range>

    /** The content of the ten containers as a value. */
    function Snapshot(): Tables
      reads this, propertySets
    {
      Tables(typeIndex, typePenalties, typeRanges, typeFraction, typeAbsolute,
             ListsOf(propertySets), propertiesFraction, propertiesAbsolute, propertyPenalties, propertyRanges)
    }

    constructor ()
      ensures Snapshot() == EmptyTables()
    {
      typeIndex, typePenalties, typeRanges, typeFraction, typeAbsolute := map[], [], [], [], [];
      propertySets, propertiesFraction, propertiesAbsolute, propertyPenalties, propertyRanges := [], [], [], [], [];
    }

    /** The copy constructor: the containers copied and every properties set cloned. */
    constructor Copy(src: CompositionSetup)
      ensures forall k :: 0 <= k < |propertySets| ==> fresh(propertySets[k])
      ensures Snapshot() == src.Snapshot()
    {
      var sets := CloneAll(src.propertySets);
      typeIndex, typePenalties, typeRanges, typeFraction, typeAbsolute :=
        src.typeIndex, src.typePenalties, src.typeRanges, src.typeFraction, src.typeAbsolute;
      propertiesFraction, propertiesAbsolute, propertyPenalties, propertyRanges :=
        src.propertiesFraction, src.propertiesAbsolute, src.propertyPenalties, src.propertyRanges;
      propertySets := sets;
      new;
      assert ListsOf(propertySets) == ListsOf(src.propertySets);
    }

    /** The copy constructor as written: every properties set cloned through the as-written clone. */
    constructor CopyAsWritten(src: CompositionSetup)
      ensures forall k :: 0 <= k < |propertySets| ==> fresh(propertySets[k])
      ensures Snapshot() == CopiedTablesAsWritten(src.Snapshot())
    {
      var sets := CloneAllAsWritten(src.propertySets);
      typeIndex, typePenalties, typeRanges, typeFraction, typeAbsolute :=
        src.typeIndex, src.typePenalties, src.typeRanges, src.typeFraction, src.typeAbsolute;
      propertiesFraction, propertiesAbsolute, propertyPenalties, propertyRanges :=
        src.propertiesFraction, src.propertiesAbsolute, src.propertyPenalties, src.propertyRanges;
      propertySets := sets;
      new;
      CopiedListsAt(ListsOf(propertySets), src.Snapshot());
    }

    /** Empties the ten containers. */
    method Reset()
      modifies this
      ensures Snapshot() == EmptyTables()
    {
      typeIndex, typePenalties, typeRanges, typeFraction, typeAbsolute := map[], [], [], [], [];
      propertySets, propertiesFraction, propertiesAbsolute, propertyPenalties, propertyRanges := [], [], [], [], [];
    }

    /** parse_a_penalty_definition: the loop over the block's lines, then the final asserts and the stores. */
    method ParseADefinition(lines: seq<string>) returns (ok: bool)
      modifies this
      ensures ok <==> ParseDefinition(lines).Ok?
      ensures ok ==> Snapshot() == Append(old(Snapshot()), ParseDefinition(lines).value)
      ensures !ok ==> Snapshot() == AfterFailure(old(Snapshot()), lines)
    {
      ghost var before := Snapshot();
      var scan, complete := ScanLines(lines);
      if !complete {
        return false;
      }
      ok := StoreDefinition(scan, before);
    }

    /**
     * The end of parse_a_penalty_definition, from the scan of a whole block:
     * the final asserts, then the stores. `before` is the tables as they
     * were before the block, whose TYPE code the loop has already mapped. A
     * property block pushes its deviation range before its properties set is
     * built, and building the set fails on a property named twice.
     */
    method StoreDefinition(scan: Scan, ghost before: Tables) returns (ok: bool)
      requires Snapshot() == TypeMapped(before, scan)
      modifies this
      ensures ok <==> Finish(scan).Ok?
      ensures ok ==> Snapshot() == Append(before, Finish(scan).value)
      ensures !ok && FinalAssertsHold(scan) && scan.typeCode.None? ==>
        Snapshot() == before.(propertyRanges := before.propertyRanges + [Range(scan.deltaStart.value, scan.deltaEnd.value)])
      ensures !ok && !(FinalAssertsHold(scan) && scan.typeCode.None?) ==> Snapshot() == TypeMapped(before, scan)
    {
      if !FinalAssertsHold(scan) {
        return false;
      }
      if scan.typeCode.Some? {
        var range := Range(scan.deltaStart.value, scan.deltaEnd.value);
        var fraction := if scan.fraction.Some? then scan.fraction.value else 0.0;
        var absolute := if scan.absolute.Some? then scan.absolute.value else -1;
        var props := if scan.properties.Some? then scan.properties.value else [];
        var notProps := if scan.notProperties.Some? then scan.notProperties.value else [];
        assert Finish(scan) == Ok(Definition(scan.typeCode, props, notProps, range, scan.penalties.value, fraction, absolute));
        AddTypeVectors(range, scan.penalties.value, fraction, absolute);
        return true;
      }
      ok := StorePropertyDefinition(scan);
    }

    /**
     * The end of a property block whose final asserts hold: the deviation
     * range pushed first, then the properties set built, which fails on a
     * property named twice.
     */
    method StorePropertyDefinition(scan: Scan) returns (ok: bool)
      requires FinalAssertsHold(scan) && scan.typeCode.None?
      modifies this
      ensures ok <==> Finish(scan).Ok?
      ensures ok ==> Snapshot() == Append(old(Snapshot()), Finish(scan).value)
      ensures !ok ==>
        Snapshot() == old(Snapshot()).(propertyRanges := old(Snapshot()).propertyRanges + [Range(scan.deltaStart.value, scan.deltaEnd.value)])
    {
      var range := Range(scan.deltaStart.value, scan.deltaEnd.value);
      var fraction := if scan.fraction.Some? then scan.fraction.value else 0.0;
      var absolute := if scan.absolute.Some? then scan.absolute.value else -1;
      var props := if scan.properties.Some? then scan.properties.value else [];
      var notProps := if scan.notProperties.Some? then scan.notProperties.value else [];
      propertyRanges := propertyRanges + [range];
      if !(NoRepeats(NonEmpty(props)) && NoRepeats(NonEmpty(notProps))) {
        return false;
      }
      assert Finish(scan) == Ok(Definition(None, props, notProps, range, scan.penalties.value, fraction, absolute));
      AddPropertySet(props, notProps, scan.penalties.value, fraction, absolute);
      return true;
    }

    /** The end of a type block: its range, penalties, fraction and absolute count appended. */
    method AddTypeVectors(range: Range, penalties: seq<real>, fraction: real, absolute: int)
      modifies this`typeRanges, this`typePenalties, this`typeFraction, this`typeAbsolute
      ensures Snapshot() == old(Snapshot()).(
        typeRanges := old(Snapshot()).typeRanges + [range],
        typePenalties := old(Snapshot()).typePenalties + [penalties],
        typeFraction := old(Snapshot()).typeFraction + [fraction],
        typeAbsolute := old(Snapshot()).typeAbsolute + [absolute])
    {
      typeRanges, typePenalties, typeFraction, typeAbsolute :=
        typeRanges + [range], typePenalties + [penalties], typeFraction + [fraction], typeAbsolute + [absolute];
    }

    /**
     * The loop of parse_a_penalty_definition over the block's lines: the
     * found flags and values kept in a Scan, a TYPE line's code mapped to the
     * next 1-based index as soon as the line is read, and a stop at the
     * first line that fails.
     */
    method ScanLines(lines: seq<string>) returns (scan: Scan, complete: bool)
      modifies this`typeIndex
      ensures complete <==> ScanAll(lines).Ok?
      ensures scan == ScanReached(lines)
      ensures Snapshot() == TypeMapped(old(Snapshot()), scan)
    {
      scan := NoneFound;
      var i := 0;
      while i < |lines|
        invariant 0 <= i <= |lines|
        invariant ScanAll(lines[..i]) == Ok(scan)
        invariant Snapshot() == TypeMapped(old(Snapshot()), scan)
      {
        var line := lines[i];
        assert lines[..i + 1][..i] == lines[..i];
        var kw := LineKeyword(line);
        if kw != Other {
          if Conflicts(scan, kw) || Found(scan, kw) || !ArgsValid(line) {
            StopsAt(lines, i, scan);
            return scan, false;
          }
          var next := Record(scan, line);
          if kw == Type {
            typeIndex := typeIndex[next.typeCode.value := |typeIndex| + 1];
          }
          scan := next;
        }
        i := i + 1;
      }
      assert lines[..i] == lines;
      complete := true;
    }

    /** The end of a property block once its range is pushed: a new properties set and its three values. */
    method AddPropertySet(props: seq<string>, notProps: seq<string>, penalties: seq<real>, fraction: real, absolute: int)
      requires NoRepeats(NonEmpty(props)) && NoRepeats(NonEmpty(notProps))
      modifies this
      ensures Snapshot() == old(Snapshot()).(
        propertyLists := old(Snapshot()).propertyLists + [PropertyLists(NonEmpty(props), NonEmpty(notProps))],
        propertyPenalties := old(Snapshot()).propertyPenalties + [penalties],
        propertiesFraction := old(Snapshot()).propertiesFraction + [fraction],
        propertiesAbsolute := old(Snapshot()).propertiesAbsolute + [absolute])
    {
      ghost var before := Snapshot();
      var p := new PropertiesSet.FromLists(props, notProps);
      assert ListsOf(propertySets) == before.propertyLists;
      ListsOfAppend(propertySets, p);
      propertySets, propertyPenalties, propertiesFraction, propertiesAbsolute :=
        propertySets + [p], propertyPenalties + [penalties], propertiesFraction + [fraction], propertiesAbsolute + [absolute];
    }

    /** The END_PENALTY_DEFINITION step: what the loop below needs of parse_a_definition. */
    method StoreBlock(subset: seq<string>) returns (ok: bool)
      modifies this
      ensures ok <==> ParseDefinition(subset).Ok?
      ensures ok ==> Snapshot() == Append(old(Snapshot()), ParseDefinition(subset).value)
    {
      ok := ParseADefinition(subset);
    }

    /**
     * parse_penalty_definitions: splits the lines into blocks and stores each
     * block's definition as soon as its END_PENALTY_DEFINITION line is read.
     */
    method ParsePenaltyDefinitions(lines: seq<string>) returns (ok: bool)
      modifies this
      ensures ok <==> Definitions(lines).Ok?
      ensures ok ==> Snapshot() == AppendAll(old(Snapshot()), Definitions(lines).value)
    {
      if |lines| == 0 {
        return false;
      }
      ghost var start := Snapshot();
      var inBlock := false;
      var subset: seq<string> := [];
      ghost var blocks: seq<seq<string>> := [];
      ghost var defs: seq<Definition> := [];
      var i := 0;
      while i < |lines|
        invariant 0 <= i && Reading(lines, i, Splitter(inBlock, subset, blocks), defs)
        invariant Snapshot() == AppendAll(start, defs)
      {
        var failed;
        failed, inBlock, subset, blocks, defs := ReadDefinitionLine(lines, i, inBlock, subset, blocks, defs, start);
        if failed {
          return false;
        }
        i := i + 1;
      }
      assert lines[..i] == lines;
      return true;
    }

    /**
     * One line of parse_penalty_definitions' loop: the reader's step, with
     * a block stored as soon as its END_PENALTY_DEFINITION line is read.
     */
    method ReadDefinitionLine(lines: seq<string>, i: nat, inBlock: bool, subset: seq<string>,
                              ghost blocks: seq<seq<string>>, ghost defs: seq<Definition>, ghost start: Tables)
      returns (failed: bool, inBlockAfter: bool, subsetAfter: seq<string>,
               ghost blocksAfter: seq<seq<string>>, ghost defsAfter: seq<Definition>)
      requires i < |lines| && Reading(lines, i, Splitter(inBlock, subset, blocks), defs)
      requires Snapshot() == AppendAll(start, defs)
      modifies this
      ensures failed ==> Definitions(lines).Err?
      ensures !failed ==> Reading(lines, i + 1, Splitter(inBlockAfter, subsetAfter, blocksAfter), defsAfter)
      ensures !failed ==> Snapshot() == AppendAll(start, defsAfter)
    {
      assert lines[..i + 1][..i] == lines[..i];
      var word := FirstWord(lines[i]);
      failed, inBlockAfter, subsetAfter, blocksAfter, defsAfter := false, inBlock, subset, blocks, defs;
      if !inBlock {
        if word == "PENALTY_DEFINITION" {
          inBlockAfter, subsetAfter := true, [];
        }
      } else if word == "PENALTY_DEFINITION" {
        SplitErrPersists(lines, i + 1);
        failed := true;
      } else if word == "END_PENALTY_DEFINITION" {
        var parsed := StoreBlock(subset);
        if !parsed {
          BlockErrPersists(lines, i + 1, Splitter(false, subset, blocks + [subset]));
          failed := true;
        } else {
          ghost var d := ParseDefinition(subset).value;
          assert (defs + [d])[..|defs|] == defs;
          assert (blocks + [subset])[..|blocks|] == blocks;
          inBlockAfter, blocksAfter, defsAfter := false, blocks + [subset], defs + [d];
        }
      } else {
        subsetAfter := subset + [lines[i]];
      }
    }

    /** check_data: every vector as long as its index, every range covered by its penalties. */
    method CheckData() returns (ok: bool)
      ensures ok <==> Consistent(Snapshot())
    {
      var ntypes := |typeIndex|;
      if |typePenalties| != ntypes || |typeRanges| != ntypes || |typeFraction| != ntypes || |typeAbsolute| != ntypes {
        return false;
      }
      var i := 0;
      while i < ntypes
        invariant 0 <= i <= ntypes
        invariant forall k | 0 <= k < i :: RangeCovers(typeRanges[k], typePenalties[k])
      {
        if !(typeRanges[i].first <= typeRanges[i].second) || |typePenalties[i]| != typeRanges[i].second - typeRanges[i].first + 1 {
          return false;
        }
        i := i + 1;
      }
      var nproperties := |propertySets|;
      if |propertyPenalties| != nproperties || |propertyRanges| != nproperties
        || |propertiesFraction| != nproperties || |propertiesAbsolute| != nproperties {
        return false;
      }
      i := 0;
      while i < nproperties
        invariant 0 <= i <= nproperties
        invariant forall k | 0 <= k < i :: RangeCovers(propertyRanges[k], propertyPenalties[k])
      {
        if !(propertyRanges[i].first <= propertyRanges[i].second)
          || |propertyPenalties[i]| != propertyRanges[i].second - propertyRanges[i].first + 1 {
          return false;
        }
        i := i + 1;
      }
      return true;
    }

    /**
     * initialize_from_file once the file's lines are in hand: reset, drop
     * blank lines and comments, parse every block, then check the data.
     */
    method InitializeFromLines(raw: seq<string>) returns (ok: bool)
      modifies this
      ensures ok <==> Definitions(Uncommented(raw)).Ok?
                      && AllCover(Definitions(Uncommented(raw)).value)
                      && NoRepeats(TypeCodes(Definitions(Uncommented(raw)).value))
      ensures ok ==> Snapshot() == Loaded(Definitions(Uncommented(raw)).value)
    {
      Reset();
      var lines := StripComments(raw);
      ok := ParsePenaltyDefinitions(lines);
      if ok {
        LoadedConsistent(Definitions(lines).value);
        ok := CheckData();
      }
    }
  }
}
