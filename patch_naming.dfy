/**
 * How residue type names carry their patches (core/chemical/Patch.cc): a
 * patched name is the base name followed, for every patch applied, by the
 * patch linker and the patch's name. The base name, the all-patches suffix,
 * the list of patch names and the name a patch gives a residue type are
 * pure string functions.
 *
 * PATCH_LINKER is declared in a header outside this model; it is the
 * one-character separator ':' that get_patch_names splits on.
 */
module PatchNaming {

  const PatchLinker: char := ':'

  /** The first position of `c` in `s` at or after `from`, or |s| (std::string::npos) when there is none. */
  function Find(s: string, c: char, from: nat): (r: nat)
    requires from <= |s|
    ensures from <= r <= |s|
    ensures r < |s| ==> s[r] == c
    ensures forall j :: from <= j < r ==> s[j] != c
    decreases |s| - from
  {
    if from == |s| then |s|
    else if s[from] == c then from
    else Find(s, c, from + 1)
  }

  /** residue_type_base_name: the name up to its first linker, or the whole name. */
  function BaseName(name: string): (b: string)
    ensures b <= name
    ensures PatchLinker !in b
  {
    name[..Find(name, PatchLinker, 0)]
  }

  /** residue_type_all_patches_name: the name from its first linker on, or "". */
  function AllPatchesName(name: string): (p: string)
    ensures BaseName(name) + p == name
    ensures p == [] || p[0] == PatchLinker
  {
    var spos := Find(name, PatchLinker, 0);
    if spos < |name| then name[spos..] else ""
  }

  /** A name without a linker is its own base name and has no patches. */
  lemma UnpatchedName(name: string)
    requires PatchLinker !in name
    ensures BaseName(name) == name && AllPatchesName(name) == ""
  {
    assert Find(name, PatchLinker, 0) == |name| by {
      if Find(name, PatchLinker, 0) < |name| {
        assert name[Find(name, PatchLinker, 0)] in name;
      }
    }
  }

  /** When `b` starts with a linker, the first linker of `a + b` is the first of `a`, or `b`'s own. */
  lemma {:induction false} FindAppend(a: string, b: string, from: nat)
    requires from <= |a|
    requires b != [] && b[0] == PatchLinker
    ensures Find(a + b, PatchLinker, from) == Find(a, PatchLinker, from)
    decreases |a| - from
  {
    if from < |a| && a[from] != PatchLinker {
      FindAppend(a, b, from + 1);
    }
  }

  /** Appending a linker and more text leaves the base name alone and extends the suffix. */
  lemma LinkedName(name: string, suffix: string)
    requires suffix != [] && suffix[0] == PatchLinker
    ensures BaseName(name + suffix) == BaseName(name)
    ensures AllPatchesName(name + suffix) == AllPatchesName(name) + suffix
  {
    FindAppend(name, suffix, 0);
    var spos := Find(name, PatchLinker, 0);
    assert (name + suffix)[..spos] == name[..spos];
    if spos < |name| {
      assert (name + suffix)[spos..] == name[spos..] + suffix;
    } else {
      assert (name + suffix)[spos..] == suffix;
    }
  }

  /*
   * get_patch_names reads the all-patches name with std::getline(ss, item,
   * ':') and keeps the items that are not "". The reader's state is the
   * list so far and the item being read.
   */

  datatype Splitting = Splitting(names: seq<string>, item: string)

  /** The names kept when an item ends. */
  function Kept(item: string): seq<string> {
    if item == "" then [] else [item]
  }

  /** The reader's state after `s`. */
  function SplitNames(s: string): Splitting {
    if s == "" then Splitting([], "")
    else
      var t := SplitNames(s[..|s| - 1]);
      if s[|s| - 1] == ':' then Splitting(t.names + Kept(t.item), "")
      else Splitting(t.names, t.item + [s[|s| - 1]])
  }

  /** The patch names in an all-patches suffix, in order. */
  function PatchNames(s: string): seq<string> {
    var t := SplitNames(s);
    t.names + Kept(t.item)
  }

  /** get_patch_names, as the source's read loop. */
  method GetPatchNames(name: string) returns (elems: seq<string>)
    ensures elems == PatchNames(AllPatchesName(name))
  {
    var s := AllPatchesName(name);
    elems := [];
    var item := "";
    var i := 0;
    while i < |s|
      invariant 0 <= i <= |s|
      invariant SplitNames(s[..i]) == Splitting(elems, item)
    {
      assert s[..i + 1][..i] == s[..i];
      if s[i] == ':' {
        if item != "" {
          elems := elems + [item];
        }
        item := "";
      } else {
        item := item + [s[i]];
      }
      i := i + 1;
    }
    assert s[..i] == s;
    if item != "" {
      elems := elems + [item];
    }
  }

  /** A name that can stand between two linkers. */
  predicate Simple(p: string) {
    p != "" && ':' !in p
  }

  /** No patch name is empty or holds a ':'. */
  lemma {:induction false} SplitNamesSimple(s: string)
    ensures forall k :: 0 <= k < |SplitNames(s).names| ==> Simple(SplitNames(s).names[k])
    ensures ':' !in SplitNames(s).item
    decreases |s|
  {
    if s != "" {
      SplitNamesSimple(s[..|s| - 1]);
    }
  }

  lemma PatchNamesSimple(s: string)
    ensures forall k :: 0 <= k < |PatchNames(s)| ==> Simple(PatchNames(s)[k])
  {
    SplitNamesSimple(s);
  }

  /** Reading more characters without a ':' only extends the current item. */
  lemma {:induction false} SplitNamesItem(s: string, p: string)
    requires ':' !in p
    ensures SplitNames(s + p) == Splitting(SplitNames(s).names, SplitNames(s).item + p)
    decreases |p|
  {
    if p == "" {
      assert s + p == s;
    } else {
      var q := p[..|p| - 1];
      assert (s + p)[..|s + p| - 1] == s + q;
      assert q + [p[|p| - 1]] == p;
      SplitNamesItem(s, q);
    }
  }

  /** One more patch, read after a linker, is one more name at the end. */
  lemma PatchNamesAppend(s: string, p: string)
    requires Simple(p)
    ensures PatchNames(s + [PatchLinker] + p) == PatchNames(s) + [p]
  {
    var sl := s + [PatchLinker];
    assert sl[..|sl| - 1] == s;
    assert SplitNames(sl) == Splitting(PatchNames(s), "");
    SplitNamesItem(sl, p);
    assert s + [PatchLinker] + p == sl + p;
    assert SplitNames(sl + p).item == p;
  }

  /** The suffix a list of patches gives a name: a linker before each. */
  function Linked(patches: seq<string>): string {
    if patches == [] then "" else Linked(patches[..|patches| - 1]) + [PatchLinker] + patches[|patches| - 1]
  }

  /** Reading back the suffix of a list of simple patch names gives the list. */
  lemma {:induction false} PatchNamesOfLinked(patches: seq<string>)
    requires forall k :: 0 <= k < |patches| ==> Simple(patches[k])
    ensures PatchNames(Linked(patches)) == patches
    decreases |patches|
  {
    if patches != [] {
      var init := patches[..|patches| - 1];
      PatchNamesOfLinked(init);
      PatchNamesAppend(Linked(init), patches[|patches| - 1]);
      assert init + [patches[|patches| - 1]] == patches;
    }
  }

  /** A base name with patches applied splits back into the base name and the patches. */
  lemma NameOfPatches(base: string, patches: seq<string>)
    requires PatchLinker !in base
    requires forall k :: 0 <= k < |patches| ==> Simple(patches[k])
    ensures BaseName(base + Linked(patches)) == base
    ensures PatchNames(AllPatchesName(base + Linked(patches))) == patches
  {
    LinkedSuffix(base, patches);
    PatchNamesOfLinked(patches);
  }

  /** Behind a base name without a linker, the linked patches are the whole suffix. */
  lemma LinkedSuffix(base: string, patches: seq<string>)
    requires PatchLinker !in base
    ensures BaseName(base + Linked(patches)) == base
    ensures AllPatchesName(base + Linked(patches)) == Linked(patches)
  {
    UnpatchedName(base);
    if patches != [] {
      var init := patches[..|patches| - 1];
      LinkedStart(init, patches[|patches| - 1]);
      assert init + [patches[|patches| - 1]] == patches;
      LinkedName(base, Linked(patches));
    } else {
      assert base + Linked(patches) == base;
    }
  }

  lemma LinkedStart(init: seq<string>, p: string)
    ensures Linked(init + [p]) != [] && Linked(init + [p])[0] == PatchLinker
  {
    var ps := init + [p];
    assert ps[..|ps| - 1] == init;
    if init != [] {
      LinkedStart(init[..|init| - 1], init[|init| - 1]);
      assert init[..|init| - 1] + [init[|init| - 1]] == init;
    }
  }

  /*
   * Patch::patched_name: the name a successful patch gives the residue type
   * it produced.
   */

  /** The two names patched_name looks at: the residue type's name and its base name. */
  datatype ResidueNames = ResidueNames(name: string, baseName: string)

  /**
   * The chiral flips D and L put their letter in front; RPEPTOID keeps the
   * (already renumbered) base name and the patches; a patch that makes a new
   * base type keeps the name it set; any other patch adds itself after a linker.
   */
  function PatchedName(patch: string, generatesBase: bool, rsd: ResidueNames): string {
    if patch == "D" then "D" + rsd.name
    else if patch == "L" then "L" + rsd.name
    else if patch == "RPEPTOID" then rsd.baseName + AllPatchesName(rsd.name)
    else if generatesBase then rsd.name
    else rsd.name + [PatchLinker] + patch
  }

  /** An ordinary patch keeps the base name and is read back as the last patch. */
  lemma PatchedNameAddsPatch(patch: string, rsd: ResidueNames)
    requires patch != "D" && patch != "L" && patch != "RPEPTOID"
    requires Simple(patch)
    ensures BaseName(PatchedName(patch, false, rsd)) == BaseName(rsd.name)
    ensures PatchNames(AllPatchesName(PatchedName(patch, false, rsd)))
            == PatchNames(AllPatchesName(rsd.name)) + [patch]
  {
    var suffix := [PatchLinker] + patch;
    assert rsd.name + [PatchLinker] + patch == rsd.name + suffix;
    LinkedName(rsd.name, suffix);
    assert AllPatchesName(rsd.name) + suffix == AllPatchesName(rsd.name) + [PatchLinker] + patch;
    PatchNamesAppend(AllPatchesName(rsd.name), patch);
  }

  /** A chiral flip changes the base name only, by its leading letter. */
  lemma ChiralFlipKeepsPatches(patch: string, generatesBase: bool, rsd: ResidueNames)
    requires patch == "D" || patch == "L"
    ensures BaseName(PatchedName(patch, generatesBase, rsd)) == patch + BaseName(rsd.name)
    ensures AllPatchesName(PatchedName(patch, generatesBase, rsd)) == AllPatchesName(rsd.name)
  {
    var r := PatchedName(patch, generatesBase, rsd);
    assert r == patch + rsd.name;
    ShiftedFind(patch, rsd.name, 0);
    var spos := Find(rsd.name, PatchLinker, 0);
    assert r[..1 + spos] == patch + rsd.name[..spos];
    assert r[1 + spos..] == rsd.name[spos..];
  }

  /** Finding in a string behind a one-letter prefix without a linker. */
  lemma {:induction false} ShiftedFind(letter: string, s: string, from: nat)
    requires |letter| == 1 && letter[0] != PatchLinker
    requires from <= |s|
    ensures Find(letter + s, PatchLinker, from + 1) == Find(s, PatchLinker, from) + 1
    decreases |s| - from
  {
    if from < |s| {
      assert (letter + s)[from + 1] == s[from];
      if s[from] != PatchLinker {
        ShiftedFind(letter, s, from + 1);
      }
    }
  }

  /** RPEPTOID keeps the patches and takes the base name the residue type already has. */
  lemma PeptoidKeepsPatches(generatesBase: bool, rsd: ResidueNames)
    requires PatchLinker !in rsd.baseName
    ensures BaseName(PatchedName("RPEPTOID", generatesBase, rsd)) == rsd.baseName
    ensures AllPatchesName(PatchedName("RPEPTOID", generatesBase, rsd)) == AllPatchesName(rsd.name)
  {
    UnpatchedName(rsd.baseName);
    if AllPatchesName(rsd.name) != "" {
      LinkedName(rsd.baseName, AllPatchesName(rsd.name));
    } else {
      assert rsd.baseName + AllPatchesName(rsd.name) == rsd.baseName;
    }
  }
}
