/**
 * The pattern bookkeeping of the ncbb SecStructFinder mover: residue-name
 * translation, stretching a pattern to the oligomer length, the unique
 * letters of a dihedral pattern, and how many backbone dihedrals each of
 * them owns in the flat dihedral vector the mover samples.
 */
module SecStructFinding {
  import opened Outcomes
  import opened Text

  /*
   * ---------------------------------------------------------------------
   * alpha_to_beta
   * ---------------------------------------------------------------------
   */

  /** The twenty canonical amino acids by three-letter code, with their one-letter codes. */
  function OneLetterCodes(): map<string, char> {
    map[
    "ALA" := 'A', "CYS" := 'C', "ASP" := 'D', "GLU" := 'E', "PHE" := 'F',
    "GLY" := 'G', "HIS" := 'H', "ILE" := 'I', "LYS" := 'K', "LEU" := 'L',
    "MET" := 'M', "ASN" := 'N', "GLN" := 'Q', "ARG" := 'R', "SER" := 'S',
    "THR" := 'T', "VAL" := 'V', "TRP" := 'W', "TYR" := 'Y', "PRO" := 'P'
    ]
  }

  /**
   * The beta-3 homologue of an alpha amino acid: "B3" followed by the
   * one-letter code. A name outside the twenty falls back to beta-alanine.
   */
  function AlphaToBeta(alpha: string): (beta: string)
    ensures |beta| == 3 && beta[0] == 'B' && beta[1] == '3'
  {
    if alpha == "ALA" then "B3A"
    else if alpha == "CYS" then "B3C"
    else if alpha == "ASP" then "B3D"
    else if alpha == "GLU" then "B3E"
    else if alpha == "PHE" then "B3F"
    else if alpha == "GLY" then "B3G"
    else if alpha == "HIS" then "B3H"
    else if alpha == "ILE" then "B3I"
    else if alpha == "LYS" then "B3K"
    else if alpha == "LEU" then "B3L"
    else if alpha == "MET" then "B3M"
    else if alpha == "ASN" then "B3N"
    else if alpha == "GLN" then "B3Q"
    else if alpha == "ARG" then "B3R"
    else if alpha == "SER" then "B3S"
    else if alpha == "THR" then "B3T"
    else if alpha == "VAL" then "B3V"
    else if alpha == "TRP" then "B3W"
    else if alpha == "TYR" then "B3Y"
    else if alpha == "PRO" then "B3P"
    else "B3A"
  }

  /** Each of the twenty canonical amino acids maps to "B3" and its one-letter code. */
  lemma AlphaToBetaListed(alpha: string)
    requires alpha in OneLetterCodes()
    ensures AlphaToBeta(alpha) == "B3" + [OneLetterCodes()[alpha]]
  {
    if alpha in {"ALA", "CYS", "ASP"} {
      ListedAlaCysAsp(alpha);
    } else if alpha in {"GLU", "PHE", "GLY"} {
      ListedGluPheGly(alpha);
    } else if alpha in {"HIS", "ILE", "LYS"} {
      ListedHisIleLys(alpha);
    } else if alpha in {"LEU", "MET", "ASN"} {
      ListedLeuMetAsn(alpha);
    } else if alpha in {"GLN", "ARG", "SER"} {
      ListedGlnArgSer(alpha);
    } else if alpha in {"THR", "VAL", "TRP"} {
      ListedThrValTrp(alpha);
    } else {
      ListedTyrPro(alpha);
    }
  }

  /** The case split of AlphaToBetaListed, three names at a time. */
  lemma ListedAlaCysAsp(alpha: string)
    requires alpha in {"ALA", "CYS", "ASP"}
    ensures AlphaToBeta(alpha) == "B3" + [OneLetterCodes()[alpha]]
  {
    if alpha == "ALA" {
    } else if alpha == "CYS" {
    }
  }

  lemma ListedGluPheGly(alpha: string)
    requires alpha in {"GLU", "PHE", "GLY"}
    ensures AlphaToBeta(alpha) == "B3" + [OneLetterCodes()[alpha]]
  {
    if alpha == "GLU" {
    } else if alpha == "PHE" {
    }
  }

  lemma ListedHisIleLys(alpha: string)
    requires alpha in {"HIS", "ILE", "LYS"}
    ensures AlphaToBeta(alpha) == "B3" + [OneLetterCodes()[alpha]]
  {
    if alpha == "HIS" {
    } else if alpha == "ILE" {
    }
  }

  lemma ListedLeuMetAsn(alpha: string)
    requires alpha in {"LEU", "MET", "ASN"}
    ensures AlphaToBeta(alpha) == "B3" + [OneLetterCodes()[alpha]]
  {
    if alpha == "LEU" {
    } else if alpha == "MET" {
    }
  }

  lemma ListedGlnArgSer(alpha: string)
    requires alpha in {"GLN", "ARG", "SER"}
    ensures AlphaToBeta(alpha) == "B3" + [OneLetterCodes()[alpha]]
  {
    if alpha == "GLN" {
    } else if alpha == "ARG" {
    }
  }

  lemma ListedThrValTrp(alpha: string)
    requires alpha in {"THR", "VAL", "TRP"}
    ensures AlphaToBeta(alpha) == "B3" + [OneLetterCodes()[alpha]]
  {
    if alpha == "THR" {
    } else if alpha == "VAL" {
    }
  }

  lemma ListedTyrPro(alpha: string)
    requires alpha in {"TYR", "PRO"}
    ensures AlphaToBeta(alpha) == "B3" + [OneLetterCodes()[alpha]]
  {
    if alpha == "TYR" {
    }
  }

  /** Every other name maps to beta-alanine. */
  lemma AlphaToBetaUnlisted(alpha: string)
    requires alpha !in OneLetterCodes()
    ensures AlphaToBeta(alpha) == "B3A"
  {
  }

  /*
   * ---------------------------------------------------------------------
   * expand_pattern_to_fit
   * ---------------------------------------------------------------------
   */

  lemma {:induction false} MulAtLeast(n: nat, k: nat)
    requires k >= 1
    ensures n * k >= n
    decreases k
  {
    if k > 1 {
      MulAtLeast(n, k - 1);
    }
  }

  /** Division with remainder is unique: x == n*q + r with 0 <= r < n has quotient q and remainder r. */
  lemma ModUnique(x: nat, n: nat, q: nat, r: nat)
    requires 0 <= r < n && x == n * q + r
    ensures x % n == r && x / n == q
  {
    var q2, r2 := x / n, x % n;
    assert x == n * q2 + r2;
    var k := q2 - q;
    assert n * k == r - r2 by {
      assert n * k == n * q2 - n * q;
    }
    if k >= 1 {
      MulAtLeast(n, k);
    }
  }

  /** Appending the first m letters of p to `copies` whole copies of p continues the cycle. */
  lemma RepeatAppended(e: string, p: string, copies: nat, m: nat)
    requires 0 < |p| && m <= |p| && |e| == |p| * copies
    requires forall i :: 0 <= i < |e| ==> e[i] == p[i % |p|]
    ensures forall i :: 0 <= i < |e| + m ==> (e + p[..m])[i] == p[i % |p|]
  {
    forall i | 0 <= i < |e| + m
      ensures (e + p[..m])[i] == p[i % |p|]
    {
      if i >= |e| {
        ModUnique(i, |p|, copies, i - |e|);
      }
    }
  }

  /** From index i on, letter k of `s` is letter k mod |p| of the pattern `p`. */
  predicate CyclesFrom(s: string, p: string, i: nat)
    requires |p| > 0
    decreases |s| - i
  {
    i >= |s| || (s[i] == p[i % |p|] && CyclesFrom(s, p, i + 1))
  }

  /** `s` is `p` repeated, the last copy possibly cut short. */
  predicate Cycles(s: string, p: string)
    requires |p| > 0
  {
    CyclesFrom(s, p, 0)
  }

  lemma {:induction false} CyclesFromPointwise(s: string, p: string, i: nat)
    requires |p| > 0
    requires forall k :: i <= k < |s| ==> s[k] == p[k % |p|]
    ensures CyclesFrom(s, p, i)
    decreases |s| - i
  {
    if i < |s| {
      CyclesFromPointwise(s, p, i + 1);
    }
  }

  lemma {:induction false} CyclesFromAt(s: string, p: string, i: nat, k: nat)
    requires |p| > 0 && CyclesFrom(s, p, i) && i <= k < |s|
    ensures s[k] == p[k % |p|]
    decreases k - i
  {
    if i < k {
      CyclesFromAt(s, p, i + 1, k);
    }
  }

  /** In a repeated pattern, letter k is letter k mod |p| of the pattern. */
  lemma CyclesAt(s: string, p: string, k: nat)
    requires |p| > 0 && Cycles(s, p) && k < |s|
    ensures s[k] == p[k % |p|]
  {
    CyclesFromAt(s, p, 0, k);
  }

  /**
   * Repeats the pattern until it is `length` letters long, cutting the last
   * copy short. A length below the pattern's own gives the SUFFIX after the
   * first `length` letters. An empty pattern stretched to a positive length
   * never finishes, so that call is excluded.
   */
  method ExpandPatternToFit(pattern: string, length: nat) returns (expanded: string)
    requires |pattern| > 0 || length == 0
    ensures length < |pattern| ==> expanded == pattern[length..]
    ensures length >= |pattern| ==> |expanded| == length
    ensures length >= |pattern| > 0 ==> Cycles(expanded, pattern)
  {
    if length < |pattern| {
      return pattern[length..];
    } else if length == |pattern| {
      forall i | 0 <= i < length
        ensures pattern[i] == pattern[i % |pattern|]
      {
        ModUnique(i, |pattern|, 0, i);
      }
      if |pattern| > 0 {
        CyclesFromPointwise(pattern, pattern, 0);
      }
      return pattern;
    } else {
      var n := |pattern|;
      var remaining := length;
      expanded := [];
      ghost var copies := 0;
      while remaining > n
        invariant 0 <= remaining && |expanded| + remaining == length
        invariant |expanded| == n * copies
        invariant forall i :: 0 <= i < |expanded| ==> expanded[i] == pattern[i % n]
      {
        RepeatAppended(expanded, pattern, copies, n);
        assert pattern[..n] == pattern;
        expanded := expanded + pattern;
        remaining := remaining - n;
        copies := copies + 1;
      }
      RepeatAppended(expanded, pattern, copies, remaining);
      expanded := expanded + pattern[..remaining];
      CyclesFromPointwise(expanded, pattern, 0);
    }
  }

  /*
   * ---------------------------------------------------------------------
   * count_uniq_char
   * ---------------------------------------------------------------------
   */

  /** The distinct letters of `p`, each at the place of its first occurrence. */
  function FirstOccurrences(p: string): (u: string)
    decreases |p|
  {
    if p == [] then []
    else
      var init := p[..|p| - 1];
      FirstOccurrences(init) + (if p[|p| - 1] in init then [] else [p[|p| - 1]])
  }

  /**
   * The distinct letters are pairwise different, are exactly the letters of
   * `p`, and come in order of first occurrence: a letter listed before
   * another already occurs in `p` before any occurrence of the other.
   */
  lemma {:induction false} FirstOccurrencesProperties(p: string)
    ensures var u := FirstOccurrences(p);
      (forall a, b :: 0 <= a < b < |u| ==> u[a] != u[b])
      && (forall c :: c in u <==> c in p)
      && (forall a, b, j :: 0 <= a < b < |u| && 0 <= j < |p| && p[j] == u[b] ==> u[a] in p[..j])
    decreases |p|
  {
    if p != [] {
      var init := p[..|p| - 1];
      var last := p[|p| - 1];
      FirstOccurrencesProperties(init);
      var v := FirstOccurrences(init);
      var u := FirstOccurrences(p);
      assert p == init + [last];
      forall c
        ensures c in u <==> c in p
      {
        assert c in p <==> c in init || c == last;
      }
      forall a, b, j | 0 <= a < b < |u| && 0 <= j < |p| && p[j] == u[b]
        ensures u[a] in p[..j]
      {
        if b < |v| {
          if j < |init| {
            assert init[j] == p[j];
            assert u[a] in init[..j];
            assert init[..j] == p[..j];
          } else {
            assert u[b] in init;
            var k :| 0 <= k < |init| && init[k] == u[b];
            assert u[a] in init[..k];
            assert init[..k] == p[..k];
            assert p[..k] <= p[..j];
          }
        } else {
          assert u[b] == last && last !in init;
          assert forall i :: 0 <= i < |init| ==> p[i] == init[i] != last;
          assert u[a] == v[a] && v[a] in init;
          assert p[..j] == init;
        }
      }
    }
  }

  /**
   * count_uniq_char, for the empty uniqs vector its callers pass: the
   * distinct letters of the pattern in first-occurrence order, and their
   * number. An empty pattern yields its terminating NUL as the one letter.
   */
  method CountUniqChar(pattern: string) returns (num: nat, uniqs: seq<char>)
    ensures num == |uniqs| >= 1
    ensures |pattern| == 0 ==> uniqs == ['\0']
    ensures |pattern| > 0 ==> uniqs == FirstOccurrences(pattern)
  {
    num := 1;
    uniqs := [CharAt(pattern, 0)];
    if |pattern| > 0 {
      assert pattern[..1] == [] + [pattern[0]];
    }
    var i := 1;
    while i < |pattern|
      invariant |pattern| > 0 ==> i <= |pattern| && uniqs == FirstOccurrences(pattern[..i])
      invariant |pattern| == 0 ==> uniqs == ['\0']
      invariant num == |uniqs| >= 1
    {
      var increment := 1;
      var j := 0;
      while j < i
        invariant 0 <= j <= i
        invariant increment == (if pattern[i] in pattern[..j] then 0 else 1)
      {
        assert pattern[..j + 1] == pattern[..j] + [pattern[j]];
        if pattern[j] == pattern[i] {
          increment := 0;
        } else {
          increment := increment * 1;
        }
        j := j + 1;
      }
      assert pattern[..i + 1][..i] == pattern[..i];
      if increment == 1 {
        uniqs := uniqs + [pattern[i]];
      }
      num := num + increment;
      i := i + 1;
    }
    if |pattern| > 0 {
      assert pattern[..|pattern|] == pattern;
    }
  }

  /*
   * ---------------------------------------------------------------------
   * How many dihedrals a unique letter owns
   * ---------------------------------------------------------------------
   */

  /** Alpha amino acids and peptoids own phi and psi. */
  predicate IsAlphaOrPeptoid(c: char) {
    c == 'A' || c == 'P'
  }

  /** Dihedrals owned by a residue of backbone class `c`: 2 for alpha or peptoid, 3 for beta, none otherwise. */
  function LetterWeight(c: char): (w: nat)
    ensures w <= 3
  {
    if IsAlphaOrPeptoid(c) then 2 else if c == 'B' then 3 else 0
  }

  /** The weight of `u` judged at its first occurrence in `dihedral` at index `j` or later (0 when it has none). */
  function WeightFrom(dihedral: string, alphaBeta: string, u: char, j: nat): (w: nat)
    ensures w <= 3
    decreases |dihedral| - j
  {
    if j >= |dihedral| then 0
    else if dihedral[j] == u then LetterWeight(CharAt(alphaBeta, j))
    else WeightFrom(dihedral, alphaBeta, u, j + 1)
  }

  /** The number of dihedrals the unique letter `u` owns. */
  function DihedralWeight(dihedral: string, alphaBeta: string, u: char): (w: nat)
    ensures w <= 3
  {
    WeightFrom(dihedral, alphaBeta, u, 0)
  }

  /** The total number of dihedrals owned by the letters of `uniqs`. */
  function WeightSum(dihedral: string, alphaBeta: string, uniqs: seq<char>): nat
    decreases |uniqs|
  {
    if uniqs == [] then 0
    else WeightSum(dihedral, alphaBeta, uniqs[..|uniqs| - 1]) + DihedralWeight(dihedral, alphaBeta, uniqs[|uniqs| - 1])
  }

  /** The 1-based slot of the first dihedral of the n-th unique letter: 1 plus the weights of the letters before it. */
  function DihedralIndex(dihedral: string, alphaBeta: string, uniqs: seq<char>, n: nat): nat
    requires n <= |uniqs| + 1
  {
    if n == 0 then 1 else 1 + WeightSum(dihedral, alphaBeta, uniqs[..n - 1])
  }

  /** When the letter is in the pattern, its weight is that of the class letter at its first occurrence. */
  lemma {:induction false} WeightAtFirstOccurrence(dihedral: string, alphaBeta: string, u: char, j: nat, k: nat)
    requires j <= k < |dihedral| && dihedral[k] == u
    requires forall i :: j <= i < k ==> dihedral[i] != u
    ensures WeightFrom(dihedral, alphaBeta, u, j) == LetterWeight(CharAt(alphaBeta, k))
    decreases k - j
  {
    if j < k {
      WeightAtFirstOccurrence(dihedral, alphaBeta, u, j + 1, k);
    }
  }

  /** A letter that does not occur in the dihedral pattern owns no dihedral. */
  lemma {:induction false} WeightAbsent(dihedral: string, alphaBeta: string, u: char, j: nat)
    requires forall i :: j <= i < |dihedral| ==> dihedral[i] != u
    ensures WeightFrom(dihedral, alphaBeta, u, j) == 0
    decreases |dihedral| - j
  {
    if j < |dihedral| {
      WeightAbsent(dihedral, alphaBeta, u, j + 1);
    }
  }

  lemma {:induction false} WeightSumBounds(dihedral: string, alphaBeta: string, uniqs: seq<char>)
    ensures WeightSum(dihedral, alphaBeta, uniqs) <= 3 * |uniqs|
    decreases |uniqs|
  {
    if uniqs != [] {
      WeightSumBounds(dihedral, alphaBeta, uniqs[..|uniqs| - 1]);
    }
  }

  lemma {:induction false} WeightSumPrefix(dihedral: string, alphaBeta: string, uniqs: seq<char>, n: nat)
    requires n < |uniqs|
    ensures WeightSum(dihedral, alphaBeta, uniqs[..n + 1])
      == WeightSum(dihedral, alphaBeta, uniqs[..n]) + DihedralWeight(dihedral, alphaBeta, uniqs[n])
  {
    assert uniqs[..n + 1][..n] == uniqs[..n];
  }

  lemma {:induction false} WeightSumMonotone(dihedral: string, alphaBeta: string, uniqs: seq<char>, m: nat, n: nat)
    requires m <= n <= |uniqs|
    ensures WeightSum(dihedral, alphaBeta, uniqs[..m]) <= WeightSum(dihedral, alphaBeta, uniqs[..n])
    decreases n - m
  {
    if m < n {
      WeightSumPrefix(dihedral, alphaBeta, uniqs, n - 1);
      WeightSumMonotone(dihedral, alphaBeta, uniqs, m, n - 1);
    }
  }

  /** The first letter's slot is 1, and the slot after the last letter's is the total plus one. */
  lemma DihedralIndexEnds(dihedral: string, alphaBeta: string, uniqs: seq<char>)
    ensures DihedralIndex(dihedral, alphaBeta, uniqs, 1) == 1
    ensures DihedralIndex(dihedral, alphaBeta, uniqs, |uniqs| + 1) == WeightSum(dihedral, alphaBeta, uniqs) + 1
  {
    assert uniqs[..|uniqs|] == uniqs;
  }

  /**
   * The slots handed out by give_dihedral_index do not overlap and fit the
   * vector sized by get_number_dihedrals: the n-th letter's dihedrals
   * DihedralIndex(n) .. DihedralIndex(n) + weight - 1 end before the m-th
   * letter's slot (m > n) and within 1 .. WeightSum(uniqs).
   */
  lemma DihedralSlots(dihedral: string, alphaBeta: string, uniqs: seq<char>, n: nat, m: nat)
    requires 1 <= n < m <= |uniqs| + 1
    ensures DihedralIndex(dihedral, alphaBeta, uniqs, n) + DihedralWeight(dihedral, alphaBeta, uniqs[n - 1])
      <= DihedralIndex(dihedral, alphaBeta, uniqs, m)
    ensures DihedralIndex(dihedral, alphaBeta, uniqs, n) + DihedralWeight(dihedral, alphaBeta, uniqs[n - 1])
      <= WeightSum(dihedral, alphaBeta, uniqs) + 1
  {
    var upTo := WeightSum(dihedral, alphaBeta, uniqs[..n]);
    assert DihedralIndex(dihedral, alphaBeta, uniqs, n) + DihedralWeight(dihedral, alphaBeta, uniqs[n - 1]) == upTo + 1 by {
      WeightSumPrefix(dihedral, alphaBeta, uniqs, n - 1);
    }
    assert upTo <= WeightSum(dihedral, alphaBeta, uniqs[..m - 1]) by {
      WeightSumMonotone(dihedral, alphaBeta, uniqs, n, m - 1);
    }
    assert upTo <= WeightSum(dihedral, alphaBeta, uniqs) by {
      WeightSumMonotone(dihedral, alphaBeta, uniqs, n, |uniqs|);
      assert uniqs[..|uniqs|] == uniqs;
    }
  }

  /**
   * With a class pattern of A, P and B letters only, every letter of the
   * dihedral pattern owns 2 or 3 dihedrals, so the unique letters own
   * between 2 and 3 dihedrals each.
   */
  lemma {:induction false} WeightSumOfClassPattern(dihedral: string, alphaBeta: string, uniqs: seq<char>)
    requires |alphaBeta| >= |dihedral|
    requires forall k :: 0 <= k < |alphaBeta| ==> IsAlphaOrPeptoid(alphaBeta[k]) || alphaBeta[k] == 'B'
    requires forall k :: 0 <= k < |uniqs| ==> uniqs[k] in dihedral
    ensures 2 * |uniqs| <= WeightSum(dihedral, alphaBeta, uniqs) <= 3 * |uniqs|
    decreases |uniqs|
  {
    WeightSumBounds(dihedral, alphaBeta, uniqs);
    if uniqs != [] {
      var init := uniqs[..|uniqs| - 1];
      var u := uniqs[|uniqs| - 1];
      WeightSumOfClassPattern(dihedral, alphaBeta, init);
      var k := FirstIndex(dihedral, u, 0);
      WeightAtFirstOccurrence(dihedral, alphaBeta, u, 0, k);
    }
  }

  /** The first index at or after `j` holding `u`. */
  function FirstIndex(s: string, u: char, j: nat): (k: nat)
    requires exists i :: j <= i < |s| && s[i] == u
    ensures j <= k < |s| && s[k] == u
    ensures forall i :: j <= i < k ==> s[i] != u
    decreases |s| - j
  {
    if s[j] == u then j else FirstIndex(s, u, j + 1)
  }

  /*
   * ---------------------------------------------------------------------
   * uniq_refers_to_beta
   * ---------------------------------------------------------------------
   */

  /**
   * The answer of a scan over positions `from` .. |dihedral| for the letter
   * `u`: at the first position holding it, true unless the class letter
   * there is A or P; false when no position matches. Position |dihedral|
   * reads the string's NUL terminator.
   */
  function RefersToBetaFrom(dihedral: string, alphaBeta: string, u: char, from: nat): bool
    decreases |dihedral| + 1 - from
  {
    if from > |dihedral| then false
    else if CharAt(dihedral, from) == u then !IsAlphaOrPeptoid(CharAt(alphaBeta, from))
    else RefersToBetaFrom(dihedral, alphaBeta, u, from + 1)
  }

  /**
   * uniq_refers_to_beta (the same loop appears in SecStructFinder and in
   * SecStructMinimizeMultiFunc): positions 1 .. |dihedral| are scanned, so
   * the letter at position 0 is never looked at.
   */
  method UniqRefersToBeta(dihedral: string, alphaBeta: string, uniq: char) returns (beta: bool)
    ensures beta == RefersToBetaFrom(dihedral, alphaBeta, uniq, 1)
  {
    var i := 1;
    while i <= |dihedral|
      invariant 1 <= i <= |dihedral| + 1
      invariant RefersToBetaFrom(dihedral, alphaBeta, uniq, i) == RefersToBetaFrom(dihedral, alphaBeta, uniq, 1)
    {
      if CharAt(dihedral, i) == uniq {
        if CharAt(alphaBeta, i) == 'A' || CharAt(alphaBeta, i) == 'P' {
          return false;
        } else {
          return true;
        }
      }
      i := i + 1;
    }
    return false;
  }

  /**
   * The scan as written misjudges a letter whose first occurrence is
   * position 0: with dihedral pattern "AB" and class pattern "BA", letter
   * A is a beta residue owning 3 dihedrals, yet the scan finds no A after
   * position 0 and answers "not beta".
   */
  lemma RefersToBetaSkipsFirstPosition()
    ensures DihedralWeight("AB", "BA", 'A') == 3
    ensures !RefersToBetaFrom("AB", "BA", 'A', 1)
  {
    assert RefersToBetaFrom("AB", "BA", 'A', 3) == false;
    assert RefersToBetaFrom("AB", "BA", 'A', 2) == false;
  }

  /** uniq_refers_to_beta as evidently intended: the scan starts at position 0. */
  function RefersToBeta(dihedral: string, alphaBeta: string, u: char): bool {
    RefersToBetaFrom(dihedral, alphaBeta, u, 0)
  }

  lemma {:induction false} RefersToBetaFromFirst(dihedral: string, alphaBeta: string, u: char, j: nat, k: nat)
    requires j <= k < |dihedral| && dihedral[k] == u
    requires forall i :: j <= i < k ==> dihedral[i] != u
    ensures RefersToBetaFrom(dihedral, alphaBeta, u, j) == !IsAlphaOrPeptoid(CharAt(alphaBeta, k))
    decreases k - j
  {
    if j < k {
      RefersToBetaFromFirst(dihedral, alphaBeta, u, j + 1, k);
    }
  }

  /**
   * The corrected scan agrees with the dihedral count: a letter of the
   * pattern is beta exactly when it owns 3 dihedrals, given a class
   * pattern of A, P and B letters covering the dihedral pattern.
   */
  lemma RefersToBetaAgreesWithWeight(dihedral: string, alphaBeta: string, u: char)
    requires |alphaBeta| >= |dihedral|
    requires forall k :: 0 <= k < |alphaBeta| ==> IsAlphaOrPeptoid(alphaBeta[k]) || alphaBeta[k] == 'B'
    requires u in dihedral
    ensures RefersToBeta(dihedral, alphaBeta, u) <==> DihedralWeight(dihedral, alphaBeta, u) == 3
    ensures !RefersToBeta(dihedral, alphaBeta, u) <==> DihedralWeight(dihedral, alphaBeta, u) == 2
  {
    var k := FirstIndex(dihedral, u, 0);
    RefersToBetaFromFirst(dihedral, alphaBeta, u, 0, k);
    WeightAtFirstOccurrence(dihedral, alphaBeta, u, 0, k);
  }

  /*
   * ---------------------------------------------------------------------
   * The mover's settings
   * ---------------------------------------------------------------------
   */

  /**
   * The options of a SecStructFinder tag that parse_my_tag reads, already
   * converted to their types; None where the tag lacks the option.
   */
  datatype FinderTag = FinderTag(
    residue: Option<string>,
    minLength: Option<nat>,
    maxLength: Option<nat>,
    binSize: Option<real>,
    dissimilarity: Option<real>,
    dumpThreshold: Option<real>,
    dihedralPattern: Option<string>,
    alphaBetaPattern: Option<string>,
    minEverything: Option<bool>,
    cart: Option<bool>)

  function OrElse<T>(o: Option<T>, default: T): T {
    if o.Some? then o.value else default
  }

  function MaxNat(a: nat, b: nat): nat { if a > b then a else b }
  function MaxReal(a: real, b: real): real { if a > b then a else b }

  /** The settings of the mover that decide what it samples. */
  class SecStructFinder {
    var residue: string
    var minLength: nat
    var maxLength: nat
    var binSize: real
    var dumpThreshold: real
    var dihedralMin: real
    var dihedralMax: real
    var dihedralPattern: string
    var alphaBetaPattern: string
    var minEverything: bool
    var cart: bool
    var constrain: bool
    var dissimilarity: real

    /** The clamps construction and parse_my_tag establish. */
    predicate Clamped()
      reads this
    {
      minLength <= maxLength && dissimilarity >= binSize
    }

    /** The default mover: ALA pentamers, 10-degree bins over -180 .. 180, all-alpha patterns. */
    constructor Default()
      ensures residue == "ALA" && minLength == 5 && maxLength == 5
      ensures binSize == 10.0 && dumpThreshold == -10000.0
      ensures dihedralMin == -180.0 && dihedralMax == 180.0
      ensures dihedralPattern == "AAAAA" && alphaBetaPattern == "AAAAA"
      ensures !minEverything && !cart && !constrain && dissimilarity == 10.0
      ensures Clamped() && dihedralMin <= dihedralMax
    {
      residue := "ALA";
      minLength := 5;
      maxLength := 5;
      binSize := 10.0;
      dumpThreshold := -10000.0;
      dihedralMin := -180.0;
      dihedralMax := 180.0;
      var expanded := ExpandPatternToFit("A", 5);
      forall k | 0 <= k < 5
        ensures expanded[k] == 'A'
      {
        CyclesAt(expanded, "A", k);
      }
      dihedralPattern := expanded;
      alphaBetaPattern := expanded;
      minEverything := false;
      cart := false;
      constrain := false;
      dissimilarity := 10.0;
    }

    /**
     * The full constructor: lengths, dihedral range and dissimilarity are
     * clamped so that maximum >= minimum and dissimilarity >= bin size, and
     * both patterns are stretched to the minimum length.
     */
    constructor Full(residue: string, minLength: nat, maxLength: nat, binSize: real, dissimilarity: real,
                     dihedralMin: real, dihedralMax: real, dumpThreshold: real,
                     dihedralPattern: string, alphaBetaPattern: string,
                     minEverything: bool, cart: bool, constrain: bool)
      requires |dihedralPattern| > 0 || minLength == 0
      requires |alphaBetaPattern| > 0 || minLength == 0
      ensures this.residue == residue && this.minLength == minLength
      ensures this.maxLength == MaxNat(minLength, maxLength)
      ensures this.binSize == binSize && this.dumpThreshold == dumpThreshold
      ensures this.dihedralMin == dihedralMin && this.dihedralMax == MaxReal(dihedralMin, dihedralMax)
      ensures this.dissimilarity == MaxReal(binSize, dissimilarity)
      ensures minLength < |dihedralPattern| ==> this.dihedralPattern == dihedralPattern[minLength..]
      ensures minLength >= |dihedralPattern| ==> |this.dihedralPattern| == minLength
      ensures minLength >= |dihedralPattern| > 0 ==> Cycles(this.dihedralPattern, dihedralPattern)
      ensures minLength < |alphaBetaPattern| ==> this.alphaBetaPattern == alphaBetaPattern[minLength..]
      ensures minLength >= |alphaBetaPattern| ==> |this.alphaBetaPattern| == minLength
      ensures minLength >= |alphaBetaPattern| > 0 ==> Cycles(this.alphaBetaPattern, alphaBetaPattern)
      ensures this.minEverything == minEverything && this.cart == cart && this.constrain == constrain
      ensures Clamped() && this.dihedralMin <= this.dihedralMax
    {
      this.residue := residue;
      this.minLength := minLength;
      this.binSize := binSize;
      this.dumpThreshold := dumpThreshold;
      this.dihedralMin := dihedralMin;
      this.minEverything := minEverything;
      this.cart := cart;
      this.constrain := constrain;
      this.dissimilarity := if binSize > dissimilarity then binSize else dissimilarity;
      this.maxLength := if minLength > maxLength then minLength else maxLength;
      var d := ExpandPatternToFit(dihedralPattern, minLength);
      var ab := ExpandPatternToFit(alphaBetaPattern, minLength);
      this.dihedralPattern := d;
      this.alphaBetaPattern := ab;
      this.dihedralMax := if dihedralMin > dihedralMax then dihedralMin else dihedralMax;
    }

    /**
     * parse_my_tag: each option the tag lacks takes its default (note the
     * dump threshold default of 10 here, not the constructor's -10000); the
     * maximum length and the dissimilarity are clamped again; the patterns
     * are stretched to the new minimum length. The dihedral range and the
     * constrain flag are not options: they lie outside the frame.
     */
    method ParseMyTag(tag: FinderTag)
      requires |OrElse(tag.dihedralPattern, "A")| > 0 || OrElse(tag.minLength, 5) == 0
      requires |OrElse(tag.alphaBetaPattern, "A")| > 0 || OrElse(tag.minLength, 5) == 0
      modifies this`residue, this`minLength, this`maxLength, this`binSize, this`dissimilarity,
        this`dumpThreshold, this`dihedralPattern, this`alphaBetaPattern, this`minEverything, this`cart
      ensures residue == OrElse(tag.residue, "ALA")
      ensures minLength == OrElse(tag.minLength, 5)
      ensures maxLength == MaxNat(minLength, OrElse(tag.maxLength, 5))
      ensures binSize == OrElse(tag.binSize, 10.0)
      ensures dissimilarity == MaxReal(binSize, OrElse(tag.dissimilarity, 10.0))
      ensures dumpThreshold == OrElse(tag.dumpThreshold, 10.0)
      ensures var p := OrElse(tag.dihedralPattern, "A");
        && (minLength < |p| ==> dihedralPattern == p[minLength..])
        && (minLength >= |p| ==> |dihedralPattern| == minLength)
        && (minLength >= |p| > 0 ==> Cycles(dihedralPattern, p))
      ensures var p := OrElse(tag.alphaBetaPattern, "A");
        && (minLength < |p| ==> alphaBetaPattern == p[minLength..])
        && (minLength >= |p| ==> |alphaBetaPattern| == minLength)
        && (minLength >= |p| > 0 ==> Cycles(alphaBetaPattern, p))
      ensures minEverything == OrElse(tag.minEverything, false) && cart == OrElse(tag.cart, false)
    {
      var newMin := OrElse(tag.minLength, 5);
      var newMax := OrElse(tag.maxLength, 5);
      newMax := if newMax < newMin then newMin else newMax;
      var newBin := OrElse(tag.binSize, 10.0);
      var newDissimilarity := OrElse(tag.dissimilarity, 10.0);
      newDissimilarity := if newDissimilarity < newBin then newBin else newDissimilarity;
      var d := OrElse(tag.dihedralPattern, "A");
      d := ExpandPatternToFit(d, newMin);
      var ab := OrElse(tag.alphaBetaPattern, "A");
      ab := ExpandPatternToFit(ab, newMin);
      residue := OrElse(tag.residue, "ALA");
      minLength, maxLength := newMin, newMax;
      binSize, dissimilarity := newBin, newDissimilarity;
      dumpThreshold := OrElse(tag.dumpThreshold, 10.0);
      dihedralPattern, alphaBetaPattern := d, ab;
      minEverything := OrElse(tag.minEverything, false);
      cart := OrElse(tag.cart, false);
    }

    /**
     * get_number_dihedrals: the size of the sampled dihedral vector, the
     * weights of the unique letters summed, each judged at the letter's first
     * occurrence in the dihedral pattern.
     */
    method GetNumberDihedrals(uniqs: seq<char>) returns (number: nat)
      ensures number == WeightSum(dihedralPattern, alphaBetaPattern, uniqs)
    {
      number := 0;
      var i := 0;
      while i < |uniqs|
        invariant 0 <= i <= |uniqs|
        invariant number == WeightSum(dihedralPattern, alphaBetaPattern, uniqs[..i])
      {
        WeightSumPrefix(dihedralPattern, alphaBetaPattern, uniqs, i);
        number := AddWeight(number, uniqs[i]);
        i := i + 1;
      }
      assert uniqs[..|uniqs|] == uniqs;
    }

    /**
     * give_dihedral_index: the slot of the first dihedral of the n-th
     * unique letter (1-based), found by adding up the weights of the
     * letters before it. The loop reads uniqs[1 .. n-1], so n may be at
     * most one past the last letter.
     */
    method GiveDihedralIndex(n: nat, uniqs: seq<char>) returns (index: nat)
      requires n <= |uniqs| + 1
      ensures index == DihedralIndex(dihedralPattern, alphaBetaPattern, uniqs, n)
    {
      index := 1;
      var i := 1;
      while i < n
        invariant 1 <= i <= MaxNat(n, 1)
        invariant index == 1 + WeightSum(dihedralPattern, alphaBetaPattern, uniqs[..i - 1])
      {
        WeightSumPrefix(dihedralPattern, alphaBetaPattern, uniqs, i - 1);
        index := AddWeight(index, uniqs[i - 1]);
        i := i + 1;
      }
    }

    /**
     * The inner scan both counting loops share: walk the dihedral pattern
     * to the first occurrence of `u` and add 2 or 3 according to the class
     * letter there; the loop is cut short by setting its index to the end.
     */
    method AddWeight(total: nat, u: char) returns (sum: nat)
      ensures sum == total + DihedralWeight(dihedralPattern, alphaBetaPattern, u)
    {
      sum := total;
      var j := 0;
      while j < |dihedralPattern|
        invariant 0 <= j <= |dihedralPattern| + 1
        invariant (j <= |dihedralPattern| && sum == total
                   && WeightFrom(dihedralPattern, alphaBetaPattern, u, j) == DihedralWeight(dihedralPattern, alphaBetaPattern, u))
               || (j == |dihedralPattern| + 1 && sum == total + DihedralWeight(dihedralPattern, alphaBetaPattern, u))
      {
        if dihedralPattern[j] == u {
          assert WeightFrom(dihedralPattern, alphaBetaPattern, u, j) == LetterWeight(CharAt(alphaBetaPattern, j));
          if CharAt(alphaBetaPattern, j) == 'A' || CharAt(alphaBetaPattern, j) == 'P' {
            sum := sum + 2;
          } else if CharAt(alphaBetaPattern, j) == 'B' {
            sum := sum + 3;
          }
          j := |dihedralPattern|;
        }
        j := j + 1;
      }
    }
  }
}
