/**
 * Whitespace-separated words, as `std::istringstream >> std::string`
 * extracts them from one line of a Rosetta input file.
 */
module Text {
  import opened Outcomes

  predicate IsSpace(c: char) {
    c == ' ' || c == '\t' || c == '\n' || c == '\r' || c == '\U{B}' || c == '\U{C}'
  }

  /**
   * The character `s[i]` reads on a std::string: NUL at index |s|. Reads
   * past that are undefined in C++; they are modelled as NUL too.
   */
  function CharAt(s: string, i: nat): (c: char)
    ensures i < |s| ==> c == s[i]
    ensures i >= |s| ==> c == '\0'
  {
    if i < |s| then s[i] else '\0'
  }

  /** True when `w` is a word as `>>` extracts it: non-empty, no white space. */
  predicate IsWord(w: string) {
    |w| > 0 && forall i :: 0 <= i < |w| ==> !IsSpace(w[i])
  }

  /** Index of the first white-space character of `s` at or after `i`, or |s|. */
  function WordEnd(s: string, i: nat): (e: nat)
    requires i <= |s|
    ensures i <= e <= |s|
    ensures forall k :: i <= k < e ==> !IsSpace(s[k])
    ensures e == |s| || IsSpace(s[e])
    decreases |s| - i
  {
    if i == |s| || IsSpace(s[i]) then i else WordEnd(s, i + 1)
  }

  /** The words of `s` at or after index `i`, in order. */
  function WordsFrom(s: string, i: nat): (ws: seq<string>)
    requires i <= |s|
    ensures forall k :: 0 <= k < |ws| ==> IsWord(ws[k])
    decreases |s| - i
  {
    if i == |s| then []
    else if IsSpace(s[i]) then WordsFrom(s, i + 1)
    else
      var e := WordEnd(s, i);
      [s[i..e]] + WordsFrom(s, e)
  }

  /** The words successive `>>` extractions read from the line `s`. */
  function Words(s: string): (ws: seq<string>)
    ensures forall k :: 0 <= k < |ws| ==> IsWord(ws[k])
  {
    WordsFrom(s, 0)
  }

  /** The first word `>>` reads from a line, or "" when the line is blank. */
  function FirstWord(line: string): (w: string)
    ensures w == "" <==> Words(line) == []
  {
    if Words(line) == [] then "" else Words(line)[0]
  }

  /** No value occurs twice. */
  predicate NoRepeats<T(==)>(s: seq<T>) {
    forall i, j :: 0 <= i < j < |s| ==> s[i] != s[j]
  }

  /**
   * True when a read loop of the form `while (!line.eof()) { line >> w; … }`
   * stops cleanly after the last word of `s`: the stream reaches its end
   * exactly while extracting a word, which happens when `s` does not end in
   * white space. A trailing blank makes one more extraction fail.
   */
  predicate EndsInWord(s: string) {
    |s| > 0 && !IsSpace(s[|s| - 1])
  }

  lemma {:induction false} WordsFromBlank(s: string, i: nat)
    requires i <= |s|
    ensures WordsFrom(s, i) == [] <==> forall k :: i <= k < |s| ==> IsSpace(s[k])
    decreases |s| - i
  {
    if i < |s| {
      WordsFromBlank(s, i + 1);
    }
  }

  /** A line yields no word exactly when it is empty or all white space. */
  lemma WordsBlank(s: string)
    ensures Words(s) == [] <==> forall k :: 0 <= k < |s| ==> IsSpace(s[k])
  {
    WordsFromBlank(s, 0);
  }

  lemma {:induction false} WordsFromLeading(pre: string, w: string, rest: string, i: nat)
    requires i <= |pre|
    requires forall k :: 0 <= k < |pre| ==> IsSpace(pre[k])
    requires IsWord(w)
    requires rest == [] || IsSpace(rest[0])
    ensures |WordsFrom(pre + w + rest, i)| > 0 && WordsFrom(pre + w + rest, i)[0] == w
    decreases |pre| - i
  {
    var s := pre + w + rest;
    if i < |pre| {
      WordsFromLeading(pre, w, rest, i + 1);
    } else {
      assert s[i] == w[0];
      WordEndAt(s, i, |pre| + |w|);
      assert s[i..|pre| + |w|] == w;
    }
  }

  lemma {:induction false} WordEndAt(s: string, i: nat, e: nat)
    requires i <= e <= |s|
    requires forall k :: i <= k < e ==> !IsSpace(s[k])
    requires e == |s| || IsSpace(s[e])
    ensures WordEnd(s, i) == e
    decreases e - i
  {
    if i < e {
      WordEndAt(s, i + 1, e);
    }
  }

  /**
   * The first word of a line is the first run of non-blank characters:
   * leading blanks are skipped and the word stops at the next blank.
   */
  lemma FirstWordOf(pre: string, w: string, rest: string)
    requires forall k :: 0 <= k < |pre| ==> IsSpace(pre[k])
    requires IsWord(w)
    requires rest == [] || IsSpace(rest[0])
    ensures |Words(pre + w + rest)| > 0 && Words(pre + w + rest)[0] == w
  {
    WordsFromLeading(pre, w, rest, 0);
  }

  /*
   * Numbers as `>>` reads them into a `long` or a `double` from the start
   * of a word: an optional sign, then digits, and for a double an optional
   * point, more digits and an optional exponent.
   */

  predicate IsDigit(c: char) {
    '0' <= c <= '9'
  }

  function DigitOf(c: char): nat
    requires IsDigit(c)
  {
    c as int - '0' as int
  }

  /** The end of the run of digits of `w` that starts at i. */
  function DigitsEnd(w: string, i: nat): (e: nat)
    requires i <= |w|
    ensures i <= e <= |w|
    ensures forall k :: i <= k < e ==> IsDigit(w[k])
    ensures e == |w| || !IsDigit(w[e])
    decreases |w| - i
  {
    if i < |w| && IsDigit(w[i]) then DigitsEnd(w, i + 1) else i
  }

  /** The decimal value of the digits w[i..j]. */
  function DigitsValue(w: string, i: nat, j: nat): nat
    requires i <= j <= |w|
    requires forall k :: i <= k < j ==> IsDigit(w[k])
    decreases j - i
  {
    if i == j then 0 else DigitsValue(w, i, j - 1) * 10 + DigitOf(w[j - 1])
  }

  function Pow10(k: nat): (p: nat)
    ensures p >= 1
  {
    if k == 0 then 1 else 10 * Pow10(k - 1)
  }

  /** Where the digits after an optional sign start. */
  function SignEnd(w: string): (s: nat)
    ensures s <= |w| && s <= 1
  {
    if |w| > 0 && (w[0] == '+' || w[0] == '-') then 1 else 0
  }

  function Signed(w: string, magnitude: real): real {
    if SignEnd(w) == 1 && w[0] == '-' then -magnitude else magnitude
  }

  /** `>> long` on a word: its leading sign and digits, or failure when no digit follows the sign. */
  function ReadLong(w: string): (r: Option<int>)
    ensures r.Some? <==> SignEnd(w) < |w| && IsDigit(w[SignEnd(w)])
    ensures r.Some? && r.value < 0 ==> w[0] == '-'
  {
    var s := SignEnd(w);
    var e := DigitsEnd(w, s);
    if e == s then None
    else
      var v := DigitsValue(w, s, e) as int;
      Some(if s == 1 && w[0] == '-' then -v else v)
  }

  /**
   * The numeral `>> double` reads at the start of `w`, as its value and its
   * length. libstdc++ gathers a sign, digits with at most one point, and an
   * `e` or `E` with an optional sign once a mantissa digit has been seen; it
   * then fails unless strtod converts everything it gathered. So a mantissa
   * without a digit (".", "-") fails, and so does an exponent without one
   * ("1e", "2E+").
   */
  function ReadRealPrefix(w: string): (r: Option<(real, nat)>)
    ensures r.Some? ==> 0 < r.value.1 <= |w|
    ensures r.Some? ==> forall k :: 0 <= k < r.value.1 ==> !IsSpace(w[k])
    ensures r.Some? ==> r.value.1 == |w| || !IsDigit(w[r.value.1])
  {
    var s := SignEnd(w);
    var e := DigitsEnd(w, s);
    var f := FractionEnd(w, e);
    if e == s && f <= e + 1 then None
    else
      var mantissa := Signed(w, Magnitude(w, s, e, f));
      if IsExponentMark(w, f) then
        match ReadExponent(w, f)
        case Some((x, g)) => Some((Scaled(mantissa, x), g))
        case None => None
      else Some((mantissa, f))
  }

  /** The end of a point and the digits after it, read from position e; e when no point is there. */
  function FractionEnd(w: string, e: nat): (f: nat)
    requires e <= |w|
    ensures e <= f <= |w|
    ensures f > e ==> w[e] == '.' && forall k :: e < k < f ==> IsDigit(w[k])
    ensures f > e ==> f == |w| || !IsDigit(w[f])
  {
    if e < |w| && w[e] == '.' then DigitsEnd(w, e + 1) else e
  }

  /** The value of the digits w[s..e], a point and the digits w[e+1..f]. */
  function Magnitude(w: string, s: nat, e: nat, f: nat): real
    requires s <= e <= f <= |w|
    requires forall k :: s <= k < e ==> IsDigit(w[k])
    requires forall k :: e < k < f ==> IsDigit(w[k])
  {
    DigitsValue(w, s, e) as real + (if f == e then 0.0 else DigitsValue(w, e + 1, f) as real / Pow10(f - e - 1) as real)
  }

  predicate IsExponentMark(w: string, f: nat) {
    f < |w| && (w[f] == 'e' || w[f] == 'E')
  }

  /** An exponent `e`/`E`, an optional sign and at least one digit, read from position i. */
  function ReadExponent(w: string, i: nat): (r: Option<(int, nat)>)
    requires i <= |w|
    ensures r.Some? ==> i < r.value.1 <= |w|
    ensures r.Some? ==> forall k :: i <= k < r.value.1 ==> !IsSpace(w[k])
    ensures r.Some? ==> r.value.1 == |w| || !IsDigit(w[r.value.1])
  {
    if i < |w| && (w[i] == 'e' || w[i] == 'E') then
      var s := if i + 1 < |w| && (w[i + 1] == '+' || w[i + 1] == '-') then i + 2 else i + 1;
      var e := DigitsEnd(w, s);
      if e == s then None
      else
        var v := DigitsValue(w, s, e) as int;
        Some((if s == i + 2 && w[i + 1] == '-' then -v else v, e))
    else None
  }

  /** m times ten to the power x. */
  function Scaled(m: real, x: int): real {
    if x >= 0 then m * Pow10(x) as real else m / Pow10(-x) as real
  }

  /** `>> double` on a word that is one numeral and nothing more. */
  function ReadReal(w: string): (r: Option<real>)
    ensures r.Some? ==> IsWord(w)
  {
    match ReadRealPrefix(w)
    case Some((v, n)) => if n == |w| then Some(v) else None
    case None => None
  }

  /** Index of the first character of `s` at or after `i` that is not white space, or |s|. */
  function SpaceEnd(s: string, i: nat): (e: nat)
    requires i <= |s|
    ensures i <= e <= |s|
    ensures forall k :: i <= k < e ==> IsSpace(s[k])
    ensures e == |s| || !IsSpace(s[e])
    decreases |s| - i
  {
    if i < |s| && IsSpace(s[i]) then SpaceEnd(s, i + 1) else i
  }

  /** Where the first word of a line ends: the read position after `line >> keyword`. */
  function KeywordEnd(line: string): (e: nat)
    ensures e <= |line|
  {
    WordEnd(line, SpaceEnd(line, 0))
  }

  /**
   * The doubles `while (!line.eof()) { line >> x; … }` reads from position
   * i of a line to its end. Each `>>` skips white space and reads one
   * numeral; it fails when only white space is left, so a trailing blank is
   * a failure, and it stops where the numeral stops, so one word may give
   * several values ("1-2" gives 1 and -2, "0.5.5" gives 0.5 and 0.5). None
   * when an extraction fails; nothing is read at the end of the line.
   */
  function RealsToEnd(s: string, i: nat): (r: Option<seq<real>>)
    requires i <= |s|
    ensures r.Some? ==> (r.value == [] <==> i == |s|)
    ensures r.Some? && i < |s| ==> !IsSpace(s[|s| - 1])
    decreases |s| - i
  {
    if i == |s| then Some([])
    else
      match NextReal(s, i)
      case None => None
      case Some((v, e)) =>
        match RealsToEnd(s, e)
        case None => None
        case Some(vs) => Some([v] + vs)
  }

  /**
   * One `line >> x` from position i: white space skipped, then one numeral
   * read, as its value and the position after it. None when only white
   * space is left or no numeral starts there.
   */
  function NextReal(s: string, i: nat): (r: Option<(real, nat)>)
    requires i < |s|
    ensures r.Some? ==> i < r.value.1 <= |s| && !IsSpace(s[r.value.1 - 1])
  {
    var j := SpaceEnd(s, i);
    if j == |s| then None
    else
      match ReadRealPrefix(s[j..])
      case None => None
      case Some((v, n)) =>
        assert s[j..][n - 1] == s[j + n - 1];
        Some((v, j + n))
  }

  /*
   * What follows a numeral after a blank does not change what `>> double`
   * reads from it.
   */

  lemma {:induction false} DigitsEndBeforeBlank(w: string, rest: string, i: nat)
    requires i <= |w| && (rest == [] || IsSpace(rest[0]))
    ensures DigitsEnd(w + rest, i) == DigitsEnd(w, i)
    decreases |w| - i
  {
    if i < |w| && IsDigit(w[i]) {
      DigitsEndBeforeBlank(w, rest, i + 1);
    }
  }

  lemma {:induction false} DigitsValueBeforeBlank(w: string, rest: string, i: nat, j: nat)
    requires i <= j <= |w|
    requires forall k :: i <= k < j ==> IsDigit(w[k])
    ensures DigitsValue(w + rest, i, j) == DigitsValue(w, i, j)
    decreases j - i
  {
    if i < j {
      DigitsValueBeforeBlank(w, rest, i, j - 1);
    }
  }

  lemma ReadExponentBeforeBlank(w: string, rest: string, i: nat)
    requires i <= |w| && (rest == [] || IsSpace(rest[0]))
    ensures ReadExponent(w + rest, i) == ReadExponent(w, i)
  {
    if i < |w| && (w[i] == 'e' || w[i] == 'E') {
      var s := if i + 1 < |w| && (w[i + 1] == '+' || w[i + 1] == '-') then i + 2 else i + 1;
      DigitsEndBeforeBlank(w, rest, s);
      var e := DigitsEnd(w, s);
      if e > s {
        DigitsValueBeforeBlank(w, rest, s, e);
      }
    }
  }

  /** The sign, the digits and the fraction of a numeral read the same with a blank after it. */
  lemma MantissaBeforeBlank(w: string, rest: string)
    requires rest == [] || IsSpace(rest[0])
    ensures var x := w + rest;
      var s := SignEnd(w);
      var e := DigitsEnd(w, s);
      var f := FractionEnd(w, e);
      && SignEnd(x) == s && DigitsEnd(x, s) == e && FractionEnd(x, e) == f
      && Magnitude(x, s, e, f) == Magnitude(w, s, e, f)
      && Signed(x, Magnitude(w, s, e, f)) == Signed(w, Magnitude(w, s, e, f))
      && IsExponentMark(x, f) == IsExponentMark(w, f)
  {
    var s := SignEnd(w);
    DigitsEndBeforeBlank(w, rest, s);
    var e := DigitsEnd(w, s);
    FractionEndBeforeBlank(w, rest, e);
    MagnitudeBeforeBlank(w, rest, s, e, FractionEnd(w, e));
  }

  lemma FractionEndBeforeBlank(w: string, rest: string, e: nat)
    requires e <= |w| && (rest == [] || IsSpace(rest[0]))
    ensures FractionEnd(w + rest, e) == FractionEnd(w, e)
  {
    if e < |w| && w[e] == '.' {
      DigitsEndBeforeBlank(w, rest, e + 1);
    }
  }

  lemma MagnitudeBeforeBlank(w: string, rest: string, s: nat, e: nat, f: nat)
    requires s <= e <= f <= |w|
    requires forall k :: s <= k < e ==> IsDigit(w[k])
    requires forall k :: e < k < f ==> IsDigit(w[k])
    ensures Magnitude(w + rest, s, e, f) == Magnitude(w, s, e, f)
  {
    DigitsValueBeforeBlank(w, rest, s, e);
    if f > e {
      DigitsValueBeforeBlank(w, rest, e + 1, f);
    }
  }

  /** A numeral followed by a blank reads as the numeral alone. */
  lemma ReadRealPrefixBeforeBlank(w: string, rest: string)
    requires rest == [] || IsSpace(rest[0])
    ensures ReadRealPrefix(w + rest) == ReadRealPrefix(w)
  {
    MantissaBeforeBlank(w, rest);
    ReadExponentBeforeBlank(w, rest, FractionEnd(w, DigitsEnd(w, SignEnd(w))));
  }

  lemma {:induction false} SpaceEndAt(s: string, i: nat, j: nat)
    requires i <= j <= |s|
    requires forall k :: i <= k < j ==> IsSpace(s[k])
    requires j == |s| || !IsSpace(s[j])
    ensures SpaceEnd(s, i) == j
    decreases j - i
  {
    if i < j {
      SpaceEndAt(s, i + 1, j);
    }
  }

  /**
   * Reading doubles to the end of a line, when what is left starts with
   * blanks and a word that is one numeral: that numeral's value comes first,
   * and the reading goes on after the word.
   */
  lemma RealsToEndNumeral(s: string, i: nat, j: nat, e: nat)
    requires i < j < e <= |s|
    requires forall k :: i <= k < j ==> IsSpace(s[k])
    requires ReadReal(s[j..e]).Some?
    requires e == |s| || IsSpace(s[e])
    ensures RealsToEnd(s, i) ==
      match RealsToEnd(s, e)
      case Some(vs) => Some([ReadReal(s[j..e]).value] + vs)
      case None => None
  {
    NumeralNext(s, i, j, e);
    RealsToEndRead(s, i);
  }

  /** Blanks, then a word that is one numeral: one extraction reads that numeral and stops after the word. */
  lemma NumeralNext(s: string, i: nat, j: nat, e: nat)
    requires i < j < e <= |s|
    requires forall k :: i <= k < j ==> IsSpace(s[k])
    requires ReadReal(s[j..e]).Some?
    requires e == |s| || IsSpace(s[e])
    ensures NextReal(s, i).Some?
    ensures NextReal(s, i).value.0 == ReadReal(s[j..e]).value
    ensures NextReal(s, i).value.1 == e
  {
    assert s[j..e][0] == s[j];
    SpaceEndAt(s, i, j);
    NumeralBeforeBlank(s, j, e);
    NextRealAt(s, i, j);
  }

  /** A word that is one numeral, read from where it starts to the end of the line. */
  lemma NumeralBeforeBlank(s: string, j: nat, e: nat)
    requires j < e <= |s|
    requires ReadReal(s[j..e]).Some?
    requires e == |s| || IsSpace(s[e])
    ensures ReadRealPrefix(s[j..]).Some?
    ensures ReadRealPrefix(s[j..]).value.0 == ReadReal(s[j..e]).value
    ensures j + ReadRealPrefix(s[j..]).value.1 == e
  {
    var w := s[j..e];
    assert ReadRealPrefix(w).Some? && ReadRealPrefix(w).value.0 == ReadReal(w).value && ReadRealPrefix(w).value.1 == |w|;
    assert s[j..] == w + s[e..];
    ReadRealPrefixBeforeBlank(w, s[e..]);
  }

  /** One extraction after blanks that reads a numeral. */
  lemma NextRealAt(s: string, i: nat, j: nat)
    requires i <= j < |s| && SpaceEnd(s, i) == j
    requires ReadRealPrefix(s[j..]).Some?
    ensures NextReal(s, i).Some?
    ensures NextReal(s, i).value.0 == ReadRealPrefix(s[j..]).value.0
    ensures NextReal(s, i).value.1 == j + ReadRealPrefix(s[j..]).value.1
  {
  }

  /** One extraction of a read to the end of the line, when it succeeds. */
  lemma RealsToEndRead(s: string, i: nat)
    requires i < |s| && NextReal(s, i).Some?
    ensures RealsToEnd(s, i) ==
      match RealsToEnd(s, NextReal(s, i).value.1)
      case Some(vs) => Some([NextReal(s, i).value.0] + vs)
      case None => None
  {
  }

  /**
   * The position after the first word of a line is where that word, as
   * Words reads it, ends.
   */
  lemma KeywordEndOf(line: string)
    requires Words(line) != []
    ensures SpaceEnd(line, 0) < KeywordEnd(line)
    ensures line[SpaceEnd(line, 0)..KeywordEnd(line)] == Words(line)[0]
  {
    WordsFromSkipsBlanks(line, 0);
  }

  lemma {:induction false} WordsFromSkipsBlanks(s: string, i: nat)
    requires i <= |s|
    ensures WordsFrom(s, i) == WordsFrom(s, SpaceEnd(s, i))
    decreases |s| - i
  {
    if i < |s| && IsSpace(s[i]) {
      WordsFromSkipsBlanks(s, i + 1);
    }
  }

  /** `>> double` stops before a second sign: one word "1-2" gives two values. */
  lemma TwoValuesInOneWord()
    ensures RealsToEnd(" 1-2", 0) == Some([1.0, -2.0])
  {
    var s := " 1-2";
    MinusTwoAtEnd();
    RealsToEndRead(s, 2);
    assert RealsToEnd(s, 4) == Some([]);
    assert [-2.0] + [] == [-2.0];
    assert RealsToEnd(s, 2) == Some([-2.0]);
    OneBeforeMinus();
    RealsToEndRead(s, 0);
    assert [1.0] + [-2.0] == [1.0, -2.0];
  }

  /** The first extraction from " 1-2" skips the blank and stops at the minus sign. */
  lemma OneBeforeMinus()
    ensures NextReal(" 1-2", 0).Some?
    ensures NextReal(" 1-2", 0).value.0 == 1.0 && NextReal(" 1-2", 0).value.1 == 2
  {
    var s := " 1-2";
    SpaceEndAt(s, 0, 1);
    assert s[1..] == "1-2";
    assert DigitsEnd("1-2", 0) == 1 && FractionEnd("1-2", 1) == 1;
    assert ReadRealPrefix("1-2") == Some((1.0, 1));
    NextRealAt(s, 0, 1);
  }

  /** The second extraction from " 1-2" reads the signed rest of the word and reaches the end. */
  lemma MinusTwoAtEnd()
    ensures NextReal(" 1-2", 2).Some?
    ensures NextReal(" 1-2", 2).value.0 == -2.0 && NextReal(" 1-2", 2).value.1 == 4
  {
    var s := " 1-2";
    SpaceEndAt(s, 2, 2);
    assert s[2..] == "-2";
    assert DigitsEnd("-2", 1) == 2;
    assert ReadRealPrefix(s[2..]) == Some((-2.0, 2));
    NextRealAt(s, 2, 2);
  }

  /** `>> double` takes at most one point: one word "0.5.5" gives two values. */
  lemma TwoValuesFromPoints()
    ensures RealsToEnd(" 0.5.5", 0) == Some([0.5, 0.5])
  {
    HalfBeforePoint();
    HalfAtEnd();
    RealsToEndTwo(" 0.5.5", 0, 0.5, 4, 0.5);
  }

  /** Two values read one after the other, the second ending the line. */
  lemma RealsToEndTwo(s: string, i: nat, a: real, j: nat, b: real)
    requires i < |s| && NextReal(s, i).Some?
    requires NextReal(s, i).value.0 == a && NextReal(s, i).value.1 == j
    requires j < |s| && NextReal(s, j).Some?
    requires NextReal(s, j).value.0 == b && NextReal(s, j).value.1 == |s|
    ensures RealsToEnd(s, i) == Some([a, b])
  {
    RealsToEndCons(s, j, b, |s|, []);
    assert [b] + [] == [b];
    RealsToEndCons(s, i, a, j, [b]);
    assert [a] + [b] == [a, b];
  }

  /** A value read at i, followed by the values read from where it ends. */
  lemma RealsToEndCons(s: string, i: nat, v: real, e: nat, rest: seq<real>)
    requires i < |s| && NextReal(s, i).Some?
    requires NextReal(s, i).value.0 == v && NextReal(s, i).value.1 == e
    requires e <= |s| && RealsToEnd(s, e) == Some(rest)
    ensures RealsToEnd(s, i) == Some([v] + rest)
  {
    RealsToEndRead(s, i);
  }

  /** The first extraction from " 0.5.5" stops at the second point. */
  lemma HalfBeforePoint()
    ensures NextReal(" 0.5.5", 0).Some?
    ensures NextReal(" 0.5.5", 0).value.0 == 0.5 && NextReal(" 0.5.5", 0).value.1 == 4
  {
    var s := " 0.5.5";
    SpaceEndAt(s, 0, 1);
    assert s[1..] == "0.5.5";
    HalfPrefix();
    NextRealAt(s, 0, 1);
  }

  lemma HalfPrefix()
    ensures ReadRealPrefix("0.5.5") == Some((0.5, 3))
  {
    var w := "0.5.5";
    assert SignEnd(w) == 0;
    assert DigitsEnd(w, 0) == 1;
    assert FractionEnd(w, 1) == 3 by {
      assert DigitsEnd(w, 2) == 3;
    }
    assert DigitsValue(w, 0, 1) == 0 && DigitsValue(w, 2, 3) == 5;
    assert Magnitude(w, 0, 1, 3) == 0.5;
    assert !IsExponentMark(w, 3);
  }

  /** The second extraction from " 0.5.5" reads ".5" and reaches the end. */
  lemma HalfAtEnd()
    ensures NextReal(" 0.5.5", 4).Some?
    ensures NextReal(" 0.5.5", 4).value.0 == 0.5 && NextReal(" 0.5.5", 4).value.1 == 6
  {
    var s := " 0.5.5";
    SpaceEndAt(s, 4, 4);
    assert s[4..] == ".5";
    assert DigitsEnd(".5", 0) == 0 && DigitsEnd(".5", 1) == 2;
    assert Magnitude(".5", 0, 0, 2) == 0.5;
    assert ReadRealPrefix(s[4..]) == Some((0.5, 2));
    NextRealAt(s, 4, 4);
  }

  /** An exponent mark with no digit after it makes `>> double` fail. */
  lemma ExponentWithoutDigitsFails()
    ensures ReadRealPrefix("1e") == None
    ensures RealsToEnd(" 1e", 0) == None
  {
    assert DigitsEnd("1e", 0) == 1;
    assert ReadExponent("1e", 1) == None by {
      assert DigitsEnd("1e", 2) == 2;
    }
    SpaceEndAt(" 1e", 0, 1);
    assert " 1e"[1..] == "1e";
  }

  /** A trailing blank makes the last extraction fail. */
  lemma TrailingBlankFails()
    ensures RealsToEnd(" 1 ", 0) == None
  {
    var s := " 1 ";
    SpaceEndAt(s, 0, 1);
    assert s[1..] == "1 ";
    assert DigitsEnd("1 ", 0) == 1;
    assert ReadRealPrefix("1 ") == Some((1.0, 1));
    SpaceEndAt(s, 2, 3);
  }
}
