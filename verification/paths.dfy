/**
 * File-name handling of the region processor and the enumerator:
 * splitting on '.', Rust's `file_stem`/`extension` rules, the unsigned
 * integer parser, and the lenient region-coordinate decoding.
 */
module Paths {
  import opened Wrappers
  import opened Units

  const DOT: char := '.'

  // ---------------------------------------------------------------------
  // `str::split('.')`
  // ---------------------------------------------------------------------

  /** The index of the last dot in `s`, if any. */
  function LastDot(s: string): (r: Option<nat>)
    ensures r.None? ==> DOT !in s
    ensures r.Some? ==> r.value < |s| && s[r.value] == DOT && DOT !in s[r.value + 1..]
    decreases |s|
  {
    if |s| == 0 then None
    else if s[|s| - 1] == DOT then Some(|s| - 1)
    else
      var r := LastDot(s[..|s| - 1]);
      assert r.Some? ==> s[r.value + 1..] == s[..|s| - 1][r.value + 1..] + [s[|s| - 1]];
      r
  }

  /** A dot with no dot after it is the last dot. */
  lemma LastDotAt(s: string, k: nat)
    requires k < |s| && s[k] == DOT && DOT !in s[k + 1..]
    ensures LastDot(s) == Some(k)
  {
    assert s[k] in s;
  }

  /** The components of `s` between dots; an empty string has one empty component. */
  function Split(s: string): (parts: seq<string>)
    ensures |parts| >= 1
    ensures forall i :: 0 <= i < |parts| ==> DOT !in parts[i]
    decreases |s|
  {
    match LastDot(s)
    case None => [s]
    case Some(i) => Split(s[..i]) + [s[i + 1..]]
  }

  /** The inverse of `Split`: the components glued back together with dots. */
  function Join(parts: seq<string>): string
    requires |parts| >= 1
    decreases |parts|
  {
    if |parts| == 1 then parts[0]
    else Join(parts[..|parts| - 1]) + [DOT] + parts[|parts| - 1]
  }

  lemma {:induction false} JoinSplit(s: string)
    ensures Join(Split(s)) == s
    decreases |s|
  {
    match LastDot(s)
    case None =>
    case Some(i) =>
      var init := Split(s[..i]);
      var parts := init + [s[i + 1..]];
      assert Split(s) == parts;
      assert parts[..|parts| - 1] == init;
      assert Join(parts) == Join(init) + [DOT] + s[i + 1..];
      JoinSplit(s[..i]);
      assert s[..i] + [DOT] + s[i + 1..] == s;
  }

  /** A string without dots splits into itself. */
  lemma SplitDotFree(t: string)
    requires DOT !in t
    ensures Split(t) == [t]
  {
  }

  /** The last dot of `s + "." + t` is the last dot of `t`, or else the dot between them. */
  lemma LastDotConcat(s: string, t: string)
    ensures LastDot(s + [DOT] + t) == match LastDot(t)
      case None => Some(|s|)
      case Some(j) => Some(|s| + 1 + j)
  {
    var w := s + [DOT] + t;
    match LastDot(t)
    case None =>
      assert w[|s| + 1..] == t;
      LastDotAt(w, |s|);
    case Some(j) =>
      assert w[|s| + 1 + j + 1..] == t[j + 1..];
      LastDotAt(w, |s| + 1 + j);
  }

  /** Splitting distributes over a dot: the parts of `s` followed by the parts of `t`. */
  lemma {:induction false} SplitAtDot(s: string, t: string)
    ensures Split(s + [DOT] + t) == Split(s) + Split(t)
    decreases |t|
  {
    var w := s + [DOT] + t;
    LastDotConcat(s, t);
    match LastDot(t)
    case None =>
      assert w[..|s|] == s;
      assert w[|s| + 1..] == t;
      assert Split(w) == Split(s) + [t];
    case Some(j) =>
      var k := |s| + 1 + j;
      assert w[..k] == s + [DOT] + t[..j];
      assert w[k + 1..] == t[j + 1..];
      assert Split(w) == Split(w[..k]) + [w[k + 1..]];
      SplitAtDot(s, t[..j]);
      assert Split(t) == Split(t[..j]) + [t[j + 1..]];
  }

  /** `Split` and `Join` are inverse on lists of dot-free components. */
  lemma {:induction false} SplitJoin(parts: seq<string>)
    requires |parts| >= 1
    requires forall i :: 0 <= i < |parts| ==> DOT !in parts[i]
    ensures Split(Join(parts)) == parts
    decreases |parts|
  {
    if |parts| == 1 {
      SplitDotFree(parts[0]);
    } else {
      var init := parts[..|parts| - 1];
      SplitJoin(init);
      SplitAtDot(Join(init), parts[|parts| - 1]);
      SplitDotFree(parts[|parts| - 1]);
      assert init + [parts[|parts| - 1]] == parts;
    }
  }

  // ---------------------------------------------------------------------
  // `Path::file_stem` and `Path::extension` on a file name
  // ---------------------------------------------------------------------

  /**
   * A file name cut at its last dot, as Rust does before answering `file_stem`
   * and `extension`: `..`, a name without a dot and a name whose only dot is
   * its first character have no extension part.
   */
  function SplitFileName(name: string): (r: (Option<string>, Option<string>))
  {
    if name == ".." then (Some(name), None)
    else
      match LastDot(name)
      case None => (None, Some(name))
      case Some(i) =>
        if i == 0 then (Some(name), None)
        else (Some(name[..i]), Some(name[i + 1..]))
  }

  /** `Path::extension`: present only when the name has a non-empty part before its last dot. */
  function Extension(name: string): Option<string>
  {
    var (before, after) := SplitFileName(name);
    if before.Some? && after.Some? then after else None
  }

  /** `Path::file_stem`: the part before the last dot, or the whole name when there is no extension. */
  function FileStem(name: string): Option<string>
  {
    var (before, after) := SplitFileName(name);
    if before.Some? then before else after
  }

  const REGION_EXTENSION: string := "mca"

  /** What the enumerator's extension filter accepts, stated without Rust's path rules. */
  predicate EndsInMca(name: string)
  {
    |name| > 4 && name[|name| - 4..] == ".mca"
  }

  /** A name has extension `mca` exactly when it ends in `.mca` after a non-empty stem, which is then its stem. */
  lemma McaExtension(name: string)
    ensures Extension(name) == Some(REGION_EXTENSION) <==> EndsInMca(name)
    ensures EndsInMca(name) ==> FileStem(name) == Some(name[..|name| - 4])
  {
    if EndsInMca(name) {
      var i := |name| - 4;
      assert name[i..] == ".mca";
      assert name[i] == DOT;
      assert name[i + 1..] == "mca";
      LastDotAt(name, i);
    }
    if Extension(name) == Some(REGION_EXTENSION) {
      var i := LastDot(name).value;
      assert name[i + 1..] == "mca";
      assert name[i..] == [DOT] + name[i + 1..];
    }
  }

  // ---------------------------------------------------------------------
  // `str::parse::<usize>`
  // ---------------------------------------------------------------------

  predicate IsDigit(c: char) { '0' <= c <= '9' }

  predicate AllDigits(s: string) { forall i :: 0 <= i < |s| ==> IsDigit(s[i]) }

  function DigitValue(c: char): nat
    requires IsDigit(c)
  {
    (c as int) - ('0' as int)
  }

  function DigitChar(d: nat): char
    requires d < 10
  {
    ('0' as int + d) as char
  }

  /** The number a string of decimal digits denotes (most significant first). */
  function DigitsValue(s: string): nat
    requires AllDigits(s)
    decreases |s|
  {
    if |s| == 0 then 0
    else DigitsValue(s[..|s| - 1]) * 10 + DigitValue(s[|s| - 1])
  }

  /**
   * Rust's unsigned `from_str`: an optional leading `+`, then one or more
   * ASCII digits whose value fits in a `usize`. A leading `-` is not a digit
   * for an unsigned type and is rejected.
   */
  function ParseUsize(s: string): Option<USize>
  {
    if |s| == 0 then None
    else if (s[0] == '+' || s[0] == '-') && |s| == 1 then None
    else
      var digits := if s[0] == '+' then s[1..] else s;
      if AllDigits(digits) && DigitsValue(digits) < USIZE_MODULUS then Some(DigitsValue(digits))
      else None
  }

  /**
   * `s.parse::<usize>().unwrap_or(0)`: a text that does not parse reads as
   * 0, so a nonzero reading always comes from a successful parse.
   */
  function ParseComponent(s: string): (r: USize)
    ensures ParseUsize(s).None? ==> r == 0
    ensures r != 0 ==> ParseUsize(s) == Some(r)
  {
    ParseUsize(s).GetOr(0)
  }

  /** The canonical decimal rendering of `n`, as a region file name spells a coordinate. */
  function Decimal(n: nat): (s: string)
    ensures |s| >= 1 && AllDigits(s) && DOT !in s
    decreases n
  {
    if n < 10 then [DigitChar(n)]
    else Decimal(n / 10) + [DigitChar(n % 10)]
  }

  lemma {:induction false} DecimalValue(n: nat)
    ensures DigitsValue(Decimal(n)) == n
    decreases n
  {
    if n >= 10 {
      DecimalValue(n / 10);
      var s := Decimal(n);
      assert s[..|s| - 1] == Decimal(n / 10);
    }
  }

  /** Parsing inverts decimal rendering for every `usize`. */
  lemma ParseDecimal(n: USize)
    ensures ParseUsize(Decimal(n)) == Some(n)
    ensures ParseComponent(Decimal(n)) == n
  {
    DecimalValue(n);
    assert IsDigit(Decimal(n)[0]);
  }

  /** A component with a minus sign never parses: negative coordinates read as 0. */
  lemma NegativeIsZero(digits: string)
    ensures ParseUsize("-" + digits) == None
    ensures ParseComponent("-" + digits) == 0
  {
    var s := "-" + digits;
    assert s[0] == '-' && !IsDigit(s[0]);
  }

  /** A component holding any character other than a digit or a leading `+` reads as 0. */
  lemma NonNumericIsZero(s: string, i: nat)
    requires i < |s| && !IsDigit(s[i]) && !(i == 0 && s[0] == '+')
    ensures ParseUsize(s) == None
    ensures ParseComponent(s) == 0
  {
    if |s| > 1 && s[0] == '+' {
      assert s[1..][i - 1] == s[i];
    }
  }

  /** An empty component, or a lone `+`, reads as 0. */
  lemma EmptyIsZero()
    ensures ParseComponent("") == 0
    ensures ParseComponent("+") == 0
  {
  }

  /** A run of digits, with or without a leading `+`, parses to its value when that fits in a `usize`. */
  lemma DigitsParse(digits: string)
    requires |digits| > 0 && AllDigits(digits) && DigitsValue(digits) < USIZE_MODULUS
    ensures ParseUsize(digits) == Some(DigitsValue(digits))
    ensures ParseUsize("+" + digits) == Some(DigitsValue(digits))
    ensures ParseComponent(digits) == DigitsValue(digits)
    ensures ParseComponent("+" + digits) == DigitsValue(digits)
  {
    assert ("+" + digits)[1..] == digits;
    assert IsDigit(digits[0]);
  }

  /** A run of digits too large for a `usize` reads as 0, with or without a leading `+`. */
  lemma OverflowIsZero(digits: string)
    requires |digits| > 0 && AllDigits(digits) && DigitsValue(digits) >= USIZE_MODULUS
    ensures ParseComponent(digits) == 0
    ensures ParseComponent("+" + digits) == 0
  {
    assert ("+" + digits)[1..] == digits;
    assert IsDigit(digits[0]);
  }

  // ---------------------------------------------------------------------
  // Region coordinates from a file stem
  // ---------------------------------------------------------------------

  datatype Coordinates = Coordinates(x: USize, y: USize)

  /**
   * The lenient coordinate decoding of the region processor: drop the first
   * dot-separated component, take `y` from the last remaining one and `x`
   * from the one before it; a missing or unparsable component reads as 0,
   * and a stem that is not valid text reads as (0, 0).
   */
  function RegionCoordinates(stem: Option<string>): (r: Coordinates)
    ensures stem.None? ==> r == Coordinates(0, 0)
    ensures r.y != 0 ==> stem.Some? && |Split(stem.value)| >= 2
                         && ParseUsize(Split(stem.value)[|Split(stem.value)| - 1]) == Some(r.y)
    ensures r.x != 0 ==> stem.Some? && |Split(stem.value)| >= 3
                         && ParseUsize(Split(stem.value)[|Split(stem.value)| - 2]) == Some(r.x)
  {
    match stem
    case None => Coordinates(0, 0)
    case Some(s) =>
      assert ParseComponent("0") == 0 by {
        assert DigitsValue("0") == DigitsValue("") * 10 + DigitValue('0');
      }
      var rest := Split(s)[1..];
      var y := ParseComponent(if |rest| >= 1 then rest[|rest| - 1] else "0");
      var x := ParseComponent(if |rest| >= 2 then rest[|rest| - 2] else "0");
      Coordinates(x, y)
  }

  /** Only the last two components count, whatever precedes them. */
  lemma LastTwoComponents(prefix: string, a: string, b: string)
    requires DOT !in a && DOT !in b
    ensures RegionCoordinates(Some(prefix + [DOT] + a + [DOT] + b))
         == Coordinates(ParseComponent(a), ParseComponent(b))
  {
    SplitAtDot(prefix + [DOT] + a, b);
    SplitAtDot(prefix, a);
    SplitDotFree(a);
    SplitDotFree(b);
    assert prefix + [DOT] + a + [DOT] + b == (prefix + [DOT] + a) + [DOT] + b;
  }

  /** A stem with a single dot yields only `y`; `x` falls back to 0. */
  lemma OneComponent(prefix: string, b: string)
    requires DOT !in prefix && DOT !in b
    ensures RegionCoordinates(Some(prefix + [DOT] + b)) == Coordinates(0, ParseComponent(b))
  {
    SplitAtDot(prefix, b);
    SplitDotFree(prefix);
    SplitDotFree(b);
    assert ParseComponent("0") == 0 by {
      assert DigitsValue("0") == DigitsValue("") * 10 + DigitValue('0');
    }
  }

  /** A stem without dots has no coordinate components at all. */
  lemma NoComponents(stem: string)
    requires DOT !in stem
    ensures RegionCoordinates(Some(stem)) == Coordinates(0, 0)
  {
    SplitDotFree(stem);
    assert DigitsValue("0") == DigitsValue("") * 10 + DigitValue('0');
  }

  /** The stem of the region file for coordinates (x, y): `r.<x>.<y>`. */
  function RegionStem(x: nat, y: nat): string
  {
    "r" + [DOT] + Decimal(x) + [DOT] + Decimal(y)
  }

  /** Decoding recovers the coordinates a region file name encodes. */
  lemma CoordinatesRoundTrip(x: USize, y: USize)
    ensures RegionCoordinates(Some(RegionStem(x, y))) == Coordinates(x, y)
  {
    LastTwoComponents("r", Decimal(x), Decimal(y));
    ParseDecimal(x);
    ParseDecimal(y);
  }

  /** A region with a negative x coordinate, `r.-<a>.<y>`, is reported at x = 0. */
  lemma NegativeCoordinate(a: nat, y: USize)
    ensures RegionCoordinates(Some("r" + [DOT] + "-" + Decimal(a) + [DOT] + Decimal(y))) == Coordinates(0, y)
  {
    var neg := "-" + Decimal(a);
    assert DOT !in neg by {
      assert neg[0] != DOT;
      assert neg[1..] == Decimal(a);
    }
    assert "r" + [DOT] + "-" + Decimal(a) + [DOT] + Decimal(y) == "r" + [DOT] + neg + [DOT] + Decimal(y);
    LastTwoComponents("r", neg, Decimal(y));
    NegativeIsZero(Decimal(a));
    ParseDecimal(y);
  }

  /** The region file `r.3.7.mca` decodes to x = 3, y = 7. */
  lemma ExampleStem()
    ensures RegionCoordinates(Some("r.3.7")) == Coordinates(3, 7)
  {
    CoordinatesRoundTrip(3, 7);
    assert Decimal(3) == "3" && Decimal(7) == "7";
    assert RegionStem(3, 7) == "r.3.7";
  }
}
