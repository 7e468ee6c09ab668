/** The patch bump of `incrementVersion` (src/index.js): the version string is
    split at its dots, the first three pieces are read as numbers and written
    back as `major.minor.(patch + 1)`. */
module Version {
  import opened Text

  datatype Version = Version(major: nat, minor: nat, patch: nat)

  /** The same version one patch release later. */
  function NextPatch(v: Version): Version
  {
    v.(patch := v.patch + 1)
  }

  /** What `version.split(".").map(Number)` destructured into three numbers
      yields, for strings whose first three pieces are decimal digit strings.
      Pieces after the third are never looked at. Any other string is outside
      the model (JavaScript would produce NaN or `undefined` there). */
  function Parse(s: string): (r: Option<Version>)
    ensures r.Some? <==> var parts := Split(s, '.');
      |parts| >= 3 && AllDigits(parts[0]) && AllDigits(parts[1]) && AllDigits(parts[2])
  {
    var parts := Split(s, '.');
    if |parts| >= 3 && AllDigits(parts[0]) && AllDigits(parts[1]) && AllDigits(parts[2]) then
      Some(Version(DecimalValue(parts[0]), DecimalValue(parts[1]), DecimalValue(parts[2])))
    else None
  }

  /** The template literal `${major}.${minor}.${patch}`. */
  function Format(v: Version): string
  {
    NatToDecimal(v.major) + "." + NatToDecimal(v.minor) + "." + NatToDecimal(v.patch)
  }

  /** Reading back a formatted version gives the same three numbers. */
  lemma {:induction false} ParseFormat(v: Version)
    ensures Parse(Format(v)) == Some(v)
  {
    var a, b, c := NatToDecimal(v.major), NatToDecimal(v.minor), NatToDecimal(v.patch);
    DigitsHaveNoDot(a);
    DigitsHaveNoDot(b);
    DigitsHaveNoDot(c);
    var parts := [a, b, c];
    assert Join(parts, '.') == Format(v) by {
      assert parts[1..] == [b, c];
      assert [b, c][1..] == [c];
      assert Join([b, c], '.') == b + ['.'] + c;
      assert Join(parts, '.') == a + ['.'] + (b + ['.'] + c);
    }
    SplitJoin(parts, '.');
  }

  /** `incrementVersion(version)`: the version with its patch number one
      higher, or None when the string is outside the modelled shape. */
  function Increment(version: string): (r: Option<string>)
    ensures r.Some? <==> Parse(version).Some?
    ensures r.Some? ==> Parse(r.value) == Some(NextPatch(Parse(version).value))
  {
    match Parse(version)
    case None => None
    case Some(v) =>
      var next := NextPatch(v);
      ParseFormat(next);
      Some(Format(next))
  }

  /** A bumped version string always differs from the one it was bumped from,
      so the write-back guard `newVersion !== packageJson.version` holds after
      every increment. */
  lemma IncrementChangesVersion(version: string)
    requires Increment(version).Some?
    ensures Increment(version).value != version
  {
    var v := Parse(version).value;
    assert Parse(Increment(version).value) == Some(NextPatch(v)) != Some(v);
  }

  /** Bumping a formatted version formats the bumped version: the result is
      canonical, so leading zeros of the input disappear. */
  lemma IncrementFormatted(v: Version)
    ensures Increment(Format(v)) == Some(Format(NextPatch(v)))
  {
    ParseFormat(v);
  }

  /** The first example the tool is documented with. */
  lemma IncrementExampleOneTwoThree()
    ensures Increment("1.2.3") == Some("1.2.4")
  {
    assert Format(Version(1, 2, 3)) == "1.2.3";
    IncrementFormatted(Version(1, 2, 3));
    assert Format(Version(1, 2, 4)) == "1.2.4";
  }

  /** The second documented example: the patch number grows a digit. */
  lemma IncrementExampleCarriesIntoNewDigit()
    ensures Increment("0.0.9") == Some("0.0.10")
  {
    assert Format(Version(0, 0, 9)) == "0.0.9";
    IncrementFormatted(Version(0, 0, 9));
    assert NatToDecimal(10) == "10";
    assert Format(Version(0, 0, 10)) == "0.0.10";
  }

  /** Leading zeros are dropped, as `Number` drops them. */
  lemma IncrementDropsLeadingZeros()
    ensures Increment("01.02.03") == Some("1.2.4")
  {
    SplitJoin(["01", "02", "03"], '.');
    assert Join(["01", "02", "03"], '.') == "01.02.03";
    assert DecimalValue("01") == 1 by { assert "01"[..1] == "0"; }
    assert DecimalValue("02") == 2 by { assert "02"[..1] == "0"; }
    assert DecimalValue("03") == 3 by { assert "03"[..1] == "0"; }
    assert Format(Version(1, 2, 4)) == "1.2.4";
  }

  /** Pieces after the third are ignored by the destructuring. */
  lemma IncrementIgnoresExtraPieces()
    ensures Increment("1.2.3.4") == Some("1.2.4")
  {
    SplitJoin(["1", "2", "3", "4"], '.');
    assert Join(["1", "2", "3", "4"], '.') == "1.2.3.4";
    assert Format(Version(1, 2, 4)) == "1.2.4";
  }

  /** An empty piece reads as 0, as `Number("")` does. */
  lemma IncrementReadsEmptyPieceAsZero()
    ensures Increment("1..3") == Some("1.0.4")
  {
    SplitJoin(["1", "", "3"], '.');
    assert Join(["1", "", "3"], '.') == "1..3";
    assert Format(Version(1, 0, 4)) == "1.0.4";
  }

  /** A version with only two pieces is outside the modelled shape. */
  lemma IncrementRejectsTwoPieces()
    ensures Increment("1.2") == None
  {
    SplitJoin(["1", "2"], '.');
    assert Join(["1", "2"], '.') == "1.2";
  }
}
