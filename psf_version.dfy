/** The identification lines of a PSF file and the version guard of
    src/de/snx/psf/PSFFileIO.java (`checkVersion`). */
module PsfVersion {
  import opened JavaLang

  const IDENTIFIER: JString := Lit("PSFFileIO V3")
  const OLD_IDENTIFIER: JString := Lit("SNXFileIO V3")
  const VERSION: JString := Lit("3.1.3")
  const UPDATED: JString := Lit("22w18")
  const CREATOR: JString := Lit("Sunnix")

  /** What the regex "." matches: any code unit. */
  predicate AnyUnit(c: Unit) { true }

  /** What the evidently intended regex "\\." matches: the unit '.'. */
  predicate IsDot(c: Unit) { c == 46 }

  /** The loop of `checkVersion` from component `i` on: for the first two
      components both versions have, parse this library's component and the
      file's, and refuse a file whose component is the larger. */
  function CompareFrom(thisV: seq<JString>, fileV: seq<JString>, i: nat): (r: Result<()>)
    ensures r.Err? ==> r.error in {NumberFormat, FileFormat}
    decreases 2 - i
  {
    if i < 2 && i < |thisV| && i < |fileV| then
      match ParseDecimal(thisV[i], JavaInt)
      case None => Err(NumberFormat)
      case Some(a) =>
        match ParseDecimal(fileV[i], JavaInt)
        case None => Err(NumberFormat)
        case Some(b) => if a < b then Err(FileFormat) else CompareFrom(thisV, fileV, i + 1)
    else Ok(())
  }

  /** `checkVersion(version)` with both versions split by `isDelim`: the
      argument comes back unchanged unless the guard throws. */
  function VersionGuard(version: JString, isDelim: Unit -> bool): (r: Result<JString>)
    ensures r.Ok? ==> r.value == version
  {
    match CompareFrom(JavaSplit(VERSION, isDelim), JavaSplit(version, isDelim), 0)
    case Ok(_) => Ok(version)
    case Err(e) => Err(e)
  }

  /** `checkVersion` as written: `split(".")` takes "." as a regex. */
  function CheckVersionAsWritten(version: JString): Result<JString>
  {
    VersionGuard(version, AnyUnit)
  }

  /** Splitting at every unit leaves only empty pieces, and those are all dropped. */
  lemma {:induction false} SplitAnyIsEmpty(s: JString)
    requires s != []
    ensures JavaSplit(s, AnyUnit) == []
  {
    PiecesAllEmpty(s);
    SplitAtDelimiter(s, AnyUnit, 0);
  }

  /** A string with a delimiter in it is cut into pieces, trailing empty ones dropped. */
  lemma SplitAtDelimiter(s: JString, isDelim: Unit -> bool, k: nat)
    requires k < |s| && isDelim(s[k])
    ensures JavaSplit(s, isDelim) == DropTrailingEmpty(Pieces(s, isDelim))
  {
  }

  lemma {:induction false} PiecesAllEmpty(s: JString)
    ensures forall k :: 0 <= k < |Pieces(s, AnyUnit)| ==> Pieces(s, AnyUnit)[k] == []
    decreases |s|
  {
    if s != [] {
      PiecesAllEmpty(s[1..]);
    }
  }

  /** As written, the guard never fires: every version is accepted unchanged. */
  lemma CheckVersionAsWrittenAcceptsAll(version: JString)
    ensures CheckVersionAsWritten(version) == Ok(version)
  {
    SplitAnyIsEmpty(VERSION);
  }

  /** The pieces of "3.1.3" at '.'. */
  lemma CurrentVersionComponents()
    ensures JavaSplit(VERSION, IsDot) == [Lit("3"), Lit("1"), Lit("3")]
  {
    hide Lit;
    LiteralUnits();
    SplitFive(51, 46, 49, 46, 51);
  }

  lemma SplitFive(a: Unit, b: Unit, c: Unit, d: Unit, e: Unit)
    requires !IsDot(a) && IsDot(b) && !IsDot(c) && IsDot(d) && !IsDot(e)
    ensures JavaSplit([a, b, c, d, e], IsDot) == [[a], [c], [e]]
  {
    PiecesSingle(e);
    PiecesDelimCons(d, [e]);
    assert [d] + [e] == [d, e];
    PiecesPlainCons(c, [d, e]);
    assert [c] + [d, e] == [c, d, e];
    PiecesDelimCons(b, [c, d, e]);
    assert [b] + [c, d, e] == [b, c, d, e];
    PiecesPlainCons(a, [b, c, d, e]);
    assert [a] + [b, c, d, e] == [a, b, c, d, e];
    assert Pieces([a, b, c, d, e], IsDot) == [[a], [c], [e]];
    SplitAtDelimiter([a, b, c, d, e], IsDot, 1);
  }

  lemma SplitThree(a: Unit, b: Unit, c: Unit)
    requires !IsDot(a) && IsDot(b) && !IsDot(c)
    ensures JavaSplit([a, b, c], IsDot) == [[a], [c]]
  {
    PiecesSingle(c);
    PiecesDelimCons(b, [c]);
    assert [b] + [c] == [b, c];
    PiecesPlainCons(a, [b, c]);
    assert [a] + [b, c] == [a, b, c];
    assert Pieces([a, b, c], IsDot) == [[a], [c]];
    SplitAtDelimiter([a, b, c], IsDot, 1);
  }

  lemma PiecesSingle(c: Unit)
    requires !IsDot(c)
    ensures Pieces([c], IsDot) == [[c]]
  {
    assert [c][1..] == [];
    var rest := Pieces([c][1..], IsDot);
    assert rest[0] == [] && rest[1..] == [];
    assert [c] + rest[0] == [c];
  }

  lemma PiecesDelimCons(d: Unit, s: JString)
    requires IsDot(d)
    ensures Pieces([d] + s, IsDot) == [[]] + Pieces(s, IsDot)
  {
    assert ([d] + s)[1..] == s;
  }

  lemma PiecesPlainCons(a: Unit, s: JString)
    requires !IsDot(a) && Pieces(s, IsDot)[0] == []
    ensures Pieces([a] + s, IsDot) == [[a]] + Pieces(s, IsDot)[1..]
  {
    assert ([a] + s)[1..] == s;
    assert [a] + Pieces(s, IsDot)[0] == [a];
  }

  /** The units of the literals the version guard meets. */
  lemma LiteralUnits()
    ensures VERSION == [51, 46, 49, 46, 51]
    ensures Lit("3") == [51] && Lit("1") == [49] && Lit("9.0") == [57, 46, 48]
  {
  }

  /** A single decimal digit parses to its value. */
  lemma ParseDigit(d: nat)
    requires d < 10
    ensures ParseDecimal([ZERO + d], JavaInt) == Some(d)
  {
    DecimalRoundTrip(d, JavaInt);
  }

  /** `checkVersion` as evidently intended (split at '.'): a file version is
      accepted, unchanged, exactly when each of its first two components is a
      Java int no larger than the matching component of "3.1.3"; a component
      that is no number is a NumberFormatException, a larger one a
      FileFormatException. */
  lemma {:induction false} VersionGuardMeaning(version: JString)
    ensures var f := JavaSplit(version, IsDot);
            var n := if |f| < 2 then |f| else 2;
            VersionGuard(version, IsDot) == Ok(version) <==>
              forall i :: 0 <= i < n ==> ParseDecimal(f[i], JavaInt).Some? && ParseDecimal(f[i], JavaInt).value <= [3, 1][i]
  {
    CurrentVersionComponents();
    LiteralUnits();
    ParseDigit(3);
    ParseDigit(1);
    CompareFromMeaning(JavaSplit(version, IsDot), 0);
  }

  lemma {:induction false} CompareFromMeaning(f: seq<JString>, i: nat)
    requires i <= 2
    requires ParseDecimal(Lit("3"), JavaInt) == Some(3) && ParseDecimal(Lit("1"), JavaInt) == Some(1)
    ensures var n := if |f| < 2 then |f| else 2;
            CompareFrom([Lit("3"), Lit("1"), Lit("3")], f, i) == Ok(()) <==>
              forall k :: i <= k < n ==> ParseDecimal(f[k], JavaInt).Some? && ParseDecimal(f[k], JavaInt).value <= [3, 1][k]
    decreases 2 - i
  {
    if i < 2 && i < |f| {
      CompareFromMeaning(f, i + 1);
    }
  }

  /** The version this library writes passes the guard. */
  lemma CurrentVersionAccepted()
    ensures VersionGuard(VERSION, IsDot) == Ok(VERSION)
  {
    CurrentVersionComponents();
    LiteralUnits();
    ParseDigit(3);
    ParseDigit(1);
    VersionGuardMeaning(VERSION);
  }

  /** "9.0" (a file from a later major version) passes the guard as written but
      is refused by the intended one. */
  lemma NewerVersionSlipsThrough()
    ensures CheckVersionAsWritten(Lit("9.0")) == Ok(Lit("9.0"))
    ensures VersionGuard(Lit("9.0"), IsDot) == Err(FileFormat)
  {
    hide Lit, ParseDecimal, ToDecimal, Digits, DigitsValue, CheckVersionAsWritten;
    CheckVersionAsWrittenAcceptsAll(Lit("9.0"));
    LiteralUnits();
    SplitThree(57, 46, 48);
    CurrentVersionComponents();
    ParseDigit(3);
    ParseDigit(9);
  }

  /** `checkVersion(version)`, with the components split at '.'. */
  method CheckVersion(version: JString) returns (r: Result<JString>)
    ensures r == VersionGuard(version, IsDot)
  {
    var thisV := JavaSplit(VERSION, IsDot);
    var fileV := JavaSplit(version, IsDot);
    var i := 0;
    while i < 2 && i < |thisV| && i < |fileV|
      invariant 0 <= i <= 2
      invariant CompareFrom(thisV, fileV, 0) == CompareFrom(thisV, fileV, i)
      decreases 2 - i
    {
      var a := ParseDecimal(thisV[i], JavaInt);
      var b := ParseDecimal(fileV[i], JavaInt);
      if a.None? || b.None? {
        return Err(NumberFormat);
      }
      if a.value < b.value {
        return Err(FileFormat);
      }
      i := i + 1;
    }
    return Ok(version);
  }
}
