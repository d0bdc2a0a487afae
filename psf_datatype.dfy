/** The PSF type tag (src/de/snx/psf/util/DataType.java): nine constants whose
    `ID`, ordinal and `name()` appear in the file format. */
module PsfDataType {
  import opened JavaLang

  datatype DataType = STRING | CHARACTER | BYTE | SHORT | INTEGER | LONG | FLOAT | DOUBLE | BOOLEAN

  /** The constants in declaration order. */
  const VALUES: seq<DataType> := [STRING, CHARACTER, BYTE, SHORT, INTEGER, LONG, FLOAT, DOUBLE, BOOLEAN]

  /** `ordinal()`: the position of the constant in declaration order. */
  function Ordinal(t: DataType): (r: nat)
    ensures r < |VALUES| && VALUES[r] == t
  {
    match t
    case STRING => 0
    case CHARACTER => 1
    case BYTE => 2
    case SHORT => 3
    case INTEGER => 4
    case LONG => 5
    case FLOAT => 6
    case DOUBLE => 7
    case BOOLEAN => 8
  }

  /** The `ID` field, given explicitly to each constant by its constructor call. */
  function Id(t: DataType): int
  {
    match t
    case STRING => 0
    case CHARACTER => 1
    case BYTE => 2
    case SHORT => 3
    case INTEGER => 4
    case LONG => 5
    case FLOAT => 6
    case DOUBLE => 7
    case BOOLEAN => 8
  }

  /** `name()`: the identifier of the constant, written as the type token of a data set. */
  function Name(t: DataType): JString
  {
    match t
    case STRING => Lit("STRING")
    case CHARACTER => Lit("CHARACTER")
    case BYTE => Lit("BYTE")
    case SHORT => Lit("SHORT")
    case INTEGER => Lit("INTEGER")
    case LONG => Lit("LONG")
    case FLOAT => Lit("FLOAT")
    case DOUBLE => Lit("DOUBLE")
    case BOOLEAN => Lit("BOOLEAN")
  }

  /** `DataType.valueOf(name)`: the constant with exactly that name, or
      IllegalArgumentException when there is none. */
  function ValueOf(name: JString): (r: Result<DataType>)
    ensures r.Ok? ==> Name(r.value) == name
    ensures r.Err? ==> r.error == IllegalArgument
  {
    FindName(name, 0)
  }

  /** The first constant from position `i` of `VALUES` on whose name is `name`. */
  function FindName(name: JString, i: nat): (r: Result<DataType>)
    requires i <= |VALUES|
    ensures r.Ok? ==> Name(r.value) == name
    ensures r.Err? ==> r.error == IllegalArgument
    decreases |VALUES| - i
  {
    if i == |VALUES| then Err(IllegalArgument)
    else if Name(VALUES[i]) == name then Ok(VALUES[i])
    else FindName(name, i + 1)
  }

  /** Exactly nine constants with ordinals 0..8, each equal to its `ID`. */
  lemma OrdinalIsIdAndBijective()
    ensures |VALUES| == 9
    ensures forall i :: 0 <= i < |VALUES| ==> Ordinal(VALUES[i]) == i
    ensures forall t: DataType :: Id(t) == Ordinal(t)
  {
  }

  /** The names are pairwise distinct. */
  lemma NamesAreDistinct(s: DataType, t: DataType)
    requires s != t
    ensures Name(s) != Name(t)
  {
    var a, b := Name(s), Name(t);
    if |a| == |b| {
      assert a[0] != b[0];
    }
  }

  lemma NameIsShort(t: DataType)
    ensures 0 < |Name(t)| < 10
  {
  }

  /** Resolving a name gives back its tag. */
  lemma ValueOfName(t: DataType)
    ensures ValueOf(Name(t)) == Ok(t)
  {
    FindNameFrom(t, 0);
  }

  lemma {:induction false} FindNameFrom(t: DataType, i: nat)
    requires i <= Ordinal(t)
    ensures FindName(Name(t), i) == Ok(t)
    decreases Ordinal(t) - i
  {
    if i < Ordinal(t) {
      OrdinalIsIdAndBijective();
      NamesAreDistinct(VALUES[i], t);
      FindNameFrom(t, i + 1);
    }
  }
}
