/** One typed record of a room (src/de/snx/psf/util/DataObject.java): a key, a
    type tag and the value as text; the typed getters check the tag's ordinal
    against inclusive ranges before parsing the text. */
module PsfDataObject {
  import opened JavaLang
  import opened PsfDataType

  /** `data` is None where the source holds a null String. */
  datatype DataObject = DataObject(key: JString, dtype: DataType, data: Option<JString>)

  /** `setType`: only the tag changes. */
  function SetType(o: DataObject, t: DataType): DataObject { o.(dtype := t) }

  /** `setData`: only the text changes. */
  function SetData(o: DataObject, d: Option<JString>): DataObject { o.(data := d) }

  /** `setType` then `setData` keep the key (there is no key setter) and touch nothing else. */
  lemma SettersKeepKey(o: DataObject, t: DataType, d: Option<JString>)
    ensures SetData(SetType(o, t), d) == DataObject(o.key, t, d)
    ensures SetType(o, t).data == o.data && SetData(o, d).dtype == o.dtype
  {
  }

  /** `checkType(b, e)`: the tag's ordinal lies in [b, e], both ends included. */
  predicate CheckType(o: DataObject, b: int, e: int)
  {
    b <= Ordinal(o.dtype) && Ordinal(o.dtype) <= e
  }

  /** `getDataAsString`: the text, whatever the tag. */
  function GetDataAsString(o: DataObject): (r: Option<JString>)
    ensures r == o.data
  {
    o.data
  }

  /** `getDataAsCharacter`: the first code unit; empty (or null) text throws. */
  function GetDataAsCharacter(o: DataObject): (r: Result<Unit>)
    ensures r.Ok? <==> o.data.Some? && o.data.value != []
    ensures r.Ok? ==> r.value == o.data.value[0]
    ensures r.Err? ==> r.error == NullPointer
  {
    match o.data
    case None => Err(NullPointer)
    case Some(d) => if d == [] then Err(NullPointer) else Ok(d[0])
  }

  /** `getDataAsByte`, `getDataAsShort`, `getDataAsInteger`, `getDataAsLong`:
      only the integral tags are accepted, and then the text is parsed as a
      decimal number of the requested width. */
  function GetDataAsIntegral(o: DataObject, kind: IntType): (r: Result<int>)
    ensures r.Ok? <==> o.dtype in {BYTE, SHORT, INTEGER, LONG} && o.data.Some?
                         && ParseDecimal(o.data.value, kind).Some?
    ensures r.Ok? ==> r.value == ParseDecimal(o.data.value, kind).value && kind.Holds(r.value)
    ensures o.dtype in {FLOAT, DOUBLE} <==> r == Err(DecimalNumber)
    ensures o.dtype in {STRING, CHARACTER, BOOLEAN} <==> r == Err(NoNumber)
  {
    if CheckType(o, 2, 5) then
      match o.data
      case None => Err(NumberFormat)
      case Some(d) =>
        match ParseDecimal(d, kind)
        case None => Err(NumberFormat)
        case Some(v) => Ok(v)
    else if CheckType(o, 6, 7) then Err(DecimalNumber)
    else Err(NoNumber)
  }

  /** `getDataAsFloat`, `getDataAsDouble`: integral and floating tags are
      accepted; the result is the text handed to Float.parseFloat /
      Double.parseDouble (which throws NullPointerException on null). */
  function GetDataAsFloating(o: DataObject): (r: Result<JString>)
    ensures r.Ok? <==> o.dtype in {BYTE, SHORT, INTEGER, LONG, FLOAT, DOUBLE} && o.data.Some?
    ensures r.Ok? ==> r.value == o.data.value
    ensures o.dtype in {STRING, CHARACTER, BOOLEAN} <==> r == Err(NoNumber)
  {
    if CheckType(o, 2, 7) then
      match o.data
      case None => Err(NullPointer)
      case Some(d) => Ok(d)
    else Err(NoNumber)
  }

  /** `getDataAsBoolean`: only the BOOLEAN tag is accepted; the value is true
      exactly when the text is "true" ignoring case. */
  function GetDataAsBoolean(o: DataObject): (r: Result<bool>)
    ensures r.Ok? <==> o.dtype == BOOLEAN
    ensures r.Err? ==> r.error == NoBoolean
    ensures r.Ok? ==> (r.value <==> ParseBoolean(o.data))
  {
    if CheckType(o, 8, 8) then Ok(ParseBoolean(o.data)) else Err(NoBoolean)
  }

  /** `getDataAsByte` never yields a value outside -128..127: an out-of-range
      decimal is a NumberFormatException. */
  lemma ByteGetterInRange(o: DataObject)
    requires o.dtype == BYTE && o.data.Some?
    ensures GetDataAsIntegral(o, JavaByte).Ok? ==> -128 <= GetDataAsIntegral(o, JavaByte).value <= 127
    ensures o.data.value == ToDecimal(200) ==> GetDataAsIntegral(o, JavaByte) == Err(NumberFormat)
  {
    if o.data.value == ToDecimal(200) {
      assert ToDecimal(200) == Digits(200);
      DigitsValueOfDigits(200);
      assert Digits(200)[0] == 50;
    }
  }

  /** What the integral getter returns for a text the writers produced. */
  lemma IntegralGetterReadsDecimal(key: JString, t: DataType, kind: IntType, n: int)
    requires t in {BYTE, SHORT, INTEGER, LONG} && kind.Holds(n)
    ensures GetDataAsIntegral(DataObject(key, t, Some(ToDecimal(n))), kind) == Ok(n)
  {
    DecimalRoundTrip(n, kind);
  }
}
