/** The PSF token codec (src/de/snx/psf/util/DataBuilder.java).

    The medium is a sequence of UTF-16 code units. A short-form token is one
    unit holding the text's length (FileWriter.write(int) keeps the low 16
    bits), followed by the text. A STRING payload is written in long form: its
    decimal length as a short-form token, then the raw characters. Reading
    past the end of the input yields -1, which a `(char)` cast turns into
    0xFFFF. */
module PsfDataBuilder {
  import opened JavaLang
  import opened PsfDataType
  import opened PsfDataObject

  // ---------------------------------------------------------------------
  // Writing
  // ---------------------------------------------------------------------

  /** `buildDataText(t)`: the length unit, then the characters. */
  function Token(t: JString): (r: JString)
    ensures |r| == |t| + 1
  {
    [|t| % 0x10000] + t
  }

  /** A data set can be written unless a non-STRING value is null. */
  predicate Writable(o: DataObject)
  {
    o.dtype == STRING || o.data.Some?
  }

  /** The object as `buildDataSet` leaves it: a null STRING payload is replaced by "". */
  function AsWritten(o: DataObject): (r: DataObject)
    ensures r.key == o.key && r.dtype == o.dtype && r.data.Some? == Writable(o)
    ensures o.data.Some? ==> r == o
  {
    if o.dtype == STRING && o.data.None? then o.(data := Some([])) else o
  }

  /** `buildDataSet(o)`: key token, `type.name()` token, then the value, in long
      form for STRING and in short form otherwise. */
  function EncodeDataObject(o: DataObject): JString
    requires Writable(o)
  {
    Token(o.key) + Token(Name(o.dtype)) + EncodeValue(o.dtype, AsWritten(o).data.value)
  }

  /** The value part of a data set with tag `t`. */
  function EncodeValue(t: DataType, d: JString): JString
  {
    if t == STRING then Token(ToDecimal(|d|)) + d else Token(d)
  }

  // ---------------------------------------------------------------------
  // Reading
  // ---------------------------------------------------------------------

  /** `getDataText()`: a length unit; 0 or end of stream gives "", otherwise that
      many characters are read. */
  function DecodeText(input: JString, pos: nat): (r: (JString, nat))
    requires pos <= |input|
    ensures pos <= r.1 <= |input|
    ensures pos < |input| ==> pos < r.1
    ensures pos == |input| ==> r == ([], pos)
  {
    var (l, p) := ReadUnit(input, pos);
    if l <= 0 then ([], p) else ReadChars(input, p, l)
  }

  /** The file version under which STRING payloads were still written in short form. */
  const VERSION_3_0: JString := Lit("3.0")

  /** The key and type-name tokens that open a data set. */
  function DecodeHeader(input: JString, pos: nat): (r: (JString, JString, nat))
    requires pos <= |input|
    ensures pos <= r.2 <= |input|
  {
    var (key, p1) := DecodeText(input, pos);
    var (name, p2) := DecodeText(input, p1);
    (key, name, p2)
  }

  /** The value of a data set with tag `t`: short form when the file version is
      "3.0" or the tag is not STRING, long form (decimal length token, then raw
      characters) otherwise. */
  function DecodeValue(input: JString, pos: nat, t: DataType, version: JString): (r: Result<(JString, nat)>)
    requires pos <= |input|
    ensures r.Ok? ==> pos <= r.value.1 <= |input|
  {
    if version == VERSION_3_0 || t != STRING then
      Ok(DecodeText(input, pos))
    else
      var (lt, p) := DecodeText(input, pos);
      match ParseDecimal(lt, JavaInt)
      case None => Err(NumberFormat)
      case Some(n) => Ok(ReadChars(input, p, n))
  }

  /** `getDataObject()`: key token, type-name token resolved by `valueOf`, then the value. */
  function DecodeDataObject(input: JString, pos: nat, version: JString): (r: Result<(DataObject, nat)>)
    requires pos <= |input|
    ensures r.Ok? ==> pos <= r.value.1 <= |input|
    ensures r.Ok? ==> r.value.0.data.Some?
  {
    var (key, name, p) := DecodeHeader(input, pos);
    match ValueOf(name)
    case Err(e) => Err(e)
    case Ok(t) =>
      match DecodeValue(input, p, t, version)
      case Err(e) => Err(e)
      case Ok((d, q)) => Ok((DataObject(key, t, Some(d)), q))
  }

  // ---------------------------------------------------------------------
  // Round trips
  // ---------------------------------------------------------------------

  /** `getDataText` reads back what `buildDataText` wrote, consuming exactly 1 + |t| units. */
  lemma DecodeTextOfToken(input: JString, pos: nat, t: JString)
    requires |t| < 0x10000 && At(input, pos, Token(t))
    ensures DecodeText(input, pos) == (t, pos + 1 + |t|)
  {
    AtSplit(input, pos, [|t|], t);
    if |t| > 0 {
      ReadCharsAt(input, pos + 1, t);
    }
  }

  /** A length unit of 0 gives "" after consuming only that unit; at the end of
      the stream the result is "" and nothing is consumed. */
  lemma DecodeTextEmpty(input: JString, pos: nat)
    requires pos <= |input|
    requires pos == |input| || input[pos] == 0
    ensures DecodeText(input, pos) == ([], if pos == |input| then pos else pos + 1)
  {
  }

  function Pow10(k: nat): nat { if k == 0 then 1 else 10 * Pow10(k - 1) }

  lemma {:induction false} DigitsLength(n: nat, k: nat)
    requires n < Pow10(k)
    ensures |Digits(n)| <= if k == 0 then 1 else k
    decreases k
  {
    if n >= 10 {
      assert k >= 2 by {
        assert Pow10(0) == 1 && Pow10(1) == 10;
      }
      DigitsLength(n / 10, k - 1);
    }
  }

  /** Decimal renderings of Java ints are at most 11 units long. */
  lemma ToDecimalShort(n: int)
    requires INT_MIN <= n <= INT_MAX
    ensures |ToDecimal(n)| <= 11
  {
    assert Pow10(10) == 10000000000;
    DigitsLength(if n < 0 then -n else n, 10);
  }

  /** A data set the token codec can carry: keys and short-form values under
      65536 units, STRING payloads no longer than a Java int can count. */
  predicate Encodable(o: DataObject)
  {
    && Writable(o)
    && |o.key| < 0x10000
    && (o.dtype != STRING ==> |o.data.value| < 0x10000)
    && (o.dtype == STRING && o.data.Some? ==> |o.data.value| <= INT_MAX)
  }

  /** The two header tokens read back as written. */
  lemma HeaderOfTokens(input: JString, pos: nat, key: JString, name: JString)
    requires |key| < 0x10000 && |name| < 0x10000
    requires At(input, pos, Token(key) + Token(name))
    ensures DecodeHeader(input, pos) == (key, name, pos + |Token(key) + Token(name)|)
  {
    hide Token, At, DecodeText;
    AtSplit(input, pos, Token(key), Token(name));
    DecodeTextOfToken(input, pos, key);
    DecodeTextOfToken(input, pos + |Token(key)|, name);
  }

  /** A short-form value reads back as written. */
  lemma ShortValueAt(input: JString, pos: nat, t: DataType, d: JString, version: JString)
    requires version == VERSION_3_0 || t != STRING
    requires |d| < 0x10000 && At(input, pos, Token(d))
    ensures DecodeValue(input, pos, t, version) == Ok((d, pos + |Token(d)|))
  {
    DecodeTextOfToken(input, pos, d);
  }

  /** A long-form STRING value reads back as written, given a length token
      that parses to the payload's length. */
  lemma LongValueAtToken(input: JString, pos: nat, lt: JString, d: JString, version: JString)
    requires version != VERSION_3_0
    requires |lt| < 0x10000 && ParseDecimal(lt, JavaInt) == Some(|d|)
    requires At(input, pos, Token(lt) + d)
    ensures DecodeValue(input, pos, STRING, version) == Ok((d, pos + |Token(lt) + d|))
  {
    hide *;
    AtSplit(input, pos, Token(lt), d);
    AtWithin(input, pos, Token(lt) + d);
    DecodeTextOfToken(input, pos, lt);
    ReadCharsAt(input, pos + |Token(lt)|, d);
    LongValueSteps(input, pos, version, lt, pos + |Token(lt)|, |d|);
  }

  /** The long form's steps, composed: the length token parses to `n`, then `n` characters are read. */
  lemma LongValueSteps(input: JString, pos: nat, version: JString, lt: JString, p: nat, n: int)
    requires pos <= |input| && version != VERSION_3_0
    requires DecodeText(input, pos) == (lt, p) && ParseDecimal(lt, JavaInt) == Some(n)
    ensures DecodeValue(input, pos, STRING, version) == Ok(ReadChars(input, p, n))
  {
  }

  /** The long form `buildDataSet` writes for a STRING payload reads back as written. */
  lemma LongValueAt(input: JString, pos: nat, d: JString, version: JString)
    requires version != VERSION_3_0
    requires |d| <= INT_MAX && At(input, pos, Token(ToDecimal(|d|)) + d)
    ensures DecodeValue(input, pos, STRING, version) == Ok((d, pos + |Token(ToDecimal(|d|)) + d|))
  {
    hide Token, ToDecimal, ParseDecimal, DecodeValue, At, ReadChars, DecodeText;
    ToDecimalShort(|d|);
    DecimalRoundTrip(|d|, JavaInt);
    LongValueAtToken(input, pos, ToDecimal(|d|), d, version);
  }

  /** Any value part `buildDataSet` writes reads back as written when the file
      version is not "3.0". */
  lemma ValueRoundTrip(input: JString, pos: nat, t: DataType, d: JString, version: JString)
    requires version != VERSION_3_0
    requires if t == STRING then |d| <= INT_MAX else |d| < 0x10000
    requires At(input, pos, EncodeValue(t, d))
    ensures DecodeValue(input, pos, t, version) == Ok((d, pos + |EncodeValue(t, d)|))
  {
    hide Token, ToDecimal, DecodeValue, At;
    if t == STRING {
      LongValueAt(input, pos, d, version);
    } else {
      ShortValueAt(input, pos, t, d, version);
    }
  }

  /** For any file version other than "3.0", `getDataObject` reads back what
      `buildDataSet` wrote: same key, tag and text (a null STRING payload reads
      back as ""), consuming exactly the encoding. */
  lemma DataObjectRoundTrip(input: JString, pos: nat, o: DataObject, version: JString)
    requires version != VERSION_3_0 && Encodable(o)
    requires At(input, pos, EncodeDataObject(o))
    ensures DecodeDataObject(input, pos, version) == Ok((AsWritten(o), pos + |EncodeDataObject(o)|))
  {
    hide *;
    EncodableParts(o);
    var w := AsWritten(o);
    var hdr := Token(o.key) + Token(Name(o.dtype));
    var rest := EncodeValue(o.dtype, w.data.value);
    AtSplit(input, pos, hdr, rest);
    NameIsShort(o.dtype);
    HeaderOfTokens(input, pos, o.key, Name(o.dtype));
    ValueOfName(o.dtype);
    ValueRoundTrip(input, pos + |hdr|, o.dtype, w.data.value, version);
    DecodeDataObjectSteps(input, pos, version, o.key, Name(o.dtype), pos + |hdr|, o.dtype, w.data.value, pos + |hdr| + |rest|);
  }

  /** What an encodable object guarantees of its encoding. */
  lemma EncodableParts(o: DataObject)
    requires Encodable(o)
    ensures Writable(o) && |o.key| < 0x10000
    ensures var d := AsWritten(o).data.value; if o.dtype == STRING then |d| <= INT_MAX else |d| < 0x10000
    ensures EncodeDataObject(o) == Token(o.key) + Token(Name(o.dtype)) + EncodeValue(o.dtype, AsWritten(o).data.value)
    ensures AsWritten(o) == DataObject(o.key, o.dtype, Some(AsWritten(o).data.value))
  {
  }

  /** `getDataObject`'s steps, composed. */
  lemma DecodeDataObjectSteps(input: JString, pos: nat, version: JString, key: JString, name: JString, p: nat,
                              t: DataType, d: JString, q: nat)
    requires pos <= |input| && p <= |input|
    requires DecodeHeader(input, pos) == (key, name, p)
    requires ValueOf(name) == Ok(t)
    requires DecodeValue(input, p, t, version) == Ok((d, q))
    ensures DecodeDataObject(input, pos, version) == Ok((DataObject(key, t, Some(d)), q))
  {
  }

  /** Under file version "3.0" every payload, STRING included, is read in short form. */
  lemma OldVersionReadsShortForm(input: JString, pos: nat, key: JString, t: DataType, d: JString)
    requires |key| < 0x10000 && |d| < 0x10000
    requires At(input, pos, Token(key) + Token(Name(t)) + Token(d))
    ensures DecodeDataObject(input, pos, VERSION_3_0)
            == Ok((DataObject(key, t, Some(d)), pos + |Token(key) + Token(Name(t)) + Token(d)|))
  {
    hide *;
    var hdr := Token(key) + Token(Name(t));
    AtSplit(input, pos, hdr, Token(d));
    AtWithin(input, pos, hdr + Token(d));
    NameIsShort(t);
    HeaderOfTokens(input, pos, key, Name(t));
    ValueOfName(t);
    ShortValueAt(input, pos + |hdr|, t, d, VERSION_3_0);
    DecodeDataObjectSteps(input, pos, VERSION_3_0, key, Name(t), pos + |hdr|, t, d, pos + |hdr| + |Token(d)|);
  }

  /** A type token that names no constant makes `getDataObject` fail. */
  lemma UnknownTypeNameFails(input: JString, pos: nat, key: JString, name: JString, version: JString)
    requires |key| < 0x10000 && |name| < 0x10000 && ValueOf(name).Err?
    requires At(input, pos, Token(key) + Token(name))
    ensures DecodeDataObject(input, pos, version) == Err(IllegalArgument)
  {
    HeaderOfTokens(input, pos, key, name);
  }

  // ---------------------------------------------------------------------
  // The builder object
  // ---------------------------------------------------------------------

  /** A DataBuilder bound to a writer (what it has written so far) or to a
      reader or stream (what it will deliver and how far it has read). */
  class DataBuilder {
    const hasWriter: bool
    var written: JString
    const hasReader: bool
    const input: JString
    var pos: nat

    ghost predicate Valid()
      reads this
    {
      pos <= |input|
    }

    /** `new DataBuilder(fileIO, writer)`. */
    constructor Writing()
      ensures Valid() && hasWriter && !hasReader && written == [] && input == []
    {
      hasWriter, written, hasReader, input, pos := true, [], false, [], 0;
    }

    /** `new DataBuilder(fileIO, reader)` (or `stream`). */
    constructor Reading(source: JString)
      ensures Valid() && !hasWriter && hasReader && written == [] && input == source && pos == 0
    {
      hasWriter, written, hasReader, input, pos := false, [], true, source, 0;
    }

    /** `new DataBuilder(fileIO)`: bound to nothing. */
    constructor Unbound()
      ensures Valid() && !hasWriter && !hasReader && written == [] && input == []
    {
      hasWriter, written, hasReader, input, pos := false, [], false, [], 0;
    }

    /** `reader.read()`. */
    method Read() returns (c: int)
      requires Valid()
      modifies this`pos
      ensures Valid()
      ensures (c, pos) == ReadUnit(input, old(pos))
    {
      if pos < |input| {
        c := input[pos];
        pos := pos + 1;
      } else {
        c := -1;
      }
    }

    /** `buildDataText(text)`. */
    method BuildDataText(text: JString) returns (r: Result<()>)
      modifies this`written
      ensures r == if hasWriter then Ok(()) else Err(NullPointer)
      ensures written == if hasWriter then old(written) + Token(text) else old(written)
    {
      if !hasWriter {
        return Err(NullPointer);
      }
      written := written + [|text| % 0x10000];
      written := written + text;
      return Ok(());
    }

    /** `buildDataSet(o)`; the result is the object as the method leaves it
        (a null STRING payload set to ""). A null non-STRING payload throws
        after the key and type tokens have been written. */
    method BuildDataSet(o: DataObject) returns (r: Result<DataObject>)
      modifies this`written
      ensures r.Ok? <==> hasWriter && Writable(o)
      ensures r.Ok? ==> r.value == AsWritten(o) && written == old(written) + EncodeDataObject(o)
      ensures !hasWriter ==> r == Err(NullPointer) && written == old(written)
      ensures hasWriter && !Writable(o) ==>
                r == Err(NullPointer) && written == old(written) + Token(o.key) + Token(Name(o.dtype))
    {
      hide Name, ToDecimal, Lit;
      if !hasWriter {
        return Err(NullPointer);
      }
      var _ := BuildDataText(o.key);
      var _ := BuildDataText(Name(o.dtype));
      ghost var hdr := written;
      var obj := o;
      if obj.dtype == STRING {
        if obj.data.None? {
          obj := SetData(obj, Some([]));
        }
        var d := obj.data.value;
        var temp := ToDecimal(|d|);
        written := written + [|temp| % 0x10000];
        if temp != [] {
          written := written + temp;
        }
        written := written + d;
        assert written == hdr + (Token(temp) + d);
      } else {
        if obj.data.None? {
          return Err(NullPointer);
        }
        var _ := BuildDataText(obj.data.value);
      }
      return Ok(obj);
    }

    /** `n` successive `(char) read()` calls. */
    method ReadRaw(n: int) returns (data: JString)
      requires Valid()
      modifies this`pos
      ensures Valid()
      ensures (data, pos) == ReadChars(input, old(pos), n)
    {
      data := [];
      var i := 0;
      while i < n
        invariant 0 <= i <= (if n > 0 then n else 0) && Valid()
        invariant (data, pos) == ReadChars(input, old(pos), i)
      {
        var c := Read();
        data := data + [CharOf(c)];
        i := i + 1;
      }
    }

    /** `getDataText()`. */
    method GetDataText() returns (r: Result<JString>)
      requires Valid()
      modifies this`pos
      ensures Valid()
      ensures !hasReader ==> r == Err(NullPointer) && pos == old(pos)
      ensures hasReader ==> r == Ok(DecodeText(input, old(pos)).0) && pos == DecodeText(input, old(pos)).1
    {
      if !hasReader {
        return Err(NullPointer);
      }
      var data: JString := [];
      var length := Read();
      if length > 0 {
        data := ReadRaw(length);
      }
      return Ok(data);
    }

    /** `getDataObject()`, with the file version the controller has read. */
    method GetDataObject(version: JString) returns (r: Result<DataObject>)
      requires Valid()
      modifies this`pos
      ensures Valid()
      ensures !hasReader ==> r == Err(NullPointer) && pos == old(pos)
      ensures hasReader ==> match DecodeDataObject(input, old(pos), version)
                            case Ok((o, p)) => r == Ok(o) && pos == p
                            case Err(e) => r == Err(e)
    {
      if !hasReader {
        return Err(NullPointer);
      }
      var rkey := GetDataText();
      var key := rkey.value;
      var rname := GetDataText();
      var name := rname.value;
      assert (key, name, pos) == DecodeHeader(input, old(pos));
      var t :- ValueOf(name);
      ghost var p2 := pos;
      var data: JString;
      if version == VERSION_3_0 || t != STRING {
        var rdata := GetDataText();
        data := rdata.value;
      } else {
        var rlt := GetDataText();
        var lt := rlt.value;
        var parsed := ParseDecimal(lt, JavaInt);
        if parsed.None? {
          return Err(NumberFormat);
        }
        data := ReadRaw(parsed.value);
      }
      assert DecodeValue(input, p2, t, version) == Ok((data, pos));
      return Ok(DataObject(key, t, Some(data)));
    }
  }
}
