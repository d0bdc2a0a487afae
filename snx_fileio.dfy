/** The legacy SNX reader/writer (SNXFileIO/src/de/snx/fileIO/SNXFileIO.java).

    The `write` overloads add (key, type, text) entries to a DataTypeList;
    `close()` writes every entry as one record: the key's length, the key
    shifted by the Caesar shift, the type's ordinal, the data's length and the
    shifted data. `readInData()` reads the records back into a new list, and
    the typed getters look a key up and check its type. The medium is a
    sequence of UTF-16 code units. */
module SnxFileIO {
  import opened JavaLang
  import opened SnxDataTypeList

  /** The shift `caeasar` starts with. */
  const DEFAULT_SHIFT: int := -20

  // ---------------------------------------------------------------------
  // caesar
  // ---------------------------------------------------------------------

  /** `c += k` on a char: the sum cut to its low 16 bits. */
  function Shift(c: Unit, k: int): Unit
  {
    (c + k) % 0x10000
  }

  /** Every unit of `s` shifted by `k`. */
  function Shifted(s: JString, k: int): (r: JString)
    ensures |r| == |s|
    ensures forall i :: 0 <= i < |s| ==> r[i] == Shift(s[i], k)
  {
    seq(|s|, i requires 0 <= i < |s| => Shift(s[i], k))
  }

  lemma ShiftBack(c: Unit, k: int)
    ensures Shift(Shift(c, k), -k) == c
  {
    var q := (c + k) / 0x10000;
    assert Shift(c, k) == c + k - 0x10000 * q;
  }

  /** Shifting back undoes a shift, for every shift and every text: decrypting
      what `caesar(s, true)` gives returns `s`. */
  lemma CaesarRoundTrip(s: JString, k: int)
    ensures Shifted(Shifted(s, k), -k) == s
  {
    forall i | 0 <= i < |s|
      ensures Shifted(Shifted(s, k), -k)[i] == s[i]
    {
      ShiftBack(s[i], k);
    }
  }

  lemma ShiftedAppend(a: JString, b: JString, k: int)
    ensures Shifted(a + b, k) == Shifted(a, k) + Shifted(b, k)
  {
  }

  // ---------------------------------------------------------------------
  // The record codec
  // ---------------------------------------------------------------------

  /** `writeData(key, type, data)` with shift `k`: FileWriter.write(int) keeps
      the low 16 bits of each length. */
  function EncodeRecord(key: JString, e: Entry, k: int): JString
  {
    [|key| % 0x10000] + Shifted(key, k) + [e.0.Ordinal()] + [|e.1| % 0x10000] + Shifted(e.1, k)
  }

  /** What `close()` writes: one record per entry, in list order. */
  function EncodeRecords(keys: seq<JString>, data: seq<Entry>, k: int): JString
    requires |keys| == |data|
  {
    if keys == [] then [] else EncodeRecord(keys[0], data[0], k) + EncodeRecords(keys[1..], data[1..], k)
  }

  /** The `readInData` loop from position `pos`, with the entries read so far
      in `t`: a key length (the loop ends at the end of the stream), that many
      units shifted back, a type ordinal (`values()[n]` throws for anything
      outside 0..8, the end of the stream included), a data length (the -1 of
      the end of the stream reads no data), the data shifted back, then
      `add`. */
  function DecodeFrom(input: JString, pos: nat, k: int, t: Table): (r: Result<(Table, nat)>)
    requires pos <= |input|
    ensures r.Ok? ==> pos <= r.value.1 <= |input|
    decreases |input| - pos
  {
    var (n, p1) := ReadUnit(input, pos);
    if n == -1 then Ok((t, p1))
    else
      var (rawKey, p2) := ReadChars(input, p1, n);
      var (id, p3) := ReadUnit(input, p2);
      match TypeAt(id)
      case Err(e) => Err(e)
      case Ok(ty) =>
        var (dl, p4) := ReadUnit(input, p3);
        var (rawData, p5) := ReadChars(input, p4, dl);
        match Added(t, Shifted(rawKey, -k), ty, Shifted(rawData, -k))
        case Err(e) => Err(e)
        case Ok(u) => DecodeFrom(input, p5, k, u)
  }

  /** The loop ends at the end of the stream with the entries read so far. */
  lemma DecodeFromEnd(input: JString, pos: nat, k: int, t: Table)
    requires pos <= |input| && ReadUnit(input, pos).0 == -1
    ensures DecodeFrom(input, pos, k, t) == Ok((t, ReadUnit(input, pos).1))
  {
  }

  /** A record whose type ordinal lies outside 0..8 ends the loop out of bounds. */
  lemma DecodeFromBadType(input: JString, pos: nat, k: int, t: Table, n: int, p1: nat, rawKey: JString, p2: nat, id: int, p3: nat)
    requires pos <= |input| && ReadUnit(input, pos) == (n, p1) && n != -1
    requires ReadChars(input, p1, n) == (rawKey, p2) && ReadUnit(input, p2) == (id, p3)
    requires TypeAt(id).Err?
    ensures DecodeFrom(input, pos, k, t) == Err(IndexOutOfBounds)
  {
  }

  /** A whole record: the loop fails where `add` fails, and goes on after the
      record with the entry added otherwise. */
  lemma DecodeFromRecord(input: JString, pos: nat, k: int, t: Table, n: int, p1: nat, rawKey: JString, p2: nat, id: int, p3: nat,
                         ty: Type, dl: int, p4: nat, rawData: JString, p5: nat)
    requires pos <= |input| && ReadUnit(input, pos) == (n, p1) && n != -1
    requires ReadChars(input, p1, n) == (rawKey, p2) && ReadUnit(input, p2) == (id, p3)
    requires TypeAt(id) == Ok(ty) && ReadUnit(input, p3) == (dl, p4) && ReadChars(input, p4, dl) == (rawData, p5)
    ensures p5 <= |input|
    ensures var a := Added(t, Shifted(rawKey, -k), ty, Shifted(rawData, -k));
            DecodeFrom(input, pos, k, t) == if a.Err? then Err(a.error) else DecodeFrom(input, p5, k, a.value)
  {
  }

  /** Every key and every data text fits its 16-bit length unit. */
  predicate Encodable(t: Table)
  {
    !t.Corrupted() && forall i :: 0 <= i < |t.keys| ==> |t.keys[i]| < 0x10000 && |t.data[i].1| < 0x10000
  }

  /** The parts of a record, each where the record puts it. */
  lemma RecordParts(input: JString, pos: nat, key: JString, e: Entry, k: int)
    requires At(input, pos, EncodeRecord(key, e, k))
    ensures At(input, pos, [|key| % 0x10000])
    ensures At(input, pos + 1, Shifted(key, k))
    ensures At(input, pos + 1 + |key|, [e.0.Ordinal()])
    ensures At(input, pos + 2 + |key|, [|e.1| % 0x10000])
    ensures At(input, pos + 3 + |key|, Shifted(e.1, k))
  {
    hide Shifted, At;
    var a := [|key| % 0x10000];
    var b := Shifted(key, k);
    var c := [e.0.Ordinal()];
    var d := [|e.1| % 0x10000];
    var f := Shifted(e.1, k);
    assert EncodeRecord(key, e, k) == a + (b + (c + (d + f)));
    AtSplit(input, pos, a, b + (c + (d + f)));
    AtSplit(input, pos + 1, b, c + (d + f));
    AtSplit(input, pos + 1 + |key|, c, d + f);
    AtSplit(input, pos + 2 + |key|, d, f);
  }

  /** One record is read back as the entry it was written from, and the loop
      goes on after it with that entry added. */
  lemma DecodeRecord(input: JString, pos: nat, key: JString, e: Entry, k: int, t: Table)
    requires |key| < 0x10000 && |e.1| < 0x10000
    requires At(input, pos, EncodeRecord(key, e, k))
    requires Added(t, key, e.0, e.1).Ok?
    ensures pos + 3 + |key| + |e.1| <= |input|
    ensures DecodeFrom(input, pos, k, t) == DecodeFrom(input, pos + 3 + |key| + |e.1|, k, Added(t, key, e.0, e.1).value)
  {
    hide *;
    RecordFields(input, pos, key, e, k);
    AtWithin(input, pos, EncodeRecord(key, e, k));
    EncodeRecordLength(key, e, k);
    DecodeFromRecord(input, pos, k, t, |key|, pos + 1, Shifted(key, k), pos + 1 + |key|, e.0.Ordinal(), pos + 2 + |key|,
                     e.0, |e.1|, pos + 3 + |key|, Shifted(e.1, k), pos + 3 + |key| + |e.1|);
  }

  lemma RecordFields(input: JString, pos: nat, key: JString, e: Entry, k: int)
    requires |key| < 0x10000 && |e.1| < 0x10000
    requires At(input, pos, EncodeRecord(key, e, k))
    ensures ReadUnit(input, pos) == (|key|, pos + 1)
    ensures ReadChars(input, pos + 1, |key|) == (Shifted(key, k), pos + 1 + |key|)
    ensures ReadUnit(input, pos + 1 + |key|) == (e.0.Ordinal(), pos + 2 + |key|)
    ensures ReadUnit(input, pos + 2 + |key|) == (|e.1|, pos + 3 + |key|)
    ensures ReadChars(input, pos + 3 + |key|, |e.1|) == (Shifted(e.1, k), pos + 3 + |key| + |e.1|)
    ensures Shifted(Shifted(key, k), -k) == key && Shifted(Shifted(e.1, k), -k) == e.1
    ensures TypeAt(e.0.Ordinal()) == Ok(e.0)
  {
    hide ReadChars, Shifted, EncodeRecord;
    RecordParts(input, pos, key, e, k);
    assert input[pos] == [|key| % 0x10000][0];
    assert input[pos + 1 + |key|] == [e.0.Ordinal()][0];
    assert input[pos + 2 + |key|] == [|e.1| % 0x10000][0];
    ReadCharsAt(input, pos + 1, Shifted(key, k));
    ReadCharsAt(input, pos + 3 + |key|, Shifted(e.1, k));
    CaesarRoundTrip(key, k);
    CaesarRoundTrip(e.1, k);
  }

  lemma EncodeRecordLength(key: JString, e: Entry, k: int)
    ensures |EncodeRecord(key, e, k)| == 3 + |key| + |e.1|
  {
  }

  lemma EncodeRecordsUnfold(keys: seq<JString>, data: seq<Entry>, k: int)
    requires |keys| == |data|
    ensures keys == [] ==> EncodeRecords(keys, data, k) == []
    ensures keys != [] ==> EncodeRecords(keys, data, k) == EncodeRecord(keys[0], data[0], k) + EncodeRecords(keys[1..], data[1..], k)
  {
  }

  /** Moving the first key of `b` to the end of `a` keeps the keys unique,
      and that key was not among those of `a`. */
  lemma DistinctHead(a: seq<JString>, b: seq<JString>)
    requires Distinct(a + b) && b != []
    ensures b[0] !in a && Distinct((a + [b[0]]) + b[1..])
  {
    assert (a + [b[0]]) + b[1..] == a + b;
    assert (a + b)[|a|] == b[0];
    forall j | 0 <= j < |a|
      ensures a[j] != b[0]
    {
      assert (a + b)[j] == a[j];
    }
  }

  lemma EncodableTail(rest: Table)
    requires Encodable(rest) && rest.keys != []
    ensures |rest.keys[0]| < 0x10000 && |rest.data[0].1| < 0x10000
    ensures Encodable(Table(rest.keys[1..], rest.data[1..]))
  {
    assert forall i :: 0 <= i < |rest.keys| - 1 ==> rest.keys[1..][i] == rest.keys[i + 1] && rest.data[1..][i] == rest.data[i + 1];
  }

  /** Reading the records of `rest`, up to the end of the stream, after the
      entries of `t`: every entry of `rest` is added in order, provided the
      keys of both stay unique. */
  lemma {:induction false} DecodeRecords(input: JString, pos: nat, k: int, t: Table, rest: Table)
    requires Encodable(rest) && !t.Corrupted()
    requires Distinct(t.keys + rest.keys)
    requires pos <= |input| && input[pos..] == EncodeRecords(rest.keys, rest.data, k)
    ensures DecodeFrom(input, pos, k, t) == Ok((Table(t.keys + rest.keys, t.data + rest.data), |input|))
    decreases |rest.keys|
  {
    hide DecodeFrom, EncodeRecord, EncodeRecords, Added, ReadChars, Shifted, Distinct;
    EncodeRecordsUnfold(rest.keys, rest.data, k);
    if rest.keys == [] {
      assert t.keys + rest.keys == t.keys && t.data + rest.data == t.data;
      assert |input[pos..]| == 0;
      DecodeFromEnd(input, pos, k, t);
    } else {
      var key, e := rest.keys[0], rest.data[0];
      var tail := Table(rest.keys[1..], rest.data[1..]);
      var r := EncodeRecord(key, e, k);
      EncodeRecordLength(key, e, k);
      assert input[pos..pos + |r|] == input[pos..][..|r|];
      var p5 := pos + 3 + |key| + |e.1|;
      assert input[p5..] == input[pos..][|r|..];
      DistinctHead(t.keys, rest.keys);
      EncodableTail(rest);
      var u := Table(t.keys + [key], t.data + [e]);
      AddedAppends(t, key, e.0, e.1);
      DecodeRecord(input, pos, key, e, k, t);
      assert t.keys + rest.keys == u.keys + tail.keys;
      assert t.data + rest.data == u.data + tail.data;
      DecodeRecords(input, p5, k, u, tail);
    }
  }

  /** `readInData` on exactly what `close()` wrote, with the same shift, rebuilds
      the list: the same keys in the same order with the same types and data. */
  lemma FileRoundTrip(t: Table, k: int)
    requires t.Valid() && Encodable(t)
    ensures DecodeFrom(EncodeRecords(t.keys, t.data, k), 0, k, EMPTY) == Ok((t, |EncodeRecords(t.keys, t.data, k)|))
  {
    hide DecodeFrom, EncodeRecords, EncodeRecord, Encodable, Shifted, ReadChars, Added, Lookup;
    var input := EncodeRecords(t.keys, t.data, k);
    assert input[0..] == input;
    assert [] + t.keys == t.keys && [] + t.data == t.data;
    DecodeRecords(input, 0, k, EMPTY, t);
  }

  /** An empty stream gives an empty list. */
  lemma EmptyStreamEmptyList(k: int)
    ensures DecodeFrom([], 0, k, EMPTY) == Ok((EMPTY, 0))
  {
  }

  /** No record for no key; the whole lists as their own prefixes. */
  lemma EncodeRecordsEnds(keys: seq<JString>, data: seq<Entry>, k: int)
    requires |keys| == |data|
    ensures EncodeRecords(keys[..0], data[..0], k) == []
    ensures keys[..|keys|] == keys && data[..|keys|] == data
  {
  }

  lemma {:induction false} EncodeRecordsSnoc(keys: seq<JString>, data: seq<Entry>, k: int, i: nat)
    requires |keys| == |data| && i < |keys|
    ensures EncodeRecords(keys[..i + 1], data[..i + 1], k) == EncodeRecords(keys[..i], data[..i], k) + EncodeRecord(keys[i], data[i], k)
    decreases i
  {
    if i == 0 {
      assert keys[..1][1..] == [] && data[..1][1..] == [];
    } else {
      EncodeRecordsSnoc(keys[1..], data[1..], k, i - 1);
      assert keys[..i + 1][1..] == keys[1..][..i] && data[..i + 1][1..] == data[1..][..i];
      assert keys[..i][1..] == keys[1..][..i - 1] && data[..i][1..] == data[1..][..i - 1];
    }
  }

  // ---------------------------------------------------------------------
  // Typed values
  // ---------------------------------------------------------------------

  /** `checkType(o)`: the id of the object's class, -1 for any class outside the nine. */
  function CheckType(v: JValue): (id: int)
    ensures -1 <= id < |VALUES|
  {
    match v
    case JStr(_) => 0
    case JInt(_) => 1
    case JByte(_) => 2
    case JLong(_) => 3
    case JShort(_) => 4
    case JFloat(_) => 5
    case JDouble(_) => 6
    case JBool(_) => 7
    case JChar(_) => 8
    case _ => -1
  }

  /** What the `write(key, x)` overload for the class of `x` stores: the tag and
      the text (Integer/Byte/Long/Short.toString, Float/Double.toString kept as
      text, "1" or "0" for a boolean, the character itself). The ids of
      `checkType` are the ordinals of these tags. */
  function Stored(v: JValue): (r: Option<Entry>)
    ensures r.Some? <==> CheckType(v) != -1
    ensures r.Some? ==> r.value.0.Ordinal() == CheckType(v)
  {
    match v
    case JStr(s) => Some((STRING, s))
    case JInt(n) => Some((INTEGER, ToDecimal(n)))
    case JByte(n) => Some((BYTE, ToDecimal(n)))
    case JLong(n) => Some((LONG, ToDecimal(n)))
    case JShort(n) => Some((SHORT, ToDecimal(n)))
    case JFloat(f) => Some((FLOAT, f))
    case JDouble(f) => Some((DOUBLE, f))
    case JBool(z) => Some((BOOLEAN, if z then Lit("1") else Lit("0")))
    case JChar(c) => Some((CHARACTER, [c]))
    case _ => None
  }

  /** What a getter returns for a missing key: null, -1, false or '?' (the
      floating -1 kept as its text). */
  function Sentinel(want: Type): JValue
  {
    match want
    case STRING => JNull
    case INTEGER => JInt(-1)
    case BYTE => JByte(-1)
    case LONG => JLong(-1)
    case SHORT => JShort(-1)
    case FLOAT => JFloat(Lit("-1.0"))
    case DOUBLE => JDouble(Lit("-1.0"))
    case BOOLEAN => JBool(false)
    case CHARACTER => JChar(63)
  }

  /** The parse a getter applies once the type matched. */
  function Parsed(want: Type, d: JString): Result<JValue>
  {
    match want
    case STRING => Ok(JStr(d))
    case INTEGER => if ParseDecimal(d, JavaInt).Some? then Ok(JInt(ParseDecimal(d, JavaInt).value)) else Err(NumberFormat)
    case BYTE => if ParseDecimal(d, JavaByte).Some? then Ok(JByte(ParseDecimal(d, JavaByte).value)) else Err(NumberFormat)
    case LONG => if ParseDecimal(d, JavaLong).Some? then Ok(JLong(ParseDecimal(d, JavaLong).value)) else Err(NumberFormat)
    case SHORT => if ParseDecimal(d, JavaShort).Some? then Ok(JShort(ParseDecimal(d, JavaShort).value)) else Err(NumberFormat)
    case FLOAT => Ok(JFloat(d))
    case DOUBLE => Ok(JDouble(d))
    case BOOLEAN => if ParseDecimal(d, JavaInt).Some? then Ok(JBool(ParseDecimal(d, JavaInt).value == 1)) else Err(NumberFormat)
    case CHARACTER => if |d| > 0 then Ok(JChar(d[0])) else Err(IndexOutOfBounds)
  }

  /** The typed getter asking for `want` (`read` for STRING, `readInt` for
      INTEGER, ...) on what `get(key)` found. Only `read` insists that
      `readInData` has run, and only `read` also takes a CHARACTER entry. */
  function Getter(found: Result<Option<Entry>>, want: Type, dataRead: bool): (r: Result<JValue>)
    ensures want == STRING && !dataRead ==> r == Err(NullPointer)
    ensures (want != STRING || dataRead) && found == Ok(None) ==> r == Ok(Sentinel(want))
    ensures r.Ok? && found.Ok? && found.value.Some? ==>
              found.value.value.0 == want || (want == STRING && found.value.value.0 == CHARACTER)
    ensures r.Ok? ==> (want == STRING && r.value == JNull) || (Stored(r.value).Some? && Stored(r.value).value.0 == want)
    ensures r.Ok? && want == INTEGER ==> r.value.JInt?
  {
    if want == STRING && !dataRead then Err(NullPointer)
    else
      match found
      case Err(e) => Err(e)
      case Ok(None) => Ok(Sentinel(want))
      case Ok(Some((ty, d))) =>
        if ty == want || (want == STRING && ty == CHARACTER) then Parsed(want, d) else Err(TypeMismatch)
  }

  lemma BooleanTexts()
    ensures ParseDecimal(Lit("1"), JavaInt) == Some(1) && ParseDecimal(Lit("0"), JavaInt) == Some(0)
  {
    assert Lit("1") == ToDecimal(1) && Lit("0") == ToDecimal(0);
    DecimalRoundTrip(1, JavaInt);
    DecimalRoundTrip(0, JavaInt);
  }

  /** The getter of a value's own type gives back what its `write` overload
      stored (a String only once `readInData` has run). */
  lemma GetterRoundTrip(v: JValue, dataRead: bool)
    requires v.Valid() && Stored(v).Some?
    requires dataRead || Stored(v).value.0 != STRING
    ensures Getter(Ok(Some(Stored(v).value)), Stored(v).value.0, dataRead) == Ok(v)
  {
    match v
    case JInt(n) => DecimalRoundTrip(n, JavaInt);
    case JByte(n) => DecimalRoundTrip(n, JavaByte);
    case JLong(n) => DecimalRoundTrip(n, JavaLong);
    case JShort(n) => DecimalRoundTrip(n, JavaShort);
    case JBool(_) => BooleanTexts();
    case _ =>
  }

  // ---------------------------------------------------------------------
  // Arrays and ArrayLists
  // ---------------------------------------------------------------------

  /** `write(key, Object[])`/`readArray` or `write(key, ArrayList)`/`readArrayList`. */
  datatype Container = ObjectArray | ArrayList
  {
    function Prefix(): JString
    {
      if ObjectArray? then Lit("array_") else Lit("arrayList_")
    }

    function SizeSuffix(): JString
    {
      if ObjectArray? then Lit("_length") else Lit("_size")
    }
  }

  /** The key of the element type id. */
  function TypeKey(c: Container, key: JString): JString
  {
    c.Prefix() + key
  }

  /** The key of the element count. */
  function SizeKey(c: Container, key: JString): JString
  {
    c.Prefix() + key + c.SizeSuffix()
  }

  /** The key of element `i`. */
  function ElementKey(c: Container, key: JString, i: nat): JString
  {
    c.Prefix() + key + Lit("_") + ToDecimal(i)
  }

  /** The element writes for the indices below `n`: each element is cast to
      the class of the first and written under its element key. A null is
      unboxed for the primitive classes (a NullPointerException); an object of
      any other class fails the cast (a ClassCastException). */
  function WriteElements(t: Table, c: Container, key: JString, ty: Type, xs: seq<JValue>, n: nat): (r: Result<Table>)
    requires n <= |xs|
  {
    if n == 0 then Ok(t)
    else
      match WriteElements(t, c, key, ty, xs, n - 1)
      case Err(e) => Err(e)
      case Ok(u) =>
        var s := Stored(xs[n - 1]);
        if xs[n - 1].JNull? then Err(NullPointer)
        else if s.None? || s.value.0 != ty then Err(ClassCast) else Added(u, ElementKey(c, key, n - 1), ty, s.value.1)
  }

  /** A failed element write ends the loop: later indices fail the same way. */
  lemma {:induction false} WriteElementsFailed(t: Table, c: Container, key: JString, ty: Type, xs: seq<JValue>, i: nat, n: nat)
    requires i <= n <= |xs| && WriteElements(t, c, key, ty, xs, i).Err?
    ensures WriteElements(t, c, key, ty, xs, n) == WriteElements(t, c, key, ty, xs, i)
    decreases n
  {
    hide Added, Stored, ElementKey;
    if n > i {
      WriteElementsFailed(t, c, key, ty, xs, i, n - 1);
    }
  }

  /** One element write, once the writes up to `n` succeeded. */
  lemma WriteElementsStep(t: Table, c: Container, key: JString, ty: Type, xs: seq<JValue>, n: nat)
    requires 0 < n <= |xs| && WriteElements(t, c, key, ty, xs, n).Ok?
    ensures WriteElements(t, c, key, ty, xs, n - 1).Ok?
    ensures Stored(xs[n - 1]).Some? && Stored(xs[n - 1]).value.0 == ty
    ensures WriteElements(t, c, key, ty, xs, n)
            == Added(WriteElements(t, c, key, ty, xs, n - 1).value, ElementKey(c, key, n - 1), ty, Stored(xs[n - 1]).value.1)
  {
  }

  lemma WriteElementsNone(t: Table, c: Container, key: JString, ty: Type, xs: seq<JValue>)
    ensures WriteElements(t, c, key, ty, xs, 0) == Ok(t)
  {
  }

  /** One more element write after the writes below `n` succeeded. */
  lemma WriteElementsNext(t: Table, c: Container, key: JString, ty: Type, xs: seq<JValue>, n: nat)
    requires n < |xs| && WriteElements(t, c, key, ty, xs, n).Ok?
    ensures WriteElements(t, c, key, ty, xs, n + 1)
            == var s := Stored(xs[n]);
               if xs[n].JNull? then Err(NullPointer)
               else if s.None? || s.value.0 != ty then Err(ClassCast)
               else Added(WriteElements(t, c, key, ty, xs, n).value, ElementKey(c, key, n), ty, s.value.1)
  {
  }

  /** No null in a String array. The source stores a null String element and
      fails only when `close` writes it; an entry of the list, a type and a
      text, cannot hold that null. */
  predicate NoNullString(xs: seq<JValue>)
  {
    xs != [] && xs[0].JStr? ==> forall i :: 0 <= i < |xs| ==> !xs[i].JNull?
  }

  /** `write(key, array)`: the first element decides the type (an empty array
      has none: index out of bounds; an unsupported class is refused); then the
      type id and the count are written as ints, then the elements. */
  function ArrayWrite(t: Table, hasWriter: bool, c: Container, key: JString, xs: seq<JValue>): Result<Table>
    requires NoNullString(xs)
  {
    if xs == [] then Err(IndexOutOfBounds)
    else
      var id := CheckType(xs[0]);
      if id == -1 then Err(UnsupportedType)
      else if !hasWriter then Err(NullPointer)
      else
        match Added(t, TypeKey(c, key), INTEGER, ToDecimal(id))
        case Err(e) => Err(e)
        case Ok(t1) =>
          match Added(t1, SizeKey(c, key), INTEGER, ToDecimal(|xs|))
          case Err(e) => Err(e)
          case Ok(t2) => WriteElements(t2, c, key, VALUES[id], xs, |xs|)
  }

  lemma ArrayWriteUnfold(t: Table, hasWriter: bool, c: Container, key: JString, xs: seq<JValue>)
    requires NoNullString(xs)
    ensures ArrayWrite(t, hasWriter, c, key, xs)
            == if xs == [] then Err(IndexOutOfBounds)
               else
                 var id := CheckType(xs[0]);
                 if id == -1 then Err(UnsupportedType)
                 else if !hasWriter then Err(NullPointer)
                 else
                   match Added(t, TypeKey(c, key), INTEGER, ToDecimal(id))
                   case Err(e) => Err(e)
                   case Ok(t1) =>
                     match Added(t1, SizeKey(c, key), INTEGER, ToDecimal(|xs|))
                     case Err(e) => Err(e)
                     case Ok(t2) => WriteElements(t2, c, key, VALUES[id], xs, |xs|)
  {
  }

  /** The list after the element writes for the indices below `n`, also when
      one of them fails: the writes before the failing one stay. */
  function ElementsReached(t: Table, c: Container, key: JString, ty: Type, xs: seq<JValue>, n: nat): Table
    requires n <= |xs|
  {
    if n == 0 then t
    else
      match WriteElements(t, c, key, ty, xs, n)
      case Ok(u) => u
      case Err(_) => ElementsReached(t, c, key, ty, xs, n - 1)
  }

  /** The list after `write(key, array)`, also when it fails: an empty array,
      an unsupported class or a missing writer change nothing; a taken key or
      an element of another class leaves the writes made before it. */
  function ArrayWriteReached(t: Table, hasWriter: bool, c: Container, key: JString, xs: seq<JValue>): Table
    requires NoNullString(xs)
  {
    if xs == [] || CheckType(xs[0]) == -1 || !hasWriter then t
    else
      match Added(t, TypeKey(c, key), INTEGER, ToDecimal(CheckType(xs[0])))
      case Err(_) => t
      case Ok(t1) =>
        match Added(t1, SizeKey(c, key), INTEGER, ToDecimal(|xs|))
        case Err(_) => t1
        case Ok(t2) => ElementsReached(t2, c, key, VALUES[CheckType(xs[0])], xs, |xs|)
  }

  /** When every element write succeeds, the list reached is the one written. */
  lemma ElementsReachedOk(t: Table, c: Container, key: JString, ty: Type, xs: seq<JValue>, n: nat)
    requires n <= |xs| && WriteElements(t, c, key, ty, xs, n).Ok?
    ensures ElementsReached(t, c, key, ty, xs, n) == WriteElements(t, c, key, ty, xs, n).value
  {
  }

  /** When element `i` is the first to fail, the list reached is the one after
      the writes below `i`, however many elements follow. */
  lemma {:induction false} ElementsReachedAfterFailure(t: Table, c: Container, key: JString, ty: Type, xs: seq<JValue>, i: nat, n: nat)
    requires i < n <= |xs|
    requires WriteElements(t, c, key, ty, xs, i).Ok? && WriteElements(t, c, key, ty, xs, i + 1).Err?
    ensures ElementsReached(t, c, key, ty, xs, n) == WriteElements(t, c, key, ty, xs, i).value
    decreases n
  {
    hide Added, Stored, ElementKey;
    WriteElementsFailed(t, c, key, ty, xs, i + 1, n);
    if n == i + 1 {
      ElementsReachedOk(t, c, key, ty, xs, i);
    } else {
      ElementsReachedAfterFailure(t, c, key, ty, xs, i, n - 1);
    }
  }

  /** The list reached is the list after the first `k` element writes, where
      `k` is all of them or the last before the first failure. */
  lemma {:induction false} ElementsReachedWritten(t: Table, c: Container, key: JString, ty: Type, xs: seq<JValue>, n: nat)
    requires n <= |xs|
    ensures exists k :: 0 <= k <= n && WriteElements(t, c, key, ty, xs, k) == Ok(ElementsReached(t, c, key, ty, xs, n))
                        && (k == n || WriteElements(t, c, key, ty, xs, k + 1).Err?)
    decreases n
  {
    hide *;
    if n == 0 {
      WriteElementsNone(t, c, key, ty, xs);
      ElementsReachedOk(t, c, key, ty, xs, 0);
      assert WriteElements(t, c, key, ty, xs, 0) == Ok(ElementsReached(t, c, key, ty, xs, 0));
    } else if WriteElements(t, c, key, ty, xs, n).Ok? {
      ElementsReachedOk(t, c, key, ty, xs, n);
      assert WriteElements(t, c, key, ty, xs, n) == Ok(ElementsReached(t, c, key, ty, xs, n));
    } else {
      ElementsReachedFailed(t, c, key, ty, xs, n);
      ElementsReachedWritten(t, c, key, ty, xs, n - 1);
      var k :| 0 <= k <= n - 1 && WriteElements(t, c, key, ty, xs, k) == Ok(ElementsReached(t, c, key, ty, xs, n - 1))
               && (k == n - 1 || WriteElements(t, c, key, ty, xs, k + 1).Err?);
      assert WriteElements(t, c, key, ty, xs, k) == Ok(ElementsReached(t, c, key, ty, xs, n))
             && (k == n || WriteElements(t, c, key, ty, xs, k + 1).Err?);
    }
  }

  lemma ElementsReachedFailed(t: Table, c: Container, key: JString, ty: Type, xs: seq<JValue>, n: nat)
    requires 0 < n <= |xs| && WriteElements(t, c, key, ty, xs, n).Err?
    ensures ElementsReached(t, c, key, ty, xs, n) == ElementsReached(t, c, key, ty, xs, n - 1)
  {
    hide WriteElements;
  }

  /** A successful `write(key, array)` reaches the list it returns. */
  lemma ArrayWriteReachedOk(t: Table, hasWriter: bool, c: Container, key: JString, xs: seq<JValue>)
    requires NoNullString(xs) && ArrayWrite(t, hasWriter, c, key, xs).Ok?
    ensures ArrayWriteReached(t, hasWriter, c, key, xs) == ArrayWrite(t, hasWriter, c, key, xs).value
  {
    var id := CheckType(xs[0]);
    var t2 := Added(Added(t, TypeKey(c, key), INTEGER, ToDecimal(id)).value, SizeKey(c, key), INTEGER, ToDecimal(|xs|)).value;
    ElementsReachedOk(t2, c, key, VALUES[id], xs, |xs|);
  }

  /** The element writes only add keys. */
  lemma {:induction false} WriteElementsKeepsKeys(t: Table, c: Container, key: JString, ty: Type, xs: seq<JValue>, n: nat, k: JString)
    requires n <= |xs| && WriteElements(t, c, key, ty, xs, n).Ok? && k in t.keys
    ensures k in WriteElements(t, c, key, ty, xs, n).value.keys
    decreases n
  {
    hide Stored, ElementKey;
    if n > 0 {
      WriteElementsKeepsKeys(t, c, key, ty, xs, n - 1, k);
    }
  }

  /** Once `write(key, array)` has written the type id, its key stays taken
      whatever fails later, so writing an array under the same key again is
      refused as a duplicate. */
  lemma ArrayWriteKeepsTypeKey(t: Table, hasWriter: bool, c: Container, key: JString, xs: seq<JValue>, ys: seq<JValue>)
    requires xs != [] && CheckType(xs[0]) != -1 && NoNullString(xs) && hasWriter && TypeKey(c, key) !in t.keys
    ensures TypeKey(c, key) in ArrayWriteReached(t, hasWriter, c, key, xs).keys
    ensures ys != [] && CheckType(ys[0]) != -1 && NoNullString(ys) ==> ArrayWrite(ArrayWriteReached(t, hasWriter, c, key, xs), hasWriter, c, key, ys) == Err(DuplicateKey)
  {
    var id := CheckType(xs[0]);
    var t1 := Added(t, TypeKey(c, key), INTEGER, ToDecimal(id)).value;
    assert TypeKey(c, key) in t1.keys;
    match Added(t1, SizeKey(c, key), INTEGER, ToDecimal(|xs|))
    case Err(_) =>
    case Ok(t2) =>
      assert TypeKey(c, key) in t2.keys;
      ElementsReachedWritten(t2, c, key, VALUES[id], xs, |xs|);
      var k :| 0 <= k <= |xs| && WriteElements(t2, c, key, VALUES[id], xs, k) == Ok(ElementsReached(t2, c, key, VALUES[id], xs, |xs|))
               && (k == |xs| || WriteElements(t2, c, key, VALUES[id], xs, k + 1).Err?);
      WriteElementsKeepsKeys(t2, c, key, VALUES[id], xs, k, TypeKey(c, key));
  }

  /** Element writes of elements of the written class fail only on a taken
      key or a null. */
  lemma {:induction false} WriteElementsErrors(t: Table, c: Container, key: JString, ty: Type, xs: seq<JValue>, n: nat)
    requires n <= |xs|
    requires forall j :: 0 <= j < n && !xs[j].JNull? ==> CheckType(xs[j]) != -1 && VALUES[CheckType(xs[j])] == ty
    ensures WriteElements(t, c, key, ty, xs, n).Err? ==>
              WriteElements(t, c, key, ty, xs, n).error in {NullPointer, DuplicateKey}
    decreases n
  {
    hide ElementKey, ToDecimal;
    if n > 0 {
      WriteElementsErrors(t, c, key, ty, xs, n - 1);
    }
  }

  /** A null element after elements of the first's class: the cast unboxes
      it, so the write never succeeds and fails with a NullPointerException or,
      earlier, on a taken key; never with a ClassCastException. */
  lemma NullElementNeverCasts(t: Table, hasWriter: bool, c: Container, key: JString, xs: seq<JValue>, i: nat)
    requires NoNullString(xs) && 0 < i < |xs| && xs[i].JNull?
    requires CheckType(xs[0]) != -1 && forall j :: 0 <= j < i ==> CheckType(xs[j]) == CheckType(xs[0])
    ensures ArrayWrite(t, hasWriter, c, key, xs).Err?
    ensures ArrayWrite(t, hasWriter, c, key, xs).error in {NullPointer, DuplicateKey}
  {
    hide WriteElements, ElementKey, ToDecimal, TypeKey, SizeKey;
    var id := CheckType(xs[0]);
    var ty := VALUES[id];
    match Added(t, TypeKey(c, key), INTEGER, ToDecimal(id))
    case Err(_) =>
    case Ok(t1) =>
      match Added(t1, SizeKey(c, key), INTEGER, ToDecimal(|xs|))
      case Err(_) =>
      case Ok(t2) =>
        WriteElementsErrors(t2, c, key, ty, xs, i);
        if WriteElements(t2, c, key, ty, xs, i).Ok? {
          WriteElementsNext(t2, c, key, ty, xs, i);
          WriteElementsFailed(t2, c, key, ty, xs, i + 1, |xs|);
        } else {
          WriteElementsFailed(t2, c, key, ty, xs, i, |xs|);
        }
  }

  /** The element reads for the indices below `n`, each with the getter of the type. */
  function ReadElements(t: Table, dataRead: bool, c: Container, key: JString, ty: Type, n: nat): (r: Result<seq<JValue>>)
    ensures r.Ok? ==> |r.value| == n
  {
    if n == 0 then Ok([])
    else
      match ReadElements(t, dataRead, c, key, ty, n - 1)
      case Err(e) => Err(e)
      case Ok(vs) =>
        match Getter(Lookup(t, ElementKey(c, key, n - 1)), ty, dataRead)
        case Err(e) => Err(e)
        case Ok(v) => Ok(vs + [v])
  }

  /** A failed element read ends the loop: later indices fail the same way. */
  lemma {:induction false} ReadElementsFailed(t: Table, dataRead: bool, c: Container, key: JString, ty: Type, i: nat, n: nat)
    requires i <= n && ReadElements(t, dataRead, c, key, ty, i).Err?
    ensures ReadElements(t, dataRead, c, key, ty, n) == ReadElements(t, dataRead, c, key, ty, i)
    decreases n
  {
    hide Getter, Lookup, ElementKey;
    if n > i {
      ReadElementsFailed(t, dataRead, c, key, ty, i, n - 1);
    }
  }

  /** One element read, once the reads below `n` succeeded. */
  lemma ReadElementsStep(t: Table, dataRead: bool, c: Container, key: JString, ty: Type, n: nat)
    requires 0 < n && ReadElements(t, dataRead, c, key, ty, n - 1).Ok?
    ensures ReadElements(t, dataRead, c, key, ty, n)
            == match Getter(Lookup(t, ElementKey(c, key, n - 1)), ty, dataRead)
               case Err(e) => Err(e)
               case Ok(v) => Ok(ReadElements(t, dataRead, c, key, ty, n - 1).value + [v])
  {
  }

  /** `readArray(key)` / `readArrayList(key)`: a missing type id (read as -1)
      gives null; an id outside 0..8 is out of bounds; a negative count is a
      NegativeArraySizeException for an array and an empty ArrayList. */
  function ArrayRead(t: Table, dataRead: bool, c: Container, key: JString): (r: Result<Option<seq<JValue>>>)
  {
    var tv := Getter(Lookup(t, TypeKey(c, key)), INTEGER, dataRead);
    if tv.Err? then Err(tv.error)
    else if tv.value.i == -1 then Ok(None)
    else if TypeAt(tv.value.i).Err? then Err(IndexOutOfBounds)
    else
      var sv := Getter(Lookup(t, SizeKey(c, key)), INTEGER, dataRead);
      if sv.Err? then Err(sv.error)
      else if sv.value.i < 0 then (if c == ObjectArray then Err(NegativeArraySize) else Ok(Some([])))
      else
        match ReadElements(t, dataRead, c, key, TypeAt(tv.value.i).value, sv.value.i)
        case Err(e) => Err(e)
        case Ok(vs) => Ok(Some(vs))
  }

  /** Every element is a value of one of the nine classes, the same for all. */
  predicate Homogeneous(xs: seq<JValue>)
  {
    forall i :: 0 <= i < |xs| ==> xs[i].Valid() && Stored(xs[i]).Some? && CheckType(xs[i]) == CheckType(xs[0])
  }

  /** A homogeneous array holds no null. */
  lemma HomogeneousNoNull(xs: seq<JValue>)
    requires Homogeneous(xs)
    ensures NoNullString(xs)
  {
  }

  /** The element writes keep the list valid, and whatever was found before
      is still found. */
  lemma {:induction false} ElementsKept(t: Table, c: Container, key: JString, ty: Type, xs: seq<JValue>, n: nat, k: JString)
    requires t.Valid() && n <= |xs| && WriteElements(t, c, key, ty, xs, n).Ok?
    ensures WriteElements(t, c, key, ty, xs, n).value.Valid()
    ensures Lookup(t, k).Ok? && Lookup(t, k).value.Some? ==> Lookup(WriteElements(t, c, key, ty, xs, n).value, k) == Lookup(t, k)
    decreases n
  {
    if n > 0 {
      hide *;
      WriteElementsStep(t, c, key, ty, xs, n);
      ElementsKept(t, c, key, ty, xs, n - 1, k);
      var u := WriteElements(t, c, key, ty, xs, n - 1).value;
      var s := Stored(xs[n - 1]).value;
      var ek := ElementKey(c, key, n - 1);
      AddedKeepsValid(u, ek, ty, s.1);
      if Lookup(t, k).Ok? && Lookup(t, k).value.Some? {
        FoundAfterAdd(u, ek, ty, s.1, k);
      }
    }
  }

  /** After the element writes up to `n`, every element below `n` is found with
      what was stored for it. */
  lemma ElementsFound(t: Table, c: Container, key: JString, ty: Type, xs: seq<JValue>, n: nat)
    requires t.Valid() && n <= |xs| && WriteElements(t, c, key, ty, xs, n).Ok?
    ensures forall i :: 0 <= i < n ==>
              (Stored(xs[i]).Some? && Lookup(WriteElements(t, c, key, ty, xs, n).value, ElementKey(c, key, i)) == Ok(Some((ty, Stored(xs[i]).value.1))))
  {
    forall i | 0 <= i < n
      ensures Stored(xs[i]).Some? && Lookup(WriteElements(t, c, key, ty, xs, n).value, ElementKey(c, key, i)) == Ok(Some((ty, Stored(xs[i]).value.1)))
    {
      ElementFound(t, c, key, ty, xs, n, i);
    }
  }

  /** Element `i` is found after the element writes up to any `n` beyond it. */
  lemma {:induction false} ElementFound(t: Table, c: Container, key: JString, ty: Type, xs: seq<JValue>, n: nat, i: nat)
    requires t.Valid() && i < n <= |xs| && WriteElements(t, c, key, ty, xs, n).Ok?
    ensures Stored(xs[i]).Some?
    ensures Lookup(WriteElements(t, c, key, ty, xs, n).value, ElementKey(c, key, i)) == Ok(Some((ty, Stored(xs[i]).value.1)))
    decreases n
  {
    hide *;
    WriteElementsStep(t, c, key, ty, xs, n);
    ElementsKept(t, c, key, ty, xs, n - 1, []);
    var u := WriteElements(t, c, key, ty, xs, n - 1).value;
    var s := Stored(xs[n - 1]).value;
    var ek := ElementKey(c, key, n - 1);
    if i < n - 1 {
      ElementFound(t, c, key, ty, xs, n - 1, i);
      FoundAfterAdd(u, ek, ty, s.1, ElementKey(c, key, i));
    } else {
      LookupAfterAdd(u, ek, ty, s.1, ek);
    }
  }

  /** Element `i` is a value of type `ty` whose stored entry is found under its element key. */
  predicate ElementStored(t: Table, c: Container, key: JString, ty: Type, xs: seq<JValue>, i: nat)
    requires i < |xs|
  {
    xs[i].Valid() && Stored(xs[i]).Some? && Stored(xs[i]).value.0 == ty
    && Lookup(t, ElementKey(c, key, i)) == Ok(Some(Stored(xs[i]).value))
  }

  /** Every element below `n` is stored: `ElementStored` for each index, one at a time. */
  predicate StoredBelow(t: Table, c: Container, key: JString, ty: Type, xs: seq<JValue>, n: nat)
    requires n <= |xs|
    decreases n
  {
    n == 0 || (StoredBelow(t, c, key, ty, xs, n - 1) && ElementStored(t, c, key, ty, xs, n - 1))
  }

  /** `StoredBelow` holds when each element below `n` is stored. */
  lemma {:induction false} StoredBelowOfAll(t: Table, c: Container, key: JString, ty: Type, xs: seq<JValue>, n: nat)
    requires n <= |xs| && forall i :: 0 <= i < n ==> ElementStored(t, c, key, ty, xs, i)
    ensures StoredBelow(t, c, key, ty, xs, n)
    decreases n
  {
    hide ElementStored;
    if n > 0 {
      StoredBelowOfAll(t, c, key, ty, xs, n - 1);
    }
  }

  /** Reading the elements back, element by element. */
  lemma {:induction false} ElementsReadBack(t: Table, dataRead: bool, c: Container, key: JString, ty: Type, xs: seq<JValue>, n: nat)
    requires n <= |xs| && (dataRead || ty != STRING)
    requires StoredBelow(t, c, key, ty, xs, n)
    ensures ReadElements(t, dataRead, c, key, ty, n) == Ok(xs[..n])
    decreases n
  {
    hide *;
    if n == 0 {
      ReadElementsNone(t, dataRead, c, key, ty, xs);
    } else {
      StoredBelowStep(t, c, key, ty, xs, n);
      ElementsReadBack(t, dataRead, c, key, ty, xs, n - 1);
      ReadBackNext(t, dataRead, c, key, ty, xs, n);
    }
  }

  /** A stored element read back after the ones below it. */
  lemma ReadBackNext(t: Table, dataRead: bool, c: Container, key: JString, ty: Type, xs: seq<JValue>, n: nat)
    requires 0 < n <= |xs| && (dataRead || ty != STRING)
    requires ReadElements(t, dataRead, c, key, ty, n - 1) == Ok(xs[..n - 1])
    requires ElementStored(t, c, key, ty, xs, n - 1)
    ensures ReadElements(t, dataRead, c, key, ty, n) == Ok(xs[..n])
  {
    hide *;
    ElementStoredGetter(t, dataRead, c, key, ty, xs, n - 1);
    ReadBackStep(t, dataRead, c, key, ty, xs, n);
  }

  lemma StoredBelowStep(t: Table, c: Container, key: JString, ty: Type, xs: seq<JValue>, n: nat)
    requires 0 < n <= |xs| && StoredBelow(t, c, key, ty, xs, n)
    ensures StoredBelow(t, c, key, ty, xs, n - 1) && ElementStored(t, c, key, ty, xs, n - 1)
  {
  }

  lemma ReadElementsNone(t: Table, dataRead: bool, c: Container, key: JString, ty: Type, xs: seq<JValue>)
    ensures ReadElements(t, dataRead, c, key, ty, 0) == Ok(xs[..0])
  {
  }

  /** The getter of the type reads a stored element back. */
  lemma ElementStoredGetter(t: Table, dataRead: bool, c: Container, key: JString, ty: Type, xs: seq<JValue>, i: nat)
    requires i < |xs| && (dataRead || ty != STRING) && ElementStored(t, c, key, ty, xs, i)
    ensures Getter(Lookup(t, ElementKey(c, key, i)), ty, dataRead) == Ok(xs[i])
  {
    GetterRoundTrip(xs[i], dataRead);
  }

  lemma ReadBackStep(t: Table, dataRead: bool, c: Container, key: JString, ty: Type, xs: seq<JValue>, n: nat)
    requires 0 < n <= |xs| && ReadElements(t, dataRead, c, key, ty, n - 1) == Ok(xs[..n - 1])
    requires Getter(Lookup(t, ElementKey(c, key, n - 1)), ty, dataRead) == Ok(xs[n - 1])
    ensures ReadElements(t, dataRead, c, key, ty, n) == Ok(xs[..n])
  {
    hide Getter, Lookup, ElementKey;
    assert xs[..n] == xs[..n - 1] + [xs[n - 1]];
  }

  /** The parts of a successful array write: the type id, then the count, then the elements. */
  lemma ArrayWriteSteps(t: Table, c: Container, key: JString, xs: seq<JValue>)
    requires NoNullString(xs) && ArrayWrite(t, true, c, key, xs).Ok?
    ensures xs != [] && 0 <= CheckType(xs[0]) < |VALUES|
    ensures Added(t, TypeKey(c, key), INTEGER, ToDecimal(CheckType(xs[0]))).Ok?
    ensures var t1 := Added(t, TypeKey(c, key), INTEGER, ToDecimal(CheckType(xs[0]))).value;
            Added(t1, SizeKey(c, key), INTEGER, ToDecimal(|xs|)).Ok?
            && ArrayWrite(t, true, c, key, xs)
               == WriteElements(Added(t1, SizeKey(c, key), INTEGER, ToDecimal(|xs|)).value, c, key, VALUES[CheckType(xs[0])], xs, |xs|)
  {
  }

  /** The read of an array whose type id and count are found and whose elements read back. */
  lemma ArrayReadSteps(t: Table, dataRead: bool, c: Container, key: JString, id: int, n: int)
    requires Getter(Lookup(t, TypeKey(c, key)), INTEGER, dataRead) == Ok(JInt(id)) && 0 <= id < |VALUES|
    requires Getter(Lookup(t, SizeKey(c, key)), INTEGER, dataRead) == Ok(JInt(n)) && 0 <= n
    requires ReadElements(t, dataRead, c, key, VALUES[id], n).Ok?
    ensures ArrayRead(t, dataRead, c, key) == Ok(Some(ReadElements(t, dataRead, c, key, VALUES[id], n).value))
  {
  }

  /** An int written as its decimal text is read back by `readInt`. */
  lemma IntGetter(n: int, dataRead: bool)
    requires JavaInt.Holds(n)
    ensures Getter(Ok(Some((INTEGER, ToDecimal(n)))), INTEGER, dataRead) == Ok(JInt(n))
  {
    GetterRoundTrip(JInt(n), dataRead);
  }

  /** `readArray` (or `readArrayList`) after a successful `write` of the same
      key gives back the same elements, provided Strings are read only after
      `readInData`. */
  lemma ArrayRoundTrip(t: Table, dataRead: bool, c: Container, key: JString, xs: seq<JValue>)
    requires t.Valid() && xs != [] && Homogeneous(xs) && JavaInt.Holds(|xs|)
    requires dataRead || !xs[0].JStr?
    requires ArrayWrite(t, true, c, key, xs).Ok?
    ensures ArrayRead(ArrayWrite(t, true, c, key, xs).value, dataRead, c, key) == Ok(Some(xs))
  {
    hide *;
    HomogeneousNoNull(xs);
    ArrayWriteSteps(t, c, key, xs);
    var id := CheckType(xs[0]);
    var ty := VALUES[id];
    HomogeneousTyped(xs);
    var t1 := Added(t, TypeKey(c, key), INTEGER, ToDecimal(id)).value;
    var t2 := Added(t1, SizeKey(c, key), INTEGER, ToDecimal(|xs|)).value;
    var w := ArrayWrite(t, true, c, key, xs).value;
    AddedKeepsValid(t, TypeKey(c, key), INTEGER, ToDecimal(id));
    AddedKeepsValid(t1, SizeKey(c, key), INTEGER, ToDecimal(|xs|));
    LookupAfterAdd(t, TypeKey(c, key), INTEGER, ToDecimal(id), TypeKey(c, key));
    LookupAfterAdd(t1, SizeKey(c, key), INTEGER, ToDecimal(|xs|), TypeKey(c, key));
    LookupAfterAdd(t1, SizeKey(c, key), INTEGER, ToDecimal(|xs|), SizeKey(c, key));
    ElementsKept(t2, c, key, ty, xs, |xs|, TypeKey(c, key));
    ElementsKept(t2, c, key, ty, xs, |xs|, SizeKey(c, key));
    ElementsFound(t2, c, key, ty, xs, |xs|);
    IntGetter(id, dataRead);
    IntGetter(|xs|, dataRead);
    forall i | 0 <= i < |xs|
      ensures ElementStored(w, c, key, ty, xs, i)
    {
      ElementStoredOfFound(w, c, key, ty, xs, i);
    }
    StoredBelowOfAll(w, c, key, ty, xs, |xs|);
    ElementsReadBack(w, dataRead, c, key, ty, xs, |xs|);
    ArrayReadSteps(w, dataRead, c, key, id, |xs|);
    assert xs[..|xs|] == xs;
  }

  lemma ElementStoredOfFound(t: Table, c: Container, key: JString, ty: Type, xs: seq<JValue>, i: nat)
    requires i < |xs| && xs[i].Valid() && Stored(xs[i]).Some? && Stored(xs[i]).value.0 == ty
    requires Lookup(t, ElementKey(c, key, i)) == Ok(Some((ty, Stored(xs[i]).value.1)))
    ensures ElementStored(t, c, key, ty, xs, i)
  {
  }

  /** The elements of a homogeneous array all carry the tag of the first one's id. */
  lemma HomogeneousTyped(xs: seq<JValue>)
    requires xs != [] && Homogeneous(xs)
    ensures 0 <= CheckType(xs[0]) < |VALUES| && JavaInt.Holds(CheckType(xs[0]))
    ensures xs[0].JStr? <==> VALUES[CheckType(xs[0])] == STRING
    ensures forall i :: 0 <= i < |xs| ==>
              xs[i].Valid() && Stored(xs[i]).Some? && Stored(xs[i]).value.0 == VALUES[CheckType(xs[0])]
  {
    var id := CheckType(xs[0]);
    OrdinalOfValue(id);
    forall i | 0 <= i < |xs|
      ensures xs[i].Valid() && Stored(xs[i]).Some? && Stored(xs[i]).value.0 == VALUES[id]
    {
      assert Stored(xs[i]).value.0.Ordinal() == id;
    }
  }

  // ---------------------------------------------------------------------
  // The reader/writer
  // ---------------------------------------------------------------------

  /** `SNXFileIO`. The writer's output is `written`; the reader (a FileReader
      or a resource stream) reads `input` from `pos`. */
  class SNXFileIO {
    const hasWriter: bool
    const hasReader: bool
    const input: JString
    var pos: nat
    var written: JString
    var shift: int
    var dataRead: bool
    var list: DataTypeList

    predicate Valid()
      reads this, list
    {
      pos <= |input| && list.State().Valid()
    }

    /** Opening the medium: an empty list, the default shift, nothing read yet. */
    constructor(withWriter: bool, withReader: bool, medium: JString)
      ensures Valid() && fresh(list)
      ensures hasWriter == withWriter && hasReader == withReader && input == medium
      ensures pos == 0 && written == [] && shift == DEFAULT_SHIFT && !dataRead && list.State() == EMPTY
    {
      hasWriter := withWriter;
      hasReader := withReader;
      input := medium;
      pos := 0;
      written := [];
      shift := DEFAULT_SHIFT;
      dataRead := false;
      list := new DataTypeList();
    }

    /** `setCAESAR(shift)`. */
    method SetCaesar(k: int)
      modifies this`shift
      ensures shift == k
    {
      shift := k;
    }

    /** `read()` of the reader. */
    method Read() returns (c: int)
      requires Valid()
      modifies this`pos
      ensures Valid()
      ensures (c, pos) == ReadUnit(input, old(pos))
    {
      if pos < |input| {
        c := input[pos];
        pos := pos + 1;
      } else {
        c := -1;
      }
    }

    /** `caesar(s, krypt)`: every char of a copy of `s` is shifted in place, up
        for `krypt` and down otherwise, and each comes back unchanged once
        shifted both ways. */
    method Caesar(s: JString, krypt: bool) returns (r: JString)
      ensures r == Shifted(s, if krypt then shift else -shift)
      ensures krypt ==> forall i :: 0 <= i < |s| ==> Shift(r[i], -shift) == s[i]
      ensures !krypt ==> forall i :: 0 <= i < |s| ==> Shift(s[i], -shift) == r[i]
    {
      var k := if krypt then shift else -shift;
      var chars := new Unit[|s|](i requires 0 <= i < |s| => s[i]);
      var i := 0;
      while i < chars.Length
        invariant 0 <= i <= chars.Length == |s|
        invariant forall j :: 0 <= j < i ==> chars[j] == Shift(s[j], k)
        invariant forall j :: i <= j < |s| ==> chars[j] == s[j]
      {
        chars[i] := Shift(chars[i], k);
        i := i + 1;
      }
      r := chars[..];
      forall j | 0 <= j < |s|
        ensures krypt ==> Shift(r[j], -shift) == s[j]
      {
        ShiftBack(s[j], shift);
      }
    }

    /** The private `write(key, type, data)`: without a writer a
        NullPointerException, otherwise `add`. */
    method WriteEntry(key: JString, ty: Type, d: JString) returns (r: Result<()>)
      requires Valid()
      modifies list
      ensures Valid()
      ensures !hasWriter ==> r == Err(NullPointer) && list.State() == old(list.State())
      ensures hasWriter ==> r.Ok? == Added(old(list.State()), key, ty, d).Ok?
      ensures hasWriter && r.Err? ==> r.error == DuplicateKey && list.State() == old(list.State())
      ensures r.Ok? ==> list.State() == Added(old(list.State()), key, ty, d).value
    {
      if !hasWriter {
        return Err(NullPointer);
      }
      AddedKeepsValid(list.State(), key, ty, d);
      r := list.Add(key, ty, d);
    }

    /** The public `write(key, x)` overloads: the tag and text of `Stored(x)`. */
    method Write(key: JString, v: JValue) returns (r: Result<()>)
      requires Valid() && Stored(v).Some?
      modifies list
      ensures Valid()
      ensures !hasWriter ==> r == Err(NullPointer) && list.State() == old(list.State())
      ensures hasWriter ==> r.Ok? == (key !in old(list.keys))
      ensures hasWriter && r.Err? ==> r.error == DuplicateKey && list.State() == old(list.State())
      ensures r.Ok? ==> list.State() == Added(old(list.State()), key, Stored(v).value.0, Stored(v).value.1).value
    {
      r := WriteEntry(key, Stored(v).value.0, Stored(v).value.1);
    }

    /** The typed getters on the current list. */
    function Get(key: JString, want: Type): Result<JValue>
      reads this, list
    {
      Getter(Lookup(list.State(), key), want, dataRead)
    }

    /** `write(key, array)` / `write(key, list)`. */
    method WriteArray(c: Container, key: JString, xs: seq<JValue>) returns (r: Result<()>)
      requires Valid() && NoNullString(xs)
      modifies list
      ensures Valid()
      ensures r.Ok? == ArrayWrite(old(list.State()), hasWriter, c, key, xs).Ok?
      ensures r.Err? ==> r.error == ArrayWrite(old(list.State()), hasWriter, c, key, xs).error
      ensures r.Ok? ==> list.State() == ArrayWrite(old(list.State()), hasWriter, c, key, xs).value
      ensures list.State() == ArrayWriteReached(old(list.State()), hasWriter, c, key, xs)
    {
      hide ArrayWrite, WriteElements, ElementsReached, ElementKey, TypeKey, SizeKey, ToDecimal, Lookup;
      ArrayWriteUnfold(list.State(), hasWriter, c, key, xs);
      if |xs| == 0 {
        return Err(IndexOutOfBounds);
      }
      var id := CheckType(xs[0]);
      if id == -1 {
        return Err(UnsupportedType);
      }
      r := Write(TypeKey(c, key), JInt(id));
      if r.Ok? {
        r := Write(SizeKey(c, key), JInt(|xs|));
        if r.Ok? {
          r := WriteElementValues(c, key, VALUES[id], xs);
        }
      }
    }

    /** The element loop of `write(key, array)`: each element, cast to the
        class of the first, written under its element key. */
    method WriteElementValues(c: Container, key: JString, ty: Type, xs: seq<JValue>) returns (r: Result<()>)
      requires Valid() && hasWriter
      requires ty == STRING ==> forall i :: 0 <= i < |xs| ==> !xs[i].JNull?
      modifies list
      ensures Valid()
      ensures r.Ok? == WriteElements(old(list.State()), c, key, ty, xs, |xs|).Ok?
      ensures r.Err? ==> r.error == WriteElements(old(list.State()), c, key, ty, xs, |xs|).error
      ensures r.Ok? ==> list.State() == WriteElements(old(list.State()), c, key, ty, xs, |xs|).value
      ensures list.State() == ElementsReached(old(list.State()), c, key, ty, xs, |xs|)
    {
      ghost var t := list.State();
      WriteElementsNone(t, c, key, ty, xs);
      hide WriteElements, ElementsReached, ElementKey, Lookup;
      var i := 0;
      while i < |xs|
        invariant 0 <= i <= |xs| && Valid()
        invariant WriteElements(t, c, key, ty, xs, i) == Ok(list.State())
      {
        var s := Stored(xs[i]);
        WriteElementsNext(t, c, key, ty, xs, i);
        if xs[i].JNull? {
          WriteElementsFailed(t, c, key, ty, xs, i + 1, |xs|);
          ElementsReachedAfterFailure(t, c, key, ty, xs, i, |xs|);
          return Err(NullPointer);
        }
        if s.None? || s.value.0 != ty {
          WriteElementsFailed(t, c, key, ty, xs, i + 1, |xs|);
          ElementsReachedAfterFailure(t, c, key, ty, xs, i, |xs|);
          return Err(ClassCast);
        }
        r := Write(ElementKey(c, key, i), xs[i]);
        if r.Err? {
          WriteElementsFailed(t, c, key, ty, xs, i + 1, |xs|);
          ElementsReachedAfterFailure(t, c, key, ty, xs, i, |xs|);
          return;
        }
        i := i + 1;
      }
      ElementsReachedOk(t, c, key, ty, xs, |xs|);
      return Ok(());
    }

    /** `readArray(key)` / `readArrayList(key)`. */
    method ReadArray(c: Container, key: JString) returns (r: Result<Option<seq<JValue>>>)
      requires Valid()
      ensures r == ArrayRead(list.State(), dataRead, c, key)
    {
      hide Getter, Lookup, ReadElements, ElementKey, TypeKey, SizeKey;
      var tv := Get(TypeKey(c, key), INTEGER);
      if tv.Err? {
        return Err(tv.error);
      }
      var id := tv.value.i;
      if id == -1 {
        return Ok(None);
      }
      var ty := TypeAt(id);
      if ty.Err? {
        return Err(IndexOutOfBounds);
      }
      var sv := Get(SizeKey(c, key), INTEGER);
      if sv.Err? {
        return Err(sv.error);
      }
      var n := sv.value.i;
      if n < 0 {
        return if c == ObjectArray then Err(NegativeArraySize) else Ok(Some([]));
      }
      var vs := ReadElementValues(c, key, ty.value, n);
      if vs.Err? {
        return Err(vs.error);
      }
      return Ok(Some(vs.value));
    }

    /** The element loop of `readArray`: `n` getter calls, one per element key. */
    method ReadElementValues(c: Container, key: JString, ty: Type, n: nat) returns (r: Result<seq<JValue>>)
      requires Valid()
      ensures r == ReadElements(list.State(), dataRead, c, key, ty, n)
    {
      hide ReadElements;
      var vs: seq<JValue> := [];
      ReadElementsNone(list.State(), dataRead, c, key, ty, vs);
      var i := 0;
      while i < n
        invariant 0 <= i <= n
        invariant ReadElements(list.State(), dataRead, c, key, ty, i) == Ok(vs)
      {
        r := ReadElementAt(c, key, ty, i, vs);
        if r.Err? {
          ReadElementsFailed(list.State(), dataRead, c, key, ty, i + 1, n);
          return;
        }
        vs := r.value;
        i := i + 1;
      }
      return Ok(vs);
    }

    /** One pass of the element loop: element `i` read with the getter of
        the type and appended to the elements read so far. */
    method ReadElementAt(c: Container, key: JString, ty: Type, i: nat, vs: seq<JValue>) returns (r: Result<seq<JValue>>)
      requires ReadElements(list.State(), dataRead, c, key, ty, i) == Ok(vs)
      ensures r == ReadElements(list.State(), dataRead, c, key, ty, i + 1)
    {
      ReadElementsStep(list.State(), dataRead, c, key, ty, i + 1);
      var v := Get(ElementKey(c, key, i), ty);
      if v.Err? {
        return Err(v.error);
      }
      return Ok(vs + [v.value]);
    }

    /** One of the two inner loops of `readInData`: `n` chars, each shifted back on its own. */
    method ReadText(n: int) returns (s: JString)
      requires Valid()
      modifies this`pos
      ensures Valid()
      ensures pos == ReadChars(input, old(pos), n).1
      ensures s == Shifted(ReadChars(input, old(pos), n).0, -shift)
    {
      s := [];
      var i := 0;
      while i < n
        invariant 0 <= i <= (if n > 0 then n else 0) && Valid()
        invariant pos == ReadChars(input, old(pos), i).1
        invariant s == Shifted(ReadChars(input, old(pos), i).0, -shift)
      {
        ghost var before := ReadChars(input, old(pos), i).0;
        var c := Read();
        var piece := Caesar([CharOf(c)], false);
        ShiftedAppend(before, [CharOf(c)], -shift);
        s := s + piece;
        i := i + 1;
      }
    }

    /** One pass of the `readInData` loop, after the key length `n` was read
        from `start`: the key, the type ordinal, the data length, the data,
        then `add` to the list. */
    method ReadRecord(ghost start: nat, n: int) returns (r: Result<()>)
      requires Valid() && start <= |input| && (n, pos) == ReadUnit(input, start) && n != -1
      modifies this`pos, list
      ensures Valid() && start < pos
      ensures r.Err? ==> DecodeFrom(input, start, shift, old(list.State())) == Err(r.error)
      ensures r.Ok? ==> DecodeFrom(input, start, shift, old(list.State())) == DecodeFrom(input, pos, shift, list.State())
    {
      hide DecodeFrom;
      ghost var p1 := pos;
      ghost var rawKey := ReadChars(input, p1, n).0;
      var key := ReadText(n);
      ghost var p2 := pos;
      var id := Read();
      ghost var p3 := pos;
      var ty := TypeAt(id);
      if ty.Err? {
        DecodeFromBadType(input, start, shift, list.State(), n, p1, rawKey, p2, id, p3);
        return Err(ty.error);
      }
      var dl := Read();
      ghost var p4 := pos;
      ghost var rawData := ReadChars(input, p4, dl).0;
      var d := ReadText(dl);
      ghost var t := list.State();
      DecodeFromRecord(input, start, shift, t, n, p1, rawKey, p2, id, p3, ty.value, dl, p4, rawData, pos);
      AddedKeepsValid(t, key, ty.value, d);
      r := list.Add(key, ty.value, d);
    }

    /** `readInData()`: without a reader nothing happens; otherwise a new list
        is filled with the records up to the end of the stream. */
    method ReadInData() returns (r: Result<()>)
      requires Valid()
      modifies this`list, this`dataRead, this`pos
      ensures Valid()
      ensures !hasReader ==> r == Ok(()) && list == old(list) && dataRead == old(dataRead) && pos == old(pos)
      ensures hasReader ==> dataRead && fresh(list)
      ensures hasReader ==> r.Ok? == DecodeFrom(input, old(pos), shift, EMPTY).Ok?
      ensures hasReader && r.Err? ==> r.error == DecodeFrom(input, old(pos), shift, EMPTY).error
      ensures hasReader && r.Ok? ==> (list.State(), pos) == DecodeFrom(input, old(pos), shift, EMPTY).value
    {
      if !hasReader {
        return Ok(());
      }
      dataRead := true;
      list := new DataTypeList();
      hide DecodeFrom;
      ghost var start := pos;
      var n := Read();
      while n != -1
        invariant Valid() && fresh(list) && dataRead && start <= |input|
        invariant (n, pos) == ReadUnit(input, start)
        invariant DecodeFrom(input, old(pos), shift, EMPTY) == DecodeFrom(input, start, shift, list.State())
        decreases |input| - start
      {
        r := ReadRecord(start, n);
        if r.Err? {
          return;
        }
        start := pos;
        n := Read();
      }
      DecodeFromEnd(input, start, shift, list.State());
      return Ok(());
    }

    /** `writeData(key, type, data)`. */
    method WriteData(key: JString, e: Entry)
      modifies this`written
      ensures written == old(written) + EncodeRecord(key, e, shift)
    {
      written := written + [|key| % 0x10000];
      var k := Caesar(key, true);
      written := written + k;
      written := written + [e.0.Ordinal()];
      written := written + [|e.1| % 0x10000];
      var d := Caesar(e.1, true);
      written := written + d;
    }

    /** One pass of the loop of `close()`: the `i`-th key with the pair `get` finds for it. */
    method WriteKeyAt(i: nat)
      requires Valid() && i < |list.keys|
      modifies this`written
      ensures Valid()
      ensures written == old(written) + EncodeRecord(list.keys[i], list.data[i], shift)
    {
      var pair := Lookup(list.State(), list.keys[i]);
      LookupValid(list.State(), i);
      WriteData(list.keys[i], pair.value.value);
    }

    /** `close()`: with a writer, every key of the list, in order, with the pair
        `get` finds for it. */
    method Close()
      requires Valid()
      modifies this`written
      ensures written == if hasWriter then old(written) + EncodeRecords(list.keys, list.data, shift) else old(written)
    {
      if hasWriter {
        var ks := list.keys;
        ghost var ds := list.data;
        var i := 0;
        hide EncodeRecords, EncodeRecord, Lookup;
        EncodeRecordsEnds(ks, ds, shift);
        while i < |ks|
          invariant 0 <= i <= |ks| && Valid() && ks == list.keys && ds == list.data
          invariant written == old(written) + EncodeRecords(ks[..i], ds[..i], shift)
        {
          WriteKeyAt(i);
          EncodeRecordsSnoc(ks, ds, shift, i);
          i := i + 1;
        }
      }
    }
  }
}
