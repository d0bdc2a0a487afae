/** A room of a PSF document (src/de/snx/psf/util/ObjectRoom.java): a name, an
    ordered list of data objects and an ordered list of child rooms. The tree
    is a value here; a room's parent is the room one step up the index path
    that leads to it (see `RoomAt`), and the root is the room at the empty
    path. */
module PsfObjectRoom {
  import opened JavaLang
  import opened PsfDataType
  import opened PsfDataObject
  import opened PsfDataBuilder

  datatype ObjectRoom = ObjectRoom(name: JString, dataObjects: seq<DataObject>, childs: seq<ObjectRoom>)

  /** `new ObjectRoom(name, parent)`: no data objects and no children yet. */
  function NewRoom(name: JString): ObjectRoom
  {
    ObjectRoom(name, [], [])
  }

  // ---------------------------------------------------------------------
  // Data objects: lookup and overwrite-or-append
  // ---------------------------------------------------------------------

  /** The index of the first object whose key equals `key`. */
  function IndexOfKey(objs: seq<DataObject>, key: JString): (r: Option<nat>)
    ensures r.Some? ==> r.value < |objs| && objs[r.value].key == key
    ensures r.Some? ==> forall j :: 0 <= j < r.value ==> objs[j].key != key
    ensures r.None? <==> forall j :: 0 <= j < |objs| ==> objs[j].key != key
    decreases |objs|
  {
    if objs == [] then None
    else if objs[0].key == key then Some(0)
    else
      match IndexOfKey(objs[1..], key)
      case None => None
      case Some(i) => Some(i + 1)
  }

  /** `getDataObject(key)`: the first object with that key, or null (None). */
  function Lookup(objs: seq<DataObject>, key: JString): (r: Option<DataObject>)
    ensures r.Some? <==> exists j :: 0 <= j < |objs| && objs[j].key == key
    ensures r.Some? ==> r.value.key == key && r.value in objs
  {
    match IndexOfKey(objs, key)
    case None => None
    case Some(i) => Some(objs[i])
  }

  /** Store `o`: it replaces the first object with an equal key, at the same
      index, or is appended when there is none. This is what `write` does with
      `DataObject(key, type, data)` once keys are compared with `equals`, and
      what `addDataObject` does with `o`. */
  function Put(objs: seq<DataObject>, o: DataObject): (r: seq<DataObject>)
    ensures |objs| <= |r| <= |objs| + 1
    ensures IndexOfKey(objs, o.key).Some? ==> |r| == |objs|
    ensures IndexOfKey(objs, o.key).None? ==> r == objs + [o]
    ensures forall j :: 0 <= j < |objs| && objs[j].key != o.key ==> r[j] == objs[j]
  {
    match IndexOfKey(objs, o.key)
    case Some(i) => objs[i := o]
    case None => objs + [o]
  }

  /** After storing `o`, looking up its key gives `o`; every other key gives
      what it gave before. */
  lemma LookupAfterPut(objs: seq<DataObject>, o: DataObject, k: JString)
    ensures Lookup(Put(objs, o), o.key) == Some(o)
    ensures k != o.key ==> Lookup(Put(objs, o), k) == Lookup(objs, k)
  {
    var r := Put(objs, o);
    match IndexOfKey(objs, o.key)
    case Some(i) =>
      assert IndexOfKey(r, o.key) == Some(i) by {
        assert r[i].key == o.key;
        forall j | 0 <= j < i ensures r[j].key != o.key { assert r[j] == objs[j]; }
        IndexOfKeyIsFirst(r, o.key, i);
      }
      if k != o.key {
        LookupAgrees(objs, r, k);
      }
    case None =>
      IndexOfKeyIsFirst(r, o.key, |objs|);
      if k != o.key {
        LookupAgrees(objs, r, k);
      }
  }

  /** The first index holding `key` is the one `IndexOfKey` finds. */
  lemma IndexOfKeyIsFirst(objs: seq<DataObject>, key: JString, i: nat)
    requires i < |objs| && objs[i].key == key
    requires forall j :: 0 <= j < i ==> objs[j].key != key
    ensures IndexOfKey(objs, key) == Some(i)
  {
    var r := IndexOfKey(objs, key);
    assert r.Some?;
    if r.value < i {
    } else if r.value > i {
    }
  }

  /** Two lists that agree on every position whose key is `k` or precedes such
      a position... here: `r` extends `objs` by overwriting or appending only
      objects keyed differently from `k`. */
  lemma LookupAgrees(objs: seq<DataObject>, r: seq<DataObject>, k: JString)
    requires |objs| <= |r| <= |objs| + 1
    requires forall j :: 0 <= j < |objs| && (objs[j].key == k || r[j].key == k) ==> r[j] == objs[j]
    requires |r| == |objs| + 1 ==> r[|objs|].key != k
    ensures Lookup(r, k) == Lookup(objs, k)
  {
    match IndexOfKey(objs, k)
    case Some(i) =>
      assert forall j :: 0 <= j < i ==> r[j].key != k;
      IndexOfKeyIsFirst(r, k, i);
    case None =>
      assert forall j :: 0 <= j < |r| ==> r[j].key != k;
  }

  /** Storing twice under one key is storing the second object once. */
  lemma PutOverwrites(objs: seq<DataObject>, o: DataObject, o': DataObject)
    requires o.key == o'.key
    ensures Put(Put(objs, o), o') == Put(objs, o')
  {
    var r := Put(objs, o);
    match IndexOfKey(objs, o.key)
    case Some(i) =>
      forall j | 0 <= j < i ensures r[j].key != o.key { assert r[j] == objs[j]; }
      IndexOfKeyIsFirst(r, o.key, i);
    case None =>
      IndexOfKeyIsFirst(r, o.key, |objs|);
  }

  /** Keys that are pairwise distinct stay so after a store. */
  lemma PutKeepsKeysUnique(objs: seq<DataObject>, o: DataObject)
    requires forall i, j :: 0 <= i < j < |objs| ==> objs[i].key != objs[j].key
    ensures var r := Put(objs, o); forall i, j :: 0 <= i < j < |r| ==> r[i].key != r[j].key
  {
  }

  /** `write(key, type, data)` with keys compared by `equals`: scan for the
      first object with that key and overwrite its type and data in place, or
      append a new object. */
  method Write(objs: seq<DataObject>, key: JString, t: DataType, d: Option<JString>) returns (r: seq<DataObject>)
    ensures r == Put(objs, DataObject(key, t, d))
  {
    var i := 0;
    while i < |objs|
      invariant 0 <= i <= |objs|
      invariant forall j :: 0 <= j < i ==> objs[j].key != key
    {
      if objs[i].key == key {
        IndexOfKeyIsFirst(objs, key, i);
        var o := SetData(SetType(objs[i], t), d);
        return objs[i := o];
      }
      i := i + 1;
    }
    return objs + [DataObject(key, t, d)];
  }

  /** `getDataObject(key)`: scan for the first object with that key. */
  method GetDataObject(objs: seq<DataObject>, key: JString) returns (r: Option<DataObject>)
    ensures r == Lookup(objs, key)
  {
    for i := 0 to |objs|
      invariant forall j :: 0 <= j < i ==> objs[j].key != key
    {
      if objs[i].key == key {
        IndexOfKeyIsFirst(objs, key, i);
        return Some(objs[i]);
      }
    }
    return None;
  }

  // ---------------------------------------------------------------------
  // `write` as written: keys compared by reference
  // ---------------------------------------------------------------------

  /** A stored object together with the identity of the String instance that
      serves as its key; equal texts may be different instances (a key built
      by concatenation, such as "element_" + i, is a new instance each time). */
  datatype HeldObject = HeldObject(keyRef: nat, obj: DataObject)

  function Objects(held: seq<HeldObject>): (r: seq<DataObject>)
    ensures |r| == |held| && forall j :: 0 <= j < |held| ==> r[j] == held[j].obj
  {
    seq(|held|, j requires 0 <= j < |held| => held[j].obj)
  }

  /** `write(key, type, data)` exactly as written: the scan compares key
      references with `==`, so a key with equal text but another identity is
      appended as a second object. */
  function WriteByReference(held: seq<HeldObject>, keyRef: nat, key: JString, t: DataType, d: Option<JString>): (r: seq<HeldObject>)
    ensures |held| <= |r| <= |held| + 1
    ensures (forall j :: 0 <= j < |held| ==> held[j].keyRef != keyRef) ==> r == held + [HeldObject(keyRef, DataObject(key, t, d))]
    decreases |held|
  {
    if held == [] then [HeldObject(keyRef, DataObject(key, t, d))]
    else if held[0].keyRef == keyRef then [held[0].(obj := SetData(SetType(held[0].obj, t), d))] + held[1..]
    else [held[0]] + WriteByReference(held[1..], keyRef, key, t, d)
  }

  /** Writing "element_0" twice through two String instances with the same text
      keeps both objects, and a later lookup (which uses `equals`) returns the
      first, stale value; storing with `equals` returns the new one. */
  lemma ReferenceWriteKeepsStaleValue()
    ensures var k := Lit("element_0");
            var once := WriteByReference([], 1, k, INTEGER, Some(Lit("1")));
            var twice := WriteByReference(once, 2, k, INTEGER, Some(Lit("2")));
            |Objects(twice)| == 2
            && Lookup(Objects(twice), k) == Some(DataObject(k, INTEGER, Some(Lit("1"))))
            && Lookup(Put(Put([], DataObject(k, INTEGER, Some(Lit("1")))), DataObject(k, INTEGER, Some(Lit("2")))), k)
               == Some(DataObject(k, INTEGER, Some(Lit("2"))))
  {
    var k := Lit("element_0");
    var o1, o2 := DataObject(k, INTEGER, Some(Lit("1"))), DataObject(k, INTEGER, Some(Lit("2")));
    var once := WriteByReference([], 1, k, INTEGER, Some(Lit("1")));
    assert once == [HeldObject(1, o1)];
    var twice := WriteByReference(once, 2, k, INTEGER, Some(Lit("2")));
    assert twice == [HeldObject(1, o1), HeldObject(2, o2)];
    assert Objects(twice) == [o1, o2];
    IndexOfKeyIsFirst([o1, o2], k, 0);
    LookupAfterPut(Put([], o1), o2, k);
  }

  // ---------------------------------------------------------------------
  // The room codec (`writeData` / `readData`)
  // ---------------------------------------------------------------------

  /** Every data object in the tree can be written (no null non-STRING value). */
  predicate WritableRoom(r: ObjectRoom)
    decreases r
  {
    && (forall j :: 0 <= j < |r.dataObjects| ==> Writable(r.dataObjects[j]))
    && (forall j :: 0 <= j < |r.childs| ==> WritableRoom(r.childs[j]))
  }

  /** The text `"[" + name + "]:{"` that opens a child room. */
  function RoomOpen(name: JString): (t: JString)
    ensures |t| == |name| + 4
  {
    [91] + name + [93, 58, 123]
  }

  /** The text `"}"` that closes a child room. */
  const ROOM_CLOSE: JString := [125]

  /** `substring(1, length - 3)`: the name between the brackets; a token
      shorter than four units throws. */
  function RoomName(t: JString): (r: Result<JString>)
    ensures r.Ok? <==> |t| >= 4
    ensures r.Err? ==> r.error == IndexOutOfBounds
  {
    if |t| < 4 then Err(IndexOutOfBounds) else Ok(t[1..|t| - 3])
  }

  /** Taking the name out of the opening text gives back the name, for every name. */
  lemma RoomNameOfRoomOpen(name: JString)
    ensures RoomName(RoomOpen(name)) == Ok(name)
  {
    assert RoomOpen(name)[1..|name| + 1] == name;
  }

  /** The data sets of `objs` from index `i` on, in list order. */
  function EncodeObjects(objs: seq<DataObject>, i: nat): JString
    requires i <= |objs| && forall j :: 0 <= j < |objs| ==> Writable(objs[j])
    decreases |objs| - i
  {
    if i == |objs| then [] else EncodeDataObject(objs[i]) + EncodeObjects(objs, i + 1)
  }

  /** The data objects as `buildDataSet` leaves them. */
  function AsWrittenAll(objs: seq<DataObject>): (r: seq<DataObject>)
    ensures |r| == |objs| && forall j :: 0 <= j < |objs| ==> r[j] == AsWritten(objs[j])
  {
    seq(|objs|, j requires 0 <= j < |objs| => AsWritten(objs[j]))
  }

  /** `writeData`: the data count, the data sets, the child count, then each
      child framed by its opening text and `"}"`. */
  function EncodeBody(r: ObjectRoom): JString
    requires WritableRoom(r)
    decreases r, 1
  {
    Token(ToDecimal(|r.dataObjects|)) + EncodeObjects(r.dataObjects, 0)
      + Token(ToDecimal(|r.childs|)) + EncodeChildren(r, 0)
  }

  /** The framed children of `r` from index `i` on. */
  function EncodeChildren(r: ObjectRoom, i: nat): JString
    requires WritableRoom(r) && i <= |r.childs|
    decreases r, 0, |r.childs| - i
  {
    if i == |r.childs| then []
    else ChildBlock(r.childs[i]) + EncodeChildren(r, i + 1)
  }

  /** One framed child: its opening text, its body, then "}". */
  function ChildBlock(c: ObjectRoom): JString
    requires WritableRoom(c)
    decreases c, 2
  {
    Token(RoomOpen(c.name)) + EncodeBody(c) + Token(ROOM_CLOSE)
  }

  /** The tree as `writeData` leaves it: null STRING payloads become "". */
  function Normalize(r: ObjectRoom): (n: ObjectRoom)
    ensures n.name == r.name && |n.dataObjects| == |r.dataObjects| && |n.childs| == |r.childs|
    decreases r, 1
  {
    ObjectRoom(r.name, AsWrittenAll(r.dataObjects), NormalizeChildren(r))
  }

  function NormalizeChildren(r: ObjectRoom): (cs: seq<ObjectRoom>)
    ensures |cs| == |r.childs| && forall j :: 0 <= j < |r.childs| ==> cs[j] == Normalize(r.childs[j])
    decreases r, 0
  {
    seq(|r.childs|, j requires 0 <= j < |r.childs| => Normalize(r.childs[j]))
  }

  /** A count read as `Integer.parseInt(getDataText())`. */
  function DecodeCount(input: JString, pos: nat): (r: Result<(int, nat)>)
    requires pos <= |input|
    ensures r.Ok? ==> pos < r.value.1 <= |input|
  {
    var (t, p) := DecodeText(input, pos);
    match ParseDecimal(t, JavaInt)
    case None => Err(NumberFormat)
    case Some(n) => Ok((n, p))
  }

  /** `k` successive `getDataObject()` calls (none when `k` <= 0). */
  function DecodeObjects(input: JString, pos: nat, version: JString, k: int): (r: Result<(seq<DataObject>, nat)>)
    requires pos <= |input|
    ensures r.Ok? ==> pos <= r.value.1 <= |input|
    decreases k
  {
    if k <= 0 then Ok(([], pos))
    else
      match DecodeDataObject(input, pos, version)
      case Err(e) => Err(e)
      case Ok((o, p)) =>
        match DecodeObjects(input, p, version, k - 1)
        case Err(e) => Err(e)
        case Ok((os, q)) => Ok(([o] + os, q))
  }

  /** `readData` into a fresh room named `name`: the data count and that many
      data objects, then the child count and that many children, each read from
      its opening text, its body and the (unchecked) closing token. */
  function DecodeBody(input: JString, pos: nat, version: JString, name: JString): (r: Result<(ObjectRoom, nat)>)
    requires pos <= |input|
    ensures r.Ok? ==> pos < r.value.1 <= |input| && r.value.0.name == name
    decreases |input| - pos, 1, 0
  {
    match DecodeCount(input, pos)
    case Err(e) => Err(e)
    case Ok((n, p1)) =>
      match DecodeObjects(input, p1, version, n)
      case Err(e) => Err(e)
      case Ok((objs, p2)) =>
        match DecodeCount(input, p2)
        case Err(e) => Err(e)
        case Ok((m, p3)) =>
          match DecodeChildren(input, p3, version, if m < 0 then 0 else m)
          case Err(e) => Err(e)
          case Ok((cs, p4)) => Ok((ObjectRoom(name, objs, cs), p4))
  }

  /** `k` children, each appended after it has been read. */
  function DecodeChildren(input: JString, pos: nat, version: JString, k: nat): (r: Result<(seq<ObjectRoom>, nat)>)
    requires pos <= |input|
    ensures r.Ok? ==> pos <= r.value.1 <= |input| && |r.value.0| == k
    decreases |input| - pos, 0, k
  {
    if k == 0 then Ok(([], pos))
    else
      var (t, p1) := DecodeText(input, pos);
      match RoomName(t)
      case Err(e) => Err(e)
      case Ok(name) =>
        match DecodeBody(input, p1, version, name)
        case Err(e) => Err(e)
        case Ok((c, p2)) =>
          var (_, p3) := DecodeText(input, p2);
          match DecodeChildren(input, p3, version, k - 1)
          case Err(e) => Err(e)
          case Ok((cs, p4)) => Ok(([c] + cs, p4))
  }

  // ---------------------------------------------------------------------
  // The room codec round trip
  // ---------------------------------------------------------------------

  /** A tree the token codec can carry: every data set encodable, every
      opening text shorter than 65536 units, every count a Java int. */
  predicate EncodableRoom(r: ObjectRoom)
    decreases r
  {
    && (forall j :: 0 <= j < |r.dataObjects| ==> Writable(r.dataObjects[j]) && Encodable(r.dataObjects[j]))
    && |r.dataObjects| <= INT_MAX && |r.childs| <= INT_MAX
    && (forall j :: 0 <= j < |r.childs| ==> |r.childs[j].name| + 4 < 0x10000 && EncodableRoom(r.childs[j]))
  }

  lemma EncodableIsWritable(r: ObjectRoom)
    requires EncodableRoom(r)
    ensures WritableRoom(r)
    decreases r
  {
    forall j | 0 <= j < |r.childs| ensures WritableRoom(r.childs[j]) { EncodableIsWritable(r.childs[j]); }
  }

  /** A count written as a decimal token reads back. */
  lemma CountRoundTrip(input: JString, pos: nat, n: nat)
    requires n <= INT_MAX && At(input, pos, Token(ToDecimal(n)))
    ensures DecodeCount(input, pos) == Ok((n, pos + |Token(ToDecimal(n))|))
  {
    ToDecimalShort(n);
    DecodeTextOfToken(input, pos, ToDecimal(n));
    DecimalRoundTrip(n, JavaInt);
  }

  /** One data object read, then the rest. */
  lemma DecodeObjectsStep(input: JString, pos: nat, version: JString, k: int, o: DataObject, p: nat, os: seq<DataObject>, q: nat)
    requires k > 0 && pos <= |input| && p <= |input|
    requires DecodeDataObject(input, pos, version) == Ok((o, p))
    requires DecodeObjects(input, p, version, k - 1) == Ok((os, q))
    ensures DecodeObjects(input, pos, version, k) == Ok(([o] + os, q))
  {
  }

  /** The pieces of the data-set list of `objs` from index `i` on. */
  lemma ObjectsParts(input: JString, pos: nat, version: JString, objs: seq<DataObject>, i: nat)
    requires i <= |objs| && forall j :: 0 <= j < |objs| ==> Writable(objs[j])
    ensures i < |objs| ==> EncodeObjects(objs, i) == EncodeDataObject(objs[i]) + EncodeObjects(objs, i + 1)
    ensures i < |objs| ==> AsWrittenAll(objs)[i..] == [AsWritten(objs[i])] + AsWrittenAll(objs)[i + 1..]
    ensures i == |objs| ==> EncodeObjects(objs, i) == [] && AsWrittenAll(objs)[i..] == []
    ensures pos <= |input| ==> DecodeObjects(input, pos, version, 0) == Ok(([], pos))
    ensures AsWrittenAll(objs)[0..] == AsWrittenAll(objs)
  {
    var w := AsWrittenAll(objs);
    if i < |objs| {
      assert w[i..] == [w[i]] + w[i + 1..];
    }
  }

  lemma {:induction false} ObjectsRoundTrip(input: JString, pos: nat, version: JString, objs: seq<DataObject>, i: nat)
    requires version != VERSION_3_0 && i <= |objs|
    requires forall j :: 0 <= j < |objs| ==> Writable(objs[j]) && Encodable(objs[j])
    requires At(input, pos, EncodeObjects(objs, i))
    ensures DecodeObjects(input, pos, version, |objs| - i) == Ok((AsWrittenAll(objs)[i..], pos + |EncodeObjects(objs, i)|))
    decreases |objs| - i
  {
    hide *;
    ObjectsParts(input, pos, version, objs, i);
    if i < |objs| {
      var e := EncodeDataObject(objs[i]);
      var rest := EncodeObjects(objs, i + 1);
      AtSplit(input, pos, e, rest);
      DataObjectRoundTrip(input, pos, objs[i], version);
      ObjectsRoundTrip(input, pos + |e|, version, objs, i + 1);
      var w := AsWrittenAll(objs);
      DecodeObjectsStep(input, pos, version, |objs| - i, w[i], pos + |e|, w[i + 1..], pos + |e| + |rest|);
    } else {
      AtEnd(input, pos, EncodeObjects(objs, i));
    }
  }

  /** An occurrence ends within the input. */
  lemma AtEnd(input: JString, pos: nat, s: JString)
    requires At(input, pos, s)
    ensures pos + |s| <= |input|
  {
  }

  /** The data sets of a room read back as written. */
  lemma AllObjectsRoundTrip(input: JString, pos: nat, version: JString, objs: seq<DataObject>)
    requires version != VERSION_3_0
    requires forall j :: 0 <= j < |objs| ==> Writable(objs[j]) && Encodable(objs[j])
    requires At(input, pos, EncodeObjects(objs, 0))
    ensures DecodeObjects(input, pos, version, |objs|) == Ok((AsWrittenAll(objs), pos + |EncodeObjects(objs, 0)|))
  {
    hide *;
    ObjectsRoundTrip(input, pos, version, objs, 0);
    ObjectsParts(input, pos, version, objs, 0);
  }

  /** `readData`'s steps, composed. */
  lemma DecodeBodySteps(input: JString, pos: nat, version: JString, name: JString,
                        n: int, p1: nat, objs: seq<DataObject>, p2: nat, m: nat, p3: nat, cs: seq<ObjectRoom>, p4: nat)
    requires pos <= |input| && p1 <= |input| && p2 <= |input| && p3 <= |input|
    requires DecodeCount(input, pos) == Ok((n, p1))
    requires DecodeObjects(input, p1, version, n) == Ok((objs, p2))
    requires DecodeCount(input, p2) == Ok((m, p3))
    requires DecodeChildren(input, p3, version, m) == Ok((cs, p4))
    ensures DecodeBody(input, pos, version, name) == Ok((ObjectRoom(name, objs, cs), p4))
  {
  }

  /** One child read, then the rest. */
  lemma DecodeChildStep(input: JString, pos: nat, version: JString, k: nat,
                        name: JString, p1: nat, c: ObjectRoom, p2: nat, p3: nat, cs: seq<ObjectRoom>, p4: nat)
    requires k > 0 && pos <= |input| && p1 <= |input| && p2 <= |input| && p3 <= |input|
    requires DecodeText(input, pos).1 == p1 && RoomName(DecodeText(input, pos).0) == Ok(name)
    requires DecodeBody(input, p1, version, name) == Ok((c, p2))
    requires DecodeText(input, p2).1 == p3
    requires DecodeChildren(input, p3, version, k - 1) == Ok((cs, p4))
    ensures DecodeChildren(input, pos, version, k) == Ok(([c] + cs, p4))
  {
  }

  /** The pieces of a room's encoding and what an encodable room guarantees of them. */
  lemma BodyParts(r: ObjectRoom)
    requires EncodableRoom(r)
    ensures WritableRoom(r)
    ensures EncodeBody(r) == Token(ToDecimal(|r.dataObjects|)) + EncodeObjects(r.dataObjects, 0)
                               + Token(ToDecimal(|r.childs|)) + EncodeChildren(r, 0)
    ensures Normalize(r) == ObjectRoom(r.name, AsWrittenAll(r.dataObjects), NormalizeChildren(r))
    ensures |r.dataObjects| <= INT_MAX && |r.childs| <= INT_MAX
    ensures forall j :: 0 <= j < |r.dataObjects| ==> Writable(r.dataObjects[j]) && Encodable(r.dataObjects[j])
  {
    EncodableIsWritable(r);
  }

  /** The pieces of the framed children of `r` from index `i` on. */
  lemma ChildrenParts(input: JString, pos: nat, version: JString, r: ObjectRoom, i: nat)
    requires EncodableRoom(r) && i <= |r.childs|
    ensures WritableRoom(r)
    ensures i < |r.childs| ==> && r.childs[i] < r
                               && EncodableRoom(r.childs[i]) && WritableRoom(r.childs[i])
                               && |RoomOpen(r.childs[i].name)| < 0x10000
                               && |ROOM_CLOSE| < 0x10000
                               && EncodeChildren(r, i) == Token(RoomOpen(r.childs[i].name)) + (EncodeBody(r.childs[i])
                                                          + (Token(ROOM_CLOSE) + EncodeChildren(r, i + 1)))
                               && NormalizeChildren(r)[i..] == [Normalize(r.childs[i])] + NormalizeChildren(r)[i + 1..]
    ensures i == |r.childs| ==> EncodeChildren(r, i) == [] && NormalizeChildren(r)[i..] == []
    ensures pos <= |input| ==> DecodeChildren(input, pos, version, 0) == Ok(([], pos))
    ensures NormalizeChildren(r)[0..] == NormalizeChildren(r)
  {
    EncodableIsWritable(r);
    hide *;
    if i < |r.childs| {
      ChildEncodable(r, i);
      ChildrenSplit(r, i);
      NormalizeChildrenStep(r, i);
    } else {
      ChildrenEnd(r);
    }
    DecodeNoChildren(input, pos, version);
  }

  /** A child of an encodable room is smaller, encodable, and its frame texts fit. */
  lemma ChildEncodable(r: ObjectRoom, i: nat)
    requires EncodableRoom(r) && i < |r.childs|
    ensures r.childs[i] < r && EncodableRoom(r.childs[i]) && WritableRoom(r.childs[i])
    ensures |RoomOpen(r.childs[i].name)| < 0x10000 && |ROOM_CLOSE| < 0x10000
  {
    assert r.childs[i] in r.childs;
    EncodableIsWritable(r.childs[i]);
  }

  /** One framed child, then the children after it. */
  lemma ChildrenSplit(r: ObjectRoom, i: nat)
    requires WritableRoom(r) && i < |r.childs| && WritableRoom(r.childs[i])
    ensures EncodeChildren(r, i) == Token(RoomOpen(r.childs[i].name)) + (EncodeBody(r.childs[i])
                                     + (Token(ROOM_CLOSE) + EncodeChildren(r, i + 1)))
  {
    hide *;
    ChildrenStep(r, i);
    ChildBlockParts(r.childs[i]);
  }

  lemma NormalizeChildrenStep(r: ObjectRoom, i: nat)
    requires i < |r.childs|
    ensures NormalizeChildren(r)[i..] == [Normalize(r.childs[i])] + NormalizeChildren(r)[i + 1..]
    ensures NormalizeChildren(r)[0..] == NormalizeChildren(r)
  {
    hide *;
    var ns := NormalizeChildren(r);
    SuffixCons(ns, i);
  }

  /** A suffix from `i` is its first element before the suffix from `i + 1`. */
  lemma SuffixCons<T>(s: seq<T>, i: nat)
    requires i < |s|
    ensures s[i..] == [s[i]] + s[i + 1..] && s[0..] == s
  {
  }

  lemma ChildrenEnd(r: ObjectRoom)
    requires WritableRoom(r)
    ensures EncodeChildren(r, |r.childs|) == [] && NormalizeChildren(r)[|r.childs|..] == []
    ensures NormalizeChildren(r)[0..] == NormalizeChildren(r)
  {
  }

  lemma DecodeNoChildren(input: JString, pos: nat, version: JString)
    ensures pos <= |input| ==> DecodeChildren(input, pos, version, 0) == Ok(([], pos))
  {
  }

  /** `readData` rebuilds what `writeData` wrote: same data objects in order
      (null STRING payloads as ""), same children with the same names in the
      same order, recursively; exactly the encoding is consumed. */
  lemma {:induction false} BodyRoundTrip(input: JString, pos: nat, version: JString, r: ObjectRoom)
    requires version != VERSION_3_0 && EncodableRoom(r) && WritableRoom(r)
    requires At(input, pos, EncodeBody(r))
    ensures DecodeBody(input, pos, version, r.name) == Ok((Normalize(r), pos + |EncodeBody(r)|))
    decreases r, 2
  {
    hide *;
    BodyParts(r);
    var a := Token(ToDecimal(|r.dataObjects|));
    var b := EncodeObjects(r.dataObjects, 0);
    var c := Token(ToDecimal(|r.childs|));
    var d := EncodeChildren(r, 0);
    var p1 := pos + |a|;
    var p2 := p1 + |b|;
    var p3 := p2 + |c|;
    AtSplit(input, pos, a + b + c, d);
    AtSplit(input, pos, a + b, c);
    AtSplit(input, pos, a, b);
    CountRoundTrip(input, pos, |r.dataObjects|);
    AllObjectsRoundTrip(input, p1, version, r.dataObjects);
    CountRoundTrip(input, p2, |r.childs|);
    AllChildrenRoundTrip(input, p3, version, r);
    DecodeBodySteps(input, pos, version, r.name, |r.dataObjects|, p1, AsWrittenAll(r.dataObjects), p2,
                    |r.childs|, p3, NormalizeChildren(r), p3 + |d|);
  }

  lemma AllChildrenRoundTrip(input: JString, pos: nat, version: JString, r: ObjectRoom)
    requires version != VERSION_3_0 && EncodableRoom(r) && WritableRoom(r)
    requires At(input, pos, EncodeChildren(r, 0))
    ensures DecodeChildren(input, pos, version, |r.childs|) == Ok((NormalizeChildren(r), pos + |EncodeChildren(r, 0)|))
    decreases r, 1
  {
    hide *;
    ChildrenRoundTrip(input, pos, version, r, 0);
    ChildrenParts(input, pos, version, r, 0);
  }

  lemma {:induction false} ChildrenRoundTrip(input: JString, pos: nat, version: JString, r: ObjectRoom, i: nat)
    requires version != VERSION_3_0 && EncodableRoom(r) && WritableRoom(r) && i <= |r.childs|
    requires At(input, pos, EncodeChildren(r, i))
    ensures DecodeChildren(input, pos, version, |r.childs| - i)
            == Ok((NormalizeChildren(r)[i..], pos + |EncodeChildren(r, i)|))
    decreases r, 0, |r.childs| - i
  {
    hide *;
    ChildrenParts(input, pos, version, r, i);
    if i < |r.childs| {
      var ch := r.childs[i];
      var o, body, cl := Token(RoomOpen(ch.name)), EncodeBody(ch), Token(ROOM_CLOSE);
      var rest := EncodeChildren(r, i + 1);
      var p1 := pos + |o|;
      var p2 := p1 + |body|;
      var p3 := p2 + |cl|;
      AtSplit(input, pos, o, body + (cl + rest));
      AtSplit(input, p1, body, cl + rest);
      AtSplit(input, p2, cl, rest);
      AtEnd(input, p3, rest);
      DecodeTextOfToken(input, pos, RoomOpen(ch.name));
      RoomNameOfRoomOpen(ch.name);
      EncodableIsWritable(ch);
      BodyRoundTrip(input, p1, version, ch);
      DecodeTextOfToken(input, p2, ROOM_CLOSE);
      ChildrenRoundTrip(input, p3, version, r, i + 1);
      var ns := NormalizeChildren(r);
      DecodeChildStep(input, pos, version, |r.childs| - i, ch.name, p1, ns[i], p2, p3, ns[i + 1..], p3 + |rest|);
    } else {
      AtEnd(input, pos, EncodeChildren(r, i));
    }
  }

  // ---------------------------------------------------------------------
  // `writeData` and `readData` on a DataBuilder
  // ---------------------------------------------------------------------

  /** The data sets of the first `n` objects, in list order. */
  function EncodePrefix(objs: seq<DataObject>, n: nat): JString
    requires n <= |objs| && forall j :: 0 <= j < n ==> Writable(objs[j])
  {
    if n == 0 then [] else EncodePrefix(objs, n - 1) + EncodeDataObject(objs[n - 1])
  }

  /** The first `n` data sets followed by the rest are all of them. */
  lemma {:induction false} PrefixThenRest(objs: seq<DataObject>, n: nat)
    requires n <= |objs| && forall j :: 0 <= j < |objs| ==> Writable(objs[j])
    ensures EncodePrefix(objs, n) + EncodeObjects(objs, n) == EncodeObjects(objs, 0)
  {
    hide *;
    PrefixParts(objs, n);
    if n > 0 {
      PrefixThenRest(objs, n - 1);
      ObjectsParts([], 0, [], objs, n - 1);
    }
  }

  lemma PrefixParts(objs: seq<DataObject>, n: nat)
    requires n <= |objs| && forall j :: 0 <= j < n ==> Writable(objs[j])
    ensures n == 0 ==> EncodePrefix(objs, n) == []
    ensures n > 0 ==> EncodePrefix(objs, n) == EncodePrefix(objs, n - 1) + EncodeDataObject(objs[n - 1])
  {
  }

  /** The framed children of the first `n` children, in list order. */
  function ChildrenPrefix(r: ObjectRoom, n: nat): JString
    requires n <= |r.childs| && forall j :: 0 <= j < n ==> WritableRoom(r.childs[j])
  {
    if n == 0 then [] else ChildrenPrefix(r, n - 1) + ChildBlock(r.childs[n - 1])
  }

  lemma ChildrenPrefixParts(r: ObjectRoom, n: nat)
    requires n <= |r.childs| && forall j :: 0 <= j < n ==> WritableRoom(r.childs[j])
    ensures n == 0 ==> ChildrenPrefix(r, n) == []
    ensures n > 0 ==> ChildrenPrefix(r, n) == ChildrenPrefix(r, n - 1) + ChildBlock(r.childs[n - 1])
  {
  }

  /** A room is writable exactly when its data sets and its children are. */
  lemma WritableRoomIff(r: ObjectRoom)
    ensures WritableRoom(r) <==> (forall j :: 0 <= j < |r.dataObjects| ==> Writable(r.dataObjects[j]))
                                 && (forall j :: 0 <= j < |r.childs| ==> WritableRoom(r.childs[j]))
  {
  }

  /** The encoding of a writable room is made of the four parts `writeData`
      emits, and writing keeps its name. */
  lemma WritableParts(r: ObjectRoom)
    requires WritableRoom(r)
    ensures EncodeBody(r) == Token(ToDecimal(|r.dataObjects|)) + EncodeObjects(r.dataObjects, 0)
                             + Token(ToDecimal(|r.childs|)) + EncodeChildren(r, 0)
    ensures EncodeChildren(r, |r.childs|) == []
    ensures Normalize(r) == ObjectRoom(r.name, AsWrittenAll(r.dataObjects), NormalizeChildren(r))
  {
  }

  /** What the four steps of `writeData` append is the room's encoding, and
      the room they give back is the room as written. */
  lemma BodyOfParts(r: ObjectRoom, w0: JString)
    requires WritableRoom(r)
    ensures ChildrenPrefix(r, |r.childs|) == EncodeChildren(r, 0)
    ensures w0 + Token(ToDecimal(|r.dataObjects|)) + EncodeObjects(r.dataObjects, 0)
            + Token(ToDecimal(|r.childs|)) + EncodeChildren(r, 0) == w0 + EncodeBody(r)
    ensures ObjectRoom(r.name, AsWrittenAll(r.dataObjects), NormalizeChildren(r)) == Normalize(r)
  {
    hide *;
    WritableParts(r);
    ChildrenPrefixThenRest(r, |r.childs|);
  }

  /** The first `n` framed children followed by the rest are all of them. */
  lemma {:induction false} ChildrenPrefixThenRest(r: ObjectRoom, n: nat)
    requires n <= |r.childs| && WritableRoom(r)
    ensures ChildrenPrefix(r, n) + EncodeChildren(r, n) == EncodeChildren(r, 0)
  {
    hide *;
    WritableRoomIff(r);
    ChildrenPrefixParts(r, n);
    if n > 0 {
      ChildrenPrefixThenRest(r, n - 1);
      ChildrenStep(r, n - 1);
    }
  }

  lemma ChildBlockParts(c: ObjectRoom)
    requires WritableRoom(c)
    ensures ChildBlock(c) == Token(RoomOpen(c.name)) + EncodeBody(c) + Token(ROOM_CLOSE)
  {
  }

  lemma ChildrenStep(r: ObjectRoom, i: nat)
    requires i < |r.childs| && WritableRoom(r)
    ensures EncodeChildren(r, i) == ChildBlock(r.childs[i]) + EncodeChildren(r, i + 1)
  {
  }

  /** `writeData(builder)`: the data count, each data set, the child count, then
      each child between its opening text and "}". The room comes back as the
      writing leaves it (`buildDataSet` sets a null STRING payload to ""); a
      missing writer, or a null non-STRING payload anywhere in the tree, throws. */
  method WriteData(b: DataBuilder, r: ObjectRoom) returns (res: Result<ObjectRoom>)
    modifies b`written
    ensures res.Ok? <==> b.hasWriter && WritableRoom(r)
    ensures res.Ok? ==> res.value == Normalize(r) && b.written == old(b.written) + EncodeBody(r)
    decreases r, 1
  {
    hide *;
    WritableRoomIff(r);
    var u := b.BuildDataText(ToDecimal(|r.dataObjects|));
    if u.Err? {
      return Err(u.error);
    }
    var done := WriteObjects(b, r.dataObjects);
    if done.Err? {
      return Err(done.error);
    }
    var counted := b.BuildDataText(ToDecimal(|r.childs|));
    var cs := WriteChildren(b, r);
    if cs.Err? {
      return Err(cs.error);
    }
    BodyOfParts(r, old(b.written));
    return Ok(ObjectRoom(r.name, done.value, cs.value));
  }

  /** The first loop of `writeData`: `buildDataSet` on each data object in order. */
  method WriteObjects(b: DataBuilder, objs: seq<DataObject>) returns (res: Result<seq<DataObject>>)
    requires b.hasWriter
    modifies b`written
    ensures res.Ok? <==> forall j :: 0 <= j < |objs| ==> Writable(objs[j])
    ensures res.Ok? ==> res.value == AsWrittenAll(objs) && b.written == old(b.written) + EncodeObjects(objs, 0)
  {
    hide EncodeObjects, EncodeDataObject, EncodePrefix, AsWrittenAll, Token, ToDecimal;
    var done: seq<DataObject> := [];
    PrefixParts(objs, 0);
    for i := 0 to |objs|
      invariant |done| == i
      invariant forall j :: 0 <= j < i ==> Writable(objs[j]) && done[j] == AsWritten(objs[j])
      invariant b.written == old(b.written) + EncodePrefix(objs, i)
    {
      var o := b.BuildDataSet(objs[i]);
      if o.Err? {
        return Err(o.error);
      }
      PrefixParts(objs, i + 1);
      done := done + [o.value];
    }
    PrefixThenRest(objs, |objs|);
    ObjectsParts([], 0, [], objs, |objs|);
    return Ok(done);
  }

  /** The second loop of `writeData`: each child framed by its opening text and "}". */
  method WriteChildren(b: DataBuilder, r: ObjectRoom) returns (res: Result<seq<ObjectRoom>>)
    requires b.hasWriter
    modifies b`written
    ensures res.Ok? <==> forall j :: 0 <= j < |r.childs| ==> WritableRoom(r.childs[j])
    ensures res.Ok? ==> res.value == NormalizeChildren(r) && b.written == old(b.written) + ChildrenPrefix(r, |r.childs|)
    decreases r, 0
  {
    hide *;
    var cs: seq<ObjectRoom> := [];
    ChildrenPrefixParts(r, 0);
    for i := 0 to |r.childs|
      invariant |cs| == i
      invariant forall j :: 0 <= j < i ==> WritableRoom(r.childs[j]) && cs[j] == Normalize(r.childs[j])
      invariant b.written == old(b.written) + ChildrenPrefix(r, i)
    {
      var c := WriteChild(b, r.childs[i]);
      if c.Err? {
        return Err(c.error);
      }
      ChildrenPrefixParts(r, i + 1);
      cs := cs + [c.value];
    }
    return Ok(cs);
  }

  /** One pass of that loop: the opening text, the child's body, then "}". */
  method WriteChild(b: DataBuilder, child: ObjectRoom) returns (res: Result<ObjectRoom>)
    requires b.hasWriter
    modifies b`written
    ensures res.Ok? <==> WritableRoom(child)
    ensures res.Ok? ==> res.value == Normalize(child) && b.written == old(b.written) + ChildBlock(child)
    decreases child, 2
  {
    hide *;
    var framed := b.BuildDataText(RoomOpen(child.name));
    res := WriteData(b, child);
    if res.Err? {
      return;
    }
    var closed := b.BuildDataText(ROOM_CLOSE);
    ChildBlockParts(child);
  }

  /** `xs` in front of the list a decoding produced; errors pass through. */
  function Prepend<T>(xs: seq<T>, r: Result<(seq<T>, nat)>): Result<(seq<T>, nat)>
  {
    match r
    case Err(e) => Err(e)
    case Ok((ys, q)) => Ok((xs + ys, q))
  }

  lemma PrependAssoc<T>(xs: seq<T>, ys: seq<T>, r: Result<(seq<T>, nat)>)
    ensures Prepend(xs, Prepend(ys, r)) == Prepend(xs + ys, r)
  {
    match r
    case Err(_) =>
    case Ok((zs, _)) => assert xs + (ys + zs) == xs + ys + zs;
  }

  lemma PrependNil<T>(r: Result<(seq<T>, nat)>)
    ensures Prepend([], r) == r
  {
    match r
    case Err(_) =>
    case Ok((ys, _)) => assert [] + ys == ys;
  }

  /** No data objects, or no children, to read: nothing is consumed. */
  lemma ReadNothing(input: JString, pos: nat, version: JString, k: int)
    requires pos <= |input| && k <= 0
    ensures DecodeObjects(input, pos, version, k) == Ok(([], pos))
    ensures DecodeChildren(input, pos, version, 0) == Ok(([], pos))
  {
  }

  /** `DecodeObjects` unfolded once: one data object, then the others. */
  lemma ObjectsReadStep(input: JString, pos: nat, version: JString, k: int)
    requires pos <= |input| && k > 0
    ensures DecodeObjects(input, pos, version, k)
              == var d := DecodeDataObject(input, pos, version);
                 if d.Err? then Err(d.error) else Prepend([d.value.0], DecodeObjects(input, d.value.1, version, k - 1))
  {
  }

  /** `DecodeChildren` unfolded once: the opening text, one room, the closing
      token, then the other children. */
  lemma ChildrenReadStep(input: JString, pos: nat, version: JString, k: nat)
    requires pos <= |input| && k > 0
    ensures DecodeChildren(input, pos, version, k)
              == var (t, p1) := DecodeText(input, pos);
                 var name := RoomName(t);
                 if name.Err? then Err(name.error) else
                 var c := DecodeBody(input, p1, version, name.value);
                 if c.Err? then Err(c.error) else
                 Prepend([c.value.0], DecodeChildren(input, DecodeText(input, c.value.1).1, version, k - 1))
  {
  }

  /** `DecodeBody` unfolded once. */
  lemma BodyReadSteps(input: JString, pos: nat, version: JString, name: JString)
    requires pos <= |input|
    ensures DecodeBody(input, pos, version, name)
              == var n := DecodeCount(input, pos);
                 if n.Err? then Err(n.error) else
                 var objs := DecodeObjects(input, n.value.1, version, n.value.0);
                 if objs.Err? then Err(objs.error) else
                 var m := DecodeCount(input, objs.value.1);
                 if m.Err? then Err(m.error) else
                 var cs := DecodeChildren(input, m.value.1, version, if m.value.0 < 0 then 0 else m.value.0);
                 if cs.Err? then Err(cs.error) else Ok((ObjectRoom(name, objs.value.0, cs.value.0), cs.value.1))
  {
  }

  /** `readData(builder)` into a fresh room named `name`. A missing reader is
      the NullPointerException `getDataText` throws; otherwise the room and the
      position are those `DecodeBody` gives, and so is any exception. */
  method ReadData(b: DataBuilder, version: JString, name: JString) returns (res: Result<ObjectRoom>)
    requires b.Valid()
    modifies b`pos
    ensures b.Valid()
    ensures !b.hasReader ==> res == Err(NullPointer)
    ensures b.hasReader ==> match DecodeBody(b.input, old(b.pos), version, name)
                            case Ok((r, p)) => res == Ok(r) && b.pos == p
                            case Err(e) => res == Err(e)
    decreases |b.input| - b.pos, 1
  {
    hide DecodeBody, DecodeObjects, DecodeChildren, DecodeDataObject, DecodeText;
    if !b.hasReader {
      return Err(NullPointer);
    }
    BodyReadSteps(b.input, b.pos, version, name);
    var t := b.GetDataText();
    var n := ParseDecimal(t.value, JavaInt);
    if n.None? {
      return Err(NumberFormat);
    }
    var objs :- ReadObjects(b, version, n.value);
    t := b.GetDataText();
    var m := ParseDecimal(t.value, JavaInt);
    if m.None? {
      return Err(NumberFormat);
    }
    var cs :- ReadChildren(b, version, if m.value < 0 then 0 else m.value);
    return Ok(ObjectRoom(name, objs, cs));
  }

  /** The first loop of `readData`: `n` calls of `getDataObject` (none when `n` <= 0). */
  method ReadObjects(b: DataBuilder, version: JString, n: int) returns (res: Result<seq<DataObject>>)
    requires b.Valid() && b.hasReader
    modifies b`pos
    ensures b.Valid()
    ensures match DecodeObjects(b.input, old(b.pos), version, n)
            case Ok((os, p)) => res == Ok(os) && b.pos == p
            case Err(e) => res == Err(e)
  {
    hide DecodeObjects, DecodeDataObject;
    var done: seq<DataObject> := [];
    var i := 0;
    PrependNil(DecodeObjects(b.input, b.pos, version, n));
    while i < n
      invariant 0 <= i <= (if n > 0 then n else 0) && b.Valid()
      invariant DecodeObjects(b.input, old(b.pos), version, n) == Prepend(done, DecodeObjects(b.input, b.pos, version, n - i))
      decreases n - i
    {
      ghost var p := b.pos;
      var o := b.GetDataObject(version);
      ObjectsReadStep(b.input, p, version, n - i);
      if o.Err? {
        return Err(o.error);
      }
      PrependAssoc(done, [o.value], DecodeObjects(b.input, b.pos, version, n - i - 1));
      done := done + [o.value];
      i := i + 1;
    }
    ReadNothing(b.input, b.pos, version, n - i);
    assert done + [] == done;
    return Ok(done);
  }

  /** The second loop of `readData`: `k` children, each named by the text
      between the brackets of its opening token and followed by its closing token. */
  method ReadChildren(b: DataBuilder, version: JString, k: nat) returns (res: Result<seq<ObjectRoom>>)
    requires b.Valid() && b.hasReader
    modifies b`pos
    ensures b.Valid()
    ensures match DecodeChildren(b.input, old(b.pos), version, k)
            case Ok((cs, p)) => res == Ok(cs) && b.pos == p
            case Err(e) => res == Err(e)
    decreases |b.input| - b.pos, 0
  {
    hide DecodeBody, DecodeChildren, DecodeText;
    var cs: seq<ObjectRoom> := [];
    PrependNil(DecodeChildren(b.input, b.pos, version, k));
    for i := 0 to k
      invariant b.Valid() && old(b.pos) <= b.pos
      invariant DecodeChildren(b.input, old(b.pos), version, k) == Prepend(cs, DecodeChildren(b.input, b.pos, version, k - i))
    {
      ghost var p := b.pos;
      ChildrenReadStep(b.input, p, version, k - i);
      var t := b.GetDataText();
      var name := RoomName(t.value);
      if name.Err? {
        return Err(name.error);
      }
      var c := ReadData(b, version, name.value);
      if c.Err? {
        return Err(c.error);
      }
      var closing := b.GetDataText();
      PrependAssoc(cs, [c.value], DecodeChildren(b.input, b.pos, version, k - i - 1));
      cs := cs + [c.value];
    }
    ReadNothing(b.input, b.pos, version, 0);
    assert cs + [] == cs;
    return Ok(cs);
  }
}
