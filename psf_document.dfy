/** The state of a src/de/snx/psf/PSFFileIO.java controller as a value: the
    room tree under `topRoom` and the cursor `currentRoom`, kept as the index
    path that leads to it. The cursor moves, the typed writes and reads of the
    current room, and the encoding of a list as a `key_array` room are
    functions of that state; the class in psf_fileio.dfy performs them in place. */
module PsfDocument {
  import opened JavaLang
  import opened PsfDataType
  import opened PsfDataObject
  import opened PsfObjectRoom
  import opened PsfRoomTree

  /** The name of the root room, created by the constructor. */
  const ROOT_NAME: JString := Lit("topRoom")

  datatype Doc = Doc(root: ObjectRoom, cursor: seq<nat>) {
    predicate Valid() { ValidPath(root, cursor) }

    /** `currentRoom`. */
    function Current(): ObjectRoom
      requires Valid()
    {
      RoomAt(root, cursor)
    }
  }

  /** A state whose cursor leads to a room: what code handed the controller can leave behind. */
  type ValidDoc = d: Doc | d.Valid() witness Doc(ObjectRoom([], [], []), [])

  // ---------------------------------------------------------------------
  // Cursor moves
  // ---------------------------------------------------------------------

  /** The index of the first child named `name`. */
  function ChildIndex(cs: seq<ObjectRoom>, name: JString): (r: Option<nat>)
    ensures r.Some? ==> r.value < |cs| && cs[r.value].name == name
    ensures r.Some? ==> forall j :: 0 <= j < r.value ==> cs[j].name != name
    ensures r.None? <==> forall j :: 0 <= j < |cs| ==> cs[j].name != name
    decreases |cs|
  {
    if cs == [] then None
    else if cs[0].name == name then Some(0)
    else
      match ChildIndex(cs[1..], name)
      case None => None
      case Some(i) => Some(i + 1)
  }

  /** The first index holding a child named `name` is the one `ChildIndex` finds. */
  lemma ChildIndexIsFirst(cs: seq<ObjectRoom>, name: JString, i: nat)
    requires i < |cs| && cs[i].name == name
    requires forall j :: 0 <= j < i ==> cs[j].name != name
    ensures ChildIndex(cs, name) == Some(i)
  {
    var r := ChildIndex(cs, name);
    if r.Some? && r.value < i {
    } else if r.Some? && r.value > i {
    }
  }

  /** `enterRoom(name)`: the root's own name is refused (nothing changes);
      otherwise the cursor moves to the first child with that name, or to a
      new empty child appended under that name. */
  function Enter(d: Doc, name: JString): (e: Doc)
    requires d.Valid()
    ensures e.Valid()
  {
    if name == ROOT_NAME then d
    else
      var here := d.Current();
      match ChildIndex(here.childs, name)
      case Some(j) =>
        ChildPath(d.root, d.cursor, j);
        Doc(d.root, d.cursor + [j])
      case None =>
        var grown := here.(childs := here.childs + [NewRoom(name)]);
        ReplaceAtFound(d.root, d.cursor, grown);
        ChildPath(ReplaceAt(d.root, d.cursor, grown), d.cursor, |here.childs|);
        Doc(ReplaceAt(d.root, d.cursor, grown), d.cursor + [|here.childs|])
  }

  /** `exitRoom()`: at the root nothing happens; elsewhere the cursor moves to the parent. */
  function Exit(d: Doc): (e: Doc)
    requires d.Valid()
    ensures e.Valid()
  {
    if d.cursor == [] then d
    else
      PrefixPath(d.root, d.cursor, |d.cursor| - 1);
      Doc(d.root, d.cursor[..|d.cursor| - 1])
  }

  /** `exitAllRooms()`. */
  function ExitAll(d: Doc): (e: Doc)
    ensures e.Valid() && e.root == d.root && e.cursor == []
  {
    Doc(d.root, [])
  }

  /** `room(name, f)`: enter, hand the name to `f`, exit. */
  function RoomCall(d: Doc, name: JString, f: (ValidDoc, JString) -> ValidDoc): (e: Doc)
    requires d.Valid()
    ensures e.Valid()
  {
    Exit(f(Enter(d, name), name))
  }

  /** Entering a name other than the root's leads to a child of the old current
      room with that name: the first such child when there is one, and then the
      tree is untouched; otherwise a new empty room appended as the last child. */
  lemma EnterMeaning(d: Doc, name: JString)
    requires d.Valid() && name != ROOT_NAME
    ensures var e := Enter(d, name);
            |e.cursor| == |d.cursor| + 1 && e.cursor[..|d.cursor|] == d.cursor
            && ValidPath(e.root, d.cursor)
            && e.cursor[|d.cursor|] < |RoomAt(e.root, d.cursor).childs|
            && e.Current() == RoomAt(e.root, d.cursor).childs[e.cursor[|d.cursor|]]
            && e.Current().name == name
            && ChildIndex(RoomAt(e.root, d.cursor).childs, name) == Some(e.cursor[|d.cursor|])
    ensures ChildIndex(d.Current().childs, name).Some? ==> Enter(d, name).root == d.root
    ensures ChildIndex(d.Current().childs, name).None? ==>
              var here := d.Current();
              Enter(d, name).root == ReplaceAt(d.root, d.cursor, here.(childs := here.childs + [NewRoom(name)]))
              && Enter(d, name).Current() == NewRoom(name)
  {
    var e := Enter(d, name);
    var here := d.Current();
    assert e.cursor[..|d.cursor|] == d.cursor;
    match ChildIndex(here.childs, name)
    case Some(j) =>
      ChildPath(d.root, d.cursor, j);
    case None =>
      var grown := here.(childs := here.childs + [NewRoom(name)]);
      ReplaceAtFound(d.root, d.cursor, grown);
      ChildPath(e.root, d.cursor, |here.childs|);
      ChildIndexIsFirst(grown.childs, name, |here.childs|);
  }

  /** `exitRoom` after `enterRoom` returns to where the cursor was. */
  lemma ExitAfterEnter(d: Doc, name: JString)
    requires d.Valid() && name != ROOT_NAME
    ensures Exit(Enter(d, name)).cursor == d.cursor
  {
    EnterMeaning(d, name);
  }

  /** Entering a room, leaving it and entering it again creates no second room
      of that name: the second entry finds the first. */
  lemma EnterTwiceNoDuplicate(d: Doc, name: JString)
    requires d.Valid() && name != ROOT_NAME
    ensures Enter(Exit(Enter(d, name)), name) == Enter(d, name)
  {
    var e := Enter(d, name);
    EnterMeaning(d, name);
    var x := Exit(e);
    assert x == Doc(e.root, d.cursor);
    assert x.Current() == RoomAt(e.root, d.cursor);
  }

  /** If `f` leaves the cursor where it found it, `room(name, f)` brings the
      cursor back to the room it started from. */
  lemma RoomRestoresCursor(d: Doc, name: JString, f: (ValidDoc, JString) -> ValidDoc)
    requires d.Valid() && name != ROOT_NAME
    requires f(Enter(d, name), name).cursor == Enter(d, name).cursor
    ensures RoomCall(d, name, f).cursor == d.cursor
  {
    EnterMeaning(d, name);
  }

  /** With the root's name, `enterRoom` does nothing but `exitRoom` still runs:
      `room("topRoom", f)` with an `f` that does nothing moves the cursor up. */
  lemma RoomWithRootNameMovesUp(d: Doc)
    requires d.Valid()
    ensures RoomCall(d, ROOT_NAME, (s: ValidDoc, n: JString) => s) == Exit(d)
  {
  }

  // ---------------------------------------------------------------------
  // Writes and reads of the current room
  // ---------------------------------------------------------------------

  /** Store `o` in the current room (overwrite the first object with its key, or append). */
  function WriteAt(d: Doc, o: DataObject): (e: Doc)
    requires d.Valid()
    ensures e.Valid() && e.cursor == d.cursor
  {
    var here := d.Current();
    ReplaceAtFound(d.root, d.cursor, here.(dataObjects := Put(here.dataObjects, o)));
    Doc(ReplaceAt(d.root, d.cursor, here.(dataObjects := Put(here.dataObjects, o))), d.cursor)
  }

  /** After a store, the current room is the old one with `o` stored. */
  lemma WriteAtCurrent(d: Doc, o: DataObject)
    requires d.Valid()
    ensures WriteAt(d, o).Current() == d.Current().(dataObjects := Put(d.Current().dataObjects, o))
  {
    var here := d.Current();
    ReplaceAtFound(d.root, d.cursor, here.(dataObjects := Put(here.dataObjects, o)));
  }

  /** The tag of the `write` overload a value selects; a null reaches the
      String overload. Other objects have no overload. */
  function ValueTag(v: JValue): DataType
    requires !v.JOther?
  {
    match v
    case JNull => STRING
    case JStr(_) => STRING
    case JChar(_) => CHARACTER
    case JByte(_) => BYTE
    case JShort(_) => SHORT
    case JInt(_) => INTEGER
    case JLong(_) => LONG
    case JFloat(_) => FLOAT
    case JDouble(_) => DOUBLE
    case JBool(_) => BOOLEAN
  }

  /** The typed `write(key, value)` overloads: the value's tag and its text
      (`Character.toString`, `Byte.toString`, ..., `Boolean.toString`; the
      string itself, possibly null). */
  function WriteValue(d: Doc, key: JString, v: JValue): (e: Doc)
    requires d.Valid() && !v.JOther?
    ensures e.Valid() && e.cursor == d.cursor
  {
    WriteAt(d, DataObject(key, ValueTag(v), v.ToStr()))
  }

  /** The `read*` method for tag `t` applied to what `getDataObject(key)`
      found: a missing object gives the sentinel ("null", ' ', -1, -1.0 or
      false); otherwise the matching `getDataAs*` getter decides. */
  function ReadObjectAs(found: Option<DataObject>, t: DataType): (r: Result<JValue>)
    ensures r.Ok? ==> !r.value.JOther?
  {
    match found
    case None =>
      (match t
       case STRING => Ok(JStr(Lit("null")))
       case CHARACTER => Ok(JChar(32))
       case BYTE => Ok(JByte(-1))
       case SHORT => Ok(JShort(-1))
       case INTEGER => Ok(JInt(-1))
       case LONG => Ok(JLong(-1))
       case FLOAT => Ok(JFloat(Lit("-1.0")))
       case DOUBLE => Ok(JDouble(Lit("-1.0")))
       case BOOLEAN => Ok(JBool(false)))
    case Some(o) =>
      match t
      case STRING => Ok(match GetDataAsString(o) case None => JNull case Some(s) => JStr(s))
      case CHARACTER => (match GetDataAsCharacter(o) case Ok(c) => Ok(JChar(c)) case Err(e) => Err(e))
      case BYTE => (match GetDataAsIntegral(o, JavaByte) case Ok(n) => Ok(JByte(n)) case Err(e) => Err(e))
      case SHORT => (match GetDataAsIntegral(o, JavaShort) case Ok(n) => Ok(JShort(n)) case Err(e) => Err(e))
      case INTEGER => (match GetDataAsIntegral(o, JavaInt) case Ok(n) => Ok(JInt(n)) case Err(e) => Err(e))
      case LONG => (match GetDataAsIntegral(o, JavaLong) case Ok(n) => Ok(JLong(n)) case Err(e) => Err(e))
      case FLOAT => (match GetDataAsFloating(o) case Ok(s) => Ok(JFloat(s)) case Err(e) => Err(e))
      case DOUBLE => (match GetDataAsFloating(o) case Ok(s) => Ok(JDouble(s)) case Err(e) => Err(e))
      case BOOLEAN => (match GetDataAsBoolean(o) case Ok(z) => Ok(JBool(z)) case Err(e) => Err(e))
  }

  /** `readString(key)`, `readChar(key)`, ..., `readBoolean(key)` on a room:
      the read of tag `t`. */
  function ReadAs(room: ObjectRoom, key: JString, t: DataType): Result<JValue>
  {
    ReadObjectAs(Lookup(room.dataObjects, key), t)
  }

  /** A missing key reads as the sentinel of each read method. */
  lemma MissingKeySentinels(room: ObjectRoom, key: JString)
    requires forall j :: 0 <= j < |room.dataObjects| ==> room.dataObjects[j].key != key
    ensures ReadAs(room, key, STRING) == Ok(JStr(Lit("null")))
    ensures ReadAs(room, key, CHARACTER) == Ok(JChar(32))
    ensures ReadAs(room, key, INTEGER) == Ok(JInt(-1)) && ReadAs(room, key, LONG) == Ok(JLong(-1))
    ensures ReadAs(room, key, BYTE) == Ok(JByte(-1)) && ReadAs(room, key, SHORT) == Ok(JShort(-1))
    ensures ReadAs(room, key, BOOLEAN) == Ok(JBool(false))
  {
  }

  /** The text a value is written as reads back, under the value's tag, as the value. */
  lemma {:induction false} ReadObjectOfValue(key: JString, v: JValue)
    requires !v.JOther? && v.Valid()
    ensures ReadObjectAs(Some(DataObject(key, ValueTag(v), v.ToStr())), ValueTag(v)) == Ok(v)
  {
    match v
    case JByte(n) => IntegralGetterReadsDecimal(key, BYTE, JavaByte, n);
    case JShort(n) => IntegralGetterReadsDecimal(key, SHORT, JavaShort, n);
    case JInt(n) => IntegralGetterReadsDecimal(key, INTEGER, JavaInt, n);
    case JLong(n) => IntegralGetterReadsDecimal(key, LONG, JavaLong, n);
    case JBool(z) => ParseBooleanOfBoolText(z);
    case _ =>
  }

  /** A typed write followed by the read of the same type under the same key
      gives the value back (the floating ones as the text they were written as). */
  lemma TypedRoundTrip(d: Doc, key: JString, v: JValue)
    requires d.Valid() && !v.JOther? && v.Valid()
    ensures ReadAs(WriteValue(d, key, v).Current(), key, ValueTag(v)) == Ok(v)
  {
    var o := DataObject(key, ValueTag(v), v.ToStr());
    WriteAtCurrent(d, o);
    LookupAfterPut(d.Current().dataObjects, o, key);
    ReadObjectOfValue(key, v);
  }

  // ---------------------------------------------------------------------
  // Lists as `key_array` rooms
  // ---------------------------------------------------------------------

  const ARRAY_SUFFIX: JString := Lit("_array")
  const ARRAY_SIZE: JString := Lit("array_size")
  const ELEMENT: JString := Lit("element_")

  /** `"element_" + i`. */
  function ElementKey(i: int): JString
  {
    ELEMENT + ToDecimal(i)
  }

  /** `checkType(o)`: the tag of the element's class; `o.getClass()` on null
      throws, and a class outside the nine is an IllegalArgumentException. */
  function CheckTypeOf(v: JValue): (r: Result<DataType>)
    ensures r.Ok? <==> !v.JNull? && !v.JOther?
    ensures r.Ok? ==> r.value == ValueTag(v)
    ensures v.JNull? ==> r == Err(NullPointer)
    ensures v.JOther? ==> r == Err(IllegalArgument)
  {
    match v
    case JNull => Err(NullPointer)
    case JOther(_) => Err(IllegalArgument)
    case _ => Ok(ValueTag(v))
  }

  /** The position of the first null element (`toString()` on it throws), or the length. */
  function FirstNull(xs: seq<JValue>): (k: nat)
    ensures k <= |xs| && (k < |xs| ==> xs[k].JNull?)
    ensures forall i :: 0 <= i < k ==> !xs[i].JNull?
    decreases |xs|
  {
    if xs == [] then 0 else if xs[0].JNull? then 0 else 1 + FirstNull(xs[1..])
  }

  /** The first `n` elements written, each as `"element_" + i` with tag `t` and its `toString()`. */
  function WriteElements(d: Doc, t: DataType, xs: seq<JValue>, n: nat): (e: Doc)
    requires d.Valid() && n <= |xs| && forall i :: 0 <= i < n ==> !xs[i].JNull?
    ensures e.Valid() && e.cursor == d.cursor
  {
    if n == 0 then d
    else WriteAt(WriteElements(d, t, xs, n - 1), DataObject(ElementKey(n - 1), t, xs[n - 1].ToStr()))
  }

  /** `write(key, list)`: enter (or create) the room `key + "_array"`, store
      "array_size"; for a non-empty list take the tag of the first element's
      class and store every element under it; then exit. An exception leaves
      the cursor in the array room with what was stored so far. */
  function ListWrite(d: Doc, key: JString, xs: seq<JValue>): (r: (Doc, Result<()>))
    requires d.Valid()
    ensures r.0.Valid()
  {
    var d1 := Enter(d, key + ARRAY_SUFFIX);
    var d2 := WriteAt(d1, DataObject(ARRAY_SIZE, INTEGER, Some(ToDecimal(|xs|))));
    if |xs| == 0 then (Exit(d2), Ok(()))
    else
      match CheckTypeOf(xs[0])
      case Err(e) => (d2, Err(e))
      case Ok(t) =>
        var k := FirstNull(xs);
        var d3 := WriteElements(d2, t, xs, k);
        if k < |xs| then (d3, Err(NullPointer)) else (Exit(d3), Ok(()))
  }

  /** The first null element is the one that the facts describing it name. */
  lemma {:induction false} FirstNullIs(xs: seq<JValue>, k: nat)
    requires k <= |xs| && (k < |xs| ==> xs[k].JNull?)
    requires forall i :: 0 <= i < k ==> !xs[i].JNull?
    ensures FirstNull(xs) == k
    decreases |xs|
  {
    if xs != [] && k > 0 {
      FirstNullIs(xs[1..], k - 1);
    }
  }

  lemma WriteElementsNone(d: Doc, t: DataType, xs: seq<JValue>)
    requires d.Valid()
    ensures WriteElements(d, t, xs, 0) == d
  {
  }

  /** One more element written. */
  lemma WriteElementsStep(d: Doc, t: DataType, xs: seq<JValue>, n: nat)
    requires d.Valid() && n < |xs| && forall i :: 0 <= i <= n ==> !xs[i].JNull?
    ensures WriteElements(d, t, xs, n + 1) == WriteAt(WriteElements(d, t, xs, n), DataObject(ElementKey(n), t, xs[n].ToStr()))
  {
  }

  /** `ListWrite` case by case, after the room is entered and "array_size" stored. */
  lemma ListWriteCases(d: Doc, key: JString, xs: seq<JValue>)
    requires d.Valid()
    ensures var d2 := WriteAt(Enter(d, key + ARRAY_SUFFIX), DataObject(ARRAY_SIZE, INTEGER, Some(ToDecimal(|xs|))));
            && (|xs| == 0 ==> ListWrite(d, key, xs) == (Exit(d2), Ok(())))
            && (|xs| > 0 && CheckTypeOf(xs[0]).Err? ==> ListWrite(d, key, xs) == (d2, Err(CheckTypeOf(xs[0]).error)))
            && (|xs| > 0 && CheckTypeOf(xs[0]).Ok? ==>
                  var d3 := WriteElements(d2, CheckTypeOf(xs[0]).value, xs, FirstNull(xs));
                  ListWrite(d, key, xs) == if FirstNull(xs) < |xs| then (d3, Err(NullPointer)) else (Exit(d3), Ok(())))
  {
  }

  /** The elements 0 .. n-1 read with the read method of tag `t`; the first failure ends the loop. */
  function ReadElements(room: ObjectRoom, t: DataType, n: nat): (r: Result<seq<JValue>>)
    ensures r.Ok? ==> |r.value| == n
  {
    if n == 0 then Ok([])
    else
      match ReadElements(room, t, n - 1)
      case Err(e) => Err(e)
      case Ok(vs) =>
        match ReadAs(room, ElementKey(n - 1), t)
        case Err(e) => Err(e)
        case Ok(v) => Ok(vs + [v])
  }

  /** The first failing element read decides the outcome of all later counts. */
  lemma {:induction false} ReadElementsStopsAtError(room: ObjectRoom, t: DataType, i: nat, n: nat)
    requires i <= n && ReadElements(room, t, i).Err?
    ensures ReadElements(room, t, n) == ReadElements(room, t, i)
    decreases n
  {
    if i < n {
      ReadElementsStopsAtError(room, t, i, n - 1);
    }
  }

  /** `readArrayList(key)`: enter (or create) the room `key + "_array"`; read
      "array_size" as an int (a missing one is a NullPointerException); for a
      positive size read that many elements with the read method of the tag of
      "element_0"; otherwise the list is empty; then exit. An exception leaves
      the cursor in the array room. */
  function ListRead(d: Doc, key: JString): (r: (Doc, Result<seq<JValue>>))
    requires d.Valid()
    ensures r.0.Valid()
  {
    var d1 := Enter(d, key + ARRAY_SUFFIX);
    var room := d1.Current();
    match Lookup(room.dataObjects, ARRAY_SIZE)
    case None => (d1, Err(NullPointer))
    case Some(so) =>
      match GetDataAsIntegral(so, JavaInt)
      case Err(e) => (d1, Err(e))
      case Ok(n) =>
        if n <= 0 then (Exit(d1), Ok([]))
        else
          match Lookup(room.dataObjects, ElementKey(0))
          case None => (d1, Err(NullPointer))
          case Some(e0) =>
            match ReadElements(room, e0.dtype, n)
            case Err(e) => (d1, Err(e))
            case Ok(vs) => (Exit(d1), Ok(vs))
  }

  /** Lists `readArrayList` can give back: every element of the first
      element's class, none null, none of another class. */
  predicate Homogeneous(xs: seq<JValue>)
  {
    forall i :: 0 <= i < |xs| ==> xs[i].Valid() && CheckTypeOf(xs[i]).Ok? && CheckTypeOf(xs[i]) == CheckTypeOf(xs[0])
  }

  /** Only the names of the children decide which one `ChildIndex` finds. */
  lemma ChildIndexByNames(cs: seq<ObjectRoom>, ds: seq<ObjectRoom>, name: JString)
    requires |cs| == |ds| && forall j :: 0 <= j < |cs| ==> cs[j].name == ds[j].name
    ensures ChildIndex(cs, name) == ChildIndex(ds, name)
  {
    match ChildIndex(cs, name)
    case Some(i) => ChildIndexIsFirst(ds, name, i);
    case None =>
  }

  /** The cursor is on child `j` of the room at `p`, the first child named `name`. */
  predicate EnteredAs(e: Doc, p: seq<nat>, j: nat, name: JString)
  {
    e.Valid() && e.cursor == p + [j] && ValidPath(e.root, p)
    && ChildIndex(RoomAt(e.root, p).childs, name) == Some(j)
  }

  lemma EnterIsEnteredAs(d: Doc, name: JString)
    requires d.Valid() && name != ROOT_NAME
    ensures |Enter(d, name).cursor| == |d.cursor| + 1
    ensures EnteredAs(Enter(d, name), d.cursor, Enter(d, name).cursor[|d.cursor|], name)
  {
    var e := Enter(d, name);
    EnterMeaning(d, name);
    assert e.cursor == e.cursor[..|d.cursor|] + [e.cursor[|d.cursor|]];
  }

  /** A store into the current room leaves the cursor where it was found by name. */
  lemma WriteAtKeepsEntered(e: Doc, p: seq<nat>, j: nat, name: JString, o: DataObject)
    requires EnteredAs(e, p, j, name)
    ensures EnteredAs(WriteAt(e, o), p, j, name)
  {
    var here := e.Current();
    var r := here.(dataObjects := Put(here.dataObjects, o));
    ChildPath(e.root, p, j);
    ReplaceChild(e.root, p, j, r);
    ChildIndexByNames(RoomAt(e.root, p).childs, RoomAt(WriteAt(e, o).root, p).childs, name);
  }

  lemma {:induction false} ElementsKeepEntered(d: Doc, t: DataType, xs: seq<JValue>, n: nat, p: seq<nat>, j: nat, name: JString)
    requires EnteredAs(d, p, j, name) && n <= |xs| && forall i :: 0 <= i < n ==> !xs[i].JNull?
    ensures EnteredAs(WriteElements(d, t, xs, n), p, j, name)
  {
    if n > 0 {
      ElementsKeepEntered(d, t, xs, n - 1, p, j, name);
      WriteAtKeepsEntered(WriteElements(d, t, xs, n - 1), p, j, name, DataObject(ElementKey(n - 1), t, xs[n - 1].ToStr()));
    }
  }

  /** Leaving a room entered by name and entering that name again comes back to it. */
  lemma ReenterEntered(e: Doc, p: seq<nat>, j: nat, name: JString)
    requires EnteredAs(e, p, j, name) && name != ROOT_NAME
    ensures Exit(e).cursor == p
    ensures Enter(Exit(e), name) == e
  {
    assert (p + [j])[..|p|] == p;
  }

  /** No key "x_array" is the root's name. */
  lemma ArrayRoomIsNotRoot(key: JString)
    ensures key + ARRAY_SUFFIX != ROOT_NAME
  {
    var s := key + ARRAY_SUFFIX;
    assert s[|s| - 1] == 121;
    if |s| == |ROOT_NAME| {
      assert ROOT_NAME[|s| - 1] == 109;
    }
  }

  /** Different positions have different element keys. */
  lemma ElementKeyInjective(i: int, k: int)
    requires ElementKey(i) == ElementKey(k)
    ensures i == k
  {
    assert ToDecimal(i) == ElementKey(i)[|ELEMENT|..];
    assert ToDecimal(k) == ElementKey(k)[|ELEMENT|..];
    ToDecimalInjective(i, k);
  }

  /** No element key is "array_size". */
  lemma ElementKeyIsNotSize(i: int)
    ensures ElementKey(i) != ARRAY_SIZE
  {
    assert ElementKey(i)[0] == 101;
    assert ARRAY_SIZE[0] == 97;
  }

  /** After the element stores, each element is found under its key and
      "array_size" is as before. */
  lemma {:induction false} ElementsStored(d: Doc, t: DataType, xs: seq<JValue>, n: nat)
    requires d.Valid() && n <= |xs| && forall i :: 0 <= i < n ==> !xs[i].JNull?
    ensures var objs := WriteElements(d, t, xs, n).Current().dataObjects;
            Lookup(objs, ARRAY_SIZE) == Lookup(d.Current().dataObjects, ARRAY_SIZE)
            && forall i :: 0 <= i < n ==> Lookup(objs, ElementKey(i)) == Some(DataObject(ElementKey(i), t, xs[i].ToStr()))
  {
    if n > 0 {
      hide *;
      var prev := WriteElements(d, t, xs, n - 1);
      var o := DataObject(ElementKey(n - 1), t, xs[n - 1].ToStr());
      var objs := Put(prev.Current().dataObjects, o);
      WriteElementsStep(d, t, xs, n - 1);
      ElementsStored(d, t, xs, n - 1);
      WriteAtCurrent(prev, o);
      ElementKeyIsNotSize(n - 1);
      LookupAfterPut(prev.Current().dataObjects, o, ARRAY_SIZE);
      forall i | 0 <= i < n
        ensures Lookup(objs, ElementKey(i)) == Some(DataObject(ElementKey(i), t, xs[i].ToStr()))
      {
        if i < n - 1 {
          OtherElementKept(prev.Current().dataObjects, o, i, n - 1);
        } else {
          LookupAfterPut(prev.Current().dataObjects, o, ElementKey(n - 1));
        }
      }
    }
  }

  lemma OtherElementKept(objs: seq<DataObject>, o: DataObject, i: int, m: int)
    requires o.key == ElementKey(m) && i != m
    ensures Lookup(Put(objs, o), ElementKey(i)) == Lookup(objs, ElementKey(i))
  {
    LookupAfterPut(objs, o, ElementKey(i));
    if ElementKey(i) == ElementKey(m) {
      ElementKeyInjective(i, m);
    }
  }

  /** Stored elements of one class read back, in order, as the list. */
  lemma {:induction false} ElementsReadBack(room: ObjectRoom, t: DataType, xs: seq<JValue>, n: nat)
    requires n <= |xs| && forall i :: 0 <= i < n ==> xs[i].Valid() && CheckTypeOf(xs[i]) == Ok(t)
    requires forall i :: 0 <= i < n ==> Lookup(room.dataObjects, ElementKey(i)) == Some(DataObject(ElementKey(i), t, xs[i].ToStr()))
    ensures ReadElements(room, t, n) == Ok(xs[..n])
  {
    hide ReadObjectAs, ElementKey, Lookup, CheckTypeOf;
    if n > 0 {
      ElementsReadBack(room, t, xs, n - 1);
      ReadObjectOfValue(ElementKey(n - 1), xs[n - 1]);
      assert xs[..n - 1] + [xs[n - 1]] == xs[..n];
    }
  }

  /** A list of one class with no null in it, written with `write(key, list)`,
      comes back from `readArrayList(key)`; both leave the cursor where it was. */
  lemma ListRoundTrip(d: Doc, key: JString, xs: seq<JValue>)
    requires d.Valid() && Homogeneous(xs) && JavaInt.Holds(|xs|)
    ensures ListWrite(d, key, xs).1 == Ok(())
    ensures ListWrite(d, key, xs).0.cursor == d.cursor
    ensures ListRead(ListWrite(d, key, xs).0, key) == (ListWrite(d, key, xs).0, Ok(xs))
  {
    var name := key + ARRAY_SUFFIX;
    ArrayRoomIsNotRoot(key);
    var d1 := Enter(d, name);
    EnterIsEnteredAs(d, name);
    var j := d1.cursor[|d.cursor|];
    var sizeObj := DataObject(ARRAY_SIZE, INTEGER, Some(ToDecimal(|xs|)));
    var d2 := WriteAt(d1, sizeObj);
    WriteAtKeepsEntered(d1, d.cursor, j, name, sizeObj);
    WriteAtCurrent(d1, sizeObj);
    LookupAfterPut(d1.Current().dataObjects, sizeObj, ARRAY_SIZE);
    IntegralGetterReadsDecimal(ARRAY_SIZE, INTEGER, JavaInt, |xs|);
    if |xs| == 0 {
      ReenterEntered(d2, d.cursor, j, name);
    } else {
      var t := ValueTag(xs[0]);
      assert FirstNull(xs) == |xs|;
      var d3 := WriteElements(d2, t, xs, |xs|);
      ElementsKeepEntered(d2, t, xs, |xs|, d.cursor, j, name);
      ElementsStored(d2, t, xs, |xs|);
      ReenterEntered(d3, d.cursor, j, name);
      ElementsReadBack(d3.Current(), t, xs, |xs|);
      assert xs[..|xs|] == xs;
    }
  }
}
