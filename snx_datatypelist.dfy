/** The key/value store of the legacy SNX format
    (SNXFileIO/src/de/snx/fileIO/DataTypeList.java): two parallel lists, the
    keys and the (type, data) pairs, in the order the entries were added. */
module SnxDataTypeList {
  import opened JavaLang

  /** `DataTypeList.Type`, in declaration order. */
  datatype Type = STRING | INTEGER | BYTE | LONG | SHORT | FLOAT | DOUBLE | BOOLEAN | CHARACTER
  {
    /** `ordinal()`: the position of the tag in `Type.values()`. */
    function Ordinal(): (n: nat)
      ensures n < |VALUES| && VALUES[n] == this
    {
      match this
      case STRING => 0
      case INTEGER => 1
      case BYTE => 2
      case LONG => 3
      case SHORT => 4
      case FLOAT => 5
      case DOUBLE => 6
      case BOOLEAN => 7
      case CHARACTER => 8
    }
  }

  /** `Type.values()`. */
  const VALUES: seq<Type> := [STRING, INTEGER, BYTE, LONG, SHORT, FLOAT, DOUBLE, BOOLEAN, CHARACTER]

  /** `Type.values()[i]`: the tag at position `i`, or the
      ArrayIndexOutOfBoundsException an index outside 0..8 throws. */
  function TypeAt(i: int): (r: Result<Type>)
    ensures r.Ok? <==> 0 <= i < |VALUES|
    ensures r.Ok? ==> r.value.Ordinal() == i
    ensures r.Err? ==> r.error == IndexOutOfBounds
  {
    if 0 <= i < |VALUES| then
      OrdinalOfValue(i);
      Ok(VALUES[i])
    else Err(IndexOutOfBounds)
  }

  /** Every tag of `values()` sits at the position its ordinal names. */
  lemma OrdinalOfValue(i: nat)
    requires i < |VALUES|
    ensures VALUES[i].Ordinal() == i
  {
    assert VALUES[i] in VALUES;
  }

  /** `getTypeFromID(id)` as written: the guard `id < 0 && id >= values().length`
      can never hold, so every id ends in the TypeException. */
  function TypeFromIDAsWritten(id: int): Result<Type>
  {
    if id < 0 && id >= |VALUES| then TypeAt(id) else Err(TypeMismatch)
  }

  /** `getTypeFromID(id)` as evidently intended: the tag with ordinal `id`, and a
      TypeException exactly for an id outside 0..8. */
  function TypeFromID(id: int): (r: Result<Type>)
    ensures r.Ok? <==> 0 <= id < |VALUES|
    ensures r.Ok? ==> r.value.Ordinal() == id
    ensures r.Err? ==> r.error == TypeMismatch
  {
    if 0 <= id < |VALUES| then TypeAt(id) else Err(TypeMismatch)
  }

  /** As written, no id is accepted: the intended lookup of id 0 gives STRING,
      the written one throws. */
  lemma TypeFromIDAsWrittenRefusesAll(id: int)
    ensures TypeFromIDAsWritten(id) == Err(TypeMismatch)
    ensures TypeFromID(0) == Ok(STRING)
  {
  }

  /** The corrected lookup inverts `ordinal()`. */
  lemma TypeFromIDOfOrdinal(t: Type)
    ensures TypeFromID(t.Ordinal()) == Ok(t)
  {
  }

  // ---------------------------------------------------------------------
  // The two lists
  // ---------------------------------------------------------------------

  /** A pair of the `data` list: the type and the data as text. */
  type Entry = (Type, JString)

  predicate Distinct(ks: seq<JString>)
  {
    forall i, j :: 0 <= i < j < |ks| ==> ks[i] != ks[j]
  }

  /** The contents of a DataTypeList: `keys` and `data`, index by index. */
  datatype Table = Table(keys: seq<JString>, data: seq<Entry>)
  {
    /** `checkForCorruption()`: the lists differ in size. */
    predicate Corrupted()
    {
      |keys| != |data|
    }

    /** What `add` keeps: parallel lists and unique keys. */
    predicate Valid()
    {
      !Corrupted() && Distinct(keys)
    }
  }

  const EMPTY: Table := Table([], [])

  /** `keys.indexOf(k)`: the first index holding `k`, or -1. */
  function IndexOf(ks: seq<JString>, k: JString): (i: int)
    ensures -1 <= i < |ks|
    ensures i == -1 <==> k !in ks
    ensures i >= 0 ==> ks[i] == k && k !in ks[..i]
  {
    if ks == [] then -1
    else if ks[0] == k then 0
    else
      var j := IndexOf(ks[1..], k);
      if j == -1 then -1
      else
        assert ks[..j + 1] == [ks[0]] + ks[1..][..j];
        j + 1
  }

  /** The first index is determined by the two facts that describe it. */
  lemma IndexOfIs(ks: seq<JString>, k: JString, i: nat)
    requires i < |ks| && ks[i] == k && k !in ks[..i]
    ensures IndexOf(ks, k) == i
  {
    var j := IndexOf(ks, k);
    assert forall m :: 0 <= m < i ==> ks[..i][m] == ks[m];
    assert forall m :: 0 <= m < j ==> ks[..j][m] == ks[m];
  }

  /** `add(key, type, data)` on a table: a key already present is refused,
      anything else is appended to both lists. */
  function Added(t: Table, key: JString, ty: Type, d: JString): (r: Result<Table>)
  {
    if key in t.keys then Err(DuplicateKey) else Ok(Table(t.keys + [key], t.data + [(ty, d)]))
  }

  /** `get(key)`: a corrupted list throws; an absent key gives null; otherwise
      the pair at the first index of the key. */
  function Lookup(t: Table, key: JString): (r: Result<Option<Entry>>)
    ensures r.Err? <==> t.Corrupted()
    ensures r.Err? ==> r.error == Corrupted
    ensures r == Ok(None) <==> !t.Corrupted() && key !in t.keys
    ensures r.Ok? && r.value.Some? ==>
              exists i :: 0 <= i < |t.keys| && t.keys[i] == key && key !in t.keys[..i] && t.data[i] == r.value.value
  {
    if t.Corrupted() then Err(Corrupted)
    else
      var i := IndexOf(t.keys, key);
      if i == -1 then Ok(None) else Ok(Some(t.data[i]))
  }

  /** `size()`: -1 for a corrupted list, otherwise the number of entries. */
  function Size(t: Table): (n: int)
    ensures n == -1 <==> t.Corrupted()
    ensures n != -1 ==> n == |t.keys| == |t.data|
  {
    if t.Corrupted() then -1 else |t.keys|
  }

  lemma AddedAppends(t: Table, key: JString, ty: Type, d: JString)
    requires key !in t.keys
    ensures Added(t, key, ty, d) == Ok(Table(t.keys + [key], t.data + [(ty, d)]))
  {
  }

  /** `add` keeps the lists parallel and the keys unique, and grows the list by one. */
  lemma AddedKeepsValid(t: Table, key: JString, ty: Type, d: JString)
    requires t.Valid()
    ensures Added(t, key, ty, d).Ok? <==> key !in t.keys
    ensures Added(t, key, ty, d).Ok? ==> Added(t, key, ty, d).value.Valid()
                                         && Size(Added(t, key, ty, d).value) == Size(t) + 1
  {
    if key !in t.keys {
      var ks := t.keys + [key];
      forall i, j | 0 <= i < j < |ks|
        ensures ks[i] != ks[j]
      {
        if j == |t.keys| {
          assert ks[i] in t.keys;
        }
      }
    }
  }

  /** In a valid list, the key at index `i` finds the pair at index `i`. */
  lemma LookupValid(t: Table, i: nat)
    requires t.Valid() && i < |t.keys|
    ensures Lookup(t, t.keys[i]) == Ok(Some(t.data[i]))
  {
    assert forall j :: 0 <= j < i ==> t.keys[..i][j] == t.keys[j] != t.keys[i];
    IndexOfIs(t.keys, t.keys[i], i);
  }

  /** After a successful `add`, the new key finds its pair and every other key
      finds what it found before. */
  lemma LookupAfterAdd(t: Table, key: JString, ty: Type, d: JString, k: JString)
    requires t.Valid() && Added(t, key, ty, d).Ok?
    ensures Lookup(Added(t, key, ty, d).value, k) == if k == key then Ok(Some((ty, d))) else Lookup(t, k)
  {
    var u := Added(t, key, ty, d).value;
    assert u.keys[..|t.keys|] == t.keys;
    if k == key {
      IndexOfIs(u.keys, k, |t.keys|);
    } else if k in t.keys {
      var i := IndexOf(t.keys, k);
      assert u.keys[..i] == t.keys[..i];
      IndexOfIs(u.keys, k, i);
    } else {
      assert k !in u.keys;
    }
  }

  /** A key that is found stays found, with the same pair, after any successful `add`. */
  lemma FoundAfterAdd(t: Table, key: JString, ty: Type, d: JString, k: JString)
    requires t.Valid() && Added(t, key, ty, d).Ok? && Lookup(t, k).Ok? && Lookup(t, k).value.Some?
    ensures Lookup(Added(t, key, ty, d).value, k) == Lookup(t, k)
  {
    LookupAfterAdd(t, key, ty, d, k);
  }

  /** `DataTypeList`: the two lists as fields that `add` appends to. */
  class DataTypeList {
    var keys: seq<JString>
    var data: seq<Entry>

    function State(): Table
      reads this
    {
      Table(keys, data)
    }

    /** `new DataTypeList(fileIO)`: both lists empty. */
    constructor()
      ensures State() == EMPTY
    {
      keys := [];
      data := [];
    }

    /** `add(key, type, data)`: an existing key throws and changes nothing;
        otherwise the key and the pair are appended at the same index. */
    method Add(key: JString, ty: Type, d: JString) returns (r: Result<()>)
      modifies this
      ensures key in old(keys) ==> r == Err(DuplicateKey) && keys == old(keys) && data == old(data)
      ensures key !in old(keys) ==> r == Ok(()) && keys == old(keys) + [key] && data == old(data) + [(ty, d)]
      ensures r.Ok? <==> Added(old(State()), key, ty, d).Ok?
      ensures r.Ok? ==> State() == Added(old(State()), key, ty, d).value
    {
      if key in keys {
        return Err(DuplicateKey);
      }
      keys := keys + [key];
      data := data + [(ty, d)];
      return Ok(());
    }
  }
}
