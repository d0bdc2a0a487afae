/** The parent links of src/de/snx/psf/util/ObjectRoom.java, as index paths:
    a room is addressed by the child indices that lead to it from the root,
    its parent is the room at the path without its last index, and the root
    (the room built with a null parent, which is its own parent) is the room
    at the empty path. */
module PsfRoomTree {
  import opened JavaLang
  import opened PsfDataObject
  import opened PsfObjectRoom

  /** `p` leads from `root` through existing children. */
  predicate ValidPath(root: ObjectRoom, p: seq<nat>)
    decreases |p|
  {
    p == [] || (p[0] < |root.childs| && ValidPath(root.childs[p[0]], p[1..]))
  }

  /** The room that `p` leads to. */
  function RoomAt(root: ObjectRoom, p: seq<nat>): ObjectRoom
    requires ValidPath(root, p)
    decreases |p|
  {
    if p == [] then root else RoomAt(root.childs[p[0]], p[1..])
  }

  /** `root` with the room at `p` replaced by `r`: what an in-place update of
      that room does to the tree. */
  function ReplaceAt(root: ObjectRoom, p: seq<nat>, r: ObjectRoom): (t: ObjectRoom)
    requires ValidPath(root, p)
    ensures p != [] ==> t.name == root.name && |t.childs| == |root.childs|
    decreases |p|
  {
    if p == [] then r
    else root.(childs := root.childs[p[0] := ReplaceAt(root.childs[p[0]], p[1..], r)])
  }

  /** The child `j` of the room at `p` is the room at `p + [j]`. */
  lemma {:induction false} ChildPath(root: ObjectRoom, p: seq<nat>, j: nat)
    requires ValidPath(root, p) && j < |RoomAt(root, p).childs|
    ensures ValidPath(root, p + [j]) && RoomAt(root, p + [j]) == RoomAt(root, p).childs[j]
    decreases |p|
  {
    if p == [] {
      assert [j][1..] == [];
    } else {
      assert (p + [j])[1..] == p[1..] + [j];
      ChildPath(root.childs[p[0]], p[1..], j);
    }
  }

  /** Every room but the root has a parent: the room one index up, of which it is a child. */
  lemma ParentPath(root: ObjectRoom, p: seq<nat>)
    requires ValidPath(root, p) && p != []
    ensures ValidPath(root, p[..|p| - 1])
    ensures p[|p| - 1] < |RoomAt(root, p[..|p| - 1]).childs|
    ensures RoomAt(root, p) == RoomAt(root, p[..|p| - 1]).childs[p[|p| - 1]]
  {
    var q, j := p[..|p| - 1], p[|p| - 1];
    assert p == q + [j];
    PrefixPath(root, p, |p| - 1);
    ChildIndexInRange(root, q, j);
    ChildPath(root, q, j);
  }

  lemma {:induction false} ChildIndexInRange(root: ObjectRoom, q: seq<nat>, j: nat)
    requires ValidPath(root, q + [j]) && ValidPath(root, q)
    ensures j < |RoomAt(root, q).childs|
    decreases |q|
  {
    if q == [] {
    } else {
      assert (q + [j])[1..] == q[1..] + [j];
      ChildIndexInRange(root.childs[q[0]], q[1..], j);
    }
  }

  /** Every prefix of a path is a path: the ancestors of a room exist. */
  lemma {:induction false} PrefixPath(root: ObjectRoom, p: seq<nat>, k: nat)
    requires ValidPath(root, p) && k <= |p|
    ensures ValidPath(root, p[..k])
    decreases |p|
  {
    if k > 0 {
      assert p[..k][1..] == p[1..][..k - 1];
      PrefixPath(root.childs[p[0]], p[1..], k - 1);
    }
  }

  /** After replacing the room at `p`, `p` still leads somewhere, namely to the new room. */
  lemma {:induction false} ReplaceAtFound(root: ObjectRoom, p: seq<nat>, r: ObjectRoom)
    requires ValidPath(root, p)
    ensures ValidPath(ReplaceAt(root, p, r), p) && RoomAt(ReplaceAt(root, p, r), p) == r
    decreases |p|
  {
    if p != [] {
      ReplaceAtFound(root.childs[p[0]], p[1..], r);
    }
  }

  /** Replacing the child `j` of the room at `p` changes that room only in its child `j`. */
  lemma {:induction false} ReplaceChild(root: ObjectRoom, p: seq<nat>, j: nat, r: ObjectRoom)
    requires ValidPath(root, p) && j < |RoomAt(root, p).childs|
    ensures ValidPath(root, p + [j])
    ensures ValidPath(ReplaceAt(root, p + [j], r), p)
    ensures RoomAt(ReplaceAt(root, p + [j], r), p) == RoomAt(root, p).(childs := RoomAt(root, p).childs[j := r])
    decreases |p|
  {
    ChildPath(root, p, j);
    if p == [] {
      assert [j][1..] == [];
    } else {
      assert (p + [j])[1..] == p[1..] + [j];
      ReplaceChild(root.childs[p[0]], p[1..], j, r);
    }
  }

  /** Writing a tree out (which turns null STRING payloads into "") keeps its shape. */
  lemma {:induction false} NormalizeKeepsPaths(root: ObjectRoom, p: seq<nat>)
    requires ValidPath(root, p)
    ensures ValidPath(Normalize(root), p)
    decreases |p|
  {
    if p != [] {
      NormalizeKeepsPaths(root.childs[p[0]], p[1..]);
    }
  }

  /** Appending children and data objects to the root keeps every path. */
  lemma RootGrowthKeepsPaths(root: ObjectRoom, objs: seq<DataObject>, cs: seq<ObjectRoom>, p: seq<nat>)
    requires ValidPath(root, p)
    ensures ValidPath(ObjectRoom(root.name, root.dataObjects + objs, root.childs + cs), p)
  {
    if p != [] {
      assert (root.childs + cs)[p[0]] == root.childs[p[0]];
    }
  }

  // ---------------------------------------------------------------------
  // getPath
  // ---------------------------------------------------------------------

  const SLASH: JString := [47]

  /** The names of the rooms along `p`, below the root, top down. */
  function NamesAlong(root: ObjectRoom, p: seq<nat>): (ns: seq<JString>)
    requires ValidPath(root, p)
    ensures |ns| == |p|
    decreases |p|
  {
    if p == [] then [] else [root.childs[p[0]].name] + NamesAlong(root.childs[p[0]], p[1..])
  }

  /** Each name followed by "/". */
  function Joined(ns: seq<JString>): JString
    decreases |ns|
  {
    if ns == [] then [] else ns[0] + SLASH + Joined(ns[1..])
  }

  /** The path text of the room at `p`: "" for the root; otherwise the names of
      its ancestors strictly below the root, then its own, each followed by "/". */
  function PathText(root: ObjectRoom, p: seq<nat>): JString
    requires ValidPath(root, p)
  {
    Joined(NamesAlong(root, p))
  }

  /** The name at position `i` along a path is the name of the room at the path's first `i + 1` steps. */
  lemma {:induction false} NamesAlongAt(root: ObjectRoom, p: seq<nat>, i: nat)
    requires ValidPath(root, p) && i < |p|
    ensures ValidPath(root, p[..i + 1]) && NamesAlong(root, p)[i] == RoomAt(root, p[..i + 1]).name
    decreases |p|
  {
    if i > 0 {
      assert p[..i + 1][1..] == p[1..][..i];
      NamesAlongAt(root.childs[p[0]], p[1..], i - 1);
    }
  }

  lemma JoinedStep(ns: seq<JString>, i: nat)
    requires i < |ns|
    ensures Joined(ns[i..]) == ns[i] + SLASH + Joined(ns[i + 1..])
  {
    assert ns[i..][1..] == ns[i + 1..];
  }

  /** The path of a child is its parent's path, then its own name and "/". */
  lemma {:induction false} PathOfChild(root: ObjectRoom, p: seq<nat>, j: nat)
    requires ValidPath(root, p) && j < |RoomAt(root, p).childs|
    ensures ValidPath(root, p + [j])
    ensures PathText(root, p + [j]) == PathText(root, p) + RoomAt(root, p).childs[j].name + SLASH
    decreases |p|
  {
    ChildPath(root, p, j);
    if p == [] {
      assert [j][1..] == [];
    } else {
      var c, q := root.childs[p[0]], p[1..];
      assert (p + [j])[0] == p[0] && (p + [j])[1..] == q + [j];
      PathOfChild(c, q, j);
      var x := RoomAt(c, q).childs[j].name;
      assert NamesAlong(root, p + [j]) == [c.name] + NamesAlong(c, q + [j]);
      JoinedCons(c.name, NamesAlong(c, q + [j]));
      JoinedCons(c.name, NamesAlong(c, q));
      assert PathText(root, p) == c.name + SLASH + PathText(c, q);
      assert PathText(root, p + [j]) == c.name + SLASH + (PathText(c, q) + x + SLASH);
    }
  }

  lemma JoinedCons(n: JString, ns: seq<JString>)
    ensures Joined([n] + ns) == n + SLASH + Joined(ns)
  {
    assert ([n] + ns)[1..] == ns;
  }

  /** `getPath()` of the room at `p`: "" for the root; otherwise start from the
      room's own name and "/", and while the room reached has a parent other
      than the root, put the parent's name and "/" in front and move up. */
  method GetPath(root: ObjectRoom, p: seq<nat>) returns (path: JString)
    requires ValidPath(root, p)
    ensures path == PathText(root, p)
  {
    if p == [] {
      return [];
    }
    var names := NamesAlong(root, p);
    NamesAlongAt(root, p, |p| - 1);
    assert p[..|p|] == p;
    path := RoomAt(root, p).name + SLASH;
    assert names[|p| - 1..][1..] == names[|p|..] == [];
    var k := |p|;
    while k > 1
      invariant 1 <= k <= |p|
      invariant path == Joined(names[k - 1..])
    {
      PrefixPath(root, p, k - 1);
      NamesAlongAt(root, p, k - 2);
      path := RoomAt(root, p[..k - 1]).name + SLASH + path;
      JoinedStep(names, k - 2);
      k := k - 1;
    }
  }
}
