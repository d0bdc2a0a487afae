/** The file framing of src/de/snx/psf/PSFFileIO.java (`writeData`,
    `readData`, `checkFilePath`) and the controller class itself: the room
    tree, the cursor, and the identification fields read from a file. */
module PsfFileIO {
  import opened JavaLang
  import opened PsfDataType
  import opened PsfDataObject
  import opened PsfDataBuilder
  import opened PsfObjectRoom
  import opened PsfRoomTree
  import opened PsfVersion
  import opened PsfDocument

  // ---------------------------------------------------------------------
  // The header
  // ---------------------------------------------------------------------

  const VERSION_PREFIX: JString := Lit("Version: ")
  const UPDATED_PREFIX: JString := Lit("Updated: ")
  const CREATOR_PREFIX: JString := Lit("Creator: ")
  const FILE_CREATOR_PREFIX: JString := Lit("File Creator: ")

  /** The identification lines as `readData` keeps them. */
  datatype Header = Header(version: JString, updated: JString, creator: JString, fileCreator: JString)

  /** `s.substring(n)`. */
  function Substring(s: JString, n: nat): (r: Result<JString>)
    ensures r.Ok? <==> n <= |s|
    ensures r.Ok? ==> s == s[..n] + r.value
    ensures r.Err? ==> r.error == IndexOutOfBounds
  {
    if n <= |s| then Ok(s[n..]) else Err(IndexOutOfBounds)
  }

  /** `getDataText().substring(n)`: one text with its first `n` units dropped. */
  function ReadField(input: JString, pos: nat, n: nat): (r: Result<(JString, nat)>)
    requires pos <= |input|
    ensures r.Ok? ==> pos <= r.value.1 <= |input|
  {
    var (t, p) := DecodeText(input, pos);
    match Substring(t, n)
    case Err(e) => Err(e)
    case Ok(s) => Ok((s, p))
  }

  /** What `writeData` writes: the identifier, the four identification lines,
      the root's opening text, the root's body and the closing "}". */
  function EncodeFile(fileCreator: JString, root: ObjectRoom): JString
    requires WritableRoom(root)
  {
    Token(IDENTIFIER) + Token(VERSION_PREFIX + VERSION) + Token(UPDATED_PREFIX + UPDATED)
    + Token(CREATOR_PREFIX + CREATOR) + Token(FILE_CREATOR_PREFIX + fileCreator)
    + Token(RoomOpen(root.name)) + EncodeBody(root) + Token(ROOM_CLOSE)
  }

  /** The header part of `readData`: the identifier must be the current or the
      old one; each identification line loses its prefix (a line shorter than
      its prefix is an IndexOutOfBounds); the version goes through
      `checkVersion`. */
  function DecodeFileHeader(input: JString, pos: nat): (r: Result<(Header, nat)>)
    requires pos <= |input|
    ensures r.Ok? ==> pos <= r.value.1 <= |input|
  {
    var (id, p1) := DecodeText(input, pos);
    if id != IDENTIFIER && id != OLD_IDENTIFIER then Err(FileFormat)
    else
      match ReadField(input, p1, |VERSION_PREFIX|)
      case Err(e) => Err(e)
      case Ok((v0, p2)) =>
        match VersionGuard(v0, IsDot)
        case Err(e) => Err(e)
        case Ok(v) =>
          match ReadField(input, p2, |UPDATED_PREFIX|)
          case Err(e) => Err(e)
          case Ok((u, p3)) =>
            match ReadField(input, p3, |CREATOR_PREFIX|)
            case Err(e) => Err(e)
            case Ok((c, p4)) =>
              match ReadField(input, p4, |FILE_CREATOR_PREFIX|)
              case Err(e) => Err(e)
              case Ok((f, p5)) => Ok((Header(v, u, c, f), p5))
  }

  /** `readData`: the header, the (unchecked) opening text of the root, the
      root's body read with the file's version, and the (unchecked) closing
      text. The body is named "topRoom" whatever the opening text says. */
  function DecodeFile(input: JString, pos: nat): (r: Result<(Header, ObjectRoom, nat)>)
    requires pos <= |input|
    ensures r.Ok? ==> pos <= r.value.2 <= |input| && r.value.1.name == ROOT_NAME
  {
    match DecodeFileHeader(input, pos)
    case Err(e) => Err(e)
    case Ok((h, p1)) =>
      var (_, p2) := DecodeText(input, p1);
      match DecodeBody(input, p2, h.version, ROOT_NAME)
      case Err(e) => Err(e)
      case Ok((body, p3)) =>
        var (_, p4) := DecodeText(input, p3);
        Ok((h, body, p4))
  }

  /** A field written with its prefix is read back without it. */
  lemma ReadFieldOfToken(input: JString, pos: nat, prefix: JString, s: JString)
    requires |prefix + s| < 0x10000 && At(input, pos, Token(prefix + s))
    ensures ReadField(input, pos, |prefix|) == Ok((s, pos + |Token(prefix + s)|))
  {
    DecodeTextOfToken(input, pos, prefix + s);
    assert (prefix + s)[|prefix|..] == s;
  }

  lemma HeaderLiterals()
    ensures |IDENTIFIER| == 12 && |VERSION_PREFIX + VERSION| == 14 && |UPDATED_PREFIX + UPDATED| == 14
    ensures |CREATOR_PREFIX + CREATOR| == 15 && |FILE_CREATOR_PREFIX| == 14 && |VERSION_PREFIX| == 9
    ensures |UPDATED_PREFIX| == 9 && |CREATOR_PREFIX| == 9 && |ROOM_CLOSE| == 1
    ensures VERSION != VERSION_3_0
  {
  }

  /** The header `writeData` writes is read back as this library's version,
      date and creator and the file creator it was given. */
  lemma HeaderRoundTrip(input: JString, pos: nat, fileCreator: JString)
    requires |fileCreator| + 14 < 0x10000
    requires At(input, pos, Token(IDENTIFIER) + Token(VERSION_PREFIX + VERSION) + Token(UPDATED_PREFIX + UPDATED)
                            + Token(CREATOR_PREFIX + CREATOR) + Token(FILE_CREATOR_PREFIX + fileCreator))
    ensures DecodeFileHeader(input, pos)
            == Ok((Header(VERSION, UPDATED, CREATOR, fileCreator),
                   pos + |Token(IDENTIFIER) + Token(VERSION_PREFIX + VERSION) + Token(UPDATED_PREFIX + UPDATED)
                          + Token(CREATOR_PREFIX + CREATOR) + Token(FILE_CREATOR_PREFIX + fileCreator)|))
  {
    hide Lit, Token, VersionGuard, ReadField, DecodeText;
    HeaderLiterals();
    var t1, t2, t3 := Token(IDENTIFIER), Token(VERSION_PREFIX + VERSION), Token(UPDATED_PREFIX + UPDATED);
    var t4, t5 := Token(CREATOR_PREFIX + CREATOR), Token(FILE_CREATOR_PREFIX + fileCreator);
    AtSplit(input, pos, t1 + t2 + t3 + t4, t5);
    AtSplit(input, pos, t1 + t2 + t3, t4);
    AtSplit(input, pos, t1 + t2, t3);
    AtSplit(input, pos, t1, t2);
    DecodeTextOfToken(input, pos, IDENTIFIER);
    ReadFieldOfToken(input, pos + |t1|, VERSION_PREFIX, VERSION);
    CurrentVersionAccepted();
    ReadFieldOfToken(input, pos + |t1| + |t2|, UPDATED_PREFIX, UPDATED);
    ReadFieldOfToken(input, pos + |t1| + |t2| + |t3|, CREATOR_PREFIX, CREATOR);
    ReadFieldOfToken(input, pos + |t1| + |t2| + |t3| + |t4|, FILE_CREATOR_PREFIX, fileCreator);
  }

  /** What `writeData` writes for a tree `readData` can carry, `readData` reads
      back: this library's identification lines, the file creator, and the
      tree as written (null STRING payloads read as ""). */
  lemma FileRoundTrip(fileCreator: JString, root: ObjectRoom)
    requires EncodableRoom(root) && root.name == ROOT_NAME && |fileCreator| + 14 < 0x10000
    ensures WritableRoom(root)
    ensures DecodeFile(EncodeFile(fileCreator, root), 0)
            == Ok((Header(VERSION, UPDATED, CREATOR, fileCreator), Normalize(root), |EncodeFile(fileCreator, root)|))
  {
    hide *;
    EncodableIsWritable(root);
    var input := EncodeFile(fileCreator, root);
    var head := Token(IDENTIFIER) + Token(VERSION_PREFIX + VERSION) + Token(UPDATED_PREFIX + UPDATED)
                + Token(CREATOR_PREFIX + CREATOR) + Token(FILE_CREATOR_PREFIX + fileCreator);
    var opener, body, closer := Token(RoomOpen(root.name)), EncodeBody(root), Token(ROOM_CLOSE);
    FileParts(fileCreator, root);
    var p1, p2, p3 := |head|, |head| + |opener|, |head| + |opener| + |body|;
    AtFour(input, head, opener, body, closer);
    HeaderRoundTrip(input, 0, fileCreator);
    DecodeTextOfToken(input, p1, RoomOpen(root.name));
    BodyRoundTrip(input, p2, VERSION, root);
    DecodeTextOfToken(input, p3, ROOM_CLOSE);
    DecodeFileSteps(input, 0, Header(VERSION, UPDATED, CREATOR, fileCreator), p1, p2, Normalize(root), p3, |input|);
  }

  /** The four consecutive parts of a text occur in it one after the other. */
  lemma AtFour(input: JString, a: JString, b: JString, c: JString, d: JString)
    requires input == a + b + c + d
    ensures At(input, 0, a) && At(input, |a|, b) && At(input, |a| + |b|, c) && At(input, |a| + |b| + |c|, d)
    ensures |input| == |a| + |b| + |c| + |d|
  {
    AtWhole(input);
    AtSplit(input, 0, a + b + c, d);
    AtSplit(input, 0, a + b, c);
    AtSplit(input, 0, a, b);
  }

  lemma AtWhole(s: JString)
    ensures At(s, 0, s)
  {
  }

  lemma FileParts(fileCreator: JString, root: ObjectRoom)
    requires EncodableRoom(root) && WritableRoom(root) && root.name == ROOT_NAME && |fileCreator| + 14 < 0x10000
    ensures EncodeFile(fileCreator, root)
            == Token(IDENTIFIER) + Token(VERSION_PREFIX + VERSION) + Token(UPDATED_PREFIX + UPDATED)
               + Token(CREATOR_PREFIX + CREATOR) + Token(FILE_CREATOR_PREFIX + fileCreator)
               + Token(RoomOpen(root.name)) + EncodeBody(root) + Token(ROOM_CLOSE)
    ensures |RoomOpen(root.name)| < 0x10000 && |ROOM_CLOSE| < 0x10000 && VERSION != VERSION_3_0
    ensures |Token(ROOM_CLOSE)| == |ROOM_CLOSE| + 1 && |Token(RoomOpen(root.name))| == |RoomOpen(root.name)| + 1
  {
    HeaderLiterals();
  }

  /** `writeData` appends its eight parts one after the other. */
  lemma EncodeFileParts(fileCreator: JString, root: ObjectRoom, w0: JString)
    requires WritableRoom(root)
    ensures w0 + Token(IDENTIFIER) + Token(VERSION_PREFIX + VERSION) + Token(UPDATED_PREFIX + UPDATED)
            + Token(CREATOR_PREFIX + CREATOR) + Token(FILE_CREATOR_PREFIX + fileCreator)
            + Token(RoomOpen(root.name)) + EncodeBody(root) + Token(ROOM_CLOSE)
            == w0 + EncodeFile(fileCreator, root)
  {
    hide *;
    var a, b, c := Token(IDENTIFIER), Token(VERSION_PREFIX + VERSION), Token(UPDATED_PREFIX + UPDATED);
    var d, e := Token(CREATOR_PREFIX + CREATOR), Token(FILE_CREATOR_PREFIX + fileCreator);
    var f, g, h := Token(RoomOpen(root.name)), EncodeBody(root), Token(ROOM_CLOSE);
    EncodeFileUnfold(fileCreator, root);
    AppendAssoc8(w0, a, b, c, d, e, f, g, h);
  }

  lemma EncodeFileUnfold(fileCreator: JString, root: ObjectRoom)
    requires WritableRoom(root)
    ensures EncodeFile(fileCreator, root)
            == Token(IDENTIFIER) + Token(VERSION_PREFIX + VERSION) + Token(UPDATED_PREFIX + UPDATED)
               + Token(CREATOR_PREFIX + CREATOR) + Token(FILE_CREATOR_PREFIX + fileCreator)
               + Token(RoomOpen(root.name)) + EncodeBody(root) + Token(ROOM_CLOSE)
  {
    hide Token, EncodeBody, RoomOpen;
  }

  lemma AppendAssoc8(w: JString, a: JString, b: JString, c: JString, d: JString, e: JString, f: JString, g: JString, h: JString)
    ensures w + a + b + c + d + e + f + g + h == w + (a + b + c + d + e + f + g + h)
  {
  }

  lemma DecodeFileHeaderSteps(input: JString, pos: nat, id: JString, p1: nat, v: JString, p2: nat, u: JString, p3: nat,
                              c: JString, p4: nat, f: JString, p5: nat)
    requires pos <= |input| && p1 <= |input| && p2 <= |input| && p3 <= |input| && p4 <= |input|
    requires DecodeText(input, pos) == (id, p1) && (id == IDENTIFIER || id == OLD_IDENTIFIER)
    requires ReadField(input, p1, |VERSION_PREFIX|).Ok? && ReadField(input, p1, |VERSION_PREFIX|).value.1 == p2
    requires VersionGuard(ReadField(input, p1, |VERSION_PREFIX|).value.0, IsDot) == Ok(v)
    requires ReadField(input, p2, |UPDATED_PREFIX|) == Ok((u, p3))
    requires ReadField(input, p3, |CREATOR_PREFIX|) == Ok((c, p4))
    requires ReadField(input, p4, |FILE_CREATOR_PREFIX|) == Ok((f, p5))
    ensures DecodeFileHeader(input, pos) == Ok((Header(v, u, c, f), p5))
  {
  }

  lemma DecodeFileHeaderFails(input: JString, pos: nat)
    requires pos <= |input| && DecodeFileHeader(input, pos).Err?
    ensures DecodeFile(input, pos) == Err(DecodeFileHeader(input, pos).error)
  {
  }

  lemma DecodeBodyFails(input: JString, pos: nat, p2: nat)
    requires pos <= |input| && DecodeFileHeader(input, pos).Ok?
    requires p2 == DecodeText(input, DecodeFileHeader(input, pos).value.1).1
    requires DecodeBody(input, p2, DecodeFileHeader(input, pos).value.0.version, ROOT_NAME).Err?
    ensures DecodeFile(input, pos) == Err(DecodeBody(input, p2, DecodeFileHeader(input, pos).value.0.version, ROOT_NAME).error)
  {
  }

  lemma DecodeFileSteps(input: JString, pos: nat, h: Header, p1: nat, p2: nat, body: ObjectRoom, p3: nat, p4: nat)
    requires pos <= |input| && p1 <= |input| && p2 <= |input| && p3 <= |input|
    requires DecodeFileHeader(input, pos) == Ok((h, p1))
    requires DecodeText(input, p1).1 == p2
    requires DecodeBody(input, p2, h.version, ROOT_NAME) == Ok((body, p3))
    requires DecodeText(input, p3).1 == p4
    ensures DecodeFile(input, pos) == Ok((h, body, p4))
  {
  }

  // ---------------------------------------------------------------------
  // checkFilePath
  // ---------------------------------------------------------------------

  const PSF_EXTENSION: JString := Lit(".psf")

  /** The characters a path may not contain: # % & { } \ < > * ? $ ! ' " : + - ´ ` | = */
  const ILLEGAL_CHARS: JString := [35, 37, 38, 123, 125, 92, 60, 62, 42, 63, 36, 33, 39, 34, 58, 43, 45, 0xB4, 96, 124, 61]

  /** `s.lastIndexOf(c)`. */
  function LastIndexOf(s: JString, c: Unit): (r: int)
    ensures -1 <= r < |s|
    ensures r >= 0 ==> s[r] == c
    ensures forall j :: r < j < |s| ==> s[j] != c
    decreases |s|
  {
    if s == [] then -1 else if s[|s| - 1] == c then |s| - 1 else LastIndexOf(s[..|s| - 1], c)
  }

  /** The path `checkFilePath` inspects: ".psf" is appended when there is no
      '.' at all or the last '/' comes after the last '.'; a path with no '.'
      that ends in '/' is refused. */
  function CompletedPath(path: JString): Result<JString>
  {
    var point := LastIndexOf(path, 46);
    if point == -1 then
      if |path| > 0 && path[|path| - 1] == 47 then Err(FileFormat) else Ok(path + PSF_EXTENSION)
    else if LastIndexOf(path, 47) > point then Ok(path + PSF_EXTENSION)
    else Ok(path)
  }

  /** The verdict of `checkFilePath`. */
  function FilePathCheck(path: JString): Result<()>
  {
    match CompletedPath(path)
    case Err(e) => Err(e)
    case Ok(p) => if exists k :: 0 <= k < |ILLEGAL_CHARS| && ILLEGAL_CHARS[k] in p then Err(FileFormat) else Ok(())
  }

  /** A path is accepted exactly when it is not a directory-like path without
      any '.' and none of its characters is illegal: the appended extension
      never changes the verdict. */
  lemma FilePathCheckMeaning(path: JString)
    ensures FilePathCheck(path).Ok? <==>
              !(46 !in path && |path| > 0 && path[|path| - 1] == 47)
              && forall k :: 0 <= k < |path| ==> path[k] !in ILLEGAL_CHARS
    ensures FilePathCheck(path).Err? ==> FilePathCheck(path) == Err(FileFormat)
  {
    var point := LastIndexOf(path, 46);
    if point == -1 {
      assert 46 !in path;
    } else {
      assert 46 in path;
    }
    match CompletedPath(path)
    case Err(_) =>
    case Ok(p) =>
      IllegalOfCompleted(path, p);
  }

  /** No character of the ".psf" extension is illegal. */
  lemma ExtensionLegal()
    ensures forall m :: 0 <= m < |PSF_EXTENSION| ==> PSF_EXTENSION[m] !in ILLEGAL_CHARS
  {
    assert PSF_EXTENSION == [46, 112, 115, 102];
  }

  /** The completed path holds an illegal character exactly when the path does. */
  lemma IllegalOfCompleted(path: JString, p: JString)
    requires p == path || p == path + PSF_EXTENSION
    ensures (exists k :: 0 <= k < |ILLEGAL_CHARS| && ILLEGAL_CHARS[k] in p)
            <==> !(forall m :: 0 <= m < |path| ==> path[m] !in ILLEGAL_CHARS)
  {
    if exists k :: 0 <= k < |ILLEGAL_CHARS| && ILLEGAL_CHARS[k] in p {
      var k :| 0 <= k < |ILLEGAL_CHARS| && ILLEGAL_CHARS[k] in p;
      var m :| 0 <= m < |p| && p[m] == ILLEGAL_CHARS[k];
      ExtensionLegal();
      assert m < |path|;
      assert path[m] in ILLEGAL_CHARS;
    } else {
      forall m | 0 <= m < |path| ensures path[m] !in ILLEGAL_CHARS {
        assert p[m] == path[m] && p[m] in p;
      }
    }
  }

  /** `checkFilePath(path)`: complete the path, then test it for each illegal character in turn. */
  method CheckFilePath(path: JString) returns (r: Result<()>)
    ensures r == FilePathCheck(path)
  {
    var p := path;
    var point := LastIndexOf(path, 46);
    if point == -1 {
      if |path| > 0 && path[|path| - 1] == 47 {
        return Err(FileFormat);
      }
      p := path + PSF_EXTENSION;
    } else if LastIndexOf(path, 47) > point {
      p := path + PSF_EXTENSION;
    }
    var i := 0;
    while i < |ILLEGAL_CHARS|
      invariant 0 <= i <= |ILLEGAL_CHARS|
      invariant forall k :: 0 <= k < i ==> ILLEGAL_CHARS[k] !in p
    {
      if ILLEGAL_CHARS[i] in p {
        return Err(FileFormat);
      }
      i := i + 1;
    }
    return Ok(());
  }

  // ---------------------------------------------------------------------
  // The controller
  // ---------------------------------------------------------------------

  const ROW_DATA: JString := Lit("data")
  const ROW_ROOM: JString := Lit("room")

  /** A PSFFileIO controller: the tree under `topRoom`, the cursor
      `currentRoom` as the path that leads to it, the file creator, and the
      identification lines read from a file (static fields in the source). */
  class PSFFileIO {
    var topRoom: ObjectRoom
    var cursor: seq<nat>
    var fileCreator: JString
    var fileVersion: Option<JString>
    var fileUpdated: Option<JString>
    var fileIOCreator: Option<JString>
    const hasWriter: bool

    ghost predicate Valid()
      reads this
    {
      ValidPath(topRoom, cursor) && topRoom.name == ROOT_NAME
    }

    /** The tree and the cursor as a value. */
    function State(): Doc
      reads this
    {
      Doc(topRoom, cursor)
    }

    /** The private constructor (with or without a writer attached): an empty
        "topRoom" that is also the current room. */
    constructor(withWriter: bool)
      ensures Valid() && topRoom == NewRoom(ROOT_NAME) && cursor == []
      ensures fileCreator == Lit("n/a") && fileVersion.None? && fileUpdated.None? && fileIOCreator.None?
      ensures hasWriter == withWriter
    {
      topRoom := NewRoom(ROOT_NAME);
      cursor := [];
      fileCreator := Lit("n/a");
      fileVersion, fileUpdated, fileIOCreator := None, None, None;
      hasWriter := withWriter;
    }

    /** `enterRoom(name)`: scan the children of the current room for the name;
        append a new room when none has it. */
    method EnterRoom(name: JString)
      requires Valid()
      modifies this`topRoom, this`cursor
      ensures Valid() && State() == Enter(old(State()), name)
    {
      if name == ROOT_NAME {
        return;
      }
      var here := RoomAt(topRoom, cursor);
      var i := 0;
      while i < |here.childs|
        invariant i <= |here.childs|
        invariant forall j :: 0 <= j < i ==> here.childs[j].name != name
      {
        if here.childs[i].name == name {
          ChildIndexIsFirst(here.childs, name, i);
          ChildPath(topRoom, cursor, i);
          cursor := cursor + [i];
          return;
        }
        i := i + 1;
      }
      var grown := here.(childs := here.childs + [NewRoom(name)]);
      ReplaceAtFound(topRoom, cursor, grown);
      ChildPath(ReplaceAt(topRoom, cursor, grown), cursor, |here.childs|);
      topRoom := ReplaceAt(topRoom, cursor, grown);
      cursor := cursor + [|here.childs|];
    }

    /** `exitRoom()`. */
    method ExitRoom()
      requires Valid()
      modifies this`cursor
      ensures Valid() && State() == Exit(old(State()))
    {
      if cursor == [] {
        return;
      }
      PrefixPath(topRoom, cursor, |cursor| - 1);
      cursor := cursor[..|cursor| - 1];
    }

    /** `exitAllRooms()`. */
    method ExitAllRooms()
      requires Valid()
      modifies this`cursor
      ensures Valid() && State() == ExitAll(old(State()))
    {
      cursor := [];
    }

    /** `room(name, f)`; `f` works on the controller, which gives it no way to rename "topRoom". */
    method Room(name: JString, f: (ValidDoc, JString) -> ValidDoc)
      requires Valid()
      requires forall d: ValidDoc, n: JString :: f(d, n).root.name == d.root.name
      modifies this`topRoom, this`cursor
      ensures Valid() && State() == RoomCall(old(State()), name, f)
    {
      EnterRoom(name);
      var after := f(State(), name);
      topRoom, cursor := after.root, after.cursor;
      ExitRoom();
    }

    /** `currentRoom.write(key, t, data)`. */
    method WriteHere(key: JString, t: DataType, data: Option<JString>)
      requires Valid()
      modifies this`topRoom
      ensures Valid() && State() == WriteAt(old(State()), DataObject(key, t, data))
    {
      var here := RoomAt(topRoom, cursor);
      var objs := PsfObjectRoom.Write(here.dataObjects, key, t, data);
      ReplaceAtFound(topRoom, cursor, here.(dataObjects := objs));
      topRoom := ReplaceAt(topRoom, cursor, here.(dataObjects := objs));
    }

    /** The typed `write(key, value)` overloads. */
    method Write(key: JString, v: JValue)
      requires Valid() && !v.JOther?
      modifies this`topRoom
      ensures Valid() && State() == WriteValue(old(State()), key, v)
    {
      WriteHere(key, ValueTag(v), v.ToStr());
    }

    /** `write(key, list)`. */
    method WriteList(key: JString, xs: seq<JValue>) returns (r: Result<()>)
      requires Valid()
      modifies this`topRoom, this`cursor
      ensures Valid() && (State(), r) == ListWrite(old(State()), key, xs)
    {
      ListWriteCases(State(), key, xs);
      hide ListWrite, WriteElements, FirstNull, WriteAt, Enter, Exit;
      EnterRoom(key + ARRAY_SUFFIX);
      WriteHere(ARRAY_SIZE, INTEGER, Some(ToDecimal(|xs|)));
      if |xs| == 0 {
        ExitRoom();
        return Ok(());
      }
      var t := CheckTypeOf(xs[0]);
      if t.Err? {
        return Err(t.error);
      }
      r := WriteElementValues(t.value, xs);
      if r.Ok? {
        ExitRoom();
      }
    }

    /** The element loop of `write(key, list)`: each element stored in the
        current room under its element key with tag `t`, up to the first null,
        which throws. */
    method WriteElementValues(t: DataType, xs: seq<JValue>) returns (r: Result<()>)
      requires Valid()
      modifies this`topRoom
      ensures Valid() && State() == WriteElements(old(State()), t, xs, FirstNull(xs))
      ensures r == if FirstNull(xs) < |xs| then Err(NullPointer) else Ok(())
    {
      ghost var start := State();
      hide WriteElements, FirstNull, WriteAt;
      WriteElementsNone(start, t, xs);
      var i := 0;
      while i < |xs|
        invariant 0 <= i <= |xs| && Valid()
        invariant forall j :: 0 <= j < i ==> !xs[j].JNull?
        invariant State() == WriteElements(start, t, xs, i)
      {
        if xs[i].JNull? {
          FirstNullIs(xs, i);
          return Err(NullPointer);
        }
        WriteElementsStep(start, t, xs, i);
        WriteHere(ElementKey(i), t, xs[i].ToStr());
        i := i + 1;
      }
      FirstNullIs(xs, |xs|);
      return Ok(());
    }

    /** `readArrayList(key)`. */
    method ReadArrayList(key: JString) returns (r: Result<seq<JValue>>)
      requires Valid()
      modifies this`topRoom, this`cursor
      ensures Valid() && (State(), r) == ListRead(old(State()), key)
    {
      hide ReadElements, ReadAs, Enter;
      EnterRoom(key + ARRAY_SUFFIX);
      var here := RoomAt(topRoom, cursor);
      var sizeObj := PsfObjectRoom.GetDataObject(here.dataObjects, ARRAY_SIZE);
      if sizeObj.None? {
        return Err(NullPointer);
      }
      var size := GetDataAsIntegral(sizeObj.value, JavaInt);
      if size.Err? {
        return Err(size.error);
      }
      if size.value <= 0 {
        ExitRoom();
        return Ok([]);
      }
      var first := PsfObjectRoom.GetDataObject(here.dataObjects, ElementKey(0));
      if first.None? {
        return Err(NullPointer);
      }
      var vs := ReadElementValues(here, first.value.dtype, size.value);
      if vs.Err? {
        return Err(vs.error);
      }
      ExitRoom();
      return Ok(vs.value);
    }

    /** The element loop of `readArrayList`: elements 0 .. n-1 of the room,
        each read with the read method of tag `t`; the first failure ends it. */
    method ReadElementValues(here: ObjectRoom, t: DataType, n: nat) returns (r: Result<seq<JValue>>)
      ensures r == ReadElements(here, t, n)
    {
      var vs: seq<JValue> := [];
      var i := 0;
      while i < n
        invariant 0 <= i <= n
        invariant ReadElements(here, t, i) == Ok(vs)
      {
        var v := ReadAs(here, ElementKey(i), t);
        if v.Err? {
          ReadElementsStopsAtError(here, t, i + 1, n);
          return Err(v.error);
        }
        vs := vs + [v.value];
        i := i + 1;
      }
      return Ok(vs);
    }

    /** `getDataObject(key)`: the first object of the current room with that key. */
    method GetDataObject(key: JString) returns (r: Option<DataObject>)
      requires Valid()
      ensures r == Lookup(State().Current().dataObjects, key)
    {
      r := PsfObjectRoom.GetDataObject(RoomAt(topRoom, cursor).dataObjects, key);
    }

    /** `addDataObject(o)`: replace the first object with an equal key, or append. */
    method AddDataObject(o: DataObject)
      requires Valid()
      modifies this`topRoom
      ensures Valid() && State() == WriteAt(old(State()), o)
    {
      var here := RoomAt(topRoom, cursor);
      var objs := here.dataObjects;
      var i := 0;
      while i < |objs| && objs[i].key != o.key
        invariant 0 <= i <= |objs|
        invariant forall j :: 0 <= j < i ==> objs[j].key != o.key
      {
        i := i + 1;
      }
      if i < |objs| {
        IndexOfKeyIsFirst(objs, o.key, i);
        objs := objs[i := o];
      } else {
        objs := objs + [o];
      }
      ReplaceAtFound(topRoom, cursor, here.(dataObjects := objs));
      topRoom := ReplaceAt(topRoom, cursor, here.(dataObjects := objs));
    }

    /** `listCurrentRoom()`: one row per data object (its key and "data"), then
        one per child (its name and "room"). */
    method ListCurrentRoom() returns (rows: array<(JString, JString)>)
      requires Valid()
      ensures fresh(rows)
      ensures rows.Length == |RoomAt(topRoom, cursor).dataObjects| + |RoomAt(topRoom, cursor).childs|
      ensures forall i :: 0 <= i < |RoomAt(topRoom, cursor).dataObjects| ==>
                rows[i] == (RoomAt(topRoom, cursor).dataObjects[i].key, ROW_DATA)
      ensures forall i :: 0 <= i < |RoomAt(topRoom, cursor).childs| ==>
                rows[|RoomAt(topRoom, cursor).dataObjects| + i] == (RoomAt(topRoom, cursor).childs[i].name, ROW_ROOM)
    {
      var data := RoomAt(topRoom, cursor).dataObjects;
      var childs := RoomAt(topRoom, cursor).childs;
      rows := new (JString, JString)[|childs| + |data|];
      for i := 0 to |data|
        invariant forall k :: 0 <= k < i ==> rows[k] == (data[k].key, ROW_DATA)
      {
        rows[i] := (data[i].key, ROW_DATA);
      }
      for i := 0 to |childs|
        invariant forall k :: 0 <= k < |data| ==> rows[k] == (data[k].key, ROW_DATA)
        invariant forall k :: 0 <= k < i ==> rows[|data| + k] == (childs[k].name, ROW_ROOM)
      {
        rows[i + |data|] := (childs[i].name, ROW_ROOM);
      }
    }

    /** `setFileCreator(creator)`. */
    method SetFileCreator(creator: JString)
      modifies this`fileCreator
      ensures fileCreator == creator
    {
      fileCreator := creator;
    }

    /** `writeData()` into `b`. */
    method WriteData(b: DataBuilder) returns (r: Result<()>)
      requires Valid()
      modifies b`written, this`topRoom
      ensures Valid() && cursor == old(cursor)
      ensures !b.hasWriter ==> r == Err(NullPointer) && b.written == old(b.written)
      ensures r.Ok? <==> b.hasWriter && WritableRoom(old(topRoom))
      ensures r.Ok? ==> b.written == old(b.written) + EncodeFile(fileCreator, old(topRoom))
                        && topRoom == Normalize(old(topRoom))
    {
      hide EncodeFile, Token, EncodeBody, Normalize, WritableRoom, RoomOpen, Lit, ValidPath;
      if !b.hasWriter {
        return Err(NullPointer);
      }
      ghost var w0 := b.written;
      var _ := b.BuildDataText(IDENTIFIER);
      var _ := b.BuildDataText(VERSION_PREFIX + VERSION);
      var _ := b.BuildDataText(UPDATED_PREFIX + UPDATED);
      var _ := b.BuildDataText(CREATOR_PREFIX + CREATOR);
      var _ := b.BuildDataText(FILE_CREATOR_PREFIX + fileCreator);
      var _ := b.BuildDataText(RoomOpen(topRoom.name));
      var body := PsfObjectRoom.WriteData(b, topRoom);
      if body.Err? {
        return Err(body.error);
      }
      var _ := b.BuildDataText(ROOM_CLOSE);
      EncodeFileParts(fileCreator, topRoom, w0);
      NormalizeKeepsPaths(topRoom, cursor);
      topRoom := body.value;
      return Ok(());
    }

    /** The identification part of `readData()`: check the identifier, then
        keep the version (after the version guard), the update, the library's
        creator and the file's creator as each is read. */
    method ReadHeader(b: DataBuilder) returns (r: Result<Header>)
      requires b.Valid() && b.hasReader
      modifies this`fileCreator, this`fileVersion, this`fileUpdated, this`fileIOCreator, b`pos
      ensures b.Valid()
      ensures r.Ok? == DecodeFileHeader(b.input, old(b.pos)).Ok?
      ensures r.Err? ==> r.error == DecodeFileHeader(b.input, old(b.pos)).error
      ensures r.Ok? ==> var d := DecodeFileHeader(b.input, old(b.pos)).value;
                        r.value == d.0 && b.pos == d.1
                        && fileVersion == Some(d.0.version) && fileUpdated == Some(d.0.updated)
                        && fileIOCreator == Some(d.0.creator) && fileCreator == d.0.fileCreator
    {
      hide DecodeText, VersionGuard, Lit;
      ghost var p0 := b.pos;
      var id := b.GetDataText();
      if id.value != IDENTIFIER && id.value != OLD_IDENTIFIER {
        return Err(FileFormat);
      }
      ghost var p1 := b.pos;
      var text := b.GetDataText();
      var v0 :- Substring(text.value, |VERSION_PREFIX|);
      var v :- CheckVersion(v0);
      fileVersion := Some(v);
      ghost var p2 := b.pos;
      text := b.GetDataText();
      var u :- Substring(text.value, |UPDATED_PREFIX|);
      fileUpdated := Some(u);
      ghost var p3 := b.pos;
      text := b.GetDataText();
      var c :- Substring(text.value, |CREATOR_PREFIX|);
      fileIOCreator := Some(c);
      ghost var p4 := b.pos;
      text := b.GetDataText();
      var f :- Substring(text.value, |FILE_CREATOR_PREFIX|);
      fileCreator := f;
      DecodeFileHeaderSteps(b.input, p0, id.value, p1, v, p2, u, p3, c, p4, f, b.pos);
      return Ok(Header(v, u, c, f));
    }

    /** `readData()` from `b`: the identification lines (see ReadHeader), the
        unchecked opening text of the root, the root's body appended to
        "topRoom" (its objects and children after those it already holds), and
        the unchecked closing text. */
    method ReadData(b: DataBuilder) returns (r: Result<()>)
      requires Valid() && b.Valid()
      modifies this`topRoom, this`fileCreator, this`fileVersion, this`fileUpdated, this`fileIOCreator, b`pos
      ensures Valid() && b.Valid() && cursor == old(cursor)
      ensures !b.hasReader ==> r == Err(NullPointer) && topRoom == old(topRoom)
      ensures b.hasReader ==> r.Ok? == DecodeFile(b.input, old(b.pos)).Ok?
      ensures b.hasReader && r.Err? ==> r.error == DecodeFile(b.input, old(b.pos)).error
      ensures b.hasReader && DecodeFileHeader(b.input, old(b.pos)).Err? ==> topRoom == old(topRoom)
      ensures r.Ok? ==> b.hasReader && DecodeFile(b.input, old(b.pos)).Ok?
                        && var d := DecodeFile(b.input, old(b.pos)).value;
                           topRoom == ObjectRoom(ROOT_NAME, old(topRoom).dataObjects + d.1.dataObjects, old(topRoom).childs + d.1.childs)
                           && fileVersion == Some(d.0.version) && fileUpdated == Some(d.0.updated)
                           && fileIOCreator == Some(d.0.creator) && fileCreator == d.0.fileCreator && b.pos == d.2
    {
      hide DecodeFileHeader, DecodeBody, DecodeText;
      if !b.hasReader {
        return Err(NullPointer);
      }
      ghost var p0 := b.pos;
      var h := ReadHeader(b);
      if h.Err? {
        DecodeFileHeaderFails(b.input, p0);
        return Err(h.error);
      }
      ghost var p1 := b.pos;
      var open := b.GetDataText();
      ghost var p2 := b.pos;
      var body := PsfObjectRoom.ReadData(b, h.value.version, ROOT_NAME);
      if body.Err? {
        DecodeBodyFails(b.input, p0, p2);
        return Err(body.error);
      }
      ghost var p3 := b.pos;
      var close := b.GetDataText();
      DecodeFileSteps(b.input, p0, h.value, p1, p2, body.value, p3, b.pos);
      RootGrowthKeepsPaths(topRoom, body.value.dataObjects, body.value.childs, cursor);
      topRoom := ObjectRoom(topRoom.name, topRoom.dataObjects + body.value.dataObjects, topRoom.childs + body.value.childs);
      return Ok(());
    }

    /** `close()`: with a writer attached, write the file into a new writing
        builder and give back what it holds. */
    method Close() returns (r: Result<Option<JString>>)
      requires Valid()
      modifies this`topRoom
      ensures Valid()
      ensures !hasWriter ==> r == Ok(None) && topRoom == old(topRoom)
      ensures hasWriter ==> (r.Ok? <==> WritableRoom(old(topRoom)))
      ensures hasWriter && r.Ok? ==> r.value == Some(EncodeFile(fileCreator, old(topRoom))) && topRoom == Normalize(old(topRoom))
    {
      if !hasWriter {
        return Ok(None);
      }
      var b := new DataBuilder.Writing();
      var w := WriteData(b);
      if w.Err? {
        return Err(w.error);
      }
      assert b.written == [] + EncodeFile(fileCreator, old(topRoom));
      assert b.written == EncodeFile(fileCreator, old(topRoom));
      return Ok(Some(b.written));
    }
  }
}
