# PSFFileIO and SNXFileIO in Dafny

This project models the two generations of the typed key/value file format of
the PSFFileIO repository and proves their laws.

- **PSF (current format).** A tree of named rooms (`ObjectRoom`) holds typed
  data objects (`DataObject`, tagged by the nine-value `DataType`).
  `DataBuilder` writes and reads them as length-prefixed tokens.
  `PSFFileIO` is the document controller. It keeps a cursor on the current
  room (`enterRoom`, `exitRoom`, `exitAllRooms`, `room`), offers typed
  `write`/`read*` and list storage (`write(key, ArrayList)`/`readArrayList`),
  and frames the file with an identification header whose version it checks.
- **SNX (legacy format).** `DataTypeList` keeps two parallel lists of keys and
  (type, text) pairs. `SNXFileIO` adds entries through typed `write`
  overloads and arrays. `close()` writes every entry as a record with
  Caesar-shifted key and data. `readInData()` reads the records back, and the
  typed getters check the stored type.

The medium is a sequence of UTF-16 code units (`JString = seq<Unit>`). A
writer appends to it. A reader has a position, and `read()` gives -1 at the
end. `FileWriter.write(int)` keeps the low 16 bits of a length, so a token
reads back only when its text is shorter than 65536 units. The comment at
`DataBuilder.java:52-57` names 127 as the bound, but that bound belongs to
the byte-wise InputStream path, which is left out.

Modules, one per source file or concept:

| module | file | models |
|---|---|---|
| `JavaLang` | java_lang.dfy | Java strings as code units, `Integer.toString`/`parseInt` over the four integral widths, `Boolean.parseBoolean`, `String.split`, `Reader.read()` |
| `PsfDataType` | psf_datatype.dfy | `DataType` |
| `PsfDataObject` | psf_dataobject.dfy | `DataObject` as a value record and its getters |
| `PsfDataBuilder` | psf_databuilder.dfy | the token codec, as functions and as the `DataBuilder` class over a writer and a reader |
| `PsfObjectRoom` | psf_objectroom.dfy | `ObjectRoom`: data objects, `write`, the recursive `writeData`/`readData` |
| `PsfRoomTree` | psf_roomtree.dfy | parent links as index paths, `getPath` |
| `PsfDocument` | psf_document.dfy | the controller's state (root plus cursor) and its operations as functions |
| `PsfVersion` | psf_version.dfy | `checkVersion` |
| `PsfFileIO` | psf_fileio.dfy | `PSFFileIO` as a class, the file header, `checkFilePath` |
| `SnxDataTypeList` | snx_datatypelist.dfy | `DataTypeList` and its `Type` enum |
| `SnxFileIO` | snx_fileio.dfy | `SNXFileIO`: record codec, Caesar shift, getters, arrays |

Exceptions are the variants of `JavaLang.Error`, carried by a `Result`. A
`null` String payload is `None` in an `Option`.

## Model

| member | source | states |
|---|---|---|
| PsfDataType.Ordinal | src/de/snx/psf/util/DataType.java:4 | the ordinal is the tag's position in `values()` |
| PsfDataType.OrdinalIsIdAndBijective | src/de/snx/psf/util/DataType.java:4-10 | there are nine constants with ordinals 0..8, and `ID` equals the ordinal for every constant |
| PsfDataType.NamesAreDistinct | src/de/snx/psf/util/DataType.java:4 | distinct constants have distinct names |
| PsfDataType.ValueOf | src/de/snx/psf/util/DataBuilder.java:107 | `valueOf` gives a tag whose name is the argument, or IllegalArgumentException |
| PsfDataType.ValueOfName | src/de/snx/psf/util/DataType.java:4 | `valueOf(t.name())` is `t` for every tag |
| PsfDataType.NameIsShort | src/de/snx/psf/util/DataType.java:4 | every tag name is 1..9 units long, so its token is short |
| PsfDataObject.SettersKeepKey | src/de/snx/psf/util/DataObject.java:7-35 | `setType` and `setData` change only their own field and never the key |
| PsfDataObject.GetDataAsString | src/de/snx/psf/util/DataObject.java:37-39 | the data is returned unchanged whatever the tag |
| PsfDataObject.GetDataAsCharacter | src/de/snx/psf/util/DataObject.java:41-45 | fails exactly on empty (or null) data, otherwise gives the first character |
| PsfDataObject.GetDataAsIntegral | src/de/snx/psf/util/DataObject.java:47-77 | succeeds exactly for ordinals 2..5 with a decimal in range, giving that decimal; "decimal number" error exactly for FLOAT/DOUBLE; "no number" exactly for STRING/CHARACTER/BOOLEAN |
| PsfDataObject.ByteGetterInRange | src/de/snx/psf/util/DataObject.java:47-49 | `getDataAsByte` never gives a value outside -128..127; "200" is a NumberFormatException |
| PsfDataObject.IntegralGetterReadsDecimal | src/de/snx/psf/util/DataObject.java:47-77 | an integral object holding the decimal of an in-range n reads back n |
| PsfDataObject.GetDataAsFloating | src/de/snx/psf/util/DataObject.java:79-89 | the guard accepts exactly ordinals 2..7 and rejects the other tags with "no number" |
| PsfDataObject.GetDataAsBoolean | src/de/snx/psf/util/DataObject.java:91-95 | accepts only BOOLEAN, and is true exactly when the data is "true" ignoring case |
| JavaLang.DecimalRoundTrip | src/de/snx/psf/util/DataObject.java:65 | `parseInt(Integer.toString(n))` (and the byte/short/long forms) gives n back for every n in range |
| JavaLang.ToDecimalInjective | src/de/snx/psf/util/DataObject.java:65 | distinct integers have distinct `toString` texts |
| JavaLang.ToDecimalSign | src/de/snx/psf/util/DataObject.java:65 | the text starts with '-' exactly for negative numbers |
| JavaLang.ParseBoolean | src/de/snx/psf/util/DataObject.java:93 | `Boolean.parseBoolean` is true exactly for the four letters of "true" in any case |
| JavaLang.ParseBooleanOfBoolText | src/de/snx/psf/PSFFileIO.java:379-381 | `parseBoolean(Boolean.toString(b))` is b |
| JavaLang.DropTrailingEmpty | src/de/snx/psf/PSFFileIO.java:786-787 | `String.split` drops exactly the trailing empty pieces and keeps the others in order |
| JavaLang.ReadUnit | src/de/snx/psf/util/DataBuilder.java:85 | `read()` gives the next code unit and advances by one, or -1 at the end without moving |
| JavaLang.ReadChars | src/de/snx/psf/util/DataBuilder.java:89-90 | n `(char) read()` calls give n units and never move past the end |
| JavaLang.ReadCharsAt | src/de/snx/psf/util/DataBuilder.java:89-90 | reading \|t\| units where `t` stands gives `t` and moves past it |
| JavaLang.ReadCharsPastEnd | src/de/snx/psf/util/DataBuilder.java:89-90 | past the end every unit read is `(char) -1` (0xFFFF) |
| PsfDataBuilder.DecodeTextOfToken | src/de/snx/psf/util/DataBuilder.java:45-50 | `getDataText` on the output of `buildDataText(t)` gives `t` and consumes 1 + \|t\| units |
| PsfDataBuilder.DecodeTextEmpty | src/de/snx/psf/util/DataBuilder.java:85-87 | a length unit of 0 or the end of the stream gives "" and consumes at most that unit |
| PsfDataBuilder.DecodeText | src/de/snx/psf/util/DataBuilder.java:80-92 | `getDataText` never moves backwards or past the end, moves whenever a unit is left, and gives "" at the end |
| PsfDataBuilder.ShortValueAt | src/de/snx/psf/util/DataBuilder.java:108-114 | a short-form token where the value stands reads back as that text |
| PsfDataBuilder.LongValueAt | src/de/snx/psf/util/DataBuilder.java:108-111 | a STRING value in long form (decimal length token, then the raw text) reads back as that text |
| PsfDataBuilder.AsWritten | src/de/snx/psf/util/DataBuilder.java:64-66 | writing keeps key and tag and replaces a null STRING payload by "" |
| PsfDataBuilder.DataObjectRoundTrip | src/de/snx/psf/util/DataBuilder.java:58-75 | for a version other than "3.0", `getDataObject` on the output of `buildDataSet(o)` gives `o` as written |
| PsfDataBuilder.ValueRoundTrip | src/de/snx/psf/util/DataBuilder.java:64-74 | a STRING payload in long form and any other in short form read back unchanged |
| PsfDataBuilder.OldVersionReadsShortForm | src/de/snx/psf/util/DataBuilder.java:108-109 | with file version "3.0" even STRING data is read as a short-form token |
| PsfDataBuilder.UnknownTypeNameFails | src/de/snx/psf/util/DataBuilder.java:107 | an unknown type name makes `getDataObject` fail with IllegalArgumentException |
| PsfDataBuilder.DataBuilder.Read | src/de/snx/psf/util/DataBuilder.java:85 | one `read()` of the reader, as `ReadUnit` |
| PsfDataBuilder.DataBuilder.BuildDataText | src/de/snx/psf/util/DataBuilder.java:45-50 | no writer: NullPointerException and nothing written; otherwise the token of the text is appended |
| PsfDataBuilder.DataBuilder.BuildDataSet | src/de/snx/psf/util/DataBuilder.java:58-75 | appends the encoding of the object as written, or fails before writing without a writer |
| PsfDataBuilder.DataBuilder.ReadRaw | src/de/snx/psf/util/DataBuilder.java:112-114 | the raw-character loop reads as `ReadChars` |
| PsfDataBuilder.DataBuilder.GetDataText | src/de/snx/psf/util/DataBuilder.java:80-92 | no reader: NullPointerException without consuming; otherwise `DecodeText` |
| PsfDataBuilder.DataBuilder.GetDataObject | src/de/snx/psf/util/DataBuilder.java:100-117 | no reader: NullPointerException without consuming; otherwise `DecodeDataObject` |
| PsfObjectRoom.IndexOfKey | src/de/snx/psf/util/ObjectRoom.java:39-48 | the first index holding the key, or none when no object has it |
| PsfObjectRoom.IndexOfKeyIsFirst | src/de/snx/psf/util/ObjectRoom.java:39-48 | the first object holding the key is the one found |
| PsfObjectRoom.Lookup | src/de/snx/psf/util/ObjectRoom.java:39-48 | some object exactly when a key matches, and then an object of the list with that key |
| PsfObjectRoom.GetDataObject | src/de/snx/psf/util/ObjectRoom.java:39-48 | the loop returns the first object whose key equals the argument, or null |
| PsfObjectRoom.Put | src/de/snx/psf/util/ObjectRoom.java:50-61 | a present key is overwritten in place (same length, others unchanged); an absent key is appended; keys are compared by their text, the corrected comparison of Findings row 1 |
| PsfObjectRoom.Write | src/de/snx/psf/util/ObjectRoom.java:50-61 | the loop computes `Put`, with keys compared by their text, the corrected comparison of Findings row 1 |
| PsfObjectRoom.LookupAfterPut | src/de/snx/psf/util/ObjectRoom.java:50-61 | after `write` the key finds the new object and every other key finds what it found before |
| PsfObjectRoom.PutOverwrites | src/de/snx/psf/util/ObjectRoom.java:50-61 | two writes of one key: the second wins |
| PsfObjectRoom.PutKeepsKeysUnique | src/de/snx/psf/util/ObjectRoom.java:50-61 | `write` keeps keys unique |
| PsfObjectRoom.WriteByReference | src/de/snx/psf/util/ObjectRoom.java:52 | the write as written, comparing keys by reference: a key not held by reference is appended |
| PsfObjectRoom.ReferenceWriteKeepsStaleValue | src/de/snx/psf/util/ObjectRoom.java:52 | two writes of equal keys built apart leave two objects, and a lookup finds the stale first value |
| PsfObjectRoom.RoomName | src/de/snx/psf/util/ObjectRoom.java:71 | `substring(1, len - 3)` succeeds exactly for texts of 4 units or more, otherwise out of bounds |
| PsfObjectRoom.AsWrittenAll | src/de/snx/psf/util/ObjectRoom.java:80-83 | each object of a room is written as `AsWritten` of it, in order |
| PsfObjectRoom.Normalize | src/de/snx/psf/util/ObjectRoom.java:78-91 | writing keeps the room's name and the number of its objects and children |
| PsfObjectRoom.RoomNameOfRoomOpen | src/de/snx/psf/util/ObjectRoom.java:71-87 | `substring(1, len - 3)` of `"[" + name + "]:{"` gives `name` back |
| PsfObjectRoom.BodyRoundTrip | src/de/snx/psf/util/ObjectRoom.java:63-91 | `readData` on the output of `writeData` rebuilds the room: same objects in order (as written), same children recursively |
| PsfObjectRoom.ChildrenRoundTrip | src/de/snx/psf/util/ObjectRoom.java:69-90 | the child blocks read back as the children, in order |
| PsfObjectRoom.ObjectsRoundTrip | src/de/snx/psf/util/ObjectRoom.java:65-83 | the data sets read back as the objects, in order |
| PsfObjectRoom.CountRoundTrip | src/de/snx/psf/util/ObjectRoom.java:64-79 | a count written as its decimal token reads back |
| PsfObjectRoom.DecodeBody | src/de/snx/psf/util/ObjectRoom.java:63-76 | a room read successfully has the name it was opened with and consumes at least its count |
| PsfObjectRoom.DecodeChildren | src/de/snx/psf/util/ObjectRoom.java:69-75 | reading k child blocks gives k children |
| PsfObjectRoom.EncodableIsWritable | src/de/snx/psf/util/ObjectRoom.java:78-91 | a room whose texts fit the token format can be written without error |
| PsfObjectRoom.WriteData | src/de/snx/psf/util/ObjectRoom.java:78-91 | appends the count, the data sets, the child count, and each child's block; fails exactly where a payload cannot be written |
| PsfObjectRoom.WriteObjects | src/de/snx/psf/util/ObjectRoom.java:80-83 | the data-set loop appends every object's encoding in order |
| PsfObjectRoom.WriteChildren | src/de/snx/psf/util/ObjectRoom.java:85-90 | the child loop appends `"[name]:{"`, the body and `"}"` per child |
| PsfObjectRoom.ReadData | src/de/snx/psf/util/ObjectRoom.java:63-76 | `readData` reads exactly `DecodeBody` and leaves the reader after it |
| PsfObjectRoom.ReadObjects | src/de/snx/psf/util/ObjectRoom.java:65-67 | the object loop reads as `DecodeObjects` |
| PsfObjectRoom.ReadChildren | src/de/snx/psf/util/ObjectRoom.java:69-75 | the child loop reads as `DecodeChildren` |
| PsfRoomTree.ParentPath | src/de/snx/psf/util/ObjectRoom.java:16-21 | every room but the root has a parent, of which it is a child |
| PsfRoomTree.ChildPath | src/de/snx/psf/util/ObjectRoom.java:69-73 | a child of the room at `p` is the room at `p + [j]` |
| PsfRoomTree.PrefixPath | src/de/snx/psf/util/ObjectRoom.java:109-121 | every ancestor of a room exists |
| PsfRoomTree.ReplaceAtFound | src/de/snx/psf/PSFFileIO.java:891-905 | an in-place update of a room is seen at its path |
| PsfRoomTree.ReplaceChild | src/de/snx/psf/PSFFileIO.java:318-319 | updating child `j` changes its parent only in child `j` |
| PsfRoomTree.NormalizeKeepsPaths | src/de/snx/psf/util/ObjectRoom.java:78-91 | writing a tree out keeps every path of it |
| PsfRoomTree.RootGrowthKeepsPaths | src/de/snx/psf/PSFFileIO.java:779-781 | adding what `readData` read to the root keeps every path |
| PsfRoomTree.NamesAlongAt | src/de/snx/psf/util/ObjectRoom.java:109-121 | the i-th name along a path is the name of the room i + 1 steps down |
| PsfRoomTree.PathOfChild | src/de/snx/psf/util/ObjectRoom.java:109-121 | the path of a child is its parent's path, then its name and "/" |
| PsfRoomTree.GetPath | src/de/snx/psf/util/ObjectRoom.java:109-121 | "" for the root; otherwise the ancestors' names strictly below the root, then the room's own, each followed by "/" |
| PsfDocument.ChildIndex | src/de/snx/psf/PSFFileIO.java:311-317 | the first child with the name, or none when no child has it |
| PsfDocument.ChildIndexIsFirst | src/de/snx/psf/PSFFileIO.java:311-317 | the first child with the name is the one found |
| PsfDocument.EnterMeaning | src/de/snx/psf/PSFFileIO.java:306-321 | `enterRoom(n)` moves one level down to the first child named n, appending a new empty child only when there is none |
| PsfDocument.EnterTwiceNoDuplicate | src/de/snx/psf/PSFFileIO.java:306-321 | entering, leaving and entering the same name again creates no duplicate |
| PsfDocument.ExitAfterEnter | src/de/snx/psf/PSFFileIO.java:328-332 | `exitRoom` after `enterRoom` returns the cursor to where it was |
| PsfDocument.ReenterEntered | src/de/snx/psf/PSFFileIO.java:306-332 | after entering a room, leaving it and entering it again comes back to the same state |
| PsfDocument.ExitAll | src/de/snx/psf/PSFFileIO.java:337-339 | `exitAllRooms` keeps the tree and moves the cursor to the root |
| PsfDocument.RoomRestoresCursor | src/de/snx/psf/PSFFileIO.java:341-345 | if `f` leaves the cursor where it found it, `room(n, f)` returns to the starting room |
| PsfDocument.RoomWithRootNameMovesUp | src/de/snx/psf/PSFFileIO.java:307-345 | `room("topRoom", f)` enters nothing but still exits one level |
| PsfDocument.WriteAtCurrent | src/de/snx/psf/PSFFileIO.java:891-905 | writing changes exactly the current room's objects, by `Put`, with keys compared by their text, the corrected comparison of Findings row 1 |
| PsfDocument.MissingKeySentinels | src/de/snx/psf/PSFFileIO.java:494-564 | a missing key reads as "null", ' ', -1 or false |
| PsfDocument.TypedRoundTrip | src/de/snx/psf/PSFFileIO.java:347-564 | each typed `write` is read back by the getter of its type, with keys compared by their text, the corrected comparison of Findings row 1 |
| PsfDocument.CheckTypeOf | src/de/snx/psf/PSFFileIO.java:741-762 | null is a NullPointerException, an unsupported class an IllegalArgumentException, any other value its tag |
| PsfDocument.ReadObjectOfValue | src/de/snx/psf/PSFFileIO.java:347-564 | an object stored with a value's tag and text reads back as that value |
| PsfDocument.ArrayRoomIsNotRoot | src/de/snx/psf/PSFFileIO.java:390 | a list room `key + "_array"` is never the root |
| PsfDocument.ElementKeyInjective | src/de/snx/psf/PSFFileIO.java:397 | distinct indices give distinct `"element_" + i` keys |
| PsfDocument.ElementKeyIsNotSize | src/de/snx/psf/PSFFileIO.java:391-397 | no element key is `"array_size"` |
| PsfDocument.FirstNull | src/de/snx/psf/PSFFileIO.java:394-419 | the index of the first null element (where `toString` throws), or the length when none is null |
| PsfDocument.ElementsStored | src/de/snx/psf/PSFFileIO.java:389-429 | the element writes store `element_i` for every i with the element's text, and leave `array_size` alone |
| PsfDocument.ElementsReadBack | src/de/snx/psf/PSFFileIO.java:567-626 | the element reads give back the stored elements |
| PsfDocument.ListRoundTrip | src/de/snx/psf/PSFFileIO.java:389-626 | `write(key, list)` succeeds, restores the cursor, and `readArrayList(key)` then gives the same elements, with keys compared by their text, the corrected comparison of Findings row 1 |
| PsfVersion.CheckVersionAsWrittenAcceptsAll | src/de/snx/psf/PSFFileIO.java:784-793 | as written (`split(".")` is a regex), every version is accepted |
| PsfVersion.NewerVersionSlipsThrough | src/de/snx/psf/PSFFileIO.java:786-791 | "9.0" passes the written check and is refused by the corrected one |
| PsfVersion.VersionGuardMeaning | src/de/snx/psf/PSFFileIO.java:788-792 | the corrected guard accepts exactly when the first two components are decimals no greater than 3 and 1 |
| PsfVersion.CurrentVersionAccepted | src/de/snx/psf/PSFFileIO.java:784-793 | the library's own version passes the corrected guard |
| PsfVersion.VersionGuard | src/de/snx/psf/PSFFileIO.java:784-793 | a version that passes is returned unchanged |
| PsfVersion.CompareFromMeaning | src/de/snx/psf/PSFFileIO.java:788-792 | the comparison from component i on passes exactly when the components up to the second are decimals within 3 and 1 |
| PsfVersion.SplitAnyIsEmpty | src/de/snx/psf/PSFFileIO.java:786-787 | splitting a non-empty text on a pattern that matches every char gives no pieces |
| PsfVersion.CheckVersion | src/de/snx/psf/PSFFileIO.java:784-793 | the comparison loop computes the corrected guard, returning the version unchanged when it passes |
| PsfFileIO.Substring | src/de/snx/psf/PSFFileIO.java:775-778 | `substring(n)` succeeds exactly when n is within the text and gives what follows the first n units |
| PsfFileIO.ReadFieldOfToken | src/de/snx/psf/PSFFileIO.java:775-778 | a header line read back has its fixed prefix stripped |
| PsfFileIO.HeaderRoundTrip | src/de/snx/psf/PSFFileIO.java:764-805 | the header `writeData` emits reads back as the version, updated, creator and file creator it wrote |
| PsfFileIO.FileRoundTrip | src/de/snx/psf/PSFFileIO.java:764-805 | `readData` on the output of `writeData` rebuilds the header fields and the whole tree as written |
| PsfFileIO.DecodeFile | src/de/snx/psf/PSFFileIO.java:764-782 | a file read successfully has a root named "topRoom" and stays within the input; the version is checked by the corrected guard of Findings row 2 |
| PsfFileIO.FilePathCheckMeaning | src/de/snx/psf/PSFFileIO.java:267-280 | the path is refused exactly when it has no '.' and ends with '/', or holds an illegal character |
| PsfFileIO.LastIndexOf | src/de/snx/psf/PSFFileIO.java:268-274 | `lastIndexOf(c)`: -1 or an index holding c with no c after it |
| PsfFileIO.CheckFilePath | src/de/snx/psf/PSFFileIO.java:267-280 | the loops compute `FilePathCheck` |
| PsfFileIO.PSFFileIO.constructor | src/de/snx/psf/PSFFileIO.java:77-123 | a new document: an empty "topRoom" with the cursor on it, file creator "n/a"; the header fields are per instance (see Left out) |
| PsfFileIO.PSFFileIO.EnterRoom | src/de/snx/psf/PSFFileIO.java:306-321 | the cursor and tree change as `Enter` |
| PsfFileIO.PSFFileIO.ExitRoom | src/de/snx/psf/PSFFileIO.java:328-332 | as `Exit`: no move at the root, otherwise to the parent |
| PsfFileIO.PSFFileIO.ExitAllRooms | src/de/snx/psf/PSFFileIO.java:337-339 | as `ExitAll` |
| PsfFileIO.PSFFileIO.Room | src/de/snx/psf/PSFFileIO.java:341-345 | enter, apply `f`, exit, as `RoomCall` |
| PsfFileIO.PSFFileIO.WriteHere | src/de/snx/psf/util/ObjectRoom.java:50-61 | a write in the current room changes the document as `WriteAt`, with keys compared by their text, the corrected comparison of Findings row 1 |
| PsfFileIO.PSFFileIO.Write | src/de/snx/psf/PSFFileIO.java:347-387 | a typed write stores the value's tag and text in the current room, with keys compared by their text, the corrected comparison of Findings row 1 |
| PsfFileIO.PSFFileIO.WriteList | src/de/snx/psf/PSFFileIO.java:389-429 | `write(key, list)` changes state and result as `ListWrite`, with keys compared by their text, the corrected comparison of Findings row 1 |
| PsfFileIO.PSFFileIO.ReadArrayList | src/de/snx/psf/PSFFileIO.java:567-626 | `readArrayList(key)` as `ListRead` |
| PsfFileIO.PSFFileIO.GetDataObject | src/de/snx/psf/PSFFileIO.java:884-889 | the first object of the current room with the key, or null |
| PsfFileIO.PSFFileIO.AddDataObject | src/de/snx/psf/PSFFileIO.java:891-905 | replaces the first object with an equal key at its index, or else appends |
| PsfFileIO.PSFFileIO.ListCurrentRoom | src/de/snx/psf/PSFFileIO.java:863-876 | \|data\| + \|childs\| rows: the data keys tagged "data" in order, then the child names tagged "room" |
| PsfFileIO.PSFFileIO.SetFileCreator | src/de/snx/psf/PSFFileIO.java:848-851 | sets the file creator |
| PsfFileIO.PSFFileIO.WriteData | src/de/snx/psf/PSFFileIO.java:795-805 | appends the header and the root's block, and fails exactly without a writer or with an unwritable payload |
| PsfFileIO.PSFFileIO.ReadHeader | src/de/snx/psf/PSFFileIO.java:772-778 | the identifier check and the four header fields, as `DecodeFileHeader`, with the corrected version guard of Findings row 2 |
| PsfFileIO.PSFFileIO.ReadData | src/de/snx/psf/PSFFileIO.java:764-782 | no reader: NullPointerException; otherwise the root gains what `DecodeFile` read (with the corrected version guard of Findings row 2) and the header fields are set; a failure in the identification lines leaves the tree alone |
| PsfFileIO.PSFFileIO.Close | src/de/snx/psf/PSFFileIO.java:907-918 | with a writer, the whole file is written as `EncodeFile`; without one, nothing is |
| SnxDataTypeList.Type.Ordinal | SNXFileIO/src/de/snx/fileIO/DataTypeList.java:30-32 | the ordinal is the tag's position in `values()` |
| SnxDataTypeList.TypeAt | SNXFileIO/src/de/snx/fileIO/SNXFileIO.java:380 | `values()[i]` gives the tag with ordinal i for 0..8 and is out of bounds otherwise |
| SnxDataTypeList.TypeFromIDAsWrittenRefusesAll | SNXFileIO/src/de/snx/fileIO/DataTypeList.java:117-121 | as written, every id throws, while the corrected lookup of 0 gives STRING |
| SnxDataTypeList.TypeFromID | SNXFileIO/src/de/snx/fileIO/DataTypeList.java:117-121 | corrected: the tag with ordinal id, and a TypeException exactly outside 0..8 |
| SnxDataTypeList.TypeFromIDOfOrdinal | SNXFileIO/src/de/snx/fileIO/DataTypeList.java:117-121 | the corrected lookup inverts `ordinal()` |
| SnxDataTypeList.IndexOf | SNXFileIO/src/de/snx/fileIO/DataTypeList.java:74 | `indexOf`: the first index of the key, -1 exactly when absent |
| SnxDataTypeList.Lookup | SNXFileIO/src/de/snx/fileIO/DataTypeList.java:70-81 | throws exactly for corrupted lists, null exactly for an absent key, otherwise the pair at the key's first index |
| SnxDataTypeList.Size | SNXFileIO/src/de/snx/fileIO/DataTypeList.java:90-108 | -1 exactly when the list sizes differ, otherwise the number of keys |
| SnxDataTypeList.AddedKeepsValid | SNXFileIO/src/de/snx/fileIO/DataTypeList.java:54-60 | `add` succeeds exactly for a new key, keeps the lists parallel and the keys unique, and grows the size by one |
| SnxDataTypeList.LookupValid | SNXFileIO/src/de/snx/fileIO/DataTypeList.java:70-81 | in a valid list the key at index i finds the pair at index i |
| SnxDataTypeList.LookupAfterAdd | SNXFileIO/src/de/snx/fileIO/DataTypeList.java:54-81 | after `add` the new key finds its pair and every other key what it found before |
| SnxDataTypeList.FoundAfterAdd | SNXFileIO/src/de/snx/fileIO/DataTypeList.java:54-81 | a key that is found stays found with the same pair |
| SnxDataTypeList.DataTypeList.constructor | SNXFileIO/src/de/snx/fileIO/DataTypeList.java:39-43 | both lists start empty |
| SnxDataTypeList.DataTypeList.Add | SNXFileIO/src/de/snx/fileIO/DataTypeList.java:54-60 | an existing key throws and changes nothing; otherwise key and pair are appended at the same index |
| SnxFileIO.Shifted | SNXFileIO/src/de/snx/fileIO/SNXFileIO.java:655-664 | every unit is shifted, modulo 2^16, and the length is kept |
| SnxFileIO.CaesarRoundTrip | SNXFileIO/src/de/snx/fileIO/SNXFileIO.java:655-664 | `caesar(caesar(s, true), false) == s` for every shift |
| SnxFileIO.EncodeRecordLength | SNXFileIO/src/de/snx/fileIO/SNXFileIO.java:339-348 | a record is 3 + \|key\| + \|data\| units long |
| SnxFileIO.DecodeRecord | SNXFileIO/src/de/snx/fileIO/SNXFileIO.java:339-391 | one record written by `writeData` is read back as its entry, and the loop goes on after it |
| SnxFileIO.DecodeRecords | SNXFileIO/src/de/snx/fileIO/SNXFileIO.java:360-393 | reading the records of a list after other entries adds all of them in order |
| SnxFileIO.DecodeFrom | SNXFileIO/src/de/snx/fileIO/SNXFileIO.java:372-392 | the read loop never moves backwards or past the end |
| SnxFileIO.FileRoundTrip | SNXFileIO/src/de/snx/fileIO/SNXFileIO.java:360-694 | `readInData` on what `close()` wrote, with the same shift, rebuilds the same keys, types and data in order |
| SnxFileIO.EmptyStreamEmptyList | SNXFileIO/src/de/snx/fileIO/SNXFileIO.java:366-373 | an empty stream gives an empty list |
| SnxFileIO.DecodeFromEnd | SNXFileIO/src/de/snx/fileIO/SNXFileIO.java:372-374 | the loop ends at the end of the stream with what it has read |
| SnxFileIO.DecodeFromBadType | SNXFileIO/src/de/snx/fileIO/SNXFileIO.java:379-380 | a type ordinal outside 0..8, the end of the stream included, ends the loop out of bounds |
| SnxFileIO.DecodeFromRecord | SNXFileIO/src/de/snx/fileIO/SNXFileIO.java:374-391 | a record fails where `add` fails and otherwise adds its entry |
| SnxFileIO.CheckType | SNXFileIO/src/de/snx/fileIO/SNXFileIO.java:313-334 | ids lie in -1..8 |
| SnxFileIO.Stored | SNXFileIO/src/de/snx/fileIO/SNXFileIO.java:149-334 | a `write` overload exists exactly for the classes `checkType` knows, and its tag's ordinal is the `checkType` id |
| SnxFileIO.Getter | SNXFileIO/src/de/snx/fileIO/SNXFileIO.java:404-500 | `read` throws before `readInData`; a missing key gives the sentinel; a success means the stored type matched (or CHARACTER for `read`) and gives a value of the asked class |
| SnxFileIO.BooleanTexts | SNXFileIO/src/de/snx/fileIO/SNXFileIO.java:177-179 | the texts "1" and "0" that `write(key, boolean)` stores parse as 1 and 0, so `readBoolean` tells them apart |
| SnxFileIO.GetterRoundTrip | SNXFileIO/src/de/snx/fileIO/SNXFileIO.java:149-500 | the getter of a value's type gives back what its `write` stored, booleans included |
| SnxFileIO.ElementsKept | SNXFileIO/src/de/snx/fileIO/SNXFileIO.java:192-247 | the element writes keep the list valid and keep every key found before |
| SnxFileIO.ElementsFound | SNXFileIO/src/de/snx/fileIO/SNXFileIO.java:192-247 | after the element writes every `array_<key>_<i>` finds its element's entry |
| SnxFileIO.ElementsReadBack | SNXFileIO/src/de/snx/fileIO/SNXFileIO.java:508-575 | the element reads give back the stored elements |
| SnxFileIO.ArrayWriteReachedOk | SNXFileIO/src/de/snx/fileIO/SNXFileIO.java:192-247 | after a successful array write the list reached is the list `ArrayWrite` returns |
| SnxFileIO.ElementsReachedWritten | SNXFileIO/src/de/snx/fileIO/SNXFileIO.java:199-243 | after the element loop, also a failed one, the list is the one after the first k element writes, where k is all of them or the last before the first failure |
| SnxFileIO.ElementsReachedAfterFailure | SNXFileIO/src/de/snx/fileIO/SNXFileIO.java:199-243 | when element i is the first whose write fails, the list keeps exactly the writes below i |
| SnxFileIO.WriteElementsKeepsKeys | SNXFileIO/src/de/snx/fileIO/SNXFileIO.java:199-243 | the element writes only add keys |
| SnxFileIO.ArrayWriteKeepsTypeKey | SNXFileIO/src/de/snx/fileIO/SNXFileIO.java:192-197 | once the type id is written its key stays taken whatever fails later, so writing an array under the same key again throws as a duplicate |
| SnxFileIO.NullElementNeverCasts | SNXFileIO/src/de/snx/fileIO/SNXFileIO.java:204-241 | a null after elements of the first's class is unboxed: the array write fails with a NullPointerException (or earlier on a taken key), never succeeds and never throws ClassCastException |
| SnxFileIO.WriteElementsErrors | SNXFileIO/src/de/snx/fileIO/SNXFileIO.java:199-243 | element writes whose non-null elements have the array's class fail only on a null or a taken key |
| SnxFileIO.ArrayRoundTrip | SNXFileIO/src/de/snx/fileIO/SNXFileIO.java:192-576 | `readArray` after a successful array `write` gives the same elements (Strings once `readInData` ran) |
| SnxFileIO.SNXFileIO.constructor | SNXFileIO/src/de/snx/fileIO/SNXFileIO.java:43-50 | an empty list, shift -20, nothing read yet |
| SnxFileIO.SNXFileIO.SetCaesar | SNXFileIO/src/de/snx/fileIO/SNXFileIO.java:671-673 | sets the shift |
| SnxFileIO.SNXFileIO.Read | SNXFileIO/src/de/snx/fileIO/SNXFileIO.java:372 | one `read()` of the reader, as `ReadUnit` |
| SnxFileIO.SNXFileIO.Caesar | SNXFileIO/src/de/snx/fileIO/SNXFileIO.java:655-664 | the in-place loop shifts every char up (`krypt`) or down, and each shift is undone by the other |
| SnxFileIO.SNXFileIO.WriteEntry | SNXFileIO/src/de/snx/fileIO/SNXFileIO.java:143-147 | no writer: NullPointerException and no change; otherwise `add` |
| SnxFileIO.SNXFileIO.Write | SNXFileIO/src/de/snx/fileIO/SNXFileIO.java:149-183 | succeeds exactly for a new key with a writer, and adds the value's tag and text |
| SnxFileIO.SNXFileIO.WriteArray | SNXFileIO/src/de/snx/fileIO/SNXFileIO.java:192-311 | as `ArrayWrite`: an empty array, an unsupported class, a missing writer or a taken key fail, a null element of a primitive class is a NullPointerException and an element of another class a ClassCastException; the list afterwards is `ArrayWriteReached`, unchanged for the first three and holding the writes made before a later failure |
| SnxFileIO.SNXFileIO.ReadArray | SNXFileIO/src/de/snx/fileIO/SNXFileIO.java:508-653 | as `ArrayRead`: null without a type id, out of bounds for a bad id, NegativeArraySize (arrays) or empty (lists) for a negative count |
| SnxFileIO.SNXFileIO.ReadElementValues | SNXFileIO/src/de/snx/fileIO/SNXFileIO.java:517-571 | the element loop reads as `ReadElements` |
| SnxFileIO.SNXFileIO.ReadText | SNXFileIO/src/de/snx/fileIO/SNXFileIO.java:376-387 | n chars read and each shifted back |
| SnxFileIO.SNXFileIO.ReadRecord | SNXFileIO/src/de/snx/fileIO/SNXFileIO.java:374-391 | one pass of the loop, as the next step of `DecodeFrom` |
| SnxFileIO.SNXFileIO.ReadInData | SNXFileIO/src/de/snx/fileIO/SNXFileIO.java:360-393 | without a reader nothing changes; otherwise a new list holds exactly what `DecodeFrom` reads, or the error it meets |
| SnxFileIO.SNXFileIO.WriteData | SNXFileIO/src/de/snx/fileIO/SNXFileIO.java:339-348 | appends key length, shifted key, type ordinal, data length and shifted data |
| SnxFileIO.SNXFileIO.Close | SNXFileIO/src/de/snx/fileIO/SNXFileIO.java:686-694 | with a writer, every entry in list order as one record; without one, nothing |

## Left out

- Opening files and streams (the constructors' `File`/path handling, `prepareWritingPath`, `prepareReader`/`prepareWriter`, `getResourceAsStream`) and closing them: the medium is a sequence of code units, a writer an appended sequence, a reader a position in one.
- The InputStream path of `DataBuilder` and `readInData`: it reads bytes, so it agrees with the reader path only for units below 128.
- Charset encoding by FileWriter/FileReader: code units are written and read as they are.
- Floating point: `Float`/`Double` `toString` and parsing are not modelled; float and double values are carried as their text, and only the type guards are.
- Console output (`printData`, `printRooms`, `printDataObjects`, the "overritten" message, `printStackTrace` soft-error notices, `showSoftErrors`/`showMissingErrors`): it has no effect on state or results.
- `chooseFile` and `PSFFileFilter`: Swing and the file system.
- The primitive-array wrappers of PSFFileIO (`write(key, T[])`, `read*Array`): they only box and unbox around the list-level `write(key, list)`/`readArrayList`, which is modelled.
- Object identity: DataObjects and rooms are values. A caller keeping a reference to a stored object and mutating it later is not modelled. Parent pointers are the prefixes of the cursor's index path.
- The "topRoom" reference comparisons (`PSFFileIO.java:307`, `ObjectRoom.java:94,110,114,118`) are value comparisons. For `getPath` and `exitRoom` the model asks whether a room is the root. Only the root holds the interned literal, so this is the same test.
- PsfFileIO.PSFFileIO.Room: `f` is a function of the document state that must keep the root's name, because a Consumer that renames the root is not expressible on the value tree.
- PsfFileIO.PSFFileIO.ReadData: the header fields are assigned as they are read, so a failure half-way leaves the earlier ones set; the contract says nothing about them on failure.
- PsfFileIO.PSFFileIO.ReadData: `ObjectRoom.readData` appends to the root's lists as it reads (`ObjectRoom.java:66,73`), so a failure in the body leaves what was read before it in the tree. The model appends only after a successful read. The contract says the tree is unchanged only for a failure in the identification lines and says nothing about it after a failure in the body. The constructors rethrow such a failure, so no caller can observe the partial tree.
- PsfFileIO.PSFFileIO.constructor: `f_version`, `f_updated` and `f_creator` are `private static` (`PSFFileIO.java:98`), shared by every instance, so `getFileVersion()` on a new document gives what any instance read last. The model keeps them per instance and states that a new document has none.
- PsfObjectRoom.Put, PsfObjectRoom.Write, PsfDocument.WriteAtCurrent, PsfDocument.TypedRoundTrip, PsfDocument.ListRoundTrip, PsfFileIO.PSFFileIO.WriteHere, PsfFileIO.PSFFileIO.Write and PsfFileIO.PSFFileIO.WriteList compare keys by their text, the corrected comparison of Findings row 1. The source compares references, so a key built at run time (every `"element_" + i`) is appended again and the lookup keeps finding the first value. The round trips hold for the corrected comparison; `PsfObjectRoom.WriteByReference` models the comparison as written.
- PsfFileIO.DecodeFileHeader, PsfFileIO.PSFFileIO.ReadHeader, PsfFileIO.PSFFileIO.ReadData and PsfFileIO.DecodeFile check the version with the corrected guard of Findings row 2. As written, the guard accepts every version, so the source reads a file with "Version: 9.0" that the model refuses with a FileFormatException.
- JavaLang.ParseDecimal: only the ASCII digits '0'..'9' are decimal digits. `Integer.parseInt` and its siblings use `Character.digit`, which also accepts the other Unicode decimal digits (for example U+0660..U+0669 and U+FF10..U+FF19). The model refuses text such as "١٢", which the source reads as 12. The digit table depends on the Java runtime's Unicode version.
- The end of the stream in the middle of a PSF token appends `(char) -1` to the text and raises no error. The model does the same, where a "truncated stream" error might have been expected.
- Token lengths: a text of 65536 units or more loses its length's high bits, as `FileWriter.write(int)` does. The round trips require shorter texts.
- SnxFileIO.SNXFileIO.Write: requires a value of one of the nine classes; a `null` String value is not modelled.
- SnxFileIO.SNXFileIO.WriteArray, SnxFileIO.ArrayWrite and SnxFileIO.ArrayWriteReached require `NoNullString`: a String array holds no null. The source stores a null String element (`SNXFileIO.java:201`, `:265`) and fails only when `close` reaches it (`data.length()`, `:346`). An entry of the modelled list is a type and a text, so it cannot hold that null. A null in an array of any other class is modelled: it is a NullPointerException.
- SnxFileIO.SNXFileIO.ReadInData: a failure leaves the entries read so far in the new list; the contract states only the error.
- SnxFileIO.SNXFileIO.Close: the writer is not marked closed afterwards.
- `DataTypeList.getKeys()` hands out the key list itself. `close()` only iterates over it, so the aliasing that could corrupt the list is not modelled, and `Lookup`'s corrupted case is reachable only from a table built directly.
- `Pair` and `FileFormatException` are a tuple and an error variant.
- The double `readData` of `PSFFileIO(String, File)` belongs to the constructors and is not modelled.

## Findings

| source | as written | input that shows it | evidently intended | confidence | as-written member | corrected member |
|---|---|---|---|---|---|---|
| src/de/snx/psf/util/ObjectRoom.java:52 | keys are compared with `==`, by reference | two writes of "element_0" with keys built apart (as `"element_" + i` is) | compare with `equals`, as `getDataObject` does at line 41, so the second write overwrites | not executed | PsfObjectRoom.ReferenceWriteKeepsStaleValue | PsfObjectRoom.LookupAfterPut |
| src/de/snx/psf/PSFFileIO.java:786-787 | `split(".")` splits on the regex "any character", so both arrays are empty and the guard never fires | file version "9.0" | split on a literal dot, so a newer major version is refused | not executed | PsfVersion.NewerVersionSlipsThrough | PsfVersion.VersionGuardMeaning |
| SNXFileIO/src/de/snx/fileIO/DataTypeList.java:118 | `id < 0 && id >= values().length` can never hold, so every id throws | id 0 | `id >= 0 && id < values().length` | not executed | SnxDataTypeList.TypeFromIDAsWrittenRefusesAll | SnxDataTypeList.TypeFromIDOfOrdinal |
