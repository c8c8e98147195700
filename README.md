# GlbParser core, modelled in Dafny

This project models the core of a small C++ loader for binary glTF (`.glb`)
files:

- the JSON value type, with its conversions and its iterator;
- the hand-written JSON object parser;
- the helper routines `splitLine`, `checkExtension`, `isInt` and `isFloat`;
- the GLB container split;
- the glTF resolvers that turn the parsed document and the BIN chunk into
  scenes, nodes, meshes, primitives, skins, materials, images and animations.

Modules, one per file:

| file | module | models |
|---|---|---|
| wrappers.dfy | Wrappers | `Option`, `Result` and the error kinds that stand for the source's exceptions and undefined behaviour |
| string_order.dfy | StringOrder | the byte-wise order of `std::map<std::string, …>` keys |
| json_value.dfy | JsonValue | the variant, key and position indexing, conversions, `Iterator`, `begin`/`end` |
| json_parser.dfy | JsonParser | `ParseJson`, `RetriveKeyValuePair`, `ParsePrimitive`, as functions and as cursor-advancing methods |
| json_roundtrip.dfy | JsonRoundTrip | a serializer for the values the parser produces, and the round trip through the parser |
| utils.dfy | Utils | `splitLine`, `checkExtension`, `isInt`, `isFloat` |
| bytes.dfy | Bytes | little-endian 16- and 32-bit words over bytes |
| glb_container.dfy | GlbContainer | `LoadBinaryFile`: the header, the JSON chunk and the BIN chunk |
| gltf_buffers.dfy | GltfBuffers | the typed reads from the BIN chunk (float words, 16-bit words, widened bytes) |
| gltf_geometry.dfy | GltfGeometry | vertex assembly from attribute arrays, and the skin's 4×4 matrices |
| gltf_loader.dfy | GltfLoader | `LoadGltf` and every `Load*` resolver |

Modelling choices:

- A thrown exception, a failed `assert` and undefined behaviour are all an
  `Err` result. Examples of undefined behaviour: a read past the BIN
  chunk, `vector[i]` past the end, dereferencing `end()`.
- Asserts are taken to be compiled in. `assert(*(++it) == ':')` in the key
  reader (srcs/JsonParser/JsonParser.cpp:55) also moves the cursor past
  the closing quote. In a build without asserts (`NDEBUG`) that step is
  gone: every pair then reads an empty number lexeme at ':', which throws.
  The model follows the build with asserts.
- Floats are opaque 4-byte words (`FloatBits`). A double is kept as the
  text that `stod` consumed.
- The C++ `size_t` and `int` conversions are written out: `AsSize`,
  `SizeToIndex` and `NarrowToInt`.
- Indexing a map by key inserts a default `Int(0)` entry when the key is
  missing. Most loaders index copies, so such an insertion is lost. The
  resolvers also index the caller's document (`"accessors"`,
  `"bufferViews"`), but a miss there always ends in an error. On success
  the only change to the caller's document is a missing `"scene"`, inserted
  by `LoadGltf`.

## Model

| member | source | states |
|---|---|---|
| JsonValue.IndexKey | srcs/JsonParser/JsonValue.hpp:17 | Key indexing fails with TypeMismatch exactly on a non-map. A present key yields its value and leaves the map unchanged. An absent key adds exactly that key with the default `Int(0)` and yields it, and every other entry is kept. |
| JsonValue.IndexKeyInsertsOnce | srcs/JsonParser/JsonValue.hpp:17 | An absent key grows the map by exactly one entry. Indexing the same key again changes nothing more. |
| JsonValue.AssignKey | srcs/JsonParser/JsonValue.hpp:17 | Assigning through the returned reference sets that key and leaves every other entry as it was. It fails exactly on a non-map. |
| JsonValue.JsonVar.Index | srcs/JsonParser/JsonValue.hpp:17 | In place: on a map the held value becomes the container after insert-on-miss and the entry is returned. On a non-map it fails and nothing changes. |
| JsonValue.JsonVar.Assign | srcs/JsonParser/JsonValue.hpp:17 | In place: on a map the held value becomes the map with that key replaced. On a non-map nothing changes. |
| JsonValue.JsonVar.constructor | srcs/JsonParser/JsonValue.hpp:16 | A holder starts with the given value. |
| JsonValue.At | srcs/JsonParser/JsonValue.hpp:18 | Position indexing succeeds exactly on an array and yields element `index`. The caller must keep `index` in range, because the source does no bounds check. |
| JsonValue.AsInt | srcs/JsonParser/JsonValue.hpp:19 | The `int` conversion succeeds exactly when an int is held, and yields it. |
| JsonValue.AsSize | srcs/JsonParser/JsonValue.hpp:20 | The `size_t` conversion succeeds exactly on an int. It yields a value below 2^64 that is congruent to the int modulo 2^64, so negative ints wrap. |
| JsonValue.AsSizeOfInt | srcs/JsonParser/JsonValue.hpp:20 | A non-negative int converts to itself. A negative one converts to at least 2^64 - 2^31. |
| JsonValue.AsDouble | srcs/JsonParser/JsonValue.hpp:21 | The `double` conversion succeeds exactly when a double is held. There is no int-to-double coercion. |
| JsonValue.AsString | srcs/JsonParser/JsonValue.hpp:23 | The string conversion succeeds exactly when a string is held. |
| JsonValue.AsBool | srcs/JsonParser/JsonValue.hpp:24 | The `bool` conversion succeeds exactly when a bool is held. |
| JsonValue.AsPointer | srcs/JsonParser/JsonValue.hpp:25 | The `void*` conversion is null whatever is held. |
| JsonValue.AsArray | srcs/JsonParser/JsonValue.hpp:26 | The array conversion succeeds exactly when an array is held. |
| JsonValue.AsMap | srcs/JsonParser/JsonValue.hpp:27 | The map conversion succeeds exactly when a map is held. |
| JsonValue.Keys | srcs/JsonParser/JsonValue.hpp:11 | A map's keys in iteration order: each key exactly once, in strictly ascending order. |
| JsonValue.Elements | srcs/JsonParser/JsonValue.hpp:29-51 | What an iterator walks over: the array's items, or the map's values in ascending key order. |
| JsonValue.Advance | srcs/JsonParser/JsonValue.cpp:23-30 | A step moves the cursor by exactly one position and keeps its kind. |
| JsonValue.Iterator.constructor | srcs/JsonParser/JsonValue.hpp:35-36 | An iterator holds its container and a cursor of the matching kind. |
| JsonValue.Iterator.Deref | srcs/JsonParser/JsonValue.cpp:5-12 | Dereferencing at position k yields element k of an array, or the value of the k-th key of a map. It modifies nothing. |
| JsonValue.Iterator.Arrow | srcs/JsonParser/JsonValue.cpp:14-21 | The arrow operator designates the same element that Deref yields. |
| JsonValue.Iterator.Key | srcs/JsonParser/JsonValue.hpp:46 | On a map cursor, `key()` is the k-th key, and Deref yields that key's value. |
| JsonValue.Iterator.Increment | srcs/JsonParser/JsonValue.cpp:23-30 | Prefix `++` advances the cursor by one and changes nothing else. |
| JsonValue.Iterator.PostIncrement | srcs/JsonParser/JsonValue.cpp:32-37 | Postfix `++` returns a fresh copy of the iterator as it was before, and advances this one. |
| JsonValue.Begin | srcs/JsonParser/JsonValue.cpp:39-47 | `begin()` fails with NotIterable exactly on a value that is neither an array nor a map. Otherwise it is a cursor at position 0 of the matching kind. |
| JsonValue.End | srcs/JsonParser/JsonValue.cpp:49-57 | `end()` fails with NotIterable exactly on a non-container. Otherwise it is a cursor one past the last element. |
| JsonValue.Walk | srcs/JsonParser/JsonValue.cpp:23-57 | Iterating from begin() to end() visits every element exactly once, in order. It fails exactly on a non-container. |
| JsonValue.Collect | srcs/JsonParser/JsonValue.cpp:5-37 | The dereference-and-increment loop from begin() to end() collects exactly the container's elements, in order. |
| StringOrder.Ascending | srcs/JsonParser/JsonValue.hpp:11 | The keys of a map listed once each, in strictly ascending byte-wise order. |
| StringOrder.LessTransitive | srcs/JsonParser/JsonValue.hpp:11 | The key order is transitive. |
| StringOrder.LessTotal | srcs/JsonParser/JsonValue.hpp:11 | Any two distinct keys are ordered one way or the other. |
| StringOrder.LessIrreflexive | srcs/JsonParser/JsonValue.hpp:11 | No key is below itself. |
| StringOrder.LessAsymmetric | srcs/JsonParser/JsonValue.hpp:11 | No two keys are each below the other. |
| StringOrder.LeastExists | srcs/JsonParser/JsonValue.hpp:11 | Every non-empty set of keys has a least key. |
| StringOrder.Least | srcs/JsonParser/JsonValue.hpp:11 | The least key is in the set and below every other member. |
| StringOrder.AscendingIsDistinct | srcs/JsonParser/JsonValue.hpp:11 | The ascending listing has no repeated key. |
| JsonParser.SkipBlanks | srcs/JsonParser/JsonParser.cpp:28-29 | Skipping stops at the first character that is not ' ' or '\n'. Everything skipped was one of those two, so tab and CR are not skipped. |
| JsonParser.ScanNumber | srcs/JsonParser/JsonParser.cpp:67-69 | The value lexeme is the maximal run of digits and '.'. |
| JsonParser.FindQuote | srcs/JsonParser/JsonParser.cpp:49-51 | The key ends at the first '"' after the opening one. A key with no closing quote is an error. |
| JsonParser.Stoi | srcs/JsonParser/JsonParser.cpp:85 | `stoi` succeeds exactly when the lexeme starts with a digit and its leading digits fit in an int, and it yields their decimal value. |
| JsonParser.Stod | srcs/JsonParser/JsonParser.cpp:87 | `stod` succeeds exactly when the consumed prefix is neither empty nor ".". The double it yields is exactly that prefix, StodPrefix, which is decimal text when the lexeme holds a '.'. |
| JsonParser.StodPrefixLongest | srcs/JsonParser/JsonParser.cpp:87 | The text `stod` consumes is the longest prefix of the lexeme of the form digits, optionally followed by '.' and digits: every longer prefix breaks that form. |
| JsonParser.ParsePrimitive | srcs/JsonParser/JsonParser.cpp:79-88 | Corrected classification: the result is an int exactly when the lexeme has no '.', with the lexeme's decimal value. Otherwise it is the double whose text is exactly what `stod` consumes (StodPrefix). As modelled it fails exactly on an empty lexeme, on a lexeme whose `stod` prefix is a lone '.' (such as "." or ".."), or on an int out of range. The range error `stod` raises on a double is left out (see JsonParser.Stod). |
| JsonParser.ParsePrimitiveAsWritten | srcs/JsonParser/JsonParser.cpp:79-88 | The classification as written, with `npos` narrowed to `int` before the comparison. |
| JsonParser.AsWrittenAlwaysStod | srcs/JsonParser/JsonParser.cpp:82-87 | As written, every lexeme goes to `stod`, so no int is ever produced. |
| JsonParser.AsWrittenDigitsBecomeDouble | srcs/JsonParser/JsonParser.cpp:84 | The lexeme "1" becomes the double "1" as written, and the int 1 once corrected. |
| JsonParser.NarrowToInt | srcs/JsonParser/JsonParser.cpp:82 | Narrowing a `size_t` to `int` gives the 32-bit signed value congruent to it modulo 2^32. |
| JsonParser.DotIndex | srcs/JsonParser/JsonParser.cpp:82 | The first '.' of the lexeme, or none exactly when there is no '.'. |
| JsonParser.ParseObject | srcs/JsonParser/JsonParser.cpp:17-34 | A text whose cursor is not at '{' fails there (the assert). On success the result is a map, and the cursor is left just past a '}'. For serialized objects that is the matching '}', by JsonRoundTrip.ParseSerialized. |
| JsonParser.ParseMembers | srcs/JsonParser/JsonParser.cpp:23-30 | The member loop ends just past a '}', and every key already stored stays in the map. |
| JsonParser.PairIsKeyThenValue | srcs/JsonParser/JsonParser.cpp:36-77 | A pair succeeds exactly when ParseKey succeeds and ParseValue succeeds where the key left the cursor. The pair's key and value are theirs. The cursor ends at the value's end, or one past it exactly when a ',' follows. |
| JsonParser.KeyBetweenQuotes | srcs/JsonParser/JsonParser.cpp:40-59 | After the blanks a '"' must follow, or it fails there. Without a closing '"' it fails at the end of the text. When the character after the first closing '"' is not ':', it fails there. On success the key is exactly the text between the quotes, ':' directly follows, and the value starts after the blanks that follow the ':'. |
| JsonParser.ValueDispatch | srcs/JsonParser/JsonParser.cpp:61-71 | A value starting with '{' is exactly the nested object ParseObject reads there. Any other value is ParsePrimitive of the maximal run of digits and '.', and the cursor is left at the end of that run. |
| JsonParser.ParseJson | srcs/JsonParser/JsonParser.cpp:17-34 | The cursor-advancing loop computes exactly ParseObject. |
| JsonParser.SkipBlanksFrom | srcs/JsonParser/JsonParser.cpp:28-29 | The skipping loop computes exactly SkipBlanks. |
| JsonParser.RetriveKeyValuePair | srcs/JsonParser/JsonParser.cpp:36-77 | The cursor-advancing pair reader computes exactly ParsePair. |
| JsonParser.ReadKey | srcs/JsonParser/JsonParser.cpp:40-59 | The key-reading loops compute exactly ParseKey. |
| JsonParser.ReadValue | srcs/JsonParser/JsonParser.cpp:61-71 | The value-reading loop computes exactly ParseValue. |
| JsonParser.LaterPairWins | srcs/JsonParser/JsonParser.cpp:23-26 | Two consecutive pairs with the same key leave the later value, whatever the map held before. |
| JsonParser.RepeatedKeyKeepsLater | srcs/JsonParser/JsonParser.cpp:23-26 | `{"a":1,"a":2}` parses to the map a ↦ 2, ending at position 13. |
| JsonParser.TabIsNotBlank | srcs/JsonParser/JsonParser.cpp:40-41 | A tab before a key is a parse error at the tab. |
| JsonParser.ColonRightAfterKey | srcs/JsonParser/JsonParser.cpp:55 | A blank between the closing quote and the ':' is a parse error at the blank. |
| JsonParser.NotClosedAtPair | srcs/JsonParser/JsonParser.cpp:23 | Wherever a pair parses, the object is not closed yet. |
| JsonRoundTrip.Serialize | srcs/JsonParser/JsonParser.cpp:17-88 | The text form of a value the parser accepts: an object starts with '{', and a number starts with a number character. |
| JsonRoundTrip.DecimalRoundTrip | srcs/JsonParser/JsonParser.cpp:85 | Reading back the decimal digits of n gives n. |
| JsonRoundTrip.LeafRoundTrip | srcs/JsonParser/JsonParser.cpp:79-88 | A serialized non-negative int or decimal double is a number lexeme that parses back to the same value. |
| JsonRoundTrip.ParseSerialized | srcs/JsonParser/JsonParser.cpp:17-34 | Parsing a serialized object, wherever it occurs in a text, yields the object and ends just past it. |
| JsonRoundTrip.ParseEntries | srcs/JsonParser/JsonParser.cpp:23-30 | The member loop over serialized entries stores exactly those entries. |
| JsonRoundTrip.ObjectParseable | srcs/JsonParser/JsonParser.cpp:17-34 | Everything the parser produces can be serialized: no key holds a quote, every int is non-negative, and every double is decimal text. |
| JsonRoundTrip.ParseSerializeParse | srcs/JsonParser/JsonParser.cpp:17-34 | Parse, serialize and parse again yields the same value. |
| Utils.Find | srcs/Utils/Utils.cpp:16 | `find` yields the first occurrence of the delimiter, or none when there is no occurrence. |
| Utils.SplitLine | srcs/Utils/Utils.cpp:7-23 | The `while` loop computes exactly Split, including the error when `substr` runs past the end. |
| Utils.SplitSucceedsIffDelimiterNonEmpty | srcs/Utils/Utils.cpp:14-21 | splitLine returns exactly when the delimiter is non-empty. An empty delimiter ends in `substr` past the end. |
| Utils.SplitWordsAreNonEmptyPieces | srcs/Utils/Utils.cpp:17-19 | No returned word is empty, and no word contains the delimiter. |
| Utils.SplitSingleCharKeepsText | srcs/Utils/Utils.cpp:14-21 | With a one-character delimiter, the words concatenate, in order, to the line with every delimiter removed. |
| Utils.SplitSingleCharIsPieces | srcs/Utils/Utils.cpp:7-24 | With a one-character delimiter, splitLine yields exactly the maximal delimiter-free pieces of the line, in order, with empty pieces dropped, as cut by an independent character-by-character reading. |
| Utils.SplitLongDelimiterExample | srcs/Utils/Utils.cpp:20 | The cursor advances by one past the match, not by the delimiter length: "a::b" split on "::" gives "a" and ":b". |
| Utils.LastSlash | srcs/Utils/Utils.cpp:50 | `find_last_of("/")` is the last '/', or none when the path has no '/'. |
| Utils.FileNameIsLastComponent | srcs/Utils/Utils.cpp:50 | The examined filename is the path's final component: it has no '/', it ends the path, and a '/' precedes it unless it is the whole path. |
| Utils.CheckExtension | srcs/Utils/Utils.cpp:48-59 | The index loop returns true exactly when the filename is strictly longer than the extension and ends with it. The copy in srcs/Utils/Utils.hpp:23-34 has the same body, so this method models both. |
| Utils.ExtensionIgnoresDirectory | srcs/Utils/Utils.hpp:25 | Only the text after the last '/' is examined. |
| Utils.BareExtensionRejected | srcs/Utils/Utils.hpp:26-27 | A filename equal to the extension, such as a bare ".glb", is rejected. |
| Utils.EmptyExtension | srcs/Utils/Utils.hpp:26-33 | An empty extension is accepted exactly for a non-empty filename, so it is rejected for a path ending in '/'. |
| Utils.IsInt | srcs/Utils/Utils.cpp:61-74 | isInt accepts exactly an optional '-' followed only by digits. |
| Utils.IsFloat | srcs/Utils/Utils.cpp:76-100 | isFloat accepts exactly an optional '-', then digits with at most one '.', where the '.' does not come first or right after the sign. |
| Utils.IntWordEdges | srcs/Utils/Utils.cpp:61-74 | isInt accepts "" and "-", accepts "-12" and rejects "1-". |
| Utils.FloatWordEdges | srcs/Utils/Utils.cpp:76-100 | isFloat accepts "1." and "-0.5", and rejects ".5", "-.5" and "1.2.3". |
| Utils.IntWordIsFloatWord | srcs/Utils/Utils.cpp:61-100 | Every word isInt accepts, isFloat accepts too. |
| Utils.IntAndFloatAgreeWithoutDot | srcs/Utils/Utils.cpp:61-100 | On a word without '.', isInt and isFloat agree. |
| Bytes.U32At | srcs/GlbParser/GlbParser.cpp:22 | A little-endian 32-bit word read from four bytes is below 2^32. |
| Bytes.U16At | srcs/GlbParser/GlbParser.cpp:238-240 | A little-endian 16-bit word: its low byte comes first. |
| Bytes.DecodeEncodeU32 | srcs/GlbParser/GlbParser.cpp:22 | Encoding a 32-bit word and reading it back gives the word. |
| Bytes.EncodeDecodeU32 | srcs/GlbParser/GlbParser.cpp:22 | Reading four bytes and encoding the word gives the bytes back. |
| Bytes.DecodeEncodeU16 | srcs/GlbParser/GlbParser.cpp:238-240 | Encoding a 16-bit word and reading it back gives the word. |
| GlbContainer.BinOffset | srcs/GlbParser/GlbParser.cpp:30 | `20 + jsonLength` in `uint32_t`: it wraps below 2^32, and is exact when no overflow happens. |
| GlbContainer.LoadBinaryFile | srcs/GlbParser/GlbParser.cpp:11-47 | It fails on a missing ".glb" suffix, on fewer than 12 bytes, and on a JSON chunk that runs past the data. On success the JSON is the parse of bytes [20, 20+L), where L is the little-endian word at byte 12. The BIN payload is everything from 20+L+8 to the end. |
| GlbContainer.Container | srcs/GlbParser/GlbParser.cpp:18-33 | A well-formed container holds the header, the JSON chunk and the BIN chunk, back to back. |
| GlbContainer.ContainerLayout | srcs/GlbParser/GlbParser.cpp:22-33 | In a container, the JSON length word, the JSON bytes and the BIN bytes sit where the loader reads them. |
| GlbContainer.ContainerRoundTrip | srcs/GlbParser/GlbParser.cpp:11-47 | Loading a well-formed container gives back the parsed JSON and exactly the BIN bytes. |
| GlbContainer.SplitOf | srcs/GlbParser/GlbParser.cpp:22-33 | Whenever the data has the JSON bytes at 20 and the BIN bytes 8 bytes after them, loading gives exactly those, whatever the other header words are. |
| GlbContainer.HeaderFieldsIgnored | srcs/GlbParser/GlbParser.cpp:18-33 | Magic, version, total length and chunk types are never checked: data that differs only there loads the same. |
| GltfBuffers.FloatWords | srcs/GlbParser/GlbParser.cpp:208-211 | n float words from an offset: defined exactly when they lie inside the BIN chunk, and word i is read at offset + 4i. |
| GltfBuffers.HalfWords | srcs/GlbParser/GlbParser.cpp:297-300 | n 16-bit words from an offset: defined exactly when they lie inside the BIN chunk, and word i is read at offset + 2i. |
| GltfBuffers.WidenedBytes | srcs/GlbParser/GlbParser.cpp:232-234 | n bytes from an offset, each widened to 16 bits: defined exactly when they lie inside the BIN chunk. |
| GltfBuffers.ReadFloats | srcs/GlbParser/GlbParser.cpp:208-211 | The push_back loop computes exactly FloatWords. |
| GltfBuffers.ReadHalfWords | srcs/GlbParser/GlbParser.cpp:297-300 | The push_back loop computes exactly HalfWords. |
| GltfBuffers.ReadWidenedBytes | srcs/GlbParser/GlbParser.cpp:232-234 | The push_back loop computes exactly WidenedBytes. |
| GltfBuffers.FloatsRoundTrip | srcs/GlbParser/GlbParser.cpp:208-211 | Float words written into a buffer at any offset are read back unchanged. |
| GltfBuffers.HalfWordsRoundTrip | srcs/GlbParser/GlbParser.cpp:297-300 | 16-bit words written into a buffer at any offset are read back unchanged. |
| GltfGeometry.Group | srcs/GlbParser/GlbParser.cpp:259-283 | An optional attribute of vertex i is the group of `width` values starting at `width·i`, present exactly when its array is non-empty. |
| GltfGeometry.VertexAt | srcs/GlbParser/GlbParser.cpp:254-283 | Vertex i has three position floats. Its texcoord, normal, joint and weight fields are set exactly when that attribute's array is non-empty. |
| GltfGeometry.Vertices | srcs/GlbParser/GlbParser.cpp:252-286 | There are `|positions| / 3` vertices. Assembly is defined exactly when every non-empty attribute covers them all. |
| GltfGeometry.VerticesKeepPositions | srcs/GlbParser/GlbParser.cpp:252-258 | The vertices' positions, laid end to end, are the position array (up to its last whole triple). |
| GltfGeometry.AssembleVertices | srcs/GlbParser/GlbParser.cpp:252-286 | The assembly loop computes exactly Vertices. |
| GltfGeometry.Matrix | srcs/GlbParser/GlbParser.cpp:319-328 | Skin matrix i is 4×4, and its cell [j%4][j/4] is float word 16i+j. |
| GltfGeometry.SameCells | srcs/GlbParser/GlbParser.cpp:324-326 | Two 4×4 matrices with the same sixteen cells are equal. |
| GltfGeometry.ReadMatrices | srcs/GlbParser/GlbParser.cpp:319-328 | The outer loop yields `count` matrices, matrix i being Matrix(words, i). |
| GltfGeometry.FillMatrix | srcs/GlbParser/GlbParser.cpp:324-326 | The inner loop fills exactly Matrix(words, i). |
| GltfGeometry.CellUpdate | srcs/GlbParser/GlbParser.cpp:326 | Writing cell j changes that cell only. |
| GltfLoader.Field | srcs/JsonParser/JsonValue.hpp:17 | Key indexing on a copy: it fails exactly on a non-map. A present key yields its value, and a missing key reads the default. |
| GltfLoader.IntField | srcs/GlbParser/GlbParser.cpp:117 | An int-converted field: the field holds that int, and a missing key reads 0. |
| GltfLoader.StringField | srcs/GlbParser/GlbParser.cpp:96 | A string-converted field: the key is present and holds that string. |
| GltfLoader.Has | srcs/GlbParser/GlbParser.cpp:110 | `KeyExist` holds exactly when the key is in the map. |
| GltfLoader.Item | srcs/GlbParser/GlbParser.cpp:185 | Position indexing: TypeMismatch on a non-array, OutOfRange past the end, otherwise the element. |
| GltfLoader.SizeToIndex | srcs/GlbParser/GlbParser.cpp:201 | A `size_t` passed as an `int` index keeps its low 32 bits, read as signed. |
| GltfLoader.IntThroughSize | srcs/GlbParser/GlbParser.cpp:201 | An int that goes through `size_t` and back to `int` is unchanged. |
| GltfLoader.SizeField | srcs/GlbParser/GlbParser.cpp:186-187 | A `size_t` field read succeeds exactly on a map whose field, or the default 0 when missing, is an int, and yields that int converted through `size_t`. |
| GltfLoader.CountAccessor | srcs/GlbParser/GlbParser.cpp:291-296 | It succeeds exactly when the accessor exists and its "bufferView", its "count" and that view's "byteOffset" are all read. The count is the accessor's "count" and the offset is the "byteOffset" of the accessor's buffer view, both converted through `size_t`. |
| GltfLoader.VertexAccessor | srcs/GlbParser/GlbParser.cpp:185-201 | An attribute's accessor has the same view as CountAccessor reads, its "componentType" as a size and its "type" string. |
| GltfLoader.OutputAccessor | srcs/GlbParser/GlbParser.cpp:431-449 | A sampler output's accessor has the same view as CountAccessor reads, and its "type" string. |
| GltfLoader.MapAll | srcs/GlbParser/GlbParser.cpp:56-57 | Loading each element succeeds exactly when every element loads, and keeps their order. |
| GltfLoader.MapAllFirstError | srcs/GlbParser/GlbParser.cpp:56-57 | The error reported is that of the first element that fails. |
| GltfLoader.LoadEach | srcs/GlbParser/GlbParser.cpp:56-57 | A range-for: it fails with NotIterable on a non-container, and otherwise yields one result per element, in order. |
| GltfLoader.LoadAll | srcs/GlbParser/GlbParser.cpp:56-57 | The push_back loop from begin() to end() computes exactly LoadEach. |
| GltfLoader.VertexWidth | srcs/GlbParser/GlbParser.cpp:191-199 | In LoadVertices, VEC2, VEC3 and VEC4 have widths 2, 3 and 4, and any other type has width 0. |
| GltfLoader.SamplerWidth | srcs/GlbParser/GlbParser.cpp:437-445 | In LoadAnimation, SCALAR has width 1 as well, and the other types are as in LoadVertices. |
| GltfLoader.AppendFloats | srcs/GlbParser/GlbParser.cpp:205-226 | A float attribute appends `size` words read from the view's offset, and defines only when they lie in the BIN chunk. What was there before is kept. |
| GltfLoader.AppendJoints | srcs/GlbParser/GlbParser.cpp:227-242 | Type 5121 widens each byte, and 5123 reads little-endian 16-bit words. Any other component type appends nothing. |
| GltfLoader.ReadAttribute | srcs/GlbParser/GlbParser.cpp:205-249 | Each of the five recognised names fills only its own array, and any other name changes nothing. POSITION, TEXCOORD_0, NORMAL and WEIGHTS_0 append the `count × width` float words at the view's offset. JOINTS_0 appends the widened bytes or 16-bit words that AppendJoints reads. |
| GltfLoader.Entries | srcs/GlbParser/GlbParser.cpp:183-185 | The attribute map's key/value pairs, in iteration order. |
| GltfLoader.ReadAttributes | srcs/GlbParser/GlbParser.cpp:183-250 | When the attribute loop succeeds, every entry's accessor was read. |
| GltfLoader.UnnamedArrayKept | srcs/GlbParser/GlbParser.cpp:183-250 | An array that no entry names stays as the loop found it. |
| GltfLoader.NamedEntryFills | srcs/GlbParser/GlbParser.cpp:183-250 | With distinct names, the array an entry names is what that entry's accessor appends to the array the loop started with: `count × width` float words at the view's offset, or the joints AppendJoints reads. |
| GltfLoader.EntriesOfMap | srcs/GlbParser/GlbParser.cpp:183 | The attribute map's entries have distinct names, and every key of the map is one of them, with its value. |
| GltfLoader.LoadVertices | srcs/GlbParser/GlbParser.cpp:175-287 | It fails on non-iterable attributes. An empty attributes array runs no iteration and gives no vertices. Otherwise success needs a map, and the vertices are exactly Vertices of the arrays the attribute loop built from the map's entries. Without POSITION there are no vertices. |
| GltfLoader.PositionsFromAccessor | srcs/GlbParser/GlbParser.cpp:175-287 | A VEC3 POSITION accessor of `count` elements gives `count` vertices, and their positions laid end to end are the `3 × count` float words at that accessor's view offset. |
| GltfLoader.LoadIndices | srcs/GlbParser/GlbParser.cpp:289-303 | Indices are exactly `count` little-endian 16-bit words from the view's byteOffset, all inside the BIN chunk. |
| GltfLoader.PrimitiveSlot.constructor | srcs/GlbParser/GlbParser.cpp:163 | A fresh primitive has no vertices and no indices. |
| GltfLoader.PrimitiveSlot.LoadVerticesInto | srcs/GlbParser/GlbParser.cpp:175-287 | It succeeds exactly when LoadVertices does, with the same error otherwise. On success the out-parameter's vertices become LoadVertices, an empty attributes array included. Its indices are untouched, and on error its vertices are too. |
| GltfLoader.PrimitiveSlot.LoadIndicesInto | srcs/GlbParser/GlbParser.cpp:289-303 | On success the out-parameter's indices become LoadIndices, and its vertices are untouched. |
| GltfLoader.LoadPrimitive | srcs/GlbParser/GlbParser.cpp:161-173 | The vertices are LoadVertices of "attributes". The indices are LoadIndices of the "indices" int (0 when missing). The material is -1 when "material" is absent, and that int otherwise. |
| GltfLoader.LoadMesh | srcs/GlbParser/GlbParser.cpp:150-159 | A mesh has its name and exactly one primitive per element of "primitives", in order. |
| GltfLoader.LoadScene | srcs/GlbParser/GlbParser.cpp:92-101 | A scene has its name and one node index per element of "nodes", in order, each converted through `size_t`. |
| GltfLoader.Prefix | srcs/GlbParser/GlbParser.cpp:133 | The first n items of an array, defined exactly when the array has them. |
| GltfLoader.Optional | srcs/GlbParser/GlbParser.cpp:344-361 | A field is read exactly when its key exists, and is left unset otherwise. |
| GltfLoader.LoadTransform | srcs/GlbParser/GlbParser.cpp:129-141 | Scale, translation and rotation are each present exactly when their key exists. |
| GltfLoader.LoadNode | srcs/GlbParser/GlbParser.cpp:103-127 | Children are copied in order, and are empty without "children". Mesh and skin are -1 exactly when absent (or -1), and otherwise the int found. |
| GltfLoader.ZipJoints | srcs/GlbParser/GlbParser.cpp:330-335 | Joints are zipped by position with the matrices: joint k gets Matrix k. This is defined exactly when every joint is an int and there are at most `count` of them. |
| GltfLoader.LoadSkin | srcs/GlbParser/GlbParser.cpp:305-338 | There is one joint per element of "joints", each an int node. There are at most as many joints as the inverse-bind accessor's `count`, so more joints fail. Joint k's matrix is Matrix k of the `16 × count` float words at that accessor's view offset. |
| GltfLoader.SkinMatrixCells | srcs/GlbParser/GlbParser.cpp:326-333 | Cell j of joint k's matrix is float word 16k+j. |
| GltfLoader.LoadPbr | srcs/GlbParser/GlbParser.cpp:366-382 | Each of the five PBR fields is set exactly when its key exists. |
| GltfLoader.LoadMaterial | srcs/GlbParser/GlbParser.cpp:340-364 | Each of the nine material fields is set exactly when its key exists. The name is the string stored there. |
| GltfLoader.LoadImage | srcs/GlbParser/GlbParser.cpp:384-397 | An image has its name, the "byteOffset" of the buffer view it names, and that view's "byteLength" as its length. |
| GltfLoader.LoadKeyframes | srcs/GlbParser/GlbParser.cpp:430-453 | A sampler's output is the `count × width` float words at the view's offset, with the width SamplerWidth of the type. Width 0 reads nothing. |
| GltfLoader.LoadSampler | srcs/GlbParser/GlbParser.cpp:410-453 | A sampler has its interpolation string. Its timecodes are the `count` float words of its "input" accessor. Its width and data are LoadKeyframes of its "output" accessor. |
| GltfLoader.LoadChannel | srcs/GlbParser/GlbParser.cpp:405-412 | A channel has its int "sampler", and the int "node" and string "path" of its "target". The sampler must lie inside the animation's "samplers", and the sampler loaded is the one at that position. |
| GltfLoader.LoadAnimation | srcs/GlbParser/GlbParser.cpp:399-459 | An animation has its name and exactly one channel and one sampler per element of "channels", so the two lists have equal length. The sampler at i is the one channel i names. |
| GltfLoader.Section | srcs/GlbParser/GlbParser.cpp:56-63 | A required section yields one entry per element, in input order. |
| GltfLoader.OptionalSection | srcs/GlbParser/GlbParser.cpp:65-87 | An optional section is empty when its key is absent, and is loaded like a required one otherwise. |
| GltfLoader.LoadGltfDoc | srcs/GlbParser/GlbParser.cpp:50-90 | The root scene is the "scene" int, or 0 when absent. Scenes, nodes and meshes are exactly Section of the document after "scene" is read, so each is loaded element by element. Skins, materials, images and animations are exactly OptionalSection: empty when the key is absent and loaded element by element otherwise. |
| GltfLoader.LoadSection | srcs/GlbParser/GlbParser.cpp:56-63 | The in-place loop over the caller's document computes exactly Section, and on success the document is unchanged. |
| GltfLoader.LoadOptionalSection | srcs/GlbParser/GlbParser.cpp:65-87 | The in-place loop computes exactly OptionalSection, and on success the document is unchanged. |
| GltfLoader.LoadGltf | srcs/GlbParser/GlbParser.cpp:50-90 | The loader on the caller's document computes exactly LoadGltfDoc. On success the only change to the document is a "scene" entry inserted when it was missing. |

## Left out

- File and console I/O: `readFile`, `readBinaryFile`, `ParseFile`, the command-line program. The file's bytes are a parameter of `LoadBinaryFile`.
- The `generateFiles` branch of `LoadBinaryFile` (srcs/GlbParser/GlbParser.cpp:36-45) writes files. It is not modelled.
- The `operator<<` pretty-printer is stream output. It is not modelled.
- `DegToRad` is not modelled, because it is floating point.
- `CalculateTransform`'s matrix product is not modelled: it uses a matrix library that is not part of this model, and floating point. LoadTransform keeps the raw scale, translation and rotation components.
- JsonParser.Stod: the numeric value of `stod` is not modelled, only the text it consumes. `stod`'s out-of-range error is not modelled either.
- GltfLoader.Number: `operator float` has no body in the source, so a float field is kept as the raw JSON value it converts.
- GltfGeometry.VertexAt: `nbFloatPerPosition`, `nbFloatPerTexCoord`, `nbFloatPerNormal`, `nbFloatPerJoint` and `nbFloatPerWeight` are not defined in the source. They are taken to be 3, 2, 3, 4 and 4.
- GltfLoader.Has: `KeyExist` has no body in the source. It is modelled as key membership, failing on a non-map.
- JsonValue.Iterator.Key: `Iterator::key()` and `value()` have no body in the source. `key()` is taken to be the current entry's key, and is required to be on a map cursor; LoadVertices over a non-empty array of attributes is therefore a TypeMismatch. An empty array never reaches `key()` and gives no vertices. `value()` is taken to be the current value.
- The struct definitions (Scene, Node, Primitive, Skin, Material, Sampler and the rest) are not part of this model. Their field widths are assumed: `int` for indices the source reads as ints, `size_t` for scene nodes, node children and an image's length (`byteLength`).
- The default values of Material, PBR and Vertex fields are not modelled. An unset field is `None`.
- GltfLoader.LoadGltf: on an error path the state of the caller's document is left unspecified. Only the successful run's change is stated.
- GltfLoader.LoadKeyframes: the `size_t` wrap-around of `count * nbElement` is not modelled.
- GltfLoader.LoadImage: the image bytes are a pointer into the BIN chunk and are never read or bounds-checked, so the model keeps only the offset and length.
- GlbContainer.LoadBinaryFile: `Toolbox::checkExtension` is not part of this model. It is taken to be `Utils::checkExtension`.
- The JSON parser's declared-only functions in srcs/JsonParser/JsonParser.hpp have no body. They are not modelled.

## Findings

| source | as written | input that shows it | evidently intended | confidence | as-written member | corrected member |
|---|---|---|---|---|---|---|
| srcs/JsonParser/JsonParser.cpp:82-85 | The result of `find(".")` is stored in an `int` and compared with the lexeme length. A missing '.' gives `npos`, which narrows to -1, so the integer branch is never taken: every number becomes a double. | the lexeme "1" (for example `{"scene":0}`) | a lexeme without '.' goes to `stoi` and yields an int | not executed | JsonParser.AsWrittenDigitsBecomeDouble | JsonParser.ParsePrimitive |
