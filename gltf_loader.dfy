/** Glb::LoadGltf and the resolvers it calls: every section of the glTF
    document is turned into scenes, nodes, meshes, skins, materials, images
    and animations, following accessor -> bufferView -> byteOffset into the
    BIN chunk (section 3.6.2 of the glTF 2.0 specification).

    Most loaders read copies (`auto x = ...`, `for (auto x : ...)`): a key
    they look up and miss is inserted into the copy, bound to int 0, and
    read as int 0. The resolvers also index the caller's document itself
    (`gltfJson["accessors"]`, `gltfJson["bufferViews"]`), but a miss there
    always ends in an error, so on success the only change to the caller's
    document is a missing "scene" inserted by LoadGltf. */
module GltfLoader {
  import opened Wrappers
  import opened Bytes
  import opened JsonValue
  import opened GltfBuffers
  import opened GltfGeometry
  import StringOrder

  // -----------------------------------------------------------------------
  // Reading the document
  // -----------------------------------------------------------------------

  /** `x[key]` read through: a missing key reads as the default int 0. */
  function Field(v: Value, key: string): (r: Result<Value>)
    ensures r.Ok? <==> v.Object?
    ensures r.Err? ==> r.error == TypeMismatch
    ensures r.Ok? && key in v.fields ==> r.value == v.fields[key]
    ensures r.Ok? && key !in v.fields ==> r.value == Default
  {
    var found :- IndexKey(v, key);
    Ok(found.entry)
  }

  /** The same read on a value already known to be a map. */
  function Get(v: Value, key: string): (x: Value)
    requires v.Object?
    ensures Field(v, key) == Ok(x)
  {
    if key in v.fields then v.fields[key] else Default
  }

  /** An int field; a missing key reads as 0. */
  function IntField(v: Value, key: string): (r: Result<int32>)
    ensures r.Ok? ==> v.Object?
    ensures r.Ok? ==> Field(v, key) == Ok(Int(r.value))
    ensures r.Ok? && key !in v.fields ==> r.value == 0
  {
    var x :- Field(v, key);
    AsInt(x)
  }

  /** A size_t field: the int held, converted; a missing key reads as 0. */
  function SizeField(v: Value, key: string): (r: Result<nat>)
    ensures r.Ok? ==> v.Object?
    ensures r.Ok? <==> Field(v, key).Ok? && Field(v, key).value.Int?
    ensures r.Ok? ==> Ok(r.value) == AsSize(Field(v, key).value)
  {
    var x :- Field(v, key);
    AsSize(x)
  }

  /** A string field; a missing key reads as int 0 and fails. */
  function StringField(v: Value, key: string): (r: Result<string>)
    ensures r.Ok? ==> v.Object? && key in v.fields && v.fields[key] == Str(r.value)
  {
    var x :- Field(v, key);
    AsString(x)
  }

  /** KeyExist, whose body is not part of the source: whether the map has
      the key; asked of a non-map, it is taken to throw as `std::get` does. */
  function Has(v: Value, key: string): (r: Result<bool>)
    ensures r.Ok? <==> v.Object?
    ensures r.Ok? ==> (r.value <==> key in v.fields)
  {
    if v.Object? then Ok(key in v.fields) else Err(TypeMismatch)
  }

  /** `std::vector::operator[]` on an array value: a position outside the
      array is undefined behaviour in the source, OutOfRange here. */
  function Item(v: Value, index: int): (r: Result<Value>)
    ensures r.Ok? <==> v.Array? && 0 <= index < |v.items|
    ensures !v.Array? ==> r == Err(TypeMismatch)
    ensures v.Array? && r.Err? ==> r.error == OutOfRange
    ensures r.Ok? ==> r.value == v.items[index]
  {
    if !v.Array? then Err(TypeMismatch)
    else if 0 <= index < |v.items| then At(v, index)
    else Err(OutOfRange)
  }

  /** A `size_t` passed to `operator[](int)`: the low 32 bits, read as a
      signed int. */
  function SizeToIndex(n: nat): (i: int)
    ensures -0x8000_0000 <= i < 0x8000_0000
    ensures (i - n) % 0x1_0000_0000 == 0
  {
    var low := n % 0x1_0000_0000;
    if low >= 0x8000_0000 then low - 0x1_0000_0000 else low
  }

  /** An int read as a size_t and passed back as an int is the same int:
      a negative index stays negative (and is then out of range). */
  lemma IntThroughSize(i: int32)
    ensures SizeToIndex(AsSize(Int(i)).value) == i as int
  {
    if i < 0 {
      var n := i as int + SizeModulus;
      assert AsSize(Int(i)).value == n;
      assert n == (i as int + 0x1_0000_0000) + 0x1_0000_0000 * (0xFFFF_FFFF);
      assert n % 0x1_0000_0000 == i as int + 0x1_0000_0000;
    }
  }

  /** `gltfJson["accessors"][index]`. */
  function AccessorAt(doc: Value, index: int): Result<Value> {
    var accessors :- Field(doc, "accessors");
    Item(accessors, index)
  }

  /** `gltfJson["bufferViews"][view]`. */
  function BufferView(doc: Value, view: nat): Result<Value> {
    var views :- Field(doc, "bufferViews");
    Item(views, SizeToIndex(view))
  }

  /** The "byteOffset" of a buffer view, as a size. */
  function ViewOffset(doc: Value, view: nat): Result<nat> {
    var bufferView :- BufferView(doc, view);
    SizeField(bufferView, "byteOffset")
  }

  /** Where an accessor's elements start in the BIN chunk, and how many
      there are. */
  datatype View = View(offset: nat, count: nat)

  /** An accessor's "bufferView" and "count", then its view's "byteOffset"
      (LoadIndices, LoadSkin, a sampler's input). */
  function CountAccessor(doc: Value, index: int): (r: Result<View>)
    ensures r.Ok? ==> AccessorAt(doc, index).Ok?
    ensures r.Ok? ==> Ok(r.value.count) == SizeField(AccessorAt(doc, index).value, "count")
    ensures r.Ok? <==>
              && AccessorAt(doc, index).Ok?
              && SizeField(AccessorAt(doc, index).value, "bufferView").Ok?
              && SizeField(AccessorAt(doc, index).value, "count").Ok?
              && ViewOffset(doc, SizeField(AccessorAt(doc, index).value, "bufferView").value).Ok?
    ensures r.Ok? ==>
              Ok(r.value.offset) == ViewOffset(doc, SizeField(AccessorAt(doc, index).value, "bufferView").value)
  {
    var accessor :- AccessorAt(doc, index);
    var view :- SizeField(accessor, "bufferView");
    var count :- SizeField(accessor, "count");
    var offset :- ViewOffset(doc, view);
    Ok(View(offset, count))
  }

  /** An attribute's accessor: also its "componentType" and "type", read
      before the bufferView. */
  datatype Accessor = Accessor(view: View, componentType: nat, shape: string)

  function VertexAccessor(doc: Value, index: int): (r: Result<Accessor>)
    ensures r.Ok? ==> AccessorAt(doc, index).Ok? && CountAccessor(doc, index) == Ok(r.value.view)
    ensures r.Ok? ==> Ok(r.value.componentType) == SizeField(AccessorAt(doc, index).value, "componentType")
    ensures r.Ok? ==> Ok(r.value.shape) == StringField(AccessorAt(doc, index).value, "type")
  {
    var accessor :- AccessorAt(doc, index);
    var view :- SizeField(accessor, "bufferView");
    var count :- SizeField(accessor, "count");
    var componentType :- SizeField(accessor, "componentType");
    var shape :- StringField(accessor, "type");
    var offset :- ViewOffset(doc, view);
    Ok(Accessor(View(offset, count), componentType, shape))
  }

  /** A sampler output's accessor: its "type" too, but no componentType. */
  function OutputAccessor(doc: Value, index: int): (r: Result<(View, string)>)
    ensures r.Ok? ==> AccessorAt(doc, index).Ok? && CountAccessor(doc, index) == Ok(r.value.0)
    ensures r.Ok? ==> Ok(r.value.1) == StringField(AccessorAt(doc, index).value, "type")
  {
    var accessor :- AccessorAt(doc, index);
    var view :- SizeField(accessor, "bufferView");
    var count :- SizeField(accessor, "count");
    var shape :- StringField(accessor, "type");
    var offset :- ViewOffset(doc, view);
    Ok((View(offset, count), shape))
  }

  // -----------------------------------------------------------------------
  // Range-for loops that push one loaded element per iteration
  // -----------------------------------------------------------------------

  /** Loading every element in order; the first failure is the result. */
  function MapAll<T>(xs: seq<Value>, load: Value -> Result<T>): (r: Result<seq<T>>)
    ensures r.Ok? <==> forall i :: 0 <= i < |xs| ==> load(xs[i]).Ok?
    ensures r.Ok? ==> |r.value| == |xs|
    ensures r.Ok? ==> forall i :: 0 <= i < |xs| ==> r.value[i] == load(xs[i]).value
    decreases |xs|
  {
    if xs == [] then Ok([])
    else
      var head :- load(xs[0]);
      var rest :- MapAll(xs[1..], load);
      Ok([head] + rest)
  }

  /** The failure of the first element that fails is the failure of the
      whole loop. */
  lemma {:induction false} MapAllFirstError<T>(xs: seq<Value>, load: Value -> Result<T>, i: nat)
    requires i < |xs| && load(xs[i]).Err?
    requires forall k :: 0 <= k < i ==> load(xs[k]).Ok?
    ensures MapAll(xs, load) == Err(load(xs[i]).error)
    decreases i
  {
    if i > 0 {
      MapAllFirstError(xs[1..], load, i - 1);
      assert load(xs[0]).Ok?;
    }
  }

  /** What the loop pushed, element by element, is the whole result. */
  lemma MapAllOfLoop<T>(xs: seq<Value>, load: Value -> Result<T>, out: seq<T>)
    requires |out| == |xs|
    requires forall k :: 0 <= k < |xs| ==> load(xs[k]).Ok? && out[k] == load(xs[k]).value
    ensures MapAll(xs, load) == Ok(out)
  {
    assert MapAll(xs, load).value == out;
  }

  /** A range-for over `v` that pushes `load` of each element. */
  function LoadEach<T>(v: Value, load: Value -> Result<T>): (r: Result<seq<T>>)
    ensures !Iterable(v) ==> r == Err(NotIterable)
    ensures r.Ok? ==> Iterable(v) && |r.value| == |Elements(v)|
    ensures r.Ok? ==> forall i :: 0 <= i < |r.value| ==> Ok(r.value[i]) == load(Elements(v)[i])
  {
    if !Iterable(v) then Err(NotIterable) else MapAll(Elements(v), load)
  }

  /** The range-for itself: walk from begin() to end(), load, push. */
  method LoadAll<T>(v: Value, load: Value -> Result<T>) returns (r: Result<seq<T>>)
    ensures r == LoadEach(v, load)
  {
    var walked := Walk(v);
    if walked.Err? {
      return Err(walked.error);
    }
    var xs := walked.value;
    var out: seq<T> := [];
    var i := 0;
    while i < |xs|
      invariant i <= |xs| && |out| == i
      invariant forall k :: 0 <= k < i ==> load(xs[k]).Ok? && out[k] == load(xs[k]).value
    {
      var x := load(xs[i]);
      if x.Err? {
        MapAllFirstError(xs, load, i);
        return Err(x.error);
      }
      out := out + [x.value];
      i := i + 1;
    }
    MapAllOfLoop(xs, load, out);
    return Ok(out);
  }

  // -----------------------------------------------------------------------
  // Attribute widths
  // -----------------------------------------------------------------------

  /** LoadVertices: VEC2, VEC3 and VEC4 elements; any other shape reads
      nothing. */
  function VertexWidth(shape: string): (n: nat)
    ensures n <= 4 && n != 1
    ensures n == 0 <==> shape != "VEC2" && shape != "VEC3" && shape != "VEC4"
  {
    if shape == "VEC2" then 2
    else if shape == "VEC3" then 3
    else if shape == "VEC4" then 4
    else 0
  }

  /** LoadAnimation: SCALAR too. */
  function SamplerWidth(shape: string): (n: nat)
    ensures shape == "SCALAR" ==> n == 1
    ensures shape != "SCALAR" ==> n == VertexWidth(shape)
  {
    if shape == "SCALAR" then 1
    else if shape == "VEC2" then 2
    else if shape == "VEC3" then 3
    else if shape == "VEC4" then 4
    else 0
  }

  // -----------------------------------------------------------------------
  // LoadVertices
  // -----------------------------------------------------------------------

  const UnsignedByte: nat := 5121
  const UnsignedShort: nat := 5123

  /** `size` float words from `offset` pushed onto `slot`. */
  function AppendFloats(bin: seq<byte>, offset: nat, size: nat, slot: seq<FloatBits>): (r: Result<seq<FloatBits>>)
    ensures r.Ok? <==> size == 0 || offset + 4 * size <= |bin|
    ensures r.Ok? ==> |r.value| == |slot| + size && r.value[..|slot|] == slot
    ensures r.Ok? ==> forall i :: |slot| <= i < |r.value| ==> r.value[i] == WordAt(bin, offset + 4 * (i - |slot|))
  {
    var data :- FloatWords(bin, offset, size);
    Ok(slot + data)
  }

  /** The JOINTS_0 branch: bytes widened to 16 bits (5121), 16-bit words
      (5123), or nothing for any other component type. */
  function AppendJoints(bin: seq<byte>, componentType: nat, offset: nat, size: nat, slot: seq<nat>): (r: Result<seq<nat>>)
    ensures componentType != UnsignedByte && componentType != UnsignedShort ==> r == Ok(slot)
    ensures r.Ok? ==> |slot| <= |r.value| && r.value[..|slot|] == slot
    ensures componentType == UnsignedByte ==> (r.Ok? <==> size == 0 || offset + size <= |bin|)
    ensures r.Ok? && componentType == UnsignedByte ==>
      && |r.value| == |slot| + size
      && forall i :: |slot| <= i < |r.value| ==> r.value[i] == bin[offset + (i - |slot|)] as nat
    ensures componentType == UnsignedShort ==> (r.Ok? <==> size == 0 || offset + 2 * size <= |bin|)
    ensures r.Ok? && componentType == UnsignedShort ==>
      && |r.value| == |slot| + size
      && forall i :: |slot| <= i < |r.value| ==> r.value[i] == U16At(bin, offset + 2 * (i - |slot|))
  {
    if componentType == UnsignedByte then
      var data :- WidenedBytes(bin, offset, size);
      Ok(slot + data)
    else if componentType == UnsignedShort then
      var data :- HalfWords(bin, offset, size);
      Ok(slot + data)
    else Ok(slot)
  }

  /** `count * nbFloat`: how many elements an attribute's accessor holds. */
  function Size(ac: Accessor): nat {
    ac.view.count * VertexWidth(ac.shape)
  }

  /** One attribute: `count * width` elements from the view's byteOffset
      are pushed onto the array the name selects; an unknown name is
      skipped, and every other array is left as it was. */
  function ReadAttribute(bin: seq<byte>, name: string, ac: Accessor, acc: Attributes): (r: Result<Attributes>)
    ensures r.Ok? ==> (name != "POSITION" ==> r.value.positions == acc.positions)
    ensures r.Ok? ==> (name != "TEXCOORD_0" ==> r.value.texCoords == acc.texCoords)
    ensures r.Ok? ==> (name != "NORMAL" ==> r.value.normals == acc.normals)
    ensures r.Ok? ==> (name != "JOINTS_0" ==> r.value.joints == acc.joints)
    ensures r.Ok? ==> (name != "WEIGHTS_0" ==> r.value.weights == acc.weights)
    ensures name !in {"POSITION", "TEXCOORD_0", "NORMAL", "JOINTS_0", "WEIGHTS_0"} ==> r == Ok(acc)
    ensures r.Ok? && name == "POSITION" ==>
      Ok(r.value.positions) == AppendFloats(bin, ac.view.offset, Size(ac), acc.positions)
    ensures r.Ok? && name == "TEXCOORD_0" ==>
      Ok(r.value.texCoords) == AppendFloats(bin, ac.view.offset, Size(ac), acc.texCoords)
    ensures r.Ok? && name == "NORMAL" ==>
      Ok(r.value.normals) == AppendFloats(bin, ac.view.offset, Size(ac), acc.normals)
    ensures r.Ok? && name == "JOINTS_0" ==>
      Ok(r.value.joints) == AppendJoints(bin, ac.componentType, ac.view.offset, Size(ac), acc.joints)
    ensures r.Ok? && name == "WEIGHTS_0" ==>
      Ok(r.value.weights) == AppendFloats(bin, ac.view.offset, Size(ac), acc.weights)
  {
    var offset := ac.view.offset;
    var size := Size(ac);
    if name == "POSITION" then
      var positions :- AppendFloats(bin, offset, size, acc.positions);
      Ok(acc.(positions := positions))
    else if name == "TEXCOORD_0" then
      var texCoords :- AppendFloats(bin, offset, size, acc.texCoords);
      Ok(acc.(texCoords := texCoords))
    else if name == "NORMAL" then
      var normals :- AppendFloats(bin, offset, size, acc.normals);
      Ok(acc.(normals := normals))
    else if name == "JOINTS_0" then
      var joints :- AppendJoints(bin, ac.componentType, offset, size, acc.joints);
      Ok(acc.(joints := joints))
    else if name == "WEIGHTS_0" then
      var weights :- AppendFloats(bin, offset, size, acc.weights);
      Ok(acc.(weights := weights))
    else Ok(acc)
  }

  /** What `it.key()` and `it.value()` give along the walk over a map:
      its entries in ascending key order. */
  function Entries(v: Value): (es: seq<(string, Value)>)
    requires v.Object?
    ensures |es| == |Keys(v)|
    ensures forall i :: 0 <= i < |es| ==> es[i].0 == Keys(v)[i] && es[i].0 in v.fields && es[i].1 == v.fields[es[i].0]
  {
    var ks := Keys(v);
    seq(|ks|, i requires 0 <= i < |ks| => (ks[i], v.fields[ks[i]]))
  }

  /** The accessor an attribute entry names with `it.value()`. */
  function EntryAccessor(doc: Value, e: (string, Value)): Result<Accessor> {
    var index :- AsInt(e.1);
    VertexAccessor(doc, index as int)
  }

  /** The attribute loop over the remaining entries: `it.value()` as an
      int names the accessor, `it.key()` the array it fills. */
  function ReadAttributes(doc: Value, bin: seq<byte>, entries: seq<(string, Value)>, acc: Attributes): (r: Result<Attributes>)
    ensures r.Ok? ==> forall i :: 0 <= i < |entries| ==> EntryAccessor(doc, entries[i]).Ok?
    decreases |entries|
  {
    if entries == [] then Ok(acc)
    else
      var ac :- EntryAccessor(doc, entries[0]);
      var next :- ReadAttribute(bin, entries[0].0, ac, acc);
      var r := ReadAttributes(doc, bin, entries[1..], next);
      assert forall i :: 1 <= i < |entries| ==> entries[i] == entries[1..][i - 1];
      r
  }

  /** The names LoadVertices stores; any other attribute is skipped. */
  predicate IsFloatAttribute(name: string) {
    name == "POSITION" || name == "TEXCOORD_0" || name == "NORMAL" || name == "WEIGHTS_0"
  }

  /** The float array a float attribute fills. */
  function FloatSlot(a: Attributes, name: string): seq<FloatBits>
    requires IsFloatAttribute(name)
  {
    if name == "POSITION" then a.positions
    else if name == "TEXCOORD_0" then a.texCoords
    else if name == "NORMAL" then a.normals
    else a.weights
  }

  /** No two entries share a name, as the keys of a map do not. */
  predicate DistinctNames(entries: seq<(string, Value)>) {
    forall i, j :: 0 <= i < j < |entries| ==> entries[i].0 != entries[j].0
  }

  /** An array no entry names stays as the loop found it. */
  lemma {:induction false} UnnamedArrayKept(doc: Value, bin: seq<byte>, entries: seq<(string, Value)>, acc: Attributes, name: string)
    requires forall i :: 0 <= i < |entries| ==> entries[i].0 != name
    requires ReadAttributes(doc, bin, entries, acc).Ok?
    ensures IsFloatAttribute(name) ==> FloatSlot(ReadAttributes(doc, bin, entries, acc).value, name) == FloatSlot(acc, name)
    ensures name == "JOINTS_0" ==> ReadAttributes(doc, bin, entries, acc).value.joints == acc.joints
    decreases |entries|
  {
    if entries != [] {
      AttributeStep(doc, bin, entries, acc);
      var ac := EntryAccessor(doc, entries[0]).value;
      var next := ReadAttribute(bin, entries[0].0, ac, acc).value;
      SlotsOfAttribute(bin, entries[0].0, ac, acc, name);
      assert forall i :: 0 <= i < |entries| - 1 ==> entries[1..][i] == entries[i + 1];
      UnnamedArrayKept(doc, bin, entries[1..], next, name);
    }
  }

  /** With distinct names, the array an entry names is what that entry's
      accessor appends (`count * width` elements from its view's
      byteOffset) to the array the loop started with. */
  lemma {:induction false} NamedEntryFills(doc: Value, bin: seq<byte>, entries: seq<(string, Value)>, acc: Attributes, k: nat)
    requires DistinctNames(entries) && k < |entries|
    requires ReadAttributes(doc, bin, entries, acc).Ok?
    ensures EntryAccessor(doc, entries[k]).Ok?
    ensures var ac, name, r := EntryAccessor(doc, entries[k]).value, entries[k].0, ReadAttributes(doc, bin, entries, acc).value;
            IsFloatAttribute(name) ==>
              Ok(FloatSlot(r, name)) == AppendFloats(bin, ac.view.offset, Size(ac), FloatSlot(acc, name))
    ensures var ac, name, r := EntryAccessor(doc, entries[k]).value, entries[k].0, ReadAttributes(doc, bin, entries, acc).value;
            name == "JOINTS_0" ==>
              Ok(r.joints) == AppendJoints(bin, ac.componentType, ac.view.offset, Size(ac), acc.joints)
    decreases |entries|
  {
    if k == 0 {
      FirstEntryFills(doc, bin, entries, acc);
    } else {
      AttributeStep(doc, bin, entries, acc);
      var ac := EntryAccessor(doc, entries[0]).value;
      var next := ReadAttribute(bin, entries[0].0, ac, acc).value;
      DistinctTail(entries);
      assert entries[1..][k - 1] == entries[k];
      SlotsOfAttribute(bin, entries[0].0, ac, acc, entries[k].0);
      NamedEntryFills(doc, bin, entries[1..], next, k - 1);
    }
  }

  lemma DistinctTail(entries: seq<(string, Value)>)
    requires DistinctNames(entries) && entries != []
    ensures DistinctNames(entries[1..])
  {
    assert forall i :: 0 <= i < |entries| - 1 ==> entries[1..][i] == entries[i + 1];
  }

  /** The first entry fills its array, and no later entry touches it. */
  lemma FirstEntryFills(doc: Value, bin: seq<byte>, entries: seq<(string, Value)>, acc: Attributes)
    requires DistinctNames(entries) && 0 < |entries|
    requires ReadAttributes(doc, bin, entries, acc).Ok?
    ensures EntryAccessor(doc, entries[0]).Ok?
    ensures var ac, name, r := EntryAccessor(doc, entries[0]).value, entries[0].0, ReadAttributes(doc, bin, entries, acc).value;
            IsFloatAttribute(name) ==>
              Ok(FloatSlot(r, name)) == AppendFloats(bin, ac.view.offset, Size(ac), FloatSlot(acc, name))
    ensures var ac, name, r := EntryAccessor(doc, entries[0]).value, entries[0].0, ReadAttributes(doc, bin, entries, acc).value;
            name == "JOINTS_0" ==>
              Ok(r.joints) == AppendJoints(bin, ac.componentType, ac.view.offset, Size(ac), acc.joints)
  {
    AttributeStep(doc, bin, entries, acc);
    var ac := EntryAccessor(doc, entries[0]).value;
    var next := ReadAttribute(bin, entries[0].0, ac, acc).value;
    assert forall i :: 0 <= i < |entries| - 1 ==> entries[1..][i] == entries[i + 1];
    SlotsOfAttribute(bin, entries[0].0, ac, acc, entries[0].0);
    UnnamedArrayKept(doc, bin, entries[1..], next, entries[0].0);
  }

  /** One round of the attribute loop. */
  lemma AttributeStep(doc: Value, bin: seq<byte>, entries: seq<(string, Value)>, acc: Attributes)
    requires entries != [] && ReadAttributes(doc, bin, entries, acc).Ok?
    ensures EntryAccessor(doc, entries[0]).Ok?
    ensures var next := ReadAttribute(bin, entries[0].0, EntryAccessor(doc, entries[0]).value, acc);
            next.Ok? && ReadAttributes(doc, bin, entries, acc) == ReadAttributes(doc, bin, entries[1..], next.value)
  {
  }

  /** ReadAttribute in terms of the array a name selects: the named array
      grows by the accessor's elements, any other stays. */
  lemma SlotsOfAttribute(bin: seq<byte>, name: string, ac: Accessor, acc: Attributes, other: string)
    requires ReadAttribute(bin, name, ac, acc).Ok?
    ensures var r := ReadAttribute(bin, name, ac, acc).value;
            IsFloatAttribute(other) && other != name ==> FloatSlot(r, other) == FloatSlot(acc, other)
    ensures other == "JOINTS_0" && other != name ==> ReadAttribute(bin, name, ac, acc).value.joints == acc.joints
    ensures var r := ReadAttribute(bin, name, ac, acc).value;
            IsFloatAttribute(name) ==> Ok(FloatSlot(r, name)) == AppendFloats(bin, ac.view.offset, Size(ac), FloatSlot(acc, name))
  {
  }

  /** LoadVertices: read every attribute, then assemble. The iterator's
      key() has no body in the source; on an array element it is taken to
      throw. An empty array never reaches key(): the loop does not run and
      no vertex is assembled. */
  function LoadVertices(doc: Value, bin: seq<byte>, attributes: Value): (r: Result<seq<Vertex>>)
    ensures !Iterable(attributes) ==> r == Err(NotIterable)
    ensures attributes == Array([]) ==> r == Ok([])
    ensures r.Ok? ==> attributes.Object? || attributes == Array([])
    ensures r.Ok? && attributes.Object? ==> var a := ReadAttributes(doc, bin, Entries(attributes), NoAttributes);
                      a.Ok? && r == Vertices(a.value)
    ensures r.Ok? && attributes.Object? && "POSITION" !in attributes.fields ==> r.value == []
  {
    if !Iterable(attributes) then Err(NotIterable)
    else if attributes == Array([]) then Vertices(NoAttributes)
    else if !attributes.Object? then Err(TypeMismatch)
    else
      var entries := Entries(attributes);
      var a :- ReadAttributes(doc, bin, entries, NoAttributes);
      if "POSITION" in attributes.fields then Vertices(a)
      else
        assert forall i :: 0 <= i < |entries| ==> entries[i].0 in attributes.fields;
        UnnamedArrayKept(doc, bin, entries, NoAttributes, "POSITION");
        Vertices(a)
  }

  /** The entries of an attribute map have distinct names, and every name
      of the map is one of them. */
  lemma EntriesOfMap(attributes: Value)
    requires attributes.Object?
    ensures DistinctNames(Entries(attributes))
    ensures forall name :: name in attributes.fields ==>
              exists k :: 0 <= k < |Entries(attributes)| && Entries(attributes)[k] == (name, attributes.fields[name])
  {
    var es := Entries(attributes);
    StringOrder.AscendingIsDistinct(attributes.fields.Keys);
    forall name | name in attributes.fields
      ensures exists k :: 0 <= k < |es| && es[k] == (name, attributes.fields[name])
    {
      var k :| 0 <= k < |Keys(attributes)| && Keys(attributes)[k] == name;
      assert es[k] == (name, attributes.fields[name]);
    }
  }

  /** A POSITION accessor of `count` VEC3 elements gives `count` vertices,
      whose positions, laid end to end, are the `3 * count` float words at
      the accessor's view offset. */
  lemma PositionsFromAccessor(doc: Value, bin: seq<byte>, attributes: Value, ac: Accessor)
    requires LoadVertices(doc, bin, attributes).Ok?
    requires attributes.Object? && "POSITION" in attributes.fields
    requires EntryAccessor(doc, ("POSITION", attributes.fields["POSITION"])) == Ok(ac) && ac.shape == "VEC3"
    ensures |LoadVertices(doc, bin, attributes).value| == ac.view.count
    ensures FloatWords(bin, ac.view.offset, 3 * ac.view.count).Ok?
    ensures Flatten(LoadVertices(doc, bin, attributes).value) == FloatWords(bin, ac.view.offset, 3 * ac.view.count).value
  {
    var n := ac.view.count;
    assert VertexWidth(ac.shape) == 3 && Size(ac) == 3 * n;
    var a := ReadAttributes(doc, bin, Entries(attributes), NoAttributes).value;
    PositionArray(doc, bin, attributes, ac, 3 * n);
    AssembledPositions(a, n, LoadVertices(doc, bin, attributes).value);
  }

  /** Vertices assembled from exactly `n` positions: `n` of them, their
      positions laid end to end giving back the array. */
  lemma AssembledPositions(a: Attributes, n: nat, vs: seq<Vertex>)
    requires |a.positions| == 3 * n && Vertices(a) == Ok(vs)
    ensures |vs| == n && Flatten(vs) == a.positions
  {
    VerticesKeepPositions(a, n);
    assert vs[..n] == vs;
    assert a.positions[..3 * n] == a.positions;
  }

  /** The position array the attribute loop builds is the POSITION
      accessor's words. */
  lemma PositionArray(doc: Value, bin: seq<byte>, attributes: Value, ac: Accessor, size: nat)
    requires attributes.Object? && "POSITION" in attributes.fields
    requires ReadAttributes(doc, bin, Entries(attributes), NoAttributes).Ok?
    requires EntryAccessor(doc, ("POSITION", attributes.fields["POSITION"])) == Ok(ac)
    requires size == Size(ac)
    ensures FloatWords(bin, ac.view.offset, size).Ok?
    ensures ReadAttributes(doc, bin, Entries(attributes), NoAttributes).value.positions
            == FloatWords(bin, ac.view.offset, size).value
  {
    var es := Entries(attributes);
    EntriesOfMap(attributes);
    var k :| 0 <= k < |es| && es[k] == ("POSITION", attributes.fields["POSITION"]);
    NamedEntryFills(doc, bin, es, NoAttributes, k);
    assert [] + FloatWords(bin, ac.view.offset, size).value == FloatWords(bin, ac.view.offset, size).value;
  }

  // -----------------------------------------------------------------------
  // LoadIndices, LoadPrimitive, LoadMesh
  // -----------------------------------------------------------------------

  /** `count` unsigned 16-bit indices from the view's byteOffset. */
  function LoadIndices(doc: Value, bin: seq<byte>, index: int): (r: Result<seq<nat>>)
    ensures r.Ok? ==> CountAccessor(doc, index).Ok?
    ensures r.Ok? ==>
      var view := CountAccessor(doc, index).value;
      && (view.count == 0 || view.offset + 2 * view.count <= |bin|)
      && |r.value| == view.count
      && forall i :: 0 <= i < view.count ==> r.value[i] == U16At(bin, view.offset + 2 * i) < Two16
  {
    var view :- CountAccessor(doc, index);
    HalfWords(bin, view.offset, view.count)
  }

  datatype Primitive = Primitive(vertices: seq<Vertex>, indices: seq<nat>, material: int32)

  /** A primitive: its vertices, its indices, and its material or -1. */
  function LoadPrimitive(doc: Value, bin: seq<byte>, p: Value): (r: Result<Primitive>)
    ensures r.Ok? ==> p.Object?
    ensures r.Ok? && "material" !in p.fields ==> r.value.material == -1
    ensures r.Ok? && "material" in p.fields ==> Int(r.value.material) == p.fields["material"]
    ensures r.Ok? ==> "attributes" in p.fields
    ensures r.Ok? ==> Ok(r.value.vertices) == LoadVertices(doc, bin, p.fields["attributes"])
    ensures r.Ok? ==> var index := AsInt(Get(p, "indices"));
                      index.Ok? && Ok(r.value.indices) == LoadIndices(doc, bin, index.value as int)
  {
    var attributes :- Field(p, "attributes");
    var vertices :- LoadVertices(doc, bin, attributes);
    var index :- AsInt(Get(p, "indices"));
    var indices :- LoadIndices(doc, bin, index as int);
    var material :- if "material" in p.fields then AsInt(p.fields["material"]) else Ok(-1);
    Ok(Primitive(vertices, indices, material))
  }

  /** The `Primitive &primitive` that LoadVertices and LoadIndices fill in
      place. */
  class PrimitiveSlot {
    var vertices: seq<Vertex>
    var indices: seq<nat>

    constructor ()
      ensures vertices == [] && indices == []
    {
      vertices := [];
      indices := [];
    }

    /** LoadVertices: the attribute arrays, then the assembly loop;
        `primitive.vertices` is assigned only when both succeed. */
    method LoadVerticesInto(doc: Value, bin: seq<byte>, attributes: Value) returns (r: Result<()>)
      modifies this
      ensures r.Ok? <==> LoadVertices(doc, bin, attributes).Ok?
      ensures r.Err? ==> r.error == LoadVertices(doc, bin, attributes).error
      ensures r.Ok? ==> vertices == LoadVertices(doc, bin, attributes).value
      ensures indices == old(indices)
      ensures r.Err? ==> vertices == old(vertices)
    {
      if !Iterable(attributes) {
        return Err(NotIterable);
      }
      if attributes == Array([]) {
        var none := AssembleVertices(NoAttributes);
        if none.Err? {
          return Err(none.error);
        }
        vertices := none.value;
        return Ok(());
      }
      if !attributes.Object? {
        return Err(TypeMismatch);
      }
      var a := ReadAttributes(doc, bin, Entries(attributes), NoAttributes);
      if a.Err? {
        return Err(a.error);
      }
      var assembled := AssembleVertices(a.value);
      if assembled.Err? {
        return Err(assembled.error);
      }
      vertices := assembled.value;
      return Ok(());
    }

    /** LoadIndices: the accessor, then the push_back loop over `count`. */
    method LoadIndicesInto(doc: Value, bin: seq<byte>, index: int) returns (r: Result<()>)
      modifies this
      ensures r.Ok? <==> LoadIndices(doc, bin, index).Ok?
      ensures r.Err? ==> r.error == LoadIndices(doc, bin, index).error
      ensures r.Ok? ==> indices == LoadIndices(doc, bin, index).value
      ensures vertices == old(vertices)
      ensures r.Err? ==> indices == old(indices)
    {
      var view := CountAccessor(doc, index);
      if view.Err? {
        return Err(view.error);
      }
      var data := ReadHalfWords(bin, view.value.offset, view.value.count);
      if data.Err? {
        return Err(data.error);
      }
      indices := data.value;
      return Ok(());
    }
  }

  function PrimitiveLoader(doc: Value, bin: seq<byte>): Value -> Result<Primitive> {
    p => LoadPrimitive(doc, bin, p)
  }

  datatype Mesh = Mesh(name: string, primitives: seq<Primitive>)

  /** A mesh: its name and one primitive per element of "primitives". */
  function LoadMesh(doc: Value, bin: seq<byte>, m: Value): (r: Result<Mesh>)
    ensures r.Ok? ==> m.Object? && "name" in m.fields && m.fields["name"] == Str(r.value.name)
    ensures r.Ok? ==> "primitives" in m.fields && Iterable(m.fields["primitives"])
    ensures r.Ok? ==> |r.value.primitives| == |Elements(m.fields["primitives"])|
    ensures r.Ok? ==> forall i :: 0 <= i < |r.value.primitives| ==>
              Ok(r.value.primitives[i]) == LoadPrimitive(doc, bin, Elements(m.fields["primitives"])[i])
  {
    var name :- StringField(m, "name");
    var loaded :- LoadEach(Get(m, "primitives"), PrimitiveLoader(doc, bin));
    Ok(Mesh(name, loaded))
  }

  function MeshLoader(doc: Value, bin: seq<byte>): Value -> Result<Mesh> {
    m => LoadMesh(doc, bin, m)
  }

  // -----------------------------------------------------------------------
  // LoadScene, LoadNode
  // -----------------------------------------------------------------------

  datatype Scene = Scene(name: string, nodes: seq<nat>)

  /** A scene: its name and its node indices, in order. */
  function LoadScene(s: Value): (r: Result<Scene>)
    ensures r.Ok? ==> s.Object? && "name" in s.fields && s.fields["name"] == Str(r.value.name)
    ensures r.Ok? ==> "nodes" in s.fields && Iterable(s.fields["nodes"])
    ensures r.Ok? ==> |r.value.nodes| == |Elements(s.fields["nodes"])|
    ensures r.Ok? ==> forall i :: 0 <= i < |r.value.nodes| ==>
              Ok(r.value.nodes[i]) == AsSize(Elements(s.fields["nodes"])[i])
  {
    var name :- StringField(s, "name");
    var indices :- LoadEach(Get(s, "nodes"), AsSize);
    Ok(Scene(name, indices))
  }

  /** The first `n` components of `x[0]`, `x[1]`, ...: a non-array throws,
      a short array is read past its end. */
  function Prefix(x: Value, n: nat): (r: Result<seq<Value>>)
    ensures r.Ok? <==> x.Array? && n <= |x.items|
    ensures r.Ok? ==> r.value == x.items[..n]
  {
    if !x.Array? then Err(TypeMismatch)
    else if |x.items| < n then Err(OutOfRange)
    else Ok(x.items[..n])
  }

  /** A field read only when its key exists: the field is set iff
      the key is present. */
  function Optional<T>(v: Value, key: string, read: Value -> Result<T>): (r: Result<Option<T>>)
    requires v.Object?
    ensures key !in v.fields ==> r == Ok(None)
    ensures key in v.fields ==> (r.Ok? <==> read(v.fields[key]).Ok?)
    ensures r.Ok? && key in v.fields ==> r.value == Some(read(v.fields[key]).value)
  {
    if key in v.fields then
      var x :- read(v.fields[key]);
      Ok(Some(x))
    else Ok(None)
  }

  function Components(n: nat): Value -> Result<seq<Value>> {
    x => Prefix(x, n)
  }

  /** The raw components CalculateTransform reads: three of "scale", three
      of "translation", four of "rotation", each only when present. */
  datatype Transform = Transform(
    scale: Option<seq<Value>>,
    translation: Option<seq<Value>>,
    rotation: Option<seq<Value>>)

  function LoadTransform(n: Value): (r: Result<Transform>)
    requires n.Object?
    ensures r.Ok? ==> (r.value.scale.Some? <==> "scale" in n.fields)
    ensures r.Ok? ==> (r.value.translation.Some? <==> "translation" in n.fields)
    ensures r.Ok? ==> (r.value.rotation.Some? <==> "rotation" in n.fields)
    ensures r.Ok? && r.value.rotation.Some? ==> |r.value.rotation.value| == 4
  {
    var scale :- Optional(n, "scale", Components(3));
    var translation :- Optional(n, "translation", Components(3));
    var rotation :- Optional(n, "rotation", Components(4));
    Ok(Transform(scale, translation, rotation))
  }

  datatype Node = Node(name: string, transform: Transform, children: seq<nat>, mesh: int32, skin: int32)

  /** A node: name, transform, children in order (none without the key),
      and its mesh and skin, or -1 when absent. */
  function LoadNode(n: Value): (r: Result<Node>)
    ensures r.Ok? ==> n.Object? && "name" in n.fields && n.fields["name"] == Str(r.value.name)
    ensures r.Ok? && "children" !in n.fields ==> r.value.children == []
    ensures r.Ok? && "children" in n.fields ==>
      && Iterable(n.fields["children"])
      && |r.value.children| == |Elements(n.fields["children"])|
      && forall i :: 0 <= i < |r.value.children| ==> Ok(r.value.children[i]) == AsSize(Elements(n.fields["children"])[i])
    ensures r.Ok? ==> (r.value.mesh == -1 <==> "mesh" !in n.fields || n.fields["mesh"] == Int(-1))
    ensures r.Ok? ==> (r.value.skin == -1 <==> "skin" !in n.fields || n.fields["skin"] == Int(-1))
    ensures r.Ok? && "mesh" in n.fields ==> n.fields["mesh"] == Int(r.value.mesh)
    ensures r.Ok? && "skin" in n.fields ==> n.fields["skin"] == Int(r.value.skin)
  {
    var name :- StringField(n, "name");
    var transform :- LoadTransform(n);
    var children :- if "children" in n.fields then LoadEach(n.fields["children"], AsSize) else Ok([]);
    var mesh :- if "mesh" in n.fields then AsInt(n.fields["mesh"]) else Ok(-1);
    var skin :- if "skin" in n.fields then AsInt(n.fields["skin"]) else Ok(-1);
    Ok(Node(name, transform, children, mesh, skin))
  }

  // -----------------------------------------------------------------------
  // LoadSkin
  // -----------------------------------------------------------------------

  datatype Joint = Joint(node: int32, inverseBindMatrix: seq<seq<FloatBits>>)
  datatype Skin = Skin(joints: seq<Joint>)

  /** The joint loop: joint `first + k` is paired with matrix `first + k`;
      a joint past the `count` matrices reads `matrices[i]` out of range. */
  function ZipJoints(es: seq<Value>, words: seq<FloatBits>, count: nat, first: nat): (r: Result<seq<Joint>>)
    requires |words| == MatrixWidth * count && first <= count
    ensures r.Ok? <==> (forall k :: 0 <= k < |es| ==> es[k].Int?) && first + |es| <= count
    ensures r.Ok? ==> |r.value| == |es|
    ensures r.Ok? ==> forall k :: 0 <= k < |es| ==>
              r.value[k] == Joint(es[k].i, Matrix(words, first + k))
    decreases |es|
  {
    if es == [] then Ok([])
    else
      var node :- AsInt(es[0]);
      if first >= count then Err(OutOfRange)
      else
        assert forall k :: 1 <= k < |es| ==> es[k] == es[1..][k - 1];
        var rest :- ZipJoints(es[1..], words, count, first + 1);
        Ok([Joint(node, Matrix(words, first))] + rest)
  }

  /** A skin: `16 * count` float words of inverse bind matrices, then one
      joint per element of "joints" with the matrix of the same position. */
  function LoadSkin(doc: Value, bin: seq<byte>, s: Value): (r: Result<Skin>)
    ensures r.Ok? ==> s.Object? && "joints" in s.fields && Iterable(s.fields["joints"])
    ensures r.Ok? ==> |r.value.joints| == |Elements(s.fields["joints"])|
    ensures r.Ok? ==> forall k :: 0 <= k < |r.value.joints| ==>
              Int(r.value.joints[k].node) == Elements(s.fields["joints"])[k]
              && IsMat4(r.value.joints[k].inverseBindMatrix)
    ensures r.Ok? ==> SizeField(s, "inverseBindMatrices").Ok?
    ensures r.Ok? ==>
              var view := CountAccessor(doc, SizeToIndex(SizeField(s, "inverseBindMatrices").value));
              && view.Ok? && |r.value.joints| <= view.value.count
              && FloatWords(bin, view.value.offset, MatrixWidth * view.value.count).Ok?
              && forall k :: 0 <= k < |r.value.joints| ==>
                   r.value.joints[k].inverseBindMatrix
                   == Matrix(FloatWords(bin, view.value.offset, MatrixWidth * view.value.count).value, k)
  {
    var matrixIndex :- SizeField(s, "inverseBindMatrices");
    var view :- CountAccessor(doc, SizeToIndex(matrixIndex));
    var words :- FloatWords(bin, view.offset, MatrixWidth * view.count);
    var jointsJson := Get(s, "joints");
    if !Iterable(jointsJson) then Err(NotIterable)
    else
      var joints :- ZipJoints(Elements(jointsJson), words, view.count, 0);
      Ok(Skin(joints))
  }

  /** Matrix `k` of a skin holds float word `16 * k + j` of the accessor in
      cell `[j % 4][j / 4]`. */
  lemma SkinMatrixCells(es: seq<Value>, words: seq<FloatBits>, count: nat, k: nat, j: nat)
    requires |words| == MatrixWidth * count
    requires ZipJoints(es, words, count, 0).Ok? && k < |es| && j < MatrixWidth
    ensures Cell(ZipJoints(es, words, count, 0).value[k].inverseBindMatrix, j) == words[MatrixWidth * k + j]
  {
    assert ZipJoints(es, words, count, 0).value[k].inverseBindMatrix == Matrix(words, k);
  }

  function SkinLoader(doc: Value, bin: seq<byte>): Value -> Result<Skin> {
    s => LoadSkin(doc, bin, s)
  }

  // -----------------------------------------------------------------------
  // LoadMaterial, LoadPBR
  // -----------------------------------------------------------------------

  /** `x["index"]` of a texture reference (0 when the key is missing). */
  function TextureIndex(t: Value): Result<int32> {
    IntField(t, "index")
  }

  /** A float read through `operator float`, whose body is not part of the
      source: the JSON value is kept as it is. */
  function Number(x: Value): Result<Value> {
    Ok(x)
  }

  datatype Pbr = Pbr(
    baseColorFactor: Option<seq<Value>>,
    baseColorTexture: Option<int32>,
    metallicFactor: Option<Value>,
    roughnessFactor: Option<Value>,
    metallicRoughnessTexture: Option<int32>)

  /** PbrMetallicRoughness: a field is overwritten iff its key is present;
      None keeps the struct's default. */
  function LoadPbr(p: Value): (r: Result<Pbr>)
    ensures r.Ok? ==> p.Object?
    ensures r.Ok? ==> (r.value.baseColorFactor.Some? <==> "baseColorFactor" in p.fields)
    ensures r.Ok? ==> (r.value.baseColorTexture.Some? <==> "baseColorTexture" in p.fields)
    ensures r.Ok? ==> (r.value.metallicFactor.Some? <==> "metallicFactor" in p.fields)
    ensures r.Ok? ==> (r.value.roughnessFactor.Some? <==> "roughnessFactor" in p.fields)
    ensures r.Ok? ==> (r.value.metallicRoughnessTexture.Some? <==> "metallicRoughnessTexture" in p.fields)
  {
    if !p.Object? then Err(TypeMismatch)
    else
      var baseColorFactor :- Optional(p, "baseColorFactor", Components(4));
      var baseColorTexture :- Optional(p, "baseColorTexture", TextureIndex);
      var metallicFactor :- Optional(p, "metallicFactor", Number);
      var roughnessFactor :- Optional(p, "roughnessFactor", Number);
      var metallicRoughnessTexture :- Optional(p, "metallicRoughnessTexture", TextureIndex);
      Ok(Pbr(baseColorFactor, baseColorTexture, metallicFactor, roughnessFactor, metallicRoughnessTexture))
  }

  datatype Material = Material(
    name: Option<string>,
    pbr: Option<Pbr>,
    normalTexture: Option<int32>,
    occlusionTexture: Option<int32>,
    emissiveTexture: Option<int32>,
    emissiveFactor: Option<seq<Value>>,
    alphaMode: Option<string>,
    alphaCutoff: Option<Value>,
    doubleSided: Option<bool>)

  /** A material: a field is overwritten iff its key is present. */
  function LoadMaterial(m: Value): (r: Result<Material>)
    ensures r.Ok? ==> m.Object?
    ensures r.Ok? ==> (r.value.name.Some? <==> "name" in m.fields)
    ensures r.Ok? ==> (r.value.pbr.Some? <==> "pbrMetallicRoughness" in m.fields)
    ensures r.Ok? ==> (r.value.normalTexture.Some? <==> "normalTexture" in m.fields)
    ensures r.Ok? ==> (r.value.occlusionTexture.Some? <==> "occlusionTexture" in m.fields)
    ensures r.Ok? ==> (r.value.emissiveTexture.Some? <==> "emissiveTexture" in m.fields)
    ensures r.Ok? ==> (r.value.emissiveFactor.Some? <==> "emissiveFactor" in m.fields)
    ensures r.Ok? ==> (r.value.alphaMode.Some? <==> "alphaMode" in m.fields)
    ensures r.Ok? ==> (r.value.alphaCutoff.Some? <==> "alphaCutoff" in m.fields)
    ensures r.Ok? ==> (r.value.doubleSided.Some? <==> "doubleSided" in m.fields)
    ensures r.Ok? && "name" in m.fields ==> m.fields["name"] == Str(r.value.name.value)
  {
    if !m.Object? then Err(TypeMismatch)
    else
      var name :- Optional(m, "name", AsString);
      var pbr :- Optional(m, "pbrMetallicRoughness", LoadPbr);
      var normalTexture :- Optional(m, "normalTexture", TextureIndex);
      var occlusionTexture :- Optional(m, "occlusionTexture", TextureIndex);
      var emissiveTexture :- Optional(m, "emissiveTexture", TextureIndex);
      var emissiveFactor :- Optional(m, "emissiveFactor", Components(3));
      var alphaMode :- Optional(m, "alphaMode", AsString);
      var alphaCutoff :- Optional(m, "alphaCutoff", Number);
      var doubleSided :- Optional(m, "doubleSided", AsBool);
      Ok(Material(name, pbr, normalTexture, occlusionTexture, emissiveTexture,
                  emissiveFactor, alphaMode, alphaCutoff, doubleSided))
  }

  // -----------------------------------------------------------------------
  // LoadImage
  // -----------------------------------------------------------------------

  /** An image keeps a pointer into the BIN chunk at the view's byteOffset
      and the view's byteLength; no byte is read or bounds-checked. */
  datatype Image = Image(name: string, offset: nat, length: nat)

  function LoadImage(doc: Value, bin: seq<byte>, im: Value): (r: Result<Image>)
    ensures r.Ok? ==> im.Object? && "name" in im.fields && im.fields["name"] == Str(r.value.name)
    ensures r.Ok? ==> SizeField(im, "bufferView").Ok?
    ensures r.Ok? ==> Ok(r.value.offset) == ViewOffset(doc, SizeField(im, "bufferView").value)
    ensures r.Ok? ==> var bufferView := BufferView(doc, SizeField(im, "bufferView").value);
                      bufferView.Ok? && Ok(r.value.length) == SizeField(bufferView.value, "byteLength")
  {
    var name :- StringField(im, "name");
    var view :- SizeField(im, "bufferView");
    var bufferView :- BufferView(doc, view);
    var offset :- SizeField(bufferView, "byteOffset");
    var length :- SizeField(bufferView, "byteLength");
    Ok(Image(name, offset, length))
  }

  function ImageLoader(doc: Value, bin: seq<byte>): Value -> Result<Image> {
    im => LoadImage(doc, bin, im)
  }

  // -----------------------------------------------------------------------
  // LoadAnimation
  // -----------------------------------------------------------------------

  datatype Channel = Channel(sampler: int32, node: int32, path: string)
  datatype Sampler = Sampler(interpolation: string, timecodes: seq<FloatBits>, width: nat, data: seq<FloatBits>)

  /** A sampler's output: its width, and `count * width` float words from
      the view's byteOffset. */
  function LoadKeyframes(bin: seq<byte>, view: View, shape: string): (r: Result<(nat, seq<FloatBits>)>)
    ensures r.Ok? ==> r.value.0 == SamplerWidth(shape) && |r.value.1| == view.count * r.value.0
    ensures r.Ok? ==> r.value.0 <= 4 && (r.value.0 == 0 ==> r.value.1 == [])
    ensures r.Ok? ==> Ok(r.value.1) == FloatWords(bin, view.offset, view.count * r.value.0)
  {
    var width := SamplerWidth(shape);
    var data :- FloatWords(bin, view.offset, view.count * width);
    Ok((width, data))
  }

  /** A sampler: its interpolation, `count` timecodes from its input
      accessor, and its keyframe data from its output accessor. */
  function LoadSampler(doc: Value, bin: seq<byte>, s: Value): (r: Result<Sampler>)
    ensures r.Ok? ==> s.Object? && "interpolation" in s.fields && s.fields["interpolation"] == Str(r.value.interpolation)
    ensures r.Ok? ==> r.value.width <= 4 && (r.value.width == 0 ==> r.value.data == [])
    ensures r.Ok? ==> SizeField(s, "input").Ok? && SizeField(s, "output").Ok?
    ensures r.Ok? ==> var input := CountAccessor(doc, SizeToIndex(SizeField(s, "input").value));
                      input.Ok? && Ok(r.value.timecodes) == FloatWords(bin, input.value.offset, input.value.count)
    ensures r.Ok? ==> var output := OutputAccessor(doc, SizeToIndex(SizeField(s, "output").value));
                      output.Ok? && Ok((r.value.width, r.value.data)) == LoadKeyframes(bin, output.value.0, output.value.1)
  {
    var interpolation :- StringField(s, "interpolation");
    var input :- SizeField(s, "input");
    var inputView :- CountAccessor(doc, SizeToIndex(input));
    var timecodes :- FloatWords(bin, inputView.offset, inputView.count);
    var output :- SizeField(s, "output");
    var outputAccessor :- OutputAccessor(doc, SizeToIndex(output));
    var keyframes :- LoadKeyframes(bin, outputAccessor.0, outputAccessor.1);
    Ok(Sampler(interpolation, timecodes, keyframes.0, keyframes.1))
  }

  /** One channel and the sampler it names: the sampler at position
      "sampler" of the animation's "samplers". */
  function LoadChannel(doc: Value, bin: seq<byte>, animation: Value, c: Value): (r: Result<(Channel, Sampler)>)
    ensures r.Ok? ==> Field(c, "sampler") == Ok(Int(r.value.0.sampler))
    ensures r.Ok? ==> c.Object? && IntField(Get(c, "target"), "node") == Ok(r.value.0.node)
    ensures r.Ok? ==> c.Object? && StringField(Get(c, "target"), "path") == Ok(r.value.0.path)
    ensures r.Ok? ==> animation.Object? && "samplers" in animation.fields
    ensures r.Ok? ==> var samplers := animation.fields["samplers"];
      && samplers.Array? && 0 <= r.value.0.sampler as int < |samplers.items|
      && Ok(r.value.1) == LoadSampler(doc, bin, samplers.items[r.value.0.sampler])
  {
    var samplerIndex :- IntField(c, "sampler");
    var target := Get(c, "target");
    var node :- IntField(target, "node");
    var path :- StringField(target, "path");
    var samplers :- Field(animation, "samplers");
    var s :- Item(samplers, samplerIndex as int);
    var sampler :- LoadSampler(doc, bin, s);
    Ok((Channel(samplerIndex, node, path), sampler))
  }

  function ChannelLoader(doc: Value, bin: seq<byte>, animation: Value): Value -> Result<(Channel, Sampler)> {
    c => LoadChannel(doc, bin, animation, c)
  }

  datatype Animation = Animation(name: string, channels: seq<Channel>, samplers: seq<Sampler>)

  /** An animation: exactly one channel and one sampler per element of
      "channels", the sampler at the same position as its channel. */
  function LoadAnimation(doc: Value, bin: seq<byte>, a: Value): (r: Result<Animation>)
    ensures r.Ok? ==> a.Object? && "name" in a.fields && a.fields["name"] == Str(r.value.name)
    ensures r.Ok? ==> "channels" in a.fields && Iterable(a.fields["channels"])
    ensures r.Ok? ==> |r.value.channels| == |r.value.samplers| == |Elements(a.fields["channels"])|
    ensures r.Ok? ==> forall i :: 0 <= i < |r.value.channels| ==>
              Ok((r.value.channels[i], r.value.samplers[i])) == LoadChannel(doc, bin, a, Elements(a.fields["channels"])[i])
  {
    var name :- StringField(a, "name");
    var pairs :- LoadEach(Get(a, "channels"), ChannelLoader(doc, bin, a));
    Ok(Animation(name, seq(|pairs|, i requires 0 <= i < |pairs| => pairs[i].0),
                       seq(|pairs|, i requires 0 <= i < |pairs| => pairs[i].1)))
  }

  function AnimationLoader(doc: Value, bin: seq<byte>): Value -> Result<Animation> {
    a => LoadAnimation(doc, bin, a)
  }

  // -----------------------------------------------------------------------
  // LoadGltf
  // -----------------------------------------------------------------------

  datatype GltfData = GltfData(
    rootScene: int32,
    scenes: seq<Scene>,
    nodes: seq<Node>,
    meshes: seq<Mesh>,
    skins: seq<Skin>,
    materials: seq<Material>,
    images: seq<Image>,
    animations: seq<Animation>)

  /** A section that must be there: one element loaded per entry. */
  function Section<T>(doc: Value, key: string, load: Value -> Result<T>): (r: Result<seq<T>>)
    ensures r.Ok? ==> doc.Object? && key in doc.fields && Iterable(doc.fields[key])
    ensures r.Ok? ==> |r.value| == |Elements(doc.fields[key])|
    ensures r.Ok? ==> forall i :: 0 <= i < |r.value| ==> Ok(r.value[i]) == load(Elements(doc.fields[key])[i])
  {
    var v :- Field(doc, key);
    LoadEach(v, load)
  }

  /** A section loaded only when its key exists; empty otherwise. */
  function OptionalSection<T>(doc: Value, key: string, load: Value -> Result<T>): (r: Result<seq<T>>)
    ensures r.Ok? ==> doc.Object?
    ensures r.Ok? && key !in doc.fields ==> r.value == []
    ensures r.Ok? && key in doc.fields ==> r == Section(doc, key, load)
  {
    var present :- Has(doc, key);
    if present then Section(doc, key, load) else Ok([])
  }

  /** The document after `gltfJson["scene"]`: the key is inserted, bound
      to int 0, when it was missing. */
  function WithScene(doc: Value): Result<Value> {
    var found :- IndexKey(doc, "scene");
    Ok(found.container)
  }

  /** Every section of the document, in the order LoadGltf reads them. */
  function LoadGltfDoc(doc: Value, bin: seq<byte>): (r: Result<GltfData>)
    ensures r.Ok? ==> doc.Object?
    ensures r.Ok? ==> Int(r.value.rootScene) == (if "scene" in doc.fields then doc.fields["scene"] else Default)
    ensures r.Ok? ==> "scenes" in doc.fields && Iterable(doc.fields["scenes"]) && |r.value.scenes| == |Elements(doc.fields["scenes"])|
    ensures r.Ok? ==> "nodes" in doc.fields && Iterable(doc.fields["nodes"]) && |r.value.nodes| == |Elements(doc.fields["nodes"])|
    ensures r.Ok? ==> "meshes" in doc.fields && Iterable(doc.fields["meshes"]) && |r.value.meshes| == |Elements(doc.fields["meshes"])|
    ensures r.Ok? && "skins" !in doc.fields ==> r.value.skins == []
    ensures r.Ok? && "materials" !in doc.fields ==> r.value.materials == []
    ensures r.Ok? && "images" !in doc.fields ==> r.value.images == []
    ensures r.Ok? && "animations" !in doc.fields ==> r.value.animations == []
    ensures r.Ok? ==> WithScene(doc).Ok?
    ensures r.Ok? ==> var d := WithScene(doc).value;
                      && Ok(r.value.scenes) == Section(d, "scenes", LoadScene)
                      && Ok(r.value.nodes) == Section(d, "nodes", LoadNode)
                      && Ok(r.value.meshes) == Section(d, "meshes", MeshLoader(d, bin))
    ensures r.Ok? ==> var d := WithScene(doc).value;
                      && Ok(r.value.skins) == OptionalSection(d, "skins", SkinLoader(d, bin))
                      && Ok(r.value.materials) == OptionalSection(d, "materials", LoadMaterial)
                      && Ok(r.value.images) == OptionalSection(d, "images", ImageLoader(d, bin))
                      && Ok(r.value.animations) == OptionalSection(d, "animations", AnimationLoader(d, bin))
  {
    var found :- IndexKey(doc, "scene");
    var root :- AsInt(found.entry);
    var d := found.container;
    var scenes :- Section(d, "scenes", LoadScene);
    var nodes :- Section(d, "nodes", LoadNode);
    var meshes :- Section(d, "meshes", MeshLoader(d, bin));
    var skins :- OptionalSection(d, "skins", SkinLoader(d, bin));
    var materials :- OptionalSection(d, "materials", LoadMaterial);
    var images :- OptionalSection(d, "images", ImageLoader(d, bin));
    var animations :- OptionalSection(d, "animations", AnimationLoader(d, bin));
    Ok(GltfData(root, scenes, nodes, meshes, skins, materials, images, animations))
  }

  /** A required section, walked on the caller's document itself: a missing
      key is inserted before begin() throws. */
  method LoadSection<T>(json: JsonVar, key: string, load: Value -> Result<T>) returns (r: Result<seq<T>>)
    modifies json
    ensures r == Section(old(json.value), key, load)
    ensures r.Ok? ==> json.value == old(json.value)
  {
    var v := json.Index(key);
    if v.Err? {
      return Err(TypeMismatch);
    }
    r := LoadAll(v.value, load);
  }

  /** An optional section: loaded only when its key exists, else empty. */
  method LoadOptionalSection<T>(json: JsonVar, key: string, load: Value -> Result<T>) returns (r: Result<seq<T>>)
    modifies json
    ensures r == OptionalSection(old(json.value), key, load)
    ensures r.Ok? ==> json.value == old(json.value)
  {
    var present := Has(json.value, key);
    if present.Err? {
      return Err(present.error);
    }
    if !present.value {
      return Ok([]);
    }
    r := LoadSection(json, key, load);
  }

  /** Glb::LoadGltf on the caller's document: the only change it makes to
      the document on success is the insertion of a missing "scene". */
  method LoadGltf(json: JsonVar, bin: seq<byte>) returns (r: Result<GltfData>)
    modifies json
    ensures r == LoadGltfDoc(old(json.value), bin)
    ensures r.Ok? ==> Ok(json.value) == WithScene(old(json.value))
  {
    var rootJson := json.Index("scene");
    if rootJson.Err? {
      return Err(TypeMismatch);
    }
    var root := AsInt(rootJson.value);
    if root.Err? {
      return Err(root.error);
    }
    var d := json.value;
    var scenes := LoadSection(json, "scenes", LoadScene);
    if scenes.Err? {
      return Err(scenes.error);
    }
    var nodes := LoadSection(json, "nodes", LoadNode);
    if nodes.Err? {
      return Err(nodes.error);
    }
    var meshes := LoadSection(json, "meshes", MeshLoader(d, bin));
    if meshes.Err? {
      return Err(meshes.error);
    }
    var skins := LoadOptionalSection(json, "skins", SkinLoader(d, bin));
    if skins.Err? {
      return Err(skins.error);
    }
    var materials := LoadOptionalSection(json, "materials", LoadMaterial);
    if materials.Err? {
      return Err(materials.error);
    }
    var images := LoadOptionalSection(json, "images", ImageLoader(d, bin));
    if images.Err? {
      return Err(images.error);
    }
    var animations := LoadOptionalSection(json, "animations", AnimationLoader(d, bin));
    if animations.Err? {
      return Err(animations.error);
    }
    return Ok(GltfData(root.value, scenes.value, nodes.value, meshes.value, skins.value,
                       materials.value, images.value, animations.value));
  }
}
