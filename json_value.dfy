/** JsonParser::JsonValue: a std::variant over seven alternatives, its key
    and position indexing, its conversion operators, and the Iterator that
    walks an array in order or a map in ascending key order. */
module JsonValue {
  import opened Wrappers
  import opened StringOrder

  /** The C++ `int` held by the first alternative. */
  newtype int32 = x: int | -0x8000_0000 <= x < 0x8000_0000

  /** `size_t` arithmetic wraps modulo 2^64. */
  const SizeModulus: int := 0x1_0000_0000_0000_0000

  /** std::variant<int, double, std::string, bool, void*, JsonArray, JsonMap>,
      in that order. A double keeps the decimal text it was read from; the
      `void*` alternative is the null of the document. */
  datatype Value =
    | Int(i: int32)
    | Double(text: string)
    | Str(s: string)
    | Bool(b: bool)
    | Null
    | Array(items: seq<Value>)
    | Object(fields: map<string, Value>)

  /** A default-constructed JsonValue holds the first alternative: int 0. */
  const Default: Value := Int(0)

  // -----------------------------------------------------------------------
  // operator[](const char *key): std::get<JsonMap>(*this)[key]
  // -----------------------------------------------------------------------

  /** The map after the lookup, and the entry the returned reference names. */
  datatype Lookup = Lookup(container: Value, entry: Value)

  /** Key indexing: a non-map throws; a present key yields its value; an
      absent key is first inserted bound to the default value. */
  function IndexKey(v: Value, key: string): (r: Result<Lookup>)
    ensures r.Ok? <==> v.Object?
    ensures r.Err? ==> r.error == TypeMismatch
    ensures r.Ok? ==> r.value.container.Object? && key in r.value.container.fields
    ensures r.Ok? ==> r.value.entry == r.value.container.fields[key]
    ensures r.Ok? && key in v.fields ==> r.value.container == v
    ensures r.Ok? && key !in v.fields ==>
      && r.value.entry == Default
      && r.value.container.fields.Keys == v.fields.Keys + {key}
      && forall k :: k in v.fields ==> r.value.container.fields[k] == v.fields[k]
  {
    match v
    case Object(m) =>
      if key in m then Ok(Lookup(v, m[key]))
      else Ok(Lookup(Object(m[key := Default]), Default))
    case _ => Err(TypeMismatch)
  }

  /** `v[key] = x`: the key is looked up (inserted when absent) and the
      entry is overwritten through the returned reference. */
  function AssignKey(v: Value, key: string, x: Value): (r: Result<Value>)
    ensures r.Ok? <==> v.Object?
    ensures r.Ok? ==> r.value.Object? && r.value.fields.Keys == v.fields.Keys + {key}
    ensures r.Ok? ==> r.value.fields[key] == x
    ensures r.Ok? ==> forall k :: k in v.fields && k != key ==> r.value.fields[k] == v.fields[k]
  {
    var found :- IndexKey(v, key);
    Ok(Object(found.container.fields[key := x]))
  }

  /** An absent key grows the map by exactly one entry; a second lookup of
      the same key then finds it and changes nothing. */
  lemma IndexKeyInsertsOnce(v: Value, key: string)
    requires v.Object? && key !in v.fields
    ensures |IndexKey(v, key).value.container.fields| == |v.fields| + 1
    ensures IndexKey(IndexKey(v, key).value.container, key) == IndexKey(v, key)
  {
    var after := IndexKey(v, key).value.container;
    assert after.fields.Keys == v.fields.Keys + {key};
  }

  /** A JsonValue object: the variable that `json[key]` and `json[key] = x`
      change in place. */
  class JsonVar {
    var value: Value

    constructor (v: Value)
      ensures value == v
    {
      value := v;
    }

    /** operator[](const char *): inserts on a miss, then reads the entry. */
    method Index(key: string) returns (r: Result<Value>)
      modifies this
      ensures r.Ok? <==> old(value).Object?
      ensures r.Ok? ==> value == IndexKey(old(value), key).value.container
      ensures r.Ok? ==> r.value == IndexKey(old(value), key).value.entry
      ensures r.Err? ==> value == old(value)
    {
      var found := IndexKey(value, key);
      if found.Err? {
        return Err(found.error);
      }
      value := found.value.container;
      return Ok(found.value.entry);
    }

    /** `json[key] = x`, as main.cpp does with `json["one"] = 2`. */
    method Assign(key: string, x: Value) returns (ok: bool)
      modifies this
      ensures ok <==> old(value).Object?
      ensures ok ==> value == Object(old(value).fields[key := x])
      ensures !ok ==> value == old(value)
    {
      var after := AssignKey(value, key, x);
      if after.Err? {
        return false;
      }
      assert after.value.fields == value.fields[key := x];
      value := after.value;
      return true;
    }
  }

  // -----------------------------------------------------------------------
  // operator[](int index): std::get<JsonArray>(*this)[index], unchecked
  // -----------------------------------------------------------------------

  /** Position indexing: a non-array throws; the position is not checked by
      the source, so callers must keep it in range. */
  function At(v: Value, index: int): (r: Result<Value>)
    requires v.Array? ==> 0 <= index < |v.items|
    ensures r.Ok? <==> v.Array?
    ensures r.Err? ==> r.error == TypeMismatch
    ensures r.Ok? ==> r.value in v.items && r.value == v.items[index]
  {
    if v.Array? then Ok(v.items[index]) else Err(TypeMismatch)
  }

  // -----------------------------------------------------------------------
  // Conversion operators: std::get of exactly the held alternative
  // -----------------------------------------------------------------------

  function AsInt(v: Value): (r: Result<int32>)
    ensures r.Ok? <==> v.Int?
    ensures r.Ok? ==> Int(r.value) == v
  {
    if v.Int? then Ok(v.i) else Err(TypeMismatch)
  }

  /** operator size_t: the int cast to unsigned, so negative ints wrap. */
  function AsSize(v: Value): (r: Result<nat>)
    ensures r.Ok? <==> v.Int?
    ensures r.Ok? ==> r.value < SizeModulus && (r.value - v.i as int) % SizeModulus == 0
  {
    if !v.Int? then Err(TypeMismatch)
    else if v.i < 0 then Ok(v.i as int + SizeModulus)
    else Ok(v.i as int)
  }

  /** The cast only changes negative ints, which become huge sizes. */
  lemma AsSizeOfInt(i: int32)
    ensures i >= 0 ==> AsSize(Int(i)) == Ok(i as int)
    ensures i < 0 ==> AsSize(Int(i)).value >= SizeModulus - 0x8000_0000
  {
  }

  function AsDouble(v: Value): (r: Result<string>)
    ensures r.Ok? <==> v.Double?
    ensures r.Ok? ==> Double(r.value) == v
  {
    if v.Double? then Ok(v.text) else Err(TypeMismatch)
  }

  function AsString(v: Value): (r: Result<string>)
    ensures r.Ok? <==> v.Str?
    ensures r.Ok? ==> Str(r.value) == v
  {
    if v.Str? then Ok(v.s) else Err(TypeMismatch)
  }

  function AsBool(v: Value): (r: Result<bool>)
    ensures r.Ok? <==> v.Bool?
    ensures r.Ok? ==> Bool(r.value) == v
  {
    if v.Bool? then Ok(v.b) else Err(TypeMismatch)
  }

  /** operator void*: NULL (address 0) whatever the value holds. */
  function AsPointer(v: Value): (address: nat)
    ensures address == 0
  {
    0
  }

  function AsArray(v: Value): (r: Result<seq<Value>>)
    ensures r.Ok? <==> v.Array?
    ensures r.Ok? ==> Array(r.value) == v
  {
    if v.Array? then Ok(v.items) else Err(TypeMismatch)
  }

  function AsMap(v: Value): (r: Result<map<string, Value>>)
    ensures r.Ok? <==> v.Object?
    ensures r.Ok? ==> Object(r.value) == v
  {
    if v.Object? then Ok(v.fields) else Err(TypeMismatch)
  }

  // -----------------------------------------------------------------------
  // Iteration
  // -----------------------------------------------------------------------

  predicate Iterable(v: Value) {
    v.Array? || v.Object?
  }

  /** The keys of a map, in the order std::map visits them. */
  function Keys(v: Value): (ks: seq<string>)
    requires v.Object?
    ensures |ks| == |v.fields|
    ensures forall i :: 0 <= i < |ks| ==> ks[i] in v.fields
    ensures forall k :: k in v.fields ==> k in ks
    ensures forall i, j {:trigger Less(ks[i], ks[j])} :: 0 <= i < j < |ks| ==> Less(ks[i], ks[j])
  {
    Ascending(v.fields.Keys)
  }

  /** What a walk from begin() to end() dereferences, in order: the array's
      elements, or the map's values in ascending key order. */
  function Elements(v: Value): (es: seq<Value>)
    requires Iterable(v)
    ensures v.Array? ==> es == v.items
    ensures v.Object? ==> |es| == |v.fields|
    ensures v.Object? ==> forall i :: 0 <= i < |es| ==> es[i] == v.fields[Keys(v)[i]]
  {
    if v.Array? then v.items
    else
      var ks := Keys(v);
      seq(|ks|, i requires 0 <= i < |ks| => v.fields[ks[i]])
  }

  /** The two kinds of std iterator the Iterator's variant can hold, with
      their distance from begin(). */
  datatype Cursor = ArrayIt(pos: nat) | MapIt(pos: nat)

  /** The cursor one step further (its `++`). */
  function Advance(c: Cursor): (d: Cursor)
    ensures d.ArrayIt? == c.ArrayIt? && d.pos == c.pos + 1
  {
    match c
    case ArrayIt(p) => ArrayIt(p + 1)
    case MapIt(p) => MapIt(p + 1)
  }

  class Iterator {
    /** The container the cursor points into; the iterator never changes it. */
    const source: Value
    var it: Cursor

    ghost predicate Valid()
      reads this
    {
      match it
      case ArrayIt(p) => source.Array? && p <= |source.items|
      case MapIt(p) => source.Object? && p <= |source.fields|
    }

    constructor (source: Value, it: Cursor)
      requires it.ArrayIt? ==> source.Array? && it.pos <= |source.items|
      requires it.MapIt? ==> source.Object? && it.pos <= |source.fields|
      ensures this.source == source && this.it == it && Valid()
    {
      this.source := source;
      this.it := it;
    }

    /** operator*: the element under the cursor, read-only. */
    method Deref() returns (r: Value)
      requires Valid() && it.pos < |Elements(source)|
      ensures r == Elements(source)[it.pos]
      ensures source.Object? ==> r == source.fields[Keys(source)[it.pos]]
    {
      match it
      case ArrayIt(p) =>
        r := source.items[p];
      case MapIt(p) =>
        var ks := Keys(source);
        r := source.fields[ks[p]];
    }

    /** operator->: the address of the element operator* yields, written as
        its position in the container. */
    method Arrow() returns (address: nat)
      requires Valid() && it.pos < |Elements(source)|
      ensures address < |Elements(source)| && address == it.pos
    {
      match it
      case ArrayIt(p) => address := p;
      case MapIt(p) => address := p;
    }

    /** key(): the key of the map entry under the cursor. Its body is not
        part of the source; this is the entry `(*it).first`. */
    method Key() returns (k: string)
      requires Valid() && it.MapIt? && it.pos < |source.fields|
      ensures k in source.fields && source.fields[k] == Elements(source)[it.pos]
      ensures k == Keys(source)[it.pos]
    {
      var ks := Keys(source);
      k := ks[it.pos];
    }

    /** Prefix ++: one step, nothing else changes. */
    method Increment()
      requires Valid() && it.pos < |Elements(source)|
      modifies this
      ensures Valid() && it == Advance(old(it))
    {
      match it
      case ArrayIt(p) => it := ArrayIt(p + 1);
      case MapIt(p) => it := MapIt(p + 1);
    }

    /** Postfix ++: a copy of the iterator as it was, and this one advanced. */
    method PostIncrement() returns (tmp: Iterator)
      requires Valid() && it.pos < |Elements(source)|
      modifies this
      ensures fresh(tmp) && tmp.source == source && tmp.it == old(it) && tmp.Valid()
      ensures Valid() && it == Advance(old(it))
    {
      tmp := new Iterator(source, it);
      Increment();
    }

    /** operator== compares the held cursors. */
    predicate Equals(other: Iterator)
      reads this, other
    {
      it == other.it
    }
  }

  /** begin(): a cursor at the first element; scalars throw. */
  method Begin(v: Value) returns (r: Result<Iterator>)
    ensures r.Ok? <==> Iterable(v)
    ensures r.Err? ==> r.error == NotIterable
    ensures r.Ok? ==> fresh(r.value) && r.value.Valid() && r.value.source == v
    ensures r.Ok? ==> r.value.it.pos == 0 && (r.value.it.ArrayIt? <==> v.Array?)
  {
    if v.Array? {
      var b := new Iterator(v, ArrayIt(0));
      return Ok(b);
    } else if v.Object? {
      var b := new Iterator(v, MapIt(0));
      return Ok(b);
    } else {
      return Err(NotIterable);
    }
  }

  /** end(): a cursor one past the last element; scalars throw. */
  method End(v: Value) returns (r: Result<Iterator>)
    ensures r.Ok? <==> Iterable(v)
    ensures r.Err? ==> r.error == NotIterable
    ensures r.Ok? ==> fresh(r.value) && r.value.Valid() && r.value.source == v
    ensures r.Ok? ==> r.value.it.pos == |Elements(v)| && (r.value.it.ArrayIt? <==> v.Array?)
  {
    if v.Array? {
      var e := new Iterator(v, ArrayIt(|v.items|));
      return Ok(e);
    } else if v.Object? {
      var e := new Iterator(v, MapIt(|v.fields|));
      return Ok(e);
    } else {
      return Err(NotIterable);
    }
  }

  /** `for (auto x : v)`: from begin() to end(), dereferencing and stepping.
      Every element (every map entry) is visited exactly once, in order. */
  method Walk(v: Value) returns (r: Result<seq<Value>>)
    ensures r.Ok? <==> Iterable(v)
    ensures r.Err? ==> r.error == NotIterable
    ensures r.Ok? ==> r.value == Elements(v)
  {
    var first := Begin(v);
    var last := End(v);
    if first.Err? || last.Err? {
      return Err(NotIterable);
    }
    var visited := Collect(v, first.value, last.value);
    return Ok(visited);
  }

  /** The loop of the range-for: dereference, then step, until the cursor
      equals the end cursor. */
  method Collect(v: Value, cursor: Iterator, stop: Iterator) returns (visited: seq<Value>)
    requires Iterable(v) && cursor != stop
    requires cursor.Valid() && cursor.source == v && stop.source == v
    requires cursor.it.pos == 0 && stop.it.pos == |Elements(v)|
    requires (cursor.it.ArrayIt? <==> v.Array?) && (stop.it.ArrayIt? <==> v.Array?)
    modifies cursor
    ensures visited == Elements(v)
  {
    ghost var elements := Elements(v);
    visited := [];
    while !cursor.Equals(stop)
      invariant cursor.Valid() && cursor.source == v
      invariant cursor.it.ArrayIt? <==> v.Array?
      invariant cursor.it.pos <= |elements|
      invariant visited == elements[..cursor.it.pos]
      decreases |elements| - cursor.it.pos
    {
      var x := cursor.Deref();
      TakeOneMore(elements, cursor.it.pos);
      visited := visited + [x];
      cursor.Increment();
    }
    assert visited == elements[..|elements|];
  }

  lemma TakeOneMore<T>(s: seq<T>, n: nat)
    requires n < |s|
    ensures s[..n] + [s[n]] == s[..n + 1]
  {
  }
}
