/** What the parser accepts, written back as text. `Serialize` is the
    partner of `JsonParser.ParseObject`: it writes the documents the parser
    produces (objects of objects and non-negative numbers) in the dialect
    the parser reads, and parsing that text gives the same document back. */
module JsonRoundTrip {
  import opened Wrappers
  import opened JsonValue
  import opened JsonParser
  import Utils

  /** The values ParseJson can produce: non-negative ints, doubles kept as
      decimal text, and objects whose keys hold no '"'. */
  predicate Parseable(v: Value) {
    match v
    case Int(i) => i >= 0
    case Double(t) => IsDecimalText(t)
    case Object(m) => forall k :: k in m ==> '"' !in k && Parseable(m[k])
    case _ => false
  }

  function DigitChar(d: nat): (c: char)
    requires d < 10
    ensures Utils.IsDigit(c) && DigitValue(c) == d
  {
    ('0' as int + d) as char
  }

  /** The decimal digits of `n`, without leading zeros. */
  function NatToDecimal(n: nat): (s: string)
    ensures |s| > 0 && forall i :: 0 <= i < |s| ==> Utils.IsDigit(s[i])
  {
    if n < 10 then [DigitChar(n)] else NatToDecimal(n / 10) + [DigitChar(n % 10)]
  }

  lemma {:induction false} DecimalRoundTrip(n: nat)
    ensures DecimalValue(NatToDecimal(n)) == n
  {
    var s := NatToDecimal(n);
    if n < 10 {
      assert s[..|s| - 1] == [];
    } else {
      assert s[..|s| - 1] == NatToDecimal(n / 10);
      DecimalRoundTrip(n / 10);
    }
  }

  /** The text of a parseable document, keys in the order std::map keeps
      them, no blanks, ',' between members. */
  function Serialize(v: Value): (s: string)
    requires Parseable(v)
    ensures |s| > 0 && (s[0] == '{' <==> v.Object?)
    ensures !v.Object? ==> IsNumberChar(s[0])
    decreases v, 2, 0
  {
    match v
    case Int(i) => NatToDecimal(i as nat)
    case Double(t) => t
    case Object(_) => "{" + Entries(v, Keys(v)) + "}"
    case _ => assert false; "{}"
  }

  /** The members `ks` of object `o`, separated by ','; the list stops at
      the first key `o` does not hold. */
  function Entries(o: Value, ks: seq<string>): (s: string)
    requires o.Object? && Parseable(o)
    ensures ks != [] && ks[0] in o.fields ==> |s| > 0 && s[0] == '"'
    decreases o, 1, |ks|
  {
    if ks == [] || ks[0] !in o.fields then ""
    else Entry(o, ks[0]) + (if |ks| > 1 then "," else "") + Entries(o, ks[1..])
  }

  /** One member: the quoted key, ':' and the value. */
  function Entry(o: Value, k: string): (s: string)
    requires o.Object? && Parseable(o) && k in o.fields
    ensures |s| > 0 && s[0] == '"'
    decreases o, 0, 0
  {
    "\"" + k + "\":" + Serialize(o.fields[k])
  }

  lemma SerializeObject(v: Value)
    requires Parseable(v) && v.Object?
    ensures Serialize(v) == "{" + Entries(v, Keys(v)) + "}"
  {
  }

  lemma EntryText(o: Value, k: string)
    requires o.Object? && Parseable(o) && k in o.fields
    ensures Entry(o, k) == "\"" + k + "\":" + Serialize(o.fields[k])
  {
  }

  lemma EntriesCons(o: Value, ks: seq<string>)
    requires o.Object? && Parseable(o) && ks != [] && ks[0] in o.fields
    ensures Entries(o, ks) + "}" == Entry(o, ks[0]) + (if |ks| > 1 then "," else "") + Entries(o, ks[1..]) + "}"
  {
  }

  /** The members `ks` of `o`, as a map. */
  function Restrict(o: Value, ks: seq<string>): map<string, Value>
    requires o.Object?
  {
    map k | k in ks && k in o.fields :: o.fields[k]
  }

  lemma RestrictAll(o: Value)
    requires o.Object?
    ensures Restrict(o, Keys(o)) == o.fields
  {
  }

  lemma RestrictCons(o: Value, ks: seq<string>, acc: map<string, Value>)
    requires o.Object? && ks != [] && ks[0] in o.fields
    ensures acc[ks[0] := o.fields[ks[0]]] + Restrict(o, ks[1..]) == acc + Restrict(o, ks)
  {
  }

  // -----------------------------------------------------------------------
  // Helpers about positions in the text
  // -----------------------------------------------------------------------

  /** `w` is written in `text` from position `p` on. */
  predicate Occurs(text: string, p: nat, w: string) {
    p + |w| <= |text| && forall i :: 0 <= i < |w| ==> text[p + i] == w[i]
  }

  lemma SubSlice(text: string, p: nat, w: string, a: nat, b: nat)
    requires Occurs(text, p, w) && a <= b <= |w|
    ensures Occurs(text, p + a, w[a..b])
  {
    forall i | 0 <= i < b - a
      ensures text[p + a + i] == w[a..b][i]
    {
      assert w[a..b][i] == w[a + i];
    }
  }

  lemma OccursSlice(text: string, p: nat, w: string)
    requires Occurs(text, p, w)
    ensures text[p..p + |w|] == w
  {
    forall i | 0 <= i < |w|
      ensures text[p..p + |w|][i] == w[i]
    {
      assert text[p..p + |w|][i] == text[p + i];
    }
  }

  lemma Enclosed(text: string, pos: nat, s: string, e: string)
    requires Occurs(text, pos, s) && s == "{" + e + "}"
    ensures |s| == |e| + 2 && text[pos] == '{' && Occurs(text, pos + 1, e + "}")
  {
    CharAt(text, pos, s, 0);
    SubSlice(text, pos, s, 1, |s|);
    assert s[1..] == e + "}";
  }

  /** Where the key, the value and what follows a member lie. */
  lemma MemberLayout(text: string, p: nat, head: string, s: string, tail: string)
    requires Occurs(text, p, head + s + tail) && |s| > 0 && |tail| > 0
    ensures Occurs(text, p, head) && Occurs(text, p + |head|, s)
    ensures p + |head| + |s| < |text| && text[p + |head| + |s|] == tail[0]
    ensures text[p + |head|] == s[0]
  {
    var w := head + s + tail;
    SubSlice(text, p, w, 0, |head|);
    assert w[..|head|] == head;
    SubSlice(text, p, w, |head|, |head| + |s|);
    assert w[|head|..|head| + |s|] == s;
    CharAt(text, p, w, |head| + |s|);
    CharAt(text, p, w, |head|);
  }

  /** Where the first member and the rest of a member list lie. */
  lemma MembersLayout(text: string, p: nat, a: string, sep: string, rest: string)
    requires Occurs(text, p, a + sep + rest + "}") && |a| > 0
    ensures text[p] == a[0] && Occurs(text, p, a + (sep + rest + "}"))
    ensures Occurs(text, p + |a| + |sep|, rest + "}")
    ensures text[p + |a| + |sep|] == (rest + "}")[0]
  {
    var w := a + sep + rest + "}";
    assert w == a + (sep + rest + "}");
    CharAt(text, p, w, 0);
    SubSlice(text, p, w, |a| + |sep|, |w|);
    assert w[|a| + |sep|..] == rest + "}";
    CharAt(text, p, w, |a| + |sep|);
  }

  lemma CharAt(text: string, p: nat, w: string, i: nat)
    requires Occurs(text, p, w) && i < |w|
    ensures text[p + i] == w[i]
  {
  }

  lemma {:induction false} FindQuoteAt(text: string, i: nat, c: nat)
    requires i <= c < |text| && text[c] == '"'
    requires forall k :: i <= k < c ==> text[k] != '"'
    ensures FindQuote(text, i) == Some(c)
    decreases c - i
  {
    if i < c {
      FindQuoteAt(text, i + 1, c);
    }
  }

  lemma {:induction false} ScanNumberAt(text: string, j: nat, e: nat)
    requires j <= e <= |text|
    requires forall k :: j <= k < e ==> IsNumberChar(text[k])
    requires !IsNumberChar(Peek(text, e))
    ensures ScanNumber(text, j) == e
    decreases e - j
  {
    if j < e {
      ScanNumberAt(text, j + 1, e);
    }
  }

  /** A number serialises to a lexeme ParsePrimitive reads back. */
  lemma LeafRoundTrip(v: Value)
    requires Parseable(v) && !v.Object?
    ensures forall i :: 0 <= i < |Serialize(v)| ==> IsNumberChar(Serialize(v)[i])
    ensures ParsePrimitive(Serialize(v)) == Ok(v)
  {
    match v
    case Int(i) => IntLeaf(i);
    case Double(t) => DoubleLeaf(t);
  }

  lemma IntLeaf(n: int32)
    requires n >= 0
    ensures forall i :: 0 <= i < |Serialize(Int(n))| ==> IsNumberChar(Serialize(Int(n))[i])
    ensures ParsePrimitive(Serialize(Int(n))) == Ok(Int(n))
  {
    var s := NatToDecimal(n as nat);
    DecimalRoundTrip(n as nat);
    assert '.' !in s by {
      assert forall k :: 0 <= k < |s| ==> Utils.IsDigit(s[k]);
    }
    assert s[..LeadingDigits(s)] == s;
  }

  lemma DoubleLeaf(t: string)
    requires IsDecimalText(t)
    ensures forall i :: 0 <= i < |t| ==> IsNumberChar(t[i])
    ensures ParsePrimitive(t) == Ok(Double(t))
  {
    var d := LeadingDigits(t);
    forall k | 0 <= k < |t| ensures IsNumberChar(t[k]) {
      if k > d {
        assert t[k] == t[d + 1..][k - d - 1];
      }
    }
    assert '.' in t by {
      assert t[d] == '.';
    }
    assert StodPrefix(t) == t;
  }

  // -----------------------------------------------------------------------
  // Parsing serialised text gives the document back
  // -----------------------------------------------------------------------

  /** `r` parsed `x` and left the cursor at `n`. Stated component by
      component, which the solver handles better than tuple equality. */
  predicate Parsed<T(==)>(r: Result<(T, nat)>, x: T, n: nat) {
    r.Ok? && r.value.0 == x && r.value.1 == n
  }

  lemma ParsedIsOk<T>(r: Result<(T, nat)>, x: T, n: nat)
    requires Parsed(r, x, n)
    ensures r == Ok((x, n))
  {
  }

  lemma {:induction false} ParseSerialized(v: Value, text: string, pos: nat)
    requires Parseable(v) && v.Object? && Occurs(text, pos, Serialize(v))
    ensures Parsed(ParseObject(text, pos), v, pos + |Serialize(v)|)
    decreases v, 2, 0
  {
    var s := Serialize(v);
    var ks := Keys(v);
    var e := Entries(v, ks);
    SerializeObject(v);
    Enclosed(text, pos, s, e);
    ObjectStep(text, pos);
    ParseEntries(v, ks, text, pos + 1, map[]);
    assert map[] + Restrict(v, ks) == v.fields by {
      RestrictAll(v);
    }
    var x := Object(map[] + Restrict(v, ks));
    var n := pos + 1 + |e| + 1;
    ObjectGlue(text, pos, x, n);
    assert x == v;
    assert n == pos + |s|;
  }

  lemma {:induction false} ParseEntries(o: Value, ks: seq<string>, text: string, p: nat, acc: map<string, Value>)
    requires o.Object? && Parseable(o)
    requires forall k :: k in ks ==> k in o.fields
    requires Occurs(text, p, Entries(o, ks) + "}")
    ensures Parsed(ParseMembers(text, p, acc), Object(acc + Restrict(o, ks)), p + |Entries(o, ks)| + 1)
    decreases o, 1, |ks|
  {
    var w := Entries(o, ks) + "}";
    if ks == [] {
      assert text[p] == '}' by {
        CharAt(text, p, w, 0);
      }
      MembersEndStep(text, p, acc);
      assert acc + Restrict(o, ks) == acc;
    } else {
      var k := ks[0];
      var v := o.fields[k];
      var rest := Entries(o, ks[1..]);
      var e := p + |Entry(o, k)|;
      var q := e + (if |ks| > 1 then 1 else 0);
      var tail := (if |ks| > 1 then "," else "") + rest + "}";
      MembersSplit(o, ks, tail, text, p);
      ParseEntries(o, ks[1..], text, q, acc[k := v]);
      FirstMember(o, k, tail, |ks| > 1, text, p, q, acc, Object(acc[k := v] + Restrict(o, ks[1..])), q + |rest| + 1);
      RestrictCons(o, ks, acc);
    }
  }

  /** The first member read, the rest of the list reads as `x` up to `n`:
      then the whole list reads as `x` up to `n`. */
  lemma {:induction false} FirstMember(o: Value, k: string, tail: string, more: bool, text: string, p: nat, q: nat,
                                       acc: map<string, Value>, x: Value, n: nat)
    requires o.Object? && Parseable(o) && k in o.fields
    requires |tail| > 0 && tail[0] == (if more then ',' else '}')
    requires Occurs(text, p, Entry(o, k) + tail)
    requires q == p + |Entry(o, k)| + (if more then 1 else 0)
    requires q < |text| && !IsBlank(text[q]) && Parsed(ParseMembers(text, q, acc[k := o.fields[k]]), x, n)
    ensures Parsed(ParseMembers(text, p, acc), x, n)
    decreases o, 1, 0
  {
    var e := p + |Entry(o, k)|;
    PairPrep(o, k, tail, text, p);
    ParsePairAt(o, k, text, p, p + |k| + 3, e, text[e]);
    MembersStep(text, p, acc, k, o.fields[k], q, x, n);
  }

  /** Where the first member of a non-empty member list and the rest lie. */
  lemma MembersSplit(o: Value, ks: seq<string>, tail: string, text: string, p: nat)
    requires o.Object? && Parseable(o) && ks != [] && ks[0] in o.fields
    requires |ks| > 1 ==> ks[1] in o.fields
    requires tail == (if |ks| > 1 then "," else "") + Entries(o, ks[1..]) + "}"
    requires Occurs(text, p, Entries(o, ks) + "}")
    ensures Occurs(text, p, Entry(o, ks[0]) + tail)
    ensures |tail| > 0 && tail[0] == (if |ks| > 1 then ',' else '}')
    ensures var q := p + |Entry(o, ks[0])| + (if |ks| > 1 then 1 else 0);
            && Occurs(text, q, Entries(o, ks[1..]) + "}")
            && q < |text| && !IsBlank(text[q])
            && p + |Entries(o, ks)| == q + |Entries(o, ks[1..])|
  {
    var sep := if |ks| > 1 then "," else "";
    var rest := Entries(o, ks[1..]);
    EntriesCons(o, ks);
    MembersLayout(text, p, Entry(o, ks[0]), sep, rest);
    TailStart(o, ks);
  }

  lemma TailStart(o: Value, ks: seq<string>)
    requires o.Object? && Parseable(o) && ks != []
    requires |ks| > 1 ==> ks[1] in o.fields
    ensures ((if |ks| > 1 then "," else "") + Entries(o, ks[1..]) + "}")[0] == (if |ks| > 1 then ',' else '}')
  {
    if |ks| == 1 {
      assert Entries(o, ks[1..]) == "";
    }
  }

  /** A member, read as a key and a value, followed by `t`. */
  lemma {:induction false} ParsePairAt(o: Value, k: string, text: string, p: nat, j: nat, e: nat, t: char)
    requires o.Object? && Parseable(o) && k in o.fields
    requires p <= |text| && Parsed(ParseKey(text, p), k, j)
    requires Occurs(text, j, Serialize(o.fields[k])) && e == j + |Serialize(o.fields[k])|
    requires e < |text| && text[e] == t && !IsNumberChar(t)
    ensures var r := ParsePair(text, p);
            r.Ok? && r.value.0 == k && r.value.1 == o.fields[k]
            && r.value.2 == e + (if t == ',' then 1 else 0)
    decreases o, 0, 1
  {
    ParseValueAt(o.fields[k], text, j);
    PairStep(text, p, k, j, o.fields[k], e, t);
  }

  /** The member for `k`, followed by `tail`, read as a key and a value. */
  lemma PairPrep(o: Value, k: string, tail: string, text: string, p: nat)
    requires o.Object? && Parseable(o) && k in o.fields
    requires |tail| > 0 && (tail[0] == ',' || tail[0] == '}')
    requires Occurs(text, p, Entry(o, k) + tail)
    ensures Parsed(ParseKey(text, p), k, p + |k| + 3)
    ensures Occurs(text, p + |k| + 3, Serialize(o.fields[k]))
    ensures p + |k| + 3 + |Serialize(o.fields[k])| == p + |Entry(o, k)| < |text|
    ensures text[p + |Entry(o, k)|] == tail[0] && text[p] == '"'
  {
    EntryText(o, k);
    PairLayout(text, p, k, Serialize(o.fields[k]), tail);
  }

  /** Where the key and the value of a member lie, and the key read back. */
  lemma PairLayout(text: string, p: nat, k: string, s: string, tail: string)
    requires '"' !in k && |s| > 0 && (s[0] == '{' || IsNumberChar(s[0]))
    requires |tail| > 0 && (tail[0] == ',' || tail[0] == '}')
    requires Occurs(text, p, "\"" + k + "\":" + s + tail)
    ensures Parsed(ParseKey(text, p), k, p + |k| + 3)
    ensures Occurs(text, p + |k| + 3, s)
    ensures p + |k| + 3 + |s| < |text| && text[p + |k| + 3 + |s|] == tail[0]
    ensures !IsNumberChar(text[p + |k| + 3 + |s|]) && text[p] == '"'
  {
    var head := "\"" + k + "\":";
    MemberLayout(text, p, head, s, tail);
    CharAt(text, p, head, 0);
    ParseKeyAt(text, p, k);
  }

  lemma ParseKeyAt(text: string, p: nat, k: string)
    requires '"' !in k
    requires Occurs(text, p, "\"" + k + "\":")
    requires p + |k| + 3 < |text| && !IsBlank(text[p + |k| + 3])
    ensures Parsed(ParseKey(text, p), k, p + |k| + 3)
  {
    var h := "\"" + k + "\":";
    var close := p + 1 + |k|;
    CharAt(text, p, h, 0);
    forall i | p + 1 <= i < close
      ensures text[i] != '"'
    {
      CharAt(text, p, h, i - p);
      assert h[i - p] == k[i - p - 1];
    }
    CharAt(text, p, h, 1 + |k|);
    CharAt(text, p, h, 2 + |k|);
    FindQuoteAt(text, p + 1, close);
    SubSlice(text, p, h, 1, 1 + |k|);
    assert h[1..1 + |k|] == k;
    OccursSlice(text, p + 1, k);
    SkipBlanksStop(text, p);
    SkipBlanksStop(text, close + 2);
    KeyStep(text, p, close);
  }

  lemma {:induction false} ParseValueAt(v: Value, text: string, j: nat)
    requires Parseable(v) && Occurs(text, j, Serialize(v))
    requires j + |Serialize(v)| < |text| && !IsNumberChar(text[j + |Serialize(v)|])
    ensures Parsed(ParseValue(text, j), v, j + |Serialize(v)|)
    decreases v, 2, 1
  {
    if v.Object? {
      CharAt(text, j, Serialize(v), 0);
      ParseSerialized(v, text, j);
      ValueObjectStep(text, j);
    } else {
      NumberAt(v, text, j);
    }
  }

  lemma NumberAt(v: Value, text: string, j: nat)
    requires Parseable(v) && !v.Object? && Occurs(text, j, Serialize(v))
    requires j + |Serialize(v)| < |text| && !IsNumberChar(text[j + |Serialize(v)|])
    ensures Parsed(ParseValue(text, j), v, j + |Serialize(v)|)
  {
    var s := Serialize(v);
    LeafRoundTrip(v);
    NumberRun(text, j, s);
    ValueNumberStep(text, j, v);
  }

  /** A run of number characters followed by something else is scanned whole. */
  lemma NumberRun(text: string, j: nat, s: string)
    requires Occurs(text, j, s) && |s| > 0
    requires forall i :: 0 <= i < |s| ==> IsNumberChar(s[i])
    requires j + |s| < |text| && !IsNumberChar(text[j + |s|])
    ensures text[j] != '{'
    ensures ScanNumber(text, j) == j + |s| && text[j..ScanNumber(text, j)] == s
  {
    forall k | j <= k < j + |s|
      ensures IsNumberChar(text[k])
    {
      CharAt(text, j, s, k - j);
    }
    ScanNumberAt(text, j, j + |s|);
    OccursSlice(text, j, s);
  }

  // One unfolding of each parsing function, each in a context of its own.

  lemma ObjectGlue(text: string, pos: nat, x: Value, n: nat)
    requires pos < |text| && text[pos] == '{'
    requires Parsed(ParseMembers(text, pos + 1, map[]), x, n)
    ensures Parsed(ParseObject(text, pos), x, n)
  {
  }

  lemma ObjectStep(text: string, pos: nat)
    requires pos < |text| && text[pos] == '{'
    ensures ParseObject(text, pos) == ParseMembers(text, pos + 1, map[])
  {
  }

  lemma MembersEndStep(text: string, p: nat, acc: map<string, Value>)
    requires p < |text| && text[p] == '}'
    ensures Parsed(ParseMembers(text, p, acc), Object(acc), p + 1)
  {
  }

  lemma MembersStep(text: string, p: nat, acc: map<string, Value>, k: string, v: Value, q: nat, x: Value, n: nat)
    requires p < |text| && text[p] != '}'
    requires ParsePair(text, p).Ok? && ParsePair(text, p).value.0 == k
    requires ParsePair(text, p).value.1 == v && ParsePair(text, p).value.2 == q
    requires q < |text| && !IsBlank(text[q])
    requires Parsed(ParseMembers(text, q, acc[k := v]), x, n)
    ensures Parsed(ParseMembers(text, p, acc), x, n)
  {
    SkipBlanksStop(text, q);
  }

  lemma KeyStep(text: string, p: nat, close: nat)
    requires p < |text| && SkipBlanks(text, p) == p && text[p] == '"'
    requires FindQuote(text, p + 1) == Some(close)
    requires close + 1 < |text| && text[close + 1] == ':'
    ensures Parsed(ParseKey(text, p), text[p + 1..close], SkipBlanks(text, close + 2))
  {
  }

  lemma PairStep(text: string, p: nat, k: string, j: nat, v: Value, e: nat, t: char)
    requires p <= |text| && Parsed(ParseKey(text, p), k, j)
    requires e < |text| && Parsed(ParseValue(text, j), v, e) && text[e] == t
    ensures var r := ParsePair(text, p);
            r.Ok? && r.value.0 == k && r.value.1 == v && r.value.2 == e + (if t == ',' then 1 else 0)
  {
  }

  lemma ValueObjectStep(text: string, j: nat)
    requires j < |text| && text[j] == '{'
    ensures ParseValue(text, j) == ParseObject(text, j)
  {
  }

  lemma ValueNumberStep(text: string, j: nat, v: Value)
    requires j < |text| && text[j] != '{'
    requires ParsePrimitive(text[j..ScanNumber(text, j)]) == Ok(v)
    ensures Parsed(ParseValue(text, j), v, ScanNumber(text, j))
  {
  }

  lemma SkipBlanksStop(text: string, i: nat)
    requires i < |text| && !IsBlank(text[i])
    ensures SkipBlanks(text, i) == i
  {
  }

  // -----------------------------------------------------------------------
  // Everything the parser produces is parseable
  // -----------------------------------------------------------------------

  predicate ParseableFields(m: map<string, Value>) {
    forall k :: k in m ==> '"' !in k && Parseable(m[k])
  }

  lemma {:induction false} ObjectParseable(text: string, pos: nat)
    requires pos <= |text|
    ensures ParseObject(text, pos).Ok? ==> Parseable(ParseObject(text, pos).value.0)
    decreases |text| - pos, 2
  {
    if Peek(text, pos) == '{' {
      MembersParseable(text, pos + 1, map[]);
    }
  }

  lemma {:induction false} MembersParseable(text: string, p: nat, json: map<string, Value>)
    requires p <= |text| && ParseableFields(json)
    ensures ParseMembers(text, p, json).Ok? ==> Parseable(ParseMembers(text, p, json).value.0)
    decreases |text| - p, 1
  {
    if Peek(text, p) != '}' {
      PairParseable(text, p);
      var pair := ParsePair(text, p);
      if pair.Ok? {
        MembersParseable(text, SkipBlanks(text, pair.value.2), json[pair.value.0 := pair.value.1]);
      }
    }
  }

  lemma {:induction false} PairParseable(text: string, p: nat)
    requires p <= |text|
    ensures ParsePair(text, p).Ok? ==> '"' !in ParsePair(text, p).value.0 && Parseable(ParsePair(text, p).value.1)
    decreases |text| - p, 0
  {
    var key := ParseKey(text, p);
    if key.Ok? {
      ValueParseable(text, key.value.1);
    }
  }

  lemma {:induction false} ValueParseable(text: string, j: nat)
    requires j <= |text|
    ensures ParseValue(text, j).Ok? ==> Parseable(ParseValue(text, j).value.0)
    decreases |text| - j, 3
  {
    if Peek(text, j) == '{' {
      ObjectParseable(text, j);
    }
  }

  /** Parsing, writing back and parsing again gives the same document: the
      text the serialiser writes is read back whole. */
  lemma ParseSerializeParse(text: string)
    requires ParseObject(text, 0).Ok?
    ensures Parseable(ParseObject(text, 0).value.0)
    ensures var v := ParseObject(text, 0).value.0;
            ParseObject(Serialize(v), 0) == Ok((v, |Serialize(v)|))
  {
    ObjectParseable(text, 0);
    var v := ParseObject(text, 0).value.0;
    var s := Serialize(v);
    assert s[0..|s|] == s;
    assert Occurs(s, 0, s);
    ParseSerialized(v, s, 0);
    ParsedIsOk(ParseObject(s, 0), v, |s|);
  }
}
