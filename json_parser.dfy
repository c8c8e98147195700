/** JsonParser::ParseJson, RetriveKeyValuePair and ParsePrimitive: a
    recursive-descent reader for objects whose values are nested objects or
    unsigned numbers made of digits and '.'. It is a strict subset of JSON
    (RFC 8259): no arrays, strings values, literals, signs or escapes.

    The cursor `it` that the source passes by reference is a position in
    the text; each method returns the position it leaves the cursor at.
    Reading `*it` at the end of the text reads the string's terminating NUL
    (`Peek`). The source's `assert`s are taken as enabled: a failed one is a
    `ParseError` at the cursor. */
module JsonParser {
  import opened Wrappers
  import opened JsonValue
  import Utils

  // -----------------------------------------------------------------------
  // Characters
  // -----------------------------------------------------------------------

  /** `*it`: the character at `i`, or NUL at the end of the text. */
  function Peek(text: string, i: nat): char
    requires i <= |text|
  {
    if i < |text| then text[i] else '\0'
  }

  /** The only whitespace the parser skips: tab and CR are not blanks. */
  predicate IsBlank(c: char) {
    c == ' ' || c == '\n'
  }

  /** A character of a number lexeme: a decimal digit or '.'. */
  predicate IsNumberChar(c: char) {
    Utils.IsDigit(c) || c == '.'
  }

  /** Skips spaces and newlines (and nothing else) from `i`. */
  function SkipBlanks(text: string, i: nat): (j: nat)
    requires i <= |text|
    ensures i <= j <= |text|
    ensures forall k :: 0 <= k < j - i ==> IsBlank(text[i..j][k])
    ensures !IsBlank(Peek(text, j))
    decreases |text| - i
  {
    if IsBlank(Peek(text, i)) then
      var j := SkipBlanks(text, i + 1);
      assert text[i..j] == [text[i]] + text[i + 1..j];
      j
    else i
  }

  /** The end of the maximal run of digits and '.' starting at `i`. */
  function ScanNumber(text: string, i: nat): (j: nat)
    requires i <= |text|
    ensures i <= j <= |text|
    ensures forall k :: 0 <= k < j - i ==> IsNumberChar(text[i..j][k])
    ensures !IsNumberChar(Peek(text, j))
    decreases |text| - i
  {
    if IsNumberChar(Peek(text, i)) then
      var j := ScanNumber(text, i + 1);
      assert text[i..j] == [text[i]] + text[i + 1..j];
      j
    else i
  }

  /** The first '"' at or after `i`; `None` when the text ends first (the
      source's loop would then run past the end of the string). */
  function FindQuote(text: string, i: nat): (r: Option<nat>)
    requires i <= |text|
    ensures r.Some? ==> i <= r.value < |text| && text[r.value] == '"'
    ensures r.Some? ==> '"' !in text[i..r.value]
    ensures r.None? ==> '"' !in text[i..]
    decreases |text| - i
  {
    if i == |text| then None
    else if text[i] == '"' then Some(i)
    else FindQuote(text, i + 1)
  }

  // -----------------------------------------------------------------------
  // Numbers: std::stoi and std::stod on a lexeme of digits and '.'
  // -----------------------------------------------------------------------

  const IntMax: nat := 0x7fff_ffff

  function DigitValue(c: char): nat
    requires Utils.IsDigit(c)
  {
    c as int - '0' as int
  }

  /** The number a string of decimal digits spells. */
  function DecimalValue(s: string): nat
    requires forall i :: 0 <= i < |s| ==> Utils.IsDigit(s[i])
  {
    if s == [] then 0 else DecimalValue(s[..|s| - 1]) * 10 + DigitValue(s[|s| - 1])
  }

  /** How many digits `s` starts with. */
  function LeadingDigits(s: string): (n: nat)
    ensures n <= |s|
    ensures forall i :: 0 <= i < n ==> Utils.IsDigit(s[i])
    ensures n < |s| ==> !Utils.IsDigit(s[n])
  {
    if s == [] || !Utils.IsDigit(s[0]) then 0 else 1 + LeadingDigits(s[1..])
  }

  /** The number the leading digits of `s` spell. */
  function LeadingValue(s: string): nat {
    DecimalValue(s[..LeadingDigits(s)])
  }

  /** std::stoi: the leading digits must be there and fit an int. */
  function Stoi(lexeme: string): (r: Result<Value>)
    ensures r.Ok? ==> r.value.Int? && r.value.i >= 0
    ensures r.Ok? <==> 0 < LeadingDigits(lexeme) && LeadingValue(lexeme) <= IntMax
    ensures r.Ok? ==> r.value.i as int == LeadingValue(lexeme)
  {
    var d := LeadingDigits(lexeme);
    if d == 0 then Err(InvalidArgument)
    else if DecimalValue(lexeme[..d]) > IntMax then Err(OutOfRange)
    else Ok(Int(DecimalValue(lexeme[..d]) as int32))
  }

  /** The text std::stod consumes from a lexeme of digits and '.': the
      leading digits, then one '.' and the digits after it. */
  function StodPrefix(lexeme: string): (t: string)
    ensures t <= lexeme
  {
    var d := LeadingDigits(lexeme);
    if d < |lexeme| && lexeme[d] == '.' then lexeme[..d + 1 + LeadingDigits(lexeme[d + 1..])]
    else lexeme[..d]
  }

  /** Digits, one '.', digits, with at least one digit: what stod reads from
      a lexeme that holds a '.'. */
  predicate IsDecimalText(t: string) {
    var d := LeadingDigits(t);
    && d < |t| && t[d] == '.'
    && LeadingDigits(t[d + 1..]) == |t| - d - 1
    && |t| > 1
  }

  /** std::stod: fails unless the consumed text holds a digit, and keeps
      the longest prefix of the form digits['.'digits] (StodPrefixLongest). */
  function Stod(lexeme: string): (r: Result<Value>)
    requires forall i :: 0 <= i < |lexeme| ==> IsNumberChar(lexeme[i])
    ensures r.Ok? <==> StodPrefix(lexeme) != [] && StodPrefix(lexeme) != "."
    ensures r.Ok? ==> r.value == Double(StodPrefix(lexeme))
    ensures r.Ok? && '.' in lexeme ==> IsDecimalText(r.value.text)
  {
    var t := StodPrefix(lexeme);
    if t == [] || t == "." then Err(InvalidArgument)
    else
      StodPrefixIsDecimal(lexeme);
      Ok(Double(t))
  }

  /** Digits, optionally followed by one '.' and digits. */
  predicate IsStodForm(t: string) {
    var d := LeadingDigits(t);
    d == |t| || (t[d] == '.' && LeadingDigits(t[d + 1..]) == |t| - d - 1)
  }

  /** StodPrefix is the longest prefix of the lexeme that has the form
      digits['.'digits]: every longer prefix breaks the form. */
  lemma StodPrefixLongest(lexeme: string)
    ensures StodPrefix(lexeme) <= lexeme && IsStodForm(StodPrefix(lexeme))
    ensures forall n :: |StodPrefix(lexeme)| < n <= |lexeme| ==> !IsStodForm(lexeme[..n])
  {
    var t := StodPrefix(lexeme);
    var d := LeadingDigits(lexeme);
    LeadingDigitsOfPrefixes(lexeme, d);
    if d < |lexeme| && lexeme[d] == '.' {
      var rest := lexeme[d + 1..];
      var m := LeadingDigits(rest);
      LeadingDigitsOfPrefixes(rest, m);
      assert LeadingDigits(t) == d;
      assert t[d + 1..] == rest[..m];
      forall n | |t| < n <= |lexeme|
        ensures !IsStodForm(lexeme[..n])
      {
        assert LeadingDigits(lexeme[..n]) == d;
        assert lexeme[..n][d + 1..] == rest[..n - d - 1];
      }
    } else {
      assert LeadingDigits(t) == d;
      forall n | |t| < n <= |lexeme|
        ensures !IsStodForm(lexeme[..n])
      {
        assert LeadingDigits(lexeme[..n]) == d;
      }
    }
  }

  /** A prefix of `s` starts with as many digits as `s` does, up to its
      own length. */
  lemma {:induction false} LeadingDigitsOfPrefixes(s: string, d: nat)
    requires d == LeadingDigits(s)
    ensures forall n :: 0 <= n <= |s| ==> LeadingDigits(s[..n]) == if n < d then n else d
  {
    forall n | 0 <= n <= |s|
      ensures LeadingDigits(s[..n]) == if n < d then n else d
    {
      if n > 0 && d > 0 {
        LeadingDigitsOfPrefixes(s[1..], d - 1);
        assert s[..n][1..] == s[1..][..n - 1];
      }
    }
  }

  /** When the lexeme holds a '.', what stod consumes is decimal text. */
  lemma StodPrefixIsDecimal(lexeme: string)
    requires forall i :: 0 <= i < |lexeme| ==> IsNumberChar(lexeme[i])
    requires StodPrefix(lexeme) != [] && StodPrefix(lexeme) != "."
    ensures '.' in lexeme ==> IsDecimalText(StodPrefix(lexeme))
  {
    var t := StodPrefix(lexeme);
    var d := LeadingDigits(lexeme);
    if '.' in lexeme {
      DotFollowsDigits(lexeme);
      var n := LeadingDigits(lexeme[d + 1..]);
      assert |t| == d + 1 + n;
      assert t[d] == '.';
      assert LeadingDigits(t) == d;
      assert t[d + 1..] == lexeme[d + 1..][..n];
      LeadingDigitsOfPrefix(lexeme[d + 1..], n);
    }
  }

  /** In a lexeme of digits and '.', the first non-digit is a '.' when the
      lexeme holds one, and there is none otherwise. */
  lemma DotFollowsDigits(lexeme: string)
    requires forall i :: 0 <= i < |lexeme| ==> IsNumberChar(lexeme[i])
    ensures '.' in lexeme <==> LeadingDigits(lexeme) < |lexeme|
    ensures '.' in lexeme ==> lexeme[LeadingDigits(lexeme)] == '.'
  {
    var d := LeadingDigits(lexeme);
    if '.' in lexeme {
      var k :| 0 <= k < |lexeme| && lexeme[k] == '.';
      assert d <= k;
    }
    if d < |lexeme| {
      assert IsNumberChar(lexeme[d]);
    }
  }

  lemma LeadingDigitsOfPrefix(s: string, n: nat)
    requires n == LeadingDigits(s)
    ensures LeadingDigits(s[..n]) == n
  {
    if n > 0 {
      assert s[..n][1..] == s[1..][..n - 1];
      LeadingDigitsOfPrefix(s[1..], n - 1);
    }
  }

  /** ParsePrimitive as the `// integer` comment intends: a lexeme without
      '.' goes to stoi, one with a '.' to stod. An empty lexeme (a string,
      `true`, a negative number) makes stoi throw. */
  function ParsePrimitive(lexeme: string): (r: Result<Value>)
    requires forall i :: 0 <= i < |lexeme| ==> IsNumberChar(lexeme[i])
    ensures r.Ok? ==> (r.value.Int? <==> '.' !in lexeme)
    ensures r.Ok? ==> r.value.Int? || r.value.Double?
    ensures '.' !in lexeme ==> LeadingDigits(lexeme) == |lexeme|
    ensures r.Ok? && r.value.Int? ==> r.value.i >= 0 && r.value.i as int == LeadingValue(lexeme)
    ensures r.Ok? && r.value.Double? ==> IsDecimalText(r.value.text) && r.value.text == StodPrefix(lexeme)
    ensures r.Err? <==> |lexeme| == 0 || StodPrefix(lexeme) == "."
                        || ('.' !in lexeme && LeadingValue(lexeme) > IntMax)
  {
    DotFollowsDigits(lexeme);
    if '.' !in lexeme then Stoi(lexeme) else Stod(lexeme)
  }

  // -----------------------------------------------------------------------
  // The integer test as written (a finding)
  // -----------------------------------------------------------------------

  /** std::string::npos. */
  const Npos: nat := 0xffff_ffff_ffff_ffff

  /** The index of the first '.' in `s`, if any. */
  function DotIndex(s: string): (r: Option<nat>)
    ensures r.Some? ==> r.value < |s| && s[r.value] == '.'
    ensures r.Some? ==> forall k :: 0 <= k < r.value ==> s[k] != '.'
    ensures r.None? <==> '.' !in s
  {
    if s == [] then None
    else if s[0] == '.' then Some(0)
    else
      var r := DotIndex(s[1..]);
      assert forall k :: 0 < k < |s| ==> s[k] == s[1..][k - 1];
      if r.None? then None else Some(r.value + 1)
  }

  /** `substr.find(".")`: the first '.' or npos. */
  function FindDot(s: string): nat {
    match DotIndex(s)
    case None => Npos
    case Some(k) => k
  }

  /** Narrowing a size_t to `int`: the value modulo 2^32, read as signed. */
  function NarrowToInt(n: nat): (r: int)
    ensures -0x8000_0000 <= r < 0x8000_0000
    ensures (r - n) % 0x1_0000_0000 == 0
  {
    (n + 0x8000_0000) % 0x1_0000_0000 - 0x8000_0000
  }

  /** ParsePrimitive as written: `pointIndex >= (end - start)` compares the
      narrowed index with the lexeme length. */
  function ParsePrimitiveAsWritten(lexeme: string): Result<Value>
    requires forall i :: 0 <= i < |lexeme| ==> IsNumberChar(lexeme[i])
  {
    var pointIndex := NarrowToInt(FindDot(lexeme));
    if pointIndex >= |lexeme| then Stoi(lexeme) else Stod(lexeme)
  }

  /** The `// integer` branch is dead: npos narrows to -1, and a found '.'
      lies before the end, so every lexeme goes to stod. */
  lemma AsWrittenAlwaysStod(lexeme: string)
    requires forall i :: 0 <= i < |lexeme| ==> IsNumberChar(lexeme[i])
    ensures ParsePrimitiveAsWritten(lexeme) == Stod(lexeme)
    ensures ParsePrimitiveAsWritten(lexeme).Ok? ==> ParsePrimitiveAsWritten(lexeme).value.Double?
  {
    match DotIndex(lexeme)
    case None =>
      assert NarrowToInt(Npos) == -1;
    case Some(p) =>
      assert NarrowToInt(p) <= p;
  }

  /** The input that shows it: "1" becomes the double 1.0 as written, and
      the int 1 once corrected; a document parsed as written therefore has
      no int the loader can convert. */
  lemma AsWrittenDigitsBecomeDouble()
    ensures ParsePrimitiveAsWritten("1") == Ok(Double("1"))
    ensures ParsePrimitive("1") == Ok(Int(1))
  {
    AsWrittenAlwaysStod("1");
    assert LeadingDigits("1") == 1;
    assert "1"[..1] == "1";
    assert DecimalValue("1") == 1;
  }

  // -----------------------------------------------------------------------
  // The grammar, as functions on (text, cursor)
  // -----------------------------------------------------------------------

  /** ParseJson: '{', then key/value pairs until '}', the cursor left just
      past the '}'. */
  function ParseObject(text: string, pos: nat): (r: Result<(Value, nat)>)
    requires pos <= |text|
    ensures r.Ok? ==> pos < r.value.1 <= |text| && text[r.value.1 - 1] == '}'
    ensures r.Ok? ==> r.value.0.Object?
    ensures Peek(text, pos) != '{' ==> r == Err(ParseError(pos))
    decreases |text| - pos, 2
  {
    if Peek(text, pos) != '{' then Err(ParseError(pos))
    else ParseMembers(text, pos + 1, map[])
  }

  /** The loop of ParseJson: `json[key] = value` for each pair until '}',
      skipping blanks after each pair; a later pair overwrites an earlier
      one with the same key. */
  function ParseMembers(text: string, p: nat, json: map<string, Value>): (r: Result<(Value, nat)>)
    requires p <= |text|
    ensures r.Ok? ==> p < r.value.1 <= |text| && text[r.value.1 - 1] == '}'
    ensures r.Ok? ==> r.value.0.Object? && json.Keys <= r.value.0.fields.Keys
    decreases |text| - p, 1
  {
    if Peek(text, p) == '}' then Ok((Object(json), p + 1))
    else
      var pair :- ParsePair(text, p);
      ParseMembers(text, SkipBlanks(text, pair.2), json[pair.0 := pair.1])
  }

  /** RetriveKeyValuePair: a key, then a nested object or a number
      lexeme, and one optional ','. */
  function ParsePair(text: string, p: nat): (r: Result<(string, Value, nat)>)
    requires p <= |text|
    ensures r.Ok? ==> p < r.value.2 <= |text|
    decreases |text| - p, 0
  {
    var key :- ParseKey(text, p);
    var valueEnd :- ParseValue(text, key.1);
    var q := if Peek(text, valueEnd.1) == ',' then valueEnd.1 + 1 else valueEnd.1;
    Ok((key.0, valueEnd.0, q))
  }

  /** The key part of RetriveKeyValuePair: blanks, the key between two
      quotes (no escapes), ':' right after the closing quote, blanks. The
      position returned is where the value starts. */
  function ParseKey(text: string, p: nat): (r: Result<(string, nat)>)
    requires p <= |text|
    ensures r.Ok? ==> p < r.value.1 <= |text| && '"' !in r.value.0
  {
    var i := SkipBlanks(text, p);
    if Peek(text, i) != '"' then Err(ParseError(i))
    else
      match FindQuote(text, i + 1)
      case None => Err(ParseError(|text|))
      case Some(close) =>
        if Peek(text, close + 1) != ':' then Err(ParseError(close + 1))
        else Ok((text[i + 1..close], SkipBlanks(text, close + 2)))
  }

  /** The value of a pair: a nested object when it starts with '{', else
      the maximal run of digits and '.' handed to ParsePrimitive. */
  function ParseValue(text: string, j: nat): (r: Result<(Value, nat)>)
    requires j <= |text|
    ensures r.Ok? ==> j <= r.value.1 <= |text|
    decreases |text| - j, 3
  {
    if Peek(text, j) == '{' then ParseObject(text, j)
    else
      var e := ScanNumber(text, j);
      var v :- ParsePrimitive(text[j..e]);
      Ok((v, e))
  }

  // -----------------------------------------------------------------------
  // The parser, imperatively: a cursor advanced by while loops
  // -----------------------------------------------------------------------

  method ParseJson(text: string, it0: nat) returns (r: Result<(Value, nat)>)
    requires it0 <= |text|
    ensures r == ParseObject(text, it0)
    decreases |text| - it0, 2
  {
    if Peek(text, it0) != '{' {
      return Err(ParseError(it0));  // assert(*it == '{')
    }
    var it := it0 + 1;
    var json: map<string, Value> := map[];
    while Peek(text, it) != '}'
      invariant it0 < it <= |text|
      invariant ParseMembers(text, it, json) == ParseObject(text, it0)
      decreases |text| - it
    {
      var pair := RetriveKeyValuePair(text, it);
      if pair.Err? {
        return Err(pair.error);
      }
      var (key, value, next) := pair.value;
      json := json[key := value];
      it := SkipBlanksFrom(text, next);
    }
    return Ok((Object(json), it + 1));
  }

  /** The skipping loop, advancing the cursor in place. */
  method SkipBlanksFrom(text: string, it0: nat) returns (it: nat)
    requires it0 <= |text|
    ensures it == SkipBlanks(text, it0)
  {
    it := it0;
    while Peek(text, it) == ' ' || Peek(text, it) == '\n'
      invariant it0 <= it <= |text|
      invariant SkipBlanks(text, it) == SkipBlanks(text, it0)
      decreases |text| - it
    {
      it := it + 1;
    }
  }

  method RetriveKeyValuePair(text: string, it0: nat) returns (r: Result<(string, Value, nat)>)
    requires it0 <= |text|
    ensures r == ParsePair(text, it0)
    decreases |text| - it0, 1
  {
    if it0 == |text| {
      return Err(ParseError(it0));  // assert(it != text.end())
    }
    var key := ReadKey(text, it0);
    if key.Err? {
      return Err(key.error);
    }
    var value := ReadValue(text, key.value.1);
    PairParts(text, it0);
    if value.Err? {
      return Err(value.error);
    }
    var it := value.value.1;
    if Peek(text, it) == ',' {
      it := it + 1;
    }
    return Ok((key.value.0, value.value.0, it));
  }

  /** The key rules of RetriveKeyValuePair. After the blanks there must be
      a '"'; the key is the text up to the next '"', which must exist and
      be followed directly by ':'; the value starts after the blanks that
      follow the ':'. Each broken rule is an error at its position. */
  lemma KeyBetweenQuotes(text: string, p: nat)
    requires p <= |text|
    ensures var i, r := SkipBlanks(text, p), ParseKey(text, p);
            Peek(text, i) != '"' ==> r == Err(ParseError(i))
    ensures var i, r := SkipBlanks(text, p), ParseKey(text, p);
            Peek(text, i) == '"' && '"' !in text[i + 1..] ==> r == Err(ParseError(|text|))
    ensures var i, r := SkipBlanks(text, p), ParseKey(text, p);
            Peek(text, i) == '"' ==>
              var close := FindQuote(text, i + 1);
              close.Some? && Peek(text, close.value + 1) != ':' ==> r == Err(ParseError(close.value + 1))
    ensures var i, r := SkipBlanks(text, p), ParseKey(text, p);
            r.Ok? ==>
              var c := i + 1 + |r.value.0|;
              && c + 1 < |text| && text[i] == '"' && text[i + 1..c] == r.value.0
              && text[c] == '"' && text[c + 1] == ':' && r.value.1 == SkipBlanks(text, c + 2)
  {
  }

  /** The errors of ParsePair are those of its key and its value. */
  lemma PairParts(text: string, p: nat)
    requires p <= |text|
    ensures ParseKey(text, p).Err? ==> ParsePair(text, p) == Err(ParseKey(text, p).error)
    ensures ParseKey(text, p).Ok? ==>
              var j := ParseKey(text, p).value.1;
              var v := ParseValue(text, j);
              && (v.Err? ==> ParsePair(text, p) == Err(v.error))
              && (v.Ok? ==>
                    var q := if Peek(text, v.value.1) == ',' then v.value.1 + 1 else v.value.1;
                    ParsePair(text, p) == Ok((ParseKey(text, p).value.0, v.value.0, q)))
  {
  }

  /** A pair is a key read by ParseKey, then a value read by ParseValue
      where the key left the cursor; at most one ',' after the value is
      consumed, exactly when it is there. */
  lemma PairIsKeyThenValue(text: string, p: nat)
    requires p <= |text|
    ensures ParsePair(text, p).Ok? <==>
              ParseKey(text, p).Ok? && ParseValue(text, ParseKey(text, p).value.1).Ok?
    ensures ParsePair(text, p).Ok? ==>
              var key := ParseKey(text, p).value;
              var value := ParseValue(text, key.1).value;
              var r := ParsePair(text, p).value;
              && r.0 == key.0 && r.1 == value.0
              && (r.2 == value.1 || r.2 == value.1 + 1)
              && (r.2 == value.1 + 1 <==> Peek(text, value.1) == ',')
  {
  }

  /** A value starting with '{' is a nested object read by ParseObject;
      any other value is the maximal run of digits and '.' there, read by
      ParsePrimitive, and the cursor stops at the end of that run. */
  lemma ValueDispatch(text: string, j: nat)
    requires j <= |text|
    ensures Peek(text, j) == '{' ==> ParseValue(text, j) == ParseObject(text, j)
    ensures Peek(text, j) != '{' ==>
              var e := ScanNumber(text, j);
              var r := ParseValue(text, j);
              && (r.Ok? <==> ParsePrimitive(text[j..e]).Ok?)
              && (r.Ok? ==> r.value == (ParsePrimitive(text[j..e]).value, e))
  {
  }

  /** The key branch of RetriveKeyValuePair. */
  method ReadKey(text: string, it0: nat) returns (r: Result<(string, nat)>)
    requires it0 <= |text|
    ensures r == ParseKey(text, it0)
  {
    var it := SkipBlanksFrom(text, it0);
    if Peek(text, it) != '"' {
      return Err(ParseError(it));  // the key iterator is never set
    }
    it := it + 1;
    var start := it;
    while Peek(text, it) != '"'
      invariant start <= it <= |text|
      invariant FindQuote(text, it) == FindQuote(text, start)
      decreases |text| - it
    {
      if it == |text| {
        return Err(ParseError(|text|));  // the scan runs past the end
      }
      it := it + 1;
    }
    var key := text[start..it];
    it := it + 1;
    if Peek(text, it) != ':' {
      return Err(ParseError(it));  // assert(*(++it) == ':')
    }
    it := SkipBlanksFrom(text, it + 1);
    return Ok((key, it));
  }

  /** The value branch of RetriveKeyValuePair. */
  method ReadValue(text: string, it0: nat) returns (r: Result<(Value, nat)>)
    requires it0 <= |text|
    ensures r == ParseValue(text, it0)
    decreases |text| - it0, 3
  {
    if Peek(text, it0) == '{' {
      r := ParseJson(text, it0);
      return;
    }
    var it := it0;
    while Utils.IsDigit(Peek(text, it)) || Peek(text, it) == '.'
      invariant it0 <= it <= |text|
      invariant ScanNumber(text, it) == ScanNumber(text, it0)
      decreases |text| - it
    {
      it := it + 1;
    }
    var primitive := ParsePrimitive(text[it0..it]);
    if primitive.Err? {
      return Err(primitive.error);
    }
    return Ok((primitive.value, it));
  }

  // -----------------------------------------------------------------------
  // What the grammar accepts, on small documents
  // -----------------------------------------------------------------------

  /** The document with the key "a" twice, used by RepeatedKeyKeepsLater. */
  const TwiceA: string := "{\"a\":1,\"a\":2}"

  lemma FirstPairOfTwiceA()
    ensures ParsePair(TwiceA, 1) == Ok(("a", Int(1), 7))
  {
    var t := TwiceA;
    assert t[1] == '"' && t[2] == 'a' && t[3] == '"' && t[4] == ':' && t[5] == '1' && t[6] == ',';
    assert SkipBlanks(t, 1) == 1 && FindQuote(t, 2) == Some(3) && SkipBlanks(t, 5) == 5;
    assert t[2..3] == "a" && ParseKey(t, 1) == Ok(("a", 5));
    assert ScanNumber(t, 6) == 6 && ScanNumber(t, 5) == 6 && t[5..6] == "1";
    SmallInt("1", 1);
    assert ParseValue(t, 5) == Ok((Int(1), 6)) && Peek(t, 6) == ',';
  }

  lemma SecondPairOfTwiceA()
    ensures ParsePair(TwiceA, 7) == Ok(("a", Int(2), 12))
  {
    var t := TwiceA;
    assert t[7] == '"' && t[8] == 'a' && t[9] == '"' && t[10] == ':' && t[11] == '2' && t[12] == '}';
    assert SkipBlanks(t, 7) == 7 && FindQuote(t, 8) == Some(9) && SkipBlanks(t, 11) == 11;
    assert t[8..9] == "a" && ParseKey(t, 7) == Ok(("a", 11));
    assert ScanNumber(t, 12) == 12 && ScanNumber(t, 11) == 12 && t[11..12] == "2";
    SmallInt("2", 2);
    assert ParseValue(t, 11) == Ok((Int(2), 12)) && Peek(t, 12) == '}';
  }

  /** Two consecutive pairs with the same key: the later value is the one
      kept, whatever the map held before. */
  lemma LaterPairWins(t: string, p: nat, json: map<string, Value>, k: string, v1: Value, v2: Value, q: nat, r: nat)
    requires p <= |t|
    requires ParsePair(t, p) == Ok((k, v1, q))
    requires ParsePair(t, SkipBlanks(t, q)) == Ok((k, v2, r))
    requires Peek(t, SkipBlanks(t, r)) == '}'
    ensures ParseMembers(t, p, json).Ok?
    ensures ParseMembers(t, p, json).value.0 == Object(json[k := v2])
    ensures ParseMembers(t, p, json).value.1 == SkipBlanks(t, r) + 1
  {
    var next, close := SkipBlanks(t, q), SkipBlanks(t, r);
    calc {
      ParseMembers(t, p, json);
    == { PairStored(t, p, json); }
      ParseMembers(t, next, json[k := v1]);
    == { PairStored(t, next, json[k := v1]); }
      ParseMembers(t, close, json[k := v1][k := v2]);
    == { OverwriteTwice(json, k, v1, v2); }
      ParseMembers(t, close, json[k := v2]);
    == { Closed(t, close, json[k := v2]); }
      Ok((Object(json[k := v2]), close + 1));
    }
  }

  /** One round of the member loop: the pair at `p` is stored and the loop
      goes on after the blanks that follow it. */
  lemma PairStored(t: string, p: nat, json: map<string, Value>)
    requires p <= |t| && ParsePair(t, p).Ok?
    ensures var pair := ParsePair(t, p).value;
            ParseMembers(t, p, json) == ParseMembers(t, SkipBlanks(t, pair.2), json[pair.0 := pair.1])
  {
    NotClosedAtPair(t, p);
  }

  lemma OverwriteTwice(m: map<string, Value>, k: string, a: Value, b: Value)
    ensures m[k := a][k := b] == m[k := b]
  {
  }

  /** At a '}' the member loop stops and hands back what it holds. */
  lemma Closed(t: string, c: nat, json: map<string, Value>)
    requires c <= |t| && Peek(t, c) == '}'
    ensures ParseMembers(t, c, json) == Ok((Object(json), c + 1))
  {
  }

  /** Where a pair parses, the object is not closed yet. */
  lemma NotClosedAtPair(t: string, p: nat)
    requires p <= |t| && ParsePair(t, p).Ok?
    ensures Peek(t, p) != '}'
  {
  }

  /** A repeated key keeps the value of its later pair. */
  lemma RepeatedKeyKeepsLater()
    ensures ParseObject(TwiceA, 0).Ok?
    ensures ParseObject(TwiceA, 0).value.0 == Object(map["a" := Int(2)])
    ensures ParseObject(TwiceA, 0).value.1 == 13
  {
    TwiceALayout();
    FirstPairOfTwiceA();
    SecondPairOfTwiceA();
    ObjectOpens(TwiceA, 0);
    LaterPairWins(TwiceA, 1, map[], "a", Int(1), Int(2), 7, 12);
  }

  lemma TwiceALayout()
    ensures Peek(TwiceA, 0) == '{' && SkipBlanks(TwiceA, 7) == 7
    ensures Peek(TwiceA, 12) == '}' && SkipBlanks(TwiceA, 12) == 12
  {
  }

  /** At a '{' the object's member loop starts with an empty map. */
  lemma ObjectOpens(t: string, pos: nat)
    requires pos <= |t| && Peek(t, pos) == '{'
    ensures ParseObject(t, pos) == ParseMembers(t, pos + 1, map[])
  {
  }

  /** A one-digit lexeme is that int. */
  lemma SmallInt(lexeme: string, n: int32)
    requires |lexeme| == 1 && Utils.IsDigit(lexeme[0]) && DigitValue(lexeme[0]) == n as int
    ensures ParsePrimitive(lexeme) == Ok(Int(n))
  {
    assert LeadingDigits(lexeme) == 1;
    assert lexeme[..1] == lexeme;
    assert DecimalValue(lexeme) == n as int;
  }

  /** Only ' ' and '\n' are blanks: a tab before a key is a parse error. */
  lemma TabIsNotBlank()
    ensures ParseObject("{\t\"a\":1}", 0) == Err(ParseError(1))
  {
    var t := "{\t\"a\":1}";
    assert t[1] == '\t' && SkipBlanks(t, 1) == 1;
  }

  /** The ':' must follow the closing quote directly. */
  lemma ColonRightAfterKey()
    ensures ParseObject("{\"a\" :1}", 0) == Err(ParseError(4))
  {
    var u := "{\"a\" :1}";
    assert u[1] == '"' && u[2] == 'a' && u[3] == '"' && u[4] == ' ';
    assert SkipBlanks(u, 1) == 1 && FindQuote(u, 2) == Some(3);
    KeyBetweenQuotes(u, 1);
    PairParts(u, 1);
    ObjectOpens(u, 0);
  }
}
