/** The string helpers of srcs/Utils: splitting a line on a delimiter,
    matching a file extension, and recognising integer and decimal words. */
module Utils {
  import opened Wrappers

  // ---------------------------------------------------------------------
  // std::string::find, as the helpers use it
  // ---------------------------------------------------------------------

  /** `delim` occurs in `s` starting at index `i`. */
  predicate OccursAt(s: string, delim: string, i: nat) {
    i + |delim| <= |s| && s[i..i + |delim|] == delim
  }

  /** The first occurrence of `delim` in `s` at or after `from`
      (`None` plays the role of `std::string::npos`). */
  function FindFrom(s: string, delim: string, from: nat): (r: Option<nat>)
    requires from <= |s|
    ensures r.Some? ==> from <= r.value && OccursAt(s, delim, r.value)
    ensures r.Some? ==> forall j :: from <= j < r.value ==> !OccursAt(s, delim, j)
    ensures r.None? ==> forall j :: from <= j <= |s| ==> !OccursAt(s, delim, j)
    decreases |s| - from
  {
    if OccursAt(s, delim, from) then Some(from)
    else if from == |s| then None
    else FindFrom(s, delim, from + 1)
  }

  function Find(s: string, delim: string): (r: Option<nat>)
    ensures r.Some? ==> OccursAt(s, delim, r.value)
    ensures r.Some? ==> forall j :: 0 <= j < r.value ==> !OccursAt(s, delim, j)
    ensures r.None? ==> forall j :: 0 <= j <= |s| ==> !OccursAt(s, delim, j)
  {
    FindFrom(s, delim, 0)
  }

  // ---------------------------------------------------------------------
  // splitLine
  // ---------------------------------------------------------------------

  /** What `splitLine(line, delimiter)` returns: the text before the first
      delimiter is a word when it is not empty, and the rest of the line is
      split again from one character past the START of that delimiter. An
      empty delimiter is found at index 0 of every line, so the line loses
      one character per round until `substr(1)` of the empty string throws. */
  function Split(line: string, delim: string): Result<seq<string>>
    decreases |line|
  {
    match Find(line, delim)
    case None => Ok(if |line| > 0 then [line] else [])
    case Some(i) =>
      if i + 1 > |line| then Err(OutOfRange)
      else
        var rest :- Split(line[i + 1..], delim);
        Ok((if i > 0 then [line[..i]] else []) + rest)
  }

  /** `words` in front of the words of `r`, or `r`'s failure. */
  function Prepend(words: seq<string>, r: Result<seq<string>>): Result<seq<string>> {
    if r.Ok? then Ok(words + r.value) else r
  }

  /** splitLine: `line` is reassigned and `words` grows inside the loop. */
  method SplitLine(line0: string, delimiter: string) returns (r: Result<seq<string>>)
    ensures r == Split(line0, delimiter)
  {
    var line := line0;
    var words: seq<string> := [];
    var searching := true;  // index != npos
    PrependNothing(Split(line0, delimiter));
    while searching
      invariant searching ==> Split(line0, delimiter) == Prepend(words, Split(line, delimiter))
      invariant !searching ==> Split(line0, delimiter) == Ok(words)
      decreases |line| + (if searching then 1 else 0)
    {
      var index := Find(line, delimiter);
      var word := if index.Some? then line[..index.value] else line;
      ghost var head: seq<string> := if |word| > 0 then [word] else [];
      ghost var before := words;
      if |word| > 0 {
        words := words + [word];
      }
      assert words == before + head;
      if index.None? {
        // substr(npos + 1) wraps to substr(0): the line stays as it is
        assert Split(line, delimiter) == Ok(head);
        searching := false;
      } else if index.value + 1 > |line| {
        return Err(OutOfRange);
      } else {
        var rest := Split(line[index.value + 1..], delimiter);
        assert Split(line, delimiter) == Prepend(head, rest);
        PrependTwice(before, head, rest);
        line := line[index.value + 1..];
      }
    }
    return Ok(words);
  }

  lemma PrependNothing(r: Result<seq<string>>)
    ensures Prepend([], r) == r
  {
    if r.Ok? {
      assert [] + r.value == r.value;
    }
  }

  lemma PrependTwice(a: seq<string>, b: seq<string>, r: Result<seq<string>>)
    ensures Prepend(a, Prepend(b, r)) == Prepend(a + b, r)
  {
    if r.Ok? {
      assert a + (b + r.value) == (a + b) + r.value;
    }
  }

  lemma {:induction false} SplitSucceedsIffDelimiterNonEmpty(line: string, delim: string)
    ensures Split(line, delim).Ok? <==> |delim| > 0
    decreases |line|
  {
    match Find(line, delim)
    case None =>
      assert OccursAt(line, [], 0);
    case Some(i) =>
      if i + 1 <= |line| {
        SplitSucceedsIffDelimiterNonEmpty(line[i + 1..], delim);
      }
  }

  /** No word is empty, and no word contains the delimiter. */
  lemma {:induction false} SplitWordsAreNonEmptyPieces(line: string, delim: string)
    requires Split(line, delim).Ok?
    ensures forall w :: w in Split(line, delim).value ==> |w| > 0
    ensures forall w, j: nat :: w in Split(line, delim).value ==> !OccursAt(w, delim, j)
    decreases |line|
  {
    SplitSucceedsIffDelimiterNonEmpty(line, delim);
    match Find(line, delim)
    case None =>
    case Some(i) =>
      SplitWordsAreNonEmptyPieces(line[i + 1..], delim);
      var w := line[..i];
      forall j: nat ensures !OccursAt(w, delim, j) {
        if OccursAt(w, delim, j) {
          assert line[j..j + |delim|] == w[j..j + |delim|];
          assert OccursAt(line, delim, j);
        }
      }
  }

  /** The text of `s` without any `c`. */
  function Remove(s: string, c: char): (r: string)
    ensures c !in r
  {
    if s == [] then [] else (if s[0] == c then [] else [s[0]]) + Remove(s[1..], c)
  }

  function Concat(words: seq<string>): string {
    if words == [] then [] else words[0] + Concat(words[1..])
  }

  lemma {:induction false} RemoveAppend(a: string, b: string, c: char)
    ensures Remove(a + b, c) == Remove(a, c) + Remove(b, c)
    decreases |a|
  {
    if a != [] {
      assert (a + b)[1..] == a[1..] + b;
      RemoveAppend(a[1..], b, c);
    } else {
      assert a + b == b;
    }
  }

  lemma {:induction false} RemoveAbsent(s: string, c: char)
    requires c !in s
    ensures Remove(s, c) == s
    decreases |s|
  {
    if s != [] {
      RemoveAbsent(s[1..], c);
    }
  }

  lemma ConcatAppend(a: seq<string>, b: seq<string>)
    ensures Concat(a + b) == Concat(a) + Concat(b)
  {
    if a != [] {
      assert (a + b)[1..] == a[1..] + b;
      ConcatAppend(a[1..], b);
    } else {
      assert a + b == b;
    }
  }

  /** No `c` before the first one-character occurrence `i` of `[c]`. */
  lemma CharAbsentBefore(line: string, c: char, i: nat)
    requires i <= |line|
    requires forall j :: 0 <= j < i ==> !OccursAt(line, [c], j)
    ensures c !in line[..i]
  {
    forall k | 0 <= k < i ensures line[k] != c {
      assert line[k..k + 1] == [line[k]];
      assert !OccursAt(line, [c], k);
    }
  }

  /** With a one-character delimiter the words, read in order, spell the
      line with every delimiter taken out: nothing is lost, reordered or
      repeated. */
  lemma {:induction false} SplitSingleCharKeepsText(line: string, c: char)
    ensures Split(line, [c]).Ok?
    ensures Concat(Split(line, [c]).value) == Remove(line, c)
    decreases |line|
  {
    match Find(line, [c])
    case None =>
      CharAbsentBefore(line, c, |line|);
      assert line[..|line|] == line;
      RemoveAbsent(line, c);
      if |line| > 0 {
        assert Concat([line]) == line + Concat([]);
      }
    case Some(i) =>
      SplitSingleCharKeepsText(line[i + 1..], c);
      var rest := Split(line[i + 1..], [c]).value;
      var head: seq<string> := if i > 0 then [line[..i]] else [];
      assert Split(line, [c]) == Ok(head + rest);
      CharAbsentBefore(line, c, i);
      RemoveAbsent(line[..i], c);
      assert line[i..i + 1] == [c];
      SplitAtChar(line, c, i);
      ConcatAppend(head, rest);
      if i > 0 {
        assert Concat(head) == line[..i] + Concat([]);
      }
  }

  /** The maximal runs of `line` without `c`, left to right, empty runs
      dropped: the line is read one character at a time, `piece` holding
      the run read so far. */
  function PiecesFrom(s: string, c: char, piece: string): seq<string>
    decreases |s|
  {
    var closed: seq<string> := if piece == [] then [] else [piece];
    if s == [] then closed
    else if s[0] == c then closed + PiecesFrom(s[1..], c, [])
    else PiecesFrom(s[1..], c, piece + [s[0]])
  }

  function Pieces(line: string, c: char): seq<string> {
    PiecesFrom(line, c, [])
  }

  /** With a one-character delimiter, splitLine yields exactly the maximal
      delimiter-free pieces of the line, in order, empty ones dropped. */
  lemma {:induction false} SplitSingleCharIsPieces(line: string, c: char)
    ensures Split(line, [c]) == Ok(Pieces(line, c))
    decreases |line|
  {
    match Find(line, [c])
    case None =>
      CharAbsentBefore(line, c, |line|);
      assert line[..|line|] == line;
      ReadRun(line, [], c, []);
      assert line + [] == line && [] + line == line;
    case Some(i) =>
      SplitSingleCharIsPieces(line[i + 1..], c);
      CharAbsentBefore(line, c, i);
      assert line[i..i + 1] == [c];
      assert line == line[..i] + line[i..];
      ReadRun(line[..i], line[i..], c, []);
      assert [] + line[..i] == line[..i];
      assert line[i..][1..] == line[i + 1..];
  }

  /** Reading a run without `c` only extends the current piece. */
  lemma {:induction false} ReadRun(w: string, rest: string, c: char, piece: string)
    requires c !in w
    ensures PiecesFrom(w + rest, c, piece) == PiecesFrom(rest, c, piece + w)
    decreases |w|
  {
    if w == [] {
      assert w + rest == rest && piece + w == piece;
    } else {
      assert (w + rest)[0] == w[0] && (w + rest)[1..] == w[1..] + rest;
      ReadRun(w[1..], rest, c, piece + [w[0]]);
      assert piece + [w[0]] + w[1..] == piece + w;
    }
  }

  lemma SplitAtChar(line: string, c: char, i: nat)
    requires i < |line| && line[i] == c
    ensures Remove(line, c) == Remove(line[..i], c) + Remove(line[i + 1..], c)
  {
    assert line == line[..i] + [c] + line[i + 1..];
    RemoveAppend(line[..i] + [c], line[i + 1..], c);
    RemoveAppend(line[..i], [c], c);
  }

  /** With a longer delimiter only its first character is skipped: the rest
      of it begins the next word. */
  lemma SplitLongDelimiterExample()
    ensures Split("a::b", "::") == Ok(["a", ":b"])
  {
    assert "a::b"[1..3] == "::";
    assert "a::b"[0..2] != "::" by { assert "a::b"[0..2][0] == 'a'; }
    assert FindFrom("a::b", "::", 1) == Some(1);
    assert Find("a::b", "::") == Some(1);
    assert "a::b"[2..] == ":b";
    assert ":b"[0..2] != "::" by { assert ":b"[0..2][1] == 'b'; }
    assert FindFrom(":b", "::", 2) == None;
    assert FindFrom(":b", "::", 1) == None;
    assert Find(":b", "::") == None;
    assert Split(":b", "::") == Ok([":b"]);
    assert "a::b"[..1] == "a";
    assert Split("a::b", "::") == Ok(["a"] + [":b"]);
    assert ["a"] + [":b"] == ["a", ":b"];
  }

  // ---------------------------------------------------------------------
  // checkExtension (the same body in Utils.cpp and Utils.hpp)
  // ---------------------------------------------------------------------

  /** std::string::find_last_of("/"). */
  function LastSlash(path: string): (r: Option<nat>)
    ensures r.Some? ==> r.value < |path| && path[r.value] == '/'
    ensures r.Some? ==> forall j :: r.value < j < |path| ==> path[j] != '/'
    ensures r.None? ==> forall j :: 0 <= j < |path| ==> path[j] != '/'
    decreases |path|
  {
    if |path| == 0 then None
    else if path[|path| - 1] == '/' then Some(|path| - 1)
    else LastSlash(path[..|path| - 1])
  }

  /** The final path component: everything after the last '/', or the whole
      path when it has none (npos + 1 wraps to 0). */
  function FileName(path: string): string {
    match LastSlash(path)
    case None => path
    case Some(k) => path[k + 1..]
  }

  /** The file name is the '/'-free tail of the path, preceded by a '/'
      unless it is the whole path. */
  lemma FileNameIsLastComponent(path: string)
    ensures '/' !in FileName(path)
    ensures |FileName(path)| <= |path| && path[|path| - |FileName(path)|..] == FileName(path)
    ensures |FileName(path)| < |path| ==> path[|path| - |FileName(path)| - 1] == '/'
  {
    var name := FileName(path);
    match LastSlash(path)
    case None =>
    case Some(k) =>
      assert forall j :: 0 <= j < |name| ==> name[j] == path[k + 1 + j];
  }

  /** What checkExtension decides: the file name is strictly longer than
      the extension and ends with it. */
  predicate HasExtension(path: string, ext: string) {
    var name := FileName(path);
    |ext| < |name| && name[|name| - |ext|..] == ext
  }

  method CheckExtension(path: string, extension: string) returns (b: bool)
    ensures b == HasExtension(path, extension)
  {
    var filename := FileName(path);
    var n, m := |filename|, |extension|;
    if m >= n {
      return false;
    }
    ghost var tail := filename[n - m..];
    var i := 0;
    while i < m
      invariant 0 <= i <= m
      invariant forall k :: 0 <= k < i ==> tail[k] == extension[k]
    {
      if filename[n - m + i] != extension[i] {
        assert tail[i] != extension[i];
        return false;
      }
      i := i + 1;
    }
    assert tail == extension;
    return true;
  }

  /** Only the text after the last '/' is examined: a directory prefix never
      changes the answer. */
  lemma {:induction false} ExtensionIgnoresDirectory(dir: string, name: string, ext: string)
    requires '/' !in name
    ensures FileName(dir + "/" + name) == name
    ensures HasExtension(dir + "/" + name, ext) == HasExtension(name, ext)
  {
    var path := dir + "/" + name;
    assert path[|dir|] == '/';
    forall j | |dir| < j < |path| ensures path[j] != '/' {
      assert path[j] == name[j - |dir| - 1];
    }
    assert LastSlash(path) == Some(|dir|);
    assert path[|dir| + 1..] == name;
    assert LastSlash(name) == None by {
      FileNameIsLastComponent(name);
    }
  }

  /** A file name equal to the extension is rejected: "x/.glb" has no
      ".glb" extension. */
  lemma BareExtensionRejected(dir: string, ext: string)
    requires '/' !in ext
    ensures !HasExtension(dir + "/" + ext, ext)
  {
    ExtensionIgnoresDirectory(dir, ext, ext);
  }

  /** The empty extension matches exactly the paths whose file name is not
      empty, so a path ending in '/' never matches. */
  lemma EmptyExtension(path: string)
    ensures HasExtension(path, "") <==> |FileName(path)| > 0
    ensures |path| > 0 && path[|path| - 1] == '/' ==> !HasExtension(path, "")
  {
  }

  // ---------------------------------------------------------------------
  // isInt and isFloat
  // ---------------------------------------------------------------------

  predicate IsDigit(c: char) { '0' <= c <= '9' }

  /** Where the digits start: after a leading '-'. `word[0]` of the empty
      string reads the terminating NUL, which is not '-'. */
  function DigitsStart(w: string): nat {
    if |w| > 0 && w[0] == '-' then 1 else 0
  }

  /** An optional '-' and then only decimal digits ("" and "-" included). */
  predicate IntWord(w: string) {
    forall i :: DigitsStart(w) <= i < |w| ==> IsDigit(w[i])
  }

  function CountDots(s: string): nat {
    if s == [] then 0 else (if s[0] == '.' then 1 else 0) + CountDots(s[1..])
  }

  /** An optional '-', then digits and at most one '.', where the '.' is not
      the first character after the sign (a trailing '.' is accepted). */
  predicate FloatWord(w: string) {
    var body := w[DigitsStart(w)..];
    && (forall i :: 0 <= i < |body| ==> IsDigit(body[i]) || body[i] == '.')
    && CountDots(body) <= 1
    && (|body| > 0 ==> body[0] != '.')
  }

  method IsInt(word: string) returns (b: bool)
    ensures b == IntWord(word)
  {
    var start := 0;
    if |word| > 0 && word[0] == '-' {
      start := start + 1;
    }
    var i := start;
    while i < |word|
      invariant start <= i <= |word|
      invariant forall k :: start <= k < i ==> IsDigit(word[k])
    {
      if !IsDigit(word[i]) {
        return false;
      }
      i := i + 1;
    }
    return true;
  }

  lemma CountDotsSnoc(s: string, c: char)
    ensures CountDots(s + [c]) == CountDots(s) + (if c == '.' then 1 else 0)
  {
    if s != [] {
      assert (s + [c])[1..] == s[1..] + [c];
      CountDotsSnoc(s[1..], c);
    }
  }

  lemma CountDotsAppend(a: string, b: string)
    ensures CountDots(a + b) == CountDots(a) + CountDots(b)
  {
    if a != [] {
      assert (a + b)[1..] == a[1..] + b;
      CountDotsAppend(a[1..], b);
    } else {
      assert a + b == b;
    }
  }

  method IsFloat(word: string) returns (b: bool)
    ensures b == FloatWord(word)
  {
    var start := 0;
    var pointFound := false;
    if |word| > 0 && word[0] == '-' {
      start := start + 1;
    }
    ghost var body := word[start..];
    var i := start;
    while i < |word|
      invariant start <= i <= |word|
      invariant forall k :: start <= k < i ==> IsDigit(word[k]) || word[k] == '.'
      invariant pointFound <==> CountDots(word[start..i]) > 0
      invariant CountDots(word[start..i]) <= 1
      invariant i > start ==> word[start] != '.'
    {
      assert word[start..i + 1] == word[start..i] + [word[i]];
      CountDotsSnoc(word[start..i], word[i]);
      if word[i] == '.' {
        if pointFound || i == 0 || (word[0] == '-' && i == 1) {
          if !pointFound {
            assert i == start;
            assert body[0] == '.';
          } else {
            assert body == word[start..i + 1] + word[i + 1..];
            CountDotsAppend(word[start..i + 1], word[i + 1..]);
          }
          return false;
        } else {
          pointFound := true;
          i := i + 1;
          continue;
        }
      }
      if !IsDigit(word[i]) {
        assert body[i - start] == word[i];
        return false;
      }
      i := i + 1;
    }
    assert word[start..i] == body;
    return true;
  }

  lemma {:induction false} DigitsHaveNoDot(s: string)
    requires forall i :: 0 <= i < |s| ==> IsDigit(s[i])
    ensures CountDots(s) == 0
  {
    if s != [] {
      DigitsHaveNoDot(s[1..]);
    }
  }

  lemma {:induction false} NoDotCounted(s: string)
    requires '.' !in s
    ensures CountDots(s) == 0
  {
    if s != [] {
      NoDotCounted(s[1..]);
    }
  }

  /** Every integer word is a decimal word. */
  lemma IntWordIsFloatWord(w: string)
    ensures IntWord(w) ==> FloatWord(w)
  {
    if IntWord(w) {
      var body := w[DigitsStart(w)..];
      DigitsHaveNoDot(body);
    }
  }

  /** Without a '.', the two predicates agree. */
  lemma IntAndFloatAgreeWithoutDot(w: string)
    requires '.' !in w
    ensures IntWord(w) <==> FloatWord(w)
  {
    var body := w[DigitsStart(w)..];
    NoDotCounted(body);
    IntWordIsFloatWord(w);
    if FloatWord(w) {
      forall i | DigitsStart(w) <= i < |w| ensures IsDigit(w[i]) {
        assert body[i - DigitsStart(w)] == w[i];
      }
    }
  }

  /** The edges of isInt: the empty word and a lone sign are accepted. */
  lemma IntWordEdges()
    ensures IntWord("") && IntWord("-") && IntWord("-12") && !IntWord("1-")
  {
    assert !IsDigit("1-"[1]);
  }

  /** The edges of isFloat: a trailing '.' is accepted, a leading one (after
      the sign) and a second one are not. */
  lemma FloatWordEdges()
    ensures FloatWord("1.") && FloatWord("-0.5")
    ensures !FloatWord(".5") && !FloatWord("-.5") && !FloatWord("1.2.3")
  {
    assert !FloatWord(".5") && !FloatWord("-.5");
    assert CountDots("1.2.3") == 2;
  }
}
