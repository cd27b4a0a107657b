/** Request targets: percent-decoding, path normalisation and checkURI. */
module Uri {
  import opened Text

  predicate IsHex(c: char) {
    IsDecimal(c) || 'a' <= c <= 'f' || 'A' <= c <= 'F'
  }

  function HexValue(c: char): (v: nat)
    requires IsHex(c)
    ensures v < 16
  {
    if IsDecimal(c) then c as int - '0' as int
    else if 'a' <= c <= 'f' then c as int - 'a' as int + 10
    else c as int - 'A' as int + 10
  }

  /** parse_hex on at most two characters: what stream extraction in base 16 makes of them, 0 if nothing. */
  function ParseHex(s: string): int
    requires |s| <= 2
  {
    if s == "" then 0
    else if s[0] == '+' || s[0] == '-' then
      if |s| == 2 && IsHex(s[1]) then (if s[0] == '-' then 0 - HexValue(s[1]) else HexValue(s[1])) else 0
    else if !IsHex(s[0]) then 0
    else if |s| == 2 && IsHex(s[1]) then 16 * HexValue(s[0]) + HexValue(s[1])
    else HexValue(s[0])
  }

  /** An int pushed into a string of bytes. */
  function ToByte(n: int): char {
    (n % 256) as char
  }

  function UrlDecode(s: string): string {
    if s == "" then ""
    else if s[0] != '%' then [s[0]] + UrlDecode(s[1..])
    else [ToByte(ParseHex(s[1..Min(3, |s|)]))] + UrlDecode(s[Min(3, |s|)..])
  }

  lemma UrlDecodeStep(s: string, i: nat)
    requires i < |s|
    ensures var end := Min(i + 3, |s|);
      UrlDecode(s[i..]) == if s[i] != '%' then [s[i]] + UrlDecode(s[i + 1..])
                           else [ToByte(ParseHex(s[i + 1..end]))] + UrlDecode(s[end..])
  {
    var rest, end := s[i..], Min(i + 3, |s|);
    assert rest[1..] == s[i + 1..];
    assert rest[1..Min(3, |rest|)] == s[i + 1..end];
    assert rest[Min(3, |rest|)..] == s[end..];
  }

  const UPPER_HEX := "0123456789ABCDEF"
  const LOWER_HEX := "0123456789abcdef"

  /** The digit for n < 16, in either letter case. */
  function HexDigit(n: nat, lower: bool): char
    requires n < 16
  {
    if lower then LOWER_HEX[n] else UPPER_HEX[n]
  }

  /** How the sender spells a byte: as it is, or escaped, choosing the letter case of each of the two digits. */
  datatype Spelling = AsIs | Escaped(highLower: bool, lowLower: bool)

  /** Section 2.1 of RFC 3986: a byte as a percent sign and two hex digits. */
  function Spell(c: char, how: Spelling): string
    requires c as int < 256
  {
    match how
    case AsIs => [c]
    case Escaped(high, low) => ['%', HexDigit(c as int / 16, high), HexDigit(c as int % 16, low)]
  }

  /** A spelling for every byte that escapes at least the percent signs. */
  predicate Spells(how: seq<Spelling>, s: string) {
    |how| == |s| && forall i :: 0 <= i < |s| ==> s[i] as int < 256 && (s[i] == '%' ==> how[i].Escaped?)
  }

  function PercentEncode(s: string, how: seq<Spelling>): string
    requires Spells(how, s)
  {
    if s == "" then "" else Spell(s[0], how[0]) + PercentEncode(s[1..], how[1..])
  }

  lemma HexDigitOf(n: nat, lower: bool)
    requires n < 16
    ensures var c := HexDigit(n, lower); IsHex(c) && HexValue(c) == n && c != '+' && c != '-'
  {
  }

  /** An escape is decoded to its byte, and decoding goes on behind it. */
  lemma UnescapeOne(c: char, how: Spelling, rest: string)
    requires c as int < 256 && (c == '%' ==> how.Escaped?)
    ensures UrlDecode(Spell(c, how) + rest) == [c] + UrlDecode(rest)
  {
    var t := Spell(c, how) + rest;
    match how
    case AsIs =>
      assert t[1..] == rest;
    case Escaped(high, low) =>
      var x, y := HexDigit(c as int / 16, high), HexDigit(c as int % 16, low);
      HexDigitOf(c as int / 16, high);
      HexDigitOf(c as int % 16, low);
      hide HexDigit, HexValue, IsHex;
      assert t[1..3] == [x, y] && t[3..] == rest;
      assert ParseHex([x, y]) == c as int;
  }

  /** Decoding undoes every such encoding. */
  lemma {:induction false} EncodeThenDecode(s: string, how: seq<Spelling>)
    requires Spells(how, s)
    ensures UrlDecode(PercentEncode(s, how)) == s
  {
    hide Spell;
    if s != "" {
      EncodeThenDecode(s[1..], how[1..]);
      UnescapeOne(s[0], how[0], PercentEncode(s[1..], how[1..]));
      hide UrlDecode;
      assert [s[0]] + s[1..] == s;
    }
  }

  /** A percent sign without two digits behind it: one digit counts alone, a minus sign negates a digit, and anything
      else gives a zero byte. Either way three bytes are used up. */
  lemma OddEscape(x: char, y: char, n: nat, lower: bool, rest: string)
    requires n < 16 && !IsHex(x)
    ensures var d := HexDigit(n, lower);
      && UrlDecode(['%', d, x] + rest) == [n as char] + UrlDecode(rest)
      && UrlDecode(['%', '+', d] + rest) == [n as char] + UrlDecode(rest)
      && UrlDecode(['%', '-', d] + rest) == [(if n == 0 then 0 else 256 - n) as char] + UrlDecode(rest)
      && ((x != '+' && x != '-') || !IsHex(y) ==> UrlDecode(['%', x, y] + rest) == ['\0'] + UrlDecode(rest))
  {
    var d := HexDigit(n, lower);
    HexDigitOf(n, lower);
    hide HexDigit, HexValue, IsHex;
    UnescapeStep(d, x, rest);
    UnescapeStep('+', d, rest);
    UnescapeStep('-', d, rest);
    UnescapeStep(x, y, rest);
  }

  /** A percent sign at the end of the string, alone or with one byte behind it. */
  lemma EscapeAtEnd(x: char, n: nat, lower: bool)
    requires n < 16 && !IsHex(x)
    ensures UrlDecode(['%', HexDigit(n, lower)]) == [n as char]
    ensures UrlDecode("%") == UrlDecode(['%', x]) == ['\0']
  {
    var d := HexDigit(n, lower);
    HexDigitOf(n, lower);
    hide HexDigit, HexValue, IsHex;
    assert ['%', d][1..2] == [d] && ['%', d][2..] == "";
    assert ['%', x][1..2] == [x] && ['%', x][2..] == "";
    assert "%"[1..1] == "" && "%"[1..] == "";
  }

  lemma UnescapeStep(x: char, y: char, rest: string)
    ensures UrlDecode(['%', x, y] + rest) == [ToByte(ParseHex([x, y]))] + UrlDecode(rest)
  {
    var t := ['%', x, y] + rest;
    assert t[1..3] == [x, y] && t[3..] == rest;
  }

  lemma AppendThen(a: string, c: char, b: string)
    ensures a + ([c] + b) == a + [c] + b
  {
  }

  /** url_Decode. */
  method UrlDecodeLoop(s: string) returns (result: string)
    ensures result == UrlDecode(s)
  {
    result := "";
    var i := 0;
    assert s[0..] == s;
    while i < |s|
      invariant 0 <= i
      invariant UrlDecode(s) == result + UrlDecode(s[Min(i, |s|)..])
    {
      UrlDecodeStep(s, i);
      if s[i] != '%' {
        AppendThen(result, s[i], UrlDecode(s[i + 1..]));
        result := result + [s[i]];
        i := i + 1;
      } else {
        var end := Min(i + 3, |s|);
        var c := ToByte(ParseHex(s[i + 1..end]));
        AppendThen(result, c, UrlDecode(s[end..]));
        result := result + [c];
        i := i + 3;
      }
    }
    assert s[|s|..] == "" && result + "" == result;
  }

  /** One segment of the path processed against the stack. */
  function Push(stack: seq<string>, token: string): seq<string> {
    if token == "" || token == "." then stack
    else if token == ".." then if stack == [] then [] else stack[..|stack| - 1]
    else stack + [token]
  }

  function Resolve(tokens: seq<string>, stack: seq<string>): seq<string> {
    if tokens == [] then stack else Resolve(tokens[1..], Push(stack, tokens[0]))
  }

  function Segments(path: string): seq<string> {
    Resolve(Split(path, '/'), [])
  }

  function Normalize(path: string): string {
    "/" + Join(Segments(path), '/')
  }

  /** One call of getline: the token up to the next slash, and what is left of the stream. */
  method NextToken(path: string, pos: nat) returns (token: string, pos': nat)
    requires pos < |path|
    ensures pos < pos' <= |path|
    ensures forall stack ::
      Resolve(Split(path[pos..], '/'), stack) == Resolve(Split(path[pos'..], '/'), Push(stack, token))
  {
    var rest := path[pos..];
    var slash := FindChar(rest, '/');
    if slash.Some? {
      token, pos' := rest[..slash.value], pos + slash.value + 1;
      assert rest[slash.value + 1..] == path[pos'..];
      assert Split(rest, '/')[1..] == Split(path[pos'..], '/');
    } else {
      token, pos' := rest, |path|;
      assert path[pos'..] == "" && Split("", '/') == [""];
      assert forall stack :: Resolve([""], stack) == Resolve([], stack) == stack;
      assert forall stack :: Resolve([token], stack) == Resolve([], Push(stack, token));
    }
  }

  /** The segments with a slash between any two. */
  method Concatenate(stack: seq<string>) returns (normalized: string)
    ensures normalized == "/" + Join(stack, '/')
  {
    normalized := "/";
    var i := 0;
    assert stack[0..] == stack;
    while i < |stack|
      invariant i <= |stack|
      invariant "/" + Join(stack, '/') == normalized + Join(stack[i..], '/')
    {
      assert stack[i..][1..] == stack[i + 1..];
      var next := normalized + stack[i];
      if i + 1 < |stack| {
        var rest := Join(stack[i + 1..], '/');
        assert normalized + (stack[i] + (['/'] + rest)) == next + "/" + rest;
        next := next + "/";
      } else {
        assert next + "" == next;
      }
      normalized := next;
      i := i + 1;
    }
    assert normalized + "" == normalized;
  }

  /** normalizePath. */
  method NormalizePath(path: string) returns (normalized: string)
    ensures normalized == Normalize(path)
  {
    var stack: seq<string> := [];
    var pos := 0;
    assert path[0..] == path;
    while pos < |path|
      invariant pos <= |path|
      invariant Segments(path) == Resolve(Split(path[pos..], '/'), stack)
      decreases |path| - pos
    {
      var token;
      token, pos := NextToken(path, pos);
      if token == "" || token == "." {
        continue;
      }
      if token == ".." {
        if stack != [] {
          stack := stack[..|stack| - 1];
        }
      } else {
        stack := stack + [token];
      }
    }
    assert path[pos..] == "" && Split("", '/') == [""];
    assert Resolve([""], stack) == Resolve([], stack);
    normalized := Concatenate(stack);
  }

  /** A segment that normalisation keeps. */
  predicate Plain(segment: string) {
    segment != "" && segment != "." && segment != ".." && '/' !in segment
  }

  predicate AllPlain(segments: seq<string>) {
    forall i :: 0 <= i < |segments| ==> Plain(segments[i])
  }

  /** The root, or a slash before every one of a list of plain segments, and nothing else. */
  predicate NormalForm(path: string) {
    path == "/" || (path != "" && path[0] == '/' && AllPlain(Split(path[1..], '/')))
  }

  lemma {:induction false} ResolvePlain(tokens: seq<string>, stack: seq<string>)
    requires AllPlain(stack) && forall i :: 0 <= i < |tokens| ==> '/' !in tokens[i]
    ensures AllPlain(Resolve(tokens, stack))
    decreases tokens
  {
    if tokens != [] {
      ResolvePlain(tokens[1..], Push(stack, tokens[0]));
    }
  }

  lemma {:induction false} ResolveAllPlain(tokens: seq<string>, stack: seq<string>)
    requires AllPlain(tokens)
    ensures Resolve(tokens, stack) == stack + tokens
    decreases tokens
  {
    if tokens == [] {
      assert stack + tokens == stack;
    } else {
      ResolveAllPlain(tokens[1..], stack + [tokens[0]]);
      assert stack + [tokens[0]] + tokens[1..] == stack + tokens;
    }
  }

  /** The segments of "/" followed by joined plain segments are those segments. */
  lemma SegmentsOfJoined(segments: seq<string>)
    requires AllPlain(segments)
    ensures Segments("/" + Join(segments, '/')) == segments
  {
    var path := "/" + Join(segments, '/');
    SplitFirst("", '/', Join(segments, '/'));
    assert path == "" + (['/'] + Join(segments, '/'));
    var tokens := Split(path, '/');
    assert tokens[1..] == Split(Join(segments, '/'), '/');
    assert Resolve(tokens, []) == Resolve(tokens[1..], []);
    if segments == [] {
      assert tokens[1..] == [""];
      assert Resolve([""], []) == Resolve([], []);
    } else {
      JoinThenSplit(segments, '/');
      ResolveAllPlain(segments, []);
      assert [] + segments == segments;
    }
  }

  /** Every result is in normal form, and exactly the paths in normal form are left alone; so normalising twice is
      normalising once. */
  lemma NormalizeNormalizes(path: string)
    ensures NormalForm(Normalize(path))
    ensures Normalize(path) == path <==> NormalForm(path)
    ensures Normalize(Normalize(path)) == Normalize(path)
  {
    ResolvePlain(Split(path, '/'), []);
    var segments := Segments(path);
    SegmentsOfJoined(segments);
    if segments != [] {
      JoinThenSplit(segments, '/');
      assert Normalize(path)[1..] == Join(segments, '/');
    }
    if NormalForm(path) {
      if path == "/" {
        SegmentsOfJoined([]);
        assert "/" + Join([], '/') == "/";
      } else {
        SplitThenJoin(path[1..], '/');
        SegmentsOfJoined(Split(path[1..], '/'));
        assert path == "/" + path[1..];
      }
    }
  }

  lemma {:induction false} SplitAppend(a: string, b: string, c: char)
    ensures Split(a + ([c] + b), c) == Split(a, c) + Split(b, c)
    decreases |a|
  {
    var i := FindChar(a, c);
    SplitStep(a, c);
    hide Split;
    if i.None? {
      SplitFirst(a, c, b);
    } else {
      var front, rest := a[..i.value], a[i.value + 1..];
      SplitAppend(rest, b, c);
      FirstPart(a, i.value, c, b);
      SplitFirst(front, c, rest + ([c] + b));
      Regrouped(front, Split(rest, c), Split(b, c));
    }
  }

  lemma Regrouped(first: string, a: seq<string>, b: seq<string>)
    ensures [first] + (a + b) == [first] + a + b
  {
  }

  lemma FirstPart(a: string, i: nat, c: char, b: string)
    requires i < |a| && a[i] == c
    ensures a + ([c] + b) == a[..i] + ([c] + (a[i + 1..] + ([c] + b)))
  {
  }

  lemma {:induction false} ResolveAppend(a: seq<string>, b: seq<string>, stack: seq<string>)
    ensures Resolve(a + b, stack) == Resolve(b, Resolve(a, stack))
    decreases a
  {
    if a == [] {
      assert a + b == b;
    } else {
      assert (a + b)[1..] == a[1..] + b;
      ResolveAppend(a[1..], b, Push(stack, a[0]));
    }
  }

  /** The segments of a path behind those of its beginning. */
  lemma ResolveRest(a: string, b: string)
    ensures Segments(a + ("/" + b)) == Resolve(Split(b, '/'), Segments(a))
  {
    SplitAppend(a, b, '/');
    ResolveAppend(Split(a, '/'), Split(b, '/'), []);
  }

  lemma ResolveOne(segment: string, stack: seq<string>)
    requires '/' !in segment
    ensures Resolve(Split(segment, '/'), stack) == Push(stack, segment)
  {
    assert Split(segment, '/') == [segment] && [segment][1..] == [];
    assert Resolve([segment], stack) == Resolve([], Push(stack, segment));
  }

  /** Two segments more. */
  lemma ResolveTwo(a: string, segment: string, b: string)
    requires '/' !in segment
    ensures Segments(a + ("/" + (segment + ("/" + b)))) == Resolve(Split(b, '/'), Push(Segments(a), segment))
  {
    hide Resolve, Push, Split;
    assert a + ("/" + (segment + ("/" + b))) == (a + ("/" + segment)) + ("/" + b);
    ResolveRest(a + ("/" + segment), b);
    ResolveRest(a, segment);
    ResolveOne(segment, Segments(a));
  }

  /** Section 5.2.4 of RFC 3986, and repeated slashes: a dot segment and an empty one drop out, two dots drop with the
      plain segment in front of them, and at the root they drop alone. With the normal forms, which stay as they are,
      this determines the result. */
  lemma DotSegments(a: string, segment: string, b: string)
    requires Plain(segment)
    ensures Normalize(a + ("/" + ("." + ("/" + b)))) == Normalize(a + ("/" + b))
    ensures Normalize(a + ("/" + ("" + ("/" + b)))) == Normalize(a + ("/" + b))
    ensures Normalize(a + ("/" + (segment + ("/" + (".." + ("/" + b)))))) == Normalize(a + ("/" + b))
    ensures Normalize("" + ("/" + (".." + ("/" + b)))) == Normalize("" + ("/" + b))
  {
    var stack := Segments(a);
    hide Resolve, Split;
    ResolveRest(a, b);
    ResolveTwo(a, ".", b);
    ResolveTwo(a, "", b);
    ResolveTwo(a, segment, ".." + ("/" + b));
    ResolveRest("..", b);
    Climbing(stack, segment, b);
    ResolveTwo("", "..", b);
    ResolveRest("", b);
    EmptyPath();
  }

  lemma Climbing(stack: seq<string>, segment: string, b: string)
    requires Plain(segment)
    ensures Resolve(Split(".." + ("/" + b), '/'), Push(stack, segment)) == Resolve(Split(b, '/'), stack)
  {
    hide Split;
    SplitFirst("..", '/', b);
    assert ".." + (['/'] + b) == ".." + ("/" + b);
    assert ([".."] + Split(b, '/'))[1..] == Split(b, '/');
    assert (stack + [segment])[..|stack|] == stack;
  }

  lemma EmptyPath()
    ensures Segments("") == []
  {
    ResolveOne("", []);
  }

  /** No normal form but the root ends with a slash. */
  lemma NoTrailingSlash(path: string)
    requires NormalForm(path) && |path| > 1
    ensures path[|path| - 1] != '/'
  {
    if path[|path| - 1] == '/' {
      LastPiece(path[1..]);
    }
  }

  lemma {:induction false} LastPiece(s: string)
    requires s != "" && s[|s| - 1] == '/'
    ensures var pieces := Split(s, '/'); pieces[|pieces| - 1] == ""
    decreases |s|
  {
    var i := FindChar(s, '/').value;
    if i + 1 < |s| {
      LastPiece(s[i + 1..]);
    }
  }

  const DOTS := ".."

  predicate HasDots(s: string) {
    Contains(s, DOTS)
  }

  lemma DotsAt(s: string)
    ensures HasDots(s) <==> exists i :: 0 <= i < |s| - 1 && s[i] == '.' && s[i + 1] == '.'
  {
    if i :| 0 <= i < |s| - 1 && s[i] == '.' && s[i + 1] == '.' {
      assert s[i..i + 2] == DOTS;
      assert At(s, DOTS, i);
    }
    if HasDots(s) {
      var i := Find(s, DOTS, 0).value;
      assert s[i] == s[i..i + 2][0] && s[i + 1] == s[i..i + 2][1];
    }
  }

  lemma {:induction false} SplitHasNoDots(s: string)
    requires !HasDots(s)
    ensures forall piece <- Split(s, '/') :: !HasDots(piece)
    decreases |s|
  {
    var i := FindChar(s, '/');
    if i.Some? {
      var a, b := s[..i.value], s[i.value + 1..];
      DotsAt(s);
      DotsAt(a);
      DotsAt(b);
      forall j | 0 <= j < |b| - 1 ensures !(b[j] == '.' && b[j + 1] == '.') {
        assert b[j] == s[i.value + 1 + j] && b[j + 1] == s[i.value + 2 + j];
      }
      SplitHasNoDots(b);
    }
  }

  lemma {:induction false} ResolveHasNoDots(tokens: seq<string>, stack: seq<string>)
    requires forall t <- tokens :: !HasDots(t)
    requires forall t <- stack :: !HasDots(t)
    ensures forall t <- Resolve(tokens, stack) :: !HasDots(t)
    decreases tokens
  {
    if tokens != [] {
      ResolveHasNoDots(tokens[1..], Push(stack, tokens[0]));
    }
  }

  lemma {:induction false} JoinHasNoDots(pieces: seq<string>)
    requires forall t <- pieces :: !HasDots(t)
    ensures !HasDots(Join(pieces, '/')) && !HasDots("/" + Join(pieces, '/'))
    decreases pieces
  {
    if |pieces| > 1 {
      JoinHasNoDots(pieces[1..]);
      var a, b := pieces[0], "/" + Join(pieces[1..], '/');
      assert a in pieces;
      DotsAt(a);
      DotsAt(b);
      DotsAt(a + b);
      assert Join(pieces, '/') == a + b;
    }
    var j := Join(pieces, '/');
    DotsAt(j);
    DotsAt("/" + j);
    forall i | 0 <= i < |"/" + j| - 1 && ("/" + j)[i] == '.' ensures ("/" + j)[i + 1] != '.' {
      assert ("/" + j)[i] == j[i - 1] && ("/" + j)[i + 1] == j[i];
    }
  }

  /** Normalising never creates two dots in a row. */
  lemma NormalizeHasNoDots(path: string)
    requires !HasDots(path)
    ensures !HasDots(Normalize(path))
  {
    SplitHasNoDots(path);
    ResolveHasNoDots(Split(path, '/'), []);
    JoinHasNoDots(Segments(path));
  }

  /** Where the query or the fragment starts, as the code computes it from the two searches. */
  function Separator(uri: string): Option<nat> {
    var query, fragment := FindChar(uri, '?'), FindChar(uri, '#');
    if query.Some? && fragment.Some? then Some(Min(query.value, fragment.value))
    else if query.Some? then query
    else fragment
  }

  function PathPart(uri: string): string {
    var i := Separator(uri);
    if i.Some? then uri[..i.value] else uri
  }

  function Suffix(uri: string): string {
    var i := Separator(uri);
    if i.Some? then uri[i.value..] else ""
  }

  lemma PathThenSuffix(uri: string)
    ensures uri == PathPart(uri) + Suffix(uri)
    ensures '?' !in PathPart(uri) && '#' !in PathPart(uri)
    ensures Suffix(uri) == "" || Suffix(uri)[0] == '?' || Suffix(uri)[0] == '#'
  {
  }

  /** char is signed: bytes from 128 on compare below 32. */
  predicate BadByte(c: char) {
    c as int < 32 || c as int >= 128 || c as int == 127 || c == ' '
  }

  /** `closes`: the error also clears connection_status. */
  datatype UriCheck = Accepted(uri: string) | Rejected(code: int, closes: bool)

  function CheckUri(uri: string): UriCheck {
    if uri == "" || uri[0] != '/' then Rejected(400, true)
    else if |uri| > 8000 then Rejected(414, true)
    else if exists i :: 0 <= i < |uri| && BadByte(uri[i]) then Rejected(400, true)
    else
      var decoded := UrlDecode(PathPart(uri));
      if HasDots(decoded) then Rejected(400, false)
      else
        var normalized := Normalize(decoded);
        if HasDots(normalized) then Rejected(400, false)
        else Accepted(normalized + Suffix(uri))
  }

  /** checkURI. */
  method CheckUriLoop(uri: string) returns (r: UriCheck)
    ensures r == CheckUri(uri)
  {
    if uri == "" {
      return Rejected(400, true);
    }
    if uri[0] != '/' {
      return Rejected(400, true);
    }
    if |uri| > 8000 {
      return Rejected(414, true);
    }
    var i := 0;
    while i < |uri|
      invariant i <= |uri|
      invariant forall j :: 0 <= j < i ==> !BadByte(uri[j])
    {
      var c := uri[i];
      if c as int < 32 || c as int >= 128 || c as int == 127 {
        return Rejected(400, true);
      }
      if c == ' ' {
        return Rejected(400, true);
      }
      i := i + 1;
    }
    var decoded := UrlDecodeLoop(PathPart(uri));
    if HasDots(decoded) {
      return Rejected(400, false);
    }
    var normalized := NormalizePath(decoded);
    if HasDots(normalized) {
      return Rejected(400, false);
    }
    r := Accepted(normalized + Suffix(uri));
  }

  /** The second test for two dots never fires, and an accepted target is the normal form of its decoded path followed
      by the query and fragment as they came. */
  lemma AcceptedUri(uri: string)
    ensures CheckUri(uri).Accepted? <==>
      uri != "" && uri[0] == '/' && |uri| <= 8000 && (forall i :: 0 <= i < |uri| ==> !BadByte(uri[i]))
      && !HasDots(UrlDecode(PathPart(uri)))
    ensures CheckUri(uri).Accepted? ==>
      var path := Normalize(UrlDecode(PathPart(uri)));
      CheckUri(uri).uri == path + Suffix(uri) && NormalForm(path) && !HasDots(path)
  {
    var decoded := UrlDecode(PathPart(uri));
    NormalizeNormalizes(decoded);
    if !HasDots(decoded) {
      NormalizeHasNoDots(decoded);
    }
  }

  /** The code a target is refused with: 414 exactly for its length, and only when it starts with a slash. Two dots
      in the decoded path are the one error that leaves connection_status alone. */
  lemma RejectedUri(uri: string)
    ensures CheckUri(uri).Rejected? ==>
      && (CheckUri(uri).code == if uri != "" && uri[0] == '/' && |uri| > 8000 then 414 else 400)
      && (CheckUri(uri).closes <==>
            uri == "" || uri[0] != '/' || |uri| > 8000 || exists i :: 0 <= i < |uri| && BadByte(uri[i]))
  {
    hide HasDots, UrlDecode, Normalize;
  }

  /** The shortest target. */
  lemma RootIsAccepted()
    ensures CheckUri("/") == Accepted("/")
  {
    assert FindChar("/", '?').None? && FindChar("/", '#').None?;
    assert UrlDecode("/") == "/" by {
      UrlDecodeStep("/", 0);
    }
    DotsAt("/");
    assert Split("", '/') == [""] && Split("/", '/') == ["", ""];
  }
}
