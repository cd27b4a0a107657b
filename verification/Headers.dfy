/** The header block of a request: the line loop of parse_headers and the checks behind it. */
module Headers {
  import opened Text

  type Map = map<string, string>

  function LowerChar(c: char): char {
    if 'A' <= c <= 'Z' then c - 'A' + 'a' else c
  }

  function Lower(s: string): string {
    if s == "" then "" else [LowerChar(s[0])] + Lower(s[1..])
  }

  lemma {:induction false} LowerChars(s: string)
    ensures |Lower(s)| == |s| && forall i :: 0 <= i < |s| ==> Lower(s)[i] == LowerChar(s[i])
  {
    if s != "" {
      LowerChars(s[1..]);
    }
  }

  lemma LowerIs(s: string, t: string)
    requires |s| == |t| && forall i :: 0 <= i < |s| ==> LowerChar(s[i]) == t[i]
    ensures Lower(s) == t
  {
    LowerChars(s);
  }

  function TrimLeft(s: string): string {
    if s != "" && IsBlank(s[0]) then TrimLeft(s[1..]) else s
  }

  function TrimRight(s: string): string {
    if s != "" && IsBlank(s[|s| - 1]) then TrimRight(s[..|s| - 1]) else s
  }

  function Trim(s: string): string {
    TrimRight(TrimLeft(s))
  }

  /** Trim takes off blanks only, and leaves none at either end. */
  lemma {:induction false} TrimMeans(s: string) returns (i: nat, j: nat)
    ensures i <= j <= |s| && Trim(s) == s[i..j]
    ensures forall k :: 0 <= k < |s| && !(i <= k < j) ==> s[k] == ' ' || s[k] == '\t'
    ensures i < j ==> s[i] != ' ' && s[i] != '\t' && s[j - 1] != ' ' && s[j - 1] != '\t'
  {
    i := TrimLeftMeans(s);
    var n := TrimRightMeans(s[i..]);
    j := i + n;
    assert s[i..][..n] == s[i..j];
    forall k | j <= k < |s| ensures IsBlank(s[k]) {
      assert s[k] == s[i..][k - i];
    }
  }

  lemma {:induction false} TrimLeftMeans(s: string) returns (i: nat)
    ensures i <= |s| && TrimLeft(s) == s[i..] && (forall k :: 0 <= k < i ==> IsBlank(s[k]))
        && (i < |s| ==> !IsBlank(s[i]))
  {
    i := 0;
    assert s[0..] == s;
    if s != "" && IsBlank(s[0]) {
      var n := TrimLeftMeans(s[1..]);
      i := n + 1;
      assert s[1..][n..] == s[i..];
      forall k | 1 <= k < i ensures IsBlank(s[k]) {
        assert s[k] == s[1..][k - 1];
      }
    }
  }

  lemma {:induction false} TrimRightMeans(s: string) returns (j: nat)
    ensures j <= |s| && TrimRight(s) == s[..j] && (forall k :: j <= k < |s| ==> IsBlank(s[k]))
        && (0 < j ==> !IsBlank(s[j - 1]))
  {
    j := |s|;
    assert s[..j] == s;
    if s != "" && IsBlank(s[j - 1]) {
      var t := s[..j - 1];
      j := TrimRightMeans(t);
      assert t[..j] == s[..j];
      forall k | j <= k < |t| ensures IsBlank(s[k]) {
        assert s[k] == t[k];
      }
    }
  }

  predicate NameChar(c: char) {
    && 33 <= c as int <= 126
    && c != '(' && c != ')' && c != '<' && c != '>' && c != '@' && c != ',' && c != ';' && c != ':' && c != '\\'
    && c != '\"' && c != '/' && c != '[' && c != ']' && c != '?' && c != '=' && c != '{' && c != '}'
  }

  predicate GoodName(name: string) {
    name != "" && forall i :: 0 <= i < |name| ==> NameChar(name[i])
  }

  datatype Line = Skip | Malformed | Field(key: string, value: string)

  /** The line without the carriage return getline leaves at its end. */
  function Chomp(line: string): string {
    if line != "" && line[|line| - 1] == '\r' then line[..|line| - 1] else line
  }

  function ReadLine(raw: string, kept: set<string>): Line {
    var line := Chomp(raw);
    var colon := FindChar(line, ':');
    if line == "" then Skip
    else if colon.None? then Malformed
    else
      var name := line[..colon.value];
      if !GoodName(name) then Malformed
      else if Lower(name) !in kept then Skip
      else Field(Lower(name), Lower(Trim(line[colon.value + 1..])))
  }

  function ReadLines(lines: seq<string>, m: Map, kept: set<string>): Option<Map> {
    if lines == [] then Some(m)
    else
      match ReadLine(lines[0], kept)
      case Skip => ReadLines(lines[1..], m, kept)
      case Malformed => None
      case Field(key, value) => ReadLines(lines[1..], m[key := value], kept)
  }

  /** The header map of a block of lines, or nothing when a line is malformed. */
  function ReadBlock(block: string, kept: set<string>): Option<Map> {
    ReadLines(Split(block, '\n'), map[], kept)
  }

  /** One turn of the getline loop. */
  method ReadLineLoop(raw: string, kept: set<string>) returns (r: Line)
    ensures r == ReadLine(raw, kept)
  {
    var line := raw;
    if line != "" && line[|line| - 1] == '\r' {
      line := line[..|line| - 1];
    }
    if line == "" {
      return Skip;
    }
    var colonPos := FindChar(line, ':');
    if colonPos.None? {
      return Malformed;
    }
    var key, value := line[..colonPos.value], line[colonPos.value + 1..];
    if key != "" && IsBlank(key[|key| - 1]) {
      return Malformed;
    }
    if key != "" && IsBlank(key[0]) {
      return Malformed;
    }
    var i := 0;
    while i < |key|
      invariant i <= |key|
      invariant forall j :: 0 <= j < i ==> NameChar(key[j])
    {
      if !NameChar(key[i]) {
        return Malformed;
      }
      i := i + 1;
    }
    if key == "" {
      return Malformed;
    }
    value := Trim(value);
    if Lower(key) !in kept {
      return Skip;
    }
    r := Field(Lower(key), Lower(value));
  }

  /** What one line adds to what has been read. */
  lemma LineStep(line: string, rest: seq<string>, m: Map, kept: set<string>)
    ensures ReadLines([line] + rest, m, kept) ==
      match ReadLine(line, kept)
      case Skip => ReadLines(rest, m, kept)
      case Malformed => None
      case Field(key, value) => ReadLines(rest, m[key := value], kept)
  {
    hide ReadLine;
    assert ([line] + rest)[1..] == rest;
  }

  /** The getline loop over the header block. */
  method ReadBlockLoop(block: string, kept: set<string>) returns (m: Option<Map>)
    ensures m == ReadBlock(block, kept)
  {
    var headers: Map := map[];
    var pos := 0;
    assert block[0..] == block;
    assert ReadBlock(block, kept) == ReadLines(Split(block[pos..], '\n'), headers, kept);
    hide Split, ReadLines, ReadLine, ReadBlock, FindChar;
    while pos < |block|
      invariant pos <= |block|
      invariant ReadBlock(block, kept) == ReadLines(Split(block[pos..], '\n'), headers, kept)
      decreases |block| - pos
    {
      var rest := block[pos..];
      var newline := FindChar(rest, '\n');
      var line := rest[..if newline.Some? then newline.value else |rest|];
      SplitStep(rest, '\n');
      var read := ReadLineLoop(line, kept);
      if newline.Some? {
        pos := pos + newline.value + 1;
        assert rest[newline.value + 1..] == block[pos..];
      } else {
        pos := |block|;
        assert line == rest && block[pos..] == "";
        LastLine(line, headers, kept);
      }
      LineStep(line, Split(block[pos..], '\n'), headers, kept);
      if read.Malformed? {
        return None;
      }
      if read.Field? {
        headers := headers[read.key := read.value];
      }
    }
    assert block[pos..] == "";
    NoLines(headers, kept);
    m := Some(headers);
  }

  lemma NoLines(m: Map, kept: set<string>)
    ensures ReadLines(Split("", '\n'), m, kept) == Some(m)
  {
    assert Split("", '\n') == [""];
    assert ReadLines([""], m, kept) == ReadLines([], m, kept);
  }

  /** A line without line feed at the end of the block reads as if an empty line stood behind it. */
  lemma LastLine(line: string, m: Map, kept: set<string>)
    ensures ReadLines([line], m, kept) == ReadLines([line] + Split("", '\n'), m, kept)
  {
    assert Split("", '\n') == [""];
    assert ([line] + [""])[1..] == [""];
    assert forall n: Map :: ReadLines([""], n, kept) == ReadLines([], n, kept);
  }

  /** A field as a client sends it, with any optional blanks in front of its value and behind it. */
  datatype Sent = Sent(name: string, value: string, before: string := " ", behind: string := "")

  /** The blanks that may stand around a value. */
  predicate OptionalBlanks(s: string) {
    forall i :: 0 <= i < |s| ==> s[i] == ' ' || s[i] == '\t'
  }

  predicate GoodField(f: Sent) {
    && GoodName(f.name) && '\r' !in f.value && '\n' !in f.value
    && OptionalBlanks(f.before) && OptionalBlanks(f.behind)
  }

  predicate GoodFields(fields: seq<Sent>) {
    forall i :: 0 <= i < |fields| ==> GoodField(fields[i])
  }

  function PrintField(f: Sent): string {
    f.name + (":" + (f.before + (f.value + f.behind)))
  }

  /** The fields, a line each, without the line end behind the last one. */
  function PrintBlock(fields: seq<Sent>): string {
    if fields == [] then ""
    else if |fields| == 1 then PrintField(fields[0])
    else PrintField(fields[0]) + (CRLF + PrintBlock(fields[1..]))
  }

  /** What a field contributes: the lower-cased name, if it is kept, and the trimmed, lower-cased value. */
  function Note(f: Sent, m: Map, kept: set<string>): Map {
    if Lower(f.name) in kept then m[Lower(f.name) := Lower(Trim(f.value))] else m
  }

  function Meaning(fields: seq<Sent>, m: Map, kept: set<string>): Map {
    if fields == [] then m else Meaning(fields[1..], Note(fields[0], m, kept), kept)
  }

  lemma NameHasNoColon(name: string)
    requires GoodName(name)
    ensures ':' !in name && '\r' !in name && '\n' !in name && name[0] != '\r'
  {
  }

  lemma {:induction false} TrimLeftSkips(before: string, s: string)
    requires OptionalBlanks(before)
    ensures TrimLeft(before + s) == TrimLeft(s)
  {
    if before == "" {
      assert before + s == s;
    } else {
      assert (before + s)[1..] == before[1..] + s;
      TrimLeftSkips(before[1..], s);
    }
  }

  lemma {:induction false} TrimRightSkips(s: string, behind: string)
    requires OptionalBlanks(behind)
    ensures TrimRight(s + behind) == TrimRight(s)
  {
    if behind == "" {
      assert s + behind == s;
    } else {
      var n := |behind| - 1;
      assert (s + behind)[..|s| + n] == s + behind[..n];
      TrimRightSkips(s, behind[..n]);
    }
  }

  /** Blanks behind a string that is not blank stay there when it is trimmed on the left. */
  lemma {:induction false} TrimLeftKeeps(s: string, behind: string)
    requires OptionalBlanks(behind)
    ensures TrimLeft(s) != "" ==> TrimLeft(s + behind) == TrimLeft(s) + behind
    ensures TrimLeft(s) == "" ==> TrimLeft(s + behind) == ""
  {
    if s == "" {
      assert s + behind == behind == behind + "";
      TrimLeftSkips(behind, "");
    } else {
      assert (s + behind)[1..] == s[1..] + behind;
      TrimLeftKeeps(s[1..], behind);
    }
  }

  /** Optional blanks around a value do not matter. */
  lemma TrimSkipsBlanks(before: string, value: string, behind: string)
    requires OptionalBlanks(before) && OptionalBlanks(behind)
    ensures Trim(before + (value + behind)) == Trim(value)
  {
    hide TrimLeft, TrimRight;
    TrimLeftSkips(before, value + behind);
    TrimLeftKeeps(value, behind);
    TrimRightSkips(TrimLeft(value), behind);
  }

  /** A printed field reads back, with or without the carriage return of its line end. */
  lemma ReadPrinted(f: Sent, raw: string, kept: set<string>)
    requires GoodField(f) && (raw == PrintField(f) || raw == PrintField(f) + "\r")
    ensures ReadLine(raw, kept) == if Lower(f.name) in kept then Field(Lower(f.name), Lower(Trim(f.value))) else Skip
  {
    var line, rest := PrintField(f), f.before + (f.value + f.behind);
    PrintedHasNoNewline(f);
    NameHasNoColon(f.name);
    assert Chomp(raw) == line by {
      assert raw != line ==> raw[..|raw| - 1] == line;
    }
    assert line == f.name + ([':'] + rest);
    FindCharFirst(f.name, ':', rest);
    assert line[..|f.name|] == f.name && line[|f.name| + 1..] == rest;
    hide Trim, Lower, GoodName;
    TrimSkipsBlanks(f.before, f.value, f.behind);
  }

  lemma PrintedHasNoNewline(f: Sent)
    requires GoodField(f)
    ensures '\n' !in PrintField(f) && '\r' !in PrintField(f) && PrintField(f) != ""
  {
    NameHasNoColon(f.name);
  }

  /** A name as section 3.2 of RFC 7230 has it, and a colon. */
  predicate NamedLine(line: string) {
    exists n: nat :: n < |line| && line[n] == ':' && GoodName(line[..n])
  }

  /** Section 3.2.6 of RFC 7230: the characters of a token. */
  lemma NameCharMeans(c: char)
    ensures NameChar(c) <==> 'a' <= c <= 'z' || 'A' <= c <= 'Z' || '0' <= c <= '9' || c in "!#$%&'*+-.^_`|~"
  {
  }

  const CAPITALS := "ABCDEFGHIJKLMNOPQRSTUVWXYZ"
  const SMALLS := "abcdefghijklmnopqrstuvwxyz"

  /** Each capital becomes the small letter at its place in the alphabet, and nothing else changes. */
  lemma LowerCharMeans(c: char, n: nat)
    requires n < 26
    ensures LowerChar(CAPITALS[n]) == SMALLS[n]
    ensures c !in CAPITALS ==> LowerChar(c) == c
  {
    if 'A' <= c <= 'Z' {
      assert CAPITALS[c as int - 'A' as int] == c;
    }
  }

  /** Exactly which lines are malformed: those that are not empty and do not begin with a token and a colon. */
  lemma LineRefused(raw: string, kept: set<string>)
    ensures ReadLine(raw, kept).Malformed? <==> Chomp(raw) != "" && !NamedLine(Chomp(raw))
  {
    var line := Chomp(raw);
    var colon := FindChar(line, ':');
    hide FindChar, Lower, Trim;
    if n: nat :| n < |line| && line[n] == ':' && GoodName(line[..n]) {
      NameHasNoColon(line[..n]);
      assert colon.Some? && colon.value <= n;
      assert colon.value < n ==> line[..n][colon.value] == ':';
    }
  }

  /** What any other line gives, whatever bytes stand behind its colon: one carriage return at its end does not
      count. */
  lemma LineRead(name: string, rest: string, cr: bool, kept: set<string>)
    requires GoodName(name) && (!cr ==> rest == "" || rest[|rest| - 1] != '\r')
    ensures ReadLine(name + ([':'] + rest) + (if cr then "\r" else ""), kept) ==
      if Lower(name) in kept then Field(Lower(name), Lower(Trim(rest))) else Skip
  {
    var line := name + ([':'] + rest);
    var raw := line + (if cr then "\r" else "");
    NameHasNoColon(name);
    assert cr ==> raw[..|raw| - 1] == line;
    assert !cr ==> raw == line;
    assert Chomp(raw) == line;
    FindCharFirst(name, ':', rest);
    assert line[..|name|] == name && line[|name| + 1..] == rest;
  }

  /** A block is refused exactly when one of its lines is malformed. */
  lemma {:induction false} BlockRefused(lines: seq<string>, m: Map, kept: set<string>)
    ensures ReadLines(lines, m, kept).None? <==>
      exists i :: 0 <= i < |lines| && Chomp(lines[i]) != "" && !NamedLine(Chomp(lines[i]))
    decreases lines
  {
    hide ReadLine, Chomp, NamedLine;
    if lines != [] {
      var rest := lines[1..];
      assert lines == [lines[0]] + rest;
      LineRefused(lines[0], kept);
      match ReadLine(lines[0], kept)
      case Skip => BlockRefused(rest, m, kept);
      case Malformed =>
      case Field(key, value) => BlockRefused(rest, m[key := value], kept);
    }
  }

  lemma ReadLinesStep(line: string, rest: seq<string>, f: Sent, m: Map, kept: set<string>)
    requires GoodField(f) && (line == PrintField(f) || line == PrintField(f) + "\r")
    ensures ReadLines([line] + rest, m, kept) == ReadLines(rest, Note(f, m, kept), kept)
  {
    ReadPrinted(f, line, kept);
    assert ([line] + rest)[1..] == rest;
  }

  lemma FirstLine(a: string, b: string)
    requires '\n' !in a
    ensures Split(a + (CRLF + b), '\n') == [a + "\r"] + Split(b, '\n')
  {
    assert a + (CRLF + b) == (a + "\r") + (['\n'] + b);
    SplitFirst(a + "\r", '\n', b);
  }

  /** Section 3.2 of RFC 7230: printing any well-formed fields and reading the block gives each kept name, lower-cased,
      its last value, trimmed and lower-cased. */
  lemma {:induction false} PrintThenRead(fields: seq<Sent>, m: Map, kept: set<string>)
    requires fields != [] && GoodFields(fields)
    ensures ReadLines(Split(PrintBlock(fields), '\n'), m, kept) == Some(Meaning(fields, m, kept))
    decreases fields
  {
    var f := fields[0];
    PrintedHasNoNewline(f);
    if |fields| == 1 {
      assert Split(PrintField(f), '\n') == [PrintField(f)] + [];
      ReadLinesStep(PrintField(f), [], f, m, kept);
      assert fields[1..] == [];
    } else {
      FirstLine(PrintField(f), PrintBlock(fields[1..]));
      ReadLinesStep(PrintField(f) + "\r", Split(PrintBlock(fields[1..]), '\n'), f, m, kept);
      PrintThenRead(fields[1..], Note(f, m, kept), kept);
    }
  }

  /** The last field with a given lower-cased name. */
  function LastField(fields: seq<Sent>, key: string): (r: Option<nat>)
    ensures r.Some? ==> r.value < |fields| && Lower(fields[r.value].name) == key
                        && forall j :: r.value < j < |fields| ==> Lower(fields[j].name) != key
    ensures r.None? ==> forall j :: 0 <= j < |fields| ==> Lower(fields[j].name) != key
  {
    if fields == [] then None
    else
      var r := LastField(fields[1..], key);
      if r.Some? then Some(r.value + 1)
      else if Lower(fields[0].name) == key then Some(0)
      else None
  }

  /** The value a name ends up with is that of its last field. */
  lemma {:induction false} LastValueWins(fields: seq<Sent>, m: Map, kept: set<string>, key: string)
    ensures var last, result := LastField(fields, key), Meaning(fields, m, kept);
      if key in kept && last.Some? then key in result && result[key] == Lower(Trim(fields[last.value].value))
      else (key in result <==> key in m) && (key in m ==> result[key] == m[key])
    decreases fields
  {
    if fields != [] {
      LastValueWins(fields[1..], Note(fields[0], m, kept), kept, key);
    }
  }

  /** The block ends where its line ends meet: no carriage return stands inside a field. */
  lemma {:induction false} PrintBlockEnds(fields: seq<Sent>, rest: string)
    requires fields != [] && GoodFields(fields)
    ensures Find(PrintBlock(fields) + (CRLF2 + rest), CRLF2, 0) == Some(|PrintBlock(fields)|)
    decreases fields
  {
    var f := fields[0];
    PrintedHasNoNewline(f);
    var p, block := PrintField(f), PrintBlock(fields);
    var s := block + (CRLF2 + rest);
    assert s[|block|..|block| + 4] == CRLF2;
    assert At(s, CRLF2, |block|);
    hide At;
    if |fields| > 1 {
      var tail := PrintBlock(fields[1..]);
      PrintBlockEnds(fields[1..], rest);
      PrintedHasNoNewline(fields[1]);
      var t := tail + (CRLF2 + rest);
      assert s == p + CRLF + t;
      FindShift(p + CRLF, t, CRLF2, 0);
      assert t[0] == fields[1].name[0] by {
        assert tail[0] == PrintField(fields[1])[0];
      }
      NameHasNoColon(fields[1].name);
      forall j | 0 <= j < |p| + 2 ensures !At(s, CRLF2, j) {
        NoBlankLine(p, t, j);
      }
    } else {
      forall j | 0 <= j < |p| ensures !At(s, CRLF2, j) {
        AtCrlf2(s, j);
        assert s[j] == p[j];
      }
    }
    FindIs(s, CRLF2, 0, |block|);
  }

  lemma NoBlankLine(p: string, t: string, j: nat)
    requires '\r' !in p && '\n' !in p && t != "" && t[0] != '\r' && j < |p| + 2
    ensures !At(p + CRLF + t, CRLF2, j)
  {
    var s := p + CRLF + t;
    AtCrlf2(s, j);
    if j < |p| {
      assert s[j] == p[j];
    } else if j == |p| {
      assert s[j + 2] == t[0];
    } else {
      assert s[j] == '\n';
    }
  }
}
