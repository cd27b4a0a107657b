/** Strings as the server sees them: sequences of bytes, searched the way std::string::find does. */
module Text {
  datatype Option<+T> = None | Some(value: T)

  const CRLF := "\r\n"
  const CRLF2 := "\r\n\r\n"

  /** pat occurs in s at index i. */
  predicate At(s: string, pat: string, i: int) {
    0 <= i && i + |pat| <= |s| && s[i..i + |pat|] == pat
  }

  /** std::string::find(pat, from): the first occurrence at or after from. */
  function Find(s: string, pat: string, from: nat): (r: Option<nat>)
    ensures r.Some? ==> from <= r.value && r.value + |pat| <= |s| && At(s, pat, r.value)
    ensures r.Some? ==> forall j :: from <= j < r.value ==> !At(s, pat, j)
    ensures r.None? ==> forall j :: from <= j ==> !At(s, pat, j)
    decreases |s| - from
  {
    if from + |pat| > |s| then None
    else if At(s, pat, from) then Some(from)
    else Find(s, pat, from + 1)
  }

  predicate Contains(s: string, pat: string) {
    Find(s, pat, 0).Some?
  }

  /** The contract of Find determines its result. */
  lemma FindIs(s: string, pat: string, from: nat, i: nat)
    requires from <= i && At(s, pat, i)
    requires forall j :: from <= j < i ==> !At(s, pat, j)
    ensures Find(s, pat, from) == Some(i)
  {
    assert Find(s, pat, from).Some?;
  }

  /** More bytes behind a string neither add nor remove an occurrence inside it. */
  lemma AtExtend(s: string, t: string, pat: string, i: int)
    requires i + |pat| <= |s|
    ensures At(s + t, pat, i) == At(s, pat, i)
  {
    if 0 <= i {
      assert (s + t)[i..i + |pat|] == s[i..i + |pat|];
    }
  }

  /** A search that succeeded gives the same answer once more bytes have arrived. */
  lemma FindExtend(s: string, t: string, pat: string, from: nat)
    requires Find(s, pat, from).Some?
    ensures Find(s + t, pat, from) == Find(s, pat, from)
  {
    var i := Find(s, pat, from).value;
    AtExtend(s, t, pat, i);
    forall j | from <= j < i ensures !At(s + t, pat, j) {
      AtExtend(s, t, pat, j);
    }
    FindIs(s + t, pat, from, i);
  }

  lemma AtShift(s: string, t: string, pat: string, j: int)
    requires 0 <= j
    ensures At(s + t, pat, |s| + j) == At(t, pat, j)
  {
    if j + |pat| <= |t| {
      assert (s + t)[|s| + j..|s| + j + |pat|] == t[j..j + |pat|];
    }
  }

  /** Searching from behind a prefix is searching the rest. */
  lemma FindShift(s: string, t: string, pat: string, from: nat)
    ensures Find(t, pat, from).None? ==> Find(s + t, pat, |s| + from).None?
    ensures Find(t, pat, from).Some? ==> Find(s + t, pat, |s| + from) == Some(|s| + Find(t, pat, from).value)
  {
    hide At;
    var r, q := Find(t, pat, from), Find(s + t, pat, |s| + from);
    if q.Some? {
      AtShift(s, t, pat, q.value - |s|);
    }
    if r.Some? {
      AtShift(s, t, pat, r.value);
      forall j | |s| + from <= j < |s| + r.value ensures !At(s + t, pat, j) {
        assert !At(t, pat, j - |s|);
        AtShift(s, t, pat, j - |s|);
      }
      FindIs(s + t, pat, |s| + from, |s| + r.value);
    }
  }

  lemma ContainsMiddle(a: string, pat: string, b: string)
    ensures Contains(a + (pat + b), pat)
  {
    assert (a + (pat + b))[|a|..|a| + |pat|] == pat;
    assert At(a + (pat + b), pat, |a|);
  }

  /** std::string::find for one character. */
  function FindChar(s: string, c: char): (r: Option<nat>)
    ensures r.Some? ==> r.value < |s| && s[r.value] == c && forall j :: 0 <= j < r.value ==> s[j] != c
    ensures r.None? ==> c !in s
  {
    if s == "" then None
    else if s[0] == c then Some(0)
    else
      var r := FindChar(s[1..], c);
      if r.None? then None else Some(r.value + 1)
  }

  /** The pieces of s between the separators: n separators, n + 1 pieces. */
  function Split(s: string, c: char): (pieces: seq<string>)
    ensures pieces != [] && forall i :: 0 <= i < |pieces| ==> c !in pieces[i]
  {
    var i := FindChar(s, c);
    if i.None? then [s] else [s[..i.value]] + Split(s[i.value + 1..], c)
  }

  function Join(pieces: seq<string>, c: char): string {
    if pieces == [] then ""
    else if |pieces| == 1 then pieces[0]
    else pieces[0] + ([c] + Join(pieces[1..], c))
  }

  lemma FindCharFirst(a: string, c: char, b: string)
    requires c !in a
    ensures FindChar(a + ([c] + b), c) == Some(|a|)
  {
    var s := a + ([c] + b);
    assert s[|a|] == c;
    forall j | 0 <= j < |a| ensures s[j] != c {
      assert s[j] in a;
    }
  }

  lemma SplitFirst(a: string, c: char, b: string)
    requires c !in a
    ensures Split(a + ([c] + b), c) == [a] + Split(b, c)
  {
    FindCharFirst(a, c, b);
    var s := a + ([c] + b);
    assert s[..|a|] == a && s[|a| + 1..] == b;
  }

  lemma SplitStep(s: string, c: char)
    ensures var i := FindChar(s, c);
      i.Some? ==> Split(s, c) == [s[..i.value]] + Split(s[i.value + 1..], c)
    ensures FindChar(s, c).None? ==> Split(s, c) == [s]
  {
  }

  lemma {:induction false} JoinThenSplit(pieces: seq<string>, c: char)
    requires pieces != [] && forall i :: 0 <= i < |pieces| ==> c !in pieces[i]
    ensures Split(Join(pieces, c), c) == pieces
  {
    if |pieces| > 1 {
      JoinThenSplit(pieces[1..], c);
      SplitFirst(pieces[0], c, Join(pieces[1..], c));
    }
  }

  lemma {:induction false} SplitThenJoin(s: string, c: char)
    ensures Join(Split(s, c), c) == s
    decreases |s|
  {
    var i := FindChar(s, c);
    if i.Some? {
      SplitThenJoin(s[i.value + 1..], c);
      assert Split(s, c)[1..] == Split(s[i.value + 1..], c);
      assert s == s[..i.value] + ([c] + s[i.value + 1..]);
    }
  }

  /** std::string::find_last_of for one character. */
  function FindLast(s: string, c: char): (r: Option<nat>)
    ensures r.Some? ==> r.value < |s| && s[r.value] == c && forall j :: r.value < j < |s| ==> s[j] != c
    ensures r.None? ==> c !in s
  {
    if s == "" then None
    else if s[|s| - 1] == c then Some(|s| - 1)
    else FindLast(s[..|s| - 1], c)
  }

  /** CRLF occurs exactly where a carriage return meets a line feed. */
  lemma AtCrlf(s: string, i: int)
    ensures At(s, CRLF, i) <==> 0 <= i && i + 1 < |s| && s[i] == '\r' && s[i + 1] == '\n'
  {
    if 0 <= i && i + 2 <= |s| {
      assert s[i..i + 2] == [s[i], s[i + 1]];
    }
  }

  lemma AtCrlf2(s: string, i: int)
    ensures At(s, CRLF2, i)
        <==> 0 <= i && i + 3 < |s| && s[i] == '\r' && s[i + 1] == '\n' && s[i + 2] == '\r' && s[i + 3] == '\n'
  {
    if 0 <= i && i + 4 <= |s| {
      assert s[i..i + 4] == [s[i], s[i + 1], s[i + 2], s[i + 3]];
    }
  }

  /** One character of an occurrence. */
  lemma AtChar(s: string, pat: string, i: int, k: nat)
    requires k < |pat|
    ensures At(s, pat, i) ==> 0 <= i && i + k < |s| && s[i + k] == pat[k]
  {
    if At(s, pat, i) {
      assert s[i + k] == s[i..i + |pat|][k];
    }
  }

  /** A line without a carriage return is found whole. */
  lemma FindLineEnd(line: string, rest: string)
    requires '\r' !in line
    ensures Find(line + (CRLF + rest), CRLF, 0) == Some(|line|)
    ensures (line + (CRLF + rest))[..|line|] == line && (line + (CRLF + rest))[|line| + 2..] == rest
  {
    var s := line + (CRLF + rest);
    AtCrlf(s, |line|);
    forall j | 0 <= j < |line| ensures !At(s, CRLF, j) {
      AtCrlf(s, j);
      assert s[j] in line;
    }
    FindIs(s, CRLF, 0, |line|);
  }

  /** No CRLF in a line without carriage return, even when it is cut just after the next '\r'. */
  lemma NoLineEnd(s: string)
    requires forall i :: 0 <= i < |s| && s[i] == '\r' ==> i == |s| - 1
    ensures Find(s, CRLF, 0).None?
  {
    forall j: int ensures !At(s, CRLF, j) {
      AtCrlf(s, j);
    }
  }

  function Min(a: int, b: int): int {
    if a <= b then a else b
  }

  function Flatten(pieces: seq<string>): string {
    if pieces == [] then "" else pieces[0] + Flatten(pieces[1..])
  }

  lemma FlattenAppend(a: seq<string>, b: seq<string>)
    ensures Flatten(a + b) == Flatten(a) + Flatten(b)
  {
    if a == [] {
      assert a + b == b;
    } else {
      assert (a + b)[1..] == a[1..] + b;
    }
  }

  /** Taking the last piece off. */
  lemma FlattenLast(pieces: seq<string>)
    requires pieces != []
    ensures Flatten(pieces) == Flatten(pieces[..|pieces| - 1]) + pieces[|pieces| - 1]
  {
    var last := pieces[|pieces| - 1];
    assert pieces == pieces[..|pieces| - 1] + [last];
    FlattenAppend(pieces[..|pieces| - 1], [last]);
    assert Flatten([last]) == last + "" == last;
  }

  lemma FlattenPrefix(pieces: seq<string>, n: nat)
    requires n <= |pieces|
    ensures Flatten(pieces[..n]) <= Flatten(pieces)
    ensures n < |pieces| ==> |Flatten(pieces[..n])| + |pieces[|pieces| - 1]| <= |Flatten(pieces)|
  {
    if n == |pieces| {
      assert pieces[..n] == pieces;
    } else {
      FlattenLast(pieces);
      assert pieces[..|pieces| - 1][..n] == pieces[..n];
      FlattenPrefix(pieces[..|pieces| - 1], n);
    }
  }

  predicate IsBlank(c: char) {
    c == ' ' || c == '\t'
  }

  /** size_t on the 64-bit target. */
  const TWO_64 := 0x1_0000_0000_0000_0000

  type SizeT = x: int | 0 <= x < TWO_64

  function ToSizeT(x: int): SizeT {
    x % TWO_64
  }

  predicate IsSpace(c: char) {
    c == ' ' || '\t' <= c <= '\r'
  }

  predicate IsDecimal(c: char) {
    '0' <= c <= '9'
  }

  /** The length of the run of decimal digits at the start of s. */
  function DigitRun(s: string): (n: nat)
    ensures n <= |s| && forall i :: 0 <= i < n ==> IsDecimal(s[i])
  {
    if s != "" && IsDecimal(s[0]) then 1 + DigitRun(s[1..]) else 0
  }

  function DecimalValue(s: string): nat
    requires forall i :: 0 <= i < |s| ==> IsDecimal(s[i])
  {
    if s == "" then 0
    else
      var last := s[|s| - 1];
      assert IsDecimal(last);
      10 * DecimalValue(s[..|s| - 1]) + (last as int - '0' as int)
  }

  /** A non-negative number as an ostream prints it. */
  function PrintDecimal(n: nat): (s: string)
    ensures s != "" && forall i :: 0 <= i < |s| ==> IsDecimal(s[i])
  {
    if n < 10 then ['0' + n as char] else PrintDecimal(n / 10) + ['0' + (n % 10) as char]
  }

  lemma {:induction false} PrintThenReadDecimal(n: nat)
    ensures DecimalValue(PrintDecimal(n)) == n
  {
    var s := PrintDecimal(n);
    if n < 10 {
      assert s[..0] == "";
    } else {
      PrintThenReadDecimal(n / 10);
      assert s[..|s| - 1] == PrintDecimal(n / 10);
    }
  }

  function SkipSpace(s: string): string {
    if s != "" && IsSpace(s[0]) then SkipSpace(s[1..]) else s
  }

  /** The signed decimal at the start of s after white space, as atoi and stream extraction read it; 0 if none. */
  function LeadingInteger(s: string): int {
    var t := SkipSpace(s);
    if t != "" && t[0] == '-' then 0 - DecimalValue(t[1..][..DigitRun(t[1..])])
    else if t != "" && t[0] == '+' then DecimalValue(t[1..][..DigitRun(t[1..])])
    else DecimalValue(t[..DigitRun(t)])
  }
}
