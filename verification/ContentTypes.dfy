/** Content types as a client prints them: a media type and any parameters, and what the check makes of them. */
module ContentTypes {
  import opened Text
  import opened Headers
  import opened Checks
  import opened HeaderRules
  import opened PrintedRequests

  /** A parameter, section 3.1.1.1 of RFC 7231, with the optional blanks around it. */
  datatype Parameter = Parameter(key: string, value: string, before: string := "", behind: string := "")

  /** Without blanks, capitals and semicolons. */
  predicate PlainText(s: string) {
    forall i :: 0 <= i < |s| ==> !IsBlank(s[i]) && !('A' <= s[i] <= 'Z') && s[i] != ';'
  }

  predicate GoodParameter(p: Parameter) {
    && p.key != "" && PlainText(p.key) && '=' !in p.key && PlainText(p.value)
    && OptionalBlanks(p.before) && OptionalBlanks(p.behind)
  }

  predicate GoodParameters(ps: seq<Parameter>) {
    forall i :: 0 <= i < |ps| ==> GoodParameter(ps[i])
  }

  function PrintParameter(p: Parameter): string {
    p.before + (p.key + (['='] + p.value) + p.behind)
  }

  function PrintParameters(ps: seq<Parameter>): seq<string> {
    if ps == [] then [] else [PrintParameter(ps[0])] + PrintParameters(ps[1..])
  }

  /** The media type, blanks, and the parameters, each behind a semicolon. */
  function PrintType(mediaType: string, blanks: string, ps: seq<Parameter>): string {
    Join([mediaType + blanks] + PrintParameters(ps), ';')
  }

  /** What the parameters say: of two with one key, the last counts. */
  function Given(ps: seq<Parameter>, m: Map): Map {
    if ps == [] then m else Given(ps[1..], m[ps[0].key := ps[0].value])
  }

  lemma PlainStays(s: string)
    requires PlainText(s)
    ensures Lower(Trim(s)) == s
  {
    PlainValue(s);
  }

  lemma EndsPlain(key: string, value: string)
    requires key != "" && PlainText(key) && PlainText(value)
    ensures Trim(key + (['='] + value)) == key + (['='] + value)
  {
    var s := key + (['='] + value);
    assert s[0] == key[0];
    assert s[|s| - 1] == if value == "" then '=' else value[|value| - 1];
  }

  /** A printed parameter is read back. */
  lemma ParameterRead(p: Parameter)
    requires GoodParameter(p)
    ensures Directive(PrintParameter(p)) == Some((p.key, p.value))
  {
    var s := p.key + (['='] + p.value);
    TrimSkipsBlanks(p.before, s, p.behind);
    EndsPlain(p.key, p.value);
    FindCharFirst(p.key, '=', p.value);
    assert s[..|p.key|] == p.key && s[|p.key| + 1..] == p.value;
    hide Trim, Lower, PlainText;
    PlainStays(p.key);
    PlainStays(p.value);
  }

  lemma {:induction false} ParametersRead(ps: seq<Parameter>, m: Map)
    requires GoodParameters(ps)
    ensures Directives(PrintParameters(ps), m) == Given(ps, m)
    decreases ps
  {
    hide Directive, PrintParameter, GoodParameter;
    if ps != [] {
      var d := PrintParameter(ps[0]);
      ParameterRead(ps[0]);
      assert ([d] + PrintParameters(ps[1..]))[1..] == PrintParameters(ps[1..]);
      ParametersRead(ps[1..], m[ps[0].key := ps[0].value]);
    }
  }

  lemma ParameterHasNoSemicolon(p: Parameter)
    requires GoodParameter(p)
    ensures ';' !in PrintParameter(p)
  {
  }

  lemma {:induction false} NoSemicolons(ps: seq<Parameter>)
    requires GoodParameters(ps)
    ensures forall i :: 0 <= i < |PrintParameters(ps)| ==> ';' !in PrintParameters(ps)[i]
    decreases ps
  {
    hide PrintParameter, GoodParameter;
    if ps != [] {
      ParameterHasNoSemicolon(ps[0]);
      NoSemicolons(ps[1..]);
    }
  }

  /** The printed content type falls into its parts. */
  lemma TypeRead(mediaType: string, blanks: string, ps: seq<Parameter>)
    requires PlainText(mediaType) && OptionalBlanks(blanks) && GoodParameters(ps)
    ensures var t := PrintType(mediaType, blanks, ps);
      MediaType(t) == mediaType && DirectiveParts(t) == PrintParameters(ps)
  {
    var front, rest := mediaType + blanks, PrintParameters(ps);
    var t := PrintType(mediaType, blanks, ps);
    NoSemicolons(ps);
    assert ';' !in front;
    TrimSkipsBlanks("", mediaType, blanks);
    assert "" + (mediaType + blanks) == front;
    PlainStays(mediaType);
    hide PlainText, OptionalBlanks, Trim, Lower, GoodParameters, PrintParameters;
    TypeParts(front, rest);
  }

  lemma TypeParts(front: string, rest: seq<string>)
    requires ';' !in front && forall i :: 0 <= i < |rest| ==> ';' !in rest[i]
    ensures var t := Join([front] + rest, ';');
      t[..MediaTypeEnd(t)] == front && DirectiveParts(t) == rest
  {
    var t := Join([front] + rest, ';');
    JoinThenSplit([front] + rest, ';');
    SplitStep(t, ';');
    hide Split, Join, FindChar;
    var i := FindChar(t, ';');
    if i.Some? {
      SameParts(t[..i.value], Split(t[i.value + 1..], ';'), front, rest);
    } else {
      assert [t] + [] == [t];
      SameParts(t, [], front, rest);
      assert t[..|t|] == t;
    }
  }

  lemma SameParts(a: string, b: seq<string>, c: string, d: seq<string>)
    requires [a] + b == [c] + d
    ensures a == c && b == d
  {
    assert ([a] + b)[0] == a && ([c] + d)[0] == c;
    assert ([a] + b)[1..] == b && ([c] + d)[1..] == d;
  }

  /** Whether a media type with these parameters is accepted: 0, or the code. */
  function TypeAnswer(mediaType: string, own: Map): int {
    if "charset" in own && own["charset"] !in {"utf-8", "iso-8859-1"} then 415
    else if "multipart/" <= mediaType && ("boundary" in own ==> own["boundary"] == "") then 400
    else if mediaType !in CONTENT_TYPES then 415
    else 0
  }

  /** A header map with a printed content type. */
  lemma TypeJudged(m: Map, mediaType: string, blanks: string, ps: seq<Parameter>)
    requires mediaType != "" && PlainText(mediaType) && OptionalBlanks(blanks) && GoodParameters(ps)
    requires "content-type" in m && m["content-type"] == PrintType(mediaType, blanks, ps)
    ensures OwnDirectives(m) == Given(ps, map[])
    ensures var answer := TypeAnswer(mediaType, Given(ps, map[]));
      (TypeFine(m) <==> answer == 0) && (!TypeFine(m) ==> TypeCode(m) == answer)
  {
    TypeRead(mediaType, blanks, ps);
    ParametersRead(ps, map[]);
    NotEmpty(mediaType, blanks, ps);
    hide PrintType, MediaType, DirectiveParts, Directives, Given, CONTENT_TYPES, PlainText, OptionalBlanks;
  }

  lemma NotEmpty(mediaType: string, blanks: string, ps: seq<Parameter>)
    requires mediaType != ""
    ensures PrintType(mediaType, blanks, ps) != ""
  {
    assert ([mediaType + blanks] + PrintParameters(ps))[0] == mediaType + blanks;
  }
}
