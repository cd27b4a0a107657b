/** The four searches for the location that serves a path. */
module Locations {
  import opened Text
  import opened Config
  import opened Uri
  import opened PathSecurity

  /** q is the path itself, the path cut before one of its slashes, or the root. */
  predicate IsAncestor(q: string, path: string) {
    q == path || q == "/" || (0 < |q| < |path| && path[..|q|] == q && path[|q|] == '/')
  }

  /** Location k is the longest configured ancestor of the path, and the first block with that path. */
  predicate Longest(server: Server, path: string, k: int) {
    && 0 <= k < |server| && IsAncestor(server[k].path, path)
    && forall j :: 0 <= j < |server| && IsAncestor(server[j].path, path) ==>
         |server[j].path| < |server[k].path| || (server[j].path == server[k].path && k <= j)
  }

  /** The path without its last segment. */
  function Parent(path: string): string {
    var slash := FindLast(path, '/');
    if slash.None? || slash.value == 0 then "/" else path[..slash.value]
  }

  function Height(path: string): nat {
    if path == "/" then 0 else |path| + 1
  }

  /** Cutting the last segment until a location matches exactly. */
  function Climb(server: Server, path: string): (r: Option<nat>)
    ensures r.Some? ==> r.value < |server|
    decreases Height(path)
  {
    var k := FirstMatch(server, path);
    if k.Some? || path == "/" then k else Climb(server, Parent(path))
  }

  lemma AncestorsOfParent(q: string, path: string)
    requires path != "" && path[0] == '/' && path != "/"
    ensures IsAncestor(q, path) <==> q == path || IsAncestor(q, Parent(path))
    ensures Parent(path)[0] == '/' && |Parent(path)| < |path|
  {
    var slash := FindLast(path, '/').value;
    if 0 < slash {
      var parent := path[..slash];
      if 0 < |q| < |path| && path[..|q|] == q && path[|q|] == '/' {
        assert |q| <= slash;
        assert parent[..|q|] == path[..|q|];
      }
      if 0 < |q| < |parent| && parent[..|q|] == q && parent[|q|] == '/' {
        assert path[..|q|] == parent[..|q|];
      }
    }
  }

  /** Ancestors of the same length are the same. */
  lemma AncestorsByLength(q: string, r: string, path: string)
    requires path != "" && path[0] == '/' && IsAncestor(q, path) && IsAncestor(r, path) && |q| == |r|
    ensures q == r
  {
    assert path[..|path|] == path && path[..1] == "/";
  }

  /** The climb finds the longest configured ancestor, or nothing when there is none. */
  lemma {:induction false} ClimbFindsLongest(server: Server, path: string)
    requires path != "" && path[0] == '/'
    ensures Climb(server, path).Some? ==> Longest(server, path, Climb(server, path).value)
    ensures Climb(server, path).None? ==> forall j :: 0 <= j < |server| ==> !IsAncestor(server[j].path, path)
    decreases Height(path)
  {
    var k := FirstMatch(server, path);
    if k.Some? {
      forall j | 0 <= j < |server| && IsAncestor(server[j].path, path)
        ensures |server[j].path| < |path| || (server[j].path == path && k.value <= j)
      {
        if |server[j].path| == |path| {
          AncestorsByLength(server[j].path, path, path);
        }
      }
    } else if path != "/" {
      AncestorsOfParent("", path);
      ClimbFindsLongest(server, Parent(path));
      forall j | 0 <= j < |server| ensures IsAncestor(server[j].path, path)
          <==> IsAncestor(server[j].path, Parent(path)) {
        AncestorsOfParent(server[j].path, path);
      }
    }
  }

  /** What the searches answer: the full path of the file, an error, or nothing. OutOfRange is the exception of
      substr on a path without any slash. */
  datatype Match = Found(index: nat, fullPath: string) | MethodNotAllowed | Forbidden | NotFound | OutOfRange

  /** What the guard looks at. */
  function Relative(removedPath: string): string {
    if removedPath == "" then "" else removedPath[1..]
  }

  /** What the loops have cut off when they stand at an ancestor. At the root it is the whole path, except that a
      second leading slash is cut as a segment of its own. */
  function Removed(ancestor: string, path: string): string
    requires IsAncestor(ancestor, path)
  {
    if ancestor == path then ""
    else if ancestor == "/" && !("//" <= path) then path
    else path[Min(|ancestor|, |path|)..]
  }

  predicate Rooted(path: string) {
    path != "" && path[0] == '/'
  }

  /** The climb never leaves the ancestors, not even from a path without leading slash. */
  lemma {:induction false} ClimbStaysAbove(server: Server, path: string)
    ensures var k := Climb(server, path);
      k.Some? ==> IsAncestor(server[k.value].path, path)
    decreases Height(path)
  {
    if FirstMatch(server, path).None? && path != "/" {
      ClimbStaysAbove(server, Parent(path));
      var k := Climb(server, path);
      if k.Some? && server[k.value].path != "/" {
        var q, slash := server[k.value].path, FindLast(path, '/').value;
        assert path[..slash][..|q|] == path[..|q|];
      }
    }
  }

  /** The answer in terms of the climb alone. A path without leading slash is not climbed up to the root. */
  function Answer(server: Server, path: string, methods: set<string>): Match {
    var k := Climb(server, path);
    if !Rooted(path) && (k.None? || server[k.value].path == "/") then OutOfRange
    else if k.None? then NotFound
    else
      ClimbStaysAbove(server, path);
      var location := server[k.value];
      var removed := Removed(location.path, path);
      if !(methods <= location.allowedMethods) then MethodNotAllowed
      else if !Secure(Relative(removed)) then Forbidden
      else Found(k.value, location.root + removed)
  }

  /** The exception is thrown exactly for a path without leading slash, unless a location is named like it or like it
      cut at a slash. No location has such a name when all of them start with a slash. */
  lemma OutOfRangeExactly(server: Server, path: string, methods: set<string>)
    ensures Answer(server, path, methods).OutOfRange? <==>
      !Rooted(path) && forall j :: 0 <= j < |server| && server[j].path != "/" ==> !IsAncestor(server[j].path, path)
    ensures (forall location <- server :: Rooted(location.path))
        ==> (Answer(server, path, methods).OutOfRange? <==> !Rooted(path))
  {
    ClimbStaysAbove(server, path);
    if !Rooted(path) {
      ClimbFindsAny(server, path);
    }
    if exists j :: 0 <= j < |server| && server[j].path != "/" && IsAncestor(server[j].path, path)
        && Rooted(server[j].path) {
      assert Rooted(path);
    }
  }

  /** Some ancestor is found when there is one, and not the root when there is another. */
  lemma {:induction false} ClimbFindsAny(server: Server, path: string)
    requires !Rooted(path)
    ensures var k := Climb(server, path);
      (exists j :: 0 <= j < |server| && server[j].path != "/" && IsAncestor(server[j].path, path))
      ==> k.Some? && server[k.value].path != "/"
    decreases Height(path)
  {
    if FirstMatch(server, path).None? {
      var slash := FindLast(path, '/');
      forall j | 0 <= j < |server| && server[j].path != "/" && IsAncestor(server[j].path, path)
        ensures slash.Some? && slash.value > 0 && IsAncestor(server[j].path, path[..slash.value])
      {
        var q := server[j].path;
        assert path[|q|] == '/' && |q| <= slash.value;
        assert path[..slash.value][..|q|] == path[..|q|];
      }
      if slash.Some? {
        assert path[..slash.value] != "" ==> path[..slash.value][0] == path[0];
        ClimbFindsAny(server, path[..slash.value]);
      }
    }
  }

  /** Throughout the search, the path so far and what was cut off make up the original path, or the path is the root
      and everything, or nothing of the root itself, was cut off. */
  lemma CutOrRoot(original: string, path: string)
    requires original != "" && original[0] == '/' && IsAncestor(path, original)
    ensures path + Removed(path, original) == original || (path == "/" && Removed(path, original) == original)
  {
    if path == original {
      assert path + "" == original;
    } else if path != "/" || "//" <= original {
      assert original == original[..|path|] + original[|path|..];
      assert "//" <= original ==> original[..1] == "/";
    }
  }

  /** Removing the last segment, as the loops do it. */
  lemma RemovedStep(original: string, path: string)
    requires Rooted(path) == Rooted(original) && path != "/" && IsAncestor(path, original) && '/' in path
    ensures FindLast(path, '/').Some?
    ensures var slash := FindLast(path, '/').value;
      && Rooted(Parent(path)) == Rooted(original) && IsAncestor(Parent(path), original)
      && Removed(Parent(path), original) == path[slash..] + Removed(path, original)
  {
    var slash := FindLast(path, '/').value;
    var rest := Removed(path, original);
    assert path + rest == original by {
      if Rooted(original) {
        CutOrRoot(original, path);
      } else {
        assert original == original[..|path|] + original[|path|..];
      }
    }
    if slash == 0 {
      assert path[0..] == path;
      assert original[1] == path[1];
      NotTwoSlashes(original);
    } else {
      AncestorsChain(original, path, slash);
      assert original[slash..] == path[slash..] + rest;
      RemovedBehind(original, slash);
    }
  }

  lemma NotTwoSlashes(s: string)
    ensures "//" <= s <==> |s| > 1 && s[0] == '/' && s[1] == '/'
  {
    if |s| > 1 {
      assert s[..2] == [s[0], s[1]];
    }
  }

  lemma RemovedBehind(original: string, n: nat)
    requires 0 < n < |original| && original[n] == '/'
    ensures Removed(original[..n], original) == original[n..]
  {
    NotTwoSlashes(original);
  }

  lemma AncestorsChain(original: string, path: string, slash: nat)
    requires IsAncestor(path, original) && path != "/" && 0 < slash < |path| && path[slash] == '/'
    ensures slash < |original| && original[..slash] == path[..slash] && original[slash] == '/'
    ensures IsAncestor(path[..slash], original)
  {
    if path != original {
      assert original[..|path|][..slash] == original[..slash];
    }
  }

  /** One more cut of the loops, as the climb sees it. */
  lemma ClimbStep(server: Server, path: string)
    requires FirstMatch(server, path).None? && path != "/"
    ensures Climb(server, path) == Climb(server, Parent(path))
  {
  }

  /** The answer when the loops stop at a location, at the root, or without a slash to cut at. */
  lemma AnswerAt(server: Server, original: string, path: string, k: nat, methods: set<string>)
    requires FirstMatch(server, path) == Some(k) && Climb(server, original) == Climb(server, path)
    requires IsAncestor(path, original) && Rooted(path) == Rooted(original)
    ensures Climb(server, original) == Some(k) && server[k].path == path
    ensures var removed := Removed(path, original);
      Answer(server, original, methods) ==
        if !(methods <= server[k].allowedMethods) then MethodNotAllowed
        else if !Secure(Relative(removed)) then Forbidden
        else Found(k, server[k].root + removed)
  {
    hide Removed, Relative, Secure, IsAncestor;
  }

  lemma AnswerAtRoot(server: Server, original: string, methods: set<string>)
    requires FirstMatch(server, "/").None? && Climb(server, original) == Climb(server, "/") && Rooted(original)
    ensures Climb(server, original).None? && Answer(server, original, methods) == NotFound
  {
  }

  lemma AnswerThrows(server: Server, original: string, path: string, methods: set<string>)
    requires FirstMatch(server, path).None? && '/' !in path && Climb(server, original) == Climb(server, path)
    requires Rooted(path) == Rooted(original)
    ensures Answer(server, original, methods) == OutOfRange
  {
    assert Climb(server, path) == Climb(server, "/") == FirstMatch(server, "/");
    hide Removed, Relative, Secure, IsAncestor;
  }

  /** What stands behind the root of the file name: the path behind the location's, or all of it below `/`. */
  predicate Below(location: string, rest: string, path: string) {
    if location == "/" && path != "/" && !("//" <= path) then rest == path else location + rest == path
  }

  /** The answer for a path with a leading slash, by the longest configured ancestor. */
  lemma AnswerMeans(server: Server, path: string, methods: set<string>, k: nat)
    requires Rooted(path)
    ensures var m := Answer(server, path, methods);
      && !m.OutOfRange?
      && (m.NotFound? <==> forall j :: 0 <= j < |server| ==> !IsAncestor(server[j].path, path))
      && (Longest(server, path, k) ==>
            && (m.MethodNotAllowed? <==> exists verb <- methods :: verb !in server[k].allowedMethods)
            && (m.Found? ==> m.index == k && server[k].root <= m.fullPath
                             && Below(server[k].path, m.fullPath[|server[k].root|..], path))
            && (forall rest :: Below(server[k].path, rest, path) && methods <= server[k].allowedMethods ==>
                  (m.Forbidden? <==> !Secure(Relative(rest)))))
  {
    hide Secure, Climb, Removed, Below, IsAncestor, Longest, Relative;
    ClimbFindsLongest(server, path);
    var c := Climb(server, path);
    if c.Some? {
      ClimbStaysAbove(server, path);
      OneLongest(server, path, c.value, k);
      var location := server[c.value];
      var removed := Removed(location.path, path);
      LongestIsAncestor(server, path, c.value);
      RemovedBelow(location.path, path);
      assert (location.root + removed)[|location.root|..] == removed;
      forall rest | Below(location.path, rest, path) ensures rest == removed {
        BelowIsOne(location.path, rest, removed, path);
      }
    } else {
      NoLongest(server, path, k);
    }
  }

  lemma OneLongest(server: Server, path: string, j: nat, k: nat)
    requires Longest(server, path, j)
    ensures Longest(server, path, k) ==> j == k
  {
    hide IsAncestor;
  }

  lemma LongestIsAncestor(server: Server, path: string, k: nat)
    requires Longest(server, path, k)
    ensures k < |server| && IsAncestor(server[k].path, path)
  {
    hide IsAncestor;
  }

  lemma NoLongest(server: Server, path: string, k: nat)
    requires forall j :: 0 <= j < |server| ==> !IsAncestor(server[j].path, path)
    ensures !Longest(server, path, k)
  {
    hide IsAncestor;
  }

  lemma RemovedBelow(location: string, path: string)
    requires Rooted(path) && IsAncestor(location, path)
    ensures Below(location, Removed(location, path), path)
  {
    CutOrRoot(path, location);
    NotTwoSlashes(path);
  }

  lemma BelowIsOne(location: string, a: string, b: string, path: string)
    requires Below(location, a, path) && Below(location, b, path)
    ensures a == b
  {
    if location + a == location + b {
      assert (location + a)[|location|..] == a && (location + b)[|location|..] == b;
    }
  }

  /** The request's Get object: the matched location's name is left in a field. */
  class Get {
    var nameLocation: string

    constructor ()
      ensures nameLocation == ""
    {
      nameLocation := "";
    }

    /** matchLocation: the answer for the path without query. The name is that of the location found, also when the
        guard then forbids the path, and stays as it was in every other case. */
    method MatchLocation(requestPath: string, server: Server) returns (m: Match)
      modifies this
      ensures m == Answer(server, PathPart(requestPath), {"GET"})
      ensures var k := Climb(server, PathPart(requestPath));
        nameLocation == if (m.Found? || m.Forbidden?) && k.Some? then server[k.value].path else old(nameLocation)
    {
      var path := PathPart(requestPath);
      var removedPath := "";
      ghost var original := path;
      RemovedNothing(path);
      hide Climb, Removed, Relative, Secure, Answer, IsAncestor, PathPart;
      while true
        invariant nameLocation == old(nameLocation)
        invariant Rooted(path) == Rooted(original) && IsAncestor(path, original)
        invariant removedPath == Removed(path, original) && Climb(server, original) == Climb(server, path)
        decreases Height(path)
      {
        var k := FindLocation(path, server);
        if k.Some? {
          AnswerAt(server, original, path, k.value, {"GET"});
          if "GET" !in server[k.value].allowedMethods {
            return MethodNotAllowed;
          }
          nameLocation := server[k.value].path;
          var secure := IsPathSecure(Relative(removedPath));
          if !secure {
            return Forbidden;
          }
          return Found(k.value, server[k.value].root + removedPath);
        }
        if path == "/" {
          break;
        }
        var lastSlash := FindLast(path, '/');
        if lastSlash.None? {
          AnswerThrows(server, original, path, {"GET"});
          return OutOfRange;
        }
        RemovedStep(original, path);
        ClimbStep(server, path);
        removedPath := path[lastSlash.value..] + removedPath;
        path := if lastSlash.value == 0 then "/" else path[..lastSlash.value];
      }
      AnswerAtRoot(server, original, {"GET"});
      return NotFound;
    }
  }

  lemma RemovedNothing(path: string)
    ensures IsAncestor(path, path) && Removed(path, path) == ""
  {
  }

  /** The inner loop over the location blocks. */
  method FindLocation(path: string, server: Server) returns (k: Option<nat>)
    ensures k == FirstMatch(server, path)
  {
    var i := 0;
    while i < |server|
      invariant i <= |server|
      invariant forall j :: 0 <= j < i ==> server[j].path != path
    {
      if path == server[i].path {
        return Some(i);
      }
      i := i + 1;
    }
    return None;
  }

  /** checkIfAllowed: the query is not stripped, and a path without slash continues at the root. */
  method CheckIfAllowed(verb: string, server: Server, uri: string) returns (allowed: bool)
    ensures var k := Climb(server, uri);
      allowed <==> k.Some? && verb in server[k.value].allowedMethods
  {
    var path := uri;
    while true
      invariant Climb(server, uri) == Climb(server, path)
      decreases Height(path)
    {
      var k := FindLocation(path, server);
      if k.Some? {
        return verb in server[k.value].allowedMethods;
      }
      if path == "/" {
        break;
      }
      var lastSlash := FindLast(path, '/');
      if lastSlash.None? || lastSlash.value == 0 {
        path := "/";
      } else {
        path := path[..lastSlash.value];
      }
    }
    return false;
  }

  /** mapUriToPath: as matchLocation, with no look at the methods. */
  method MapUriToPath(uri: string, server: Server) returns (m: Match)
    ensures m == Answer(server, PathPart(uri), {})
  {
    var path := PathPart(uri);
    var removedPath := "";
    ghost var original := path;
    RemovedNothing(path);
    hide Climb, Removed, Relative, Secure, Answer, IsAncestor, PathPart;
    while true
      invariant Rooted(path) == Rooted(original) && IsAncestor(path, original)
      invariant removedPath == Removed(path, original) && Climb(server, original) == Climb(server, path)
      decreases Height(path)
    {
      var k := FindLocation(path, server);
      if k.Some? {
        AnswerAt(server, original, path, k.value, {});
        var secure := IsPathSecure(Relative(removedPath));
        if !secure {
          return Forbidden;
        }
        return Found(k.value, server[k.value].root + removedPath);
      }
      if path == "/" {
        break;
      }
      var lastSlash := FindLast(path, '/');
      if lastSlash.None? {
        AnswerThrows(server, original, path, {});
        return OutOfRange;
      }
      RemovedStep(original, path);
      ClimbStep(server, path);
      removedPath := path[lastSlash.value..] + removedPath;
      path := if lastSlash.value == 0 then "/" else path[..lastSlash.value];
    }
    AnswerAtRoot(server, original, {});
    return NotFound;
  }

  predicate IsPrefix(q: string, path: string) {
    q != "" && q <= path
  }

  /** Location k is the first of the longest configured string prefixes of the path. */
  predicate LongestPrefix(server: Server, path: string, k: int) {
    && 0 <= k < |server| && IsPrefix(server[k].path, path)
    && forall j :: 0 <= j < |server| && IsPrefix(server[j].path, path) ==>
         |server[j].path| < |server[k].path| || (|server[j].path| == |server[k].path| && k <= j)
  }

  /** get_location. */
  method GetLocation(requestPath: string, server: Server) returns (best: Option<nat>)
    ensures best.Some? ==> LongestPrefix(server, requestPath, best.value)
    ensures best.None? ==> forall j :: 0 <= j < |server| ==> !IsPrefix(server[j].path, requestPath)
  {
    var bestLength := 0;
    best := None;
    var i := 0;
    while i < |server|
      invariant i <= |server|
      invariant best.Some? ==> LongestPrefix(server[..i], requestPath, best.value)
      invariant best.Some? ==> bestLength == |server[best.value].path|
      invariant best.None? ==> bestLength == 0 && forall j :: 0 <= j < i ==> !IsPrefix(server[j].path, requestPath)
    {
      var locPath := server[i].path;
      FindAtStart(requestPath, locPath);
      if Find(requestPath, locPath, 0) == Some(0) {
        if |locPath| > bestLength {
          best := Some(i);
          bestLength := |locPath|;
        }
      }
      assert server[..i + 1] == server[..i] + [server[i]];
      i := i + 1;
    }
    assert server[..i] == server;
  }

  lemma FindAtStart(s: string, pat: string)
    ensures Find(s, pat, 0) == Some(0) <==> pat <= s
  {
    if pat <= s {
      assert s[0..|pat|] == pat;
      FindIs(s, pat, 0, 0);
    }
  }

  lemma LongestIsUnique(server: Server, path: string, k: int, m: int)
    requires Longest(server, path, k) && Longest(server, path, m)
    ensures k == m
  {
  }

  /** matchLocation and mapUriToPath stand at the climb from the target's path, get_location is given the whole target.
      Its choice is never shorter, and it is the same block exactly when it is an ancestor of the path. */
  lemma SearchesAgree(server: Server, uri: string, m: nat)
    requires Rooted(uri) && LongestPrefix(server, uri, m)
    ensures var path := PathPart(uri); var k := Climb(server, path);
      && (k.Some? ==> |server[k.value].path| <= |server[m].path|)
      && (k == Some(m) <==> IsAncestor(server[m].path, path))
  {
    var path := PathPart(uri);
    PathIsRooted(uri);
    ClimbFindsLongest(server, path);
    var k := Climb(server, path);
    if k.Some? {
      AncestorIsPrefix(server[k.value].path, uri);
    }
    if IsAncestor(server[m].path, path) {
      forall j | 0 <= j < |server| && IsAncestor(server[j].path, path)
        ensures |server[j].path| < |server[m].path| || (server[j].path == server[m].path && m <= j)
      {
        AncestorIsPrefix(server[j].path, uri);
        if |server[j].path| == |server[m].path| {
          AncestorsByLength(server[j].path, server[m].path, path);
        }
      }
      LongestIsUnique(server, path, k.value, m);
    }
  }

  lemma PathIsRooted(uri: string)
    requires Rooted(uri)
    ensures Rooted(PathPart(uri)) && PathPart(uri) <= uri
  {
  }

  lemma AncestorIsPrefix(q: string, uri: string)
    requires Rooted(uri) && IsAncestor(q, PathPart(uri))
    ensures IsPrefix(q, uri)
  {
    PathIsRooted(uri);
    if q == "/" {
      assert uri[..1] == "/";
    }
  }

  /** When every configured string prefix is an ancestor, the two kinds of search always agree. */
  lemma SearchesAgreeOnAncestors(server: Server, uri: string)
    requires Rooted(uri)
    requires forall j :: 0 <= j < |server| && IsPrefix(server[j].path, uri) ==>
      IsAncestor(server[j].path, PathPart(uri))
    ensures var k := Climb(server, PathPart(uri));
      && (k.Some? ==> LongestPrefix(server, uri, k.value))
      && (k.None? ==> forall j :: 0 <= j < |server| ==> !IsPrefix(server[j].path, uri))
  {
    PathIsRooted(uri);
    ClimbFindsLongest(server, PathPart(uri));
    forall j | 0 <= j < |server| && IsAncestor(server[j].path, PathPart(uri)) ensures IsPrefix(server[j].path, uri) {
      AncestorIsPrefix(server[j].path, uri);
    }
  }

  /** A climb that starts inside the query misses the path itself: it goes on with the path's parent. */
  lemma {:induction false} ClimbFromQuery(server: Server, path: string, query: string)
    requires Rooted(path) && query != "" && query[0] != '/'
    requires forall j :: 0 <= j < |server| && IsAncestor(server[j].path, path + query) ==> |server[j].path| <= |path|
    ensures Climb(server, path + query) == Climb(server, Parent(path))
    decreases |query|
  {
    var uri := path + query;
    var k, slash, inPath := FirstMatch(server, uri), FindLast(uri, '/').value, FindLast(path, '/').value;
    assert k.None? && Climb(server, uri) == Climb(server, Parent(uri));
    assert uri[inPath] == '/';
    if slash < |path| {
      assert path[slash] == '/';
      assert slash == inPath && uri[..slash] == path[..slash];
    } else {
      var cut := query[..slash - |path|];
      assert uri[..slash] == path + cut;
      forall j | 0 <= j < |server| && IsAncestor(server[j].path, path + cut) ensures |server[j].path| <= |path| {
        AncestorsOfParent(server[j].path, uri);
      }
      ClimbFromQuery(server, path, cut);
    }
  }

  /** DELETE asks checkIfAllowed with the query and mapUriToPath without: when there is one, both stand at the same
      location if and only if no location is named like the path, or like it with a part of the query. */
  lemma DeleteAgrees(server: Server, uri: string)
    requires Rooted(uri) && Suffix(uri) != ""
    ensures var path := PathPart(uri);
      Climb(server, uri) == Climb(server, path) <==>
        && (path == "/" || FirstMatch(server, path).None?)
        && forall j :: 0 <= j < |server| && IsAncestor(server[j].path, uri) ==> |server[j].path| <= |path|
  {
    var path, query := PathPart(uri), Suffix(uri);
    PathThenSuffix(uri);
    PathIsRooted(uri);
    ClimbFindsLongest(server, uri);
    ClimbFindsLongest(server, path);
    if forall j :: 0 <= j < |server| && IsAncestor(server[j].path, uri) ==> |server[j].path| <= |path| {
      ClimbFromQuery(server, path, query);
      if path != "/" {
        AncestorsOfParent("", path);
        ClimbFindsLongest(server, Parent(path));
      }
    }
  }

  /** The failing family, and what it means: a location that forbids DELETE, its parent that allows it, and any query.
      The parent grants the permission, and the file is the one below the location. */
  lemma QueryChangesPermission(server: Server, uri: string, k: nat, parent: nat)
    requires Rooted(uri) && Suffix(uri) != "" && PathPart(uri) != "/" && FirstMatch(server, PathPart(uri)) == Some(k)
    requires Climb(server, Parent(PathPart(uri))) == Some(parent)
    requires forall j :: 0 <= j < |server| && IsAncestor(server[j].path, uri) ==> |server[j].path| <= |PathPart(uri)|
    ensures Climb(server, uri) == Some(parent) && Answer(server, PathPart(uri), {}) == Found(k, server[k].root)
  {
    PathThenSuffix(uri);
    PathIsRooted(uri);
    ClimbFromQuery(server, PathPart(uri), Suffix(uri));
    assert server[k].root + "" == server[k].root;
  }

  const DELETE_AT_ROOT: Server := [Location("/", "/www", {"DELETE"}, []), Location("/a", "/safe", {"GET"}, [])]

  /** DELETE /a?x is allowed by the root and maps into the location that does not allow it. */
  lemma DeleteWithQuery()
    ensures var server, uri := DELETE_AT_ROOT, "/a?x";
      && Climb(server, uri) == Some(0) && "DELETE" in server[0].allowedMethods
      && Answer(server, PathPart(uri), {}) == Found(1, "/safe") && "DELETE" !in server[1].allowedMethods
  {
    var server, uri := DELETE_AT_ROOT, "/a?x";
    assert FindChar(uri, '?') == Some(2) && FindChar(uri, '#').None?;
    assert PathPart(uri) == "/a" && Suffix(uri) == "?x";
    assert FirstMatch(server[1..], "/a") == Some(0);
    assert FindLast("/a", '/') == Some(0);
    assert Parent("/a") == "/" && FirstMatch(server, "/") == Some(0);
    QueryChangesPermission(server, uri, 1, 0);
  }

  /** What the guard looks at for a path: what the search cuts off, without its slash. */
  function Remainder(server: Server, path: string): string {
    var k := Climb(server, path);
    if k.None? then ""
    else
      ClimbStaysAbove(server, path);
      Relative(Removed(server[k.value].path, path))
  }

  /** What the search cuts off a tidy path is tidy behind its slash. */
  /** What is cut off is the end of the path, from a slash on. */
  lemma RemovedIsEnd(ancestor: string, path: string)
    requires Rooted(path) && IsAncestor(ancestor, path)
    ensures var removed := Removed(ancestor, path);
      removed == "" || (|removed| <= |path| && path[|path| - |removed|..] == removed && removed[0] == '/')
  {
    var n := |ancestor|;
    if ancestor == path {
    } else if ancestor == "/" && !("//" <= path) {
      assert path[0..] == path;
    } else {
      assert Removed(ancestor, path) == path[n..] && |path[n..]| == |path| - n;
      NotTwoSlashes(path);
    }
  }

  lemma RemovedIsTidy(ancestor: string, path: string)
    requires Rooted(path) && Tidy(path) && IsAncestor(ancestor, path)
    ensures var s := Relative(Removed(ancestor, path));
      Tidy(s) && (s == "" || s[0] != '/') && ('%' !in path ==> '%' !in s)
  {
    var removed := Removed(ancestor, path);
    RemovedIsEnd(ancestor, path);
    hide Removed, IsAncestor;
    if removed != "" {
      var n := |path| - |removed|;
      assert path[n + 1..] == removed[1..];
      assert path[n] == '/';
      TidySlice(path, removed[1..], n + 1);
    }
  }

  lemma TidySlice(s: string, t: string, n: nat)
    requires Tidy(s) && n + |t| <= |s| && s[n..n + |t|] == t
    ensures Tidy(t) && ('%' !in s ==> '%' !in t)
  {
    forall i | 0 <= i < |t| ensures t[i] == s[n + i] {
    }
  }

  /** The path of an accepted target. */
  lemma AcceptedIsTidy(uri: string)
    requires CheckUri(uri).Accepted?
    ensures var path := PathPart(CheckUri(uri).uri);
      Rooted(path) && Tidy(path) && ('%' !in UrlDecode(PathPart(uri)) ==> '%' !in path)
  {
    AcceptedUri(uri);
    var normal, accepted := Normalize(UrlDecode(PathPart(uri))), CheckUri(uri).uri;
    NormalizedIsTidy(UrlDecode(PathPart(uri)));
    PathThenSuffix(uri);
    var path := PathPart(accepted);
    StaysInPath(normal, Suffix(uri));
    assert normal[0..0 + |path|] == path;
    TidySlice(normal, path, 0);
  }

  /** Exactly when a target that checkURI accepted is forbidden by the guard: a location is found and allows the method,
      and behind it two dots are still percent-encoded after the decoding. */
  lemma AcceptedIsForbidden(server: Server, uri: string, methods: set<string>)
    requires CheckUri(uri).Accepted?
    ensures var path := PathPart(CheckUri(uri).uri); var k := Climb(server, path);
      Answer(server, path, methods).Forbidden? <==>
        k.Some? && methods <= server[k.value].allowedMethods && EncodedDots(Remainder(server, path))
  {
    AcceptedIsTidy(uri);
    var path := PathPart(CheckUri(uri).uri);
    hide CheckUri, Tidy, Secure, EncodedDots, Removed;
    ClimbStaysAbove(server, path);
    if Climb(server, path).Some? {
      RemovedIsTidy(server[Climb(server, path).value].path, path);
      TidyIsSecure(Remainder(server, path));
    }
  }

  /** A path checkURI has nothing against but for its segments. */
  predicate Printable(s: string) {
    forall i :: 0 <= i < |s| ==> s[i] as int < 256 && !BadByte(s[i]) && s[i] != '?' && s[i] != '#'
  }

  /** Every spelling of a printable path is printable. */
  lemma {:induction false} EncodedIsPrintable(s: string, how: seq<Spelling>)
    requires Printable(s) && Spells(how, s)
    ensures var u := PercentEncode(s, how);
      && |u| <= 3 * |s| && (s != "" && how[0].AsIs? ==> u != "" && u[0] == s[0])
      && Printable(u)
  {
    if s != "" {
      EncodedIsPrintable(s[1..], how[1..]);
      SpelledIsPrintable(s[0], how[0]);
      hide Spell;
    }
  }

  lemma SpelledIsPrintable(c: char, how: Spelling)
    requires c as int < 256 && Printable([c])
    ensures Printable(Spell(c, how)) && 0 < |Spell(c, how)| <= 3 && (how.AsIs? ==> Spell(c, how)[0] == c)
  {
    assert [c][0] == c;
  }

  lemma NoSuffix(s: string)
    requires Printable(s)
    ensures PathPart(s) == s && Suffix(s) == ""
  {
  }

  lemma NormalFormStarts(path: string)
    requires NormalForm(path)
    ensures Rooted(path)
  {
  }

  /** The targets that are forbidden: with its percent signs escaped once more, and any other bytes behind its first
      slash, any path with encoded dots is accepted, decodes to itself, and is rejected below the root. */
  lemma EncodedTwice(path: string, how: seq<Spelling>, root: string, methods: set<string>)
    requires NormalForm(path) && !HasDots(path) && 3 * |path| <= 8000 && EncodedDots(path[1..])
    requires Printable(path) && Spells(how, path) && how[0].AsIs?
    ensures CheckUri(PercentEncode(path, how)) == Accepted(path)
    ensures Answer([Location("/", root, methods, [])], PathPart(path), methods).Forbidden?
  {
    var uri, server := PercentEncode(path, how), [Location("/", root, methods, [])];
    EncodedIsPrintable(path, how);
    EncodeThenDecode(path, how);
    NormalizeNormalizes(path);
    NoSuffix(uri);
    NoSuffix(path);
    NormalFormStarts(path);
    hide NormalForm, Normalize, UrlDecode, PercentEncode, PathPart, Suffix, HasDots, CheckUri, EncodedDots;
    AcceptedUri(uri);
    assert path + "" == path;
    hide Printable;
    ForbiddenBelowRoot(server, uri, path, methods);
  }

  lemma ForbiddenBelowRoot(server: Server, uri: string, path: string, methods: set<string>)
    requires |server| == 1 && server[0].path == "/" && server[0].allowedMethods == methods
    requires CheckUri(uri) == Accepted(path) && PathPart(path) == path && EncodedDots(path[1..])
    ensures Answer(server, path, methods).Forbidden?
  {
    AcceptedIsTidy(uri);
    AcceptedIsForbidden(server, uri, methods);
    ClimbFindsLongest(server, path);
    assert IsAncestor(server[0].path, path);
    NothingContained("%2e%2e");
    NothingContained("%2E%2E");
    NotTwoSlashes(path);
    assert Removed("/", path) == if path == "/" then "" else path;
  }

  lemma EncodedDotsShape()
    ensures var path := "/%2e%2e";
      NormalForm(path) && !HasDots(path) && Printable(path) && path[1..] == "%2e%2e"
  {
    var path := "/%2e%2e";
    assert path[1..] == "%2e%2e";
    assert Split("%2e%2e", '/') == ["%2e%2e"];
    DotsAt(path);
  }

  lemma ContainsItself(s: string)
    ensures Contains(s, s)
  {
    ContainsMiddle("", s, "");
    assert "" + (s + "") == s;
  }

  /** The shortest of them: its percent signs escaped, `/%252e%252e`, or more. */
  lemma EncodedDotsAreForbidden(how: seq<Spelling>, root: string, methods: set<string>)
    requires Spells(how, "/%2e%2e") && how[0].AsIs?
    ensures CheckUri(PercentEncode("/%2e%2e", how)) == Accepted("/%2e%2e")
    ensures Answer([Location("/", root, methods, [])], PathPart("/%2e%2e"), methods).Forbidden?
  {
    EncodedDotsShape();
    ContainsItself("%2e%2e");
    hide NormalForm, HasDots, Printable, CheckUri, PercentEncode, Answer, PathPart, Contains, Spells;
    EncodedTwice("/%2e%2e", how, root, methods);
  }

  /** So a target whose decoded path holds no percent sign is never forbidden. */
  lemma AcceptedIsNotForbidden(server: Server, uri: string, methods: set<string>)
    requires CheckUri(uri).Accepted? && '%' !in UrlDecode(PathPart(uri))
    ensures var path := PathPart(CheckUri(uri).uri);
      path != "" && path[0] == '/' && !Answer(server, path, methods).Forbidden?
  {
    AcceptedIsTidy(uri);
    var path := PathPart(CheckUri(uri).uri);
    hide CheckUri, Tidy, Secure, EncodedDots, Removed;
    ClimbStaysAbove(server, path);
    if Climb(server, path).Some? {
      RemovedIsTidy(server[Climb(server, path).value].path, path);
      TidyIsSecure(Remainder(server, path));
    }
  }

  /** The path part of an accepted target ends at the latest where its suffix starts. */
  lemma StaysInPath(normal: string, suffix: string)
    requires normal != "" && normal[0] == '/'
    requires suffix == "" || suffix[0] == '?' || suffix[0] == '#'
    ensures PathPart(normal + suffix) <= normal && PathPart(normal + suffix) != ""
  {
    var s := normal + suffix;
    var i := Separator(s);
    if suffix != "" {
      assert s[|normal|] == suffix[0];
    } else {
      assert s == normal;
    }
    if i.Some? {
      assert i.value <= |normal|;
      assert s[..i.value] == normal[..i.value];
    }
  }
}
