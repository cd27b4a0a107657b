/** is_path_secure: the guard on the part of a path that is appended to a location's root. */
module PathSecurity {
  import opened Text
  import opened Uri

  /** A whole segment of two dots stands at i. */
  predicate DotSegmentAt(path: string, i: int) {
    && At(path, DOTS, i)
    && (i == 0 || path[i - 1] == '/')
    && (i + 2 >= |path| || path[i + 2] == '/')
  }

  predicate HasDotSegment(path: string) {
    exists i :: 0 <= i < |path| && DotSegmentAt(path, i)
  }

  predicate HasEscapedDots(path: string) {
    Contains(path, "%2e%2e") || Contains(path, "%2E%2E") || Contains(path, "..%2f") || Contains(path, "..%5c")
  }

  predicate Secure(path: string) {
    path == "" || (!At(path, DOTS, 0) && !HasDotSegment(path) && !HasEscapedDots(path) && !Contains(path, "//")
        && path[0] != '/')
  }

  /** is_path_secure: skipping two bytes behind every pair of dots misses no segment. */
  method IsPathSecure(fullPath: string) returns (secure: bool)
    ensures secure == Secure(fullPath)
  {
    if fullPath == "" {
      return true;
    }
    if Find(fullPath, DOTS, 0) == Some(0) {
      return false;
    }
    var pos := 0;
    while true
      invariant forall i :: 0 <= i < pos ==> !DotSegmentAt(fullPath, i)
      decreases |fullPath| - pos
    {
      var found := Find(fullPath, DOTS, pos);
      if found.None? {
        break;
      }
      pos := found.value;
      var validPrefix := pos == 0 || fullPath[pos - 1] == '/';
      var validSuffix := pos + 2 >= |fullPath| || fullPath[pos + 2] == '/';
      if validPrefix && validSuffix {
        assert DotSegmentAt(fullPath, pos);
        return false;
      }
      assert fullPath[pos] == fullPath[pos..pos + 2][0] == '.';
      pos := pos + 2;
    }
    if Contains(fullPath, "%2e%2e") || Contains(fullPath, "%2E%2E") || Contains(fullPath, "..%2f")
        || Contains(fullPath, "..%5c") {
      return false;
    }
    if Contains(fullPath, "//") {
      return false;
    }
    if fullPath[0] == '/' {
      return false;
    }
    return true;
  }

  /** A dot segment by position is a piece ".." between slashes. */
  lemma {:induction false} DotSegmentIsPiece(path: string)
    ensures HasDotSegment(path) <==> DOTS in Split(path, '/')
    decreases |path|
  {
    var slash := FindChar(path, '/');
    if slash.None? {
      if i :| 0 <= i < |path| && DotSegmentAt(path, i) {
        assert i == 0 && path[..2] == DOTS;
        assert path == path[..2];
      }
      if path == DOTS {
        assert path[0..2] == DOTS;
        assert DotSegmentAt(path, 0);
      }
      assert Split(path, '/') == [path];
    } else {
      var n := slash.value;
      var a, b := path[..n], path[n + 1..];
      DotSegmentIsPiece(b);
      forall i | 0 <= i < |path| ensures DotSegmentAt(path, i)
          <==> (i == 0 && a == DOTS) || (n < i && DotSegmentAt(b, i - n - 1)) {
        DotSegmentSplits(path, n, i);
      }
      if i :| 0 <= i < |b| && DotSegmentAt(b, i) {
        assert DotSegmentAt(path, n + 1 + i);
      }
      if a == DOTS {
        assert DotSegmentAt(path, 0);
      }
      assert Split(path, '/') == [a] + Split(b, '/');
    }
  }

  lemma AtDots(s: string, i: int)
    ensures At(s, DOTS, i) <==> 0 <= i && i + 1 < |s| && s[i] == '.' && s[i + 1] == '.'
  {
    if 0 <= i && i + 2 <= |s| {
      assert s[i..i + 2] == [s[i], s[i + 1]];
    }
  }

  lemma DotSegmentSplits(path: string, n: nat, i: nat)
    requires FindChar(path, '/') == Some(n) && i < |path|
    ensures DotSegmentAt(path, i)
        <==> (i == 0 && path[..n] == DOTS) || (n < i && DotSegmentAt(path[n + 1..], i - n - 1))
  {
    assert path[n] == '/' && forall k :: 0 <= k < n ==> path[k] != '/';
    hide FindChar, DotSegmentAt;
    if i <= n {
      DotSegmentBefore(path, n, i);
    } else {
      DotSegmentBehind(path, n, i);
    }
  }

  lemma DotSegmentBefore(path: string, n: nat, i: nat)
    requires i <= n < |path| && path[n] == '/' && forall k :: 0 <= k < n ==> path[k] != '/'
    ensures DotSegmentAt(path, i) <==> i == 0 && path[..n] == DOTS
  {
    AtDots(path, i);
    TwoDots(path, n);
    hide At;
  }

  lemma DotSegmentBehind(path: string, n: nat, i: nat)
    requires n < i < |path| && path[n] == '/'
    ensures DotSegmentAt(path, i) <==> DotSegmentAt(path[n + 1..], i - n - 1)
  {
    AtDots(path, i);
    AtDots(path[n + 1..], i - n - 1);
    hide At;
  }

  lemma TwoDots(path: string, n: nat)
    requires n <= |path|
    ensures path[..n] == DOTS <==> n == 2 && path[0] == '.' && path[1] == '.'
  {
    if n == 2 {
      assert path[..n] == [path[0], path[1]];
    }
  }

  lemma TwoSlashesAt(s: string, i: nat)
    ensures At(s, "//", i) <==> i + 1 < |s| && s[i] == '/' && s[i + 1] == '/'
  {
    if i + 2 <= |s| {
      assert s[i..i + 2] == [s[i], s[i + 1]];
    }
  }

  predicate SlashPair(path: string) {
    exists i :: 0 <= i < |path| - 1 && path[i] == '/' && path[i + 1] == '/'
  }

  lemma SlashPairMeans(path: string)
    ensures Contains(path, "//") <==> SlashPair(path)
  {
    hide At;
    if Contains(path, "//") {
      TwoSlashesAt(path, Find(path, "//", 0).value);
    }
    if i :| 0 <= i < |path| - 1 && path[i] == '/' && path[i + 1] == '/' {
      TwoSlashesAt(path, i);
    }
  }

  /** Exactly what the guard accepts: nothing, or a path that does not start with a slash or two dots, with no `..`
      segment, no empty one inside, and none of the four encoded forms. */
  lemma SecureMeans(path: string)
    ensures Secure(path) <==>
      path == "" || (DOTS !in Split(path, '/') && path[0] != '/' && !(DOTS <= path) && !SlashPair(path)
                     && forall pat <- ["%2e%2e", "%2E%2E", "..%2f", "..%5c"] :: !Contains(path, pat))
  {
    if path != "" {
      DotSegmentIsPiece(path);
      SlashPairMeans(path);
      assert At(path, DOTS, 0) <==> DOTS <= path;
      var four := ["%2e%2e", "%2E%2E", "..%2f", "..%5c"];
      assert four[0] in four && four[1] in four && four[2] in four && four[3] in four;
      hide At, Contains, HasDotSegment, SlashPair, Split;
    }
  }

  /** No two dots and no two slashes in a row. */
  predicate Tidy(s: string) {
    forall i :: 0 <= i < |s| - 1 ==> !(s[i] == '.' && s[i + 1] == '.') && !(s[i] == '/' && s[i + 1] == '/')
  }

  /** Two dots that are still percent-encoded, in one letter case. */
  predicate EncodedDots(s: string) {
    Contains(s, "%2e%2e") || Contains(s, "%2E%2E")
  }

  lemma PairAt(s: string, pat: string, i: int)
    requires At(s, pat, i) && |pat| >= 2
    ensures 0 <= i < |s| - 1 && s[i] == pat[0] && s[i + 1] == pat[1]
  {
    assert s[i] == s[i..i + |pat|][0] && s[i + 1] == s[i..i + |pat|][1];
  }

  /** Of a tidy text without leading slash the guard rejects exactly one that has such dots. */
  lemma TidyIsSecure(s: string)
    requires Tidy(s) && (s == "" || s[0] != '/')
    ensures Secure(s) <==> !EncodedDots(s)
    ensures '%' !in s ==> Secure(s)
  {
    forall i | At(s, DOTS, i) ensures false {
      PairAt(s, DOTS, i);
    }
    NoPair(s, "//");
    NoPair(s, "..%2f");
    NoPair(s, "..%5c");
    if s == "" {
      NothingContained("%2e%2e");
      NothingContained("%2E%2E");
    }
    if '%' !in s {
      NoPercent(s, "%2e%2e", 0);
      NoPercent(s, "%2E%2E", 0);
    }
  }

  lemma NoPair(s: string, pat: string)
    requires Tidy(s) && |pat| >= 2 && (pat[0] == pat[1] == '.' || pat[0] == pat[1] == '/')
    ensures !Contains(s, pat)
  {
    if Contains(s, pat) {
      PairAt(s, pat, Find(s, pat, 0).value);
    }
  }

  lemma NothingContained(pat: string)
    requires pat != ""
    ensures !Contains("", pat)
  {
  }

  lemma NoPercent(s: string, pat: string, k: nat)
    requires '%' !in s && k < |pat| && pat[k] == '%'
    ensures !Contains(s, pat)
  {
    forall i: int ensures !At(s, pat, i) {
      AtChar(s, pat, i, k);
    }
  }

  lemma {:induction false} NoEmptyPiece(s: string)
    requires forall piece <- Split(s, '/') :: piece != ""
    ensures s != "" && s[0] != '/' && forall i :: 0 <= i < |s| - 1 ==> !(s[i] == '/' && s[i + 1] == '/')
    decreases |s|
  {
    var slash := FindChar(s, '/');
    if slash.Some? {
      var n, b := slash.value, s[slash.value + 1..];
      assert Split(s, '/') == [s[..n]] + Split(b, '/');
      assert s[..n] in Split(s, '/');
      forall piece | piece in Split(b, '/') ensures piece != "" {
        assert piece in Split(s, '/');
      }
      NoEmptyPiece(b);
      forall i | 0 <= i < |s| - 1 && s[i] == '/' ensures s[i + 1] != '/' {
        if i > n {
          assert s[i] == b[i - n - 1] && s[i + 1] == b[i - n];
        } else {
          assert i == n && s[i + 1] == b[0];
        }
      }
    } else {
      assert Split(s, '/') == [s];
      assert s in Split(s, '/');
    }
  }

  lemma {:induction false} SplitChars(s: string, c: char)
    requires c !in s
    ensures forall piece <- Split(s, '/') :: c !in piece
    decreases |s|
  {
    var slash := FindChar(s, '/');
    if slash.Some? {
      SplitChars(s[slash.value + 1..], c);
    }
  }

  lemma {:induction false} ResolveChars(tokens: seq<string>, stack: seq<string>, c: char)
    requires forall t <- tokens :: c !in t
    requires forall t <- stack :: c !in t
    ensures forall t <- Resolve(tokens, stack) :: c !in t
    decreases tokens
  {
    if tokens != [] {
      ResolveChars(tokens[1..], Push(stack, tokens[0]), c);
    }
  }

  lemma {:induction false} JoinChars(pieces: seq<string>, c: char)
    requires c != '/' && forall t <- pieces :: c !in t
    ensures c !in Join(pieces, '/')
    decreases pieces
  {
    if |pieces| > 1 {
      JoinChars(pieces[1..], c);
      assert pieces[0] in pieces;
    }
  }

  /** The normal form of a path without two dots in a row is tidy, and has no percent sign the path has not. */
  lemma NormalizedIsTidy(decoded: string)
    requires !HasDots(decoded)
    ensures Tidy(Normalize(decoded)) && ('%' !in decoded ==> '%' !in Normalize(decoded))
  {
    var path := Normalize(decoded);
    NormalizeHasNoDots(decoded);
    DotsAt(path);
    NormalizeNormalizes(decoded);
    if '%' !in decoded {
      SplitChars(decoded, '%');
      ResolveChars(Split(decoded, '/'), [], '%');
      JoinChars(Segments(decoded), '%');
    }
    if path != "/" {
      NoEmptyPiece(path[1..]);
      forall i | 0 <= i < |path| - 1 && path[i] == '/' ensures path[i + 1] != '/' {
        assert path[i + 1] == path[1..][i];
        if 0 < i {
          assert path[i] == path[1..][i - 1];
        }
      }
    }
  }
}
