/** Config::_checkRedirectionLoops: no chain of redirections inside the server may come back on itself. */
module Redirects {
  import opened Text
  import opened Config

  /** An absolute URL, which is never followed. */
  predicate External(target: string) {
    Find(target, "http://", 0) == Some(0) || Find(target, "https://", 0) == Some(0)
  }

  /** targetFound and nextTarget after the search through the remaining servers. An external target clears the flag
      but stays in nextTarget while the search goes on. */
  function Search(servers: Cluster, path: string, nextTarget: string): (bool, string) {
    if servers == [] then (false, nextTarget)
    else
      var k := FirstMatch(servers[0], path);
      if k.None? then Search(servers[1..], path, nextTarget)
      else
        var redirects := servers[0][k.value].redirects;
        if redirects == [] then (true, nextTarget)
        else if External(redirects[0].1) then Search(servers[1..], path, redirects[0].1)
        else (true, redirects[0].1)
  }

  /** Where a chain that stands at `path` goes on. */
  function Next(cluster: Cluster, path: string): Option<string> {
    var (found, target) := Search(cluster, path, "");
    if !found || target == "" then None else Some(target)
  }

  /** The n-th element of the chain that starts at a location's path and takes one of its returns. */
  function Chain(cluster: Cluster, path: string, target: string, n: nat): Option<string> {
    if n == 0 then Some(path)
    else if n == 1 then Some(target)
    else
      var before := Chain(cluster, path, target, n - 1);
      if before.None? then None else Next(cluster, before.value)
  }

  ghost predicate Repeats(cluster: Cluster, path: string, target: string) {
    exists i, j :: 0 <= i < j && Chain(cluster, path, target, j).Some?
                   && Chain(cluster, path, target, i) == Chain(cluster, path, target, j)
  }

  /** Return j of location i of server s is internal and its chain repeats. */
  ghost predicate Loops(cluster: Cluster, s: int, i: int, j: int) {
    && 0 <= s < |cluster| && 0 <= i < |cluster[s]| && 0 <= j < |cluster[s][i].redirects|
    && var target := cluster[s][i].redirects[j].1;
       !External(target) && Repeats(cluster, cluster[s][i].path, target)
  }

  ghost predicate Rejected(cluster: Cluster) {
    exists s, i, j :: Loops(cluster, s, i, j)
  }

  /** Every element of a chain is its path, its target, or one of these. */
  function FirstReturns(cluster: Cluster): set<string> {
    set s, i | 0 <= s < |cluster| && 0 <= i < |cluster[s]| && cluster[s][i].redirects != [] ::
      cluster[s][i].redirects[0].1
  }

  lemma {:induction false} SearchStaysInside(cluster: Cluster, servers: Cluster, path: string, carry: string)
    requires forall server <- servers :: server in cluster
    requires carry == "" || carry in FirstReturns(cluster)
    ensures Search(servers, path, carry).1 == "" || Search(servers, path, carry).1 in FirstReturns(cluster)
    decreases servers
  {
    if servers != [] {
      var k := FirstMatch(servers[0], path);
      if k.Some? && servers[0][k.value].redirects != [] {
        assert servers[0] in cluster;
        var s :| 0 <= s < |cluster| && cluster[s] == servers[0];
        assert cluster[s][k.value].redirects[0].1 in FirstReturns(cluster);
        SearchStaysInside(cluster, servers[1..], path, servers[0][k.value].redirects[0].1);
      }
      SearchStaysInside(cluster, servers[1..], path, carry);
    }
  }

  lemma {:induction false} ChainEnds(cluster: Cluster, path: string, target: string, n: nat, m: nat)
    requires n <= m && Chain(cluster, path, target, n).None?
    ensures Chain(cluster, path, target, m).None?
    decreases m
  {
    if n < m {
      ChainEnds(cluster, path, target, n, m - 1);
    }
  }

  /** The search through all servers, flag and target updated in place. */
  method FindNext(cluster: Cluster, currentTarget: string) returns (targetFound: bool, nextTarget: string)
    ensures (targetFound, nextTarget) == Search(cluster, currentTarget, "")
  {
    targetFound, nextTarget := false, "";
    var it2 := 0;
    while it2 < |cluster|
      invariant it2 <= |cluster| && !targetFound
      invariant Search(cluster, currentTarget, "") == Search(cluster[it2..], currentTarget, nextTarget)
    {
      var k := 0;
      var server := cluster[it2];
      ghost var before := nextTarget;
      assert cluster[it2..][1..] == cluster[it2 + 1..];
      while k < |server|
        invariant k <= |server| && !targetFound && nextTarget == before
        invariant forall m :: 0 <= m < k ==> server[m].path != currentTarget
      {
        if currentTarget == server[k].path {
          assert FirstMatch(server, currentTarget) == Some(k);
          targetFound := true;
          if server[k].redirects != [] {
            nextTarget := server[k].redirects[0].1;
            if External(nextTarget) {
              targetFound := false;
            }
          }
          break;
        }
        k := k + 1;
      }
      if targetFound {
        return;
      }
      it2 := it2 + 1;
    }
  }

  /** `chain` lists the elements of the chain up to here; none came twice. */
  ghost predicate Walked(cluster: Cluster, path: string, target: string, chain: seq<string>) {
    && (forall n :: 0 <= n < |chain| ==> Chain(cluster, path, target, n) == Some(chain[n]))
    && (forall i, j :: 0 <= i < j < |chain| ==> chain[i] != chain[j])
  }

  lemma WalkedOn(cluster: Cluster, path: string, target: string, chain: seq<string>, next: string)
    requires chain != [] && Walked(cluster, path, target, chain)
    requires Chain(cluster, path, target, |chain|) == Some(next)
    ensures next !in chain ==> Walked(cluster, path, target, chain + [next])
    ensures next in chain ==> Repeats(cluster, path, target)
    ensures Chain(cluster, path, target, |chain + [next]|) == Next(cluster, next)
  {
    ChainStep(cluster, path, target, |chain|);
    hide Chain, Next;
    if next in chain {
      var i :| 0 <= i < |chain| && chain[i] == next;
      RepeatsAt(cluster, path, target, i, |chain|);
    } else {
      WalkedFresh(cluster, path, target, chain, next);
    }
  }

  lemma ChainStep(cluster: Cluster, path: string, target: string, n: nat)
    requires 0 < n && Chain(cluster, path, target, n).Some?
    ensures Chain(cluster, path, target, n + 1) == Next(cluster, Chain(cluster, path, target, n).value)
  {
    hide Next;
  }

  lemma RepeatsAt(cluster: Cluster, path: string, target: string, i: nat, j: nat)
    requires i < j && Chain(cluster, path, target, j).Some?
    requires Chain(cluster, path, target, i) == Chain(cluster, path, target, j)
    ensures Repeats(cluster, path, target)
  {
    hide Chain;
  }

  lemma WalkedFresh(cluster: Cluster, path: string, target: string, chain: seq<string>, next: string)
    requires Walked(cluster, path, target, chain) && next !in chain
    requires Chain(cluster, path, target, |chain|) == Some(next)
    ensures Walked(cluster, path, target, chain + [next])
  {
    hide Chain;
    var more := chain + [next];
    forall i, j | 0 <= i < j < |more| ensures more[i] != more[j] {
      assert more[i] == chain[i] && (j < |chain| ==> more[j] == chain[j]);
    }
  }

  lemma NoRepeat(cluster: Cluster, path: string, target: string, chain: seq<string>)
    requires Chain(cluster, path, target, |chain|).None? && Walked(cluster, path, target, chain)
    ensures !Repeats(cluster, path, target)
  {
    forall j: nat | |chain| <= j ensures Chain(cluster, path, target, j).None? {
      ChainEnds(cluster, path, target, |chain|, j);
    }
  }

  /** The while (true) loop: it stops on every configuration, because each turn visits a return target, or the first
      two elements, for the first time; it finds a loop exactly when the chain repeats. */
  method WalkChain(cluster: Cluster, currentPath: string, target: string) returns (loops: bool)
    ensures loops <==> Repeats(cluster, currentPath, target)
  {
    ghost var all := FirstReturns(cluster) + {currentPath, target};
    ghost var chain := [currentPath];
    var visited := {currentPath};
    var currentTarget := target;
    while true
      invariant chain != [] && currentTarget in all && visited <= all
      invariant Chain(cluster, currentPath, target, |chain|) == Some(currentTarget)
      invariant Walked(cluster, currentPath, target, chain)
      invariant forall v :: v in visited <==> v in chain
      decreases |all - visited|
    {
      WalkedOn(cluster, currentPath, target, chain, currentTarget);
      if currentTarget in visited {
        return true;
      }
      assert all - (visited + {currentTarget}) == (all - visited) - {currentTarget};
      visited := visited + {currentTarget};
      chain := chain + [currentTarget];
      var targetFound, nextTarget := FindNext(cluster, currentTarget);
      if !targetFound || nextTarget == "" {
        NoRepeat(cluster, currentPath, target, chain);
        return false;
      }
      SearchStaysInside(cluster, cluster, currentTarget, "");
      currentTarget := nextTarget;
    }
  }

  datatype Verdict = Accepted | LoopDetected(path: string, target: string)

  /** The whole check: it throws exactly when some internal return starts a chain that repeats. */
  method CheckRedirectionLoops(cluster: Cluster) returns (v: Verdict)
    ensures v.LoopDetected? <==> Rejected(cluster)
    ensures v.LoopDetected? ==> Repeats(cluster, v.path, v.target)
  {
    var s := 0;
    while s < |cluster|
      invariant s <= |cluster|
      invariant forall s', i', j' :: 0 <= s' < s ==> !Loops(cluster, s', i', j')
    {
      var i := 0;
      while i < |cluster[s]|
        invariant i <= |cluster[s]|
        invariant forall i', j' :: 0 <= i' < i ==> !Loops(cluster, s, i', j')
      {
        var loc := cluster[s][i];
        var j := 0;
        while j < |loc.redirects|
          invariant j <= |loc.redirects|
          invariant forall j' :: 0 <= j' < j ==> !Loops(cluster, s, i, j')
        {
          var target := loc.redirects[j].1;
          if !External(target) {
            var loops := WalkChain(cluster, loc.path, target);
            if loops {
              assert Loops(cluster, s, i, j);
              return LoopDetected(loc.path, target);
            }
          }
          j := j + 1;
        }
        i := i + 1;
      }
      s := s + 1;
    }
    v := Accepted;
  }

  /** n steps in the graph whose edges lead from a path to where a chain goes on. */
  function Walk(cluster: Cluster, path: string, n: nat): Option<string> {
    if n == 0 then Some(path)
    else
      var before := Walk(cluster, path, n - 1);
      if before.None? then None else Next(cluster, before.value)
  }

  /** An internal step is the first return of some location with that path. */
  lemma {:induction false} InternalStep(servers: Cluster, path: string, carry: string) returns (s: nat, i: nat)
    requires Search(servers, path, carry).0
    requires var t := Search(servers, path, carry).1; t != "" && !External(t) && (carry == "" || External(carry))
    ensures s < |servers| && i < |servers[s]| && servers[s][i].path == path && servers[s][i].redirects != []
    ensures servers[s][i].redirects[0].1 == Search(servers, path, carry).1
    decreases servers
  {
    var k := FirstMatch(servers[0], path);
    if k.Some? && servers[0][k.value].redirects != [] && !External(servers[0][k.value].redirects[0].1) {
      s, i := 0, k.value;
    } else {
      var carry' := if k.Some? then servers[0][k.value].redirects[0].1 else carry;
      s, i := InternalStep(servers[1..], path, carry');
      s := s + 1;
    }
  }

  lemma {:induction false} WalkIsChain(cluster: Cluster, path: string, target: string, n: nat)
    requires Next(cluster, path) == Some(target)
    ensures Chain(cluster, path, target, n) == Walk(cluster, path, n)
  {
    if n == 1 {
      assert Walk(cluster, path, 0) == Some(path);
    } else if n > 1 {
      WalkIsChain(cluster, path, target, n - 1);
    }
  }

  /** In an accepted configuration no cycle takes an internal step. */
  lemma AcceptedHasNoInternalCycle(cluster: Cluster, path: string, n: nat)
    requires !Rejected(cluster) && 0 < n && Walk(cluster, path, n) == Some(path)
    ensures Next(cluster, path).Some? && External(Next(cluster, path).value)
  {
    WalkStarts(cluster, path, n);
    var target := Next(cluster, path).value;
    if !External(target) {
      var s, i := InternalStep(cluster, path, "");
      WalkIsChain(cluster, path, target, n);
      assert Chain(cluster, path, target, 0) == Chain(cluster, path, target, n);
      assert Loops(cluster, s, i, 0);
    }
  }

  lemma {:induction false} WalkStarts(cluster: Cluster, path: string, n: nat)
    requires 0 < n && Walk(cluster, path, n).Some?
    ensures Next(cluster, path).Some?
  {
    if n == 1 {
      assert Walk(cluster, path, 0) == Some(path);
    } else {
      WalkStarts(cluster, path, n - 1);
    }
  }

  /** What the loader lets through: a location path starts with a slash. */
  predicate SlashPaths(cluster: Cluster) {
    forall server <- cluster :: forall location <- server :: location.path != "" && location.path[0] == '/'
  }

  lemma {:induction false} SearchStartsAtSlash(servers: Cluster, path: string, carry: string)
    requires SlashPaths(servers) && Search(servers, path, carry) != (false, carry)
    ensures path != "" && path[0] == '/'
    decreases servers
  {
    var k := FirstMatch(servers[0], path);
    if k.Some? {
      assert servers[0] in servers && servers[0][k.value] in servers[0];
    } else {
      assert forall server <- servers[1..] :: server in servers;
      SearchStartsAtSlash(servers[1..], path, carry);
    }
  }

  lemma ExternalHasNoSlash(target: string)
    requires External(target)
    ensures target != "" && target[0] != '/'
  {
    assert At(target, "http://", 0) || At(target, "https://", 0);
    assert target[0] == target[0..7][0] == 'h';
  }

  /** A walk is its first step and a walk from there. */
  lemma {:induction false} WalkFromNext(cluster: Cluster, path: string, target: string, n: nat)
    requires Next(cluster, path) == Some(target)
    ensures Walk(cluster, path, n + 1) == Walk(cluster, target, n)
  {
    hide Next;
    if n == 0 {
      assert Walk(cluster, path, 0) == Some(path);
    } else {
      WalkFromNext(cluster, path, target, n - 1);
    }
  }

  /** No configuration the loader lets through and the check accepts has a cycle, however many servers it has: an
      external target ends every walk, since no location has such a path. */
  lemma AcceptedIsAcyclic(cluster: Cluster, path: string, n: nat)
    requires SlashPaths(cluster) && !Rejected(cluster) && 0 < n
    ensures Walk(cluster, path, n) != Some(path)
  {
    if Walk(cluster, path, n) == Some(path) {
      AcceptedHasNoInternalCycle(cluster, path, n);
      var target := Next(cluster, path).value;
      ExternalHasNoSlash(target);
      SearchStartsAtSlash(cluster, path, "");
      WalkFromNext(cluster, path, target, n - 1);
      if n > 1 {
        WalkStarts(cluster, target, n - 1);
        SearchStartsAtSlash(cluster, target, "");
      }
    }
  }

  lemma ExternalMeans(target: string)
    ensures External(target) <==> "http://" <= target || "https://" <= target
  {
    StartsWith(target, "http://");
    StartsWith(target, "https://");
  }

  lemma StartsWith(s: string, pat: string)
    ensures Find(s, pat, 0) == Some(0) <==> pat <= s
  {
    if pat <= s {
      FindIs(s, pat, 0, 0);
    }
  }

  /** The return a server has for the path, as the search looks at it. */
  datatype Seen = Absent | Plain | Internal(target: string) | Outside(target: string)

  function See(server: Server, path: string): Seen {
    var k := FirstMatch(server, path);
    if k.None? then Absent
    else
      var redirects := server[k.value].redirects;
      if redirects == [] then Plain
      else if "http://" <= redirects[0].1 || "https://" <= redirects[0].1 then Outside(redirects[0].1)
      else Internal(redirects[0].1)
  }

  /** The target outside that was seen last among the first n servers. */
  function Carried(servers: Cluster, path: string, n: nat): string
    requires n <= |servers|
  {
    if n == 0 then ""
    else
      var seen := See(servers[n - 1], path);
      if seen.Outside? then seen.target else Carried(servers, path, n - 1)
  }

  predicate Passes(servers: Cluster, path: string, n: nat)
    requires n <= |servers|
  {
    forall i :: 0 <= i < n ==> See(servers[i], path).Absent? || See(servers[i], path).Outside?
  }

  lemma SearchStep(server: Server, rest: Cluster, path: string, carry: string)
    ensures var seen := See(server, path);
      Search([server] + rest, path, carry) ==
        if seen.Absent? then Search(rest, path, carry)
        else if seen.Plain? then (true, carry)
        else if seen.Internal? then (true, seen.target)
        else Search(rest, path, seen.target)
  {
    assert ([server] + rest)[1..] == rest;
    var k := FirstMatch(server, path);
    if k.Some? && server[k.value].redirects != [] {
      ExternalMeans(server[k.value].redirects[0].1);
    }
  }

  /** The search goes past servers without the path and past those that send it outside. */
  lemma {:induction false} SearchPasses(servers: Cluster, path: string, n: nat)
    requires n <= |servers| && Passes(servers, path, n)
    ensures Search(servers, path, "") == Search(servers[n..], path, Carried(servers, path, n))
  {
    hide Search, See;
    if n == 0 {
      assert servers[0..] == servers;
    } else {
      SearchPasses(servers, path, n - 1);
      assert servers[n - 1..] == [servers[n - 1]] + servers[n..];
      SearchStep(servers[n - 1], servers[n..], path, Carried(servers, path, n - 1));
    }
  }

  /** Where a chain goes on, by the first server n that neither lacks the path nor sends it outside: to its return; or,
      when it has none, to the last target outside that was passed, although such targets are not to be followed. */
  lemma NextMeans(cluster: Cluster, path: string, n: nat)
    requires n <= |cluster| && Passes(cluster, path, n)
    ensures n == |cluster| ==> Next(cluster, path).None?
    ensures n < |cluster| && See(cluster[n], path).Internal? ==>
      Next(cluster, path) == if See(cluster[n], path).target == "" then None else Some(See(cluster[n], path).target)
    ensures n < |cluster| && See(cluster[n], path).Plain? ==>
      Next(cluster, path) == if Carried(cluster, path, n) == "" then None else Some(Carried(cluster, path, n))
  {
    SearchPasses(cluster, path, n);
    if n < |cluster| {
      assert cluster[n..] == [cluster[n]] + cluster[n + 1..];
      SearchStep(cluster[n], cluster[n + 1..], path, Carried(cluster, path, n));
      hide Search, See, Carried;
    } else {
      assert cluster[n..] == [];
    }
  }
}
