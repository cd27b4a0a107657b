/** The parts of a parsed configuration that location matching and the redirection check look at. */
module Config {
  import opened Text

  /** A location block: its `return` directives hold a status code and a target each. */
  datatype Location = Location(path: string, root: string, allowedMethods: set<string>,
      redirects: seq<(string, string)>)

  type Server = seq<Location>

  /** The servers in the order of their keys in the map. */
  type Cluster = seq<Server>

  /** The first location block with exactly this path. */
  function FirstMatch(server: Server, path: string): (r: Option<nat>)
    ensures r.Some? ==> r.value < |server| && server[r.value].path == path
    ensures r.Some? ==> forall k :: 0 <= k < r.value ==> server[k].path != path
    ensures r.None? ==> forall k :: 0 <= k < |server| ==> server[k].path != path
  {
    if server == [] then None
    else if server[0].path == path then Some(0)
    else
      var r := FirstMatch(server[1..], path);
      if r.None? then None else Some(r.value + 1)
  }
}
