/** server/src/proxy/routeRegistry.js in its own form: the module's `registry`, rebuilt in a
    loop and swapped by `loadRoutes`, scanned by `matchRoute`. */
module RouteRegistry {
  import opened Wrappers
  import opened RouteSpec

  class RouteRegistry {
    var registry: Registry
    ghost var loaded: seq<Route>  // the rows of the last successful load

    ghost predicate Valid()
      reads this
    {
      registry == Load(loaded)
    }

    constructor ()
      ensures Valid() && loaded == []
    {
      registry, loaded := [], [];
    }

    /** `loadRoutes` with the outcome of its query; a failed query keeps what is there. */
    method LoadRoutes(fetched: Result<seq<Route>, string>)
      requires Valid()
      modifies this
      ensures Valid()
      ensures loaded == if fetched.Success? then fetched.value else old(loaded)
    {
      if fetched.Failure? {
        return;
      }
      var sorted := SortByLength(fetched.value);
      var next: Registry := [];
      for i := 0 to |sorted|
        invariant Build(next, sorted[i..]) == Load(fetched.value)
      {
        next := SetEntry(next, sorted[i].prefix, sorted[i]);
        assert sorted[i..][1..] == sorted[i + 1..];
      }
      assert sorted[|sorted|..] == [];
      registry, loaded := next, fetched.value;
    }

    /** `matchRoute`: the answer is that of longest-prefix matching on the loaded rows. */
    method MatchRoute(requestPath: string) returns (r: Option<Route>)
      requires Valid()
      ensures r == Match(registry, requestPath)
      ensures IsLongestMatch(loaded, requestPath, r)
    {
      LongestPrefixWins(loaded, requestPath);
      for i := 0 to |registry|
        invariant Match(registry, requestPath) == Match(registry[i..], requestPath)
      {
        if StartsWith(requestPath, registry[i].0) {
          return Some(registry[i].1);
        }
        assert registry[i..][1..] == registry[i + 1..];
      }
      return None;
    }
  }
}
