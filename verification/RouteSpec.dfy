/** Route matching of server/src/proxy/routeRegistry.js as functions, and the promise that it
    is longest-prefix matching. */
module RouteSpec {
  import opened Wrappers
  import opened LruSpec

  /** One row of the routes table. `cacheTtlMs` None is SQL's NULL; `urlParses` tells whether
      `new URL(upstream_url)` succeeds. */
  datatype Route = Route(
    id: int, userId: int, prefix: string, urlParses: bool,
    cacheEnabled: bool, cacheTtlMs: Option<int>,
    rateLimitEnabled: bool, capacity: int, refillRate: real)

  /** A JavaScript Map from prefixes to routes, in insertion order. */
  type Registry = seq<(string, Route)>

  function Insert(r: Route, rows: seq<Route>): seq<Route> {
    if rows == [] || |r.prefix| >= |rows[0].prefix| then [r] + rows
    else [rows[0]] + Insert(r, rows[1..])
  }

  /** `[...rows].sort((a, b) => b.prefix.length - a.prefix.length)`: longest first, stable. */
  function SortByLength(rows: seq<Route>): seq<Route> {
    if rows == [] then [] else Insert(rows[0], SortByLength(rows[1..]))
  }

  /** `Map.set`: a known key keeps its place and gets the new value. */
  function SetEntry(m: Registry, key: string, r: Route): Registry {
    if m == [] then [(key, r)]
    else if m[0].0 == key then [(key, r)] + m[1..]
    else [m[0]] + SetEntry(m[1..], key, r)
  }

  function Build(m: Registry, rows: seq<Route>): Registry
    decreases |rows|
  {
    if rows == [] then m else Build(SetEntry(m, rows[0].prefix, rows[0]), rows[1..])
  }

  function Load(rows: seq<Route>): Registry {
    Build([], SortByLength(rows))
  }

  /** `path.startsWith(prefix)`. */
  predicate StartsWith(path: string, prefix: string) {
    |prefix| <= |path| && path[..|prefix|] == prefix
  }

  function Match(m: Registry, path: string): Option<Route> {
    if m == [] then None
    else if StartsWith(path, m[0].0) then Some(m[0].1)
    else Match(m[1..], path)
  }

  // ---------- Sorting ----------

  ghost predicate Descending(rows: seq<Route>) {
    forall i, j :: 0 <= i < j < |rows| ==> |rows[i].prefix| >= |rows[j].prefix|
  }

  /** The last row with a given prefix. */
  function LastWith(rows: seq<Route>, prefix: string): Option<Route> {
    if rows == [] then None
    else if LastWith(rows[1..], prefix).Some? then LastWith(rows[1..], prefix)
    else if rows[0].prefix == prefix then Some(rows[0])
    else None
  }

  lemma {:induction false} InsertKeepsDescending(r: Route, rows: seq<Route>)
    requires Descending(rows)
    ensures Descending(Insert(r, rows))
    ensures forall x :: x in Insert(r, rows) <==> x == r || x in rows
  {
    if rows != [] && |r.prefix| < |rows[0].prefix| {
      InsertKeepsDescending(r, rows[1..]);
      var t := Insert(r, rows[1..]);
      forall j | 0 <= j < |t| ensures |rows[0].prefix| >= |t[j].prefix| {
        assert t[j] in t;
      }
    }
  }

  /** The rows whose prefix has length n, in order. */
  function OfLength(rows: seq<Route>, n: nat): seq<Route> {
    if rows == [] then []
    else (if |rows[0].prefix| == n then [rows[0]] else []) + OfLength(rows[1..], n)
  }

  lemma OfLengthCons(r: Route, rows: seq<Route>, n: nat)
    ensures OfLength([r] + rows, n) == (if |r.prefix| == n then [r] else []) + OfLength(rows, n)
  {
    assert ([r] + rows)[1..] == rows;
  }

  lemma {:induction false} InsertIsStable(r: Route, rows: seq<Route>, n: nat)
    ensures OfLength(Insert(r, rows), n) == OfLength([r] + rows, n)
  {
    if rows != [] && |r.prefix| < |rows[0].prefix| {
      var x, rest := rows[0], rows[1..];
      InsertIsStable(r, rest, n);
      assert rows == [x] + rest;
      OfLengthCons(r, rows, n);
      OfLengthCons(x, rest, n);
      OfLengthCons(r, rest, n);
      OfLengthCons(x, Insert(r, rest), n);
    }
  }

  lemma {:induction false} InsertKeepsRows(r: Route, rows: seq<Route>)
    ensures multiset(Insert(r, rows)) == multiset{r} + multiset(rows)
  {
    if rows != [] && |r.prefix| < |rows[0].prefix| {
      InsertKeepsRows(r, rows[1..]);
      assert rows == [rows[0]] + rows[1..];
    }
  }

  /** The sort yields the same rows, longest prefix first, and keeps the order of rows whose
      prefixes have one length. */
  lemma {:induction false} SortIsStable(rows: seq<Route>, n: nat)
    ensures multiset(SortByLength(rows)) == multiset(rows)
    ensures Descending(SortByLength(rows))
    ensures OfLength(SortByLength(rows), n) == OfLength(rows, n)
  {
    if rows != [] {
      var sorted := SortByLength(rows[1..]);
      SortIsStable(rows[1..], n);
      InsertKeepsRows(rows[0], sorted);
      InsertKeepsDescending(rows[0], sorted);
      InsertIsStable(rows[0], sorted, n);
      OfLengthCons(rows[0], sorted, n);
      assert rows == [rows[0]] + rows[1..];
    }
  }

  lemma {:induction false} LastOfLength(rows: seq<Route>, prefix: string)
    ensures LastWith(OfLength(rows, |prefix|), prefix) == LastWith(rows, prefix)
  {
    if rows != [] {
      LastOfLength(rows[1..], prefix);
      var mine := OfLength(rows, |prefix|);
      assert |rows[0].prefix| == |prefix| ==> mine[0] == rows[0] && mine[1..] == OfLength(rows[1..], |prefix|);
      assert |rows[0].prefix| != |prefix| ==> mine == OfLength(rows[1..], |prefix|);
    }
  }

  /** Rows with one prefix have one length, so the last of them stays the last. */
  lemma SortKeepsLast(rows: seq<Route>, prefix: string)
    ensures LastWith(SortByLength(rows), prefix) == LastWith(rows, prefix)
  {
    SortIsStable(rows, |prefix|);
    LastOfLength(rows, prefix);
    LastOfLength(SortByLength(rows), prefix);
  }

  // ---------- The map and the scan ----------

  /** Longest keys first, no key twice, each route under its own prefix. */
  ghost predicate WellOrdered(m: Registry) {
    m == []
    || (m[0].1.prefix == m[0].0
        && (forall e :: e in m[1..] ==> |m[0].0| >= |e.0| && m[0].0 != e.0)
        && WellOrdered(m[1..]))
  }

  function Find(m: Registry, key: string): Option<Route> {
    if m == [] then None else if m[0].0 == key then Some(m[0].1) else Find(m[1..], key)
  }

  lemma {:induction false} SetMembers(m: Registry, r: Route)
    ensures forall e :: e in SetEntry(m, r.prefix, r) ==> e.0 == r.prefix || e in m
  {
    if m != [] && m[0].0 != r.prefix {
      SetMembers(m[1..], r);
    }
  }

  lemma {:induction false} SetKeepsOrder(m: Registry, r: Route)
    requires WellOrdered(m) && forall e :: e in m ==> |e.0| >= |r.prefix|
    ensures WellOrdered(SetEntry(m, r.prefix, r))
  {
    if m != [] {
      assert m[0] in m;
      if m[0].0 != r.prefix {
        SetKeepsOrder(m[1..], r);
        SetMembers(m[1..], r);
      }
    }
  }

  lemma {:induction false} SetFinds(m: Registry, r: Route, key: string)
    ensures Find(SetEntry(m, r.prefix, r), key) == if key == r.prefix then Some(r) else Find(m, key)
  {
    if m != [] && m[0].0 != r.prefix {
      SetFinds(m[1..], r, key);
    }
  }

  lemma {:induction false} BuildFinds(m: Registry, rows: seq<Route>, key: string)
    requires WellOrdered(m) && Descending(rows)
    requires forall e, row :: e in m && row in rows ==> |e.0| >= |row.prefix|
    ensures WellOrdered(Build(m, rows))
    ensures Find(Build(m, rows), key) ==
            if LastWith(rows, key).Some? then LastWith(rows, key) else Find(m, key)
    decreases |rows|
  {
    if rows != [] {
      assert rows[0] in rows;
      SetKeepsOrder(m, rows[0]);
      SetMembers(m, rows[0]);
      SetFinds(m, rows[0], key);
      BuildFinds(SetEntry(m, rows[0].prefix, rows[0]), rows[1..], key);
    }
  }

  /** The first match is under its own prefix, and no matching key is longer. */
  lemma {:induction false} MatchFinds(m: Registry, path: string, key: string)
    requires WellOrdered(m)
    ensures Match(m, path).Some? ==>
              StartsWith(path, Match(m, path).value.prefix)
              && Find(m, Match(m, path).value.prefix) == Match(m, path)
    ensures Find(m, key).Some? && StartsWith(path, key) ==>
              Match(m, path).Some? && |key| <= |Match(m, path).value.prefix|
  {
    if m != [] {
      MatchFinds(m[1..], path, key);
      if !StartsWith(path, m[0].0) {
        assert Match(m, path) == Match(m[1..], path);
      } else if Find(m, key).Some? {
        FindInRange(m, key);
      }
    }
  }

  lemma {:induction false} FindInRange(m: Registry, key: string)
    requires Find(m, key).Some?
    ensures exists e :: e in m && e.0 == key
  {
    if m[0].0 == key {
      assert m[0] in m;
    } else {
      FindInRange(m[1..], key);
    }
  }

  lemma {:induction false} LastWithFinds(rows: seq<Route>, prefix: string)
    ensures LastWith(rows, prefix).Some? <==> exists r :: r in rows && r.prefix == prefix
    ensures LastWith(rows, prefix).Some? ==>
              LastWith(rows, prefix).value in rows && LastWith(rows, prefix).value.prefix == prefix
  {
    if rows != [] {
      LastWithFinds(rows[1..], prefix);
      assert rows[0] in rows;
    }
  }

  lemma LoadFinds(rows: seq<Route>, key: string)
    ensures WellOrdered(Load(rows)) && Find(Load(rows), key) == LastWith(rows, key)
  {
    SortIsStable(rows, |key|);
    SortKeepsLast(rows, key);
    BuildFinds([], SortByLength(rows), key);
  }

  /** The answer of longest-prefix matching: no row's prefix starts the path, or it is the last
      row with the longest prefix that does. */
  ghost predicate IsLongestMatch(rows: seq<Route>, path: string, answer: Option<Route>) {
    match answer
    case None => forall row :: row in rows ==> !(row.prefix <= path)
    case Some(r) =>
      && r.prefix <= path && LastWith(rows, r.prefix) == Some(r)
      && forall row :: row in rows && row.prefix <= path ==> |row.prefix| <= |r.prefix|
  }

  lemma StartsWithIsPrefix(path: string, prefix: string)
    ensures StartsWith(path, prefix) <==> prefix <= path
  {
  }

  /** `matchRoute` after `loadRoutes` is longest-prefix matching, for all rows and paths. */
  lemma LongestPrefixWins(rows: seq<Route>, path: string)
    ensures IsLongestMatch(rows, path, Match(Load(rows), path))
  {
    var m := Load(rows);
    LoadFinds(rows, "");
    MatchFinds(m, path, "");
    if Match(m, path).Some? {
      LoadFinds(rows, Match(m, path).value.prefix);
    }
    forall row | row in rows && row.prefix <= path
      ensures Match(m, path).Some? && |row.prefix| <= |Match(m, path).value.prefix|
    {
      StartsWithIsPrefix(path, row.prefix);
      LastWithFinds(rows, row.prefix);
      LoadFinds(rows, row.prefix);
      MatchFinds(m, path, row.prefix);
    }
  }

  /** There is only one such answer, and with distinct prefixes it depends on the set of rows
      alone, not on their order. */
  lemma MatchIgnoresOrder(a: seq<Route>, b: seq<Route>, path: string)
    requires forall r :: r in a <==> r in b
    requires forall r, q :: r in a && q in a && r.prefix == q.prefix ==> r == q
    ensures Match(Load(a), path) == Match(Load(b), path)
  {
    LongestPrefixWins(a, path);
    LongestPrefixWins(b, path);
    var x, y := Match(Load(a), path), Match(Load(b), path);
    if x.Some? {
      LastWithFinds(a, x.value.prefix);
    }
    if y.Some? {
      LastWithFinds(b, y.value.prefix);
    }
  }

  // ---------- The forwarded path ----------

  /** `path.replace(prefix, "")`: takes out the first occurrence. */
  function ReplaceFirst(s: string, pattern: string): string {
    if StartsWith(s, pattern) then s[|pattern|..]
    else if s == [] then s
    else [s[0]] + ReplaceFirst(s[1..], pattern)
  }

  function ForwardedPath(path: string, prefix: string): string {
    if ReplaceFirst(path, prefix) == "" then "/" else ReplaceFirst(path, prefix)
  }

  /** A matched path is its prefix followed by what is forwarded, except that an empty rest is
      forwarded as "/". The forwarded path begins with a slash exactly when the match ends at
      a path segment. */
  lemma ForwardedPathSplits(rows: seq<Route>, path: string)
    requires Match(Load(rows), path).Some?
    ensures var prefix := Match(Load(rows), path).value.prefix; var f := ForwardedPath(path, prefix);
            && (if path == prefix then f == "/" else path == prefix + f && f != "")
            && (f[0] == '/' <==> path == prefix || path[|prefix|] == '/')
  {
    LongestPrefixWins(rows, path);
    var prefix := Match(Load(rows), path).value.prefix;
    assert path == prefix + path[|prefix|..];
    if path[|prefix|..] == "" {
      assert path == prefix + "" == prefix;
    }
  }

  /** A match that ends inside a path segment is forwarded without its slash. */
  lemma SlashCanBeMissing(r: Route)
    requires r.prefix == "/api"
    ensures Match(Load([r]), "/apiary") == Some(r) && ForwardedPath("/apiary", "/api") == "ary"
  {
    assert [r][1..] == [] && SortByLength([r]) == [r];
    assert Load([r]) == Build(SetEntry([], "/api", r), []) == [("/api", r)];
  }

  /** The lifetime a route asks for: `route.cache_enabled ? route.cache_ttl_ms : null`. */
  function TtlOf(r: Route): Ttl {
    if r.cacheEnabled && r.cacheTtlMs.Some? then Millis(r.cacheTtlMs.value) else Null
  }

  /** A route's NULL, documented as "use the global default", means that unless there is no
      default: what is stored never expires. */
  lemma NullTtlIsDefaultIff(r: Route, defaultTtlMs: int, now: int)
    requires !r.cacheEnabled || r.cacheTtlMs.None?
    ensures ExpiresAt(TtlOf(r), defaultTtlMs, now) == Never
    ensures ExpiresAt(TtlOf(r), defaultTtlMs, now) == ExpiresAt(Undefined, defaultTtlMs, now) <==> defaultTtlMs <= 0
  {
  }
}
