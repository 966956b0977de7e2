/** Cache keys: server/src/cache/cacheManager.js, `buildCacheKey` and `isCacheable`. */
module CacheKey {
  import opened Wrappers

  /** A parsed query value: one string, a repeated parameter, or a nested object. */
  datatype QueryValue = One(text: string) | Many(texts: seq<string>) | Nested

  /** `req.query`: its property names in enumeration order, and their values. */
  datatype Query = Query(names: seq<string>, values: map<string, QueryValue>)

  datatype Request = Request(httpMethod: string, hostHeader: Option<string>, path: string, query: Query)

  ghost predicate DistinctNames(s: seq<string>) {
    forall i, j :: 0 <= i < j < |s| ==> s[i] != s[j]
  }

  /** What a JavaScript object guarantees: each property name once. */
  ghost predicate IsObject(q: Query) {
    DistinctNames(q.names) && forall k :: k in q.names <==> k in q.values
  }

  predicate IsCacheable(req: Request) {
    req.httpMethod == "GET"
  }

  /** The default order of `Array.prototype.sort` on strings. */
  predicate Before(a: string, b: string) {
    if a == [] || b == [] then a == [] && b != []
    else if a[0] != b[0] then a[0] < b[0]
    else Before(a[1..], b[1..])
  }

  function Insert(x: string, s: seq<string>): seq<string> {
    if s == [] || Before(x, s[0]) then [x] + s else [s[0]] + Insert(x, s[1..])
  }

  function SortNames(s: seq<string>): seq<string> {
    if s == [] then [] else Insert(s[0], SortNames(s[1..]))
  }

  function Join(parts: seq<string>, sep: char): string {
    if parts == [] then ""
    else if |parts| == 1 then parts[0]
    else parts[0] + [sep] + Join(parts[1..], sep)
  }

  /** A value interpolated into a template string. */
  function Render(v: QueryValue): string {
    match v
    case One(text) => text
    case Many(texts) => Join(texts, ',')
    case Nested => "[object Object]"
  }

  function Pair(name: string, values: map<string, QueryValue>): string {
    name + ['='] + (if name in values then Render(values[name]) else "undefined")
  }

  function Pairs(names: seq<string>, values: map<string, QueryValue>): (r: seq<string>)
    ensures |r| == |names| && forall i :: 0 <= i < |names| ==> r[i] == Pair(names[i], values)
  {
    if names == [] then [] else [Pair(names[0], values)] + Pairs(names[1..], values)
  }

  function SortedQuery(q: Query): string {
    Join(Pairs(SortNames(q.names), q.values), '&')
  }

  function Host(req: Request): string {
    match req.hostHeader
    case Some(h) => h
    case None => ""
  }

  function QuerySuffix(q: Query): string {
    if SortedQuery(q) != "" then ['?'] + SortedQuery(q) else ""
  }

  function BuildCacheKey(req: Request): string {
    req.httpMethod + [':'] + (Host(req) + [':'] + (req.path + QuerySuffix(req.query)))
  }

  // ---------- Sorting ----------

  ghost predicate StrictlySorted(s: seq<string>) {
    forall i, j :: 0 <= i < j < |s| ==> Before(s[i], s[j])
  }

  lemma {:induction false} BeforeTransitive(a: string, b: string, c: string)
    requires Before(a, b) && Before(b, c)
    ensures Before(a, c)
  {
    if a != [] && a[0] == b[0] == c[0] {
      BeforeTransitive(a[1..], b[1..], c[1..]);
    }
  }

  lemma {:induction false} BeforeTotal(a: string, b: string)
    ensures !(Before(a, b) && Before(b, a))
    ensures Before(a, b) || Before(b, a) || a == b
    ensures !Before(a, a)
  {
    if a != [] {
      BeforeTotal(a[1..], a[1..]);
      if b != [] && a[0] == b[0] {
        BeforeTotal(a[1..], b[1..]);
        assert a == [a[0]] + a[1..] && b == [b[0]] + b[1..];
      }
    }
  }

  /** Two texts agree up to n, and differ or one of them ends there. */
  predicate PartAt(a: string, b: string, n: nat) {
    && n <= |a| && n <= |b| && a[..n] == b[..n]
    && (n < |a| && n < |b| ==> a[n] != b[n])
  }

  /** The order of names is the dictionary's: by the first character that differs, and a text
      before its continuations. */
  lemma {:induction false} BeforeIsDictionary(a: string, b: string, n: nat)
    requires PartAt(a, b, n)
    ensures Before(a, b) <==> if n < |a| && n < |b| then a[n] < b[n] else |a| < |b|
  {
    if n > 0 {
      assert a[..n][0] == b[..n][0];
      assert a[1..][..n - 1] == a[..n][1..] && b[1..][..n - 1] == b[..n][1..];
      BeforeIsDictionary(a[1..], b[1..], n - 1);
    }
  }

  lemma {:induction false} InsertMembers(x: string, s: seq<string>)
    ensures forall k :: k in Insert(x, s) <==> k == x || k in s
  {
    if s != [] {
      InsertMembers(x, s[1..]);
    }
  }

  lemma {:induction false} InsertSorts(x: string, s: seq<string>)
    requires StrictlySorted(s) && x !in s
    ensures StrictlySorted(Insert(x, s))
  {
    if s != [] {
      if Before(x, s[0]) {
        forall j | 0 <= j < |s| ensures Before(x, s[j]) {
          if j > 0 { BeforeTransitive(x, s[0], s[j]); }
        }
      } else {
        BeforeTotal(x, s[0]);
        InsertSorts(x, s[1..]);
        var t := Insert(x, s[1..]);
        InsertMembers(x, s[1..]);
        forall j | 0 <= j < |t| ensures Before(s[0], t[j]) {
          assert t[j] in t;
        }
      }
    }
  }

  lemma {:induction false} SortNamesSorts(s: seq<string>)
    requires DistinctNames(s)
    ensures StrictlySorted(SortNames(s))
    ensures forall k :: k in SortNames(s) <==> k in s
  {
    if s != [] {
      SortNamesSorts(s[1..]);
      InsertMembers(s[0], SortNames(s[1..]));
      InsertSorts(s[0], SortNames(s[1..]));
    }
  }

  lemma HasMember(s: seq<string>)
    requires s != []
    ensures exists k :: k in s
  {
    assert s[0] in s;
  }

  /** A set of names has one sorted listing. */
  lemma {:induction false} SortedListingUnique(a: seq<string>, b: seq<string>)
    requires StrictlySorted(a) && StrictlySorted(b)
    requires forall k :: k in a <==> k in b
    ensures a == b
  {
    if a == [] || b == [] {
      if a != [] { HasMember(a); }
      if b != [] { HasMember(b); }
    } else {
      assert a[0] in b && b[0] in a;
      var i :| 0 <= i < |b| && b[i] == a[0];
      var j :| 0 <= j < |a| && a[j] == b[0];
      BeforeTotal(a[0], b[0]);
      assert a[0] == b[0];
      TailMembers(a, b);
      TailMembers(b, a);
      SortedListingUnique(a[1..], b[1..]);
    }
  }

  lemma TailMembers(a: seq<string>, b: seq<string>)
    requires StrictlySorted(a) && a != [] && b != [] && a[0] == b[0]
    requires forall k :: k in a ==> k in b
    ensures forall k :: k in a[1..] ==> k in b[1..]
  {
    forall k | k in a[1..] ensures k in b[1..] {
      var i :| 0 <= i < |a[1..]| && a[1..][i] == k;
      assert Before(a[0], a[i + 1]);
      BeforeTotal(a[0], a[0]);
      assert k in b && k != b[0];
    }
  }

  /** The key does not depend on the order in which the parameters were written. */
  lemma KeyIsCanonical(a: Request, b: Request)
    requires IsObject(a.query) && IsObject(b.query)
    requires a.httpMethod == b.httpMethod && Host(a) == Host(b) && a.path == b.path
    requires a.query.values == b.query.values
    ensures BuildCacheKey(a) == BuildCacheKey(b)
  {
    SortNamesSorts(a.query.names);
    SortNamesSorts(b.query.names);
    SortedListingUnique(SortNames(a.query.names), SortNames(b.query.names));
  }

  // ---------- Reading a key back ----------

  ghost function FirstAt(s: string, c: char): nat {
    if s == [] || s[0] == c then 0 else 1 + FirstAt(s[1..], c)
  }

  lemma {:induction false} FirstAtCut(a: string, c: char, b: string)
    requires c !in a
    ensures FirstAt(a + [c] + b, c) == |a|
  {
    if a != [] {
      FirstAtCut(a[1..], c, b);
      assert (a + [c] + b)[1..] == a[1..] + [c] + b;
    }
  }

  /** A text is cut in one way at the first occurrence of a character. */
  lemma SplitFirst(c: char, a1: string, b1: string, a2: string, b2: string)
    requires a1 + [c] + b1 == a2 + [c] + b2
    requires c !in a1 && c !in a2
    ensures a1 == a2 && b1 == b2
  {
    var t1, t2 := a1 + [c] + b1, a2 + [c] + b2;
    FirstAtCut(a1, c, b1);
    FirstAtCut(a2, c, b2);
    assert t1[..|a1|] == a1 && t2[..|a2|] == a2;
    assert t1[|a1| + 1..] == b1 && t2[|a2| + 1..] == b2;
  }

  ghost predicate Pieces(ps: seq<string>) {
    forall i :: 0 <= i < |ps| ==> ps[i] != [] && '&' !in ps[i]
  }

  lemma JoinShape(p: seq<string>)
    requires Pieces(p)
    ensures p == [] <==> Join(p, '&') == ""
    ensures |p| > 1 <==> '&' in Join(p, '&')
  {
  }

  lemma {:induction false} JoinInjective(p: seq<string>, q: seq<string>)
    requires Pieces(p) && Pieces(q)
    requires Join(p, '&') == Join(q, '&')
    ensures p == q
  {
    JoinShape(p);
    JoinShape(q);
    if |p| > 1 {
      SplitFirst('&', p[0], Join(p[1..], '&'), q[0], Join(q[1..], '&'));
      JoinInjective(p[1..], q[1..]);
      assert p == [p[0]] + p[1..] && q == [q[0]] + q[1..];
    }
  }

  /** A query of single values whose text cannot be mistaken for a separator. */
  ghost predicate Plain(q: Query) {
    && IsObject(q)
    && (forall k :: k in q.names ==> '=' !in k && '&' !in k)
    && (forall k :: k in q.values ==> q.values[k].One? && '&' !in q.values[k].text)
  }

  lemma PlainPairs(q: Query)
    requires Plain(q)
    ensures Pieces(Pairs(SortNames(q.names), q.values))
  {
    SortNamesSorts(q.names);
    var names := SortNames(q.names);
    forall i | 0 <= i < |names| ensures Pair(names[i], q.values) != [] && '&' !in Pair(names[i], q.values) {
      assert names[i] in q.names;
    }
  }

  lemma SamePair(a: Query, b: Query, m: string, n: string)
    requires Plain(a) && Plain(b) && m in a.names && n in b.names
    requires Pair(m, a.values) == Pair(n, b.values)
    ensures m == n && a.values[m] == b.values[n]
  {
    SplitFirst('=', m, a.values[m].text, n, b.values[n].text);
  }

  lemma SamePairs(a: Query, b: Query, m: seq<string>, n: seq<string>)
    requires Plain(a) && Plain(b) && Pairs(m, a.values) == Pairs(n, b.values)
    requires (forall k :: k in m ==> k in a.names) && (forall k :: k in n ==> k in b.names)
    ensures m == n && forall k :: k in m ==> a.values[k] == b.values[k]
  {
    forall i | 0 <= i < |m| ensures m[i] == n[i] && a.values[m[i]] == b.values[m[i]] {
      assert m[i] in m && n[i] in n;
      assert Pairs(m, a.values)[i] == Pairs(n, b.values)[i];
      SamePair(a, b, m[i], n[i]);
    }
  }

  lemma QueryInjective(a: Query, b: Query)
    requires Plain(a) && Plain(b) && SortedQuery(a) == SortedQuery(b)
    ensures a.values == b.values
  {
    var m, n := SortNames(a.names), SortNames(b.names);
    assert Pairs(m, a.values) == Pairs(n, b.values) by {
      PlainPairs(a);
      PlainPairs(b);
      JoinInjective(Pairs(m, a.values), Pairs(n, b.values));
    }
    SortNamesSorts(a.names);
    SortNamesSorts(b.names);
    SamePairs(a, b, m, n);
    SameValues(a, b, m);
  }

  lemma SameValues(a: Query, b: Query, names: seq<string>)
    requires IsObject(a) && IsObject(b)
    requires forall k :: (k in names <==> k in a.names) && (k in names <==> k in b.names)
    requires forall k :: k in names ==> a.values[k] == b.values[k]
    ensures a.values == b.values
  {
    assert a.values.Keys == b.values.Keys;
  }

  /** Method, host and path can be told apart in a key. */
  ghost predicate Separable(req: Request) {
    && ':' !in req.httpMethod
    && '/' !in Host(req)
    && req.path != [] && req.path[0] == '/' && '?' !in req.path
    && Plain(req.query)
  }

  lemma SuffixInjective(p1: string, q1: Query, p2: string, q2: Query)
    requires '?' !in p1 && '?' !in p2
    requires p1 + QuerySuffix(q1) == p2 + QuerySuffix(q2)
    ensures p1 == p2 && SortedQuery(q1) == SortedQuery(q2)
  {
    var s1, s2 := SortedQuery(q1), SortedQuery(q2);
    SuffixMark(p1, q1);
    SuffixMark(p2, q2);
    if s1 == "" {
      assert p1 + "" == p1 && p2 + "" == p2;
    } else {
      assert p1 + QuerySuffix(q1) == p1 + ['?'] + s1;
      assert p2 + QuerySuffix(q2) == p2 + ['?'] + s2;
      SplitFirst('?', p1, s1, p2, s2);
    }
  }

  lemma SuffixMark(p: string, q: Query)
    requires '?' !in p
    ensures '?' in p + QuerySuffix(q) <==> SortedQuery(q) != ""
  {
  }

  /** Requests with the same key ask for the same resource. */
  lemma KeyIsInjective(a: Request, b: Request)
    requires Separable(a) && Separable(b) && BuildCacheKey(a) == BuildCacheKey(b)
    ensures a.httpMethod == b.httpMethod && Host(a) == Host(b) && a.path == b.path
    ensures a.query.values == b.query.values
  {
    var ta, tb := a.path + QuerySuffix(a.query), b.path + QuerySuffix(b.query);
    assert BuildCacheKey(a) == a.httpMethod + [':'] + (Host(a) + [':'] + ta);
    assert BuildCacheKey(b) == b.httpMethod + [':'] + (Host(b) + [':'] + tb);
    SplitFirst(':', a.httpMethod, Host(a) + [':'] + ta, b.httpMethod, Host(b) + [':'] + tb);
    var ha, hb := Host(a) + [':'], Host(b) + [':'];
    assert ta == ['/'] + ta[1..] && tb == ['/'] + tb[1..];
    assert ha + ta == ha + ['/'] + ta[1..];
    assert hb + tb == hb + ['/'] + tb[1..];
    SplitFirst('/', ha, ta[1..], hb, tb[1..]);
    assert Host(a) == ha[..|ha| - 1] && Host(b) == hb[..|hb| - 1];
    SuffixInjective(a.path, a.query, b.path, b.query);
    QueryInjective(a.query, b.query);
  }
}
