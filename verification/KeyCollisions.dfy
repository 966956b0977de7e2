/** When a cache key fails to tell two requests apart, exactly. */
module KeyCollisions {
  import opened Collections
  import opened Wrappers
  import opened CacheKey
  import opened ClientKeys
  import opened BucketStoreSpec

  // ---------- Single values ----------

  /** A query object in which every parameter has one string as its value. */
  ghost predicate SingleValued(q: Query) {
    IsObject(q) && forall k :: k in q.values ==> q.values[k].One?
  }

  function Count(s: string, c: char): nat {
    if s == [] then 0 else (if s[0] == c then 1 else 0) + Count(s[1..], c)
  }

  lemma {:induction false} CountConcat(a: string, b: string, c: char)
    ensures Count(a + b, c) == Count(a, c) + Count(b, c)
  {
    if a == [] {
      assert a + b == b;
    } else {
      assert (a + b)[1..] == a[1..] + b;
      CountConcat(a[1..], b, c);
    }
  }

  lemma {:induction false} CountAbsent(s: string, c: char)
    ensures Count(s, c) == 0 <==> c !in s
  {
    if s != [] {
      CountAbsent(s[1..], c);
    }
  }

  lemma CountCut(a: string, c: char, b: string)
    ensures Count(a + [c] + b, c) == Count(a, c) + 1 + Count(b, c)
  {
    CountConcat(a + [c], b, c);
    CountConcat(a, [c], c);
  }

  /** The text before and after the first occurrence. */
  lemma {:induction false} CutAtFirst(s: string, c: char) returns (a: string, b: string)
    requires c in s
    ensures s == a + [c] + b && c !in a
  {
    if s[0] == c {
      a, b := "", s[1..];
    } else {
      var a', b' := CutAtFirst(s[1..], c);
      a, b := [s[0]] + a', b';
      assert s == [s[0]] + s[1..];
    }
  }

  /** Every parameter writes an equals sign. */
  lemma {:induction false} PairsCount(names: seq<string>, values: map<string, QueryValue>)
    ensures Count(Join(Pairs(names, values), '&'), '=') >= |names|
  {
    if names != [] {
      var pairs := Pairs(names, values);
      var value := if names[0] in values then Render(values[names[0]]) else "undefined";
      CountCut(names[0], '=', value);
      PairsCount(names[1..], values);
      assert pairs[1..] == Pairs(names[1..], values);
      if |names| > 1 {
        CountConcat(pairs[0] + ['&'], Join(pairs[1..], '&'), '=');
        CountConcat(pairs[0], ['&'], '=');
      }
    }
  }

  lemma {:induction false} InsertLength(x: string, s: seq<string>)
    ensures |Insert(x, s)| == |s| + 1
  {
    if s != [] {
      InsertLength(x, s[1..]);
    }
  }

  lemma {:induction false} SortNamesLength(s: seq<string>)
    ensures |SortNames(s)| == |s|
  {
    if s != [] {
      SortNamesLength(s[1..]);
      InsertLength(s[0], SortNames(s[1..]));
    }
  }

  lemma NamesAreCounted(q: Query)
    ensures |q.names| <= Count(SortedQuery(q), '=')
  {
    SortNamesLength(q.names);
    PairsCount(SortNames(q.names), q.values);
  }

  /** The query with one parameter. */
  function Only(name: string, value: string): (q: Query)
    ensures SingleValued(q)
  {
    Query([name], map[name := One(value)])
  }

  lemma OnlyText(name: string, value: string)
    ensures SortedQuery(Only(name, value)) == name + ['='] + value
  {
    assert SortNames([name]) == [name];
  }

  lemma IsOnly(q: Query)
    requires SingleValued(q) && |q.names| == 1
    ensures q == Only(q.names[0], q.values[q.names[0]].text)
  {
    var name := q.names[0];
    assert name in q.names;
    assert forall k :: k in q.values <==> k == name;
    assert q.values == map[name := One(q.values[name].text)];
  }

  lemma NoNames(q: Query)
    requires IsObject(q) && q.names == []
    ensures q.values == map[] && SortedQuery(q) == ""
  {
    assert forall k :: k !in q.values;
  }

  /** At most one equals sign: there is at most one parameter, and one way to read it. */
  lemma ReadsBack(q: Query, r: Query)
    requires SingleValued(q) && SingleValued(r) && SortedQuery(r) == SortedQuery(q)
    requires Count(SortedQuery(q), '=') <= 1
    ensures r.values == q.values
  {
    NamesAreCounted(q);
    NamesAreCounted(r);
    if q.names == [] || r.names == [] {
      EmptyReadsBack(q, r);
    } else {
      IsOnly(q);
      IsOnly(r);
      var m, n := q.names[0], r.names[0];
      var v, w := q.values[m].text, r.values[n].text;
      OnlyText(m, v);
      OnlyText(n, w);
      CountCut(m, '=', v);
      CountCut(n, '=', w);
      CountAbsent(m, '=');
      CountAbsent(n, '=');
      SplitFirst('=', m, v, n, w);
    }
  }

  lemma EmptyReadsBack(q: Query, r: Query)
    requires IsObject(q) && IsObject(r) && SortedQuery(r) == SortedQuery(q)
    requires q.names == [] || r.names == []
    ensures q.values == r.values == map[]
  {
    NamesAreCounted(q);
    NamesAreCounted(r);
    if q.names == [] {
      NoNames(q);
    }
    if r.names == [] {
      NoNames(r);
    }
  }

  lemma TwoCuts(s: string, c: char) returns (a: string, b: string, a': string, b': string)
    requires Count(s, c) >= 2
    ensures s == a + [c] + b == a' + [c] + b' && |a| < |a'|
  {
    CountAbsent(s, c);
    a, b := CutAtFirst(s, c);
    CountCut(a, c, b);
    CountAbsent(a, c);
    CountAbsent(b, c);
    var m, n := CutAtFirst(b, c);
    a', b' := a + [c] + m, n;
  }

  lemma OnlyDiffers(m: string, v: string, n: string, w: string)
    requires m != n
    ensures Only(m, v).values != Only(n, w).values
  {
    assert m in Only(m, v).values && m !in Only(n, w).values;
  }

  /** Two equals signs: the text cut at the first and cut at the second are two different
      queries of one parameter with the same text. */
  lemma TwoReadings(text: string) returns (r1: Query, r2: Query)
    requires Count(text, '=') >= 2
    ensures SingleValued(r1) && SingleValued(r2) && r1.values != r2.values
    ensures SortedQuery(r1) == SortedQuery(r2) == text
  {
    var m, v, n, w := TwoCuts(text, '=');
    r1, r2 := Only(m, v), Only(n, w);
    OnlyText(m, v);
    OnlyText(n, w);
    OnlyDiffers(m, v, n, w);
  }

  lemma SuffixIsQuery(q: Query, r: Query)
    ensures QuerySuffix(q) == QuerySuffix(r) <==> SortedQuery(q) == SortedQuery(r)
  {
    if SortedQuery(q) != "" {
      assert QuerySuffix(q)[1..] == SortedQuery(q);
    }
    if SortedQuery(r) != "" {
      assert QuerySuffix(r)[1..] == SortedQuery(r);
    }
  }

  lemma SameKeyIff(a: Request, r: Query)
    ensures BuildCacheKey(a.(query := r)) == BuildCacheKey(a) <==> SortedQuery(r) == SortedQuery(a.query)
  {
    var s, t := QuerySuffix(r), QuerySuffix(a.query);
    SuffixIsQuery(r, a.query);
    if BuildCacheKey(a.(query := r)) == BuildCacheKey(a) {
      Cancel(a.httpMethod + [':'], Host(a) + [':'] + (a.path + s), Host(a) + [':'] + (a.path + t));
      Cancel(Host(a) + [':'], a.path + s, a.path + t);
      Cancel(a.path, s, t);
    }
  }

  /** Among queries of single string values, a request's key determines its query exactly when
      at most one equals sign is written in it: with two or more parameters, or an equals sign
      inside a name or value, some other query of one parameter has the same key. */
  lemma SingleValuesReadBackIff(a: Request)
    requires SingleValued(a.query)
    ensures (forall r :: SingleValued(r) && BuildCacheKey(a.(query := r)) == BuildCacheKey(a)
                         ==> r.values == a.query.values)
            <==> Count(SortedQuery(a.query), '=') <= 1
  {
    var text := SortedQuery(a.query);
    if Count(text, '=') <= 1 {
      forall r | SingleValued(r) && BuildCacheKey(a.(query := r)) == BuildCacheKey(a)
        ensures r.values == a.query.values
      {
        SameKeyIff(a, r);
        ReadsBack(a.query, r);
      }
    } else {
      var r1, r2 := TwoReadings(text);
      SameKeyIff(a, r1);
      SameKeyIff(a, r2);
    }
  }

  // ---------- Any values ----------

  /** Another value that is written in the same way. */
  function Alias(v: QueryValue): (w: QueryValue)
    ensures w != v && Render(w) == Render(v)
  {
    match v
    case One(text) => Many([text])
    case _ => One(Render(v))
  }

  lemma {:induction false} SamePairsText(names: seq<string>, v: map<string, QueryValue>, w: map<string, QueryValue>)
    requires forall k :: k in names ==> Pair(k, v) == Pair(k, w)
    ensures Pairs(names, v) == Pairs(names, w)
  {
    if names != [] {
      assert names[0] in names;
      SamePairsText(names[1..], v, w);
    }
  }

  /** With repeated and nested parameters allowed, a request's key determines its query exactly
      when the query is empty: any one value has an alias. */
  lemma AnyValuesReadBackIff(a: Request)
    requires IsObject(a.query)
    ensures (forall r :: IsObject(r) && BuildCacheKey(a.(query := r)) == BuildCacheKey(a)
                         ==> r.values == a.query.values)
            <==> a.query.names == []
  {
    var q := a.query;
    if q.names == [] {
      forall r | IsObject(r) && BuildCacheKey(a.(query := r)) == BuildCacheKey(a)
        ensures r.values == q.values
      {
        SameKeyIff(a, r);
        EmptyReadsBack(q, r);
      }
    } else {
      var k := q.names[0];
      assert k in q.names;
      var r := q.(values := q.values[k := Alias(q.values[k])]);
      assert r.values[k] != q.values[k];
      SamePairsText(SortNames(q.names), q.values, r.values);
      SameKeyIff(a, r);
    }
  }

  // ---------- Any host ----------

  // After the method a cache key is host, colon and target, the shape of a bucket's key.

  /** What a key says after the host: path and query. */
  function Target(req: Request): string {
    req.path + QuerySuffix(req.query)
  }

  /** With one method, keys are equal just if host, colon and target are. */
  lemma KeyIsHostAndTarget(a: Request, b: Request)
    requires a.httpMethod == b.httpMethod
    ensures BuildCacheKey(a) == BuildCacheKey(b)
            <==> ClientKey(Host(a), Target(a)) == ClientKey(Host(b), Target(b))
  {
    if BuildCacheKey(a) == BuildCacheKey(b) {
      Cancel(a.httpMethod + [':'], ClientKey(Host(a), Target(a)), ClientKey(Host(b), Target(b)));
    }
  }

  predicate Nested(s: string, t: string) {
    EndsWith(s, [':'] + t) || EndsWith(t, [':'] + s)
  }

  /** The two requests get one key under these Host headers. */
  predicate Clash(a: Request, b: Request, g: string, h: string) {
    BuildCacheKey(a.(hostHeader := Some(g))) == BuildCacheKey(b.(hostHeader := Some(h)))
  }

  lemma ClashOfTargets(a: Request, b: Request, g: string, h: string)
    requires a.httpMethod == b.httpMethod
    ensures Clash(a, b, g, h) <==> ClientKey(g, Target(a)) == ClientKey(h, Target(b))
  {
    KeyIsHostAndTarget(a.(hostHeader := Some(g)), b.(hostHeader := Some(h)));
  }

  /** Two requests that differ in path or query get one key under some pair of hosts exactly if
      one target ends in a colon and the other; the Host header is the client's to write. */
  lemma TargetsClashIff(a: Request, b: Request, s: string, t: string)
    requires a.httpMethod == b.httpMethod && s == Target(a) && t == Target(b) && s != t
    ensures (exists g, h :: Clash(a, b, g, h)) <==> Nested(s, t)
  {
    PrefixesClashIff(s, t);
    if Nested(s, t) {
      var g, h :| ClientKey(g, s) == ClientKey(h, t);
      ClashOfTargets(a, b, g, h);
    }
    forall g, h | Clash(a, b, g, h) ensures Nested(s, t) {
      ClashOfTargets(a, b, g, h);
    }
  }

  /** With one query the condition is on the paths alone. */
  lemma PathsClashIff(a: Request, b: Request)
    requires a.httpMethod == b.httpMethod && a.query == b.query && a.path != b.path
    ensures (exists g, h :: Clash(a, b, g, h)) <==> Nested(a.path, b.path)
  {
    var tail := QuerySuffix(a.query);
    var s, t := a.path + tail, b.path + tail;
    assert s[..|s| - |tail|] == a.path && t[..|t| - |tail|] == b.path;
    NestedTail(a.path, b.path, tail);
    TargetsClashIff(a, b, s, t);
  }

  lemma NestedTail(p: string, q: string, tail: string)
    ensures Nested(p + tail, q + tail) <==> Nested(p, q)
  {
    EndsWithTail(p, [':'] + q, tail);
    EndsWithTail(q, [':'] + p, tail);
    assert ([':'] + q) + tail == [':'] + (q + tail);
    assert ([':'] + p) + tail == [':'] + (p + tail);
  }

  lemma EndsWithTail(s: string, t: string, tail: string)
    ensures EndsWith(s + tail, t + tail) <==> EndsWith(s, t)
  {
    if |t| <= |s| {
      assert (s + tail)[|s| - |t|..] == s[|s| - |t|..] + tail;
      if s[|s| - |t|..] + tail == t + tail {
        assert (s[|s| - |t|..] + tail)[..|t|] == s[|s| - |t|..] && (t + tail)[..|t|] == t;
      }
    }
  }

  /** Whatever the hosts, requests with one key ask for the same resource unless their targets
      are nested in that way. */
  lemma KeyIsInjectiveUnlessNested(a: Request, b: Request)
    requires ':' !in a.httpMethod && ':' !in b.httpMethod
    requires '?' !in a.path && '?' !in b.path && Plain(a.query) && Plain(b.query)
    requires !Nested(Target(a), Target(b)) && BuildCacheKey(a) == BuildCacheKey(b)
    ensures a.httpMethod == b.httpMethod && Host(a) == Host(b) && a.path == b.path
    ensures a.query.values == b.query.values
  {
    assert BuildCacheKey(a) == a.httpMethod + [':'] + (Host(a) + [':'] + Target(a));
    assert BuildCacheKey(b) == b.httpMethod + [':'] + (Host(b) + [':'] + Target(b));
    SplitFirst(':', a.httpMethod, Host(a) + [':'] + Target(a), b.httpMethod, Host(b) + [':'] + Target(b));
    KeyIsHostAndTarget(a, b);
    if Target(a) != Target(b) {
      PrefixesClashIff(Target(a), Target(b));
      assert false;
    }
    OnePrefixIsInjective(Host(a), Host(b), Target(a));
    SuffixInjective(a.path, a.query, b.path, b.query);
    QueryInjective(a.query, b.query);
  }

  // ---------- Instances ----------

  /** A Host header with a slash can take over the start of another request's path. */
  lemma HostCollides(a: Request, b: Request)
    requires a.hostHeader == Some("h:/x") && a.path == "/y" && b.hostHeader == Some("h") && b.path == "/x:/y"
    requires a.httpMethod == b.httpMethod && a.query == b.query
    ensures BuildCacheKey(a) == BuildCacheKey(b)
  {
    KeyIsHostAndTarget(a, b);
    var tail := QuerySuffix(a.query);
    assert ClientKey("h:/x", "/y") == ClientKey("h", "/x:/y");
    assert ClientKey(Host(a), Target(a)) == ClientKey("h:/x", "/y") + tail;
    assert ClientKey(Host(b), Target(b)) == ClientKey("h", "/x:/y") + tail;
  }

  lemma TwoParameters(q: Query)
    requires q == Query(["x", "y"], map["x" := One("1"), "y" := One("2")])
    ensures SortedQuery(q) == "x=1&y=2"
  {
    assert ["x", "y"][1..] == ["y"] && SortNames(["y"]) == ["y"];
    assert SortNames(["x", "y"]) == ["x", "y"];
    var pairs := Pairs(["x", "y"], q.values);
    assert pairs[0] == "x=1" && pairs[1] == "y=2" && pairs[1..] == ["y=2"];
    assert Join(pairs, '&') == "x=1" + ['&'] + "y=2";
  }

  /** Every nested parameter is written in one way, which a client can also write itself. */
  lemma NestedCollides(a: Request, b: Request, name: string)
    requires a.query == Query([name], map[name := QueryValue.Nested])
    requires b == a.(query := Query([name], map[name := One("[object Object]")]))
    ensures BuildCacheKey(a) == BuildCacheKey(b) && a.query.values != b.query.values
  {
    assert a.query.values[name] != b.query.values[name];
    SamePairsText(SortNames([name]), a.query.values, b.query.values);
  }

  /** A missing Host header counts as an empty one. */
  lemma MissingHostCollides(a: Request)
    requires a.hostHeader == None
    ensures BuildCacheKey(a) == BuildCacheKey(a.(hostHeader := Some("")))
  {
  }

  /** A value with an ampersand reads as two parameters. */
  lemma AmpersandCollides(a: Request, b: Request)
    requires a.query == Query(["x"], map["x" := One("1&y=2")])
    requires b == a.(query := Query(["x", "y"], map["x" := One("1"), "y" := One("2")]))
    ensures BuildCacheKey(a) == BuildCacheKey(b) && a.query.values != b.query.values
  {
    assert "y" !in a.query.values && "y" in b.query.values;
    assert SortNames(["x"]) == ["x"];
    assert SortedQuery(a.query) == "x=1&y=2";
    TwoParameters(b.query);
  }

  /** A repeated parameter reads as one value with commas. */
  lemma RepeatedParameterCollides(a: Request, b: Request)
    requires a.query == Query(["x"], map["x" := Many(["1", "2"])])
    requires b == a.(query := Query(["x"], map["x" := One("1,2")]))
    ensures BuildCacheKey(a) == BuildCacheKey(b) && a.query.values != b.query.values
  {
    assert a.query.values["x"] != b.query.values["x"];
    assert ["1", "2"][1..] == ["2"];
    assert Join(["1", "2"], ',') == "1,2";
  }
}
