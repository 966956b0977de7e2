/** Which clients share a token bucket: the key of `consumeToken` in
    server/src/ratelimiter/tokenBucket.js is the address, a colon and the route prefix. */
module ClientKeys {
  import opened BucketStoreSpec
  import CacheKey

  predicate EndsWith(s: string, t: string) {
    |t| <= |s| && s[|s| - |t|..] == t
  }

  /** Under one prefix every address has a bucket of its own. */
  lemma OnePrefixIsInjective(a: string, b: string, p: string)
    requires ClientKey(a, p) == ClientKey(b, p)
    ensures a == b
  {
    assert ClientKey(a, p)[..|a|] == a && ClientKey(b, p)[..|b|] == b;
  }

  lemma LongerPrefixEnds(a: string, p: string, b: string, q: string)
    requires ClientKey(a, p) == ClientKey(b, q) && p != q && |p| >= |q|
    ensures EndsWith(p, [':'] + q)
  {
    var key := ClientKey(a, p);
    assert key[|key| - |p|..] == p && key[|key| - |q|..] == q;
    assert key[|b|..] == [':'] + q;
    assert p[|p| - |q| - 1..] == key[|b|..];
  }

  /** If one prefix ends in the other after a colon, every address under the first shares its
      bucket with some address under the second. */
  lemma EndingCollides(a: string, p: string, q: string) returns (b: string)
    requires EndsWith(p, [':'] + q)
    ensures ClientKey(a, p) == ClientKey(b, q)
  {
    var x := p[..|p| - |q| - 1];
    assert p == x + ([':'] + q);
    b := a + [':'] + x;
  }

  /** Clients under two different prefixes can share a bucket exactly when one of the prefixes
      ends in a colon and the other: addresses come from a header that the client writes, so
      the condition is on the configured prefixes alone. */
  lemma PrefixesClashIff(p: string, q: string)
    requires p != q
    ensures (exists a, b :: ClientKey(a, p) == ClientKey(b, q))
            <==> EndsWith(p, [':'] + q) || EndsWith(q, [':'] + p)
  {
    forall a, b | ClientKey(a, p) == ClientKey(b, q)
      ensures EndsWith(p, [':'] + q) || EndsWith(q, [':'] + p)
    {
      if |p| >= |q| {
        LongerPrefixEnds(a, p, b, q);
      } else {
        LongerPrefixEnds(b, q, a, p);
      }
    }
    if EndsWith(p, [':'] + q) {
      var b := EndingCollides("", p, q);
    } else if EndsWith(q, [':'] + p) {
      var a := EndingCollides("", q, p);
    }
  }

  /** Two clients share a bucket only if they have the same address and route, given an
      address without a slash and prefixes that start with one. */
  lemma ClientKeyInjective(ip1: string, prefix1: string, ip2: string, prefix2: string)
    requires '/' !in ip1 && '/' !in ip2
    requires prefix1 != [] && prefix1[0] == '/' && prefix2 != [] && prefix2[0] == '/'
    requires ClientKey(ip1, prefix1) == ClientKey(ip2, prefix2)
    ensures ip1 == ip2 && prefix1 == prefix2
  {
    var a, b := ip1 + [':'], ip2 + [':'];
    assert a + prefix1 == a + ['/'] + prefix1[1..];
    assert b + prefix2 == b + ['/'] + prefix2[1..];
    CacheKey.SplitFirst('/', a, prefix1[1..], b, prefix2[1..]);
    assert ip1 == a[..|a| - 1] && ip2 == b[..|b| - 1];
  }

  /** An address taken from a forwarding header may hold a slash, and then keys can clash. */
  lemma ClientKeyCollision()
    ensures EndsWith("/x:/y", [':'] + "/y") && ClientKey("a", "/x:/y") == ClientKey("a:/x", "/y")
  {
  }
}
