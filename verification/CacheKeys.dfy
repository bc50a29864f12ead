/** The names under which a row is cached (src/cache/cache-manager.ts). */
module CacheKeys {
  import opened Wrappers

  /** A row of the database: one key of one session. */
  datatype Pair = Pair(sid: string, key: string)

  /** How L2 is reached, if there is one. */
  datatype Mode = NoRedis | Tcp | Http

  function CacheKey(p: Pair): string {
    p.sid + ":" + p.key
  }

  /** Session ids of which none begins with another one and a colon. */
  ghost predicate Separate(sids: iset<string>) {
    forall a, b :: a in sids && b in sids && a != b ==> !StartsWith(a, b + ":")
  }

  type SessionIds = sids: iset<string> | Separate(sids) witness iset{}

  ghost predicate ColonFree(s: string) {
    ':' !in s
  }

  /** The part before a position of a cache key: the session id and its colon come first. */
  lemma CacheKeyParts(p: Pair)
    ensures CacheKey(p)[..|p.sid|] == p.sid
    ensures CacheKey(p)[..|p.sid| + 1] == p.sid + ":"
    ensures CacheKey(p)[|p.sid| + 1..] == p.key
  {
  }

  /** Two rows with one cache key are the same row, or one session id begins with the other and a colon. */
  lemma SameCacheKey(p: Pair, q: Pair)
    requires CacheKey(p) == CacheKey(q)
    ensures p == q || StartsWith(p.sid, q.sid + ":") || StartsWith(q.sid, p.sid + ":")
  {
    CacheKeyParts(p);
    CacheKeyParts(q);
    var s := CacheKey(p);
    if |p.sid| < |q.sid| {
      assert q.sid[..|p.sid| + 1] == s[..|q.sid|][..|p.sid| + 1] == s[..|p.sid| + 1];
    } else if |q.sid| < |p.sid| {
      assert p.sid[..|q.sid| + 1] == s[..|p.sid|][..|q.sid| + 1] == s[..|q.sid| + 1];
    }
  }

  /** Session "a:x" shares cache keys with session "a". */
  lemma NestedSessionsShare(a: string, x: string, key: string)
    ensures CacheKey(Pair(a + ":" + x, key)) == CacheKey(Pair(a, x + ":" + key))
  {
  }

  /** Two sessions have a cache key in common exactly when one id begins with the other and a colon. */
  lemma SessionsShareKeys(a: string, b: string)
    requires a != b
    ensures (exists k, k' :: CacheKey(Pair(a, k)) == CacheKey(Pair(b, k'))) <==>
            StartsWith(a, b + ":") || StartsWith(b, a + ":")
  {
    if k, k' :| CacheKey(Pair(a, k)) == CacheKey(Pair(b, k')) {
      SameCacheKey(Pair(a, k), Pair(b, k'));
    }
    if StartsWith(a, b + ":") {
      var x := a[|b| + 1..];
      assert a == b + ":" + x;
      NestedSessionsShare(b, x, "");
      assert CacheKey(Pair(a, "")) == CacheKey(Pair(b, x + ":" + ""));
    }
    if StartsWith(b, a + ":") {
      var x := b[|a| + 1..];
      assert b == a + ":" + x;
      NestedSessionsShare(a, x, "");
      assert CacheKey(Pair(a, x + ":" + "")) == CacheKey(Pair(b, ""));
    }
  }

  ghost predicate OneRowPerCacheKey(sids: iset<string>) {
    forall p: Pair, q: Pair :: p.sid in sids && q.sid in sids && CacheKey(p) == CacheKey(q) ==> p == q
  }

  /** Among some sessions each cache key belongs to one row exactly when their ids are separate. */
  lemma CacheKeysAreExact(sids: iset<string>)
    ensures OneRowPerCacheKey(sids) <==> Separate(sids)
  {
    if !Separate(sids) {
      var a, b :| a in sids && b in sids && a != b && StartsWith(a, b + ":");
      SessionsShareKeys(a, b);
      var k, k' :| CacheKey(Pair(a, k)) == CacheKey(Pair(b, k'));
      assert Pair(a, k) != Pair(b, k');
    } else {
      forall p: Pair, q: Pair | p.sid in sids && q.sid in sids && CacheKey(p) == CacheKey(q) ensures p == q {
        SameCacheKey(p, q);
        CacheKeyParts(p);
        CacheKeyParts(q);
      }
    }
  }

  lemma CacheKeyInjective(sids: SessionIds, p: Pair, q: Pair)
    requires p.sid in sids && q.sid in sids && CacheKey(p) == CacheKey(q)
    ensures p == q
  {
    CacheKeysAreExact(sids);
  }

  /** Colon-free ids are separate, and so are ids of one length. */
  lemma SeparateFamilies(n: nat)
    ensures Separate(iset s: string | ColonFree(s)) && Separate(iset s: string | |s| == n)
  {
    forall a: string, b: string | ColonFree(a) ensures !StartsWith(a, b + ":") {
      if StartsWith(a, b + ":") {
        PrefixHasColon(a, b);
      }
    }
  }

  lemma PrefixHasColon(a: string, b: string)
    requires StartsWith(a, b + ":")
    ensures !ColonFree(a)
  {
    assert a[|b|] == (b + ":")[|b|] == ':';
  }

  /** Within one session cache keys are distinct, colons or not. */
  lemma OneSessionKeys(sid: string, k: string, k': string)
    ensures CacheKey(Pair(sid, k)) == CacheKey(Pair(sid, k')) <==> k == k'
  {
    assert CacheKey(Pair(sid, k))[|sid| + 1..] == k;
    assert CacheKey(Pair(sid, k'))[|sid| + 1..] == k';
  }

  /** The prefix a session is cleared by selects exactly that session's cache keys among separate sessions. */
  lemma SessionPrefix(sids: SessionIds, sid: string, p: Pair)
    requires sid in sids && p.sid in sids
    ensures StartsWith(CacheKey(p), sid + ":") <==> p.sid == sid
  {
    var s := CacheKey(p);
    if StartsWith(s, sid + ":") {
      var rest := s[|sid| + 1..];
      assert s == (sid + ":") + rest;
      assert CacheKey(Pair(sid, rest)) == s;
      CacheKeyInjective(sids, p, Pair(sid, rest));
    }
    if p.sid == sid {
      assert s[..|sid| + 1] == sid + ":";
    }
  }
}
