/** Stored key names and the category a key belongs to (src/retention.ts, src/factory.ts). */
module Categories {
  import opened Wrappers

  const CREDS_KEY := "creds"

  /** The categories, in the order in which the source lists them. */
  const LISTED: seq<string> := [
    "app-state-sync-version", "sender-key-memory", "app-state-sync-key", "identity-key", "device-list",
    "lid-mapping", "sender-key", "pre-key", "session", "tctoken"]

  /** The same list after the (stable) sort by falling length. */
  const CATEGORIES: seq<string> := [
    "app-state-sync-version", "app-state-sync-key", "sender-key-memory", "identity-key", "device-list",
    "lid-mapping", "sender-key", "pre-key", "session", "tctoken"]

  function StoredKey(category: string, id: string): string {
    category + "-" + id
  }

  predicate Matches(category: string, key: string) {
    key == category || StartsWith(key, category + "-")
  }

  ghost predicate LongestFirst(cats: seq<string>) {
    forall i, j :: 0 <= i < j < |cats| ==> |cats[i]| >= |cats[j]|
  }

  function FirstMatch(cats: seq<string>, key: string): Option<string> {
    if cats == [] then None
    else if Matches(cats[0], key) then Some(cats[0])
    else FirstMatch(cats[1..], key)
  }

  function Resolve(key: string): Option<string> {
    if key == CREDS_KEY then None else FirstMatch(CATEGORIES, key)
  }

  /** The specification: the longest category of the list that matches. */
  ghost predicate IsLongestMatch(cats: seq<string>, key: string, c: string) {
    && c in cats && Matches(c, key)
    && (forall d :: d in cats && Matches(d, key) ==> |d| <= |c|)
  }

  lemma MatchIsPrefix(c: string, key: string)
    requires Matches(c, key)
    ensures |c| <= |key| && key[..|c|] == c
  {
    if key != c {
      assert key[..|c|] == key[..|c| + 1][..|c|] == (c + "-")[..|c|];
    }
  }

  /** A key has at most one longest match. */
  lemma LongestIsUnique(cats: seq<string>, key: string, c: string, d: string)
    requires IsLongestMatch(cats, key, c) && IsLongestMatch(cats, key, d)
    ensures c == d
  {
    MatchIsPrefix(c, key);
    MatchIsPrefix(d, key);
  }

  /** The first match of a list sorted by falling length is the longest match, or there is none at all. */
  lemma {:induction false} FirstIsLongest(cats: seq<string>, key: string)
    requires LongestFirst(cats)
    ensures match FirstMatch(cats, key) {
              case Some(c) => IsLongestMatch(cats, key, c)
              case None => forall d :: d in cats ==> !Matches(d, key)
            }
  {
    if cats != [] {
      assert cats == [cats[0]] + cats[1..];
      if Matches(cats[0], key) {
        forall d | d in cats ensures |d| <= |cats[0]| {
          var j :| 0 <= j < |cats| && cats[j] == d;
        }
      } else {
        FirstIsLongest(cats[1..], key);
      }
    }
  }

  /**
   For every key but "creds": the result is the longest matching category, none
   exactly when nothing matches; and any order of ties in the sort gives the same.
   */
  lemma ResolveIsLongestMatch(key: string, cats: seq<string>)
    requires key != CREDS_KEY
    requires LongestFirst(cats) && forall c :: c in cats <==> c in LISTED
    ensures forall c :: Resolve(key) == Some(c) <==> IsLongestMatch(LISTED, key, c)
    ensures Resolve(key).None? <==> forall d :: d in LISTED ==> !Matches(d, key)
    ensures FirstMatch(cats, key) == Resolve(key)
  {
    FirstIsLongest(CATEGORIES, key);
    FirstIsLongest(cats, key);
    forall c | IsLongestMatch(LISTED, key, c) ensures Resolve(key) == Some(c) {
      LongestIsUnique(LISTED, key, c, Resolve(key).value);
    }
    if FirstMatch(cats, key).Some? {
      assert IsLongestMatch(LISTED, key, FirstMatch(cats, key).value);
    }
  }

  method ResolveCategory(key: string) returns (category: Option<string>)
    ensures category == Resolve(key)
    ensures key != CREDS_KEY ==> forall c :: category == Some(c) <==> IsLongestMatch(LISTED, key, c)
  {
    if key == CREDS_KEY {
      return None;
    }
    ResolveIsLongestMatch(key, CATEGORIES);
    for i := 0 to |CATEGORIES|
      invariant FirstMatch(CATEGORIES, key) == FirstMatch(CATEGORIES[i..], key)
    {
      if Matches(CATEGORIES[i], key) {
        return Some(CATEGORIES[i]);
      }
      assert CATEGORIES[i..][1..] == CATEGORIES[i + 1..];
    }
    return None;
  }

  // ---------------------------------------------------------------- recovery of the category

  /** The one family of ids whose stored key reads as another category's. */
  predicate Ambiguous(category: string, id: string) {
    category == "sender-key" && (id == "memory" || StartsWith(id, "memory-"))
  }

  /** A longer category that matches `c-id` begins with `c-`. */
  lemma LongerMatchExtends(c: string, d: string, id: string)
    requires |c| < |d| && Matches(d, StoredKey(c, id))
    ensures StartsWith(d, c + "-")
  {
    var key := StoredKey(c, id);
    MatchIsPrefix(d, key);
    assert key[..|c| + 1] == c + "-";
    assert d[..|c| + 1] == key[..|d|][..|c| + 1] == key[..|c| + 1];
  }

  /** Among the categories only one begins with another one and a hyphen. */
  lemma OnlyOneExtension(c: string, d: string)
    requires c in LISTED && d in LISTED && StartsWith(d, c + "-")
    ensures c == "sender-key" && d == "sender-key-memory"
  {
    assert d[..|c|] == (c + "-")[..|c|] == c;
    assert d[|c|] == (c + "-")[|c|] == '-';
  }

  lemma MemoryMatches(id: string)
    ensures Matches("sender-key-memory", StoredKey("sender-key", id)) <==> Ambiguous("sender-key", id)
  {
    var key := StoredKey("sender-key", id);
    assert key == "sender-key-" + id;
    assert "sender-key-memory" == "sender-key-" + "memory";
    assert "sender-key-memory-" == "sender-key-" + "memory-";
    assert key[|"sender-key-"|..] == id;
    if key == "sender-key-memory" {
      assert id == "sender-key-memory"[|"sender-key-"|..] == "memory";
    }
    if StartsWith(key, "sender-key-memory-") {
      assert id[..|"memory-"|] == key[..|"sender-key-memory-"|][|"sender-key-"|..] == "memory-";
    }
    if StartsWith(id, "memory-") {
      assert key[..|"sender-key-memory-"|] == "sender-key-" + id[..|"memory-"|];
    }
  }

  /** The category of a stored key is the category it was stored under, except for the ambiguous ids. */
  lemma CategoryRecovered(category: string, id: string)
    requires category in LISTED
    ensures Resolve(StoredKey(category, id)) == Some(category) <==> !Ambiguous(category, id)
    ensures Ambiguous(category, id) ==> Resolve(StoredKey(category, id)) == Some("sender-key-memory")
    ensures StoredKey(category, id) != CREDS_KEY
  {
    var key := StoredKey(category, id);
    ResolveIsLongestMatch(key, CATEGORIES);
    assert Matches(category, key) by {
      assert key[..|category| + 1] == category + "-";
    }
    MemoryMatches(id);
    forall d | d in LISTED && Matches(d, key) && |d| > |category|
      ensures category == "sender-key" && d == "sender-key-memory"
    {
      LongerMatchExtends(category, d, id);
      OnlyOneExtension(category, d);
    }
    if Ambiguous(category, id) {
      assert IsLongestMatch(LISTED, key, "sender-key-memory");
    } else {
      assert IsLongestMatch(LISTED, key, category);
    }
  }

  /** The categories by name. */
  lemma KnownCategory(c: string, id: string)
    requires || c == "app-state-sync-version" || c == "sender-key-memory" || c == "app-state-sync-key"
             || c == "identity-key" || c == "device-list" || c == "lid-mapping" || c == "sender-key"
             || c == "pre-key" || c == "session" || c == "tctoken"
    ensures Resolve(c + "-" + id) == Some(c) <==> !Ambiguous(c, id)
    ensures Resolve("creds").None?
  {
    CategoryRecovered(c, id);
  }

  /** The names whose stored key is also another name's. */
  predicate Collides(category: string, id: string) {
    category == "sender-key" && StartsWith(id, "memory-")
  }

  /** `sender-key` with id "memory-x" and `sender-key-memory` with id "x" share a row, for every x. */
  lemma AmbiguousCollision(x: string)
    ensures StoredKey("sender-key", "memory-" + x) == StoredKey("sender-key-memory", x)
  {
    assert "sender-key" + "-" + ("memory-" + x) == "sender-key-memory-" + x;
  }

  lemma ShorterNameCollides(c: string, i: string, d: string, j: string)
    requires c in LISTED && d in LISTED && |c| < |d| && StoredKey(c, i) == StoredKey(d, j)
    ensures c == "sender-key" && d == "sender-key-memory" && i == "memory-" + j
  {
    assert StoredKey(d, j)[..|d| + 1] == d + "-";
    LongerMatchExtends(c, d, i);
    OnlyOneExtension(c, d);
    AmbiguousCollision(j);
    SameId("sender-key", i, "memory-" + j);
  }

  lemma SameId(category: string, i: string, j: string)
    requires StoredKey(category, i) == StoredKey(category, j)
    ensures i == j
  {
    assert i == StoredKey(category, i)[|category| + 1..];
    assert j == StoredKey(category, j)[|category| + 1..];
  }

  /** Two names of known categories share a stored key exactly when they are equal or are such a pair. */
  lemma SameStoredKey(c: string, i: string, d: string, j: string)
    requires c in LISTED && d in LISTED
    ensures StoredKey(c, i) == StoredKey(d, j) <==>
            || (c == d && i == j)
            || (c == "sender-key" && d == "sender-key-memory" && i == "memory-" + j)
            || (d == "sender-key" && c == "sender-key-memory" && j == "memory-" + i)
  {
    if StoredKey(c, i) == StoredKey(d, j) {
      if |c| < |d| {
        ShorterNameCollides(c, i, d, j);
      } else if |d| < |c| {
        ShorterNameCollides(d, j, c, i);
      } else {
        assert c == StoredKey(c, i)[..|c|] == d;
        SameId(c, i, j);
      }
    }
    AmbiguousCollision(j);
    AmbiguousCollision(i);
  }

  /** Stored keys of names that do not collide are distinct. */
  lemma StoredKeyInjective(c: string, i: string, d: string, j: string)
    requires c in LISTED && d in LISTED && !Collides(c, i) && !Collides(d, j)
    requires StoredKey(c, i) == StoredKey(d, j)
    ensures c == d && i == j
  {
    SameStoredKey(c, i, d, j);
    assert StartsWith("memory-" + i, "memory-") && StartsWith("memory-" + j, "memory-");
  }
}
