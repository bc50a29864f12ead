/**
 Path segments of the Firebase Realtime Database adapter
 (src/adapters/firebase-realtime-adapter.ts). A segment may not contain any of
 . # $ [ ] / so each of them is written as its character code between tildes.
 */
module RtdbKeys {
  import opened Wrappers
  import opened Records
  import opened Categories

  predicate Forbidden(c: char) {
    c == '.' || c == '#' || c == '$' || c == '[' || c == ']' || c == '/'
  }

  function EscapeChar(c: char): string {
    if c == '.' then "~46~"
    else if c == '#' then "~35~"
    else if c == '$' then "~36~"
    else if c == '[' then "~91~"
    else if c == ']' then "~93~"
    else if c == '/' then "~47~"
    else [c]
  }

  function Escape(s: string): string {
    if s == [] then [] else EscapeChar(s[0]) + Escape(s[1..])
  }

  /** The forbidden character with this two-digit code. */
  function Decoded(c: char, d: char): Option<char> {
    if c == '4' && d == '6' then Some('.')
    else if c == '3' && d == '5' then Some('#')
    else if c == '3' && d == '6' then Some('$')
    else if c == '9' && d == '1' then Some('[')
    else if c == '9' && d == '3' then Some(']')
    else if c == '4' && d == '7' then Some('/')
    else None
  }

  /** A code between tildes. */
  predicate StartsEscaped(t: string) {
    |t| >= 4 && t[0] == '~' && Decoded(t[1], t[2]).Some? && t[3] == '~'
  }

  /** Reads an escaped segment back. */
  function Unescape(t: string): string {
    if t == [] then []
    else if StartsEscaped(t) then [Decoded(t[1], t[2]).value] + Unescape(t[4..])
    else [t[0]] + Unescape(t[1..])
  }

  predicate Legal(s: string) {
    forall i :: 0 <= i < |s| ==> !Forbidden(s[i])
  }

  lemma {:induction false} EscapeIsLegal(s: string)
    ensures Legal(Escape(s)) && |s| <= |Escape(s)| && (s == [] <==> Escape(s) == [])
  {
    if s != [] {
      EscapeIsLegal(s[1..]);
      var a, b := EscapeChar(s[0]), Escape(s[1..]);
      forall i | 0 <= i < |a + b| ensures !Forbidden((a + b)[i]) {
        if i >= |a| {
          assert (a + b)[i] == b[i - |a|];
        }
      }
    }
  }

  /** Each forbidden character is written as its decimal character code between tildes. */
  lemma CodesAreCharacterCodes(c: char)
    ensures EscapeChar(c) ==
            if c == '.' || c == '#' || c == '$' || c == '[' || c == ']' || c == '/'
            then ['~', Digit(c as int / 10), Digit(c as int % 10), '~'] else [c]
  {
  }

  function Digit(d: int): char
    requires 0 <= d < 10
  {
    (d + '0' as int) as char
  }

  /** A legal string is its own escape, and only a legal string is. */
  lemma {:induction false} EscapeFixesLegal(s: string)
    ensures Escape(s) == s <==> Legal(s)
  {
    if s != [] {
      EscapeFixesLegal(s[1..]);
      EscapeIsLegal(s[1..]);
      assert s == [s[0]] + s[1..];
      if Escape(s) == s && !Forbidden(s[0]) {
        assert Escape(s[1..]) == Escape(s)[1..];
      }
      if Forbidden(s[0]) {
        assert Escape(s)[0] == '~';
      }
    }
  }

  lemma EscapeIdempotent(s: string)
    ensures Escape(Escape(s)) == Escape(s)
  {
    EscapeIsLegal(s);
    EscapeFixesLegal(Escape(s));
  }

  // ---------------------------------------------------------------- reading a segment back

  /** A tilde, one of the six codes, and a character that shows as a tilde in the segment. */
  predicate LooksEscaped(s: string) {
    |s| >= 4 && s[0] == '~' && Decoded(s[1], s[2]).Some? && (s[3] == '~' || Forbidden(s[3]))
  }

  /** Nowhere does the string itself look like an escaped character. */
  predicate Recoverable(s: string) {
    forall i :: 0 <= i < |s| ==> !LooksEscaped(s[i..])
  }

  predicate TildeFree(s: string) {
    '~' !in s
  }

  lemma TildeFreeIsRecoverable(s: string)
    requires TildeFree(s)
    ensures Recoverable(s)
  {
    forall i | 0 <= i < |s| ensures !LooksEscaped(s[i..]) {
      assert s[i..][0] == s[i];
    }
  }

  lemma RecoverableTail(s: string)
    requires s != []
    ensures Recoverable(s) <==> !LooksEscaped(s) && Recoverable(s[1..])
  {
    forall i | 0 <= i < |s| - 1 ensures s[1..][i..] == s[i + 1..] {}
    assert s[0..] == s;
    if Recoverable(s) {
      forall i | 0 <= i < |s[1..]| ensures !LooksEscaped(s[1..][i..]) {
        assert s[1..][i..] == s[i + 1..];
      }
    }
    if !LooksEscaped(s) && Recoverable(s[1..]) {
      forall i | 0 <= i < |s| ensures !LooksEscaped(s[i..]) {
        if i > 0 {
          assert s[1..][i - 1..] == s[i..];
        }
      }
    }
  }

  /** Up to its first forbidden character a key and its segment are the same; that character shows as a tilde. */
  lemma {:induction false} PlainFront(s: string, i: nat)
    requires i < |s| && forall j :: 0 <= j < i ==> !Forbidden(s[j])
    ensures i < |Escape(s)| && Escape(s)[i] == (if Forbidden(s[i]) then '~' else s[i])
  {
    if i > 0 {
      PlainFront(s[1..], i - 1);
      assert Escape(s)[1..] == Escape(s[1..]);
    }
  }

  lemma LooksEscapedInSegment(s: string)
    requires LooksEscaped(s)
    ensures StartsEscaped(Escape(s))
  {
    PlainFront(s, 0);
    PlainFront(s, 1);
    PlainFront(s, 2);
    PlainFront(s, 3);
  }

  lemma CodeOfPlainKey(s: string)
    requires s != [] && !Forbidden(s[0]) && StartsEscaped(Escape(s))
    ensures LooksEscaped(s)
  {
    if |s| < 4 && Legal(s) {
      EscapeFixesLegal(s);
    }
    PlainFront(s, 0);
    PlainFront(s, 1);
    PlainFront(s, 2);
    PlainFront(s, 3);
  }

  /** A segment that begins with a code is that of a key that begins with a forbidden character or looks escaped. */
  lemma EscapedFront(s: string)
    requires s != [] && !Forbidden(s[0])
    ensures StartsEscaped(Escape(s)) <==> LooksEscaped(s)
  {
    if LooksEscaped(s) {
      LooksEscapedInSegment(s);
    }
    if StartsEscaped(Escape(s)) {
      CodeOfPlainKey(s);
    }
  }

  lemma UnescapeForbidden(c: char, rest: string)
    requires Forbidden(c)
    ensures Unescape(EscapeChar(c) + rest) == [c] + Unescape(rest)
  {
    var t := EscapeChar(c) + rest;
    assert t[4..] == rest;
    assert StartsEscaped(t);
  }

  lemma UnescapePlain(s: string)
    requires s != [] && !Forbidden(s[0]) && !LooksEscaped(s)
    ensures Unescape(Escape(s)) == [s[0]] + Unescape(Escape(s[1..]))
  {
    EscapedFront(s);
    var rest := Escape(s[1..]);
    assert Escape(s) == [s[0]] + rest;
    assert ([s[0]] + rest)[1..] == rest;
  }

  lemma UnescapeMisreads(s: string)
    requires LooksEscaped(s)
    ensures Unescape(Escape(s)) != [] && Unescape(Escape(s))[0] != s[0]
  {
    EscapedFront(s);
  }

  /** Unescaping a segment gives the first character of its key, unless the key looks escaped there. */
  lemma UnescapeFirst(s: string)
    requires s != []
    ensures !LooksEscaped(s) ==> Unescape(Escape(s)) == [s[0]] + Unescape(Escape(s[1..]))
    ensures LooksEscaped(s) ==> Unescape(Escape(s)) != [] && Unescape(Escape(s))[0] != s[0]
  {
    if Forbidden(s[0]) {
      UnescapeForbidden(s[0], Escape(s[1..]));
    } else if LooksEscaped(s) {
      UnescapeMisreads(s);
    } else {
      UnescapePlain(s);
    }
  }

  /** A string can be read back from its segment exactly when it nowhere looks escaped itself. */
  lemma {:induction false} RoundTrip(s: string)
    ensures Unescape(Escape(s)) == s <==> Recoverable(s)
  {
    if s != [] {
      RoundTrip(s[1..]);
      UnescapeFirst(s);
      RecoverableTail(s);
      assert s == [s[0]] + s[1..];
      if !LooksEscaped(s) && Unescape(Escape(s)) == s {
        assert Unescape(Escape(s[1..])) == Unescape(Escape(s))[1..];
      }
    }
  }

  /** Escaping what was read from a segment gives the segment again. */
  lemma {:induction false} SegmentRoundTrip(t: string)
    requires Legal(t)
    ensures Escape(Unescape(t)) == t
    decreases |t|
  {
    if t != [] {
      if StartsEscaped(t) {
        SegmentRoundTrip(t[4..]);
        EscapeOne(Decoded(t[1], t[2]).value, Unescape(t[4..]));
        EscapedBack(t);
        assert t == t[..4] + t[4..];
      } else {
        SegmentRoundTrip(t[1..]);
        EscapeOne(t[0], Unescape(t[1..]));
        assert t == [t[0]] + t[1..];
      }
    }
  }

  lemma EscapeOne(c: char, rest: string)
    ensures Escape([c] + rest) == EscapeChar(c) + Escape(rest)
  {
    assert ([c] + rest)[1..] == rest;
  }

  lemma EscapedBack(t: string)
    requires StartsEscaped(t)
    ensures EscapeChar(Decoded(t[1], t[2]).value) == t[..4]
  {
    assert t[..4] == [t[0], t[1], t[2], t[3]];
  }

  /**
   Exactly one of the strings that share a segment is recoverable. So recoverable
   strings have distinct segments, and any other string shares its segment with
   the different string that is read back from it.
   */
  lemma EscapeInjective(a: string, b: string)
    requires Recoverable(a) && Recoverable(b)
    ensures Escape(a) == Escape(b) <==> a == b
  {
    RoundTrip(a);
    RoundTrip(b);
  }

  lemma SharedSegment(s: string)
    ensures Escape(Unescape(Escape(s))) == Escape(s) && Recoverable(Unescape(Escape(s)))
    ensures Unescape(Escape(s)) != s <==> !Recoverable(s)
  {
    EscapeIsLegal(s);
    SegmentRoundTrip(Escape(s));
    RoundTrip(s);
    RoundTrip(Unescape(Escape(s)));
  }

  /** Any forbidden character and its code between tildes share a segment, whatever stands around them. */
  lemma TildesCollide(before: string, c: char, after: string)
    requires Forbidden(c)
    ensures Escape(before + [c] + after) == Escape(before + EscapeChar(c) + after)
  {
    EscapeOne(c, []);
    assert [c] + [] == [c] && EscapeChar(c) + [] == EscapeChar(c);
    EscapeFixesLegal(EscapeChar(c));
    SameMiddle(before, [c], EscapeChar(c), after);
  }

  lemma SameMiddle(before: string, x: string, y: string, after: string)
    requires Escape(x) == Escape(y)
    ensures Escape(before + x + after) == Escape(before + y + after)
  {
    EscapeAppend(before + x, after);
    EscapeAppend(before, x);
    EscapeAppend(before + y, after);
    EscapeAppend(before, y);
  }

  lemma {:induction false} EscapeAppend(a: string, b: string)
    ensures Escape(a + b) == Escape(a) + Escape(b)
  {
    if a == [] {
      assert a + b == b;
    } else {
      assert (a + b)[1..] == a[1..] + b;
      EscapeAppend(a[1..], b);
    }
  }

  // ---------------------------------------------------------------- category names survive

  /** A prefix without forbidden characters or tildes is seen in the segment exactly when it is in the key. */
  lemma {:induction false} PlainPrefix(s: string, prefix: string)
    requires Legal(prefix) && TildeFree(prefix)
    ensures StartsWith(Escape(s), prefix) <==> StartsWith(s, prefix)
    ensures Escape(s) == prefix <==> s == prefix
  {
    if prefix == [] {
      EscapeIsLegal(s);
    } else if s != [] {
      PlainPrefix(s[1..], prefix[1..]);
      var e, rest := Escape(s), Escape(s[1..]);
      assert prefix == [prefix[0]] + prefix[1..] && s == [s[0]] + s[1..];
      assert prefix[0] != '~' && !Forbidden(prefix[0]);
      if s[0] == prefix[0] {
        assert e == [s[0]] + rest;
        assert e[1..] == rest;
        if |prefix| <= |e| {
          assert e[..|prefix|] == [s[0]] + rest[..|prefix| - 1];
        }
        if |prefix| <= |s| {
          assert s[..|prefix|] == [s[0]] + s[1..][..|prefix| - 1];
        }
      } else {
        assert e[0] != prefix[0];
        assert !StartsWith(e, prefix) by {
          if |prefix| <= |e| {
            assert e[..|prefix|][0] != prefix[0];
          }
        }
        assert !StartsWith(s, prefix) by {
          if |prefix| <= |s| {
            assert s[..|prefix|][0] != prefix[0];
          }
        }
      }
    }
  }

  predicate LettersAndHyphens(s: string) {
    forall i :: 0 <= i < |s| ==> 'a' <= s[i] <= 'z' || s[i] == '-'
  }

  lemma CategoryLetters(c: string)
    requires c in CATEGORIES || c == CREDS_KEY
    ensures LettersAndHyphens(c)
  {
  }

  lemma CategoryNamesArePlain(c: string)
    requires c in CATEGORIES || c == CREDS_KEY
    ensures Legal(c) && TildeFree(c) && Legal(c + "-") && TildeFree(c + "-")
  {
    CategoryLetters(c);
    LettersArePlain(c);
    LettersArePlain(c + "-");
  }

  lemma LettersArePlain(s: string)
    requires LettersAndHyphens(s)
    ensures Legal(s) && TildeFree(s)
  {
  }

  lemma {:induction false} SameFirstMatch(cats: seq<string>, key: string)
    requires forall c :: c in cats ==> c in CATEGORIES
    ensures FirstMatch(cats, Escape(key)) == FirstMatch(cats, key)
  {
    if cats != [] {
      var c := cats[0];
      assert c in CATEGORIES;
      CategoryNamesArePlain(c);
      PlainPrefix(key, c);
      PlainPrefix(key, c + "-");
      SameFirstMatch(cats[1..], key);
    }
  }

  /** A segment has the category of the key it came from, and is "creds" only for "creds". */
  lemma SegmentKeepsCategory(key: string)
    ensures Resolve(Escape(key)) == Resolve(key)
    ensures Escape(key) == CREDS_KEY <==> key == CREDS_KEY
  {
    CategoryNamesArePlain(CREDS_KEY);
    PlainPrefix(key, CREDS_KEY);
    SameFirstMatch(CATEGORIES, key);
  }

  // ---------------------------------------------------------------- the adapter


  const ROOT := "baileys_sessions/"

  function Path(sid: string, key: string): string {
    if key == "" then ROOT + Escape(sid) else ROOT + Escape(sid) + "/" + Escape(key)
  }

  function Version(nodes: map<string, Row>, path: string): nat {
    if path in nodes then nodes[path].version else 0
  }

  /** The update record of `setMany`: versions come from the rows before the batch. */
  function Updates(nodes: map<string, Row>, sid: string, entries: seq<KeyValue>, now: int): map<string, Row> {
    if entries == [] then map[]
    else
      var e := entries[|entries| - 1];
      Updates(nodes, sid, entries[..|entries| - 1], now)
        [Path(sid, e.key) := Row(e.value, now, Version(nodes, Path(sid, e.key)) + 1)]
  }

  lemma UpdatesNext(nodes: map<string, Row>, sid: string, entries: seq<KeyValue>, i: nat, now: int)
    requires i < |entries|
    ensures var path := Path(sid, entries[i].key);
            Updates(nodes, sid, entries[..i + 1], now) ==
            Updates(nodes, sid, entries[..i], now)[path := Row(entries[i].value, now, Version(nodes, path) + 1)]
  {
    assert entries[..i + 1][..i] == entries[..i];
  }

  class Adapter {
    var nodes: map<string, Row>

    constructor ()
      ensures nodes == map[]
    {
      nodes := map[];
    }

    method Get(sid: string, key: string) returns (row: Option<Row>)
      ensures row == if Path(sid, key) in nodes then Some(nodes[Path(sid, key)]) else None
    {
      var path := Path(sid, key);
      if path !in nodes {
        return None;
      }
      return Some(nodes[path]);
    }

    method GetMany(sid: string, keys: seq<string>) returns (rows: map<string, Row>)
      ensures rows == map k | k in keys && Path(sid, k) in nodes :: nodes[Path(sid, k)]
    {
      rows := map[];
      for i := 0 to |keys|
        invariant rows == map k | k in keys[..i] && Path(sid, k) in nodes :: nodes[Path(sid, k)]
      {
        assert keys[..i + 1] == keys[..i] + [keys[i]];
        var row := Get(sid, keys[i]);
        if row.Some? {
          rows := rows[keys[i] := row.value];
        }
      }
      assert keys[..|keys|] == keys;
    }

    /** The row that replaces the stored one, if there is one. */
    method NextRow(sid: string, e: KeyValue, now: int) returns (row: Row)
      ensures row == Row(e.value, now, Version(nodes, Path(sid, e.key)) + 1)
    {
      var existing := Get(sid, e.key);
      var currentVersion := if existing.Some? then existing.value.version else 0;
      return Row(e.value, now, currentVersion + 1);
    }

    method SetMany(sid: string, entries: seq<KeyValue>, now: int)
      modifies this`nodes
      ensures nodes == old(nodes) + Updates(old(nodes), sid, entries, now)
    {
      var update: map<string, Row> := map[];
      for i := 0 to |entries|
        invariant nodes == old(nodes) && update == Updates(nodes, sid, entries[..i], now)
      {
        UpdatesNext(nodes, sid, entries, i, now);
        var row := NextRow(sid, entries[i], now);
        update := update[Path(sid, entries[i].key) := row];
      }
      assert entries[..|entries|] == entries;
      nodes := nodes + update;
    }

    method DeleteMany(sid: string, keys: seq<string>)
      modifies this`nodes
      ensures nodes == old(nodes) - (set k | k in keys :: Path(sid, k))
    {
      var gone: set<string> := {};
      for i := 0 to |keys|
        invariant nodes == old(nodes) && gone == set k | k in keys[..i] :: Path(sid, k)
      {
        assert keys[..i + 1] == keys[..i] + [keys[i]];
        gone := gone + {Path(sid, keys[i])};
      }
      assert keys[..|keys|] == keys;
      nodes := nodes - gone;
    }
  }

  /** What `getAllKeys` lists: the child segments under the session's node. */
  ghost predicate Listed(nodes: map<string, Row>, sid: string, segment: string) {
    Legal(segment) && segment != "" && (ROOT + Escape(sid) + "/" + segment) in nodes
  }

  /**
   Every stored non-empty key is listed as its segment, and the segment works as
   a handle: it addresses the same row and is classified as the key is.
   */
  lemma ListedKeysAreHandles(nodes: map<string, Row>, sid: string, key: string)
    requires key != "" && Path(sid, key) in nodes
    ensures Listed(nodes, sid, Escape(key))
    ensures Path(sid, Escape(key)) == Path(sid, key)
    ensures Resolve(Escape(key)) == Resolve(key)
    ensures Escape(key) == CREDS_KEY <==> key == CREDS_KEY
  {
    EscapeIsLegal(key);
    EscapeIdempotent(key);
    SegmentKeepsCategory(key);
  }

  /** Conversely whatever is listed is a handle of the row it was listed for. */
  lemma HandlesReachTheirRow(nodes: map<string, Row>, sid: string, segment: string)
    requires Listed(nodes, sid, segment)
    ensures Path(sid, segment) in nodes && Path(sid, segment) == ROOT + Escape(sid) + "/" + segment
  {
    EscapeFixesLegal(segment);
  }

  /** Rows of different recoverable, non-empty names never share a path. */
  lemma PathInjective(sid: string, key: string, sid': string, key': string)
    requires Recoverable(sid) && Recoverable(key) && Recoverable(sid') && Recoverable(key') && key != "" && key' != ""
    requires Path(sid, key) == Path(sid', key')
    ensures sid == sid' && key == key'
  {
    var a, a', b, b' := Escape(sid), Escape(sid'), Escape(key), Escape(key');
    EscapeIsLegal(sid);
    EscapeIsLegal(sid');
    PathShape(ROOT, a, b);
    PathShape(ROOT, a', b');
    DropPrefix(ROOT, a + "/" + b, a' + "/" + b', Path(sid, key));
    SplitAtSlash(a, b, a', b');
    EscapeInjective(sid, sid');
    EscapeInjective(key, key');
  }

  /** Legal names appear in the path as they are. */
  lemma LegalPath(sid: string, key: string)
    requires Legal(sid) && Legal(key) && key != ""
    ensures Path(sid, key) == "baileys_sessions/" + sid + "/" + key
  {
    EscapeFixesLegal(sid);
    EscapeFixesLegal(key);
  }

  lemma PathShape(root: string, a: string, b: string)
    ensures root + a + "/" + b == root + (a + "/" + b)
  {
  }

  lemma DropPrefix(root: string, rest: string, rest': string, path: string)
    requires path == root + rest == root + rest'
    ensures rest == rest'
  {
    assert rest == path[|root|..] == rest';
  }

  lemma SplitAtSlash(a: string, b: string, a': string, b': string)
    requires Legal(a) && Legal(a') && a + "/" + b == a' + "/" + b'
    ensures a == a' && b == b'
  {
    FirstSlash(a, b);
    FirstSlash(a', b');
    assert |a| == |a'|;
    assert a == (a + "/" + b)[..|a|] && b == (a + "/" + b)[|a| + 1..];
    assert a' == (a' + "/" + b')[..|a'|] && b' == (a' + "/" + b')[|a'| + 1..];
  }

  lemma FirstSlash(a: string, b: string)
    requires Legal(a)
    ensures (a + "/" + b)[|a|] == '/' && forall i :: 0 <= i < |a| ==> (a + "/" + b)[i] != '/'
  {
    forall i | 0 <= i < |a| ensures (a + "/" + b)[i] != '/' {
      assert (a + "/" + b)[i] == a[i];
    }
  }

  /** The value a batch gives to a path: that of its last entry there. */
  function LastAt(sid: string, entries: seq<KeyValue>, path: string): Option<string> {
    if entries == [] then None
    else if Path(sid, entries[|entries| - 1].key) == path then Some(entries[|entries| - 1].value)
    else LastAt(sid, entries[..|entries| - 1], path)
  }

  /**
   A batch write stores the last value given for each of its paths, raises each
   version by one however often the path occurs, and leaves other rows alone.
   */
  lemma {:induction false} UpdatesEffect(nodes: map<string, Row>, sid: string, entries: seq<KeyValue>, now: int,
                                         path: string)
    ensures var t := nodes + Updates(nodes, sid, entries, now);
            if LastAt(sid, entries, path).Some? then
              path in t && t[path] == Row(LastAt(sid, entries, path).value, now, Version(nodes, path) + 1)
            else
              (path in t <==> path in nodes) && (path in t ==> t[path] == nodes[path])
  {
    if entries != [] {
      UpdatesEffect(nodes, sid, entries[..|entries| - 1], now, path);
    }
  }

  lemma {:induction false} LastAtIsLastValue(sid: string, entries: seq<KeyValue>, sid': string, key: string)
    requires Recoverable(sid) && Recoverable(sid') && Recoverable(key) && key != ""
    requires forall e :: e in entries ==> Recoverable(e.key) && e.key != ""
    ensures LastAt(sid, entries, Path(sid', key)) == if sid == sid' then LastValue(entries, key) else None
  {
    if entries != [] {
      var e := entries[|entries| - 1];
      assert e in entries;
      LastAtIsLastValue(sid, entries[..|entries| - 1], sid', key);
      if Path(sid, e.key) == Path(sid', key) {
        PathInjective(sid, e.key, sid', key);
      }
    }
  }

  /**
   With recoverable names a batch is read back as written, with its last value, its
   time and the next version; other keys and sessions are as before.
   */
  lemma BatchReadBack(nodes: map<string, Row>, sid: string, entries: seq<KeyValue>, now: int, sid': string,
                      key: string)
    requires Recoverable(sid) && Recoverable(sid') && Recoverable(key) && key != ""
    requires forall e :: e in entries ==> Recoverable(e.key) && e.key != ""
    ensures var t, path := nodes + Updates(nodes, sid, entries, now), Path(sid', key);
            if sid == sid' && LastValue(entries, key).Some? then
              path in t && t[path] == Row(LastValue(entries, key).value, now, Version(nodes, path) + 1)
            else
              (path in t <==> path in nodes) && (path in t ==> t[path] == nodes[path])
  {
    LastAtIsLastValue(sid, entries, sid', key);
    UpdatesEffect(nodes, sid, entries, now, Path(sid', key));
  }

  /** With recoverable names exactly the deleted keys of the session are gone. */
  lemma DeleteReadBack(nodes: map<string, Row>, sid: string, keys: seq<string>, sid': string, key: string)
    requires Recoverable(sid) && Recoverable(sid') && Recoverable(key) && key != ""
    requires forall k :: k in keys ==> Recoverable(k) && k != ""
    ensures Path(sid', key) in nodes - (set k | k in keys :: Path(sid, k)) <==>
            Path(sid', key) in nodes && !(sid == sid' && key in keys)
  {
    forall k | k in keys && Path(sid, k) == Path(sid', key) ensures sid == sid' && k == key {
      PathInjective(sid, k, sid', key);
    }
  }
}
