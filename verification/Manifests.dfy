/** The manifest of manifest.rs: a map from path to entry, last writer wins, with a conflict copy
    when two different entries carry the same clock. */
module Manifests {
  import opened Basics
  import opened Clocks

  datatype Entry = Entry(chunkHashes: seq<string>, size: nat, hlc: Hlc, author: string, tombstone: bool)

  type Entries = map<string, Entry>

  function Join(parts: seq<string>): string {
    if parts == [] then "" else if |parts| == 1 then parts[0] else parts[0] + "," + Join(parts[1..])
  }

  /** `Entry::content_key`. */
  function ContentKey(e: Entry): string {
    Join(e.chunkHashes)
  }

  const MARKER := ".conflict-"

  /** The first eight bytes of an author id. */
  function Short(author: string): (s: string)
    ensures |s| <= 8
  {
    if |author| <= 8 then author else author[..8]
  }

  function ConflictPath(path: string, author: string): (p: string)
    ensures |p| > |path|
  {
    path + MARKER + Short(author)
  }

  lemma ShortIsPrefix(author: string)
    ensures Short(author) <= author
    ensures |Short(author)| == if |author| < 8 then |author| else 8
  {
  }

  /** The components of a path, split at every slash. */
  function Split(path: string): (parts: seq<string>)
    ensures |parts| >= 1
  {
    if path == "" then [""] else Prepend(path[0], Split(path[1..]))
  }

  function Prepend(c: char, parts: seq<string>): (r: seq<string>)
    requires |parts| >= 1
    ensures |r| >= 1
  {
    if c == '/' then [""] + parts else [[c] + parts[0]] + parts[1..]
  }

  /** `is_safe_relative_path` over Unix path components: not empty, not absolute, no `..`, and no
      leading `.` (an interior `.` is dropped by `components`). */
  predicate SafePath(path: string) {
    path != "" && path[0] != '/' && Split(path)[0] != "." && ".." !in Split(path)
  }

  /** The same clock on two different entries. */
  predicate Tie(a: Entry, b: Entry) {
    a.hlc == b.hlc && a != b
  }

  /** Which of the two entries the path keeps. On a tie with equal content keys it is the later arrival. */
  function Winner(existing: Entry, incoming: Entry): Entry {
    if Less(existing.hlc, incoming.hlc) then incoming
    else if Tie(existing, incoming) && LexLeq(ContentKey(existing), ContentKey(incoming)) then incoming
    else existing
  }

  function Loser(existing: Entry, incoming: Entry): Entry {
    if Winner(existing, incoming) == incoming then existing else incoming
  }

  function InsertIfFree(m: Entries, path: string, e: Entry): Entries {
    if path in m then m else m[path := e]
  }

  /** The manifest after `apply`. */
  function Applied(m: Entries, path: string, incoming: Entry): Entries {
    if !SafePath(path) then m
    else if path !in m then m[path := incoming]
    else
      var existing := m[path];
      var kept := m[path := Winner(existing, incoming)];
      if Tie(existing, incoming) then
        var loser := Loser(existing, incoming);
        InsertIfFree(kept, ConflictPath(path, loser.author), loser)
      else kept
  }

  /** One call of `apply`. */
  datatype Write = Write(path: string, entry: Entry)

  /** The manifest after a sequence of calls of `apply`. */
  function Replay(m: Entries, log: seq<Write>): Entries {
    if log == [] then m else
      var w := log[|log| - 1];
      Applied(Replay(m, log[..|log| - 1]), w.path, w.entry)
  }

  /** The calls `merge` makes for the entries of `n`, visited in `order`. */
  function Writes(n: Entries, order: seq<string>): (log: seq<Write>)
    requires forall p :: p in order ==> p in n
    ensures |log| == |order|
    ensures forall i :: 0 <= i < |order| ==> log[i] == Write(order[i], n[order[i]])
  {
    seq(|order|, i requires 0 <= i < |order| => Write(order[i], n[order[i]]))
  }

  /** `merged` is what merging `n` into `m` gives for some iteration order of the HashMap. */
  ghost predicate IsMerge(m: Entries, n: Entries, merged: Entries) {
    exists order :: Enumerates(order, n.Keys) && merged == Replay(m, Writes(n, order))
  }

  class Manifest {
    var entries: Entries

    /** `Manifest::new`. */
    constructor ()
      ensures entries == map[]
    {
      entries := map[];
    }

    /** `Manifest::apply`. */
    method Apply(path: string, incoming: Entry)
      modifies this
      ensures entries == Applied(old(entries), path, incoming)
    {
      if !SafePath(path) {
        return;
      }
      if path !in entries {
        entries := entries[path := incoming];
      } else {
        var existing := entries[path];
        if Less(existing.hlc, incoming.hlc) {
          entries := entries[path := incoming];
        } else if incoming.hlc == existing.hlc && incoming != existing {
          var winner, loser := existing, incoming;
          if LexLeq(ContentKey(existing), ContentKey(incoming)) {
            winner, loser := incoming, existing;
          }
          var conflictPath := path + MARKER + Short(loser.author);
          entries := entries[path := winner];
          if conflictPath !in entries {
            entries := entries[conflictPath := loser];
          }
        } else {
          assert entries[path := existing] == entries;
        }
      }
    }

    /** `Manifest::put`. */
    method Put(path: string, entry: Entry)
      modifies this
      ensures entries == Applied(old(entries), path, entry)
    {
      Apply(path, entry);
    }

    /** `Manifest::merge`: the entries of `other` in whatever order the HashMap yields them. */
    method Merge(other: Entries)
      modifies this
      ensures IsMerge(old(entries), other, entries)
    {
      var remaining := other.Keys;
      ghost var done: seq<string> := [];
      while remaining != {}
        invariant remaining <= other.Keys
        invariant Enumerates(done, other.Keys - remaining)
        invariant entries == Replay(old(entries), Writes(other, done))
        decreases |remaining|
      {
        var path :| path in remaining;
        remaining := remaining - {path};
        Apply(path, other[path]);
        assert Writes(other, done + [path])[..|done|] == Writes(other, done);
        done := done + [path];
      }
    }

    /** `Manifest::get`: tombstones are hidden. */
    method Get(path: string) returns (e: Option<Entry>)
      ensures e == if path in entries && !entries[path].tombstone then Some(entries[path]) else None
    {
      e := GetAny(path);
      if e.Some? && e.value.tombstone {
        e := None;
      }
    }

    /** `Manifest::get_any`: tombstones are visible. */
    method GetAny(path: string) returns (e: Option<Entry>)
      ensures e == if path in entries then Some(entries[path]) else None
    {
      e := if path in entries then Some(entries[path]) else None;
    }
  }

  // Names of conflict copies

  /** A conflict name determines both the path it was made from and the author prefix. */
  lemma ConflictNameUnique(p: string, a: string, q: string, b: string)
    requires ConflictPath(p, a) == ConflictPath(q, b)
    ensures p == q && Short(a) == Short(b)
  {
    if |p| == |q| {
      assert p == ConflictPath(p, a)[..|p|] == q;
      assert Short(a) == ConflictPath(p, a)[|p| + |MARKER|..] == Short(b);
    } else if |p| < |q| {
      MarkerDoesNotRecur(p, a, q, b);
    } else {
      MarkerDoesNotRecur(q, b, p, a);
    }
  }

  lemma MarkerDoesNotRecur(p: string, a: string, q: string, b: string)
    requires |p| < |q|
    ensures ConflictPath(p, a) != ConflictPath(q, b)
  {
    if |ConflictPath(p, a)| == |ConflictPath(q, b)| {
      var d := |q| - |p|;
      assert ConflictPath(q, b)[|q|] == MARKER[0] == '.';
      assert ConflictPath(p, a)[|p| + d] == MARKER[d];
      assert MARKER[d] == "conflict-"[d - 1];
    }
  }

  /** The components of a path written straight after another: the last and the first run together. */
  function Run(parts: seq<string>, more: seq<string>): (r: seq<string>)
    requires |parts| >= 1 && |more| >= 1
    ensures |r| == |parts| + |more| - 1
  {
    parts[..|parts| - 1] + [parts[|parts| - 1] + more[0]] + more[1..]
  }

  lemma PrependRun(c: char, parts: seq<string>, more: seq<string>)
    requires |parts| >= 1 && |more| >= 1
    ensures Prepend(c, Run(parts, more)) == Run(Prepend(c, parts), more)
  {
    if c != '/' && |parts| == 1 {
      assert [c] + (parts[0] + more[0]) == ([c] + parts[0]) + more[0];
    }
  }

  lemma {:induction false} SplitConcat(path: string, s: string)
    ensures Split(path + s) == Run(Split(path), Split(s))
  {
    hide Prepend, Run;
    if path == "" {
      assert path + s == s;
      RunEmpty(Split(s));
    } else {
      SplitConcat(path[1..], s);
      assert (path + s)[1..] == path[1..] + s;
      PrependRun(path[0], Split(path[1..]), Split(s));
    }
  }

  lemma RunEmpty(more: seq<string>)
    requires |more| >= 1
    ensures Run([""], more) == more
  {
    assert "" + more[0] == more[0];
  }

  lemma {:induction false} SplitNoSlash(s: string)
    requires '/' !in s
    ensures Split(s) == [s]
  {
    if s != "" {
      SplitNoSlash(s[1..]);
      assert s == [s[0]] + s[1..];
    }
  }

  /** No `..` after the first slash of what a conflict name takes from the author id. */
  predicate PlainAuthor(author: string) {
    ".." !in Split(Short(author))[1..]
  }

  lemma RunOfOne(s: string, more: seq<string>)
    requires |more| >= 1
    ensures Run([s], more) == [s + more[0]] + more[1..]
  {
  }

  lemma PlainWithoutSlash(author: string)
    requires '/' !in author
    ensures PlainAuthor(author)
  {
    SplitNoSlash(Short(author));
  }

  lemma ConflictPathParts(path: string, author: string)
    ensures Split(ConflictPath(path, author)) ==
      Run(Split(path), [MARKER + Split(Short(author))[0]] + Split(Short(author))[1..])
  {
    hide Split, Run, Short;
    var short := Short(author);
    MarkerIsOnePart();
    SplitConcat(MARKER, short);
    SplitConcat(path, MARKER + short);
    RunOfOne(MARKER, Split(short));
    assert path + MARKER + short == path + (MARKER + short);
  }

  lemma MarkerIsOnePart()
    ensures Split(MARKER) == [MARKER]
  {
    hide Split;
    SplitNoSlash(MARKER);
  }

  lemma RunSafe(parts: seq<string>, more: seq<string>)
    requires |parts| >= 1 && |more| >= 1 && |more[0]| >= 3
    requires ".." !in parts
    ensures ".." in Run(parts, more) <==> ".." in more[1..]
  {
    var k, all := |parts| - 1, Run(parts, more);
    assert |all[k]| >= 3;
    assert all == parts[..k] + [all[k]] + more[1..];
    assert ".." !in parts[..k];
  }

  /** Exactly when the name of a conflict copy of a safe path is safe; `apply` does not check it. */
  lemma ConflictPathSafeIff(path: string, author: string)
    requires SafePath(path)
    ensures SafePath(ConflictPath(path, author)) <==> PlainAuthor(author)
  {
    hide Short;
    var parts, rest := Split(path), Split(Short(author));
    var more := [MARKER + rest[0]] + rest[1..];
    ConflictPathParts(path, author);
    RunSafe(parts, more);
    assert more[1..] == rest[1..];
    assert Run(parts, more)[0] != "." by {
      if |parts| == 1 {
        assert |Run(parts, more)[0]| >= |MARKER|;
      }
    }
  }

  lemma SlashSplits(s: string)
    ensures Split("/" + s) == [""] + Split(s)
  {
    assert ("/" + s)[1..] == s;
  }

  lemma NotPlainWitness()
    ensures !PlainAuthor("/../../x")
  {
    hide Split;
    var rest := "../x";
    SplitConcat("..", "/" + rest);
    SplitNoSlash("..");
    SlashSplits(rest);
    RunOfOne("..", Split("/" + rest));
    SlashSplits(".." + ("/" + rest));
    assert "/" + (".." + ("/" + rest)) == "/../../x" == Short("/../../x");
    assert Split("/../../x")[1..][0] == "..";
  }

  lemma PlainNameSafe()
    ensures SafePath("a")
  {
    assert Split("a") == ["a"] by {
      assert "a"[1..] == "";
      assert ['a'] + "" == "a";
    }
    assert "a"[0] != "."[0] && |"a"| != |".."|;
  }

  // The order behind last-writer-wins

  /** Clock first, content key second. */
  predicate KeyLeq(a: Entry, b: Entry) {
    Less(a.hlc, b.hlc) || (a.hlc == b.hlc && LexLeq(ContentKey(a), ContentKey(b)))
  }

  predicate SameKey(a: Entry, b: Entry) {
    a.hlc == b.hlc && ContentKey(a) == ContentKey(b)
  }

  lemma KeyReflexive(a: Entry)
    ensures KeyLeq(a, a)
  {
    LexTotal(ContentKey(a), ContentKey(a));
  }

  lemma KeyTotal(a: Entry, b: Entry)
    ensures KeyLeq(a, b) || KeyLeq(b, a)
  {
    LexTotal(ContentKey(a), ContentKey(b));
  }

  lemma KeyTransitive(a: Entry, b: Entry, c: Entry)
    requires KeyLeq(a, b) && KeyLeq(b, c)
    ensures KeyLeq(a, c)
  {
    if a.hlc == b.hlc == c.hlc {
      LexTransitive(ContentKey(a), ContentKey(b), ContentKey(c));
    }
  }

  lemma KeyAntisymmetric(a: Entry, b: Entry)
    requires KeyLeq(a, b) && KeyLeq(b, a)
    ensures SameKey(a, b)
  {
    LexAntisymmetric(ContentKey(a), ContentKey(b));
  }

  /** The winner of an `apply` is the greater entry, and one of the two. */
  lemma WinnerAbove(a: Entry, b: Entry)
    ensures KeyLeq(a, Winner(a, b)) && KeyLeq(b, Winner(a, b))
    ensures Winner(a, b) == a || Winner(a, b) == b
  {
    KeyReflexive(a);
    KeyReflexive(b);
    KeyTotal(a, b);
  }

  /** What decides a path, read off the entries: the incoming entry takes it when its physical time is
      later, or its counter is greater in the same millisecond, or the clocks are equal and its joined
      chunk list does not come before the other's. */
  lemma WinnerIsGreater(existing: Entry, incoming: Entry)
    ensures Winner(existing, incoming) == existing || Winner(existing, incoming) == incoming
    ensures
      var a, b := existing.hlc, incoming.hlc;
      Winner(existing, incoming) == incoming <==>
        || existing == incoming
        || a.physical < b.physical
        || (a.physical == b.physical && a.logical < b.logical)
        || (a == b && NotAfter(Join(existing.chunkHashes), Join(incoming.chunkHashes)))
  {
    LexLeqIff(ContentKey(existing), ContentKey(incoming));
  }

  /** The joined list is the parts with a comma between neighbours. */
  lemma {:induction false} JoinConcat(a: seq<string>, b: seq<string>)
    ensures Join([]) == "" && forall s :: Join([s]) == s
    ensures a != [] && b != [] ==> Join(a + b) == Join(a) + "," + Join(b)
  {
    if a != [] && b != [] {
      assert (a + b)[1..] == a[1..] + b;
      if |a| == 1 {
        assert a[1..] + b == b;
      } else {
        JoinConcat(a[1..], b);
        assert a[0] + "," + (Join(a[1..]) + "," + Join(b)) == (a[0] + "," + Join(a[1..])) + "," + Join(b);
      }
    }
  }

  /** Among chunk lists made of well-formed hashes the content key identifies the list. */
  lemma {:induction false} JoinInjective(a: seq<string>, b: seq<string>, n: nat)
    requires n > 0
    requires forall s :: s in a ==> |s| == n
    requires forall s :: s in b ==> |s| == n
    requires Join(a) == Join(b)
    ensures a == b
  {
    if a != [] && b != [] {
      assert a[0] in a && b[0] in b;
      assert a[0] == Join(a)[..n] == Join(b)[..n] == b[0];
      if |a| > 1 && |b| > 1 {
        assert Join(a[1..]) == Join(a)[n + 1..] == Join(b)[n + 1..] == Join(b[1..]);
        JoinInjective(a[1..], b[1..], n);
      }
      assert a == [a[0]] + a[1..];
      assert b == [b[0]] + b[1..];
    }
  }
}
