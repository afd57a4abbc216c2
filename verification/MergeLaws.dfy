/** Which of the laws claimed at manifest.rs:90-92 hold of the code, and exactly when. */
module MergeLaws {
  import opened Basics
  import opened Clocks
  import opened Manifests

  // Replaying writes

  lemma ReplayAppend(m: Entries, log: seq<Write>, w: Write)
    ensures Replay(m, log + [w]) == Applied(Replay(m, log), w.path, w.entry)
  {
    assert (log + [w])[..|log|] == log;
  }

  lemma {:induction false} ReplayConcat(m: Entries, a: seq<Write>, b: seq<Write>)
    ensures Replay(m, a + b) == Replay(Replay(m, a), b)
  {
    if b == [] {
      assert a + b == a;
    } else {
      var k := |b| - 1;
      ReplayConcat(m, a, b[..k]);
      assert a + b == (a + b[..k]) + [b[k]];
      ReplayAppend(m, a + b[..k], b[k]);
    }
  }

  lemma ReplayLast(m: Entries, n: Entries, order: seq<string>)
    requires order != [] && forall p :: p in order ==> p in n
    ensures
      var k := |order| - 1;
      Replay(m, Writes(n, order)) == Applied(Replay(m, Writes(n, order[..k])), order[k], n[order[k]])
  {
    var k := |order| - 1;
    assert Writes(n, order)[..k] == Writes(n, order[..k]);
  }

  /** `n` holds every path of `m`, with an entry at least as great. */
  ghost predicate Dominates(n: Entries, m: Entries) {
    forall p :: p in m ==> p in n && KeyLeq(m[p], n[p])
  }

  /** `n` brings an entry to `p`: one that `apply` does not refuse. */
  predicate Offers(n: Entries, p: string) {
    p in n && SafePath(p)
  }

  /** `n` holds every path to which `m` brings an entry, with one at least as great. */
  ghost predicate Covers(n: Entries, m: Entries) {
    forall p :: Offers(m, p) ==> p in n && KeyLeq(m[p], n[p])
  }

  lemma CoversTransitive(a: Entries, b: Entries, c: Entries)
    requires Covers(a, b) && Covers(b, c)
    ensures Covers(a, c)
  {
    forall p | Offers(c, p)
      ensures p in a && KeyLeq(c[p], a[p])
    {
      KeyTransitive(c[p], b[p], a[p]);
    }
  }

  lemma DominatesReflexive(m: Entries)
    ensures Dominates(m, m)
  {
    forall p | p in m {
      KeyReflexive(m[p]);
    }
  }

  lemma DominatesTransitive(a: Entries, b: Entries, c: Entries)
    requires Dominates(a, b) && Dominates(b, c)
    ensures Dominates(a, c)
  {
    forall p | p in c
      ensures KeyLeq(c[p], a[p])
    {
      KeyTransitive(c[p], b[p], a[p]);
    }
  }

  /** `apply` never forgets a path and never lowers an entry, ties and conflict copies included. */
  lemma AppliedClimbs(m: Entries, path: string, e: Entry)
    ensures Dominates(Applied(m, path, e), m)
    ensures SafePath(path) ==> path in Applied(m, path, e) && KeyLeq(e, Applied(m, path, e)[path])
  {
    DominatesReflexive(m);
    KeyReflexive(e);
    if path in m {
      WinnerAbove(m[path], e);
    }
  }

  lemma {:induction false} ReplayClimbs(m: Entries, log: seq<Write>)
    ensures Dominates(Replay(m, log), m)
  {
    if log == [] {
      DominatesReflexive(m);
    } else {
      var k := |log| - 1;
      ReplayClimbs(m, log[..k]);
      AppliedClimbs(Replay(m, log[..k]), log[k].path, log[k].entry);
      DominatesTransitive(Replay(m, log), Replay(m, log[..k]), m);
    }
  }

  lemma {:induction false} ReplayReaches(m: Entries, log: seq<Write>, i: nat)
    requires i < |log| && SafePath(log[i].path)
    ensures log[i].path in Replay(m, log) && KeyLeq(log[i].entry, Replay(m, log)[log[i].path])
  {
    var k := |log| - 1;
    var before := Replay(m, log[..k]);
    AppliedClimbs(before, log[k].path, log[k].entry);
    if i < k {
      ReplayReaches(m, log[..k], i);
      KeyTransitive(log[i].entry, before[log[i].path], Replay(m, log)[log[i].path]);
    }
  }

  ghost predicate SafeKeys(m: Entries) {
    forall p :: p in m ==> SafePath(p)
  }

  /** A merge dominates both of its inputs, whatever ties it meets. */
  lemma MergeDominatesBoth(m: Entries, n: Entries, r: Entries)
    requires IsMerge(m, n, r)
    ensures Dominates(r, m) && Covers(r, n)
  {
    var order :| Enumerates(order, n.Keys) && r == Replay(m, Writes(n, order));
    var log := Writes(n, order);
    ReplayClimbs(m, log);
    forall p | p in n && SafePath(p)
      ensures p in r && KeyLeq(n[p], r[p])
    {
      var i :| 0 <= i < |order| && order[i] == p;
      ReplayReaches(m, log, i);
    }
  }

  lemma MergeExists(m: Entries, n: Entries) returns (r: Entries)
    ensures IsMerge(m, n, r)
  {
    var order := EnumerationExists(n.Keys);
    r := Replay(m, Writes(n, order));
  }

  // The outcome of a merge, path by path

  predicate Conflicted(m: Entries, n: Entries, q: string) {
    q in m && Offers(n, q) && Tie(m[q], n[q])
  }

  /** The conflict between `m` and `n` at `q` leaves its copy at `p`. */
  predicate Lands(m: Entries, n: Entries, q: string, p: string) {
    Conflicted(m, n, q) && ConflictPath(q, Loser(m[q], n[q]).author) == p
  }

  lemma LandsUnique(m: Entries, n: Entries, q: string, x: string, p: string)
    requires Lands(m, n, q, p) && Lands(m, n, x, p)
    ensures q == x
  {
    ConflictNameUnique(q, Loser(m[q], n[q]).author, x, Loser(m[x], n[x]).author);
  }

  ghost function CopyAt(m: Entries, n: Entries, p: string): (e: Entry)
    requires exists q :: Lands(m, n, q, p)
    ensures forall q :: Lands(m, n, q, p) ==> e == Loser(m[q], n[q])
  {
    var q :| Lands(m, n, q, p);
    assert forall x :: Lands(m, n, x, p) ==> x == q by {
      forall x | Lands(m, n, x, p)
        ensures x == q
      {
        LandsUnique(m, n, q, x, p);
      }
    }
    Loser(m[q], n[q])
  }

  ghost predicate Landed(m: Entries, n: Entries, done: set<string>, p: string) {
    exists q :: q in done && Lands(m, n, q, p)
  }

  /** The entry `l` may be offered at `p` as the loser of a conflict while `n` is merged into `m`: the
      two manifests conflict at the path `p` is named after, or `l` itself arrived there first and then
      lost a tie against what `n` brings. */
  ghost predicate Arrives(m: Entries, n: Entries, l: Entry, p: string)
    decreases |p|
  {
    || (exists q :: Lands(m, n, q, p) && l == Loser(m[q], n[q]))
    || (exists q :: ArrivedAndLost(m, n, l, q, p) && Arrives(m, n, l, q))
  }

  ghost predicate ArrivedAndLost(m: Entries, n: Entries, l: Entry, q: string, p: string) {
    && |q| < |p| && p == ConflictPath(q, l.author)
    && Offers(n, q) && q !in m && Tie(l, n[q]) && Winner(l, n[q]) == n[q]
  }

  /** What may arrive at a path `m` lacks does no harm: if `n` brings an entry there, that entry wins
      whenever it comes second; if not, the conflict is between `m` and `n` themselves. */
  ghost predicate Clean(m: Entries, n: Entries) {
    forall l, p :: Arrives(m, n, l, p) && p !in m ==>
      if Offers(n, p) then Winner(l, n[p]) == n[p] else exists q :: Lands(m, n, q, p)
  }

  /** The state of a merge of `n` into `m` once the paths in `done` have been visited. */
  ghost predicate After(m: Entries, n: Entries, done: set<string>, r: Entries) {
    forall p :: HoldsAt(m, n, done, p, r)
  }

  ghost predicate HoldsAt(m: Entries, n: Entries, done: set<string>, p: string, r: Entries) {
    if p in m then
      p in r && r[p] == if p in done && Offers(n, p) then Winner(m[p], n[p]) else m[p]
    else if Offers(n, p) then
      if p in done then p in r && r[p] == n[p] else p in r ==> Arrives(m, n, r[p], p)
    else
      (p in r <==> Landed(m, n, done, p)) && (p in r ==> r[p] == CopyAt(m, n, p))
  }

  lemma LandedMore(m: Entries, n: Entries, done: set<string>, x: string, p: string)
    ensures Landed(m, n, done + {x}, p) <==> Landed(m, n, done, p) || Lands(m, n, x, p)
  {
    hide Lands;
  }

  lemma NewCopy(m: Entries, n: Entries, done: set<string>, x: string)
    requires Conflicted(m, n, x) && x !in done
    ensures
      var cp := ConflictPath(x, Loser(m[x], n[x]).author);
      && Lands(m, n, x, cp) && Arrives(m, n, Loser(m[x], n[x]), cp)
      && CopyAt(m, n, cp) == Loser(m[x], n[x]) && !Landed(m, n, done, cp)
  {
    var cp := ConflictPath(x, Loser(m[x], n[x]).author);
    assert Lands(m, n, x, cp);
    if Landed(m, n, done, cp) {
      var q :| q in done && Lands(m, n, q, cp);
      LandsUnique(m, n, q, x, cp);
    }
  }

  /** The visit of a path `m` holds. */
  lemma AfterSharedStep(m: Entries, n: Entries, done: set<string>, r: Entries, x: string)
    requires After(m, n, done, r)
    requires x in m && Offers(n, x) && x !in done && done <= n.Keys
    ensures After(m, n, done + {x}, Applied(r, x, n[x]))
  {
    hide SafePath, Landed, CopyAt, Winner, Loser, Arrives;
    assert HoldsAt(m, n, done, x, r);
    if Tie(m[x], n[x]) {
      NewCopy(m, n, done, x);
    }
    forall p
      ensures HoldsAt(m, n, done + {x}, p, Applied(r, x, n[x]))
    {
      LandedMore(m, n, done, x, p);
      assert HoldsAt(m, n, done, p, r);
    }
  }

  /** A second-hand loser never arrives at a path neither side holds, in a clean merge. */
  lemma SecondHandIsHeld(m: Entries, n: Entries, l: Entry, q: string)
    requires Clean(m, n) && Arrives(m, n, l, q) && Offers(n, q) && q !in m
    requires Tie(l, n[q]) && Winner(l, n[q]) == n[q]
    ensures
      var cp := ConflictPath(q, l.author);
      Arrives(m, n, l, cp) && (cp in m || Offers(n, cp))
  {
    hide Loser, Short;
    var cp := ConflictPath(q, l.author);
    assert ArrivedAndLost(m, n, l, q, cp);
    assert Arrives(m, n, l, cp);
    if cp !in m && !Offers(n, cp) {
      assert exists x :: Lands(m, n, x, cp);
      var x :| Lands(m, n, x, cp);
      ConflictNameUnique(q, l.author, x, Loser(m[x], n[x]).author);
    }
  }

  /** What a visit leaves of a path only `n` holds, where a loser may have arrived before: `n`'s entry,
      and the loser moved on if the two were tied. */
  lemma FreshVisit(m: Entries, n: Entries, done: set<string>, r: Entries, x: string)
    requires After(m, n, done, r) && Clean(m, n)
    requires x !in m && Offers(n, x) && x !in done
    ensures
      var r' := Applied(r, x, n[x]);
      if x in r && Tie(r[x], n[x]) then
        var cp := ConflictPath(x, r[x].author);
        r' == InsertIfFree(r[x := n[x]], cp, r[x]) && Arrives(m, n, r[x], cp) && (cp in m || Offers(n, cp))
      else r' == r[x := n[x]]
  {
    hide SafePath, Arrives, CopyAt, Landed, Lands, Short;
    assert HoldsAt(m, n, done, x, r);
    if x in r && Tie(r[x], n[x]) {
      SecondHandIsHeld(m, n, r[x], x);
    }
  }

  /** The state of a merge after such a visit, seen from one path. */
  lemma FreshVisitAt(m: Entries, n: Entries, done: set<string>, r: Entries, x: string, r': Entries, p: string)
    requires HoldsAt(m, n, done, p, r) && HoldsAt(m, n, done, x, r)
    requires x !in m && Offers(n, x) && x !in done
    requires if x in r && Tie(r[x], n[x]) then
        var cp := ConflictPath(x, r[x].author);
        r' == InsertIfFree(r[x := n[x]], cp, r[x]) && Arrives(m, n, r[x], cp) && (cp in m || Offers(n, cp))
      else r' == r[x := n[x]]
    ensures HoldsAt(m, n, done + {x}, p, r')
  {
    hide SafePath, Arrives, CopyAt, Landed, Lands, Short, Winner, Offers;
    LandedMore(m, n, done, x, p);
    NotLanded(m, n, x, p);
  }

  lemma AfterFreshStep(m: Entries, n: Entries, done: set<string>, r: Entries, x: string)
    requires After(m, n, done, r) && Clean(m, n)
    requires x !in m && Offers(n, x) && x !in done && done <= n.Keys
    ensures After(m, n, done + {x}, Applied(r, x, n[x]))
  {
    hide HoldsAt, Applied, Clean, InsertIfFree;
    FreshVisit(m, n, done, r, x);
    forall p
      ensures HoldsAt(m, n, done + {x}, p, Applied(r, x, n[x]))
    {
      FreshVisitAt(m, n, done, r, x, Applied(r, x, n[x]), p);
    }
  }

  lemma NotLanded(m: Entries, n: Entries, x: string, p: string)
    requires x !in m
    ensures !Lands(m, n, x, p)
  {
  }

  /** The visit of a path `apply` refuses. */
  lemma AfterRefusal(m: Entries, n: Entries, done: set<string>, r: Entries, x: string)
    requires After(m, n, done, r) && x in n && !SafePath(x)
    ensures After(m, n, done + {x}, Applied(r, x, n[x]))
  {
    hide SafePath, Landed, CopyAt, Winner, Arrives;
    forall p
      ensures HoldsAt(m, n, done + {x}, p, r)
    {
      LandedMore(m, n, done, x, p);
      assert !Lands(m, n, x, p);
      assert HoldsAt(m, n, done, p, r);
    }
  }

  lemma AfterStep(m: Entries, n: Entries, done: set<string>, r: Entries, x: string)
    requires After(m, n, done, r) && Clean(m, n)
    requires x in n && x !in done && done <= n.Keys
    ensures After(m, n, done + {x}, Applied(r, x, n[x]))
  {
    hide After, Applied, SafePath, Clean;
    if !SafePath(x) {
      AfterRefusal(m, n, done, r, x);
    } else if x in m {
      AfterSharedStep(m, n, done, r, x);
    } else {
      AfterFreshStep(m, n, done, r, x);
    }
  }

  lemma AfterNothing(m: Entries, n: Entries)
    ensures After(m, n, {}, Replay(m, Writes(n, [])))
  {
  }

  lemma {:induction false} MergeReaches(m: Entries, n: Entries, order: seq<string>)
    requires Clean(m, n)
    requires forall p :: p in order ==> p in n
    requires forall i, j :: 0 <= i < j < |order| ==> order[i] != order[j]
    ensures After(m, n, (set p | p in order), Replay(m, Writes(n, order)))
  {
    hide *;
    if order == [] {
      AfterNothing(m, n);
      assert (set p | p in order) == {};
    } else {
      var k := |order| - 1;
      var done := (set p | p in order[..k]);
      MergeReaches(m, n, order[..k]);
      ReplayLast(m, n, order);
      AfterStep(m, n, done, Replay(m, Writes(n, order[..k])), order[k]);
      assert (set p | p in order) == done + {order[k]};
    }
  }

  /** The result of a clean merge, path by path and with no reference to the order: the winner where
      `m` holds an entry and `n` brings one, the one entry where only one does, and first-hand
      conflict copies besides. */
  lemma MergeOutcome(m: Entries, n: Entries, r: Entries)
    requires Clean(m, n) && IsMerge(m, n, r)
    ensures After(m, n, n.Keys, r)
  {
    hide Replay, Clean, After, SafePath;
    var order :| Enumerates(order, n.Keys) && r == Replay(m, Writes(n, order));
    MergeReaches(m, n, order);
    assert (set p | p in order) == n.Keys;
  }

  lemma AfterUnique(m: Entries, n: Entries, r: Entries, s: Entries)
    requires After(m, n, n.Keys, r) && After(m, n, n.Keys, s)
    ensures r == s
  {
    hide Arrives, Landed, CopyAt, Winner;
    forall p
      ensures p in r <==> p in s
      ensures p in r ==> r[p] == s[p]
    {
      assert HoldsAt(m, n, n.Keys, p, r) && HoldsAt(m, n, n.Keys, p, s);
    }
  }

  // Iteration order

  /** A path `m` already holds is decided by the two entries alone. */
  lemma {:induction false} SharedPathDecided(m: Entries, n: Entries, order: seq<string>, p: string)
    requires forall x :: x in order ==> x in n
    requires forall i, j :: 0 <= i < j < |order| ==> order[i] != order[j]
    requires p in m
    ensures
      var r := Replay(m, Writes(n, order));
      p in r && r[p] == if p in order && SafePath(p) then Winner(m[p], n[p]) else m[p]
  {
    if order != [] {
      var k := |order| - 1;
      SharedPathDecided(m, n, order[..k], p);
      ReplayLast(m, n, order);
    }
  }

  lemma MergeAtHeldPath(m: Entries, n: Entries, r: Entries, p: string)
    requires IsMerge(m, n, r) && p in m
    ensures p in r && r[p] == if p in n && SafePath(p) then Winner(m[p], n[p]) else m[p]
  {
    var order :| Enumerates(order, n.Keys) && r == Replay(m, Writes(n, order));
    SharedPathDecided(m, n, order, p);
  }

  /** A conflict name appears only through a visit of the path it is named after. */
  lemma {:induction false} NeverCreated(m: Entries, n: Entries, order: seq<string>, q: string, a: string)
    requires forall x :: x in order ==> x in n
    requires ConflictPath(q, a) !in m && q !in order
    requires ConflictPath(q, a) in order ==> !SafePath(ConflictPath(q, a))
    ensures ConflictPath(q, a) !in Replay(m, Writes(n, order))
  {
    hide Short, SafePath, Winner, Loser;
    if order != [] {
      var k := |order| - 1;
      var before := Replay(m, Writes(n, order[..k]));
      NeverCreated(m, n, order[..k], q, a);
      ReplayLast(m, n, order);
      var x := order[k];
      if x in before {
        var copy := ConflictPath(x, Loser(before[x], n[x]).author);
        if copy == ConflictPath(q, a) {
          ConflictNameUnique(x, Loser(before[x], n[x]).author, q, a);
        }
      }
    }
  }

  ghost predicate Distinct(order: seq<string>) {
    forall i, j :: 0 <= i < j < |order| ==> order[i] != order[j]
  }

  /** Every arrival can be made to happen, by visits of shorter paths only. */
  lemma {:induction false} ArrivalHappens(m: Entries, n: Entries, l: Entry, p: string) returns (visit: seq<string>)
    requires Arrives(m, n, l, p) && p !in m
    ensures Distinct(visit) && forall x :: x in visit ==> x in n && |x| < |p|
    ensures p in Replay(m, Writes(n, visit)) && Replay(m, Writes(n, visit))[p] == l
    decreases |p|
  {
    hide Short, SafePath, Winner, Loser, Replay;
    if q :| Lands(m, n, q, p) && l == Loser(m[q], n[q]) {
      visit := [q];
      ReplayLast(m, n, visit);
      ReplayNothing(m, n);
    } else {
      var q :| ArrivedAndLost(m, n, l, q, p) && Arrives(m, n, l, q);
      var before := ArrivalHappens(m, n, l, q);
      visit := before + [q];
      assert visit[..|before|] == before;
      ReplayLast(m, n, visit);
      NeverCreated(m, n, before, q, l.author);
      LostTieCopies(Replay(m, Writes(n, before)), q, l, n[q]);
    }
  }

  lemma ReplayNothing(m: Entries, n: Entries)
    ensures Replay(m, Writes(n, [][..0])) == m
  {
  }

  lemma LostTieCopies(r: Entries, q: string, l: Entry, x: Entry)
    requires SafePath(q) && q in r && r[q] == l && Tie(l, x) && Winner(l, x) == x
    requires ConflictPath(q, l.author) !in r
    ensures ConflictPath(q, l.author) in Applied(r, q, x) && Applied(r, q, x)[ConflictPath(q, l.author)] == l
  {
  }

  /** Any visits can be completed to a whole merge. */
  lemma CompleteVisits(m: Entries, n: Entries, visit: seq<string>) returns (rest: seq<string>, r: Entries)
    requires Distinct(visit) && forall x :: x in visit ==> x in n
    ensures Distinct(rest) && forall x :: x in rest <==> x in n && x !in visit
    ensures IsMerge(m, n, r) && r == Replay(Replay(m, Writes(n, visit)), Writes(n, rest))
  {
    hide Replay;
    rest := EnumerationExists(n.Keys - set x | x in visit);
    r := Replay(m, Writes(n, visit + rest));
    assert Writes(n, visit + rest) == Writes(n, visit) + Writes(n, rest);
    ReplayConcat(m, Writes(n, visit), Writes(n, rest));
    JoinVisits(n.Keys, visit, rest);
  }

  lemma JoinVisits(s: set<string>, visit: seq<string>, rest: seq<string>)
    requires Distinct(visit) && Distinct(rest)
    requires forall x :: x in visit ==> x in s
    requires forall x :: x in rest <==> x in s && x !in visit
    ensures Enumerates(visit + rest, s)
  {
    var order := visit + rest;
    forall i, j | 0 <= i < j < |order|
      ensures order[i] != order[j]
    {
      if i < |visit| <= j {
        assert order[i] in visit && order[j] in rest;
      }
    }
  }

  /** A merge that visits `q` first. */
  lemma FirstVisit(m: Entries, n: Entries, q: string) returns (rest: seq<string>, r: Entries)
    requires Offers(n, q) && q !in m
    ensures Distinct(rest) && forall x :: x in rest <==> x in n && x != q
    ensures IsMerge(m, n, r) && r == Replay(m[q := n[q]], Writes(n, rest))
  {
    hide Replay, IsMerge, SafePath;
    rest, r := CompleteVisits(m, n, [q]);
    ReplayLast(m, n, [q]);
    ReplayNothing(m, n);
  }

  ghost predicate OrderInvisible(m: Entries, n: Entries) {
    forall r, s :: IsMerge(m, n, r) && IsMerge(m, n, s) ==> r == s
  }

  /** An arrival that wins over what `n` holds there shows up in one order and not in another. */
  lemma WinningArrivalShows(m: Entries, n: Entries, l: Entry, p: string) returns (r: Entries, s: Entries)
    requires Arrives(m, n, l, p) && p !in m && Offers(n, p) && Winner(l, n[p]) != n[p]
    ensures IsMerge(m, n, r) && IsMerge(m, n, s) && r != s
  {
    hide Replay, IsMerge, SafePath, Arrives;
    var visit := ArrivalHappens(m, n, l, p);
    var before := Replay(m, Writes(n, visit));
    var rest;
    rest, r := CompleteVisits(m, n, visit);
    SharedPathDecided(before, n, rest, p);
    var others;
    others, s := FirstVisit(m, n, p);
    SharedPathDecided(m[p := n[p]], n, others, p);
    WinnerAbove(l, n[p]);
  }

  /** A second-hand arrival at a path neither side fills shows up in one order and not in another. */
  lemma SecondHandShows(m: Entries, n: Entries, l: Entry, p: string) returns (r: Entries, s: Entries)
    requires Arrives(m, n, l, p) && p !in m && !Offers(n, p) && !exists q :: Lands(m, n, q, p)
    ensures IsMerge(m, n, r) && IsMerge(m, n, s) && r != s
  {
    hide Replay, IsMerge, SafePath, Winner, Short;
    var q :| ArrivedAndLost(m, n, l, q, p) && Arrives(m, n, l, q);
    var visit := ArrivalHappens(m, n, l, p);
    var rest;
    rest, r := CompleteVisits(m, n, visit);
    SharedPathDecided(Replay(m, Writes(n, visit)), n, rest, p);
    var others;
    others, s := FirstVisit(m, n, q);
    NeverCreated(m[q := n[q]], n, others, q, l.author);
  }

  /** Exactly when the HashMap's iteration order does not show in a merge. */
  lemma OrderInvisibleIff(m: Entries, n: Entries)
    ensures OrderInvisible(m, n) <==> Clean(m, n)
  {
    hide Replay, IsMerge, SafePath, Arrives, After, Winner;
    if Clean(m, n) {
      forall r, s | IsMerge(m, n, r) && IsMerge(m, n, s)
        ensures r == s
      {
        MergeOutcome(m, n, r);
        MergeOutcome(m, n, s);
        AfterUnique(m, n, r, s);
      }
    } else {
      var l, p :| Arrives(m, n, l, p) && p !in m &&
        !(if Offers(n, p) then Winner(l, n[p]) == n[p] else exists q :: Lands(m, n, q, p));
      if Offers(n, p) {
        var r, s := WinningArrivalShows(m, n, l, p);
      } else {
        var r, s := SecondHandShows(m, n, l, p);
      }
    }
  }

  // Commutativity

  /** Tied entries differ in their chunk lists. */
  ghost predicate DistinctTies(m: Entries, n: Entries) {
    forall q :: Conflicted(m, n, q) ==> ContentKey(m[q]) != ContentKey(n[q])
  }

  lemma WinnerCommutes(a: Entry, b: Entry)
    requires Tie(a, b) ==> ContentKey(a) != ContentKey(b)
    ensures Winner(a, b) == Winner(b, a)
    ensures Tie(a, b) ==> Loser(a, b) == Loser(b, a)
  {
    LexTotal(ContentKey(a), ContentKey(b));
    if LexLeq(ContentKey(a), ContentKey(b)) && LexLeq(ContentKey(b), ContentKey(a)) {
      LexAntisymmetric(ContentKey(a), ContentKey(b));
    }
  }

  lemma LandsCommutes(m: Entries, n: Entries, q: string, p: string)
    requires DistinctTies(m, n)
    ensures Lands(m, n, q, p) <==> Lands(n, m, q, p)
    ensures Lands(m, n, q, p) ==> Loser(m[q], n[q]) == Loser(n[q], m[q])
  {
    if Conflicted(m, n, q) {
      WinnerCommutes(m[q], n[q]);
    }
  }

  lemma LandedInBoth(m: Entries, n: Entries, p: string)
    ensures forall q :: Lands(m, n, q, p) ==> q in n.Keys && q in m.Keys
  {
  }

  /** At a path both sides refuse from each other, each keeps its own entry or its copy of a conflict:
      what the two keep there is the same. */
  ghost predicate RefusedAlike(m: Entries, n: Entries) {
    forall p :: !SafePath(p) ==> KeptAt(m, n, p) == KeptAt(n, m, p)
  }

  ghost function KeptAt(m: Entries, n: Entries, p: string): Option<Entry> {
    if p in m then Some(m[p]) else if Landed(m, n, n.Keys, p) then Some(CopyAt(m, n, p)) else None
  }

  /** Two clean merges, one each way round, agree exactly when the refused paths do. */
  lemma CleanMergesAgreeIff(m: Entries, n: Entries, r: Entries, s: Entries)
    requires DistinctTies(m, n) && Clean(m, n) && Clean(n, m)
    requires IsMerge(m, n, r) && IsMerge(n, m, s)
    ensures r == s <==> RefusedAlike(m, n)
  {
    hide Replay, Winner, Loser, Lands, IsMerge, Clean, Arrives, SafePath, After, HoldsAt, Landed, CopyAt, KeptAt;
    MergeOutcome(m, n, r);
    MergeOutcome(n, m, s);
    forall p
      ensures Lookup(r, p) == Lookup(s, p) <==> SafePath(p) || KeptAt(m, n, p) == KeptAt(n, m, p)
    {
      CleanMergesAt(m, n, r, s, p);
    }
    SameLookups(r, s);
  }

  function Lookup(m: Entries, p: string): Option<Entry> {
    if p in m then Some(m[p]) else None
  }

  lemma SameLookups(r: Entries, s: Entries)
    ensures r == s <==> forall p :: Lookup(r, p) == Lookup(s, p)
  {
    if forall p :: Lookup(r, p) == Lookup(s, p) {
      forall p
        ensures p in r <==> p in s
        ensures p in r ==> r[p] == s[p]
      {
        assert Lookup(r, p) == Lookup(s, p);
      }
    }
  }

  lemma CleanMergesAt(m: Entries, n: Entries, r: Entries, s: Entries, p: string)
    requires DistinctTies(m, n) && After(m, n, n.Keys, r) && After(n, m, m.Keys, s)
    ensures Lookup(r, p) == Lookup(s, p) <==> SafePath(p) || KeptAt(m, n, p) == KeptAt(n, m, p)
  {
    hide Winner, Loser, Lands, Arrives, SafePath;
    assert HoldsAt(m, n, n.Keys, p, r) && HoldsAt(n, m, m.Keys, p, s);
    forall q {
      LandsCommutes(m, n, q, p);
    }
    LandedInBoth(m, n, p);
    LandedInBoth(n, m, p);
    if p in m && p in n && SafePath(p) {
      assert Tie(m[p], n[p]) ==> Conflicted(m, n, p);
      WinnerCommutes(m[p], n[p]);
    }
  }

  /** A tie with equal content keys, as two deletes or the same bytes by two authors make it, always
      breaks commutativity: each side keeps the other's entry. */
  lemma EqualKeyTieBreaksCommutativity(m: Entries, n: Entries, q: string, r: Entries, s: Entries)
    requires Conflicted(m, n, q) && ContentKey(m[q]) == ContentKey(n[q])
    requires IsMerge(m, n, r) && IsMerge(n, m, s)
    ensures q in r && r[q] == n[q] && q in s && s[q] == m[q] && r != s
  {
    MergeAtHeldPath(m, n, r, q);
    MergeAtHeldPath(n, m, s, q);
    LexTotal(ContentKey(m[q]), ContentKey(m[q]));
  }

  ghost predicate AlwaysCommutes(m: Entries, n: Entries) {
    forall r, s :: IsMerge(m, n, r) && IsMerge(n, m, s) ==> r == s
  }

  /** Exactly when merge is commutative, whatever orders the two sides use: tied entries have distinct
      content keys, nothing that may arrive at a conflict name does harm on either side, and the paths
      that neither takes from the other agree. */
  lemma MergeCommutesIff(m: Entries, n: Entries)
    ensures AlwaysCommutes(m, n) <==> DistinctTies(m, n) && Clean(m, n) && Clean(n, m) && RefusedAlike(m, n)
  {
    hide Replay, IsMerge, SafePath, Clean, RefusedAlike, Lands;
    var r := MergeExists(m, n);
    var s := MergeExists(n, m);
    if AlwaysCommutes(m, n) {
      if !DistinctTies(m, n) {
        var q :| Conflicted(m, n, q) && ContentKey(m[q]) == ContentKey(n[q]);
        EqualKeyTieBreaksCommutativity(m, n, q, r, s);
      }
      assert OrderInvisible(m, n) && OrderInvisible(n, m);
      OrderInvisibleIff(m, n);
      OrderInvisibleIff(n, m);
      CleanMergesAgreeIff(m, n, r, s);
    } else if DistinctTies(m, n) && Clean(m, n) && Clean(n, m) && RefusedAlike(m, n) {
      forall r, s | IsMerge(m, n, r) && IsMerge(n, m, s)
        ensures r == s
      {
        CleanMergesAgreeIff(m, n, r, s);
      }
    }
  }

  /** For manifests that hold safe paths only, as every manifest built by puts and merges of entries
      with plain author ids does, the refused paths need no thought. */
  lemma SafeMergesCommute(m: Entries, n: Entries, r: Entries, s: Entries)
    requires SafeKeys(m) && SafeKeys(n)
    requires DistinctTies(m, n) && Clean(m, n) && Clean(n, m)
    requires IsMerge(m, n, r) && IsMerge(n, m, s)
    ensures r == s
  {
    hide Replay, Winner, Loser, IsMerge, Clean, Lands, SafePath;
    assert RefusedAlike(m, n) by {
      forall p | !SafePath(p)
        ensures KeptAt(m, n, p) == KeptAt(n, m, p)
      {
        forall q {
          LandsCommutes(m, n, q, p);
        }
        LandedInBoth(m, n, p);
        LandedInBoth(n, m, p);
      }
    }
    CleanMergesAgreeIff(m, n, r, s);
  }

  // Idempotence and associativity

  /** Merging a manifest into itself changes nothing: this law needs no hypothesis. */
  lemma MergeIdempotent(m: Entries, r: Entries)
    requires IsMerge(m, m, r)
    ensures r == m
  {
    var order :| Enumerates(order, m.Keys) && r == Replay(m, Writes(m, order));
    ReplayOfOwnEntries(m, order);
  }

  lemma {:induction false} ReplayOfOwnEntries(m: Entries, order: seq<string>)
    requires forall p :: p in order ==> p in m
    ensures Replay(m, Writes(m, order)) == m
  {
    if order != [] {
      var k := |order| - 1;
      ReplayOfOwnEntries(m, order[..k]);
      ReplayLast(m, m, order);
      assert m[order[k] := m[order[k]]] == m;
    }
  }

  ghost predicate TieFree(m: Entries, n: Entries) {
    forall q :: !Conflicted(m, n, q)
  }

  /** Without ties a merge is the path-wise greater entry. */
  function Newest(m: Entries, n: Entries): Entries {
    map p | p in m.Keys + n.Keys && (p in m || SafePath(p)) ::
      if !Offers(n, p) then m[p] else if p !in m then n[p] else Winner(m[p], n[p])
  }

  lemma TieFreeMerge(m: Entries, n: Entries, r: Entries)
    requires TieFree(m, n) && IsMerge(m, n, r)
    ensures r == Newest(m, n)
  {
    hide *;
    TieFreeIsClean(m, n);
    MergeOutcome(m, n, r);
    NewestIsOutcome(m, n);
    AfterUnique(m, n, r, Newest(m, n));
  }

  lemma {:induction false} NothingArrives(m: Entries, n: Entries, l: Entry, p: string)
    requires TieFree(m, n)
    ensures !Arrives(m, n, l, p)
    decreases |p|
  {
    hide Loser, Short, Winner;
    if Arrives(m, n, l, p) {
      var q :| ArrivedAndLost(m, n, l, q, p) && Arrives(m, n, l, q);
      NothingArrives(m, n, l, q);
    }
  }

  lemma TieFreeIsClean(m: Entries, n: Entries)
    requires TieFree(m, n)
    ensures Clean(m, n)
    ensures forall p :: !Landed(m, n, n.Keys, p)
  {
    hide Loser, Arrives;
    forall l, p
      ensures !Arrives(m, n, l, p)
    {
      NothingArrives(m, n, l, p);
    }
  }

  lemma NewestIsOutcome(m: Entries, n: Entries)
    requires TieFree(m, n)
    ensures After(m, n, n.Keys, Newest(m, n))
  {
    TieFreeIsClean(m, n);
    hide Winner, Landed, TieFree, Clean;
  }

  lemma WinnerAssociates(x: Entry, y: Entry, z: Entry)
    requires !Tie(x, y) && !Tie(y, z) && !Tie(x, z)
    ensures Winner(Winner(x, y), z) == Winner(x, Winner(y, z))
  {
  }

  lemma NewestTieFree(a: Entries, b: Entries, c: Entries)
    requires TieFree(a, c) && TieFree(b, c)
    ensures TieFree(Newest(a, b), c) && TieFree(c, Newest(a, b))
  {
    forall q
      ensures !Conflicted(Newest(a, b), c, q) && !Conflicted(c, Newest(a, b), q)
    {
      assert !Conflicted(a, c, q) && !Conflicted(b, c, q);
    }
  }

  lemma TieFreeCommutes(a: Entries, b: Entries)
    requires TieFree(a, b)
    ensures TieFree(b, a)
  {
    forall q
      ensures !Conflicted(b, a, q)
    {
      assert !Conflicted(a, b, q);
    }
  }

  lemma NewestAssociates(a: Entries, b: Entries, c: Entries)
    requires TieFree(a, b) && TieFree(b, c) && TieFree(a, c)
    ensures Newest(Newest(a, b), c) == Newest(a, Newest(b, c))
  {
    hide Winner, SafePath;
    var l, r := Newest(Newest(a, b), c), Newest(a, Newest(b, c));
    assert l.Keys == r.Keys;
    forall p | p in l
      ensures l[p] == r[p]
    {
      if p in a && p in b && p in c && SafePath(p) {
        assert !Conflicted(a, b, p) && !Conflicted(b, c, p) && !Conflicted(a, c, p);
        WinnerAssociates(a[p], b[p], c[p]);
      }
    }
  }

  /** Without ties merge is associative, for every iteration order of all four merges. */
  lemma MergeAssociative(a: Entries, b: Entries, c: Entries, ab: Entries, abThenC: Entries, bc: Entries,
          aThenBc: Entries)
    requires TieFree(a, b) && TieFree(b, c) && TieFree(a, c)
    requires IsMerge(a, b, ab) && IsMerge(ab, c, abThenC)
    requires IsMerge(b, c, bc) && IsMerge(a, bc, aThenBc)
    ensures abThenC == aThenBc
  {
    hide Winner, IsMerge, Newest;
    TieFreeMerge(a, b, ab);
    TieFreeMerge(b, c, bc);
    NewestTieFree(a, b, c);
    TieFreeMerge(ab, c, abThenC);
    TieFreeCommutes(a, b);
    TieFreeCommutes(a, c);
    NewestTieFree(b, c, a);
    TieFreeMerge(a, bc, aThenBc);
    NewestAssociates(a, b, c);
  }

  const DELETED_BY_ALICE := Entry([], 0, Hlc(5, 0), "alice", true)
  const DELETED_BY_BOB := Entry([], 0, Hlc(5, 0), "bob", true)

  /** A concrete failure of commutativity: two deletes with the same clock. */
  lemma CommutativityWitness() returns (r: Entries, s: Entries)
    ensures IsMerge(map["a" := DELETED_BY_ALICE], map["a" := DELETED_BY_BOB], r)
    ensures IsMerge(map["a" := DELETED_BY_BOB], map["a" := DELETED_BY_ALICE], s)
    ensures r != s
  {
    hide IsMerge, Replay, Applied, SafePath;
    var m, n := map["a" := DELETED_BY_ALICE], map["a" := DELETED_BY_BOB];
    r := MergeExists(m, n);
    s := MergeExists(n, m);
    PlainNameSafe();
    EqualKeyTieBreaksCommutativity(m, n, "a", r, s);
  }

  // Conflict copies

  /** After a tie both entries are held, the winner at the path and the loser at its conflict name,
      exactly when that name was free or already held the loser. */
  lemma ConflictKeepsBothIff(m: Entries, p: string, e: Entry)
    requires SafePath(p) && p in m && Tie(m[p], e)
    ensures
      var r := Applied(m, p, e);
      var copy := ConflictPath(p, Loser(m[p], e).author);
      && r[p] == Winner(m[p], e)
      && copy in r
      && (r[copy] == Loser(m[p], e) <==> copy !in m || m[copy] == Loser(m[p], e))
  {
  }

  // Which paths a manifest can hold

  /** Every entry's author id makes a safe conflict name from a safe path. */
  ghost predicate PlainAuthors(m: Entries) {
    forall p :: p in m ==> PlainAuthor(m[p].author)
  }

  /** Exactly when one `apply` to a manifest of safe paths leaves it one: unless it makes a conflict copy
      for an author id that is not plain. The check at manifest.rs:100 does not see that name. */
  lemma AppliedSafeIff(m: Entries, p: string, e: Entry)
    requires SafeKeys(m)
    ensures SafeKeys(Applied(m, p, e)) <==>
      !(SafePath(p) && p in m && Tie(m[p], e) && !PlainAuthor(Loser(m[p], e).author))
  {
    hide SafePath, Short, PlainAuthor, Winner;
    if SafePath(p) && p in m {
      ConflictPathSafeIff(p, Loser(m[p], e).author);
      if Tie(m[p], e) {
        assert ConflictPath(p, Loser(m[p], e).author) in Applied(m, p, e);
      }
    }
  }

  lemma AppliedAuthors(m: Entries, p: string, e: Entry)
    requires PlainAuthors(m) && PlainAuthor(e.author)
    ensures PlainAuthors(Applied(m, p, e))
    ensures SafePath(p) && p in m ==> PlainAuthor(Loser(m[p], e).author)
  {
    hide SafePath, Short, PlainAuthor, ContentKey, ConflictPath;
  }

  /** Every manifest built by puts and merges of entries with plain author ids holds safe paths only,
      conflict copies included, whatever paths were offered. */
  lemma {:induction false} ManifestPathsSafe(m: Entries, log: seq<Write>)
    requires SafeKeys(m) && PlainAuthors(m)
    requires forall w :: w in log ==> PlainAuthor(w.entry.author)
    ensures SafeKeys(Replay(m, log)) && PlainAuthors(Replay(m, log))
  {
    hide SafePath, Winner, Short, PlainAuthor;
    if log != [] {
      var w := log[|log| - 1];
      var before := Replay(m, log[..|log| - 1]);
      ManifestPathsSafe(m, log[..|log| - 1]);
      AppliedSafeIff(before, w.path, w.entry);
      AppliedAuthors(before, w.path, w.entry);
    }
  }

  /** A tie whose loser has the author id `/../../x` puts an unsafe path into the manifest. */
  lemma UnsafeCopyWitness()
    ensures
      var x := Entry([], 0, Hlc(5, 0), "/../../x", false);
      var y := Entry(["y"], 1, Hlc(5, 0), "bob", false);
      var m := map["a" := x];
      && SafeKeys(m)
      && "a.conflict-/../../x" in Applied(m, "a", y)
      && !SafePath("a.conflict-/../../x")
  {
    hide SafePath, PlainAuthor;
    var x := Entry([], 0, Hlc(5, 0), "/../../x", false);
    var y := Entry(["y"], 1, Hlc(5, 0), "bob", false);
    PlainNameSafe();
    assert Loser(x, y) == x;
    assert ConflictPath("a", "/../../x") == "a.conflict-/../../x";
    NotPlainWitness();
    ConflictPathSafeIff("a", "/../../x");
  }

  // Redelivery

  /** What makes another `apply` of `e` at `p` a no-op. */
  ghost predicate Absorbed(m: Entries, p: string, e: Entry) {
    || !SafePath(p)
    || (p in m &&
        (|| Less(e.hlc, m[p].hlc)
         || m[p] == e
         || (Tie(m[p], e) && Winner(m[p], e) == m[p] && ConflictPath(p, e.author) in m)))
  }

  lemma AbsorbedIff(m: Entries, p: string, e: Entry)
    ensures Absorbed(m, p, e) <==> Applied(m, p, e) == m
  {
    if SafePath(p) && p in m && Absorbed(m, p, e) {
      assert m[p := m[p]] == m;
    }
  }

  /** An entry is absorbed by the very manifest it has been applied to. */
  lemma AppliedIsAbsorbed(m: Entries, p: string, e: Entry)
    ensures Absorbed(Applied(m, p, e), p, e)
  {
  }

  /** Exactly what one more `apply` must not do: replace `e` by a different entry with the same clock
      and the same content key. */
  lemma AbsorptionKeptIff(m: Entries, p: string, e: Entry, q: string, f: Entry)
    requires Absorbed(m, p, e)
    ensures Absorbed(Applied(m, q, f), p, e) <==>
      !(SafePath(p) && q == p && m[p] == e && Tie(e, f) && ContentKey(e) == ContentKey(f))
  {
    if SafePath(p) && q == p && SafePath(q) {
      var x := m[p];
      WinnerAbove(x, f);
      LexTotal(ContentKey(e), ContentKey(f));
      LexTotal(ContentKey(x), ContentKey(x));
      if Tie(x, f) && Tie(x, e) && Winner(x, f) == f {
        if LexLeq(ContentKey(f), ContentKey(e)) {
          LexTransitive(ContentKey(x), ContentKey(f), ContentKey(e));
        }
      }
      if LexLeq(ContentKey(e), ContentKey(f)) && LexLeq(ContentKey(f), ContentKey(e)) {
        LexAntisymmetric(ContentKey(e), ContentKey(f));
      }
    }
  }

  /** Nothing in `log` ties with `e` at `p` on an equal content key. */
  ghost predicate NoEqualKeyTie(log: seq<Write>, p: string, e: Entry) {
    forall w :: w in log && w.path == p && Tie(e, w.entry) ==> ContentKey(e) != ContentKey(w.entry)
  }

  lemma {:induction false} StaysAbsorbed(m: Entries, p: string, e: Entry, log: seq<Write>)
    requires Absorbed(m, p, e) && NoEqualKeyTie(log, p, e)
    ensures Absorbed(Replay(m, log), p, e)
  {
    if log != [] {
      var k := |log| - 1;
      StaysAbsorbed(m, p, e, log[..k]);
      AbsorptionKeptIff(Replay(m, log[..k]), p, e, log[k].path, log[k].entry);
    }
  }

  /** Redelivery is absorbed for ever: once applied, an entry can be applied again after any further
      puts and merges without effect. */
  lemma RedeliveryAbsorbed(m: Entries, p: string, e: Entry, log: seq<Write>)
    requires NoEqualKeyTie(log, p, e)
    ensures
      var later := Replay(Applied(m, p, e), log);
      Applied(later, p, e) == later
  {
    AppliedIsAbsorbed(m, p, e);
    StaysAbsorbed(Applied(m, p, e), p, e, log);
    AbsorbedIff(Replay(Applied(m, p, e), log), p, e);
  }

  lemma {:induction false} MergedIsAbsorbed(m: Entries, n: Entries, order: seq<string>, later: seq<Write>, i: nat)
    requires forall p :: p in order ==> p in n
    requires forall j, k :: 0 <= j < k < |order| ==> order[j] != order[k]
    requires i < |order| && NoEqualKeyTie(later, order[i], n[order[i]])
    ensures Absorbed(Replay(Replay(m, Writes(n, order)), later), order[i], n[order[i]])
  {
    var log := Writes(n, order);
    var before := Replay(m, log[..i]);
    var p, e := order[i], n[order[i]];
    AppliedIsAbsorbed(before, p, e);
    assert log == (log[..i] + [log[i]]) + log[i + 1..];
    ReplayAppend(m, log[..i], log[i]);
    ReplayConcat(m, log[..i] + [log[i]], log[i + 1..]);
    StaysAbsorbed(Applied(before, p, e), p, e, log[i + 1..]);
    StaysAbsorbed(Replay(m, log), p, e, later);
  }

  /** Gossip of an old snapshot: after it has been merged once, and whatever has happened since,
      merging it again changes nothing. */
  lemma OldSnapshotAbsorbed(m: Entries, n: Entries, r: Entries, later: seq<Write>, s: Entries)
    requires IsMerge(m, n, r)
    requires forall p :: p in n ==> NoEqualKeyTie(later, p, n[p])
    requires IsMerge(Replay(r, later), n, s)
    ensures s == Replay(r, later)
  {
    var now := Replay(r, later);
    var order :| Enumerates(order, n.Keys) && r == Replay(m, Writes(n, order));
    forall p | p in n
      ensures Absorbed(now, p, n[p])
    {
      var i :| 0 <= i < |order| && order[i] == p;
      MergedIsAbsorbed(m, n, order, later, i);
    }
    var again :| Enumerates(again, n.Keys) && s == Replay(now, Writes(n, again));
    ReplayAbsorbed(now, n, again);
  }

  lemma {:induction false} ReplayAbsorbed(m: Entries, n: Entries, order: seq<string>)
    requires forall p :: p in order ==> p in n && Absorbed(m, p, n[p])
    ensures Replay(m, Writes(n, order)) == m
  {
    if order != [] {
      var k := |order| - 1;
      ReplayAbsorbed(m, n, order[..k]);
      ReplayLast(m, n, order);
      AbsorbedIff(m, order[k], n[order[k]]);
    }
  }
}
