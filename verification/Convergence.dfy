/** Strong eventual consistency of manifests over every run of any number of replicas: puts,
    snapshots, and deliveries in any order, any number of times, merged in any iteration order. */
module Convergence {
  import opened Basics
  import opened Clocks
  import opened Manifests
  import opened MergeLaws

  // Conflict names of the paths in play

  /** `p` is a conflict name, at any remove, of a path in `paths`. */
  ghost predicate DerivedFrom(p: string, paths: set<string>)
    decreases |p|
  {
    exists q, a :: |q| < |p| && p == ConflictPath(q, a) && (q in paths || DerivedFrom(q, paths))
  }

  ghost predicate KeysFrom(m: Entries, paths: set<string>) {
    forall p :: p in m ==> p in paths || DerivedFrom(p, paths)
  }

  /** Applying an entry at `q` leaves every other path alone that is not a conflict name in play. */
  lemma AppliedElsewhere(m: Entries, q: string, e: Entry, p: string, paths: set<string>)
    requires KeysFrom(m, paths)
    requires q in paths || DerivedFrom(q, paths)
    requires p != q && !DerivedFrom(p, paths)
    ensures p in Applied(m, q, e) <==> p in m
    ensures p in m ==> Applied(m, q, e)[p] == m[p]
  {
    if q in m {
      var copy := ConflictPath(q, Loser(m[q], e).author);
      assert DerivedFrom(copy, paths);
    }
  }

  lemma AppliedKeysFrom(m: Entries, q: string, e: Entry, paths: set<string>)
    requires KeysFrom(m, paths)
    requires q in paths || DerivedFrom(q, paths)
    ensures KeysFrom(Applied(m, q, e), paths)
  {
    if q in m {
      var copy := ConflictPath(q, Loser(m[q], e).author);
      assert DerivedFrom(copy, paths);
    }
  }

  lemma {:induction false} MergeAtPrimaryPath(m: Entries, n: Entries, order: seq<string>, p: string, paths: set<string>)
    requires KeysFrom(m, paths) && KeysFrom(n, paths)
    requires SafePath(p) && !DerivedFrom(p, paths)
    requires forall x :: x in order ==> x in n
    requires forall i, j :: 0 <= i < j < |order| ==> order[i] != order[j]
    ensures
      var r := Replay(m, Writes(n, order));
      && KeysFrom(r, paths)
      && (p in r <==> p in m || p in order)
      && (p in r ==>
          r[p] == if p !in order then m[p] else if p !in m then n[p] else Winner(m[p], n[p]))
  {
    hide DerivedFrom;
    if order != [] {
      var k := |order| - 1;
      var before := Replay(m, Writes(n, order[..k]));
      MergeAtPrimaryPath(m, n, order[..k], p, paths);
      ReplayLast(m, n, order);
      AppliedKeysFrom(before, order[k], n[order[k]], paths);
      if order[k] != p {
        AppliedElsewhere(before, order[k], n[order[k]], p, paths);
      }
    }
  }

  // Replicas and runs

  /** A replica's manifest, and the writes in its causal history: its own puts and those behind
      every snapshot it has merged. */
  datatype Replica = Replica(entries: Entries, history: set<Write>)

  datatype System = System(replicas: seq<Replica>, sent: set<Replica>)

  datatype Step =
    | Put(r: nat, path: string, entry: Entry)
    | Send(r: nat)
    | Deliver(r: nat, snapshot: Replica)

  ghost predicate Init(s: System) {
    s.sent == {} && forall r :: 0 <= r < |s.replicas| ==> s.replicas[r] == Replica(map[], {})
  }

  ghost predicate Next(s: System, step: Step, t: System) {
    && step.r < |s.replicas|
    && var me := s.replicas[step.r];
    match step
    case Put(r, path, entry) =>
      t == s.(replicas := s.replicas[r := Replica(Applied(me.entries, path, entry), me.history + {Write(path, entry)})])
    case Send(r) =>
      t == s.(sent := s.sent + {me})
    case Deliver(r, snapshot) =>
      && snapshot in s.sent
      && exists merged ::
        IsMerge(me.entries, snapshot.entries, merged) &&
        t == s.(replicas := s.replicas[r := Replica(merged, me.history + snapshot.history)])
  }

  ghost predicate IsRun(run: seq<System>, steps: seq<Step>) {
    && |run| == |steps| + 1
    && Init(run[0])
    && forall i :: 0 <= i < |steps| ==> Next(run[i], steps[i], run[i + 1])
  }

  /** Every write so far is at one of `paths`. */
  ghost predicate WritesWithin(steps: seq<Step>, paths: set<string>) {
    forall i :: 0 <= i < |steps| && steps[i].Put? ==> steps[i].path in paths
  }

  /** What the manifest holds at `p` is the greatest write to `p` in the causal history. */
  ghost predicate HoldsMaximum(v: Replica, p: string) {
    && (p in v.entries <==> exists e :: Write(p, e) in v.history)
    && (p in v.entries ==> Write(p, v.entries[p]) in v.history)
    && (p in v.entries ==> forall e :: Write(p, e) in v.history ==> KeyLeq(e, v.entries[p]))
  }

  ghost predicate Good(v: Replica, p: string, paths: set<string>) {
    KeysFrom(v.entries, paths) && HoldsMaximum(v, p)
  }

  lemma PutKeepsMaximum(v: Replica, q: string, e: Entry, p: string, paths: set<string>)
    requires Good(v, p, paths) && q in paths
    requires SafePath(p) && !DerivedFrom(p, paths)
    ensures Good(Replica(Applied(v.entries, q, e), v.history + {Write(q, e)}), p, paths)
  {
    hide DerivedFrom;
    AppliedKeysFrom(v.entries, q, e, paths);
    var w := Replica(Applied(v.entries, q, e), v.history + {Write(q, e)});
    if q != p {
      AppliedElsewhere(v.entries, q, e, p, paths);
      assert forall f :: Write(p, f) in w.history <==> Write(p, f) in v.history;
    } else if p in v.entries {
      var old' := v.entries[p];
      WinnerAbove(old', e);
      forall f | Write(p, f) in w.history
        ensures KeyLeq(f, w.entries[p])
      {
        if Write(p, f) in v.history {
          KeyTransitive(f, old', w.entries[p]);
        }
      }
    } else {
      KeyReflexive(e);
      assert Write(p, e) in w.history;
    }
  }

  lemma DeliverKeepsMaximum(v: Replica, n: Replica, merged: Entries, p: string, paths: set<string>)
    requires Good(v, p, paths) && Good(n, p, paths)
    requires SafePath(p) && !DerivedFrom(p, paths)
    requires IsMerge(v.entries, n.entries, merged)
    ensures Good(Replica(merged, v.history + n.history), p, paths)
  {
    hide DerivedFrom, Replay, Winner;
    var order :| Enumerates(order, n.entries.Keys) && merged == Replay(v.entries, Writes(n.entries, order));
    MergeAtPrimaryPath(v.entries, n.entries, order, p, paths);
    var w := Replica(merged, v.history + n.history);
    if p in v.entries && p in n.entries {
      WinnerAbove(v.entries[p], n.entries[p]);
      forall f | Write(p, f) in w.history
        ensures KeyLeq(f, w.entries[p])
      {
        KeyTransitive(f, if Write(p, f) in v.history then v.entries[p] else n.entries[p], w.entries[p]);
      }
    }
  }

  ghost predicate AllGood(s: System, p: string, paths: set<string>) {
    && (forall r :: 0 <= r < |s.replicas| ==> Good(s.replicas[r], p, paths))
    && (forall v :: v in s.sent ==> Good(v, p, paths))
  }

  lemma StepKeepsMaximum(s: System, step: Step, t: System, p: string, paths: set<string>)
    requires AllGood(s, p, paths) && Next(s, step, t)
    requires step.Put? ==> step.path in paths
    requires SafePath(p) && !DerivedFrom(p, paths)
    ensures AllGood(t, p, paths)
  {
    hide Good, DerivedFrom, SafePath;
    var me := s.replicas[step.r];
    match step
    case Put(r, path, entry) =>
      PutKeepsMaximum(me, path, entry, p, paths);
    case Send(r) =>
    case Deliver(r, snapshot) =>
      var merged :| IsMerge(me.entries, snapshot.entries, merged)
        && t == s.(replicas := s.replicas[r := Replica(merged, me.history + snapshot.history)]);
      DeliverKeepsMaximum(me, snapshot, merged, p, paths);
  }

  /** Over every run, at every replica and every path that is not a conflict name of a written path:
      the manifest holds the maximum of the causal history. No hypothesis on ties is needed. */
  lemma {:induction false} EveryRunHoldsMaximum(run: seq<System>, steps: seq<Step>, paths: set<string>, p: string)
    requires IsRun(run, steps) && WritesWithin(steps, paths)
    requires SafePath(p) && !DerivedFrom(p, paths)
    ensures AllGood(run[|steps|], p, paths)
  {
    hide DerivedFrom, SafePath;
    if steps != [] {
      var k := |steps| - 1;
      assert IsRun(run[..k + 1], steps[..k]);
      EveryRunHoldsMaximum(run[..k + 1], steps[..k], paths, p);
      StepKeepsMaximum(run[k], steps[k], run[k + 1], p, paths);
    }
  }

  /** Replicas with the same causal history of writes to `p` agree on `p`: on whether it is present,
      and on its clock and content key. If no two of those writes are tied with equal content keys,
      they agree on the whole entry. */
  lemma SameHistorySameEntry(v: Replica, w: Replica, p: string)
    requires HoldsMaximum(v, p) && HoldsMaximum(w, p)
    requires forall e :: Write(p, e) in v.history <==> Write(p, e) in w.history
    ensures p in v.entries <==> p in w.entries
    ensures p in v.entries ==> SameKey(v.entries[p], w.entries[p])
    ensures p in v.entries && (forall e, f :: Write(p, e) in v.history && Write(p, f) in v.history && SameKey(e, f) ==> e == f)
      ==> v.entries[p] == w.entries[p]
  {
    if p in v.entries {
      KeyAntisymmetric(v.entries[p], w.entries[p]);
    }
  }

  /** Every chunk hash has the length `chunk` gives it. */
  predicate WellFormedHashes(e: Entry) {
    forall s :: s in e.chunkHashes ==> |s| == 64
  }

  /** Convergence: in any two runs, over the same or different numbers of replicas, two replicas that
      have seen the same writes to `p` hold the same clock and content key there, and so, where the
      chunk hashes are well-formed, the same content. */
  lemma RunsConverge(run: seq<System>, steps: seq<Step>, run': seq<System>, steps': seq<Step>,
                     paths: set<string>, p: string, r: nat, r': nat)
    requires IsRun(run, steps) && WritesWithin(steps, paths)
    requires IsRun(run', steps') && WritesWithin(steps', paths)
    requires SafePath(p) && !DerivedFrom(p, paths)
    requires r < |run[|steps|].replicas| && r' < |run'[|steps'|].replicas|
    requires forall e :: Write(p, e) in run[|steps|].replicas[r].history <==> Write(p, e) in run'[|steps'|].replicas[r'].history
    ensures
      var v, v' := run[|steps|].replicas[r].entries, run'[|steps'|].replicas[r'].entries;
      && (p in v <==> p in v')
      && (p in v ==> SameKey(v[p], v'[p]))
      && (p in v && WellFormedHashes(v[p]) && WellFormedHashes(v'[p]) ==> v[p].chunkHashes == v'[p].chunkHashes)
  {
    EveryRunHoldsMaximum(run, steps, paths, p);
    EveryRunHoldsMaximum(run', steps', paths, p);
    SameHistorySameEntry(run[|steps|].replicas[r], run'[|steps'|].replicas[r'], p);
    var v, v' := run[|steps|].replicas[r].entries, run'[|steps'|].replicas[r'].entries;
    if p in v && WellFormedHashes(v[p]) && WellFormedHashes(v'[p]) {
      JoinInjective(v[p].chunkHashes, v'[p].chunkHashes, 64);
    }
  }
}
