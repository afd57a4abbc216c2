/** The saved manifest between two processes: short-lived gossip handlers that load, merge and save
    it, and the long-lived agent that saves a copy it loaded only at start-up. */
module Persistence {
  import opened Basics
  import opened Clocks
  import opened Manifests
  import opened MergeLaws
  import opened Stores

  /** `disk` is the saved manifest, `memory` the agent's copy, and `handlers` the copies of the gossip
      handlers started so far, each a process of its own. */
  datatype State = State(disk: Entries, memory: Entries, handlers: seq<Entries>)

  datatype Step =
    | Begin(request: Entries)
    | Finish(handler: nat)
    | AgentPut(path: string, entry: Entry)
    | AgentMerge(incoming: Entries)
    | Save

  ghost predicate Next(s: State, step: Step, t: State) {
    match step
    case Begin(request) =>
      && |t.handlers| == |s.handlers| + 1
      && IsMerge(s.disk, request, t.handlers[|s.handlers|])
      && t == s.(handlers := s.handlers + [t.handlers[|s.handlers|]])
    case Finish(i) => i < |s.handlers| && t == s.(disk := s.handlers[i])
    case AgentPut(path, entry) => t == s.(memory := Applied(s.memory, path, entry))
    case AgentMerge(incoming) => IsMerge(s.memory, incoming, t.memory) && t == s.(memory := t.memory)
    case Save => t == s.(disk := s.memory)
  }

  /** What the disk of the state machine is, for a store: the saved manifest, or none at all. */
  ghost predicate OnDisk(saved: Option<Entries>, disk: Entries) {
    match saved
    case None => disk == map[]
    case Some(m) => disk == m
  }

  /** From `s` a handler is begun with `request`, and finishes before anything else happens. */
  ghost predicate HandlesAlone(s: State, request: Entries, t: State) {
    exists mid :: Next(s, Begin(request), mid) && Next(mid, Finish(|s.handlers|), t)
  }

  lemma MergeHandlesAlone(s: State, request: Entries, reply: Entries)
    requires IsMerge(s.disk, request, reply)
    ensures HandlesAlone(s, request, State(reply, s.memory, s.handlers + [reply]))
  {
    hide IsMerge;
    var mid := s.(handlers := s.handlers + [reply]);
    assert Next(s, Begin(request), mid);
    assert Next(mid, Finish(|s.handlers|), State(reply, s.memory, s.handlers + [reply]));
  }

  /** One manifest request to `gossip_handler`: what was saved and what was asked are both in the reply, which
      is saved; and the call is a handler of the state machine that runs alone. */
  method HandleManifest(store: Store, incoming: Entries) returns (reply: Entries)
    modifies store`saved
    ensures store.saved == Some(reply)
    ensures old(store.saved).None? ==> IsMerge(map[], incoming, reply)
    ensures old(store.saved).Some? ==> IsMerge(old(store.saved).value, incoming, reply)
    ensures old(store.saved).Some? ==> Dominates(reply, old(store.saved).value)
    ensures Covers(reply, incoming)
    ensures forall s: State :: OnDisk(old(store.saved), s.disk) ==>
      HandlesAlone(s, incoming, State(reply, s.memory, s.handlers + [reply]))
  {
    hide IsMerge, HandlesAlone, Dominates, SafePath;
    var loaded := store.LoadManifest();
    var current := new Manifest();
    current.entries := loaded;
    current.Merge(incoming);
    store.SaveManifest(current.entries);
    reply := current.entries;
    MergeDominatesBoth(loaded, incoming, reply);
    forall s: State | OnDisk(old(store.saved), s.disk)
      ensures HandlesAlone(s, incoming, State(reply, s.memory, s.handlers + [reply]))
    {
      MergeHandlesAlone(s, incoming, reply);
    }
  }

  /** A handler that runs alone from any state keeps what is on disk and adds the request. */
  lemma AloneKeepsDisk(s: State, request: Entries, t: State)
    requires HandlesAlone(s, request, t)
    ensures Dominates(t.disk, s.disk) && Covers(t.disk, request)
    ensures IsMerge(s.disk, request, t.disk) && t.memory == s.memory
  {
    hide IsMerge, Dominates, SafePath, Applied;
    var mid :| Next(s, Begin(request), mid) && Next(mid, Finish(|s.handlers|), t);
    MergeDominatesBoth(s.disk, request, t.disk);
  }

  /** A run from the agent's start-up, when its copy is what the disk held. */
  ghost predicate IsRun(run: seq<State>, steps: seq<Step>) {
    && |run| == |steps| + 1
    && run[0].memory == run[0].disk && run[0].handlers == []
    && forall i :: 0 <= i < |steps| ==> Next(run[i], steps[i], run[i + 1])
  }

  lemma MemoryStep(s: State, step: Step, t: State)
    requires Next(s, step, t)
    ensures Dominates(t.memory, s.memory)
  {
    hide Dominates, IsMerge, Applied;
    DominatesReflexive(s.memory);
    match step
    case AgentPut(path, entry) =>
      AppliedClimbs(s.memory, path, entry);
    case AgentMerge(incoming) =>
      MergeDominatesBoth(s.memory, incoming, t.memory);
    case _ =>
  }

  /** The agent's memory only climbs, over every run. */
  lemma {:induction false} MemoryClimbs(run: seq<State>, steps: seq<Step>, i: nat, j: nat)
    requires IsRun(run, steps) && i <= j <= |steps|
    ensures Dominates(run[j].memory, run[i].memory)
    decreases j
  {
    hide Dominates;
    if i == j {
      DominatesReflexive(run[i].memory);
    } else {
      MemoryClimbs(run, steps, i, j - 1);
      MemoryStep(run[j - 1], steps[j - 1], run[j]);
      DominatesTransitive(run[j].memory, run[j - 1].memory, run[i].memory);
    }
  }

  ghost predicate ClimbsAt(run: seq<State>, k: nat)
    requires k + 1 < |run|
  {
    Dominates(run[k + 1].disk, run[k].disk)
  }

  ghost predicate DiskClimbs(run: seq<State>, i: nat, j: nat)
    requires i <= j < |run|
  {
    forall k :: i <= k < j ==> ClimbsAt(run, k)
  }

  /** From the start of a handler to its end nobody else writes to disk. */
  ghost predicate Alone(steps: seq<Step>, b: nat, f: nat)
    requires f <= |steps|
  {
    forall k :: b < k < f ==> !steps[k].Save? && !steps[k].Finish?
  }

  lemma {:induction false} HandlerKeepsCopy(run: seq<State>, steps: seq<Step>, b: nat, k: nat)
    requires IsRun(run, steps) && b < k <= |steps| && steps[b].Begin?
    ensures |run[b].handlers| < |run[k].handlers|
    ensures run[k].handlers[|run[b].handlers|] == run[b + 1].handlers[|run[b].handlers|]
    ensures IsMerge(run[b].disk, steps[b].request, run[k].handlers[|run[b].handlers|])
    ensures Alone(steps, b, k) ==> run[k].disk == run[b].disk
    decreases k
  {
    hide Applied, IsMerge;
    assert Next(run[k - 1], steps[k - 1], run[k]);
    if b < k - 1 {
      HandlerKeepsCopy(run, steps, b, k - 1);
      if Alone(steps, b, k) {
        assert Alone(steps, b, k - 1);
      }
    }
  }

  /** A handler that runs alone never lowers the disk. */
  lemma LoneHandlerClimbs(run: seq<State>, steps: seq<Step>, b: nat, f: nat)
    requires IsRun(run, steps) && b < f < |steps| && steps[b].Begin?
    requires steps[f] == Finish(|run[b].handlers|) && Alone(steps, b, f)
    ensures ClimbsAt(run, f)
  {
    hide IsMerge;
    HandlerKeepsCopy(run, steps, b, f);
    MergeDominatesBoth(run[b].disk, steps[b].request, run[f].handlers[|run[b].handlers|]);
    assert Next(run[f], steps[f], run[f + 1]);
  }

  /** What a handler has answered with, and the request behind it, stay on disk while the disk climbs. */
  lemma {:induction false} RepliesStayOnDisk(run: seq<State>, steps: seq<Step>, b: nat, f: nat, j: nat)
    requires IsRun(run, steps) && b < f < j <= |steps| && steps[b].Begin?
    requires steps[f] == Finish(|run[b].handlers|) && DiskClimbs(run, f + 1, j)
    ensures |run[b].handlers| < |run[f].handlers| && Dominates(run[j].disk, run[f].handlers[|run[b].handlers|])
    ensures Covers(run[j].disk, steps[b].request)
    decreases j
  {
    hide IsMerge;
    HandlerKeepsCopy(run, steps, b, f);
    var reply := run[f].handlers[|run[b].handlers|];
    MergeDominatesBoth(run[b].disk, steps[b].request, reply);
    assert Next(run[f], steps[f], run[f + 1]);
    if j == f + 1 {
      DominatesReflexive(run[j].disk);
    } else {
      RepliesStayOnDisk(run, steps, b, f, j - 1);
      assert ClimbsAt(run, j - 1);
      DominatesTransitive(run[j].disk, run[j - 1].disk, reply);
      forall p | Offers(steps[b].request, p)
        ensures p in run[j].disk && KeyLeq(steps[b].request[p], run[j].disk[p])
      {
        KeyTransitive(steps[b].request[p], run[j - 1].disk[p], run[j].disk[p]);
      }
    }
  }

  // Serialised handlers

  /** The handler begun at `b` finishes at `f`. */
  ghost predicate Handled(run: seq<State>, steps: seq<Step>, b: nat, f: nat)
    requires |steps| <= |run|
  {
    b < f < |steps| && steps[b].Begin? && steps[f] == Finish(|run[b].handlers|)
  }

  /** Handlers run one after the other, each alone from start to end. */
  ghost predicate Serialised(run: seq<State>, steps: seq<Step>)
    requires |steps| <= |run|
  {
    forall f :: 0 <= f < |steps| && steps[f].Finish? ==> exists b :: Handled(run, steps, b, f) && Alone(steps, b, f)
  }

  /** A step that is not the agent's save never lowers the disk. */
  lemma OtherStepClimbs(run: seq<State>, steps: seq<Step>, k: nat)
    requires IsRun(run, steps) && Serialised(run, steps)
    requires k < |steps| && !steps[k].Save?
    ensures ClimbsAt(run, k)
  {
    hide IsMerge, Dominates, Applied;
    if steps[k].Finish? {
      var b: nat :| Handled(run, steps, b, k) && Alone(steps, b, k);
      LoneHandlerClimbs(run, steps, b, k);
    } else {
      assert Next(run[k], steps[k], run[k + 1]);
      DominatesReflexive(run[k].disk);
    }
  }

  /** Without the agent's saves, serialised handlers never lose anything, ties included. */
  lemma SerialHandlersClimb(run: seq<State>, steps: seq<Step>, i: nat, j: nat)
    requires IsRun(run, steps) && Serialised(run, steps) && i <= j <= |steps|
    requires forall k :: i <= k < j ==> !steps[k].Save?
    ensures DiskClimbs(run, i, j)
  {
    hide Next, Serialised, ClimbsAt;
    forall k | i <= k < j
      ensures ClimbsAt(run, k)
    {
      OtherStepClimbs(run, steps, k);
    }
  }

  // The agent's save

  /** A handler finished `b`'s request at `f`, and the agent has not saved since. */
  ghost predicate Unsaved(run: seq<State>, steps: seq<Step>, b: nat, f: nat, k: nat)
    requires k <= |steps| <= |run|
  {
    Handled(run, steps, b, f) && f < k && forall j :: f < j < k ==> !steps[j].Save?
  }

  /** The agent's memory has caught up with the handlers: by step `k` it covers, through gossip of its own,
      every request a handler has finished since the last save or start-up. */
  ghost predicate CaughtUp(run: seq<State>, steps: seq<Step>, k: nat)
    requires k <= |steps| < |run|
  {
    forall b: nat, f: nat :: Unsaved(run, steps, b, f, k) ==> Covers(run[k].memory, steps[b].request)
  }

  ghost predicate DrawnFrom(offered: set<Write>, m: Entries) {
    forall p :: p in m ==> Write(p, m[p]) in offered
  }

  /** Nothing offered for one path ties. */
  ghost predicate NoTies(offered: set<Write>) {
    forall u, v :: u in offered && v in offered && u.path == v.path ==> !Tie(u.entry, v.entry)
  }

  /** Everything that enters the run is among `offered`, and no two of them tie. */
  ghost predicate TieFreeInputs(run: seq<State>, steps: seq<Step>, offered: set<Write>)
    requires |run| > 0
  {
    && NoTies(offered)
    && DrawnFrom(offered, run[0].disk)
    && forall i :: 0 <= i < |steps| ==> InputDrawn(steps[i], offered)
  }

  ghost predicate InputDrawn(step: Step, offered: set<Write>) {
    match step
    case Begin(request) => DrawnFrom(offered, request)
    case AgentPut(path, entry) => Write(path, entry) in offered
    case AgentMerge(incoming) => DrawnFrom(offered, incoming)
    case _ => true
  }

  ghost predicate StateDrawn(s: State, offered: set<Write>) {
    && DrawnFrom(offered, s.disk)
    && DrawnFrom(offered, s.memory)
    && forall i :: 0 <= i < |s.handlers| ==> DrawnFrom(offered, s.handlers[i])
  }

  lemma MergeDrawn(m: Entries, n: Entries, r: Entries, offered: set<Write>)
    requires NoTies(offered) && DrawnFrom(offered, m) && DrawnFrom(offered, n)
    requires IsMerge(m, n, r)
    ensures r == Newest(m, n) && DrawnFrom(offered, r)
  {
    hide IsMerge, SafePath;
    forall q
      ensures !Conflicted(m, n, q)
    {
      if q in m && q in n {
        assert Write(q, m[q]) in offered && Write(q, n[q]) in offered;
      }
    }
    TieFreeMerge(m, n, r);
  }

  lemma PutDrawn(m: Entries, path: string, entry: Entry, offered: set<Write>)
    requires NoTies(offered) && DrawnFrom(offered, m) && Write(path, entry) in offered
    ensures DrawnFrom(offered, Applied(m, path, entry))
  {
    hide SafePath, ConflictPath, ContentKey;
    if path in m {
      assert Write(path, m[path]) in offered;
    }
  }

  lemma StepDrawn(s: State, step: Step, t: State, offered: set<Write>)
    requires NoTies(offered) && InputDrawn(step, offered) && StateDrawn(s, offered) && Next(s, step, t)
    ensures StateDrawn(t, offered)
  {
    hide DrawnFrom, IsMerge, NoTies, Applied;
    match step
    case Begin(request) =>
      MergeDrawn(s.disk, request, t.handlers[|s.handlers|], offered);
    case AgentPut(path, entry) =>
      PutDrawn(s.memory, path, entry, offered);
    case AgentMerge(incoming) =>
      MergeDrawn(s.memory, incoming, t.memory, offered);
    case _ =>
  }

  lemma {:induction false} EveryStateDrawn(run: seq<State>, steps: seq<Step>, offered: set<Write>, i: nat)
    requires IsRun(run, steps) && TieFreeInputs(run, steps, offered) && i <= |steps|
    ensures StateDrawn(run[i], offered)
  {
    hide DrawnFrom, Next, NoTies, InputDrawn;
    if i > 0 {
      EveryStateDrawn(run, steps, offered, i - 1);
      StepDrawn(run[i - 1], steps[i - 1], run[i], offered);
    }
  }

  lemma NewestCovered(m: Entries, d: Entries, n: Entries)
    requires Dominates(m, d) && Covers(m, n)
    ensures Dominates(m, Newest(d, n))
  {
    hide KeyLeq, SafePath, Winner;
    forall p | p in Newest(d, n)
      ensures p in m && KeyLeq(Newest(d, n)[p], m[p])
    {
      if p in d && Offers(n, p) {
        WinnerAbove(d[p], n[p]);
      }
    }
  }

  /** What is on disk was in the agent's memory, or came from a request finished since the last save. */
  lemma {:induction false} DiskAccountedFor(run: seq<State>, steps: seq<Step>, offered: set<Write>, k: nat, m: Entries)
    requires IsRun(run, steps) && Serialised(run, steps) && TieFreeInputs(run, steps, offered)
    requires k <= |steps| && Dominates(m, run[k].memory)
    requires forall b: nat, f: nat :: Unsaved(run, steps, b, f, k) ==> Covers(m, steps[b].request)
    ensures Dominates(m, run[k].disk)
  {
    hide Dominates, Covers, IsMerge, Applied, TieFreeInputs, Newest;
    if k > 0 && !steps[k - 1].Save? {
      var s, t := run[k - 1], run[k];
      assert Next(s, steps[k - 1], t);
      MemoryStep(s, steps[k - 1], t);
      DominatesTransitive(m, t.memory, s.memory);
      var before := k - 1;
      forall b: nat, f: nat | Unsaved(run, steps, b, f, before)
        ensures Covers(m, steps[b].request)
      {
        assert Unsaved(run, steps, b, f, k);
      }
      DiskAccountedFor(run, steps, offered, k - 1, m);
      if steps[k - 1].Finish? {
        var b: nat :| Handled(run, steps, b, k - 1) && Alone(steps, b, k - 1);
        assert Unsaved(run, steps, b, k - 1, k);
        HandledIsNewest(run, steps, offered, b, k - 1);
        NewestCovered(m, s.disk, steps[b].request);
      }
    }
  }

  lemma HandledIsNewest(run: seq<State>, steps: seq<Step>, offered: set<Write>, b: nat, f: nat)
    requires IsRun(run, steps) && TieFreeInputs(run, steps, offered)
    requires Handled(run, steps, b, f) && Alone(steps, b, f)
    ensures run[f + 1].disk == Newest(run[f].disk, steps[b].request)
  {
    hide IsMerge, DrawnFrom, Newest, Applied, NoTies;
    HandlerKeepsCopy(run, steps, b, f);
    EveryStateDrawn(run, steps, offered, b);
    assert InputDrawn(steps[b], offered);
    MergeDrawn(run[b].disk, steps[b].request, run[f].handlers[|run[b].handlers|], offered);
    assert Next(run[f], steps[f], run[f + 1]);
  }

  /** Exactly when a save of the agent loses nothing that is on disk: when its memory has caught up with
      the handlers. Ties are left out of the run because a handler that meets one files a conflict copy
      that no request carries. */
  lemma SaveClimbsIff(run: seq<State>, steps: seq<Step>, offered: set<Write>, k: nat)
    requires IsRun(run, steps) && Serialised(run, steps) && TieFreeInputs(run, steps, offered)
    requires k < |steps| && steps[k].Save?
    ensures ClimbsAt(run, k) <==> CaughtUp(run, steps, k)
  {
    hide Serialised, TieFreeInputs, Dominates, Covers, IsMerge, Applied;
    assert Next(run[k], steps[k], run[k + 1]);
    if ClimbsAt(run, k) {
      forall b: nat, f: nat | Unsaved(run, steps, b, f, k)
        ensures Covers(run[k].memory, steps[b].request)
      {
        SaveCovers(run, steps, b, f, k);
      }
    } else if CaughtUp(run, steps, k) {
      DominatesReflexive(run[k].memory);
      DiskAccountedFor(run, steps, offered, k, run[k].memory);
    }
  }

  lemma SaveCovers(run: seq<State>, steps: seq<Step>, b: nat, f: nat, k: nat)
    requires IsRun(run, steps) && Serialised(run, steps) && k < |steps|
    requires Unsaved(run, steps, b, f, k) && Dominates(run[k].memory, run[k].disk)
    ensures Covers(run[k].memory, steps[b].request)
  {
    hide Next, KeyLeq, Serialised, SafePath;
    SerialHandlersClimb(run, steps, f + 1, k);
    RepliesStayOnDisk(run, steps, b, f, k);
    forall p | Offers(steps[b].request, p)
      ensures p in run[k].memory && KeyLeq(steps[b].request[p], run[k].memory[p])
    {
      KeyTransitive(steps[b].request[p], run[k].disk[p], run[k].memory[p]);
    }
  }

  /** Exactly when the disk climbs through a stretch of a run: when every save in it finds the agent's
      memory caught up. */
  lemma DiskClimbsIff(run: seq<State>, steps: seq<Step>, offered: set<Write>, i: nat, j: nat)
    requires IsRun(run, steps) && Serialised(run, steps) && TieFreeInputs(run, steps, offered)
    requires i <= j <= |steps|
    ensures DiskClimbs(run, i, j) <==> forall k :: i <= k < j && steps[k].Save? ==> CaughtUp(run, steps, k)
  {
    hide Next, Serialised, TieFreeInputs, ClimbsAt, CaughtUp;
    forall k | i <= k < j
      ensures ClimbsAt(run, k) <==> (steps[k].Save? ==> CaughtUp(run, steps, k))
    {
      if steps[k].Save? {
        SaveClimbsIff(run, steps, offered, k);
      } else {
        OtherStepClimbs(run, steps, k);
      }
    }
  }

  /** So nothing a handler has acknowledged is lost in a run whose saves are all caught up. */
  lemma AcknowledgedStays(run: seq<State>, steps: seq<Step>, offered: set<Write>, b: nat, f: nat, j: nat)
    requires IsRun(run, steps) && Serialised(run, steps) && TieFreeInputs(run, steps, offered)
    requires forall k :: 0 <= k < |steps| && steps[k].Save? ==> CaughtUp(run, steps, k)
    requires Handled(run, steps, b, f) && f < j <= |steps|
    ensures Covers(run[j].disk, steps[b].request)
    ensures |run[b].handlers| < |run[f].handlers| && Dominates(run[j].disk, run[f].handlers[|run[b].handlers|])
  {
    hide Next, Serialised, TieFreeInputs, ClimbsAt, CaughtUp, Dominates, KeyLeq, SafePath;
    DiskClimbsIff(run, steps, offered, f + 1, j);
    RepliesStayOnDisk(run, steps, b, f, j);
  }

  const NOTE := Entry([], 0, Hlc(1, 0), "bob", false)

  /** A lost update: the agent starts, a handler accepts an entry, saves it and acknowledges it, and
      the agent's next save removes it from disk. */
  lemma LostUpdateWitness() returns (run: seq<State>, steps: seq<Step>)
    ensures IsRun(run, steps) && steps == [Begin(map["a" := NOTE]), Finish(0), Save]
    ensures "a" in run[2].disk && "a" !in run[3].disk
    ensures Serialised(run, steps) && !CaughtUp(run, steps, 2)
  {
    PlainNameSafe();
    var request: Entries := map["a" := NOTE];
    var empty: Entries := map[];
    steps := [Begin(request), Finish(0), Save];
    run := [State(empty, empty, []), State(empty, empty, [request]), State(request, empty, [request]),
            State(empty, empty, [request])];
    assert IsMerge(empty, request, request) by {
      var order := ["a"];
      assert Enumerates(order, request.Keys);
      ReplayLast(empty, request, order);
      assert Replay(empty, Writes(request, [])) == empty;
    }
    assert Handled(run, steps, 0, 1) && Alone(steps, 0, 1);
    assert Unsaved(run, steps, 0, 1, 2) && Offers(request, "a");
  }
}
