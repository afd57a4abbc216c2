/** The manifest exchange of main.rs under interleaving threads: the request snapshot, the
    responder's merge, its reply snapshot and the initiator's merge are separate steps, and anything
    may happen to the shared manifests in between. */
module Exchange {
  import opened Basics
  import opened Manifests
  import opened MergeLaws

  datatype Phase = Opened | Asked | Taken | Replied | Done

  datatype Connection = Connection(initiator: nat, responder: nat, phase: Phase, request: Entries, reply: Entries)

  datatype State = State(memory: seq<Entries>, connections: seq<Connection>)

  datatype Step =
    | Write(agent: nat, path: string, entry: Entry)
    | Open(initiator: nat, responder: nat)
    | Ask(c: nat)
    | Take(c: nat)
    | Reply(c: nat)
    | Finish(c: nat)

  ghost predicate Init(s: State) {
    s.connections == [] && forall a :: 0 <= a < |s.memory| ==> s.memory[a] == map[]
  }

  ghost predicate WellFormed(s: State) {
    forall c :: 0 <= c < |s.connections| ==>
      s.connections[c].initiator < |s.memory| && s.connections[c].responder < |s.memory|
  }

  ghost predicate Next(s: State, step: Step, t: State)
    requires WellFormed(s)
  {
    match step
    case Write(a, path, entry) =>
      && a < |s.memory|
      && t == s.(memory := s.memory[a := Applied(s.memory[a], path, entry)])
    case Open(i, r) =>
      && i < |s.memory| && r < |s.memory|
      && t == s.(connections := s.connections + [Connection(i, r, Opened, map[], map[])])
    case Ask(c) =>
      && c < |s.connections| && s.connections[c].phase == Opened
      && var x := s.connections[c];
      t == s.(connections := s.connections[c := x.(phase := Asked, request := s.memory[x.initiator])])
    case Take(c) =>
      && c < |s.connections| && s.connections[c].phase == Asked
      && var x := s.connections[c];
      exists merged :: IsMerge(s.memory[x.responder], x.request, merged)
        && t == State(s.memory[x.responder := merged], s.connections[c := x.(phase := Taken)])
    case Reply(c) =>
      && c < |s.connections| && s.connections[c].phase == Taken
      && var x := s.connections[c];
      t == s.(connections := s.connections[c := x.(phase := Replied, reply := s.memory[x.responder])])
    case Finish(c) =>
      && c < |s.connections| && s.connections[c].phase == Replied
      && var x := s.connections[c];
      exists merged :: IsMerge(s.memory[x.initiator], x.reply, merged)
        && t == State(s.memory[x.initiator := merged], s.connections[c := x.(phase := Done)])
  }

  /** What each phase of a connection guarantees. */
  ghost predicate Honoured(s: State, x: Connection)
    requires x.initiator < |s.memory| && x.responder < |s.memory|
  {
    && (x.phase != Opened ==> Covers(s.memory[x.initiator], x.request))
    && (x.phase in {Taken, Replied, Done} ==> Covers(s.memory[x.responder], x.request))
    && (x.phase in {Replied, Done} ==> Covers(x.reply, x.request) && Covers(s.memory[x.responder], x.reply))
    && (x.phase == Done ==> Covers(s.memory[x.initiator], x.reply))
  }

  ghost predicate Inv(s: State) {
    WellFormed(s) && forall c :: 0 <= c < |s.connections| ==> Honoured(s, s.connections[c])
  }

  ghost predicate Climbs(s: State, t: State) {
    && |s.memory| == |t.memory|
    && |s.connections| <= |t.connections|
    && forall a :: 0 <= a < |s.memory| ==> Dominates(t.memory[a], s.memory[a])
  }

  lemma StepClimbs(s: State, step: Step, t: State)
    requires WellFormed(s) && Next(s, step, t)
    ensures Climbs(s, t) && WellFormed(t)
  {
    hide Dominates, Replay, Applied, IsMerge;
    forall a | 0 <= a < |s.memory|
      ensures Dominates(s.memory[a], s.memory[a])
    {
      DominatesReflexive(s.memory[a]);
    }
    match step
    case Write(a, path, entry) =>
      AppliedClimbs(s.memory[a], path, entry);
    case Open(_, _) =>
    case Ask(c) =>
    case Reply(c) =>
    case Take(c) =>
      var x := s.connections[c];
      var merged :| IsMerge(s.memory[x.responder], x.request, merged)
        && t == State(s.memory[x.responder := merged], s.connections[c := x.(phase := Taken)]);
      MergeDominatesBoth(s.memory[x.responder], x.request, merged);
    case Finish(c) =>
      var x := s.connections[c];
      var merged :| IsMerge(s.memory[x.initiator], x.reply, merged)
        && t == State(s.memory[x.initiator := merged], s.connections[c := x.(phase := Done)]);
      MergeDominatesBoth(s.memory[x.initiator], x.reply, merged);
  }

  lemma DominatesCovers(a: Entries, b: Entries, m: Entries)
    requires Dominates(a, b)
    ensures Covers(a, b)
    ensures Covers(b, m) ==> Covers(a, m)
  {
    if Covers(b, m) {
      CoversTransitive(a, b, m);
    }
  }

  /** Guarantees given on a connection survive every step of every other thread. */
  lemma StillHonoured(s: State, t: State, x: Connection)
    requires Climbs(s, t)
    requires x.initiator < |s.memory| && x.responder < |s.memory|
    requires Honoured(s, x)
    ensures Honoured(t, x)
  {
    hide Covers, Dominates;
    DominatesCovers(t.memory[x.initiator], s.memory[x.initiator], x.request);
    DominatesCovers(t.memory[x.responder], s.memory[x.responder], x.request);
    DominatesCovers(t.memory[x.responder], s.memory[x.responder], x.reply);
    DominatesCovers(t.memory[x.initiator], s.memory[x.initiator], x.reply);
  }

  /** The connection a step advances, and only that one, gains its next guarantee. */
  lemma NewlyHonoured(s: State, step: Step, t: State, c: nat)
    requires Inv(s) && Next(s, step, t) && Climbs(s, t)
    requires c < |s.connections| && (step == Ask(c) || step == Take(c) || step == Reply(c) || step == Finish(c))
    ensures Honoured(t, t.connections[c])
  {
    hide Covers, Dominates, IsMerge;
    var x := s.connections[c];
    StillHonoured(s, t, x);
    match step
    case Ask(_) =>
      DominatesReflexive(s.memory[x.initiator]);
      DominatesCovers(s.memory[x.initiator], s.memory[x.initiator], map[]);
    case Take(_) =>
      MergeCovers(s.memory[x.responder], x.request, t.memory[x.responder]);
    case Reply(_) =>
      DominatesReflexive(s.memory[x.responder]);
      DominatesCovers(s.memory[x.responder], s.memory[x.responder], map[]);
    case Finish(_) =>
      MergeCovers(s.memory[x.initiator], x.reply, t.memory[x.initiator]);
  }

  lemma MergeCovers(m: Entries, n: Entries, r: Entries)
    requires IsMerge(m, n, r)
    ensures Covers(r, n)
  {
    hide IsMerge;
    MergeDominatesBoth(m, n, r);
  }

  lemma StepKeepsInv(s: State, step: Step, t: State)
    requires Inv(s) && Next(s, step, t)
    ensures Inv(t) && Climbs(s, t)
  {
    hide Honoured, IsMerge, Dominates;
    StepClimbs(s, step, t);
    forall c | 0 <= c < |t.connections|
      ensures Honoured(t, t.connections[c])
    {
      if c == |s.connections| {
        FreshHonoured(t, t.connections[c]);
      } else if step == Ask(c) || step == Take(c) || step == Reply(c) || step == Finish(c) {
        NewlyHonoured(s, step, t, c);
      } else {
        StillHonoured(s, t, s.connections[c]);
      }
    }
  }

  lemma FreshHonoured(t: State, x: Connection)
    requires x.initiator < |t.memory| && x.responder < |t.memory| && x.phase == Opened
    ensures Honoured(t, x)
  {
  }

  ghost predicate IsRun(run: seq<State>, steps: seq<Step>) {
    && |run| == |steps| + 1
    && Init(run[0])
    && forall i :: 0 <= i < |steps| ==> WellFormed(run[i]) && Next(run[i], steps[i], run[i + 1])
  }

  lemma {:induction false} EveryRunKeepsInv(run: seq<State>, steps: seq<Step>, i: nat)
    requires IsRun(run, steps) && i <= |steps|
    ensures Inv(run[i])
  {
    if i > 0 {
      EveryRunKeepsInv(run, steps, i - 1);
      StepKeepsInv(run[i - 1], steps[i - 1], run[i]);
    }
  }

  /** No thread ever lowers an entry of any agent's memory, over any stretch of any run. */
  lemma {:induction false} MemoryClimbs(run: seq<State>, steps: seq<Step>, i: nat, j: nat)
    requires IsRun(run, steps) && i <= j <= |steps|
    ensures Climbs(run[i], run[j])
    decreases j
  {
    hide Dominates;
    if i == j {
      forall a | 0 <= a < |run[i].memory| {
        DominatesReflexive(run[i].memory[a]);
      }
    } else {
      MemoryClimbs(run, steps, i, j - 1);
      EveryRunKeepsInv(run, steps, j - 1);
      StepClimbs(run[j - 1], steps[j - 1], run[j]);
      forall a | 0 <= a < |run[i].memory|
        ensures Dominates(run[j].memory[a], run[i].memory[a])
      {
        DominatesTransitive(run[j].memory[a], run[j - 1].memory[a], run[i].memory[a]);
      }
    }
  }

  /** Whatever the interleaving, once an exchange is done the reply covers the request, and the
      initiator's memory covers both, then and at every later point of the run. */
  lemma ExchangeDelivers(run: seq<State>, steps: seq<Step>, i: nat, c: nat)
    requires IsRun(run, steps) && i <= |steps|
    requires c < |run[i].connections| && run[i].connections[c].phase == Done
    ensures
      var x := run[i].connections[c];
      && x.initiator < |run[i].memory| && x.responder < |run[i].memory|
      && Covers(x.reply, x.request)
      && Covers(run[i].memory[x.responder], x.reply)
      && Covers(run[i].memory[x.initiator], x.reply)
      && Covers(run[i].memory[x.initiator], x.request)
  {
    EveryRunKeepsInv(run, steps, i);
  }
}
