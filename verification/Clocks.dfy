/** The hybrid logical clock of hlc.rs, its order, and the clocks of a whole message-passing run. */
module Clocks {

  const U32_SIZE: nat := 0x1_0000_0000

  /** `logical` is a u32. */
  datatype Hlc = Hlc(physical: nat, logical: nat)

  const ZERO := Hlc(0, 0)

  /** The derived lexicographic order of the source. */
  predicate Less(a: Hlc, b: Hlc) {
    a.physical < b.physical || (a.physical == b.physical && a.logical < b.logical)
  }

  /** It is the order of the numbers that carry the counter in their low 32 bits. */
  lemma LessIsPackedOrder(a: Hlc, b: Hlc)
    requires a.logical < U32_SIZE && b.logical < U32_SIZE
    ensures Less(a, b) <==> a.physical * U32_SIZE + a.logical < b.physical * U32_SIZE + b.logical
  {
  }

  predicate AtMost(a: Hlc, b: Hlc) {
    a == b || Less(a, b)
  }

  function Max(a: nat, b: nat): nat {
    if a >= b then a else b
  }

  /** `logical + 1` on a u32, as a release build computes it. */
  function Bump(logical: nat): nat {
    (logical + 1) % U32_SIZE
  }

  /** The clock after a local event. */
  function Ticked(c: Hlc, wall: nat): Hlc {
    if wall > c.physical then Hlc(wall, 0) else Hlc(c.physical, Bump(c.logical))
  }

  /** The clock after receipt of `remote`. */
  function Observed(c: Hlc, remote: Hlc, wall: nat): Hlc {
    var p := Max(Max(wall, c.physical), remote.physical);
    Hlc(p,
      if p == c.physical && p == remote.physical then Bump(Max(c.logical, remote.logical))
      else if p == c.physical then Bump(c.logical)
      else if p == remote.physical then Bump(remote.logical)
      else 0)
  }

  class Clock {
    var now: Hlc

    constructor ()
      ensures now == ZERO
    {
      now := ZERO;
    }

    /** `Hlc::tick`. */
    method Tick(wall: nat) returns (t: Hlc)
      modifies this
      ensures t == now == Ticked(old(now), wall)
    {
      if wall > now.physical {
        now := Hlc(wall, 0);
      } else {
        now := now.(logical := (now.logical + 1) % U32_SIZE);
      }
      t := now;
    }

    /** `Hlc::observe`. */
    method Observe(remote: Hlc, wall: nat) returns (t: Hlc)
      modifies this
      ensures t == now == Observed(old(now), remote, wall)
    {
      var maxPhysical := Max(Max(wall, now.physical), remote.physical);
      if maxPhysical == now.physical && maxPhysical == remote.physical {
        now := now.(logical := (Max(now.logical, remote.logical) + 1) % U32_SIZE);
      } else if maxPhysical == now.physical {
        now := now.(logical := (now.logical + 1) % U32_SIZE);
      } else if maxPhysical == remote.physical {
        now := now.(logical := (remote.logical + 1) % U32_SIZE);
      } else {
        now := now.(logical := 0);
      }
      now := now.(physical := maxPhysical);
      t := now;
    }
  }

  lemma BumpIncreasesIff(l: nat)
    requires l < U32_SIZE
    ensures Bump(l) == if l < U32_SIZE - 1 then l + 1 else 0
  {
  }

  /** A tick moves the clock forward exactly when the wall clock has moved on or the u32 counter
      has not reached its maximum. */
  lemma TickIncreasesIff(c: Hlc, wall: nat)
    requires c.logical < U32_SIZE
    ensures Less(c, Ticked(c, wall)) <==> wall > c.physical || c.logical < U32_SIZE - 1
    ensures Ticked(c, wall).logical <= c.logical + 1
  {
    hide Bump;
    BumpIncreasesIff(c.logical);
  }

  /** Receipt moves past both clocks, short of counter overflow. */
  lemma ObserveDominatesBoth(c: Hlc, remote: Hlc, wall: nat)
    requires c.logical < U32_SIZE - 1 && remote.logical < U32_SIZE - 1
    ensures Less(c, Observed(c, remote, wall)) && Less(remote, Observed(c, remote, wall))
    ensures Observed(c, remote, wall).logical <= Max(c.logical, remote.logical) + 1
  {
    hide Bump;
    BumpIncreasesIff(c.logical);
    BumpIncreasesIff(remote.logical);
  }

  /** Independent reading of both operations: the new stamp is the least one, in the order of stamps,
      that exceeds every input stamp and is not behind the wall clock. */
  lemma TickIsLeast(c: Hlc, wall: nat, x: Hlc)
    requires c.logical < U32_SIZE - 1
    requires Less(c, x) && x.physical >= wall
    ensures Less(c, Ticked(c, wall)) && Ticked(c, wall).physical >= wall
    ensures AtMost(Ticked(c, wall), x)
  {
    hide Bump;
    BumpIncreasesIff(c.logical);
  }

  lemma ObserveIsLeast(c: Hlc, remote: Hlc, wall: nat, x: Hlc)
    requires c.logical < U32_SIZE - 1 && remote.logical < U32_SIZE - 1
    requires Less(c, x) && Less(remote, x) && x.physical >= wall
    ensures Observed(c, remote, wall).physical >= wall
    ensures AtMost(Observed(c, remote, wall), x)
  {
    hide Bump;
    BumpIncreasesIff(c.logical);
    BumpIncreasesIff(remote.logical);
  }

  // Runs

  /** An event of a run, at process `proc` with wall reading `wall`. A receipt names the earlier
      event whose timestamp the message carries. */
  datatype Event =
    | Local(proc: nat, wall: nat)
    | Receive(proc: nat, wall: nat, src: nat)

  ghost predicate IsRun(run: seq<Event>) {
    forall i :: 0 <= i < |run| && run[i].Receive? ==> run[i].src < i
  }

  /** The index just past the latest event of `proc` among the first `n`; zero when there is none. */
  function LastOf(run: seq<Event>, proc: nat, n: nat): (k: nat)
    requires n <= |run|
    ensures k <= n
    ensures k > 0 ==> run[k - 1].proc == proc
    ensures forall j :: k <= j < n ==> run[j].proc != proc
  {
    if n == 0 then 0 else if run[n - 1].proc == proc then n else LastOf(run, proc, n - 1)
  }

  /** The clock of `proc` when event `n` is about to happen. */
  function ClockBefore(run: seq<Event>, proc: nat, n: nat): Hlc
    requires IsRun(run) && n <= |run|
    decreases n, 1
  {
    var k := LastOf(run, proc, n);
    if k == 0 then ZERO else Stamp(run, k - 1)
  }

  /** The timestamp event `i` returns. */
  function Stamp(run: seq<Event>, i: nat): Hlc
    requires IsRun(run) && i < |run|
    decreases i, 2
  {
    var before := ClockBefore(run, run[i].proc, i);
    match run[i]
    case Local(_, wall) => Ticked(before, wall)
    case Receive(_, wall, src) => Observed(before, Stamp(run, src), wall)
  }

  /** Lamport's happened-before: events of one process in order, and a message before its receipt. */
  ghost predicate HappensBefore(run: seq<Event>, i: nat, j: nat)
    requires IsRun(run) && j < |run|
    decreases j
  {
    && i < j
    && (|| run[i].proc == run[j].proc
        || (run[j].Receive? && (i == run[j].src || HappensBefore(run, i, run[j].src)))
        || (exists k :: i < k < j && run[k].proc == run[j].proc && HappensBefore(run, i, k)))
  }

  /** The causal past of an event, the event included. */
  ghost predicate InPast(run: seq<Event>, i: nat, j: nat)
    requires IsRun(run) && j < |run|
  {
    i == j || HappensBefore(run, i, j)
  }

  lemma {:induction false} HappensBeforeTransitive(run: seq<Event>, i: nat, j: nat, k: nat)
    requires IsRun(run) && k < |run|
    requires j < k && HappensBefore(run, i, j) && HappensBefore(run, j, k)
    ensures HappensBefore(run, i, k)
    decreases k
  {
    if run[j].proc == run[k].proc {
    } else if run[k].Receive? && (j == run[k].src || HappensBefore(run, j, run[k].src)) {
      if j != run[k].src {
        HappensBeforeTransitive(run, i, j, run[k].src);
      }
    } else {
      var m :| j < m < k && run[m].proc == run[k].proc && HappensBefore(run, j, m);
      HappensBeforeTransitive(run, i, j, m);
    }
  }

  /** The counter grows by at most one per event, so a u32 holds it for 2^32 events. */
  lemma {:induction false} LogicalBounded(run: seq<Event>, i: nat)
    requires IsRun(run) && i < |run| < U32_SIZE
    ensures Stamp(run, i).logical <= i + 1
    decreases i
  {
    hide Bump;
    var k := LastOf(run, run[i].proc, i);
    if k > 0 {
      LogicalBounded(run, k - 1);
    }
    var before := ClockBefore(run, run[i].proc, i);
    match run[i]
    case Local(_, wall) =>
      TickIncreasesIff(before, wall);
    case Receive(_, wall, src) =>
      LogicalBounded(run, src);
      ObserveDominatesBoth(before, Stamp(run, src), wall);
  }

  lemma StampAboveInputs(run: seq<Event>, i: nat)
    requires IsRun(run) && i < |run| < U32_SIZE
    ensures Less(ClockBefore(run, run[i].proc, i), Stamp(run, i))
    ensures run[i].Receive? ==> Less(Stamp(run, run[i].src), Stamp(run, i))
  {
    hide Bump, Ticked, Observed, Less, LastOf;
    var before := ClockBefore(run, run[i].proc, i);
    ClockBeforeBounded(run, run[i].proc, i);
    match run[i]
    case Local(_, wall) =>
      TickIncreasesIff(before, wall);
    case Receive(_, wall, src) =>
      LogicalBounded(run, src);
      ObserveDominatesBoth(before, Stamp(run, src), wall);
  }

  lemma ClockBeforeBounded(run: seq<Event>, proc: nat, n: nat)
    requires IsRun(run) && n <= |run| < U32_SIZE
    ensures ClockBefore(run, proc, n).logical <= n
  {
    hide Stamp, LastOf;
    var k := LastOf(run, proc, n);
    if k > 0 {
      LogicalBounded(run, k - 1);
    }
  }

  /** Events of one process are stamped in increasing order. */
  lemma {:induction false} ProcessOrderRespected(run: seq<Event>, i: nat, j: nat)
    requires IsRun(run) && i < j < |run| < U32_SIZE
    requires run[i].proc == run[j].proc
    ensures Less(Stamp(run, i), Stamp(run, j))
    decreases j
  {
    StampAboveInputs(run, j);
    var k := LastOf(run, run[j].proc, j);
    if k - 1 > i {
      ProcessOrderRespected(run, i, k - 1);
    }
  }

  /** The clock condition over every run: if `i` happens before `j`, its stamp is smaller. */
  lemma {:induction false} ClockCondition(run: seq<Event>, i: nat, j: nat)
    requires IsRun(run) && j < |run| < U32_SIZE
    requires HappensBefore(run, i, j)
    ensures Less(Stamp(run, i), Stamp(run, j))
    decreases j
  {
    if run[i].proc == run[j].proc {
      ProcessOrderRespected(run, i, j);
    } else if run[j].Receive? && (i == run[j].src || HappensBefore(run, i, run[j].src)) {
      StampAboveInputs(run, j);
      if i != run[j].src {
        ClockCondition(run, i, run[j].src);
      }
    } else {
      var k :| i < k < j && run[k].proc == run[j].proc && HappensBefore(run, i, k);
      ClockCondition(run, i, k);
      ProcessOrderRespected(run, k, j);
    }
  }

  /** No stamp is ahead of real time: the physical part is exactly the greatest wall reading in the
      causal past of the event. */
  lemma {:induction false} PhysicalIsLatestWall(run: seq<Event>, i: nat) returns (latest: nat)
    requires IsRun(run) && i < |run|
    ensures latest <= i && InPast(run, latest, i)
    ensures Stamp(run, i).physical == run[latest].wall
    ensures forall j: nat | InPast(run, j, i) :: run[j].wall <= Stamp(run, i).physical
    decreases i
  {
    latest := i;
    var k := LastOf(run, run[i].proc, i);
    if k > 0 {
      var w := PhysicalIsLatestWall(run, k - 1);
      if run[w].wall > run[latest].wall {
        latest := w;
        PastThroughProcess(run, w, k - 1, i);
      }
    }
    if run[i].Receive? {
      var w := PhysicalIsLatestWall(run, run[i].src);
      if run[w].wall > run[latest].wall {
        latest := w;
      }
    }
    forall j: nat | InPast(run, j, i)
      ensures run[j].wall <= Stamp(run, i).physical
    {
      PastEntersBy(run, j, i);
    }
  }

  lemma PastThroughProcess(run: seq<Event>, w: nat, k: nat, i: nat)
    requires IsRun(run) && k < i < |run| && run[k].proc == run[i].proc
    requires InPast(run, w, k)
    ensures InPast(run, w, i)
  {
  }

  /** What is in the past of `i` is `i`, or in the past of its predecessor or of its message. */
  lemma {:induction false} PastEntersBy(run: seq<Event>, j: nat, i: nat)
    requires IsRun(run) && i < |run|
    requires InPast(run, j, i)
    ensures
      var k := LastOf(run, run[i].proc, i);
      j == i || (k > 0 && InPast(run, j, k - 1)) || (run[i].Receive? && InPast(run, j, run[i].src))
  {
    var k := LastOf(run, run[i].proc, i);
    if HappensBefore(run, j, i) {
      if run[j].proc == run[i].proc {
      } else if run[i].Receive? && (j == run[i].src || HappensBefore(run, j, run[i].src)) {
      } else {
        var m :| j < m < i && run[m].proc == run[i].proc && HappensBefore(run, j, m);
        assert m <= k - 1;
      }
    }
  }
}
