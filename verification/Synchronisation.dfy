/** What the agents achieve together, over every run: no echo, no resurrection, convergence of the
    folders, and a fixed point. */
module Synchronisation {
  import opened Basics
  import opened Clocks
  import opened Chunker
  import opened ChunkerLaws
  import opened Manifests
  import opened MergeLaws
  import opened Stores
  import opened Agents
  import opened Network

  ghost predicate IsRun(h: Hashing, run: seq<System>, steps: seq<Step>) {
    && |run| == |steps| + 1
    && Init(run[0])
    && forall i :: 0 <= i < |steps| ==> Next(h, run[i], steps[i], run[i + 1])
  }

  /** The assumptions need only be made of the state a run ends in. */
  lemma {:induction false} FairThroughout(h: Hashing, run: seq<System>, steps: seq<Step>, i: nat)
    requires IsRun(h, run, steps) && Fair(h, run[|steps|])
    requires i <= |steps|
    ensures Fair(h, run[i])
    decreases |steps| - i
  {
    hide Next, Fair, Init;
    if i < |steps| {
      FairThroughout(h, run, steps, i + 1);
      FairBefore(h, run[i], steps[i], run[i + 1]);
    }
  }

  lemma {:induction false} EveryRunKeepsInv(h: Hashing, run: seq<System>, steps: seq<Step>, i: nat)
    requires IsRun(h, run, steps) && Fair(h, run[|steps|])
    requires i <= |steps|
    ensures Inv(h, run[i])
  {
    hide Next, Fair, Init, Inv;
    if i == 0 {
      InitKeepsInv(h, run[0]);
    } else {
      EveryRunKeepsInv(h, run, steps, i - 1);
      FairThroughout(h, run, steps, i);
      StepKeepsInv(h, run[i - 1], steps[i - 1], run[i]);
    }
  }

  // No resurrection

  /** The step authors an entry. */
  ghost predicate Authors(h: Hashing, s: System, step: Step) {
    step.Scan? && step.a < |s.agents| && !InSync(h, s.agents[step.a].local, step.path)
  }

  /** The step makes agent `a` take notice of what its folder holds at `p`: a scan of `p`, or a materialize
      that writes `p`. */
  ghost predicate Confirms(s: System, step: Step, a: nat, p: string) {
    && step.a == a && a < |s.agents|
    && ((step.Scan? && step.path == p)
        || (step.Materialize? && step.path == p && p in s.agents[a].pending
            && Due(s.agents[a].id, s.agents[a].local, p, s.agents[a].pending[p])))
  }

  /** Since step `j` agent `a` has neither scanned nor written `p`. */
  ghost predicate UnconfirmedSince(run: seq<System>, steps: seq<Step>, j: nat, i: nat, a: nat, p: string)
    requires i <= |steps| <= |run|
  {
    forall k :: j < k < i ==> !Confirms(run[k], steps[k], a, p)
  }

  ghost predicate UserEditBehind(run: seq<System>, steps: seq<Step>, i: nat, a: nat, p: string)
    requires i <= |steps| <= |run|
  {
    exists j :: 0 <= j < i && steps[j].Edit? && steps[j].a == a && steps[j].path == p
      && UnconfirmedSince(run, steps, j, i, a, p)
  }

  lemma {:induction false} EditedMeansUserEdit(h: Hashing, run: seq<System>, steps: seq<Step>, i: nat, a: nat,
          p: string)
    requires IsRun(h, run, steps) && i <= |steps|
    requires a < |run[i].agents| && p in run[i].agents[a].edited
    ensures UserEditBehind(run, steps, i, a, p)
  {
    hide Next, Confirms;
    if i > 0 {
      var s, step, t := run[i - 1], steps[i - 1], run[i];
      assert Next(h, s, step, t);
      if step.Edit? && step.a == a && step.path == p {
        assert UnconfirmedSince(run, steps, i - 1, i, a, p);
      } else {
        EditedBefore(h, s, step, t, a, p);
        EditedMeansUserEdit(h, run, steps, i - 1, a, p);
        var j :| 0 <= j < i - 1 && steps[j].Edit? && steps[j].a == a && steps[j].path == p
          && UnconfirmedSince(run, steps, j, i - 1, a, p);
        assert UnconfirmedSince(run, steps, j, i, a, p);
      }
    }
  }

  lemma EditedBefore(h: Hashing, s: System, step: Step, t: System, a: nat, p: string)
    requires Next(h, s, step, t)
    requires a < |t.agents| && p in t.agents[a].edited
    requires !(step.Edit? && step.a == a && step.path == p)
    ensures a < |s.agents| && p in s.agents[a].edited
    ensures !Confirms(s, step, a, p)
  {
    hide Scanned, MaterializedOne, InSync, Due, IsMerge, IsPartialReply, PieceSet, SafePath;
  }

  /** No resurrection: in every run, a scan authors an entry for a path only if the user of that
      replica changed the path since the replica last scanned it or wrote it to disk. A remote edit
      or delete that has been merged but not yet materialized is therefore never reverted by the
      replica's own scan. */
  lemma NoResurrection(h: Hashing, run: seq<System>, steps: seq<Step>, i: nat)
    requires IsRun(h, run, steps) && Fair(h, run[|steps|])
    requires i < |steps| && Authors(h, run[i], steps[i])
    ensures UserEditBehind(run, steps, i, steps[i].a, steps[i].path)
  {
    hide Next, Fair, Init, InSync, AgentInv, UserEditBehind;
    var a, p := steps[i].a, steps[i].path;
    EveryRunKeepsInv(h, run, steps, i);
    AgentCharged(h, run[i], a, p);
    EditedMeansUserEdit(h, run, steps, i, a, p);
  }

  lemma AgentCharged(h: Hashing, s: System, a: nat, p: string)
    requires Inv(h, s) && a < |s.agents|
    ensures InSync(h, s.agents[a].local, p) || p in s.agents[a].edited
  {
    hide InSync;
    assert AgentInv(h, s.history, s.pieces, s.agents[a]);
  }

  /** A path the user leaves alone gains no entry of this replica's, however long the run and
      whatever arrives from others in the meantime. */
  lemma {:induction false} UneditedPathNotAuthored(h: Hashing, run: seq<System>, steps: seq<Step>, i: nat, j: nat,
          a: nat, p: string)
    requires IsRun(h, run, steps) && Fair(h, run[|steps|])
    requires i <= j <= |steps|
    requires a < |run[i].agents| && p !in run[i].agents[a].edited
    requires forall k :: i <= k < j ==> !(steps[k].Edit? && steps[k].a == a && steps[k].path == p)
    ensures a < |run[j].agents| && run[j].agents[a].id == run[i].agents[a].id && p !in run[j].agents[a].edited
    ensures forall r :: r in run[j].history && r.path == p && r.entry.author == run[i].agents[a].id ==> r in run[i].history
    decreases j
  {
    hide Next, Fair, Init, Inv;
    if i < j {
      UneditedPathNotAuthored(h, run, steps, i, j - 1, a, p);
      EveryRunKeepsInv(h, run, steps, j - 1);
      assert Next(h, run[j - 1], steps[j - 1], run[j]);
      UneditedStep(h, run[j - 1], steps[j - 1], run[j], a, p);
    }
  }

  lemma UneditedStep(h: Hashing, s: System, step: Step, t: System, a: nat, p: string)
    requires Inv(h, s) && Next(h, s, step, t)
    requires a < |s.agents| && p !in s.agents[a].edited
    requires !(step.Edit? && step.a == a && step.path == p)
    ensures |t.agents| == |s.agents| && t.agents[a].id == s.agents[a].id && p !in t.agents[a].edited
    ensures forall r :: r in t.history - s.history && r.path == p ==> r.entry.author != s.agents[a].id
  {
    hide Scanned, MaterializedOne, InSync, Due, IsMerge, IsPartialReply, PieceSet, SafePath, AgentInv;
    AgentCharged(h, s, a, p);
    if step.Scan? && step.path == p && step.a != a {
      if step.a < a {
      }
      assert s.agents[step.a].id != s.agents[a].id;
    }
  }

  // No echo

  /** A scan of a path that is in sync, with its chunks held, changes nothing at all. */
  lemma SyncedScanIdle(h: Hashing, ag: Agent, p: string, wall: nat)
    requires InSync(h, ag.local, p)
    requires p in ag.local.files ==> HasAll(ag.local.chunks, HashesOf(h, ag.local.files[p]))
    ensures AfterScan(h, ag, p, wall).local == ag.local
    ensures AfterScan(h, ag, p, wall).authored == ag.authored
  {
    hide Pieces, HashesOf;
    if p in ag.local.files {
      WithChunksNoOp(h, ag.local.chunks, ag.local.files[p], |Pieces(h, ag.local.files[p])|);
    }
  }

  /** No echo: a remote entry applied to disk holds exactly the author's bytes, and the scan that
      follows authors nothing and leaves the agent as it was. */
  lemma NoEcho(h: Hashing, s: System, a: nat, p: string, wall: nat, t: System)
    requires Inv(h, s) && Fair(h, s)
    requires a < |s.agents| && p in s.agents[a].pending
    requires Due(s.agents[a].id, s.agents[a].local, p, s.agents[a].pending[p])
    requires Next(h, s, Materialize(a, p), t)
    ensures a < |t.agents|
    ensures forall r :: r in s.history && r.path == p && r.entry == s.agents[a].pending[p] ==>
      t.agents[a].local.files == if r.content.None? then s.agents[a].local.files - {p}
                                 else s.agents[a].local.files[p := r.content.value]
    ensures AfterScan(h, t.agents[a], p, wall).local == t.agents[a].local
  {
    hide HashesOf, SafePath, Assemble, GoodChunks, HonestHistory, PiecesIn, Charged, FilesCut, IsMerge;
    var ag := s.agents[a];
    var e := ag.pending[p];
    assert AgentInv(h, s.history, s.pieces, ag);
    assert Wrote(s.history, p, e);
    MaterializedInSync(h, s.history, s.pieces, ag, p, e);
    forall r | r in s.history && r.path == p && r.entry == e
      ensures t.agents[a].local.files == if r.content.None? then ag.local.files - {p} else ag.local.files[p := r.content.value]
    {
      assert r == Record(p, e, r.content);
      HonestRecord(h, s, r);
    }
    SyncedScanIdle(h, t.agents[a], p, wall);
  }

  lemma HonestRecord(h: Hashing, s: System, r: Record)
    requires Inv(h, s) && r in s.history
    ensures Honest(h, s.pieces, r)
  {
    hide Honest, AgentInv;
  }

  // Convergence of the folders

  /** The folder holds exactly the live files of the manifest, each with its author's bytes. */
  ghost predicate FolderShows(history: set<Record>, m: Entries, files: map<string, Bytes>) {
    && (forall p :: p in files <==> p in m && !m[p].tombstone)
    && (forall r :: r in history && r.path in m && r.entry == m[r.path] && r.content.Some? ==>
         r.path in files && files[r.path] == r.content.value)
  }

  /** Two folders that show the same manifest are the same folder. */
  lemma FolderUnique(h: Hashing, history: set<Record>, pieces: set<Bytes>, m: Entries, f: map<string, Bytes>,
          g: map<string, Bytes>)
    requires HonestHistory(h, history, pieces) && Backed(history, m)
    requires FolderShows(history, m, f) && FolderShows(history, m, g)
    ensures f == g
  {
    hide HashesOf, SafePath, PiecesIn;
    assert f.Keys == g.Keys;
    forall p | p in f
      ensures f[p] == g[p]
    {
      assert Wrote(history, p, m[p]);
      var c :| Record(p, m[p], c) in history;
      assert Honest(h, pieces, Record(p, m[p], c));
    }
  }

  /** Where the known entry is the manifest's, an in-sync folder shows the manifest's content. */
  lemma SyncedPathShows(h: Hashing, s: System, ag: Agent, r: Record)
    requires HonestHistory(h, s.history, s.pieces) && CollisionFree(h, s.pieces)
    requires r in s.history && r.content.Some?
    requires r.path in ag.local.known && ag.local.known[r.path] == r.entry
    requires InSync(h, ag.local, r.path)
    requires r.path in ag.local.files ==> PiecesIn(h, ag.local.files[r.path], s.pieces)
    ensures r.path in ag.local.files && ag.local.files[r.path] == r.content.value
  {
    hide HashesOf, SafePath, PiecesIn, CollisionFree;
    assert Honest(h, s.pieces, r);
    if r.path in ag.local.files {
      HashesIdentifyFile(h, ag.local.files[r.path], r.content.value, s.pieces);
    }
  }

  /** The agent has every chunk its manifest names, and no user edit is waiting to be scanned. */
  ghost predicate Ready(ag: Agent) {
    && ag.edited == {}
    && forall p :: p in ag.local.manifest ==> HasAll(ag.local.chunks, ag.local.manifest[p].chunkHashes)
  }

  /** One full materialize pass brings the folder to the manifest's live content, byte for byte. */
  lemma PassConverges(h: Hashing, s: System, a: nat, r: AgentState)
    requires Inv(h, s) && Fair(h, s) && a < |s.agents| && Ready(s.agents[a])
    requires MaterializedFor(s.agents[a].id, s.agents[a].local, s.agents[a].local.manifest.Keys, r)
    ensures FolderShows(s.history, s.agents[a].local.manifest, r.files)
    ensures forall p :: p in r.manifest ==> p in r.known && r.known[p] == r.manifest[p]
  {
    hide HashesOf, SafePath, Assemble, GoodChunks, HonestHistory, PiecesIn, CollisionFree, InSync;
    var ag := s.agents[a];
    var m := ag.local.manifest;
    assert AgentInv(h, s.history, s.pieces, ag);
    forall p
      ensures p in r.files <==> p in m && !m[p].tombstone
    {
      PassPresence(h, s, a, r, p);
    }
    forall x | x in s.history && x.path in m && x.entry == m[x.path] && x.content.Some?
      ensures x.path in r.files && r.files[x.path] == x.content.value
    {
      PassContent(h, s, a, r, x);
    }
  }

  lemma PassPresence(h: Hashing, s: System, a: nat, r: AgentState, p: string)
    requires Inv(h, s) && a < |s.agents| && Ready(s.agents[a])
    requires MaterializedFor(s.agents[a].id, s.agents[a].local, s.agents[a].local.manifest.Keys, r)
    ensures p in r.files <==> p in s.agents[a].local.manifest && !s.agents[a].local.manifest[p].tombstone
  {
    hide HashesOf, SafePath, Assemble, GoodChunks, HonestHistory, PiecesIn, FilesCut, OwnEntriesHeld;
    assert AgentInv(h, s.history, s.pieces, s.agents[a]);
    assert InSync(h, s.agents[a].local, p);
  }

  lemma PassContent(h: Hashing, s: System, a: nat, r: AgentState, x: Record)
    requires Inv(h, s) && Fair(h, s) && a < |s.agents| && Ready(s.agents[a])
    requires MaterializedFor(s.agents[a].id, s.agents[a].local, s.agents[a].local.manifest.Keys, r)
    requires x in s.history && x.path in s.agents[a].local.manifest && x.entry == s.agents[a].local.manifest[x.path]
    requires x.content.Some?
    ensures x.path in r.files && r.files[x.path] == x.content.value
  {
    hide HashesOf, SafePath, Assemble, GoodChunks, PiecesIn, OwnEntriesHeld, InSync, HasAll, CollisionFree,
      HonestHistory;
    var ag := s.agents[a];
    assert AgentInv(h, s.history, s.pieces, ag);
    HonestRecord(h, s, x);
    if Due(ag.id, ag.local, x.path, x.entry) {
      MaterializedInSync(h, s.history, s.pieces, ag, x.path, x.entry);
      assert Record(x.path, x.entry, x.content) == x;
      assert r.files[x.path] == AfterMaterialize(ag, x.path, x.entry).local.files[x.path];
    } else {
      SyncedPathShows(h, s, ag, x);
    }
  }

  /** Disk convergence: whenever two agents' manifests agree, their chunks are in and their users are
      idle, a materialize pass on each leaves the two folders identical. */
  lemma FoldersConverge(h: Hashing, run: seq<System>, steps: seq<Step>, i: nat, a: nat, b: nat, ra: AgentState,
          rb: AgentState)
    requires IsRun(h, run, steps) && Fair(h, run[|steps|]) && i <= |steps|
    requires a < |run[i].agents| && b < |run[i].agents|
    requires Ready(run[i].agents[a]) && Ready(run[i].agents[b])
    requires run[i].agents[a].local.manifest == run[i].agents[b].local.manifest
    requires MaterializedFor(run[i].agents[a].id, run[i].agents[a].local, run[i].agents[a].local.manifest.Keys, ra)
    requires MaterializedFor(run[i].agents[b].id, run[i].agents[b].local, run[i].agents[b].local.manifest.Keys, rb)
    ensures ra.files == rb.files
    ensures FolderShows(run[i].history, run[i].agents[a].local.manifest, ra.files)
  {
    hide Next, Fair, Init, MaterializedFor, FolderShows, Ready, HonestHistory;
    EveryRunKeepsInv(h, run, steps, i);
    FairThroughout(h, run, steps, i);
    PassConverges(h, run[i], a, ra);
    PassConverges(h, run[i], b, rb);
    assert AgentInv(h, run[i].history, run[i].pieces, run[i].agents[a]);
    FolderUnique(h, run[i].history, run[i].pieces, run[i].agents[a].local.manifest, ra.files, rb.files);
  }

  // When manifests agree

  /** Manifests agree as soon as each covers the other. */
  lemma MutualCoverAgrees(h: Hashing, s: System, a: nat, b: nat)
    requires Inv(h, s) && Fair(h, s) && a < |s.agents| && b < |s.agents|
    requires Dominates(s.agents[a].local.manifest, s.agents[b].local.manifest)
    requires Dominates(s.agents[b].local.manifest, s.agents[a].local.manifest)
    ensures s.agents[a].local.manifest == s.agents[b].local.manifest
  {
    hide GoodChunks, HonestHistory, Charged, FilesCut, OwnEntriesHeld, OwnEntriesKnown, CollisionFree;
    var m, n := s.agents[a].local.manifest, s.agents[b].local.manifest;
    assert AgentInv(h, s.history, s.pieces, s.agents[a]) && AgentInv(h, s.history, s.pieces, s.agents[b]);
    BackedTieFree(h, s.history, s.pieces, m, n);
    assert m.Keys == n.Keys;
    forall p | p in m
      ensures m[p] == n[p]
    {
      KeyAntisymmetric(m[p], n[p]);
      assert !Conflicted(m, n, p);
    }
  }

  function ManifestOf(s: System, a: nat): Entries {
    if a < |s.agents| then s.agents[a].local.manifest else map[]
  }

  /** Over every run no agent's manifest falls. */
  lemma {:induction false} ManifestsClimb(h: Hashing, run: seq<System>, steps: seq<Step>, i: nat, j: nat, a: nat)
    requires IsRun(h, run, steps) && Fair(h, run[|steps|])
    requires i <= j <= |steps|
    ensures Dominates(ManifestOf(run[j], a), ManifestOf(run[i], a))
    decreases j
  {
    hide Next, Fair, Init, Inv, Dominates, AgentInv;
    if i == j {
      DominatesReflexive(ManifestOf(run[i], a));
    } else {
      ManifestsClimb(h, run, steps, i, j - 1, a);
      EveryRunKeepsInv(h, run, steps, j - 1);
      FairThroughout(h, run, steps, j);
      var s, step, t := run[j - 1], steps[j - 1], run[j];
      OthersUntouched(h, s, step, t);
      ActorKept(h, s, step, t);
      DominatesReflexive(ManifestOf(s, a));
      DominatesTransitive(ManifestOf(t, a), ManifestOf(s, a), ManifestOf(run[i], a));
    }
  }

  lemma NewestOfCovered(m: Entries, n: Entries)
    requires Dominates(n, m) && TieFree(m, n) && SafeKeys(n)
    ensures Newest(m, n) == n
  {
    hide SafePath, ContentKey;
    assert forall p :: p in m && p in n ==> !Conflicted(m, n, p);
    assert Newest(m, n).Keys == n.Keys;
  }

  lemma Delivered(h: Hashing, s: System, a: nat, n: Snapshot, t: System)
    requires Inv(h, s) && Fair(h, s) && Next(h, s, Deliver(a, n), t)
    ensures n in s.snapshots && a < |s.agents|
    ensures forall b :: b != a ==> ManifestOf(t, b) == ManifestOf(s, b)
    ensures TieFree(ManifestOf(s, a), n.entries) && SafeKeys(n.entries)
    ensures ManifestOf(t, a) == Newest(ManifestOf(s, a), n.entries)
    ensures Dominates(ManifestOf(t, a), n.entries)
  {
    hide IsMerge, HonestHistory, GoodChunks, Charged, FilesCut, OwnEntriesHeld, OwnEntriesKnown, CollisionFree,
      Dominates, Newest, SafePath, Scanned, InSync, MaterializedOne, TieFreeHistory, TieFree;
    var ag := s.agents[a];
    var merged :|
      IsMerge(ag.local.manifest, n.entries, merged) &&
      t == WithAgent(s, a, ag.(local := ag.local.(manifest := merged)));
    assert SnapshotInv(s, n) && AgentInv(h, s.history, s.pieces, ag);
    BackedTieFree(h, s.history, s.pieces, ag.local.manifest, n.entries);
    TieFreeMerge(ag.local.manifest, n.entries, merged);
    MergeDominatesBoth(ag.local.manifest, n.entries, merged);
    CoversAll(n.entries, merged);
  }

  lemma CoversAll(n: Entries, r: Entries)
    requires SafeKeys(n) && Covers(r, n)
    ensures Dominates(r, n)
  {
    hide SafePath, KeyLeq;
  }

  /** A completed exchange: `b` has merged what `a` held, `a` now merges what `b` holds, and neither
      manifest has changed since the snapshot of it was taken. Then the two manifests are one. */
  lemma QuietExchangeAgrees(h: Hashing, run: seq<System>, steps: seq<Step>, i: nat, j: nat, a: nat, b: nat)
    requires IsRun(h, run, steps) && Fair(h, run[|steps|])
    requires i < j < |steps|
    requires steps[i] == Deliver(b, Snapshot(a, ManifestOf(run[j], a)))
    requires steps[j] == Deliver(a, Snapshot(b, ManifestOf(run[j], b)))
    ensures ManifestOf(run[j + 1], a) == ManifestOf(run[j + 1], b)
  {
    hide Next, Fair, Init, Inv, Dominates, ManifestOf, TieFree, SafeKeys, Newest;
    var m, n := ManifestOf(run[j], a), ManifestOf(run[j], b);
    if a != b {
      EveryRunKeepsInv(h, run, steps, i);
      FairThroughout(h, run, steps, i);
      Delivered(h, run[i], b, Snapshot(a, m), run[i + 1]);
      ManifestsClimb(h, run, steps, i + 1, j, b);
      DominatesTransitive(n, ManifestOf(run[i + 1], b), m);
      EveryRunKeepsInv(h, run, steps, j);
      FairThroughout(h, run, steps, j);
      Delivered(h, run[j], a, Snapshot(b, n), run[j + 1]);
      NewestOfCovered(m, n);
    }
  }

  // The fixed point

  /** All manifests are `m`, every agent is ready, and nothing remains to be materialized. */
  ghost predicate Settled(s: System, m: Entries) {
    forall a :: 0 <= a < |s.agents| ==>
      && s.agents[a].local.manifest == m
      && Ready(s.agents[a])
      && (forall p :: p in m ==> p in s.agents[a].local.known && s.agents[a].local.known[p] == m[p])
      && (forall p :: p in s.agents[a].pending ==> p in m && s.agents[a].pending[p] == m[p])
  }

  /** What a materialize pass of agent `a` over `order` leaves. */
  function AfterPass(ag: Agent, order: seq<string>): Agent
    requires forall p :: p in order ==> p in ag.local.manifest
  {
    AfterMaterializes(ag.(pending := ag.local.manifest), order)
  }

  lemma {:induction false} MaterializesOnlyDisk(ag: Agent, order: seq<string>)
    requires forall p :: p in order ==> p in ag.pending
    ensures
      var r := AfterMaterializes(ag, order);
      && r.pending == ag.pending && r.edited <= ag.edited
      && r.local.manifest == ag.local.manifest && r.local.chunks == ag.local.chunks
  {
    hide Due, Assemble;
    if order != [] {
      MaterializesOnlyDisk(ag, order[..|order| - 1]);
    }
  }

  /** Once manifests agree, chunks are in and users are idle, one pass on every agent settles the system. */
  lemma PassesSettle(h: Hashing, s: System, m: Entries, t: System, orders: seq<seq<string>>)
    requires Inv(h, s) && Fair(h, s)
    requires |t.agents| == |s.agents| == |orders|
    requires forall a :: 0 <= a < |s.agents| ==> s.agents[a].local.manifest == m && Ready(s.agents[a])
    requires forall a :: 0 <= a < |s.agents| ==>
      Enumerates(orders[a], m.Keys) && t.agents[a] == AfterPass(s.agents[a], orders[a])
    ensures Settled(t, m)
  {
    hide Inv, Fair, Ready, AfterMaterializes, MaterializedFor, FolderShows;
    forall a | 0 <= a < |t.agents|
      ensures t.agents[a].local.manifest == m && t.agents[a].pending == m && Ready(t.agents[a])
      ensures forall p :: p in m ==> p in t.agents[a].local.known && t.agents[a].local.known[p] == m[p]
    {
      var ag, order := s.agents[a], orders[a];
      var begun := ag.(pending := m);
      PassIsSteps(begun, order);
      assert (set p | p in order) == m.Keys;
      PassConverges(h, s, a, t.agents[a].local);
      MaterializesOnlyDisk(begun, order);
      ReadyKept(ag, t.agents[a]);
    }
  }

  lemma ReadyKept(ag: Agent, r: Agent)
    requires Ready(ag) && r.edited <= ag.edited
    requires r.local.manifest == ag.local.manifest && r.local.chunks == ag.local.chunks
    ensures Ready(r)
  {
    hide HasAll;
  }

  /** `t` can be reached from `s` by steps of materialize passes alone. */
  ghost predicate PassesLead(h: Hashing, s: System, t: System) {
    exists run: seq<System>, steps :: PassRun(h, run, steps) && run[0] == s && run[|steps|] == t
  }

  ghost predicate PassRun(h: Hashing, run: seq<System>, steps: seq<Step>) {
    && |run| == |steps| + 1
    && forall i :: 0 <= i < |steps| ==>
      (steps[i].BeginPass? || steps[i].Materialize?) && Next(h, run[i], steps[i], run[i + 1])
  }

  lemma LeadsByNothing(h: Hashing, s: System)
    ensures PassesLead(h, s, s)
  {
    var steps: seq<Step> := [];
    assert PassRun(h, [s], steps);
  }

  lemma LeadsFurther(h: Hashing, s: System, t: System, step: Step, u: System)
    requires PassesLead(h, s, t) && (step.BeginPass? || step.Materialize?) && Next(h, t, step, u)
    ensures PassesLead(h, s, u)
  {
    hide Next;
    var run: seq<System>, steps :| PassRun(h, run, steps) && run[0] == s && run[|steps|] == t;
    assert PassRun(h, run + [u], steps + [step]);
    assert (run + [u])[|steps + [step]|] == u;
  }

  lemma {:induction false} OnePassLeads(h: Hashing, s: System, t: System, a: nat, order: seq<string>)
    requires PassesLead(h, s, t) && a < |t.agents|
    requires forall p :: p in order ==> p in t.agents[a].local.manifest
    ensures PassesLead(h, s, WithAgent(t, a, AfterPass(t.agents[a], order)))
  {
    hide PassesLead, AfterMaterialize;
    var begun := t.agents[a].(pending := t.agents[a].local.manifest);
    if order == [] {
      LeadsFurther(h, s, t, BeginPass(a), WithAgent(t, a, begun));
    } else {
      var k := |order| - 1;
      OnePassLeads(h, s, t, a, order[..k]);
      MaterializesOnlyDisk(begun, order[..k]);
      var before := WithAgent(t, a, AfterPass(t.agents[a], order[..k]));
      var after := WithAgent(t, a, AfterPass(t.agents[a], order));
      assert after == WithAgent(before, a, AfterMaterialize(before.agents[a], order[k], begun.pending[order[k]]));
      LeadsFurther(h, s, before, Materialize(a, order[k]), after);
    }
  }

  /** After passes on the first `k` agents. */
  lemma {:induction false} PassesLeadTo(h: Hashing, s: System, m: Entries, order: seq<string>, k: nat) returns (t: System)
    requires forall a :: 0 <= a < |s.agents| ==> s.agents[a].local.manifest == m
    requires k <= |s.agents| && forall p :: p in order ==> p in m
    ensures PassesLead(h, s, t) && |t.agents| == |s.agents|
    ensures forall a :: 0 <= a < |s.agents| ==>
      t.agents[a] == if a < k then AfterPass(s.agents[a], order) else s.agents[a]
  {
    hide PassesLead, AfterPass;
    if k == 0 {
      t := s;
      LeadsByNothing(h, s);
    } else {
      var u := PassesLeadTo(h, s, m, order, k - 1);
      OnePassLeads(h, s, u, k - 1, order);
      t := WithAgent(u, k - 1, AfterPass(u.agents[k - 1], order));
    }
  }

  /** The fixed point is reached: from any state in which manifests agree, chunks are in and users are
      idle, materialize passes alone lead to a settled one. */
  lemma SettlingReached(h: Hashing, s: System, m: Entries) returns (t: System)
    requires Inv(h, s) && Fair(h, s)
    requires forall a :: 0 <= a < |s.agents| ==> s.agents[a].local.manifest == m && Ready(s.agents[a])
    ensures PassesLead(h, s, t) && Settled(t, m)
  {
    hide PassesLead, AfterPass, Inv, Fair, Ready, Settled;
    var order := EnumerationExists(m.Keys);
    t := PassesLeadTo(h, s, m, order, |s.agents|);
    PassesSettle(h, s, m, t, seq(|s.agents|, _ => order));
  }

  /** What a quiet system must not change. */
  ghost predicate SameFolders(s: System, t: System) {
    && |s.agents| == |t.agents| && s.history == t.history
    && forall a :: 0 <= a < |s.agents| ==>
      && t.agents[a].local.files == s.agents[a].local.files
      && t.agents[a].local.manifest == s.agents[a].local.manifest
      && t.agents[a].local.known == s.agents[a].local.known
      && t.agents[a].local.clock == s.agents[a].local.clock
  }

  lemma SettledAgentSynced(h: Hashing, s: System, m: Entries, a: nat, p: string)
    requires Inv(h, s) && Settled(s, m) && a < |s.agents|
    ensures InSync(h, s.agents[a].local, p)
    ensures p in s.agents[a].local.files ==> HasAll(s.agents[a].local.chunks, HashesOf(h, s.agents[a].local.files[p]))
  {
    hide HashesOf, SafePath, GoodChunks, HonestHistory, FilesCut, OwnEntriesHeld, AllBacked, HasAll;
    assert AgentInv(h, s.history, s.pieces, s.agents[a]);
    AgentCharged(h, s, a, p);
  }

  /** Delivering any snapshot ever sent changes nothing in a settled system. */
  lemma SettledMergeIdle(h: Hashing, s: System, m: Entries, n: Snapshot, a: nat, merged: Entries)
    requires Inv(h, s) && Fair(h, s) && Settled(s, m) && a < |s.agents| && n in s.snapshots
    requires IsMerge(m, n.entries, merged)
    ensures merged == m
  {
    hide HashesOf, SafePath, GoodChunks, HonestHistory, IsMerge, Charged, FilesCut, OwnEntriesHeld, OwnEntriesKnown,
      Ready;
    assert SnapshotInv(s, n);
    assert AgentInv(h, s.history, s.pieces, s.agents[a]);
    BackedTieFree(h, s.history, s.pieces, m, n.entries);
    TieFreeMerge(m, n.entries, merged);
    forall p | p in n.entries
      ensures p in m && Winner(m[p], n.entries[p]) == m[p]
    {
      assert !Conflicted(m, n.entries, p);
    }
  }

  /** The fixed point: from a settled state every step but a user edit, whoever takes it, leaves every
      folder, manifest, known map and clock as it was, authors nothing, and leaves the system settled. */
  lemma SettledStays(h: Hashing, s: System, m: Entries, step: Step, t: System)
    requires Inv(h, s) && Fair(h, t) && Settled(s, m)
    requires Next(h, s, step, t) && !step.Edit?
    ensures Settled(t, m) && SameFolders(s, t)
  {
    hide Scanned, MaterializedOne, InSync, IsMerge, IsPartialReply, PieceSet, SafePath, AgentInv, Inv, Fair,
      HashesOf, Ready,
      GoodChunks;
    FairBefore(h, s, step, t);
    var a := step.a;
    var ag := s.agents[a];
    match step
    case Scan(_, p, wall) =>
      SettledAgentSynced(h, s, m, a, p);
      SyncedScanIdle(h, ag, p, wall);
      ScannedReady(h, ag, p, wall);
    case BeginPass(_) =>
      BegunReady(ag);
    case Materialize(_, p) =>
      NothingDue(ag, p);
    case Send(_) =>
    case Deliver(_, n) =>
      var merged :|
        IsMerge(ag.local.manifest, n.entries, merged) &&
        t == WithAgent(s, a, ag.(local := ag.local.(manifest := merged)));
      SettledMergeIdle(h, s, m, n, a, merged);
    case SendChunks(_, _) =>
    case ReceiveChunks(_, reply) =>
      var chunks :|
        IsPartialReply(ag.local.chunks, reply, chunks) &&
        t == WithAgent(s, a, ag.(local := ag.local.(chunks := chunks)));
      RepliesGood(h, s, a, reply);
      ReplyKeepsGood(h, ag.local.chunks, reply, chunks, s.pieces);
      StillReady(ag, chunks);
  }

  lemma ScannedReady(h: Hashing, ag: Agent, p: string, wall: nat)
    requires Ready(ag) && AfterScan(h, ag, p, wall).local == ag.local
    ensures Ready(AfterScan(h, ag, p, wall))
  {
    hide Scanned, InSync, HasAll;
  }

  lemma BegunReady(ag: Agent)
    requires Ready(ag)
    ensures Ready(ag.(pending := ag.local.manifest))
  {
    hide HasAll;
  }

  lemma NothingDue(ag: Agent, p: string)
    requires p in ag.pending && p in ag.local.known && ag.local.known[p] == ag.pending[p]
    ensures AfterMaterialize(ag, p, ag.pending[p]) == ag
  {
  }

  lemma RepliesGood(h: Hashing, s: System, a: nat, reply: ChunkMap)
    requires Inv(h, s) && a < |s.agents| && reply in s.replies
    ensures GoodChunks(h, s.agents[a].local.chunks, s.pieces) && GoodChunks(h, reply, s.pieces)
  {
    hide GoodChunks;
    assert AgentInv(h, s.history, s.pieces, s.agents[a]);
  }

  lemma StillReady(ag: Agent, chunks: ChunkMap)
    requires Ready(ag)
    requires forall k :: k in ag.local.chunks ==> k in chunks
    ensures Ready(ag.(local := ag.local.(chunks := chunks)))
  {
    hide IsHexHash;
  }

  /** A settled system stays as it is for as long as no user edits. */
  lemma {:induction false} SettledForEver(h: Hashing, run: seq<System>, steps: seq<Step>, i: nat, j: nat, m: Entries)
    requires IsRun(h, run, steps) && Fair(h, run[|steps|])
    requires i <= j <= |steps| && Settled(run[i], m)
    requires forall k :: i <= k < j ==> !steps[k].Edit?
    ensures Settled(run[j], m) && SameFolders(run[i], run[j])
    decreases j
  {
    hide Next, Fair, Init, Inv, Settled;
    if i < j {
      SettledForEver(h, run, steps, i, j - 1, m);
      EveryRunKeepsInv(h, run, steps, j - 1);
      FairThroughout(h, run, steps, j);
      SettledStays(h, run[j - 1], m, steps[j - 1], run[j]);
    }
  }

  /** In a settled system every folder shows the manifest, so all folders are equal. */
  lemma SettledFoldersEqual(h: Hashing, s: System, m: Entries, a: nat, b: nat)
    requires Inv(h, s) && Fair(h, s) && Settled(s, m) && a < |s.agents| && b < |s.agents|
    ensures FolderShows(s.history, m, s.agents[a].local.files)
    ensures s.agents[a].local.files == s.agents[b].local.files
  {
    hide MaterializedFor, FolderShows, HonestHistory, Fair, Due;
    SettledPassIdle(s, m, a);
    SettledPassIdle(s, m, b);
    PassConverges(h, s, a, s.agents[a].local);
    PassConverges(h, s, b, s.agents[b].local);
    assert AgentInv(h, s.history, s.pieces, s.agents[a]);
    FolderUnique(h, s.history, s.pieces, m, s.agents[a].local.files, s.agents[b].local.files);
  }

  lemma SettledPassIdle(s: System, m: Entries, a: nat)
    requires Settled(s, m) && a < |s.agents|
    ensures MaterializedFor(s.agents[a].id, s.agents[a].local, s.agents[a].local.manifest.Keys, s.agents[a].local)
  {
    hide Assemble, HasAll, Ready;
  }
}
