/** What agents lose although the manifests converge: an edit stamped behind the entry it replaces, and
    the conflict copy on the disk of its own author. */
module Losses {
  import opened Basics
  import opened Clocks
  import opened Chunker
  import opened ChunkerLaws
  import opened Manifests
  import opened MergeLaws
  import opened Grouping
  import opened Stores
  import opened Agents
  import opened Network
  import opened Synchronisation

  // A clock that lags

  /** A user edit at a path that also carries a remote entry survives the next scan and materialize
      exactly when the stamp the agent gives it, from a clock that never observes remote clocks, is past
      the remote one, or equal with a content key at least as great. If it does not survive, the folder
      goes back to the remote content, or loses the file to a remote delete. An edit stamped behind the
      remote entry also leaves no trace in the manifest, not even a copy. */
  lemma EditSurvivesIff(h: Hashing, ag: Agent, p: string, wall: nat)
    requires !InSync(h, ag.local, p) && SafePath(p)
    requires p in ag.local.manifest && ag.local.manifest[p].author != ag.id
    requires ag.local.manifest[p].tombstone || HasAll(ag.local.chunks, ag.local.manifest[p].chunkHashes)
    ensures
      var remote := ag.local.manifest[p];
      var edit := Authored(h, ag.id, ag.local, p, wall);
      var scanned := AfterScan(h, ag, p, wall);
      var next := AfterMaterialize(scanned, p, scanned.local.manifest[p]);
      && (next.local == scanned.local <==> KeyLeq(remote, edit))
      && (!KeyLeq(remote, edit) ==> RemoteRestored(scanned.local, next.local, p, remote))
      && (Less(edit.hlc, remote.hlc) ==> scanned.local.manifest == ag.local.manifest)
  {
    hide HashesOf, SafePath, Assemble, Ticked, WithFile, ContentKey, Short, HasAll;
    ScanOnlyAddsChunks(h, ag, p);
    var m, e := ag.local.manifest, Authored(h, ag.id, ag.local, p, wall);
    assert p in Applied(m, p, e) && Applied(m, p, e)[p] == Winner(m[p], e);
    if Less(e.hlc, m[p].hlc) {
      assert m[p := m[p]] == m;
    }
    KeyTotal(m[p], e);
  }

  /** The folder at `p` has gone from whatever it held to what `remote` describes. */
  ghost predicate RemoteRestored(before: AgentState, after: AgentState, p: string, remote: Entry) {
    && p in after.known && after.known[p] == remote
    && if remote.tombstone then p !in after.files
       else
         && HasAll(before.chunks, remote.chunkHashes)
         && p in after.files && after.files[p] == Assemble(before.chunks, remote.chunkHashes)
  }

  lemma ScanOnlyAddsChunks(h: Hashing, ag: Agent, p: string)
    requires p in ag.local.manifest
    ensures p in ag.local.files && HasAll(ag.local.chunks, ag.local.manifest[p].chunkHashes) ==>
      HasAll(WithFile(h, ag.local.chunks, ag.local.files[p]), ag.local.manifest[p].chunkHashes)
  {
    hide HashesOf, Pieces, WithFile, IsHexHash;
    if p in ag.local.files {
      WithFileKeeps(h, ag.local.chunks, ag.local.files[p]);
    }
  }

  // A run in which an edit is lost

  const REMOTE := Entry([], 0, Hlc(10, 0), "bob", false)

  function LocalEdit(h: Hashing): Entry {
    FileEntry(h, "alice", [1], Hlc(5, 0))
  }

  /** Bob writes an empty file at wall time 10. */
  function BobAt(stage: nat): Agent {
    if stage == 0 then Agent("bob", AgentState(map[], map[], map[], map[], ZERO), map[], {}, 0)
    else if stage == 1 then Agent("bob", AgentState(map["a" := []], map[], map[], map[], ZERO), map[], {"a"}, 0)
    else Agent("bob", AgentState(map["a" := []], map[], map["a" := REMOTE], map["a" := REMOTE], Hlc(10, 0)), map[], {}, 1)
  }

  /** Alice receives it, writes one byte over it at wall time 5, scans, and materializes. */
  function AliceAt(h: Hashing, stage: nat): Agent {
    var m := map["a" := REMOTE];
    var chunks := WithFile(h, map[], [1]);
    if stage == 0 then Agent("alice", AgentState(map[], map[], map[], map[], ZERO), map[], {}, 0)
    else if stage == 1 then Agent("alice", AgentState(map[], map[], m, map[], ZERO), map[], {}, 0)
    else if stage == 2 then Agent("alice", AgentState(map[], map[], m, map[], ZERO), m, {}, 0)
    else if stage == 3 then Agent("alice", AgentState(map["a" := []], map[], m, m, ZERO), m, {}, 0)
    else if stage == 4 then Agent("alice", AgentState(map["a" := [1]], map[], m, m, ZERO), m, {"a"}, 0)
    else if stage == 5 then
      Agent("alice", AgentState(map["a" := [1]], chunks, m, map["a" := LocalEdit(h)], Hlc(5, 0)), map[], {}, 1)
    else if stage == 6 then
      Agent("alice", AgentState(map["a" := [1]], chunks, m, map["a" := LocalEdit(h)], Hlc(5, 0)), m, {}, 1)
    else Agent("alice", AgentState(map["a" := []], chunks, m, m, Hlc(5, 0)), m, {}, 1)
  }

  lemma BobScans(h: Hashing)
    ensures Edited(BobAt(0), "a", Some([])) == BobAt(1)
    ensures AfterScan(h, BobAt(1), "a", 10) == BobAt(2)
    ensures RecordOf(h, BobAt(1), "a", 10) == Record("a", REMOTE, Some([]))
    ensures PieceSet(h, BobAt(1).local.files, "a") == {} && !InSync(h, BobAt(1).local, "a")
  {
    hide SafePath;
    PlainNameSafe();
    assert HashesOf(h, []) == [];
    assert WithFile(h, map[], []) == map[];
  }

  lemma AliceReceives(h: Hashing)
    ensures IsMerge(map[], map["a" := REMOTE], map["a" := REMOTE])
    ensures AfterMaterialize(AliceAt(h, 2), "a", REMOTE) == AliceAt(h, 3)
  {
    hide SafePath, IsMerge;
    PlainNameSafe();
    MergeOne(map[], "a", REMOTE, map["a" := REMOTE]);
  }

  lemma AliceScans(h: Hashing)
    ensures Edited(AliceAt(h, 3), "a", Some([1])) == AliceAt(h, 4)
    ensures AfterScan(h, AliceAt(h, 4), "a", 5) == AliceAt(h, 5)
    ensures RecordOf(h, AliceAt(h, 4), "a", 5) == Record("a", LocalEdit(h), Some([1]))
    ensures !InSync(h, AliceAt(h, 4).local, "a")
  {
    hide SafePath, HashesOf, WithFile;
    var m := map["a" := REMOTE];
    assert m["a" := REMOTE] == m;
  }

  lemma AliceLosesEdit(h: Hashing)
    ensures AfterMaterialize(AliceAt(h, 6), "a", REMOTE) == AliceAt(h, 7)
  {
    hide HashesOf, WithFile;
  }

  lemma OnePiece(h: Hashing)
    ensures PieceSet(h, map["a" := [1]], "a") == {[1]}
  {
    hide CutAfter;
    var b: Bytes := [1];
    assert FirstCut(h, b) == 1;
    assert b[..1] == b && b[1..] == [];
    assert Pieces(h, b) == [b];
    assert Pieces(h, b)[0] == b;
  }

  function LostEditRun(h: Hashing): seq<System> {
    var sent := {Snapshot(1, map["a" := REMOTE])};
    var bobs := {Record("a", REMOTE, Some([]))};
    var both := bobs + {Record("a", LocalEdit(h), Some([1]))};
    [System([AliceAt(h, 0), BobAt(0)], {}, {}, {}, {}),
     System([AliceAt(h, 0), BobAt(1)], {}, {}, {}, {}),
     System([AliceAt(h, 0), BobAt(2)], {}, {}, bobs, {}),
     System([AliceAt(h, 0), BobAt(2)], sent, {}, bobs, {}),
     System([AliceAt(h, 1), BobAt(2)], sent, {}, bobs, {}),
     System([AliceAt(h, 2), BobAt(2)], sent, {}, bobs, {}),
     System([AliceAt(h, 3), BobAt(2)], sent, {}, bobs, {}),
     System([AliceAt(h, 4), BobAt(2)], sent, {}, bobs, {}),
     System([AliceAt(h, 5), BobAt(2)], sent, {}, both, {[1]}),
     System([AliceAt(h, 6), BobAt(2)], sent, {}, both, {[1]}),
     System([AliceAt(h, 7), BobAt(2)], sent, {}, both, {[1]})]
  }

  function LostEditSteps(): seq<Step> {
    [Edit(1, "a", Some([])), Scan(1, "a", 10), Send(1), Deliver(0, Snapshot(1, map["a" := REMOTE])), BeginPass(0),
     Materialize(0, "a"), Edit(0, "a", Some([1])), Scan(0, "a", 5), BeginPass(0), Materialize(0, "a")]
  }

  lemma TwoAgents(x: Agent, y: Agent, z: Agent)
    ensures [x, y][0 := z] == [z, y] && [x, y][1 := z] == [x, z]
  {
  }

  lemma BobsSteps(h: Hashing, i: nat)
    requires i < 3
    ensures Next(h, LostEditRun(h)[i], LostEditSteps()[i], LostEditRun(h)[i + 1])
  {
    hide AfterScan, RecordOf, PieceSet, InSync, SafePath, IsMerge, WithFile, HashesOf;
    PlainNameSafe();
    BobScans(h);
    var alice := AliceAt(h, 0);
    TwoAgents(alice, BobAt(0), BobAt(1));
    TwoAgents(alice, BobAt(1), BobAt(2));
  }

  lemma AliceReceivesStep(h: Hashing)
    ensures Next(h, LostEditRun(h)[3], LostEditSteps()[3], LostEditRun(h)[4])
  {
    hide IsMerge;
    var s, alice, m := LostEditRun(h)[3], AliceAt(h, 0), map["a" := REMOTE];
    AliceReceives(h);
    TwoAgents(alice, BobAt(2), AliceAt(h, 1));
    DeliverStep(h, s, 0, Snapshot(1, m), m);
  }

  lemma DeliverStep(h: Hashing, s: System, a: nat, n: Snapshot, merged: Entries)
    requires a < |s.agents| && n in s.snapshots && IsMerge(s.agents[a].local.manifest, n.entries, merged)
    ensures Next(h, s, Deliver(a, n), WithAgent(s, a, WithManifest(s.agents[a], merged)))
  {
    hide IsMerge;
  }

  lemma AliceTakes(h: Hashing, i: nat)
    requires 4 <= i < 6
    ensures Next(h, LostEditRun(h)[i], LostEditSteps()[i], LostEditRun(h)[i + 1])
  {
    hide AfterMaterialize, PieceSet, InSync, SafePath, IsMerge, WithFile, HashesOf;
    AliceReceives(h);
    TwoAgents(AliceAt(h, i - 3), BobAt(2), AliceAt(h, i - 2));
  }

  lemma AliceEdits(h: Hashing, i: nat)
    requires 6 <= i < 10
    ensures Next(h, LostEditRun(h)[i], LostEditSteps()[i], LostEditRun(h)[i + 1])
  {
    hide AfterScan, RecordOf, AfterMaterialize, PieceSet, InSync, SafePath, IsMerge, WithFile, HashesOf, LocalEdit;
    PlainNameSafe();
    AliceScans(h);
    AliceLosesEdit(h);
    OnePiece(h);
    TwoAgents(AliceAt(h, i - 3), BobAt(2), AliceAt(h, i - 2));
  }

  /** Bob's file reaches Alice; she edits it with a clock that is behind; her next scan and pass put
      Bob's bytes back, and no manifest holds what she wrote. */
  lemma LostEditWitness(h: Hashing)
    ensures
      var run, steps := LostEditRun(h), LostEditSteps();
      && Synchronisation.IsRun(h, run, steps) && Fair(h, run[|steps|])
      && run[7].agents[0].local.files == map["a" := [1]]
      && run[10].agents[0].local.files == map["a" := []]
      && forall a :: 0 <= a < 2 ==> run[10].agents[a].local.manifest == map["a" := REMOTE]
  {
    hide Next;
    var run, steps := LostEditRun(h), LostEditSteps();
    forall i | 0 <= i < |steps|
      ensures Next(h, run[i], steps[i], run[i + 1])
    {
      if i < 3 {
        BobsSteps(h, i);
      } else if i == 3 {
        AliceReceivesStep(h);
      } else if i < 6 {
        AliceTakes(h, i);
      } else {
        AliceEdits(h, i);
      }
    }
  }

  // A tie

  /** Exactly who gets the conflict copy of a tie on disk. `x` has arrived at `p` and tied; the copy's name
      is free in manifest and folder, and the loser `l` is live, its chunks here, not already confirmed.
      The manifest holds both sides; the next pass writes the copy on every disk but its own author's,
      because `materialize_remote` passes over own entries. */
  lemma LoserOnDiskIff(self: string, st: AgentState, p: string, x: Entry, r: AgentState)
    requires SafePath(p) && p in st.manifest && Tie(st.manifest[p], x)
    requires
      var l := Loser(st.manifest[p], x);
      var c := ConflictPath(p, l.author);
      && c !in st.manifest && c !in st.files && !(c in st.known && st.known[c] == l)
      && !l.tombstone && HasAll(st.chunks, l.chunkHashes)
    requires MaterializedFor(self, st.(manifest := Applied(st.manifest, p, x)), Applied(st.manifest, p, x).Keys, r)
    ensures
      var w, l := Winner(st.manifest[p], x), Loser(st.manifest[p], x);
      var c := ConflictPath(p, l.author);
      && p in r.manifest && r.manifest[p] == w && c in r.manifest && r.manifest[c] == l
      && (c in r.files <==> l.author != self)
      && (c in r.files ==> r.files[c] == Assemble(st.chunks, l.chunkHashes))
      && (Due(self, st, p, w) ==>
           if w.tombstone then p !in r.files
           else p in r.files && r.files[p] == Assemble(st.chunks, w.chunkHashes))
  {
    hide Assemble, HasAll, SafePath, Short, Winner, Loser;
    assert ConflictPath(p, Loser(st.manifest[p], x).author) != p;
  }

  const SEVEN: string := seq(64, i => '7')
  const ALICES := Entry([], 0, Hlc(5, 0), "alice", false)
  const BOBS := Entry([SEVEN], 1, Hlc(5, 0), "bob", false)
  const BOTH := map["a" := BOBS, "a.conflict-alice" := ALICES]

  /** Alice's empty file and Bob's file of one byte tie, and each receives the other's entry. Both end with
      the same manifest; Alice's pass replaces her file by Bob's and keeps no copy; Bob's pass writes one. */
  lemma LoserOnDiskWitness() returns (ra: AgentState, rb: AgentState)
    ensures
      var alice := AgentState(map["a" := []], map[SEVEN := [7]], map["a" := ALICES], map["a" := ALICES], Hlc(5, 0));
      && Applied(alice.manifest, "a", BOBS) == BOTH
      && MaterializedFor("alice", alice.(manifest := BOTH), BOTH.Keys, ra)
      && ra.files == map["a" := [7]]
    ensures
      var bob := AgentState(map["a" := [7]], map[SEVEN := [7]], map["a" := BOBS], map["a" := BOBS], Hlc(5, 0));
      && Applied(bob.manifest, "a", ALICES) == BOTH
      && MaterializedFor("bob", bob.(manifest := BOTH), BOTH.Keys, rb)
      && rb.files == map["a" := [7], "a.conflict-alice" := []]
  {
    hide SafePath;
    PlainNameSafe();
    TieMeets();
    var chunks := map[SEVEN := [7]];
    SevenAssembles(chunks);
    ra := AgentState(map["a" := [7]], chunks, BOTH, map["a" := BOBS], Hlc(5, 0));
    rb := AgentState(map["a" := [7], "a.conflict-alice" := []], chunks, BOTH,
                     map["a" := BOBS, "a.conflict-alice" := ALICES], Hlc(5, 0));
  }

  lemma TieMeets()
    ensures Applied(map["a" := ALICES], "a", BOBS) == BOTH
    ensures Applied(map["a" := BOBS], "a", ALICES) == BOTH
  {
    hide SafePath;
    PlainNameSafe();
    assert "a" + MARKER + Short("alice") == "a.conflict-alice";
  }

  lemma SevenAssembles(chunks: ChunkMap)
    requires SEVEN in chunks && chunks[SEVEN] == [7]
    ensures HasAll(chunks, [SEVEN]) && Assemble(chunks, [SEVEN]) == [7]
    ensures HasAll(chunks, []) && Assemble(chunks, []) == []
  {
    assert [SEVEN][..0] == [];
  }
}
