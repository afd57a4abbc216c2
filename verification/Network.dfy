/** Any number of agents as one state machine: user edits, scans, gossip, chunk transfer and
    materialization, interleaved path by path. Agents do not restart; entries on the wire come from
    scans; snapshots may be delivered late, again, and in any order. */
module Network {
  import opened Basics
  import opened Clocks
  import opened Chunker
  import opened ChunkerLaws
  import opened Manifests
  import opened MergeLaws
  import opened Stores
  import opened Agents

  /** What a scan authored, with the file content it saw (None for a removal). */
  datatype Record = Record(path: string, entry: Entry, content: Option<Bytes>)

  /** `pending` is the manifest snapshot of the materialize pass under way; `edited` holds the paths
      the user has changed since this agent last scanned or materialized them; `authored` counts the
      entries this agent has authored. */
  datatype Agent = Agent(id: string, local: AgentState, pending: Entries, edited: set<string>, authored: nat)

  /** A manifest snapshot on the wire. */
  datatype Snapshot = Snapshot(sender: nat, entries: Entries)

  /** `history` and `pieces` collect every entry authored and every chunk cut so far. */
  datatype System = System(agents: seq<Agent>, snapshots: set<Snapshot>, replies: set<ChunkMap>,
                           history: set<Record>, pieces: set<Bytes>)

  datatype Step =
    | Edit(a: nat, path: string, content: Option<Bytes>)
    | Scan(a: nat, path: string, wall: nat)
    | BeginPass(a: nat)
    | Materialize(a: nat, path: string)
    | Send(a: nat)
    | Deliver(a: nat, snapshot: Snapshot)
    | SendChunks(a: nat, hashes: set<string>)
    | ReceiveChunks(a: nat, reply: ChunkMap)

  // The steps

  function Edited(ag: Agent, p: string, content: Option<Bytes>): Agent {
    var files := if content.Some? then ag.local.files[p := content.value] else ag.local.files - {p};
    ag.(local := ag.local.(files := files), edited := ag.edited + {p})
  }

  /** A scan runs on the same thread as the materialize pass, so no pass is under way. */
  function AfterScan(h: Hashing, ag: Agent, p: string, wall: nat): Agent {
    ag.(local := Scanned(h, ag.id, ag.local, p, wall), pending := map[], edited := ag.edited - {p},
        authored := if InSync(h, ag.local, p) then ag.authored else ag.authored + 1)
  }

  function AfterMaterialize(ag: Agent, p: string, e: Entry): Agent {
    ag.(local := MaterializedOne(ag.id, ag.local, p, e),
        edited := if Due(ag.id, ag.local, p, e) then ag.edited - {p} else ag.edited)
  }

  /** The record of what `AfterScan` authors. */
  function RecordOf(h: Hashing, ag: Agent, p: string, wall: nat): Record {
    Record(p, Authored(h, ag.id, ag.local, p, wall),
           if p in ag.local.files then Some(ag.local.files[p]) else None)
  }

  function PieceSet(h: Hashing, files: map<string, Bytes>, p: string): set<Bytes> {
    if p in files then set i | 0 <= i < |Pieces(h, files[p])| :: Pieces(h, files[p])[i] else {}
  }

  function WithAgent(s: System, a: nat, ag: Agent): System
    requires a < |s.agents|
  {
    s.(agents := s.agents[a := ag])
  }

  ghost predicate Next(h: Hashing, s: System, step: Step, t: System) {
    && step.a < |s.agents|
    && var ag := s.agents[step.a];
    match step
    case Edit(a, p, content) =>
      && SafePath(p)
      && t == WithAgent(s, a, Edited(ag, p, content))
    case Scan(a, p, wall) =>
      && t.agents == s.agents[a := AfterScan(h, ag, p, wall)]
      && t.snapshots == s.snapshots && t.replies == s.replies
      && t.history == (if InSync(h, ag.local, p) then s.history else s.history + {RecordOf(h, ag, p, wall)})
      && t.pieces == s.pieces + PieceSet(h, ag.local.files, p)
    case BeginPass(a) =>
      t == WithAgent(s, a, ag.(pending := ag.local.manifest))
    case Materialize(a, p) =>
      && p in ag.pending
      && t == WithAgent(s, a, AfterMaterialize(ag, p, ag.pending[p]))
    case Send(a) =>
      t == s.(snapshots := s.snapshots + {Snapshot(a, ag.local.manifest)})
    case Deliver(a, n) =>
      && n in s.snapshots
      && exists merged ::
        IsMerge(ag.local.manifest, n.entries, merged) &&
        t == WithAgent(s, a, ag.(local := ag.local.(manifest := merged)))
    case SendChunks(a, hashes) =>
      t == s.(replies := s.replies + {map k | k in hashes && Has(ag.local.chunks, k) :: ag.local.chunks[k]})
    case ReceiveChunks(a, reply) =>
      && reply in s.replies
      && exists chunks ::
        IsPartialReply(ag.local.chunks, reply, chunks) &&
        t == WithAgent(s, a, ag.(local := ag.local.(chunks := chunks)))
  }

  ghost predicate Init(s: System) {
    && s.snapshots == {} && s.replies == {} && s.history == {} && s.pieces == {}
    && (forall a, b :: 0 <= a < b < |s.agents| ==> s.agents[a].id != s.agents[b].id)
    && forall a :: 0 <= a < |s.agents| ==>
      s.agents[a] == Agent(s.agents[a].id, AgentState(map[], map[], map[], map[], ZERO), map[], {}, 0)
  }

  // What is assumed of a run: no two different entries at one path carry the same clock, BLAKE3 does
  // not collide on the chunks in play, and no agent has used up its u32 counter.

  ghost predicate TieFreeHistory(history: set<Record>) {
    forall r, q :: r in history && q in history && r.path == q.path && r.entry.hlc == q.entry.hlc ==> r.entry == q.entry
  }

  ghost predicate Fair(h: Hashing, s: System) {
    && TieFreeHistory(s.history)
    && CollisionFree(h, s.pieces)
    && forall a :: 0 <= a < |s.agents| ==> s.agents[a].authored < U32_SIZE
  }

  lemma FairBefore(h: Hashing, s: System, step: Step, t: System)
    requires Next(h, s, step, t) && Fair(h, t)
    ensures Fair(h, s)
    ensures |t.agents| == |s.agents| && s.history <= t.history && s.pieces <= t.pieces
  {
    hide Scanned, MaterializedOne, InSync, PieceSet, Due, IsMerge, IsPartialReply;
    forall a | 0 <= a < |s.agents|
      ensures s.agents[a].authored < U32_SIZE
    {
      assert s.agents[a].authored <= t.agents[a].authored;
    }
  }

  // The invariant

  ghost predicate Wrote(history: set<Record>, p: string, e: Entry) {
    exists c :: Record(p, e, c) in history
  }

  ghost predicate Backed(history: set<Record>, m: Entries) {
    forall p :: p in m ==> Wrote(history, p, m[p])
  }

  /** The entry describes the content a scan saw. */
  ghost predicate Honest(h: Hashing, pieces: set<Bytes>, r: Record) {
    && SafePath(r.path)
    && r.entry.tombstone == r.content.None?
    && match r.content
       case None => r.entry.chunkHashes == [] && r.entry.size == 0
       case Some(b) => r.entry.chunkHashes == HashesOf(h, b) && r.entry.size == |b| && PiecesIn(h, b, pieces)
  }

  ghost predicate HonestHistory(h: Hashing, history: set<Record>, pieces: set<Bytes>) {
    forall r :: r in history ==> Honest(h, pieces, r)
  }

  ghost predicate GoodChunks(h: Hashing, chunks: ChunkMap, pieces: set<Bytes>) {
    Sound(h, chunks) && StoredFrom(chunks, pieces)
  }

  /** Every manifest, known entry and pending entry was authored by some scan. */
  ghost predicate AllBacked(history: set<Record>, ag: Agent) {
    Backed(history, ag.local.manifest) && Backed(history, ag.local.known) && Backed(history, ag.pending)
  }

  /** An agent's own entries are not ahead of its clock, and its manifest is not behind them. */
  ghost predicate OwnEntriesHeld(history: set<Record>, ag: Agent) {
    forall r :: r in history && r.entry.author == ag.id ==>
      && AtMost(r.entry.hlc, ag.local.clock)
      && r.path in ag.local.manifest
      && AtMost(r.entry.hlc, ag.local.manifest[r.path].hlc)
  }

  /** Where the manifest carries this agent's own entry, that entry is what its disk shows. */
  ghost predicate OwnEntriesKnown(ag: Agent) {
    && (forall p :: p in ag.local.manifest && ag.local.manifest[p].author == ag.id ==>
         p in ag.local.known && ag.local.known[p] == ag.local.manifest[p])
    && (forall p :: p in ag.pending ==> p in ag.local.manifest)
    && (forall p :: p in ag.pending && ag.local.manifest[p].author == ag.id ==> ag.pending[p] == ag.local.manifest[p])
    && ag.local.known.Keys <= ag.local.manifest.Keys
  }

  /** Every difference between folder and known state is a user edit. */
  ghost predicate Charged(h: Hashing, ag: Agent) {
    && (forall p :: p in ag.local.files ==> SafePath(p))
    && (forall p :: InSync(h, ag.local, p) || p in ag.edited)
  }

  /** The chunks of every file the user has not just changed are among those in play. */
  ghost predicate FilesCut(h: Hashing, pieces: set<Bytes>, ag: Agent) {
    forall p :: p in ag.local.files && p !in ag.edited ==> PiecesIn(h, ag.local.files[p], pieces)
  }

  ghost predicate AgentInv(h: Hashing, history: set<Record>, pieces: set<Bytes>, ag: Agent) {
    && AllBacked(history, ag)
    && GoodChunks(h, ag.local.chunks, pieces)
    && OwnEntriesHeld(history, ag)
    && OwnEntriesKnown(ag)
    && Charged(h, ag)
    && FilesCut(h, pieces, ag)
    && ag.local.clock.logical <= ag.authored
  }

  ghost predicate SnapshotInv(s: System, n: Snapshot) {
    && n.sender < |s.agents|
    && Backed(s.history, n.entries)
    && Dominates(s.agents[n.sender].local.manifest, n.entries)
  }

  ghost predicate Inv(h: Hashing, s: System) {
    && (forall a, b :: 0 <= a < b < |s.agents| ==> s.agents[a].id != s.agents[b].id)
    && HonestHistory(h, s.history, s.pieces)
    && (forall a :: 0 <= a < |s.agents| ==> AgentInv(h, s.history, s.pieces, s.agents[a]))
    && (forall n :: n in s.snapshots ==> SnapshotInv(s, n))
    && (forall c :: c in s.replies ==> GoodChunks(h, c, s.pieces))
  }

  lemma InitKeepsInv(h: Hashing, s: System)
    requires Init(s)
    ensures Inv(h, s)
  {
  }

  // What tie-freedom buys: merges are path-wise

  lemma BackedTieFree(h: Hashing, history: set<Record>, pieces: set<Bytes>, m: Entries, n: Entries)
    requires HonestHistory(h, history, pieces) && TieFreeHistory(history)
    requires Backed(history, m) && Backed(history, n)
    ensures SafeKeys(n) && TieFree(m, n)
  {
    hide HashesOf, SafePath, PiecesIn;
    forall p | p in n
      ensures SafePath(p)
    {
      var c :| Record(p, n[p], c) in history;
      assert Honest(h, pieces, Record(p, n[p], c));
    }
    forall q
      ensures !Conflicted(m, n, q)
    {
      if q in m && q in n {
        assert Wrote(history, q, m[q]) && Wrote(history, q, n[q]);
      }
    }
  }

  function WithManifest(ag: Agent, m: Entries): Agent {
    ag.(local := ag.local.(manifest := m))
  }

  /** Merging a backed snapshot keeps what every own-entry invariant says. */
  lemma MergedAgent(h: Hashing, history: set<Record>, pieces: set<Bytes>, ag: Agent, n: Entries, merged: Entries)
    requires AgentInv(h, history, pieces, ag)
    requires HonestHistory(h, history, pieces) && TieFreeHistory(history) && Backed(history, n)
    requires IsMerge(ag.local.manifest, n, merged)
    ensures AgentInv(h, history, pieces, WithManifest(ag, merged))
    ensures Dominates(merged, ag.local.manifest)
  {
    hide IsMerge, HonestHistory, GoodChunks, OwnEntriesHeld, OwnEntriesKnown, Charged, Dominates, Newest,
      TieFreeHistory,
      PiecesIn;
    var m := ag.local.manifest;
    BackedTieFree(h, history, pieces, m, n);
    TieFreeMerge(m, n, merged);
    MergeDominatesBoth(m, n, merged);
    NewestBacked(history, m, n);
    MergedHeld(history, ag, n, merged);
    MergedKnown(history, ag, n);
    MergedCharged(h, ag, merged);
  }

  lemma NewestBacked(history: set<Record>, m: Entries, n: Entries)
    requires Backed(history, m) && Backed(history, n)
    ensures Backed(history, Newest(m, n))
  {
  }

  lemma MergedHeld(history: set<Record>, ag: Agent, n: Entries, merged: Entries)
    requires OwnEntriesHeld(history, ag) && Dominates(merged, ag.local.manifest)
    ensures OwnEntriesHeld(history, WithManifest(ag, merged))
  {
  }

  lemma MergedKnown(history: set<Record>, ag: Agent, n: Entries)
    requires OwnEntriesHeld(history, ag) && OwnEntriesKnown(ag)
    requires Backed(history, n) && TieFree(ag.local.manifest, n)
    ensures OwnEntriesKnown(WithManifest(ag, Newest(ag.local.manifest, n)))
  {
    hide OwnEntriesHeld, Backed, TieFree, Winner;
    forall p | p in Newest(ag.local.manifest, n) && Newest(ag.local.manifest, n)[p].author == ag.id
      ensures p in ag.local.manifest && Newest(ag.local.manifest, n)[p] == ag.local.manifest[p]
    {
      OwnEntryNotNews(history, ag, n, p);
    }
  }

  lemma MergedCharged(h: Hashing, ag: Agent, merged: Entries)
    requires Charged(h, ag)
    ensures Charged(h, WithManifest(ag, merged))
  {
    hide HashesOf, SafePath;
    assert forall p :: InSync(h, WithManifest(ag, merged).local, p) == InSync(h, ag.local, p);
  }

  /** An agent's own entry arriving by gossip is never newer than what the agent holds. */
  lemma OwnEntryNotNews(history: set<Record>, ag: Agent, n: Entries, p: string)
    requires OwnEntriesHeld(history, ag) && Backed(history, n) && TieFree(ag.local.manifest, n)
    requires p in Newest(ag.local.manifest, n) && Newest(ag.local.manifest, n)[p].author == ag.id
    ensures p in ag.local.manifest && Newest(ag.local.manifest, n)[p] == ag.local.manifest[p]
  {
    var m := ag.local.manifest;
    if p in n && n[p].author == ag.id {
      var c :| Record(p, n[p], c) in history;
      assert !Conflicted(m, n, p);
    }
  }

  // A scan

  lemma TickClimbs(ag: Agent, wall: nat)
    requires ag.local.clock.logical <= ag.authored < U32_SIZE - 1
    ensures Less(ag.local.clock, Ticked(ag.local.clock, wall))
    ensures Ticked(ag.local.clock, wall).logical <= ag.authored + 1
  {
    TickIncreasesIff(ag.local.clock, wall);
  }

  lemma RecordHonest(h: Hashing, ag: Agent, p: string, wall: nat, pieces: set<Bytes>)
    requires SafePath(p)
    requires PieceSet(h, ag.local.files, p) <= pieces
    ensures Honest(h, pieces, RecordOf(h, ag, p, wall))
  {
    hide SafePath, HashesOf, Pieces;
  }

  /** A path a scan finds out of sync is safe: it is a file's, or one already in the manifest. */
  lemma DirtyPathSafe(h: Hashing, history: set<Record>, pieces: set<Bytes>, ag: Agent, p: string)
    requires AgentInv(h, history, pieces, ag) && HonestHistory(h, history, pieces)
    requires !InSync(h, ag.local, p)
    ensures SafePath(p)
  {
    hide SafePath, HashesOf, PiecesIn;
    if p !in ag.local.files {
      assert Wrote(history, p, ag.local.known[p]);
      var c :| Record(p, ag.local.known[p], c) in history;
      assert Honest(h, pieces, Record(p, ag.local.known[p], c));
    }
  }

  /** `put` of a fresh entry with no tie: one path changes, to the newer of the two. */
  lemma FreshPut(m: Entries, p: string, e: Entry)
    requires SafePath(p)
    requires p in m ==> !Tie(m[p], e)
    ensures Applied(m, p, e) == PutNewer(m, p, e)
  {
    if p in m {
      assert m[p := m[p]] == m;
    }
  }

  /** The manifest a scan leaves, with no tie: the newer of the held and the authored entry. */
  function PutNewer(m: Entries, p: string, e: Entry): Entries {
    m[p := if p in m && !Less(m[p].hlc, e.hlc) then m[p] else e]
  }

  lemma AuthoringScanState(h: Hashing, history: set<Record>, pieces: set<Bytes>, ag: Agent, p: string, wall: nat)
    requires AgentInv(h, history, pieces, ag) && HonestHistory(h, history, pieces)
    requires !InSync(h, ag.local, p)
    requires TieFreeHistory(history + {RecordOf(h, ag, p, wall)})
    ensures
      var e := Authored(h, ag.id, ag.local, p, wall);
      var l := AfterScan(h, ag, p, wall).local;
      && l.manifest == PutNewer(ag.local.manifest, p, e) == Applied(ag.local.manifest, p, e)
      && l.known == ag.local.known[p := e]
      && l.clock == e.hlc
      && e.author == ag.id
  {
    hide WithFile, HashesOf, SafePath, Ticked, Pieces, Applied, HonestHistory, GoodChunks, Charged,
      OwnEntriesHeld, OwnEntriesKnown, InSync, FilesCut;
    var e := Authored(h, ag.id, ag.local, p, wall);
    var m := ag.local.manifest;
    DirtyPathSafe(h, history, pieces, ag, p);
    if p in m {
      assert Wrote(history, p, m[p]);
      var c :| Record(p, m[p], c) in history;
      var all := history + {RecordOf(h, ag, p, wall)};
      assert RecordOf(h, ag, p, wall) in all && Record(p, m[p], c) in all;
    }
    FreshPut(m, p, e);
  }

  lemma PutBacked(history: set<Record>, r: Record, ag: Agent, ag': Agent)
    requires AllBacked(history, ag)
    requires ag'.local.manifest == PutNewer(ag.local.manifest, r.path, r.entry)
    requires ag'.local.known == ag.local.known[r.path := r.entry] && ag'.pending == map[]
    ensures AllBacked(history + {r}, ag')
  {
    var history' := history + {r};
    assert Wrote(history', r.path, r.entry) by {
      assert Record(r.path, r.entry, r.content) in history';
    }
    BackedGrows(history, history', ag);
  }

  lemma PutHeld(history: set<Record>, r: Record, ag: Agent, ag': Agent)
    requires OwnEntriesHeld(history, ag) && ag'.id == ag.id
    requires ag'.local.manifest == PutNewer(ag.local.manifest, r.path, r.entry)
    requires ag'.local.clock == r.entry.hlc && Less(ag.local.clock, r.entry.hlc)
    ensures OwnEntriesHeld(history + {r}, ag')
  {
  }

  lemma PutKnown(history: set<Record>, r: Record, ag: Agent, ag': Agent)
    requires OwnEntriesHeld(history, ag) && OwnEntriesKnown(ag) && ag'.id == ag.id
    requires Backed(history, ag.local.manifest)
    requires ag'.local.manifest == PutNewer(ag.local.manifest, r.path, r.entry)
    requires ag'.local.known == ag.local.known[r.path := r.entry] && ag'.pending == map[]
    requires Less(ag.local.clock, r.entry.hlc)
    ensures OwnEntriesKnown(ag')
  {
    var m, p := ag.local.manifest, r.path;
    if p in m && m[p].author == ag.id {
      var c :| Record(p, m[p], c) in history;
      assert AtMost(m[p].hlc, ag.local.clock);
    }
  }

  /** The agent after a scan that authors an entry. */
  lemma AuthoringScan(h: Hashing, history: set<Record>, pieces: set<Bytes>, ag: Agent, p: string, wall: nat,
                      history': set<Record>, pieces': set<Bytes>)
    requires AgentInv(h, history, pieces, ag) && HonestHistory(h, history, pieces)
    requires !InSync(h, ag.local, p) && ag.authored < U32_SIZE - 1
    requires history' == history + {RecordOf(h, ag, p, wall)} && TieFreeHistory(history')
    requires pieces' == pieces + PieceSet(h, ag.local.files, p)
    ensures AgentInv(h, history', pieces', AfterScan(h, ag, p, wall))
    ensures Dominates(AfterScan(h, ag, p, wall).local.manifest, ag.local.manifest)
  {
    var e := Authored(h, ag.id, ag.local, p, wall);
    var ag' := AfterScan(h, ag, p, wall);
    AuthoringScanState(h, history, pieces, ag, p, wall);
    hide WithFile, HashesOf, Ticked, Pieces, Applied, HonestHistory, GoodChunks, Charged, InSync, Scanned, PutNewer,
      OwnEntriesHeld, OwnEntriesKnown, AllBacked, Dominates, FilesCut;
    TickClimbs(ag, wall);
    AppliedClimbs(ag.local.manifest, p, e);
    PutBacked(history, RecordOf(h, ag, p, wall), ag, ag');
    PutHeld(history, RecordOf(h, ag, p, wall), ag, ag');
    AllBackedManifest(history, ag);
    PutKnown(history, RecordOf(h, ag, p, wall), ag, ag');
    ScannedChunks(h, ag, p, wall, pieces, pieces');
    ScannedCharged(h, ag, p, wall);
    ScannedCut(h, pieces, ag, p, wall);
  }

  lemma AllBackedManifest(history: set<Record>, ag: Agent)
    requires AllBacked(history, ag)
    ensures Backed(history, ag.local.manifest)
  {
  }

  lemma BackedGrows(history: set<Record>, history': set<Record>, ag: Agent)
    requires AllBacked(history, ag) && history <= history'
    ensures AllBacked(history', ag)
  {
  }

  lemma ScannedChunks(h: Hashing, ag: Agent, p: string, wall: nat, pieces: set<Bytes>, pieces': set<Bytes>)
    requires GoodChunks(h, ag.local.chunks, pieces)
    requires pieces' == pieces + PieceSet(h, ag.local.files, p)
    ensures GoodChunks(h, AfterScan(h, ag, p, wall).local.chunks, pieces')
  {
    hide Pieces, HashesOf, Applied, WithFile;
    if p in ag.local.files {
      WithFileKeeps(h, ag.local.chunks, ag.local.files[p]);
      var r := WithFile(h, ag.local.chunks, ag.local.files[p]);
      forall k | k in r
        ensures r[k] in pieces'
      {
        if k !in ag.local.chunks {
          var i :| 0 <= i < |Pieces(h, ag.local.files[p])| && Pieces(h, ag.local.files[p])[i] == r[k];
        }
      }
    }
  }

  lemma FilesCutGrows(h: Hashing, pieces: set<Bytes>, ag: Agent, pieces': set<Bytes>)
    requires FilesCut(h, pieces, ag) && pieces <= pieces'
    ensures FilesCut(h, pieces', ag)
  {
    hide Pieces;
  }

  lemma ScannedCut(h: Hashing, pieces: set<Bytes>, ag: Agent, p: string, wall: nat)
    requires FilesCut(h, pieces, ag)
    ensures FilesCut(h, pieces + PieceSet(h, ag.local.files, p), AfterScan(h, ag, p, wall))
  {
    hide Pieces, HashesOf, Applied, WithFile, InSync, Ticked;
    FilesCutGrows(h, pieces, ag, pieces + PieceSet(h, ag.local.files, p));
  }

  /** After its scan a path is in sync; no other path is touched. */
  lemma ScannedCharged(h: Hashing, ag: Agent, p: string, wall: nat)
    requires Charged(h, ag)
    ensures Charged(h, AfterScan(h, ag, p, wall))
    ensures InSync(h, AfterScan(h, ag, p, wall).local, p)
  {
    hide HashesOf, Applied, WithFile, SafePath, Ticked;
    var ag' := AfterScan(h, ag, p, wall);
    forall q
      ensures q != p ==> InSync(h, ag'.local, q) == InSync(h, ag.local, q)
    {
    }
  }

  /** The agent after a scan that finds the path in sync: at most chunks are re-filed. */
  lemma IdleScan(h: Hashing, history: set<Record>, pieces: set<Bytes>, ag: Agent, p: string, wall: nat,
          pieces': set<Bytes>)
    requires AgentInv(h, history, pieces, ag)
    requires InSync(h, ag.local, p)
    requires pieces' == pieces + PieceSet(h, ag.local.files, p)
    ensures AgentInv(h, history, pieces', AfterScan(h, ag, p, wall))
    ensures AfterScan(h, ag, p, wall).local.manifest == ag.local.manifest
  {
    hide WithFile, HashesOf, SafePath, Pieces, Applied, GoodChunks, Charged, InSync, FilesCut;
    ScannedChunks(h, ag, p, wall, pieces, pieces');
    ScannedCharged(h, ag, p, wall);
    ScannedCut(h, pieces, ag, p, wall);
  }

  // Materialization

  /** An entry applied to disk reads back as exactly the author's file: the next scan finds it in sync. */
  lemma MaterializedInSync(h: Hashing, history: set<Record>, pieces: set<Bytes>, ag: Agent, p: string, e: Entry)
    requires HonestHistory(h, history, pieces) && CollisionFree(h, pieces)
    requires GoodChunks(h, ag.local.chunks, pieces)
    requires Wrote(history, p, e) && Due(ag.id, ag.local, p, e)
    ensures InSync(h, AfterMaterialize(ag, p, e).local, p)
    ensures forall c :: Record(p, e, c) in history ==>
      (c.None? ==> p !in AfterMaterialize(ag, p, e).local.files) &&
      (c.Some? ==> p in AfterMaterialize(ag, p, e).local.files && AfterMaterialize(ag, p, e).local.files[p] == c.value)
    ensures p in AfterMaterialize(ag, p, e).local.files ==> PiecesIn(h, AfterMaterialize(ag, p, e).local.files[p], pieces)
    ensures SafePath(p)
  {
    hide HashesOf, SafePath, Pieces, PiecesIn, Assemble;
    forall c | Record(p, e, c) in history
      ensures c.Some? ==> HasAll(ag.local.chunks, e.chunkHashes) && Assemble(ag.local.chunks, e.chunkHashes) == c.value
    {
      assert Honest(h, pieces, Record(p, e, c));
      if c.Some? {
        AssembleRebuilds(h, ag.local.chunks, c.value, pieces);
      }
    }
    var c :| Record(p, e, c) in history;
    assert Honest(h, pieces, Record(p, e, c));
  }

  lemma MaterializedAgent(h: Hashing, history: set<Record>, pieces: set<Bytes>, ag: Agent, p: string)
    requires AgentInv(h, history, pieces, ag)
    requires HonestHistory(h, history, pieces) && CollisionFree(h, pieces)
    requires p in ag.pending
    ensures AgentInv(h, history, pieces, AfterMaterialize(ag, p, ag.pending[p]))
  {
    hide HashesOf, SafePath, Assemble, GoodChunks, HonestHistory, CollisionFree, HasAll, PiecesIn;
    var e := ag.pending[p];
    var ag' := AfterMaterialize(ag, p, e);
    if Due(ag.id, ag.local, p, e) {
      MaterializedInSync(h, history, pieces, ag, p, e);
      forall q
        ensures q != p ==> InSync(h, ag'.local, q) == InSync(h, ag.local, q)
      {
      }
      assert OwnEntriesKnown(ag');
    }
  }

  // Other agents and other steps

  /** An agent is not disturbed by what others author. */
  lemma BystanderKept(h: Hashing, history: set<Record>, pieces: set<Bytes>, ag: Agent,
                      history': set<Record>, pieces': set<Bytes>)
    requires AgentInv(h, history, pieces, ag)
    requires history <= history' && pieces <= pieces'
    requires forall r :: r in history' - history ==> r.entry.author != ag.id
    ensures AgentInv(h, history', pieces', ag)
  {
    hide Charged, OwnEntriesKnown, Sound, FilesCut;
    BackedGrows(history, history', ag);
    FilesCutGrows(h, pieces, ag, pieces');
  }

  lemma HonestyGrows(h: Hashing, history: set<Record>, pieces: set<Bytes>, pieces': set<Bytes>)
    requires HonestHistory(h, history, pieces) && pieces <= pieces'
    ensures HonestHistory(h, history, pieces')
  {
    hide HashesOf, SafePath, Pieces;
    forall r | r in history
      ensures Honest(h, pieces', r)
    {
      assert Honest(h, pieces, r);
    }
  }

  lemma EditedAgent(h: Hashing, history: set<Record>, pieces: set<Bytes>, ag: Agent, p: string, content: Option<Bytes>)
    requires AgentInv(h, history, pieces, ag) && SafePath(p)
    ensures AgentInv(h, history, pieces, Edited(ag, p, content))
  {
    hide HashesOf, SafePath, GoodChunks, PiecesIn;
    var ag' := Edited(ag, p, content);
    forall q
      ensures q != p ==> InSync(h, ag'.local, q) == InSync(h, ag.local, q)
    {
    }
  }

  lemma ReplyKeepsGood(h: Hashing, chunks: ChunkMap, reply: ChunkMap, chunks': ChunkMap, pieces: set<Bytes>)
    requires GoodChunks(h, chunks, pieces) && GoodChunks(h, reply, pieces)
    requires IsPartialReply(chunks, reply, chunks')
    ensures GoodChunks(h, chunks', pieces)
    ensures forall k :: k in chunks ==> k in chunks' && chunks'[k] == chunks[k]
  {
    hide IsHexHash;
  }

  lemma ReceivingAgent(h: Hashing, history: set<Record>, pieces: set<Bytes>, ag: Agent, reply: ChunkMap,
          chunks: ChunkMap)
    requires AgentInv(h, history, pieces, ag) && GoodChunks(h, reply, pieces)
    requires IsPartialReply(ag.local.chunks, reply, chunks)
    ensures AgentInv(h, history, pieces, ag.(local := ag.local.(chunks := chunks)))
  {
    hide GoodChunks, HashesOf, SafePath, PiecesIn;
    ReplyKeepsGood(h, ag.local.chunks, reply, chunks, pieces);
    var ag' := ag.(local := ag.local.(chunks := chunks));
    assert forall p :: InSync(h, ag'.local, p) == InSync(h, ag.local, p);
  }

  /** What a step does to the agent that takes it. */
  lemma ActorKept(h: Hashing, s: System, step: Step, t: System)
    requires Inv(h, s) && Next(h, s, step, t) && Fair(h, t)
    ensures AgentInv(h, t.history, t.pieces, t.agents[step.a])
    ensures Dominates(t.agents[step.a].local.manifest, s.agents[step.a].local.manifest)
    ensures t.agents[step.a].id == s.agents[step.a].id
  {
    hide AgentInv, HonestHistory, GoodChunks, Dominates, IsMerge, IsPartialReply, InSync, Scanned, MaterializedOne,
      Due, SafePath, PieceSet, SnapshotInv, TieFreeHistory, CollisionFree;
    FairBefore(h, s, step, t);
    var ag := s.agents[step.a];
    DominatesReflexive(ag.local.manifest);
    match step
    case Edit(a, p, content) =>
      EditedAgent(h, s.history, s.pieces, ag, p, content);
    case Scan(a, p, wall) =>
      if InSync(h, ag.local, p) {
        IdleScan(h, s.history, s.pieces, ag, p, wall, t.pieces);
      } else {
        assert t.agents[a].authored == ag.authored + 1;
        AuthoringScan(h, s.history, s.pieces, ag, p, wall, t.history, t.pieces);
      }
    case BeginPass(a) =>
      BegunPass(h, s.history, s.pieces, ag);
    case Materialize(a, p) =>
      MaterializedAgent(h, s.history, s.pieces, ag, p);
      MaterializedManifest(ag, p);
    case Send(a) =>
    case Deliver(a, n) =>
      var merged :|
        IsMerge(ag.local.manifest, n.entries, merged) &&
        t == WithAgent(s, a, ag.(local := ag.local.(manifest := merged)));
      SnapshotBacked(s, n);
      MergedAgent(h, s.history, s.pieces, ag, n.entries, merged);
    case SendChunks(a, hashes) =>
    case ReceiveChunks(a, reply) =>
      var chunks :|
        IsPartialReply(ag.local.chunks, reply, chunks) &&
        t == WithAgent(s, a, ag.(local := ag.local.(chunks := chunks)));
      ReceivingAgent(h, s.history, s.pieces, ag, reply, chunks);
  }

  lemma SnapshotBacked(s: System, n: Snapshot)
    requires SnapshotInv(s, n)
    ensures Backed(s.history, n.entries)
  {
  }

  lemma BegunPass(h: Hashing, history: set<Record>, pieces: set<Bytes>, ag: Agent)
    requires AgentInv(h, history, pieces, ag)
    ensures AgentInv(h, history, pieces, ag.(pending := ag.local.manifest))
  {
    hide GoodChunks, InSync, PiecesIn;
  }

  lemma MaterializedManifest(ag: Agent, p: string)
    requires p in ag.pending
    ensures AfterMaterialize(ag, p, ag.pending[p]).local.manifest == ag.local.manifest
  {
  }

  lemma RepliesKept(h: Hashing, s: System, step: Step, t: System)
    requires Inv(h, s) && Next(h, s, step, t)
    ensures forall c :: c in t.replies ==> GoodChunks(h, c, t.pieces)
  {
    hide Scanned, MaterializedOne, InSync, PieceSet, Due, IsMerge, IsPartialReply, SnapshotInv, SafePath, IsHexHash;
    assert s.pieces <= t.pieces;
    match step
    case SendChunks(a, hashes) =>
      assert AgentInv(h, s.history, s.pieces, s.agents[a]);
    case _ =>
  }

  lemma HistoryKept(h: Hashing, s: System, step: Step, t: System)
    requires Inv(h, s) && Next(h, s, step, t)
    ensures HonestHistory(h, t.history, t.pieces)
    ensures forall r :: r in t.history - s.history ==> r.entry.author == s.agents[step.a].id
  {
    hide Scanned, MaterializedOne, InSync, PieceSet, Due, IsMerge, IsPartialReply, SnapshotInv, SafePath, Honest,
      AgentInv;
    match step
    case Scan(a, p, wall) =>
      var ag := s.agents[a];
      assert AgentInv(h, s.history, s.pieces, ag);
      HonestyGrows(h, s.history, s.pieces, t.pieces);
      if !InSync(h, ag.local, p) {
        DirtyPathSafe(h, s.history, s.pieces, ag, p);
        RecordHonest(h, ag, p, wall, t.pieces);
      }
    case _ =>
  }

  lemma SnapshotsKept(h: Hashing, s: System, step: Step, t: System)
    requires Inv(h, s) && Next(h, s, step, t)
    requires |t.agents| == |s.agents| && s.history <= t.history
    requires Dominates(t.agents[step.a].local.manifest, s.agents[step.a].local.manifest)
    requires forall b :: 0 <= b < |s.agents| && b != step.a ==> t.agents[b] == s.agents[b]
    ensures forall n :: n in t.snapshots ==> SnapshotInv(t, n)
  {
    hide Dominates, Scanned, MaterializedOne, InSync, PieceSet, Due, IsMerge, IsPartialReply, SafePath;
    forall n | n in t.snapshots
      ensures SnapshotInv(t, n)
    {
      if n in s.snapshots {
        assert SnapshotInv(s, n);
        if n.sender == step.a {
          DominatesTransitive(t.agents[step.a].local.manifest, s.agents[step.a].local.manifest, n.entries);
        }
      } else {
        assert AgentInv(h, s.history, s.pieces, s.agents[step.a]);
        DominatesReflexive(n.entries);
      }
    }
  }

  lemma OthersUntouched(h: Hashing, s: System, step: Step, t: System)
    requires Next(h, s, step, t)
    ensures |t.agents| == |s.agents| && step.a < |s.agents|
    ensures forall b :: 0 <= b < |s.agents| && b != step.a ==> t.agents[b] == s.agents[b]
  {
    hide Scanned, MaterializedOne, InSync, PieceSet, Due, IsMerge, IsPartialReply, SafePath;
  }

  /** Every step keeps the invariant. */
  lemma StepKeepsInv(h: Hashing, s: System, step: Step, t: System)
    requires Inv(h, s) && Next(h, s, step, t) && Fair(h, t)
    ensures Inv(h, t)
  {
    hide AgentInv, HonestHistory, GoodChunks, Dominates, SnapshotInv, Next, Fair;
    FairBefore(h, s, step, t);
    OthersUntouched(h, s, step, t);
    ActorKept(h, s, step, t);
    RepliesKept(h, s, step, t);
    HistoryKept(h, s, step, t);
    SnapshotsKept(h, s, step, t);
    forall b | 0 <= b < |t.agents|
      ensures AgentInv(h, t.history, t.pieces, t.agents[b])
    {
      if b != step.a {
        assert s.agents[b].id != s.agents[step.a].id by {
          if b < step.a {
          }
        }
        BystanderKept(h, s.history, s.pieces, s.agents[b], t.history, t.pieces);
      }
    }
  }

  // Whole calls are runs of steps

  /** The agent after `Scan` steps for the paths of `order`, one after the other. */
  function AfterScans(h: Hashing, ag: Agent, order: seq<string>, now: string -> nat): Agent {
    if order == [] then ag else
      var k := |order| - 1;
      AfterScan(h, AfterScans(h, ag, order[..k], now), order[k], now(order[k]))
  }

  /** A call of `scan_local` leaves the agent where the `Scan` steps for its visiting order leave it. */
  lemma {:induction false} ScanIsSteps(h: Hashing, ag: Agent, order: seq<string>, now: string -> nat)
    ensures AfterScans(h, ag, order, now).local == ScanAll(h, ag.id, ag.local, order, now)
    ensures AfterScans(h, ag, order, now).id == ag.id
  {
    hide Scanned, InSync;
    if order != [] {
      ScanIsSteps(h, ag, order[..|order| - 1], now);
    }
  }

  /** The agent after `Materialize` steps for the paths of `order`. */
  function AfterMaterializes(ag: Agent, order: seq<string>): Agent
    requires forall p :: p in order ==> p in ag.pending
  {
    if order == [] then ag else
      var k := |order| - 1;
      AfterMaterialize(AfterMaterializes(ag, order[..k]), order[k], ag.pending[order[k]])
  }

  /** A call of `materialize_remote` leaves the agent where a `BeginPass` and one `Materialize` step for
      each path, in any order, leave it. */
  lemma {:induction false} PassIsSteps(ag: Agent, order: seq<string>)
    requires ag.pending == ag.local.manifest
    requires forall p :: p in order ==> p in ag.pending
    requires forall i, j :: 0 <= i < j < |order| ==> order[i] != order[j]
    ensures MaterializedFor(ag.id, ag.local, (set p | p in order), AfterMaterializes(ag, order).local)
    ensures AfterMaterializes(ag, order).id == ag.id && AfterMaterializes(ag, order).pending == ag.pending
  {
    hide MaterializedFor, MaterializedOne, Due;
    if order == [] {
      MaterializeNothing(ag.id, ag.local);
      assert (set p | p in order) == {};
    } else {
      var k := |order| - 1;
      PassIsSteps(ag, order[..k]);
      var done := (set p | p in order[..k]);
      MaterializeStep(ag.id, ag.local, done, AfterMaterializes(ag, order[..k]).local, order[k]);
      assert (set p | p in order) == done + {order[k]};
    }
  }
}
