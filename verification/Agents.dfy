/** The agent's two directions (store.rs): scanning the folder into the manifest, and materializing
    the manifest into the folder; and the chunk transfer of main.rs. */
module Agents {
  import opened Basics
  import opened Clocks
  import opened Chunker
  import opened ChunkerLaws
  import opened Manifests
  import opened MergeLaws
  import opened Stores

  /** Everything one agent process holds. */
  datatype AgentState = AgentState(files: map<string, Bytes>, chunks: ChunkMap, manifest: Entries, known: Entries, clock: Hlc)

  class KnownLocal {
    var entries: Entries
  }

  ghost function StateOf(store: Store, manifest: Manifest, clock: Clock, known: KnownLocal): AgentState
    reads store, manifest, clock, known
  {
    AgentState(store.files, store.chunks, manifest.entries, known.entries, clock.now)
  }

  // Scanning

  /** The folder shows at `p` what this agent last confirmed there. */
  predicate InSync(h: Hashing, st: AgentState, p: string) {
    if p in st.files then
      && p in st.known
      && !st.known[p].tombstone
      && st.known[p].chunkHashes == HashesOf(h, st.files[p])
      && st.known[p].size == |st.files[p]|
    else
      p in st.known ==> st.known[p].tombstone
  }

  function FileEntry(h: Hashing, self: string, data: Bytes, hlc: Hlc): Entry {
    Entry(HashesOf(h, data), |data|, hlc, self, false)
  }

  function Tombstone(self: string, hlc: Hlc): Entry {
    Entry([], 0, hlc, self, true)
  }

  /** The entry a scan authors at `p`, whose folder content has changed. */
  function Authored(h: Hashing, self: string, st: AgentState, p: string, wall: nat): Entry {
    var hlc := Ticked(st.clock, wall);
    if p in st.files then FileEntry(h, self, st.files[p], hlc) else Tombstone(self, hlc)
  }

  /** The state after the scan has dealt with one path. */
  function Scanned(h: Hashing, self: string, st: AgentState, p: string, wall: nat): AgentState {
    var chunks := if p in st.files then WithFile(h, st.chunks, st.files[p]) else st.chunks;
    if InSync(h, st, p) then st.(chunks := chunks)
    else
      var e := Authored(h, self, st, p, wall);
      AgentState(st.files, chunks, Applied(st.manifest, p, e), st.known[p := e], e.hlc)
  }

  /** A whole scan: the paths of `order` one after the other, `now(p)` being the wall reading taken if
      an entry is authored at `p`. */
  function ScanAll(h: Hashing, self: string, st: AgentState, order: seq<string>, now: string -> nat): AgentState {
    if order == [] then st else
      var k := |order| - 1;
      Scanned(h, self, ScanAll(h, self, st, order[..k], now), order[k], now(order[k]))
  }

  /** The paths a scan visits: every file, and then every known path that has no file. */
  ghost predicate ScanOrder(st: AgentState, order: seq<string>) {
    exists files, gone ::
      Enumerates(files, st.files.Keys) && Enumerates(gone, st.known.Keys - st.files.Keys) && order == files + gone
  }

  ghost predicate IsScan(h: Hashing, self: string, st: AgentState, r: AgentState, now: string -> nat) {
    exists order :: ScanOrder(st, order) && r == ScanAll(h, self, st, order, now)
  }

  lemma ScanAppend(h: Hashing, self: string, st: AgentState, order: seq<string>, now: string -> nat, p: string)
    ensures ScanAll(h, self, st, order + [p], now) == Scanned(h, self, ScanAll(h, self, st, order, now), p, now(p))
  {
    assert (order + [p])[..|order|] == order;
  }

  lemma {:induction false} ScanFrame(h: Hashing, self: string, st: AgentState, order: seq<string>, now: string -> nat)
    ensures
      var r := ScanAll(h, self, st, order, now);
      && r.files == st.files
      && (forall p :: p in st.known ==> p in r.known)
      && (forall p :: p in r.known ==> p in st.known || p in order)
      && (forall p :: p in st.known && p !in order ==> r.known[p] == st.known[p])
  {
    hide WithFile, Applied, HashesOf;
    if order != [] {
      ScanFrame(h, self, st, order[..|order| - 1], now);
    }
  }

  /** Visiting other paths does not change whether `p` is in sync. */
  lemma ScanLeavesSync(h: Hashing, self: string, st: AgentState, order: seq<string>, now: string -> nat, p: string)
    requires p !in order
    ensures InSync(h, ScanAll(h, self, st, order, now), p) == InSync(h, st, p)
  {
    hide ScanAll, HashesOf;
    ScanFrame(h, self, st, order, now);
  }

  /** What a scan does to one path it visits: left as known if it was in sync, and otherwise described
      afresh, by an entry of this agent's own that the manifest then holds or has outgrown. */
  lemma {:induction false} ScanVisits(h: Hashing, self: string, st: AgentState, order: seq<string>, now: string -> nat,
          p: string)
    requires forall i, j :: 0 <= i < j < |order| ==> order[i] != order[j]
    requires p in order
    ensures
      var r := ScanAll(h, self, st, order, now);
      && (InSync(h, st, p) ==> (p in r.known <==> p in st.known) && (p in st.known ==> r.known[p] == st.known[p]))
      && (!InSync(h, st, p) ==> p in r.known && Describes(h, self, st, p, r.known[p]) && r.known[p].hlc.physical >= now(p))
      && (!InSync(h, st, p) && SafePath(p) ==> p in r.manifest && KeyLeq(r.known[p], r.manifest[p]))
      && (p in st.files ==> HasAll(r.chunks, HashesOf(h, st.files[p])))
  {
    hide ScanAll, Scanned, InSync, HashesOf, HasAll, Describes, SafePath, KeyLeq;
    var k := |order| - 1;
    var before := ScanAll(h, self, st, order[..k], now);
    ScanUnfold(h, self, st, order, now);
    ScanFrame(h, self, st, order[..k], now);
    if order[k] == p {
      ScanLeavesSync(h, self, st, order[..k], now, p);
      VisitOf(h, self, before, p, now(p));
      DescribesSameFolder(h, self, before, st, p);
    } else {
      ScanVisits(h, self, st, order[..k], now, p);
      VisitElsewhere(h, self, before, order[k], now(order[k]), p);
    }
  }

  /** The agent's own entry for what its folder holds at `p`: the file's chunk list and size, or a delete. */
  ghost predicate Describes(h: Hashing, self: string, st: AgentState, p: string, e: Entry) {
    && e.author == self
    && (p in st.files ==> !e.tombstone && e.chunkHashes == HashesOf(h, st.files[p]) && e.size == |st.files[p]|)
    && (p !in st.files ==> e.tombstone && e.chunkHashes == [] && e.size == 0)
  }

  lemma DescribesSameFolder(h: Hashing, self: string, st: AgentState, st': AgentState, p: string)
    requires st.files == st'.files
    ensures forall e :: Describes(h, self, st, p, e) <==> Describes(h, self, st', p, e)
  {
    hide HashesOf;
  }

  lemma ScanUnfold(h: Hashing, self: string, st: AgentState, order: seq<string>, now: string -> nat)
    requires order != []
    ensures
      var k := |order| - 1;
      ScanAll(h, self, st, order, now) == Scanned(h, self, ScanAll(h, self, st, order[..k], now), order[k], now(order[k]))
  {
  }

  lemma VisitOf(h: Hashing, self: string, st: AgentState, p: string, wall: nat)
    ensures
      var r := Scanned(h, self, st, p, wall);
      && (InSync(h, st, p) ==> r.known == st.known)
      && (!InSync(h, st, p) ==> p in r.known && Describes(h, self, st, p, r.known[p]) && r.known[p].hlc.physical >= wall)
      && (!InSync(h, st, p) && SafePath(p) ==> p in r.manifest && KeyLeq(r.known[p], r.manifest[p]))
      && (p in st.files ==> HasAll(r.chunks, HashesOf(h, st.files[p])))
  {
    hide HashesOf, Applied, WithFile, SafePath, KeyLeq, InSync, HasAll;
    AppliedClimbs(st.manifest, p, Authored(h, self, st, p, wall));
    if p in st.files {
      WithFileKeeps(h, st.chunks, st.files[p]);
    }
  }

  lemma VisitElsewhere(h: Hashing, self: string, st: AgentState, q: string, wall: nat, p: string)
    requires p != q
    ensures
      var r := Scanned(h, self, st, q, wall);
      && (p in r.known <==> p in st.known) && (p in st.known ==> r.known[p] == st.known[p])
      && (forall e :: p in st.manifest && KeyLeq(e, st.manifest[p]) ==> p in r.manifest && KeyLeq(e, r.manifest[p]))
      && (forall hashes :: HasAll(st.chunks, hashes) ==> HasAll(r.chunks, hashes))
  {
    hide HashesOf, Applied, WithFile, SafePath, KeyLeq, InSync;
    var r := Scanned(h, self, st, q, wall);
    DominatesReflexive(st.manifest);
    AppliedClimbs(st.manifest, q, Authored(h, self, st, q, wall));
    if p in st.manifest {
      forall e | KeyLeq(e, st.manifest[p])
        ensures KeyLeq(e, r.manifest[p])
      {
        KeyTransitive(e, st.manifest[p], r.manifest[p]);
      }
    }
    if q in st.files {
      WithFileKeeps(h, st.chunks, st.files[q]);
    }
  }

  /** A scan visits every file and every known path, once each. */
  lemma ScanOrderCovers(st: AgentState, order: seq<string>)
    requires ScanOrder(st, order)
    ensures forall p :: p in order <==> p in st.files || p in st.known
    ensures forall i, j :: 0 <= i < j < |order| ==> order[i] != order[j]
  {
    var files, gone :|
      Enumerates(files, st.files.Keys) && Enumerates(gone, st.known.Keys - st.files.Keys) && order == files + gone;
    forall i, j | 0 <= i < j < |order|
      ensures order[i] != order[j]
    {
      if i < |files| <= j {
        assert order[i] in files && order[j] in gone;
      }
    }
  }

  /** After a whole scan the known entries say exactly what the folder holds: a live entry with its chunk
      list and size for every file, all its chunks filed, and a tombstone for every other known path. */
  lemma ScanReflectsFolder(h: Hashing, self: string, st: AgentState, r: AgentState, now: string -> nat, p: string)
    requires IsScan(h, self, st, r, now)
    ensures r.files == st.files
    ensures p in r.files ==>
      && p in r.known && !r.known[p].tombstone && r.known[p].chunkHashes == HashesOf(h, r.files[p])
      && r.known[p].size == |r.files[p]|
      && HasAll(r.chunks, r.known[p].chunkHashes)
    ensures p !in r.files && p in r.known ==> r.known[p].tombstone
    ensures InSync(h, r, p)
  {
    hide ScanAll, HashesOf, HasAll;
    var order :| ScanOrder(st, order) && r == ScanAll(h, self, st, order, now);
    ScanOrderCovers(st, order);
    ScanFrame(h, self, st, order, now);
    if p in order {
      ScanVisits(h, self, st, order, now, p);
    }
  }

  /** What a whole scan authors: for every path out of sync, and no other, an own entry that describes the
      folder there, stamped not before the wall reading, and held by the manifest or outgrown. */
  lemma ScanAuthors(h: Hashing, self: string, st: AgentState, r: AgentState, now: string -> nat, p: string)
    requires IsScan(h, self, st, r, now)
    ensures !InSync(h, st, p) ==>
      p in r.known && Describes(h, self, st, p, r.known[p]) && r.known[p].hlc.physical >= now(p)
    ensures !InSync(h, st, p) && SafePath(p) ==> p in r.manifest && KeyLeq(r.known[p], r.manifest[p])
    ensures InSync(h, st, p) ==> (p in r.known <==> p in st.known) && (p in st.known ==> r.known[p] == st.known[p])
  {
    hide ScanAll, HashesOf, HasAll, SafePath, KeyLeq, Describes;
    var order :| ScanOrder(st, order) && r == ScanAll(h, self, st, order, now);
    ScanOrderCovers(st, order);
    ScanFrame(h, self, st, order, now);
    if p in order {
      ScanVisits(h, self, st, order, now, p);
    }
  }

  /** The chunk-writing loop at the head of the scan of one file. */
  method StoreChunks(h: Hashing, store: Store, bytes: Bytes) returns (hashes: seq<string>)
    modifies store`chunks
    ensures store.chunks == WithFile(h, old(store.chunks), bytes)
    ensures hashes == HashesOf(h, bytes)
  {
    hide Pieces, Chunks, FirstCut, WithChunk, HashesOf;
    var chunks := ChunkData(h, bytes);
    PiecesRebuild(h, bytes);
    for i := 0 to |chunks|
      invariant store.chunks == WithChunksOf(h, old(store.chunks), bytes, i)
    {
      var c := chunks[i];
      SliceIsPiece(h, bytes, i);
      var _ := store.WriteChunk(c.hash, bytes[c.offset..c.offset + c.len]);
    }
    hashes := HashesOf(h, bytes);
  }

  /** `scan_local`. The directory walk and the known map come in any order. */
  method ScanLocal(h: Hashing, store: Store, manifest: Manifest, clock: Clock, known: KnownLocal,
                   self: string, now: string -> nat) returns (changed: seq<string>)
    modifies store`chunks, manifest, clock, known
    ensures IsScan(h, self, old(StateOf(store, manifest, clock, known)), StateOf(store, manifest, clock, known), now)
    ensures forall p :: p in changed <==> !InSync(h, old(StateOf(store, manifest, clock, known)), p)
    ensures forall p :: InSync(h, StateOf(store, manifest, clock, known), p)
  {
    hide ScanAll, HashesOf;
    ghost var st := StateOf(store, manifest, clock, known);
    var edited, files := ScanFiles(h, store, manifest, clock, known, self, now);
    ScanFrame(h, self, st, files, now);
    var removed, gone := ScanRemovals(h, store, manifest, clock, known, self, now, st, files);
    changed := edited + removed;
    assert ScanOrder(st, files + gone);
    ghost var r := StateOf(store, manifest, clock, known);
    forall p
      ensures InSync(h, r, p)
    {
      ScanReflectsFolder(h, self, st, r, now, p);
    }
  }

  /** The first loop of `scan_local`: every file in the folder. */
  method ScanFiles(h: Hashing, store: Store, manifest: Manifest, clock: Clock, known: KnownLocal,
                   self: string, now: string -> nat) returns (changed: seq<string>, ghost order: seq<string>)
    modifies store`chunks, manifest, clock, known
    ensures Enumerates(order, store.files.Keys)
    ensures StateOf(store, manifest, clock, known) == ScanAll(h, self, old(StateOf(store, manifest, clock, known)), order, now)
    ensures forall p :: p in changed <==> p in order && !InSync(h, old(StateOf(store, manifest, clock, known)), p)
  {
    hide Scanned, ScanAll, InSync;
    ghost var st := StateOf(store, manifest, clock, known);
    changed, order := [], [];
    var remaining := store.files.Keys;
    ScanNothing(h, self, st, now);
    while remaining != {}
      invariant store.files == st.files && remaining <= store.files.Keys
      invariant Enumerates(order, store.files.Keys - remaining)
      invariant StateOf(store, manifest, clock, known) == ScanAll(h, self, st, order, now)
      invariant forall p :: p in changed <==> p in order && !InSync(h, st, p)
      decreases |remaining|
    {
      var rel :| rel in remaining;
      remaining := remaining - {rel};
      ScanAppend(h, self, st, order, now, rel);
      ScanLeavesSync(h, self, st, order, now, rel);
      var dirty := ScanFile(h, store, manifest, clock, known, self, rel, now(rel));
      if dirty {
        changed := changed + [rel];
      }
      order := order + [rel];
    }
  }

  /** The second loop of `scan_local`: every known path whose file has gone. */
  method ScanRemovals(h: Hashing, store: Store, manifest: Manifest, clock: Clock, known: KnownLocal, self: string,
                      now: string -> nat, ghost st: AgentState, ghost files: seq<string>)
    returns (changed: seq<string>, ghost order: seq<string>)
    requires StateOf(store, manifest, clock, known) == ScanAll(h, self, st, files, now)
    requires forall p :: p in files ==> p in store.files
    modifies manifest, clock, known
    ensures Enumerates(order, old(known.entries.Keys) - store.files.Keys)
    ensures StateOf(store, manifest, clock, known) == ScanAll(h, self, st, files + order, now)
    ensures forall p :: p in changed <==> p in order && !InSync(h, st, p)
  {
    hide Scanned, ScanAll, InSync, Enumerates, StateOf;
    ghost var start := known.entries.Keys;
    ghost var done: set<string> := {};
    changed, order := [], [];
    EnumeratesNothing<string>();
    assert files + order == files;
    var previouslyKnown := known.entries.Keys;
    while previouslyKnown != {}
      invariant previouslyKnown <= start
      invariant store.files == old(store.files) && store.chunks == old(store.chunks)
      invariant done == (start - previouslyKnown) - store.files.Keys
      invariant Enumerates(order, done)
      invariant StateOf(store, manifest, clock, known) == ScanAll(h, self, st, files + order, now)
      invariant forall p :: p in changed <==> p in order && !InSync(h, st, p)
      decreases |previouslyKnown|
    {
      var path :| path in previouslyKnown;
      VisitedGrows(start, previouslyKnown, path, store.files.Keys);
      previouslyKnown := previouslyKnown - {path};
      if path !in store.files {
        ScanAppend(h, self, st, files + order, now, path);
        EnumeratesMembers(order, done);
        ScanLeavesSync(h, self, st, files + order, now, path);
        var dirty := ScanGone(h, store, manifest, clock, known, self, path, now(path));
        if dirty {
          changed := changed + [path];
        }
        AppendAssociates(files, order, path);
        EnumeratesMore(order, done, path, done + {path});
        order, done := order + [path], done + {path};
      }
    }
    assert done == start - store.files.Keys;
  }

  lemma VisitedGrows(start: set<string>, rest: set<string>, path: string, skipped: set<string>)
    requires path in rest && rest <= start
    ensures path in skipped ==> (start - (rest - {path})) - skipped == (start - rest) - skipped
    ensures path !in skipped ==> (start - (rest - {path})) - skipped == ((start - rest) - skipped) + {path}
    ensures path !in (start - rest) - skipped
  {
  }

  lemma AppendAssociates(a: seq<string>, b: seq<string>, x: string)
    ensures a + (b + [x]) == (a + b) + [x]
  {
  }

  lemma ScanNothing(h: Hashing, self: string, st: AgentState, now: string -> nat)
    ensures ScanAll(h, self, st, [], now) == st
  {
  }

  /** The body of the first loop of `scan_local`. */
  method ScanFile(h: Hashing, store: Store, manifest: Manifest, clock: Clock, known: KnownLocal,
                  self: string, rel: string, wall: nat) returns (changed: bool)
    requires rel in store.files
    modifies store`chunks, manifest, clock, known
    ensures StateOf(store, manifest, clock, known) == Scanned(h, self, old(StateOf(store, manifest, clock, known)), rel, wall)
    ensures changed == !InSync(h, old(StateOf(store, manifest, clock, known)), rel)
  {
    hide WithFile, HashesOf, Applied, Ticked;
    var bytes := store.files[rel];
    var chunkHashes := StoreChunks(h, store, bytes);
    var size := |bytes|;
    var matchesKnown := rel in known.entries && !known.entries[rel].tombstone
      && known.entries[rel].chunkHashes == chunkHashes && known.entries[rel].size == size;
    if matchesKnown {
      return false;
    }
    var hlc := clock.Tick(wall);
    var entry := Entry(chunkHashes, size, hlc, self, false);
    manifest.Put(rel, entry);
    known.entries := known.entries[rel := entry];
    return true;
  }

  /** The body of the second loop of `scan_local`, for a path with no file. */
  method ScanGone(h: Hashing, store: Store, manifest: Manifest, clock: Clock, known: KnownLocal,
                  self: string, path: string, wall: nat) returns (changed: bool)
    requires path !in store.files
    modifies manifest, clock, known
    ensures StateOf(store, manifest, clock, known) == Scanned(h, self, old(StateOf(store, manifest, clock, known)), path, wall)
    ensures changed == !InSync(h, old(StateOf(store, manifest, clock, known)), path)
  {
    hide WithFile, HashesOf, Applied, Ticked;
    var stillLive := path in known.entries && !known.entries[path].tombstone;
    if !stillLive {
      return false;
    }
    var hlc := clock.Tick(wall);
    var entry := Entry([], 0, hlc, self, true);
    manifest.Put(path, entry);
    known.entries := known.entries[path := entry];
    return true;
  }

  // Materializing

  /** The pass applies `e` at `p`: another agent wrote it, it is not yet confirmed on disk, and it is
      a delete or its chunks are all here. */
  predicate Due(self: string, st: AgentState, p: string, e: Entry) {
    && e.author != self
    && !(p in st.known && st.known[p] == e)
    && (e.tombstone || HasAll(st.chunks, e.chunkHashes))
  }

  /** The state after `materialize_remote` has dealt with one entry. */
  function MaterializedOne(self: string, st: AgentState, p: string, e: Entry): AgentState {
    if !Due(self, st, p, e) then st
    else if e.tombstone then st.(files := st.files - {p}, known := st.known[p := e])
    else st.(files := st.files[p := Assemble(st.chunks, e.chunkHashes)], known := st.known[p := e])
  }

  /** The state after the pass has dealt with the paths in `done`, path by path and with no order:
      every path is decided by the state the pass started from. */
  ghost predicate MaterializedFor(self: string, st: AgentState, done: set<string>, r: AgentState) {
    && r.chunks == st.chunks && r.manifest == st.manifest && r.clock == st.clock
    && (forall p :: p in r.files <==>
         if p in done && p in st.manifest && Due(self, st, p, st.manifest[p])
         then !st.manifest[p].tombstone else p in st.files)
    && (forall p :: p in r.files ==>
         r.files[p] == if p in done && p in st.manifest && Due(self, st, p, st.manifest[p])
                       then Assemble(st.chunks, st.manifest[p].chunkHashes) else st.files[p])
    && (forall p :: p in r.known <==> p in st.known || (p in done && p in st.manifest && Due(self, st, p, st.manifest[p])))
    && (forall p :: p in r.known ==>
         r.known[p] == if p in done && p in st.manifest && Due(self, st, p, st.manifest[p])
                       then st.manifest[p] else st.known[p])
  }

  lemma MaterializeStep(self: string, st: AgentState, done: set<string>, r: AgentState, p: string)
    requires MaterializedFor(self, st, done, r) && p in st.manifest && p !in done
    ensures MaterializedFor(self, st, done + {p}, MaterializedOne(self, r, p, st.manifest[p]))
    ensures Due(self, r, p, st.manifest[p]) == Due(self, st, p, st.manifest[p])
  {
    hide Assemble, HasAll;
  }

  lemma MaterializedUnique(self: string, st: AgentState, r: AgentState, s: AgentState)
    requires MaterializedFor(self, st, st.manifest.Keys, r) && MaterializedFor(self, st, st.manifest.Keys, s)
    ensures r == s
  {
    hide Assemble;
    assert r.files.Keys == s.files.Keys;
    assert r.known.Keys == s.known.Keys;
  }

  /** `materialize_remote`. The snapshot of the manifest comes in any order. */
  method MaterializeRemote(store: Store, manifest: Manifest, ghost clock: Clock, self: string, known: KnownLocal)
    returns (applied: set<string>)
    modifies store`files, known
    ensures
      var st := old(StateOf(store, manifest, clock, known));
      && MaterializedFor(self, st, st.manifest.Keys, StateOf(store, manifest, clock, known))
      && applied == set p | p in st.manifest && Due(self, st, p, st.manifest[p])
  {
    hide Assemble, HasAll, MaterializedFor, MaterializedOne, Due;
    ghost var st := StateOf(store, manifest, clock, known);
    applied := {};
    var snapshot := manifest.entries;
    var remaining := snapshot.Keys;
    MaterializeNothing(self, st);
    assert snapshot.Keys - remaining == {};
    while remaining != {}
      invariant remaining <= snapshot.Keys
      invariant MaterializedFor(self, st, snapshot.Keys - remaining, StateOf(store, manifest, clock, known))
      invariant applied == set p | p in snapshot.Keys - remaining && Due(self, st, p, st.manifest[p])
      decreases |remaining|
    {
      var path :| path in remaining;
      MaterializeStep(self, st, snapshot.Keys - remaining, StateOf(store, manifest, clock, known), path);
      assert snapshot.Keys - remaining + {path} == snapshot.Keys - (remaining - {path});
      remaining := remaining - {path};
      var due := MaterializeEntry(store, manifest, clock, self, known, path, snapshot[path]);
      if due {
        applied := applied + {path};
      }
    }
    assert snapshot.Keys - remaining == snapshot.Keys;
  }

  lemma MaterializeNothing(self: string, st: AgentState)
    ensures MaterializedFor(self, st, {}, st)
  {
  }

  /** The loop body of `materialize_remote`. */
  method MaterializeEntry(store: Store, ghost manifest: Manifest, ghost clock: Clock, self: string, known: KnownLocal,
                          path: string, entry: Entry) returns (due: bool)
    modifies store`files, known
    ensures StateOf(store, manifest, clock, known)
         == MaterializedOne(self, old(StateOf(store, manifest, clock, known)), path, entry)
    ensures due == Due(self, old(StateOf(store, manifest, clock, known)), path, entry)
  {
    if entry.author == self {
      return false;
    }
    if path in known.entries && known.entries[path] == entry {
      return false;
    }
    if entry.tombstone {
      store.files := store.files - {path};
      known.entries := known.entries[path := entry];
      return true;
    }
    var all := store.HaveAllChunks(entry);
    if !all {
      return false;
    }
    var bytes := ReadFile(store, entry.chunkHashes);
    store.files := store.files[path := bytes];
    known.entries := known.entries[path := entry];
    return true;
  }

  /** The chunk-reading loop of `materialize_remote`. */
  method ReadFile(store: Store, hashes: seq<string>) returns (bytes: Bytes)
    requires HasAll(store.chunks, hashes)
    ensures bytes == Assemble(store.chunks, hashes)
  {
    bytes := [];
    for i := 0 to |hashes|
      invariant bytes == Assemble(store.chunks, hashes[..i])
    {
      var piece := store.ReadChunk(hashes[i]);
      bytes := bytes + piece.value;
      assert hashes[..i + 1][..i] == hashes[..i];
    }
    assert hashes[..|hashes|] == hashes;
  }

  // Chunk transfer

  /** The hashes an entry needs and the store lacks. */
  function MissingOf(e: Entry, chunks: ChunkMap): set<string> {
    set i | 0 <= i < |e.chunkHashes| && !Has(chunks, e.chunkHashes[i]) :: e.chunkHashes[i]
  }

  function MissingAt(m: Entries, paths: set<string>, chunks: ChunkMap): set<string>
    requires paths <= m.Keys
  {
    set p, k | p in paths && k in MissingOf(m[p], chunks) :: k
  }

  /** The hashes some entry of `m` needs and the store lacks. */
  function Missing(m: Entries, chunks: ChunkMap): set<string> {
    MissingAt(m, m.Keys, chunks)
  }

  lemma MissingStep(m: Entries, paths: set<string>, chunks: ChunkMap, p: string)
    requires paths <= m.Keys && p in m
    ensures MissingAt(m, paths + {p}, chunks) == MissingAt(m, paths, chunks) + MissingOf(m[p], chunks)
  {
    hide MissingOf;
  }

  /** `missing_chunk_hashes`. */
  method MissingChunkHashes(manifest: Manifest, store: Store) returns (missing: set<string>)
    ensures missing == Missing(manifest.entries, store.chunks)
  {
    hide MissingOf;
    missing := {};
    var remaining := manifest.entries.Keys;
    while remaining != {}
      invariant remaining <= manifest.entries.Keys
      invariant missing == MissingAt(manifest.entries, manifest.entries.Keys - remaining, store.chunks)
      decreases |remaining|
    {
      var p :| p in remaining;
      MissingStep(manifest.entries, manifest.entries.Keys - remaining, store.chunks, p);
      assert manifest.entries.Keys - remaining + {p} == manifest.entries.Keys - (remaining - {p});
      remaining := remaining - {p};
      var more := MissingOfEntry(manifest.entries[p], store);
      missing := missing + more;
    }
    assert manifest.entries.Keys - remaining == manifest.entries.Keys;
  }

  /** The inner loop of `missing_chunk_hashes`. */
  method MissingOfEntry(entry: Entry, store: Store) returns (missing: set<string>)
    ensures missing == MissingOf(entry, store.chunks)
  {
    missing := {};
    for i := 0 to |entry.chunkHashes|
      invariant missing == set j | 0 <= j < i && !Has(store.chunks, entry.chunkHashes[j]) :: entry.chunkHashes[j]
    {
      var held := store.HasChunk(entry.chunkHashes[i]);
      if !held {
        missing := missing + {entry.chunkHashes[i]};
      }
    }
  }

  /** The chunk-reply loop of `handle_incoming_tcp` and `gossip_handler`: what is held, under its hash. */
  method ChunkReply(store: Store, hashes: set<string>) returns (reply: ChunkMap)
    ensures reply == map k | k in hashes && Has(store.chunks, k) :: store.chunks[k]
  {
    reply := map[];
    var remaining := hashes;
    while remaining != {}
      invariant remaining <= hashes
      invariant reply == map k | k in hashes - remaining && Has(store.chunks, k) :: store.chunks[k]
      decreases |remaining|
    {
      var k :| k in remaining;
      remaining := remaining - {k};
      var bytes := store.ReadChunk(k);
      if bytes.Some? {
        reply := reply[k := bytes.value];
      }
    }
  }

  /** The store after the well-formed part of a reply has been written. */
  function WithReply(chunks: ChunkMap, reply: ChunkMap): ChunkMap {
    map k | k in chunks.Keys + reply.Keys && (k in chunks || IsHexHash(k)) :: if k in chunks then chunks[k] else reply[k]
  }

  ghost predicate IsPartialReply(chunks: ChunkMap, reply: ChunkMap, r: ChunkMap) {
    exists written :: written <= reply.Keys && r == WithPart(chunks, reply, written)
  }

  function WithPart(chunks: ChunkMap, reply: ChunkMap, written: set<string>): ChunkMap
    requires written <= reply.Keys
  {
    WithReply(chunks, map k | k in written :: reply[k])
  }

  lemma WithPartStep(chunks: ChunkMap, reply: ChunkMap, written: set<string>, k: string)
    requires written <= reply.Keys && k in reply && IsHexHash(k)
    ensures WithPart(chunks, reply, written + {k}) == WithChunk(WithPart(chunks, reply, written), k, reply[k])
  {
    hide IsHexHash;
  }

  lemma WithPartEnds(chunks: ChunkMap, reply: ChunkMap)
    ensures WithPart(chunks, reply, {}) == chunks
    ensures WithPart(chunks, reply, reply.Keys) == WithReply(chunks, reply)
  {
    hide IsHexHash;
    assert (map x | x in reply.Keys :: reply[x]) == reply;
  }

  /** `apply_chunks`, which stops at the first malformed hash, in whatever order the map yields them:
      everything is written if every hash is well-formed, and otherwise some part of it. */
  method ApplyChunks(store: Store, reply: ChunkMap) returns (ok: bool)
    modifies store`chunks
    ensures ok == forall k :: k in reply ==> IsHexHash(k)
    ensures IsPartialReply(old(store.chunks), reply, store.chunks)
    ensures ok ==> store.chunks == WithReply(old(store.chunks), reply)
  {
    hide WithPart, WithReply, WithChunk, IsHexHash;
    ghost var before := store.chunks;
    var remaining := reply.Keys;
    WithPartEnds(before, reply);
    assert reply.Keys - remaining == {};
    while remaining != {}
      invariant remaining <= reply.Keys
      invariant forall k :: k in reply.Keys - remaining ==> IsHexHash(k)
      invariant store.chunks == WithPart(before, reply, reply.Keys - remaining)
      decreases |remaining|
    {
      var k :| k in remaining;
      var written := store.WriteChunk(k, reply[k]);
      if !written {
        WithMalformed(WithPart(before, reply, reply.Keys - remaining), k, reply[k]);
        return false;
      }
      WithPartStep(before, reply, reply.Keys - remaining, k);
      assert reply.Keys - remaining + {k} == reply.Keys - (remaining - {k});
      remaining := remaining - {k};
    }
    assert reply.Keys - remaining == reply.Keys;
    return true;
  }

  lemma WithMalformed(chunks: ChunkMap, hash: string, bytes: Bytes)
    requires !IsHexHash(hash)
    ensures WithChunk(chunks, hash, bytes) == chunks
  {
  }
}
