/** One agent's local state (store.rs): its shared folder, its content-addressed chunk store, and
    the saved manifest. The file system is a flat map from vault-relative path to bytes. */
module Stores {
  import opened Basics
  import opened Chunker
  import opened ChunkerLaws
  import opened Manifests

  type ChunkMap = map<string, Bytes>

  /** The chunk store after `write_chunk`: malformed names are refused, names held are kept. */
  function WithChunk(chunks: ChunkMap, hash: string, bytes: Bytes): ChunkMap {
    if IsHexHash(hash) && hash !in chunks then chunks[hash := bytes] else chunks
  }

  predicate Has(chunks: ChunkMap, hash: string) {
    IsHexHash(hash) && hash in chunks
  }

  predicate HasAll(chunks: ChunkMap, hashes: seq<string>) {
    forall i :: 0 <= i < |hashes| ==> Has(chunks, hashes[i])
  }

  /** The file an entry stands for, glued together from the store. */
  function Assemble(chunks: ChunkMap, hashes: seq<string>): Bytes
    requires HasAll(chunks, hashes)
  {
    if hashes == [] then [] else
      Assemble(chunks, hashes[..|hashes| - 1]) + chunks[hashes[|hashes| - 1]]
  }

  /** Every byte string is filed under its own digest. */
  ghost predicate Sound(h: Hashing, chunks: ChunkMap) {
    forall k :: k in chunks ==> IsHexHash(k) && h.blake3(chunks[k]) == k
  }

  class Store {
    var files: map<string, Bytes>
    var chunks: ChunkMap
    var saved: Option<Entries>

    /** `Store::has_chunk`. */
    method HasChunk(hash: string) returns (held: bool)
      ensures held == Has(chunks, hash)
    {
      held := IsHexHash(hash) && hash in chunks;
    }

    /** `Store::write_chunk`. */
    method WriteChunk(hash: string, bytes: Bytes) returns (ok: bool)
      modifies this`chunks
      ensures ok == IsHexHash(hash)
      ensures chunks == WithChunk(old(chunks), hash, bytes)
    {
      if !IsHexHash(hash) {
        return false;
      }
      if hash !in chunks {
        chunks := chunks[hash := bytes];
      }
      return true;
    }

    /** `Store::read_chunk`. */
    method ReadChunk(hash: string) returns (bytes: Option<Bytes>)
      ensures bytes == if Has(chunks, hash) then Some(chunks[hash]) else None
    {
      bytes := if IsHexHash(hash) && hash in chunks then Some(chunks[hash]) else None;
    }

    /** `Store::have_all_chunks`. */
    method HaveAllChunks(entry: Entry) returns (all: bool)
      ensures all == HasAll(chunks, entry.chunkHashes)
    {
      for i := 0 to |entry.chunkHashes|
        invariant HasAll(chunks, entry.chunkHashes[..i])
      {
        var held := HasChunk(entry.chunkHashes[i]);
        if !held {
          return false;
        }
      }
      assert entry.chunkHashes[..|entry.chunkHashes|] == entry.chunkHashes;
      return true;
    }

    /** `Store::load_manifest`: empty if nothing has been saved yet. */
    method LoadManifest() returns (m: Entries)
      ensures m == if saved.Some? then saved.value else map[]
    {
      m := if saved.Some? then saved.value else map[];
    }

    /** `Store::save_manifest`. */
    method SaveManifest(m: Entries)
      modifies this`saved
      ensures saved == Some(m)
    {
      saved := Some(m);
    }
  }

  // A file and its chunks

  function HashesOf(h: Hashing, data: Bytes): (hashes: seq<string>)
    ensures |hashes| == |Chunks(h, data)|
    ensures forall i :: 0 <= i < |hashes| ==> hashes[i] == Chunks(h, data)[i].hash
  {
    var cs := Chunks(h, data);
    seq(|cs|, i requires 0 <= i < |cs| => cs[i].hash)
  }

  /** The store after the first `k` chunks of `data` have been written. */
  function WithChunksOf(h: Hashing, chunks: ChunkMap, data: Bytes, k: nat): ChunkMap
    requires k <= |Pieces(h, data)|
  {
    if k == 0 then chunks else
      var piece := Pieces(h, data)[k - 1];
      WithChunk(WithChunksOf(h, chunks, data, k - 1), h.blake3(piece), piece)
  }

  function WithFile(h: Hashing, chunks: ChunkMap, data: Bytes): ChunkMap {
    WithChunksOf(h, chunks, data, |Pieces(h, data)|)
  }

  /** The slice of the file a chunk describes is the piece it was cut from. */
  lemma {:induction false} SliceIsPiece(h: Hashing, data: Bytes, i: nat)
    requires i < |Chunks(h, data)|
    ensures i < |Pieces(h, data)|
    ensures
      var c := Chunks(h, data)[i];
      && c.offset + c.len <= |data|
      && data[c.offset..c.offset + c.len] == Pieces(h, data)[i]
      && c.hash == h.blake3(Pieces(h, data)[i])
  {
    hide FirstCut, CutAfter;
    PiecesRebuild(h, data);
    var n := FirstCut(h, data);
    if i > 0 {
      SliceIsPiece(h, data[n..], i - 1);
      var c := Chunks(h, data[n..])[i - 1];
      assert data[n..][c.offset..c.offset + c.len] == data[n + c.offset..n + c.offset + c.len];
    }
  }

  lemma {:induction false} WithChunksKeeps(h: Hashing, chunks: ChunkMap, data: Bytes, k: nat)
    requires k <= |Pieces(h, data)|
    ensures
      var r := WithChunksOf(h, chunks, data, k);
      && (forall x :: x in chunks ==> x in r && r[x] == chunks[x])
      && (forall x :: x in r && x !in chunks ==>
          exists i :: 0 <= i < k && x == h.blake3(Pieces(h, data)[i]) && r[x] == Pieces(h, data)[i])
      && (forall i :: 0 <= i < k ==> h.blake3(Pieces(h, data)[i]) in r)
  {
    hide Pieces, IsHexHash;
    if k > 0 {
      WithChunksKeeps(h, chunks, data, k - 1);
    }
  }

  /** Storing a file's chunks loses nothing, adds only pieces of the file under their digests, and
      leaves every chunk of the file held. */
  lemma WithFileKeeps(h: Hashing, chunks: ChunkMap, data: Bytes)
    ensures
      var r := WithFile(h, chunks, data);
      && (forall x :: x in chunks ==> x in r && r[x] == chunks[x])
      && (forall x :: x in r && x !in chunks ==> r[x] in Pieces(h, data))
      && (Sound(h, chunks) ==> Sound(h, r))
      && HasAll(r, HashesOf(h, data))
  {
    hide Pieces, Chunks;
    WithChunksKeeps(h, chunks, data, |Pieces(h, data)|);
    PiecesRebuild(h, data);
  }

  /** Writing the chunks of a file that is held in full changes nothing. */
  lemma {:induction false} WithChunksNoOp(h: Hashing, chunks: ChunkMap, data: Bytes, k: nat)
    requires k <= |Pieces(h, data)|
    requires HasAll(chunks, HashesOf(h, data))
    ensures WithChunksOf(h, chunks, data, k) == chunks
  {
    hide Pieces, Chunks;
    if k > 0 {
      WithChunksNoOp(h, chunks, data, k - 1);
      PiecesRebuild(h, data);
      assert HashesOf(h, data)[k - 1] == h.blake3(Pieces(h, data)[k - 1]);
    }
  }

  // From hashes back to bytes

  /** BLAKE3 does not collide on the byte strings in play. */
  ghost predicate CollisionFree(h: Hashing, play: set<Bytes>) {
    forall x, y :: x in play && y in play && h.blake3(x) == h.blake3(y) ==> x == y
  }

  ghost predicate StoredFrom(chunks: ChunkMap, play: set<Bytes>) {
    forall k :: k in chunks ==> chunks[k] in play
  }

  ghost predicate PiecesIn(h: Hashing, data: Bytes, play: set<Bytes>) {
    forall i :: 0 <= i < |Pieces(h, data)| ==> Pieces(h, data)[i] in play
  }

  lemma {:induction false} ConcatAppend(pieces: seq<Bytes>, last: Bytes)
    ensures Concat(pieces + [last]) == Concat(pieces) + last
  {
    if pieces == [] {
      assert pieces + [last] == [last];
      assert [last][1..] == [];
    } else {
      ConcatAppend(pieces[1..], last);
      assert (pieces + [last])[1..] == pieces[1..] + [last];
    }
  }

  lemma {:induction false} AssemblePieces(h: Hashing, chunks: ChunkMap, hashes: seq<string>, pieces: seq<Bytes>,
          play: set<Bytes>)
    requires Sound(h, chunks) && StoredFrom(chunks, play) && CollisionFree(h, play)
    requires |hashes| == |pieces|
    requires forall i :: 0 <= i < |pieces| ==> pieces[i] in play && hashes[i] == h.blake3(pieces[i])
    requires HasAll(chunks, hashes)
    ensures Assemble(chunks, hashes) == Concat(pieces)
  {
    if hashes != [] {
      var k := |hashes| - 1;
      AssemblePieces(h, chunks, hashes[..k], pieces[..k], play);
      assert chunks[hashes[k]] == pieces[k];
      ConcatAppend(pieces[..k], pieces[k]);
      assert pieces == pieces[..k] + [pieces[k]];
    }
  }

  /** Reading a file's chunk list back out of any sound store gives the author's bytes. */
  lemma AssembleRebuilds(h: Hashing, chunks: ChunkMap, data: Bytes, play: set<Bytes>)
    requires Sound(h, chunks) && StoredFrom(chunks, play) && CollisionFree(h, play)
    requires PiecesIn(h, data, play)
    requires HasAll(chunks, HashesOf(h, data))
    ensures Assemble(chunks, HashesOf(h, data)) == data
  {
    hide Pieces, Chunks;
    PiecesRebuild(h, data);
    AssemblePieces(h, chunks, HashesOf(h, data), Pieces(h, data), play);
  }

  /** The chunk list identifies the file. */
  lemma HashesIdentifyFile(h: Hashing, a: Bytes, b: Bytes, play: set<Bytes>)
    requires CollisionFree(h, play) && PiecesIn(h, a, play) && PiecesIn(h, b, play)
    requires HashesOf(h, a) == HashesOf(h, b)
    ensures a == b
  {
    hide Pieces, Chunks;
    PiecesRebuild(h, a);
    PiecesRebuild(h, b);
    forall i | 0 <= i < |Pieces(h, a)|
      ensures Pieces(h, a)[i] == Pieces(h, b)[i]
    {
      assert HashesOf(h, a)[i] == HashesOf(h, b)[i];
    }
    assert Pieces(h, a) == Pieces(h, b);
  }
}
