/** What one round of chunk transfer achieves (main.rs): request the missing hashes, receive what the
    peer holds of them, file it. */
module Transfers {
  import opened Basics
  import opened Chunker
  import opened ChunkerLaws
  import opened Manifests
  import opened Stores
  import opened Agents

  lemma MissingMember(m: Entries, chunks: ChunkMap, k: string)
    ensures k in Missing(m, chunks) <==>
      exists p, i :: p in m && 0 <= i < |m[p].chunkHashes| && m[p].chunkHashes[i] == k && !Has(chunks, k)
  {
    hide Has;
    if k in Missing(m, chunks) {
      var p :| p in m && k in MissingOf(m[p], chunks);
      var i :| 0 <= i < |m[p].chunkHashes| && m[p].chunkHashes[i] == k;
    }
    if p, i :| p in m && 0 <= i < |m[p].chunkHashes| && m[p].chunkHashes[i] == k && !Has(chunks, k) {
      assert k in MissingOf(m[p], chunks);
    }
  }

  /** Nothing is missing exactly when `have_all_chunks` holds of every entry. */
  lemma NothingMissingIff(m: Entries, chunks: ChunkMap)
    ensures Missing(m, chunks) == {} <==> forall p :: p in m ==> HasAll(chunks, m[p].chunkHashes)
  {
    hide Has, Missing, MissingOf;
    if Missing(m, chunks) == {} {
      forall p, i | p in m && 0 <= i < |m[p].chunkHashes|
        ensures Has(chunks, m[p].chunkHashes[i])
      {
        MissingMember(m, chunks, m[p].chunkHashes[i]);
      }
    } else {
      var k :| k in Missing(m, chunks);
      MissingMember(m, chunks, k);
      var p, i :| p in m && 0 <= i < |m[p].chunkHashes| && m[p].chunkHashes[i] == k && !Has(chunks, k);
      assert !HasAll(chunks, m[p].chunkHashes);
    }
  }

  function ReplyTo(peer: ChunkMap, hashes: set<string>): ChunkMap {
    map k | k in hashes && Has(peer, k) :: peer[k]
  }

  /** A round leaves missing exactly what was missing and the peer lacks: the missing set never grows,
      and it empties if the peer holds everything. */
  lemma RoundFillsWhatPeerHas(m: Entries, mine: ChunkMap, peer: ChunkMap)
    ensures
      var after := WithReply(mine, ReplyTo(peer, Missing(m, mine)));
      Missing(m, after) == set k | k in Missing(m, mine) && !Has(peer, k)
  {
    hide Missing, IsHexHash;
    var reply := ReplyTo(peer, Missing(m, mine));
    var after := WithReply(mine, reply);
    forall k
      ensures k in Missing(m, after) <==> k in Missing(m, mine) && !Has(peer, k)
    {
      MissingMember(m, after, k);
      MissingMember(m, mine, k);
    }
  }

  /** Honest stores stay honest: after a round every chunk held is still filed under its own digest,
      and nothing held before has changed. */
  lemma RoundKeepsSound(h: Hashing, mine: ChunkMap, peer: ChunkMap, hashes: set<string>)
    requires Sound(h, mine) && Sound(h, peer)
    ensures Sound(h, WithReply(mine, ReplyTo(peer, hashes)))
    ensures forall k :: k in mine ==> WithReply(mine, ReplyTo(peer, hashes))[k] == mine[k]
  {
    hide IsHexHash;
  }

  /** Author to reader: a file scanned by one agent, fetched chunk by chunk from any sound store that
      holds it, and glued together by another, is the author's file. */
  lemma FileCrossesTheWire(h: Hashing, data: Bytes, author: ChunkMap, mine: ChunkMap, m: Entries, p: string,
          play: set<Bytes>)
    requires Sound(h, author) && Sound(h, mine)
    requires p in m && m[p].chunkHashes == HashesOf(h, data)
    requires CollisionFree(h, play) && PiecesIn(h, data, play)
    requires StoredFrom(author, play) && StoredFrom(mine, play)
    ensures
      var scanned := WithFile(h, author, data);
      var fetched := WithReply(mine, ReplyTo(scanned, Missing(m, mine)));
      && HasAll(fetched, m[p].chunkHashes)
      && Assemble(fetched, m[p].chunkHashes) == data
  {
    hide IsHexHash, Pieces, Chunks, Missing, Assemble, HashesOf, WithFile, PiecesIn, CollisionFree;
    WithFileKeeps(h, author, data);
    var scanned := WithFile(h, author, data);
    var fetched := WithReply(mine, ReplyTo(scanned, Missing(m, mine)));
    forall i | 0 <= i < |m[p].chunkHashes|
      ensures Has(fetched, m[p].chunkHashes[i])
    {
      MissingMember(m, mine, m[p].chunkHashes[i]);
    }
    RoundKeepsSound(h, mine, scanned, Missing(m, mine));
    PiecesStored(h, author, data, play);
    AssembleRebuilds(h, fetched, data, play);
  }

  lemma PiecesStored(h: Hashing, chunks: ChunkMap, data: Bytes, play: set<Bytes>)
    requires StoredFrom(chunks, play) && PiecesIn(h, data, play)
    ensures StoredFrom(WithFile(h, chunks, data), play)
  {
    hide Pieces, WithFile;
    WithFileKeeps(h, chunks, data);
    var r := WithFile(h, chunks, data);
    forall k | k in r
      ensures r[k] in play
    {
      if k !in chunks {
        var i :| 0 <= i < |Pieces(h, data)| && Pieces(h, data)[i] == r[k];
      }
    }
  }
}
