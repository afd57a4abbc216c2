/** What the chunker is for: its chunks tile the file within the size bounds, survive an append,
    and re-synchronise in any two files that share a suffix. */
module ChunkerLaws {
  import opened Basics
  import opened RollingHash
  import opened Words64
  import opened Chunker

  // Tiling and size bounds

  ghost predicate WellCut(h: Hashing, data: Bytes, c: Chunk) {
    && 1 <= c.len <= MAX_CHUNK_SIZE
    && c.offset + c.len <= |data|
    && c.hash == h.blake3(data[c.offset..c.offset + c.len])
  }

  /** The chunks are contiguous, cover the data exactly, and keep to the size limits; only the
      last may be shorter than MIN_CHUNK_SIZE. */
  ghost predicate Tiles(h: Hashing, data: Bytes, chunks: seq<Chunk>) {
    && (chunks == [] <==> data == [])
    && (forall i :: 0 <= i < |chunks| ==> WellCut(h, data, chunks[i]))
    && (forall i :: 0 <= i < |chunks| ==>
         chunks[i].offset == if i == 0 then 0 else chunks[i - 1].offset + chunks[i - 1].len)
    && (forall i :: 0 <= i < |chunks| - 1 ==> chunks[i].len >= MIN_CHUNK_SIZE)
    && (chunks != [] ==> chunks[|chunks| - 1].offset + chunks[|chunks| - 1].len == |data|)
  }

  lemma {:induction false} ChunksTile(h: Hashing, data: Bytes)
    ensures Tiles(h, data, Chunks(h, data))
  {
    if data != [] {
      var n := FirstCut(h, data);
      var rest := data[n..];
      FirstCutBounds(h, data);
      ChunksTile(h, rest);
      TilesExtend(h, data, n, Chunks(h, rest));
    }
  }

  lemma FirstCutBounds(h: Hashing, data: Bytes)
    requires data != []
    ensures
      var n := FirstCut(h, data);
      n <= MAX_CHUNK_SIZE && (n < |data| ==> n >= MIN_CHUNK_SIZE)
  {
    var n := FirstCut(h, data);
    if n > MAX_CHUNK_SIZE {
      assert CutAfter(h, data, MAX_CHUNK_SIZE);
    }
  }

  lemma TilesExtend(h: Hashing, data: Bytes, n: nat, tail: seq<Chunk>)
    requires 1 <= n <= |data| && n <= MAX_CHUNK_SIZE && (n < |data| ==> n >= MIN_CHUNK_SIZE)
    requires Tiles(h, data[n..], tail)
    ensures Tiles(h, data, [Chunk(h.blake3(data[..n]), 0, n)] + Shift(tail, n))
  {
    hide Chunks, WellCut;
    var chunks := [Chunk(h.blake3(data[..n]), 0, n)] + Shift(tail, n);
    FirstWellCut(h, data, n);
    forall i | 0 <= i < |chunks|
      ensures WellCut(h, data, chunks[i])
    {
      if i > 0 {
        ShiftedWellCut(h, data, n, tail[i - 1]);
      }
    }
  }

  lemma FirstWellCut(h: Hashing, data: Bytes, n: nat)
    requires 1 <= n <= |data| && n <= MAX_CHUNK_SIZE
    ensures WellCut(h, data, Chunk(h.blake3(data[..n]), 0, n))
  {
    assert data[0..n] == data[..n];
  }

  lemma ShiftedWellCut(h: Hashing, data: Bytes, n: nat, c: Chunk)
    requires n <= |data| && WellCut(h, data[n..], c)
    ensures WellCut(h, data, c.(offset := c.offset + n))
  {
    assert data[n..][c.offset..c.offset + c.len] == data[n + c.offset..n + c.offset + c.len];
  }

  /** A file of `n` chunks has more than `(n - 1) * MIN` and at most `n * MAX` bytes. */
  lemma {:induction false} ChunkCountBounds(h: Hashing, data: Bytes)
    requires data != []
    ensures
      var n := |Chunks(h, data)|;
      (n - 1) * MIN_CHUNK_SIZE < |data| <= n * MAX_CHUNK_SIZE
  {
    var c := FirstCut(h, data);
    FirstCutBounds(h, data);
    if c < |data| {
      ChunkCountBounds(h, data[c..]);
    } else {
      assert Chunks(h, data[c..]) == [];
    }
  }

  // Pieces: the byte strings the chunks stand for

  /** The byte strings of the chunks, in order. */
  function Pieces(h: Hashing, data: Bytes): seq<Bytes> {
    if data == [] then [] else
      var n := FirstCut(h, data);
      [data[..n]] + Pieces(h, data[n..])
  }

  function Concat(pieces: seq<Bytes>): Bytes {
    if pieces == [] then [] else pieces[0] + Concat(pieces[1..])
  }

  /** Gluing the pieces together gives the file back, and each chunk names its piece's digest. */
  lemma {:induction false} PiecesRebuild(h: Hashing, data: Bytes)
    ensures Concat(Pieces(h, data)) == data
    ensures |Pieces(h, data)| == |Chunks(h, data)|
    ensures forall i :: 0 <= i < |Pieces(h, data)| ==>
      Chunks(h, data)[i].hash == h.blake3(Pieces(h, data)[i]) && Chunks(h, data)[i].len == |Pieces(h, data)[i]|
  {
    hide FirstCut, CutAfter, Chunks, Pieces;
    PiecesUnfold(h, data);
    if data == [] {
      NoChunksOfNothing(h);
    } else {
      var n := FirstCut(h, data);
      PiecesRebuild(h, data[n..]);
      ChunksUnfold(h, data);
      assert Pieces(h, data)[1..] == Pieces(h, data[n..]);
      assert data == data[..n] + data[n..];
    }
  }

  lemma PiecesUnfold(h: Hashing, data: Bytes)
    ensures Pieces(h, data) == if data == [] then [] else [data[..FirstCut(h, data)]] + Pieces(h, data[FirstCut(h, data)..])
  {
  }

  // Where the cuts fall

  /** `c` is a chunk start, or the end of the data. */
  predicate IsCut(h: Hashing, data: Bytes, c: nat)
    requires c <= |data|
  {
    c == 0 || (FirstCut(h, data) <= c && IsCut(h, data[FirstCut(h, data)..], c - FirstCut(h, data)))
  }

  /** The start of the chunk that holds the byte before `pos`. */
  function ChunkStart(h: Hashing, data: Bytes, pos: nat): (s: nat)
    requires 1 <= pos <= |data|
    ensures s < pos
  {
    var n := FirstCut(h, data);
    if pos <= n then 0 else n + ChunkStart(h, data[n..], pos - n)
  }

  /** The number of chunks that lie before `c`. */
  function ChunksBefore(h: Hashing, data: Bytes, c: nat): nat
    requires c <= |data|
  {
    if c == 0 then 0 else
      var n := FirstCut(h, data);
      if c <= n then 1 else 1 + ChunksBefore(h, data[n..], c - n)
  }

  lemma {:induction false} CutByBoundary(h: Hashing, data: Bytes, pos: nat)
    requires 1 <= pos <= |data|
    ensures
      var s := ChunkStart(h, data, pos);
      IsCut(h, data, pos) <==>
        pos == |data| || pos - s == MAX_CHUNK_SIZE || (pos - s >= MIN_CHUNK_SIZE && Boundary(h, data[..pos]))
  {
    var n := FirstCut(h, data);
    FirstCutBounds(h, data);
    if pos > n {
      var rest := data[n..];
      CutByBoundary(h, rest, pos - n);
      if pos - ChunkStart(h, data, pos) >= MIN_CHUNK_SIZE {
        TrailingIsLocal(data, n, pos);
      }
    } else if pos < n {
      assert !CutAfter(h, data, pos);
    }
  }

  /** Exactly where cuts fall: at the end, at 64 KiB, and where the hash of the last 48 bytes is a multiple
      of 2^14, at least 4 KiB past the start of the current chunk. The rest of the file matters only
      through the chunk start. */
  lemma CutCharacterised(h: Hashing, data: Bytes, pos: nat)
    requires 1 <= pos <= |data|
    ensures
      var s := ChunkStart(h, data, pos);
      IsCut(h, data, pos) <==>
        || pos == |data| || pos - s == 65536
        || (pos - s >= 4096 && WindowHash(U64, h.table, data[pos - 48..pos]) % 0x4000 == 0)
  {
    hide *;
    CutByBoundary(h, data, pos);
    if pos >= WINDOW {
      BoundaryIff(h, data, pos);
    }
    SizesInBytes();
  }

  lemma SizesInBytes()
    ensures MIN_CHUNK_SIZE == 4096 && MAX_CHUNK_SIZE == 65536 && WINDOW == 48
  {
  }

  lemma BoundaryIff(h: Hashing, data: Bytes, pos: nat)
    requires WINDOW <= pos <= |data|
    ensures Boundary(h, data[..pos]) <==> WindowHash(U64, h.table, data[pos - WINDOW..pos]) % 0x4000 == 0
  {
    hide WindowHash, Masked;
    assert Trailing(data[..pos]) == data[pos - WINDOW..pos];
    MaskedIff(WindowHash(U64, h.table, Trailing(data[..pos])));
  }

  /** No chunk start is more than MAX_CHUNK_SIZE behind. */
  lemma {:induction false} ChunkStartNear(h: Hashing, data: Bytes, pos: nat)
    requires 1 <= pos <= |data|
    ensures pos - ChunkStart(h, data, pos) <= MAX_CHUNK_SIZE
    ensures IsCut(h, data, ChunkStart(h, data, pos))
  {
    var n := FirstCut(h, data);
    FirstCutBounds(h, data);
    if pos > n {
      ChunkStartNear(h, data[n..], pos - n);
    }
  }

  lemma ChunksUnfold(h: Hashing, data: Bytes)
    requires data != []
    ensures
      var n := FirstCut(h, data);
      Chunks(h, data) == [Chunk(h.blake3(data[..n]), 0, n)] + Shift(Chunks(h, data[n..]), n)
  {
  }

  lemma DropShifted(first: Chunk, tail: seq<Chunk>, n: nat, k: nat)
    requires k <= |tail|
    ensures ([first] + Shift(tail, n))[1 + k..] == Shift(tail[k..], n)
  {
  }

  lemma TakeShifted(first: Chunk, tail: seq<Chunk>, n: nat, k: nat)
    requires k <= |tail|
    ensures ([first] + Shift(tail, n))[..1 + k] == [first] + Shift(tail[..k], n)
  {
  }

  lemma ShiftByZero(chunks: seq<Chunk>)
    ensures Shift(chunks, 0) == chunks
  {
  }

  /** From a cut on, the chunks are those of the remaining bytes, moved into place. */
  lemma {:induction false} ChunksAfterCut(h: Hashing, data: Bytes, c: nat)
    requires c <= |data| && IsCut(h, data, c)
    ensures ChunksBefore(h, data, c) <= |Chunks(h, data)|
    ensures Chunks(h, data)[ChunksBefore(h, data, c)..] == Shift(Chunks(h, data[c..]), c)
  {
    hide Chunks, FirstCut, CutAfter, Shift;
    if c == 0 {
      assert data[0..] == data;
      ShiftByZero(Chunks(h, data));
    } else {
      var n := FirstCut(h, data);
      var rest := data[n..];
      ChunksAfterCut(h, rest, c - n);
      assert rest[c - n..] == data[c..];
      ChunksUnfold(h, data);
      DropShifted(Chunk(h.blake3(data[..n]), 0, n), Chunks(h, rest), n, ChunksBefore(h, rest, c - n));
      ShiftTwice(Chunks(h, data[c..]), c - n, n);
    }
  }

  /** The chunks before a cut end at or before it. */
  lemma {:induction false} ChunksBeforeEndByCut(h: Hashing, data: Bytes, c: nat, i: nat)
    requires c <= |data| && IsCut(h, data, c)
    requires i < ChunksBefore(h, data, c)
    ensures i < |Chunks(h, data)| && Chunks(h, data)[i].offset + Chunks(h, data)[i].len <= c
  {
    hide Chunks, FirstCut, CutAfter;
    ChunksUnfold(h, data);
    if i > 0 {
      var n := FirstCut(h, data);
      ChunksBeforeEndByCut(h, data[n..], c - n, i - 1);
    }
  }

  /** Every byte is in the chunk that begins at its chunk start, and that chunk ends at the first cut from
      there on: the cuts are where the chunks of the result meet. */
  lemma {:induction false} ChunkOfByte(h: Hashing, data: Bytes, pos: nat) returns (i: nat)
    requires 1 <= pos <= |data|
    ensures i < |Chunks(h, data)|
    ensures
      var c := Chunks(h, data)[i];
      && c.offset == ChunkStart(h, data, pos)
      && pos <= c.offset + c.len
      && (IsCut(h, data, pos) <==> pos == c.offset + c.len)
  {
    hide FirstCut, CutAfter, Chunks;
    var n := FirstCut(h, data);
    ChunksUnfold(h, data);
    if pos <= n {
      i := 0;
    } else {
      var j := ChunkOfByte(h, data[n..], pos - n);
      i := j + 1;
    }
  }

  // Appending

  /** Bytes added at the end disturb no chunk but the last. */
  lemma {:induction false} PrefixStable(h: Hashing, a: Bytes, b: Bytes)
    requires a != []
    ensures
      var k := |Chunks(h, a)| - 1;
      0 <= k <= |Chunks(h, a + b)| && Chunks(h, a + b)[..k] == Chunks(h, a)[..k]
  {
    hide Chunks, FirstCut, CutAfter;
    var n := FirstCut(h, a);
    ChunksUnfold(h, a);
    if n < |a| {
      FirstCutOfLonger(h, a, b);
      ChunksUnfold(h, a + b);
      var rest := a[n..];
      PrefixStable(h, rest, b);
      assert (a + b)[n..] == rest + b;
      assert (a + b)[..n] == a[..n];
      var first := Chunk(h.blake3(a[..n]), 0, n);
      TakeShifted(first, Chunks(h, rest), n, |Chunks(h, rest)| - 1);
      TakeShifted(first, Chunks(h, rest + b), n, |Chunks(h, rest)| - 1);
    } else {
      NoChunksOfNothing(h);
      assert a[n..] == [];
    }
  }

  lemma FirstCutOfLonger(h: Hashing, a: Bytes, b: Bytes)
    requires a != [] && FirstCut(h, a) < |a|
    ensures FirstCut(h, a + b) == FirstCut(h, a)
  {
    var n := FirstCut(h, a);
    forall k | 1 <= k <= n
      ensures CutAfter(h, a + b, k) == CutAfter(h, a, k)
    {
      assert (a + b)[..k] == a[..k];
    }
    FirstCutIs(h, a + b, n);
  }

  // Shared suffixes

  /** Two files with a common suffix and a cut at the same place in it have, from there on, the
      same chunks: equal hashes and lengths, offsets apart by the difference of the prefixes. */
  lemma CommonCutResynchronises(h: Hashing, p: Bytes, q: Bytes, s: Bytes, b: nat)
    requires b <= |s|
    requires IsCut(h, p + s, |p| + b) && IsCut(h, q + s, |q| + b)
    ensures ChunksFrom(h, p + s, |p| + b) == Shift(Chunks(h, s[b..]), |p| + b)
    ensures ChunksFrom(h, q + s, |q| + b) == Shift(Chunks(h, s[b..]), |q| + b)
  {
    hide *;
    ChunksFromCut(h, p + s, |p| + b);
    ChunksFromCut(h, q + s, |q| + b);
    assert (p + s)[|p| + b..] == s[b..];
    assert (q + s)[|q| + b..] == s[b..];
  }

  /** The chunks of `data` from the cut at `c` on. */
  function ChunksFrom(h: Hashing, data: Bytes, c: nat): seq<Chunk>
    requires c <= |data| && IsCut(h, data, c)
  {
    ChunksAfterCut(h, data, c);
    Chunks(h, data)[ChunksBefore(h, data, c)..]
  }

  lemma ChunksFromCut(h: Hashing, data: Bytes, c: nat)
    requires c <= |data| && IsCut(h, data, c)
    ensures ChunksFrom(h, data, c) == Shift(Chunks(h, data[c..]), c)
  {
    ChunksAfterCut(h, data, c);
  }

  /** A boundary inside the shared suffix, at least WINDOW bytes in and at least MIN_CHUNK_SIZE past
      the current chunk start of either file, is a cut in both. */
  lemma BoundaryForcesCommonCut(h: Hashing, p: Bytes, q: Bytes, s: Bytes, b: nat)
    requires WINDOW <= b <= |s|
    requires Boundary(h, s[..b])
    requires |p| + b - ChunkStart(h, p + s, |p| + b) >= MIN_CHUNK_SIZE
    requires |q| + b - ChunkStart(h, q + s, |q| + b) >= MIN_CHUNK_SIZE
    ensures IsCut(h, p + s, |p| + b) && IsCut(h, q + s, |q| + b)
  {
    hide *;
    BoundaryInSuffix(h, p, s, b);
    BoundaryInSuffix(h, q, s, b);
    CutByBoundary(h, p + s, |p| + b);
    CutByBoundary(h, q + s, |q| + b);
  }

  lemma BoundaryInSuffix(h: Hashing, p: Bytes, s: Bytes, b: nat)
    requires WINDOW <= b <= |s|
    ensures Boundary(h, (p + s)[..|p| + b]) == Boundary(h, s[..b])
  {
    assert (p + s)[|p|..] == s;
    TrailingIsLocal(p + s, |p|, |p| + b);
  }

  /** An edit in the middle of a file is local: replacing `m` by `n` between `p` and `s` keeps every
      chunk of `p` but the last, and every chunk after the first common boundary of `s`. */
  lemma EditIsLocal(h: Hashing, p: Bytes, m: Bytes, n: Bytes, s: Bytes, b: nat)
    requires p != []
    requires b <= |s|
    requires IsCut(h, (p + m) + s, |p + m| + b) && IsCut(h, (p + n) + s, |p + n| + b)
    ensures
      var before, after := (p + m) + s, (p + n) + s;
      var k := |Chunks(h, p)| - 1;
      && 0 <= k <= |Chunks(h, before)| && k <= |Chunks(h, after)|
      && Chunks(h, before)[..k] == Chunks(h, after)[..k]
      && ChunksFrom(h, before, |p + m| + b) == Shift(Chunks(h, s[b..]), |p + m| + b)
      && ChunksFrom(h, after, |p + n| + b) == Shift(Chunks(h, s[b..]), |p + n| + b)
  {
    hide *;
    assert (p + m) + s == p + (m + s);
    assert (p + n) + s == p + (n + s);
    PrefixStable(h, p, m + s);
    PrefixStable(h, p, n + s);
    CommonCutResynchronises(h, p + m, p + n, s, b);
  }

  // The reset variant

  /** A chunker that clears its state at every cut, and so counts the window from the chunk start,
      decides every cut as the source does: neither consults the hash before a chunk is
      MIN_CHUNK_SIZE long, and then both windows hold the same bytes. The statement at
      chunk.rs:90-93 that resetting breaks re-synchronisation does not hold for these constants. */
  lemma ResetVariantDecidesAlike(h: Hashing, data: Bytes, start: nat, i: nat)
    requires start <= i < |data|
    ensures
      var len := i - start + 1;
      (i >= start + WINDOW && Masked(RunHash(U64, h.table, data[start..i + 1])) && len >= MIN_CHUNK_SIZE)
      <==> (i >= WINDOW && Masked(RunHash(U64, h.table, data[..i + 1])) && len >= MIN_CHUNK_SIZE)
  {
    hide RunHash, Masked;
    if i - start + 1 >= MIN_CHUNK_SIZE {
      ResetHashAgrees(h, data, start, i);
    }
  }

  lemma ResetHashAgrees(h: Hashing, data: Bytes, start: nat, i: nat)
    requires start + WINDOW <= i < |data|
    ensures RunHash(U64, h.table, data[start..i + 1]) == RunHash(U64, h.table, data[..i + 1])
  {
    RunHash64(h.table, data[start..i + 1]);
    RunHash64(h.table, data[..i + 1]);
    TrailingIsLocal(data, start, i + 1);
    assert data[start..][..i + 1 - start] == data[start..i + 1];
  }

  /** The reset variant as a loop: the hash is cleared at every cut, and bytes leave the window only once
      it has filled again. It returns the very same chunks. */
  method ChunkResettingAtCuts(h: Hashing, data: Bytes) returns (chunks: seq<Chunk>)
    ensures chunks == Chunks(h, data)
  {
    hide *;
    chunks := [];
    if data == [] {
      NoChunksOfNothing(h);
      return;
    }
    var start := 0;
    var hash: Word := 0;
    ProgressStarts(h, data);
    RestartHash(h, data, 0);
    for i := 0 to |data|
      invariant start <= i
      invariant hash == RunHash(U64, h.table, data[start..i])
      invariant Progress(h, data, start, i, chunks)
    {
      SplitWindow(data, start, i);
      hash := RollOver(h, data[start..], i - start, hash);
      var len := i - start + 1;
      var atBoundary := i >= start + WINDOW && Masked(hash) && len >= MIN_CHUNK_SIZE;
      var forced := len >= MAX_CHUNK_SIZE;
      var isLastByte := i == |data| - 1;
      ResetVariantDecidesAlike(h, data, start, i);
      DecisionIsLocal(h, data, start, i);
      if atBoundary || forced || isLastByte {
        var slice := data[start..i + 1];
        var cut := Chunk(h.blake3(slice), start, |slice|);
        ProgressCuts(h, data, start, i, chunks, cut);
        chunks := chunks + [cut];
        start := i + 1;
        hash := 0;
        RestartHash(h, data, start);
      } else {
        ProgressSkips(h, data, start, i, chunks);
      }
    }
    ProgressEnds(h, data, start, chunks);
  }

  lemma RestartHash(h: Hashing, data: Bytes, start: nat)
    requires start <= |data|
    ensures RunHash(U64, h.table, data[start..start]) == 0
  {
  }

  lemma SplitWindow(data: Bytes, start: nat, i: nat)
    requires start <= i < |data|
    ensures data[start..][..i - start] == data[start..i]
    ensures data[start..][..i - start + 1] == data[start..i + 1]
  {
  }
}
