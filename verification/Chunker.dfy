/** Content-defined chunking (chunk.rs): the imperative loop, and the recursive reading of it in
    which every chunk is cut from the remaining bytes alone. */
module Chunker {
  import opened Basics
  import opened RollingHash
  import opened Words64

  const MIN_CHUNK_SIZE: nat := 4 * 1024
  const MAX_CHUNK_SIZE: nat := 64 * 1024
  const CUT_MASK: Word := 0x3FFF

  predicate IsHexHash(s: string) {
    && |s| == 64
    && forall i :: 0 <= i < |s| ==> '0' <= s[i] <= '9' || 'a' <= s[i] <= 'f' || 'A' <= s[i] <= 'F'
  }

  const ZERO_HASH: string := seq(64, _ => '0')

  /** A hash as `chunk` writes it: 64 hexadecimal digits. */
  type Hex = s: string | IsHexHash(s) witness ZERO_HASH

  /** The two primitives the source takes from elsewhere: the table of 256 words and BLAKE3. */
  datatype Hashing = Hashing(table: Byte -> Word, blake3: Bytes -> Hex)

  datatype Chunk = Chunk(hash: Hex, offset: nat, len: nat)

  predicate Masked(hash: Word) {
    hash & CUT_MASK == 0
  }

  /** The test of the source is divisibility by 2^14, so one hash in 16384 passes. */
  lemma MaskedIff(hash: Word)
    ensures Masked(hash) <==> hash % 0x4000 == 0
  {
  }

  /** Content alone asks for a cut at the end of `w`. */
  predicate Boundary(h: Hashing, w: Bytes) {
    Masked(WindowHash(U64, h.table, Trailing(w)))
  }

  /** A chunk that starts where `rest` starts ends after `n` bytes, if it got that far. */
  predicate CutAfter(h: Hashing, rest: Bytes, n: nat)
    requires 1 <= n <= |rest|
  {
    (n >= MIN_CHUNK_SIZE && Boundary(h, rest[..n])) || n >= MAX_CHUNK_SIZE || n == |rest|
  }

  /** The least length at or above `n` at which a chunk starting `rest` is cut. */
  function CutFrom(h: Hashing, rest: Bytes, n: nat): (c: nat)
    requires 1 <= n <= |rest|
    ensures n <= c <= |rest| && CutAfter(h, rest, c)
    ensures forall k :: n <= k < c ==> !CutAfter(h, rest, k)
    decreases |rest| - n
  {
    if CutAfter(h, rest, n) then n else CutFrom(h, rest, n + 1)
  }

  /** The length of the first chunk. */
  function FirstCut(h: Hashing, rest: Bytes): (c: nat)
    requires rest != []
    ensures 1 <= c <= |rest| && CutAfter(h, rest, c)
    ensures forall k :: 1 <= k < c ==> !CutAfter(h, rest, k)
  {
    CutFrom(h, rest, 1)
  }

  function Shift(chunks: seq<Chunk>, d: nat): (r: seq<Chunk>)
    ensures |r| == |chunks|
    ensures forall i :: 0 <= i < |r| ==> r[i] == chunks[i].(offset := chunks[i].offset + d)
  {
    seq(|chunks|, i requires 0 <= i < |chunks| => chunks[i].(offset := chunks[i].offset + d))
  }

  /** The recursive specification: cut the first chunk, then chunk the remaining bytes as a file of
      their own and move them into place. Nothing is carried over a cut. */
  function Chunks(h: Hashing, data: Bytes): seq<Chunk> {
    if data == [] then [] else
      var n := FirstCut(h, data);
      [Chunk(h.blake3(data[..n]), 0, n)] + Shift(Chunks(h, data[n..]), n)
  }

  /** What the loop tests with the never-reset hash is what a chunk cut from `data[start..]` alone
      would test: the window never reaches back over the cut, because MIN_CHUNK_SIZE > WINDOW. The
      same inequality makes the guard `window_full` redundant. */
  lemma DecisionIsLocal(h: Hashing, data: Bytes, start: nat, i: nat)
    requires start <= i < |data|
    ensures
      var len := i - start + 1;
      var hash := RunHash(U64, h.table, data[..i + 1]);
      ((i >= WINDOW && Masked(hash) && len >= MIN_CHUNK_SIZE) || len >= MAX_CHUNK_SIZE || i == |data| - 1)
      <==> CutAfter(h, data[start..], len)
  {
    if i - start + 1 >= MIN_CHUNK_SIZE {
      BoundaryIsLocal(h, data, start, i);
    }
  }

  lemma TrailingIsLocal(data: Bytes, start: nat, end: nat)
    requires start + WINDOW <= end <= |data|
    ensures Trailing(data[..end]) == Trailing(data[start..][..end - start])
  {
    assert data[..end][end - WINDOW..] == data[end - WINDOW..end];
    assert data[start..][..end - start] == data[start..end];
    assert data[start..end][end - start - WINDOW..] == data[end - WINDOW..end];
  }

  lemma BoundaryIsLocal(h: Hashing, data: Bytes, start: nat, i: nat)
    requires start <= i < |data| && i - start + 1 >= MIN_CHUNK_SIZE
    ensures Masked(RunHash(U64, h.table, data[..i + 1])) == Boundary(h, data[start..][..i - start + 1])
  {
    RunHash64(h.table, data[..i + 1]);
    TrailingIsLocal(data, start, i + 1);
  }

  lemma ShiftAppend(a: seq<Chunk>, b: seq<Chunk>, d: nat)
    ensures Shift(a + b, d) == Shift(a, d) + Shift(b, d)
  {
  }

  lemma ShiftTwice(a: seq<Chunk>, d: nat, e: nat)
    ensures Shift(Shift(a, d), e) == Shift(a, d + e)
  {
  }

  lemma ShiftedChunksUnfold(h: Hashing, data: Bytes, start: nat, n: nat)
    requires start < |data|
    requires n == FirstCut(h, data[start..])
    ensures Shift(Chunks(h, data[start..]), start)
         == [Chunk(h.blake3(data[start..start + n]), start, n)] + Shift(Chunks(h, data[start + n..]), start + n)
  {
    var rest := data[start..];
    assert rest[..n] == data[start..start + n];
    assert rest[n..] == data[start + n..];
    var tail := Chunks(h, rest[n..]);
    ShiftTwice(tail, n, start);
    ShiftAppend([Chunk(h.blake3(rest[..n]), 0, n)], Shift(tail, n), start);
    assert Shift([Chunk(h.blake3(rest[..n]), 0, n)], start) == [Chunk(h.blake3(rest[..n]), start, n)];
  }

  lemma FirstCutIs(h: Hashing, rest: Bytes, n: nat)
    requires 1 <= n <= |rest|
    requires CutAfter(h, rest, n)
    requires forall k :: 1 <= k < n ==> !CutAfter(h, rest, k)
    ensures FirstCut(h, rest) == n
  {
  }

  /** The loop invariant at byte `i`: no cut has been passed since `start`, and what is emitted so
      far followed by the chunking of the bytes from `start` on is the whole answer. */
  ghost predicate Progress(h: Hashing, data: Bytes, start: nat, i: nat, chunks: seq<Chunk>) {
    && start <= i <= |data|
    && (i == |data| ==> start == i)
    && (forall k :: 1 <= k <= i - start ==> !CutAfter(h, data[start..], k))
    && chunks + Shift(Chunks(h, data[start..]), start) == Chunks(h, data)
  }

  lemma ProgressSkips(h: Hashing, data: Bytes, start: nat, i: nat, chunks: seq<Chunk>)
    requires Progress(h, data, start, i, chunks)
    requires i < |data| && !CutAfter(h, data[start..], i - start + 1)
    ensures Progress(h, data, start, i + 1, chunks)
  {
  }

  lemma ProgressCuts(h: Hashing, data: Bytes, start: nat, i: nat, chunks: seq<Chunk>, cut: Chunk)
    requires Progress(h, data, start, i, chunks)
    requires i < |data| && CutAfter(h, data[start..], i - start + 1)
    requires cut == Chunk(h.blake3(data[start..i + 1]), start, i - start + 1)
    ensures Progress(h, data, i + 1, i + 1, chunks + [cut])
  {
    var n := i - start + 1;
    FirstCutIs(h, data[start..], n);
    ShiftedChunksUnfold(h, data, start, n);
    var tail := Shift(Chunks(h, data[i + 1..]), i + 1);
    assert chunks + ([cut] + tail) == (chunks + [cut]) + tail;
  }

  lemma ProgressEnds(h: Hashing, data: Bytes, start: nat, chunks: seq<Chunk>)
    requires Progress(h, data, start, |data|, chunks)
    ensures chunks == Chunks(h, data)
  {
    assert data[start..] == [];
  }

  /** `chunk`: one pass over the bytes. `hash` and `i` are never reset at a cut, yet the result is
      the one of the recursive specification. */
  method ChunkData(h: Hashing, data: Bytes) returns (chunks: seq<Chunk>)
    ensures chunks == Chunks(h, data)
  {
    hide *;
    chunks := [];
    if data == [] {
      NoChunksOfNothing(h);
      return;
    }
    var start := 0;
    var hash: Word := 0;
    ProgressStarts(h, data);
    for i := 0 to |data|
      invariant start <= i
      invariant hash == RunHash(U64, h.table, data[..i])
      invariant Progress(h, data, start, i, chunks)
    {
      hash := RollOver(h, data, i, hash);
      var len := i - start + 1;
      var windowFull := i >= WINDOW;
      var atBoundary := windowFull && Masked(hash) && len >= MIN_CHUNK_SIZE;
      var forced := len >= MAX_CHUNK_SIZE;
      var isLastByte := i == |data| - 1;
      DecisionIsLocal(h, data, start, i);
      if atBoundary || forced || isLastByte {
        var slice := data[start..i + 1];
        var cut := Chunk(h.blake3(slice), start, |slice|);
        ProgressCuts(h, data, start, i, chunks, cut);
        chunks := chunks + [cut];
        start := i + 1;
      } else {
        ProgressSkips(h, data, start, i, chunks);
      }
    }
    ProgressEnds(h, data, start, chunks);
  }

  lemma NoChunksOfNothing(h: Hashing)
    ensures Chunks(h, []) == []
  {
  }

  lemma ProgressStarts(h: Hashing, data: Bytes)
    requires data != []
    ensures Progress(h, data, 0, 0, [])
    ensures RunHash(U64, h.table, data[..0]) == 0
  {
    assert data[0..] == data;
    assert Shift(Chunks(h, data), 0) == Chunks(h, data);
  }

  /** The rolling-hash statements at the head of the loop body. */
  method RollOver(h: Hashing, data: Bytes, i: nat, before: Word) returns (hash: Word)
    requires i < |data|
    requires before == RunHash(U64, h.table, data[..i])
    ensures hash == RunHash(U64, h.table, data[..i + 1])
  {
    hash := Xor(RotateOne(before), h.table(data[i]));
    if i >= WINDOW {
      var leaving := data[i - WINDOW];
      hash := Xor(hash, RotateWindow(h.table(leaving)));
      RotateWindowIsRotate(h.table(leaving));
    }
    RunHashUnfold(h, data, i, before);
  }

  lemma RunHashUnfold(h: Hashing, data: Bytes, i: nat, before: Word)
    requires i < |data|
    requires before == RunHash(U64, h.table, data[..i])
    ensures RunHash(U64, h.table, data[..i + 1]) == HashStep(U64, h.table, data, i, before)
  {
    assert data[..i + 1][..i] == data[..i];
  }
}
