/** The buzhash of chunk.rs, over any words that can be turned by one bit and XOR-ed. The laws
    it needs are stated in `Lawful`; module Words64 shows that 64-bit words obey them. */
module RollingHash {
  import opened Basics

  const WINDOW: nat := 48

  /** A machine word type: its zero, its one-bit left rotation and its XOR. */
  datatype Words<!W> = Words(zero: W, turn: W -> W, xor: (W, W) -> W)

  ghost predicate TurnsDistribute<W(!new)>(a: Words<W>) {
    forall x, y {:trigger a.turn(a.xor(x, y))} :: a.turn(a.xor(x, y)) == a.xor(a.turn(x), a.turn(y))
  }

  ghost predicate XorAssociates<W(!new)>(a: Words<W>) {
    forall x, y, z {:trigger a.xor(a.xor(x, y), z)} :: a.xor(a.xor(x, y), z) == a.xor(x, a.xor(y, z))
  }

  ghost predicate XorCancels<W(!new)>(a: Words<W>) {
    forall x, y {:trigger a.xor(a.xor(x, y), x)} :: a.xor(a.xor(x, y), x) == y
  }

  ghost predicate ZeroIsNeutral<W(!new)>(a: Words<W>) {
    && (forall x {:trigger a.xor(x, a.zero)} :: a.xor(x, a.zero) == x)
    && (forall x {:trigger a.xor(a.zero, x)} :: a.xor(a.zero, x) == x)
    && a.turn(a.zero) == a.zero
  }

  ghost predicate Lawful<W(!new)>(a: Words<W>) {
    TurnsDistribute(a) && XorAssociates(a) && XorCancels(a) && ZeroIsNeutral(a)
  }

  /** `k` successive one-bit rotations. */
  function Rotate<W>(a: Words<W>, x: W, k: nat): W {
    if k == 0 then x else a.turn(Rotate(a, x, k - 1))
  }

  /** The closed form of the hash of a window: the XOR, over every byte of `w`, of that byte's
      table word rotated by the number of bytes that follow it. No order of processing and no
      cancellation is involved. */
  function WindowHash<W>(a: Words<W>, table: Byte -> W, w: Bytes): W {
    if w == [] then a.zero else a.xor(Rotate(a, table(w[0]), |w| - 1), WindowHash(a, table, w[1..]))
  }

  /** The last WINDOW bytes of `w`, or all of it. */
  function Trailing(w: Bytes): (t: Bytes)
    ensures |t| <= WINDOW
    ensures |w| <= WINDOW ==> t == w
    ensures |w| >= WINDOW ==> |t| == WINDOW
  {
    if |w| <= WINDOW then w else w[|w| - WINDOW..]
  }

  /** The hash after the loop body of `chunk` has run over every byte of `w`, from a zero hash. */
  function RunHash<W>(a: Words<W>, table: Byte -> W, w: Bytes): W {
    if w == [] then a.zero else HashStep(a, table, w, |w| - 1, RunHash(a, table, w[..|w| - 1]))
  }

  /** One pass of the loop body: the byte at `i` enters, the byte at `i - WINDOW` leaves. */
  function HashStep<W>(a: Words<W>, table: Byte -> W, data: Bytes, i: nat, hash: W): W
    requires i < |data|
  {
    var entered := a.xor(a.turn(hash), table(data[i]));
    if i >= WINDOW then a.xor(entered, Rotate(a, table(data[i - WINDOW]), WINDOW)) else entered
  }

  /** Appending a byte turns every contribution by one and adds the new byte's word. */
  lemma {:induction false} WindowHashAppend<W(!new)>(a: Words<W>, table: Byte -> W, w: Bytes, b: Byte)
    requires Lawful(a)
    ensures WindowHash(a, table, w + [b]) == a.xor(a.turn(WindowHash(a, table, w)), table(b))
  {
    if w == [] {
      assert (w + [b])[1..] == [];
    } else {
      assert (w + [b])[1..] == w[1..] + [b];
      WindowHashAppend(a, table, w[1..], b);
    }
  }

  /** XOR-ing out the oldest byte's fully turned word removes exactly that byte. */
  lemma WindowHashSlide<W(!new)>(a: Words<W>, table: Byte -> W, w: Bytes)
    requires Lawful(a)
    requires w != []
    ensures a.xor(WindowHash(a, table, w), Rotate(a, table(w[0]), |w| - 1)) == WindowHash(a, table, w[1..])
  {
  }

  /** The incremental hash equals the closed form over the trailing window: the rotate-by-WINDOW
      XOR removes exactly the contribution of the byte that leaves. */
  lemma {:induction false} RunHashIsWindowHash<W(!new)>(a: Words<W>, table: Byte -> W, w: Bytes)
    requires Lawful(a)
    ensures RunHash(a, table, w) == WindowHash(a, table, Trailing(w))
  {
    if w != [] {
      var i := |w| - 1;
      RunHashIsWindowHash(a, table, w[..i]);
      WindowHashStep(a, table, w);
    }
  }

  lemma WindowHashStep<W(!new)>(a: Words<W>, table: Byte -> W, w: Bytes)
    requires Lawful(a)
    requires w != []
    ensures HashStep(a, table, w, |w| - 1, WindowHash(a, table, Trailing(w[..|w| - 1]))) == WindowHash(a, table, Trailing(w))
  {
    var i := |w| - 1;
    var grown := Trailing(w[..i]) + [w[i]];
    WindowHashAppend(a, table, Trailing(w[..i]), w[i]);
    if i >= WINDOW {
      assert grown[0] == w[i - WINDOW];
      assert grown[1..] == Trailing(w);
      WindowHashSlide(a, table, grown);
    } else {
      assert grown == Trailing(w);
    }
  }

  /** The hash depends only on the last WINDOW bytes: histories that end in the same WINDOW bytes
      have the same hash, whatever came before. */
  lemma HashForgetsHistory<W(!new)>(a: Words<W>, table: Byte -> W, v: Bytes, w: Bytes, shared: Bytes)
    requires Lawful(a)
    requires |shared| >= WINDOW
    ensures RunHash(a, table, v + shared) == RunHash(a, table, w + shared) == RunHash(a, table, shared)
  {
    RunHashIsWindowHash(a, table, v + shared);
    RunHashIsWindowHash(a, table, w + shared);
    RunHashIsWindowHash(a, table, shared);
    assert Trailing(v + shared) == Trailing(shared);
    assert Trailing(w + shared) == Trailing(shared);
  }
}
