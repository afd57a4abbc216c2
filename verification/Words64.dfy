/** Rust's `u64` with `rotate_left` and `^`, as the words the rolling hash runs on. */
module Words64 {
  import opened Basics
  import opened RollingHash

  type Word = bv64

  /** `x.rotate_left(1)`. */
  function RotateOne(x: Word): Word {
    (x << 1) | (x >> 63)
  }

  function Xor(x: Word, y: Word): Word {
    x ^ y
  }

  /** `x.rotate_left(WINDOW % 64)`, that is by 48. */
  function RotateWindow(x: Word): Word {
    (x << 48) | (x >> 16)
  }

  const U64: Words<Word> := Words(0, RotateOne, Xor)

  /** Both rotations are Dafny's own. */
  lemma RotationsAreLeftRotations(x: Word)
    ensures RotateOne(x) == x.RotateLeft(1)
    ensures RotateWindow(x) == x.RotateLeft(48)
  {
  }

  lemma XorAssociative(x: Word, y: Word, z: Word, xy: Word, yz: Word)
    requires xy == x ^ y && yz == y ^ z
    ensures Xor(xy, z) == Xor(x, yz)
  {
  }

  lemma XorCancelling(x: Word, y: Word)
    ensures (x ^ y) ^ x == y
  {
  }

  lemma RotateOneXor(x: Word, y: Word)
    ensures RotateOne(Xor(x, y)) == Xor(RotateOne(x), RotateOne(y))
  {
  }

  lemma U64TurnsDistribute()
    ensures TurnsDistribute(U64)
  {
    forall x: Word, y: Word {:trigger U64.turn(U64.xor(x, y))}
      ensures U64.turn(U64.xor(x, y)) == U64.xor(U64.turn(x), U64.turn(y))
    {
      RotateOneXor(x, y);
    }
  }

  lemma U64XorAssociates()
    ensures XorAssociates(U64)
  {
    forall x: Word, y: Word, z: Word {:trigger U64.xor(U64.xor(x, y), z)}
      ensures U64.xor(U64.xor(x, y), z) == U64.xor(x, U64.xor(y, z))
    {
      XorAssociative(x, y, z, Xor(x, y), Xor(y, z));
    }
  }

  lemma U64XorCancels()
    ensures XorCancels(U64)
  {
    forall x: Word, y: Word {:trigger U64.xor(U64.xor(x, y), x)}
      ensures U64.xor(U64.xor(x, y), x) == y
    {
      XorCancelling(x, y);
    }
  }

  lemma U64ZeroIsNeutral()
    ensures ZeroIsNeutral(U64)
  {
  }

  /** The words of the source obey every law the rolling hash needs. */
  lemma U64IsLawful()
    ensures Lawful(U64)
  {
    U64TurnsDistribute();
    U64XorAssociates();
    U64XorCancels();
    U64ZeroIsNeutral();
  }

  lemma {:induction false} RotateAdd(x: Word, j: nat, k: nat)
    ensures Rotate(U64, x, j + k) == Rotate(U64, Rotate(U64, x, j), k)
  {
    if k > 0 {
      RotateAdd(x, j, k - 1);
    }
  }

  // Rotations by literal distances compose. These facts are about bit vectors only.

  lemma TurnTwo(x: Word)
    ensures RotateOne(RotateOne(x)) == (x << 2) | (x >> 62)
  {
  }

  lemma TurnFour(x: Word, y: Word)
    requires y == (x << 2) | (x >> 62)
    ensures (y << 2) | (y >> 62) == (x << 4) | (x >> 60)
  {
  }

  lemma TurnEight(x: Word, y: Word)
    requires y == (x << 4) | (x >> 60)
    ensures (y << 4) | (y >> 60) == (x << 8) | (x >> 56)
  {
  }

  lemma TurnSixteen(x: Word, y: Word)
    requires y == (x << 8) | (x >> 56)
    ensures (y << 8) | (y >> 56) == (x << 16) | (x >> 48)
  {
  }

  lemma TurnThirtyTwo(x: Word, y: Word)
    requires y == (x << 16) | (x >> 48)
    ensures (y << 16) | (y >> 48) == (x << 32) | (x >> 32)
  {
  }

  lemma TurnFortyEight(x: Word, y: Word)
    requires y == (x << 32) | (x >> 32)
    ensures (y << 16) | (y >> 48) == RotateWindow(x)
  {
  }

  lemma RotateTwo(x: Word)
    ensures Rotate(U64, x, 2) == (x << 2) | (x >> 62)
  {
    RotateAdd(x, 1, 1);
    TurnTwo(x);
  }

  lemma RotateFour(x: Word)
    ensures Rotate(U64, x, 4) == (x << 4) | (x >> 60)
  {
    RotateAdd(x, 2, 2);
    RotateTwo(x);
    RotateTwo(Rotate(U64, x, 2));
    TurnFour(x, Rotate(U64, x, 2));
  }

  lemma RotateEight(x: Word)
    ensures Rotate(U64, x, 8) == (x << 8) | (x >> 56)
  {
    RotateAdd(x, 4, 4);
    RotateFour(x);
    RotateFour(Rotate(U64, x, 4));
    TurnEight(x, Rotate(U64, x, 4));
  }

  lemma RotateSixteen(x: Word)
    ensures Rotate(U64, x, 16) == (x << 16) | (x >> 48)
  {
    RotateAdd(x, 8, 8);
    RotateEight(x);
    RotateEight(Rotate(U64, x, 8));
    TurnSixteen(x, Rotate(U64, x, 8));
  }

  lemma RotateThirtyTwo(x: Word)
    ensures Rotate(U64, x, 32) == (x << 32) | (x >> 32)
  {
    RotateAdd(x, 16, 16);
    RotateSixteen(x);
    RotateSixteen(Rotate(U64, x, 16));
    TurnThirtyTwo(x, Rotate(U64, x, 16));
  }

  /** Forty-eight one-bit rotations are one rotation by forty-eight. */
  lemma RotateWindowIsRotate(x: Word)
    ensures RotateWindow(x) == Rotate(U64, x, WINDOW)
  {
    RotateAdd(x, 32, 16);
    RotateThirtyTwo(x);
    RotateSixteen(Rotate(U64, x, 32));
    TurnFortyEight(x, Rotate(U64, x, 32));
  }

  /** The rolling 64-bit hash is the closed form over the trailing window. */
  lemma RunHash64(table: Byte -> Word, w: Bytes)
    ensures RunHash(U64, table, w) == WindowHash(U64, table, Trailing(w))
  {
    U64IsLawful();
    RunHashIsWindowHash(U64, table, w);
  }
}
