/** The provider lease of lease.rs: a merge of two leases, folded over any gossip pattern. */
module Leases {
  import opened Basics
  import opened Clocks

  /** An f32 as the comparisons of the source see it: `!=` is true and `>` is false on NaN. */
  datatype Score = NaN | NegativeInfinity | Finite(value: real) | PositiveInfinity

  predicate Differ(a: Score, b: Score) {
    a.NaN? || b.NaN? || a != b
  }

  predicate Greater(a: Score, b: Score) {
    match (a, b)
    case (NaN, _) => false
    case (_, NaN) => false
    case (PositiveInfinity, _) => b != PositiveInfinity
    case (NegativeInfinity, _) => false
    case (Finite(x), Finite(y)) => x > y
    case (Finite(_), _) => b == NegativeInfinity
  }

  datatype Lease = Lease(epoch: nat, holder: string, score: Score, renewedAt: Hlc)

  /** `merge_lease`. */
  function Merge(a: Lease, b: Lease): Lease {
    if a.epoch != b.epoch then
      if a.epoch > b.epoch then a else b
    else if Differ(a.score, b.score) then
      if Greater(a.score, b.score) then a else b
    else if LexLeq(a.holder, b.holder) then a else b
  }

  /** Within an epoch, both ways round: the larger number wins, an infinity is larger or smaller than every
      number, and a NaN on either side names the second lease. */
  lemma ScoreDecides(a: Lease, b: Lease)
    requires a.epoch == b.epoch
    ensures a.score.Finite? && b.score.Finite? && a.score.value < b.score.value ==> Merge(a, b) == b && Merge(b, a) == b
    ensures !a.score.PositiveInfinity? && !a.score.NaN? && b.score.PositiveInfinity? ==>
      Merge(a, b) == b && Merge(b, a) == b
    ensures a.score.NegativeInfinity? && !b.score.NegativeInfinity? && !b.score.NaN? ==>
      Merge(a, b) == b && Merge(b, a) == b
    ensures a.score.NaN? || b.score.NaN? ==> Merge(a, b) == b
  {
  }

  /** The later epoch wins; within one epoch and score, the holder that comes first. */
  lemma EpochAndHolderDecide(a: Lease, b: Lease)
    ensures a.epoch < b.epoch ==> Merge(a, b) == b && Merge(b, a) == b
    ensures a.epoch == b.epoch && a.score == b.score && !a.score.NaN? ==>
      Merge(a, b) == if NotAfter(a.holder, b.holder) then a else b
  {
    LexLeqIff(a.holder, b.holder);
  }

  /** The part of a lease the merge compares. */
  datatype Claim = Claim(epoch: nat, score: Score, holder: string)

  function ClaimOf(l: Lease): Claim {
    Claim(l.epoch, l.score, l.holder)
  }

  /** `a` is at least as good a claim as `b`: later epoch, then better score, then smaller key. */
  predicate Beats(a: Claim, b: Claim) {
    || a.epoch > b.epoch
    || (a.epoch == b.epoch && Greater(a.score, b.score))
    || (a.epoch == b.epoch && a.score == b.score && LexLeq(a.holder, b.holder))
  }

  /** Merging either way round names the same winner exactly when no NaN decides: the epochs differ,
      both scores are numbers, or the claims are the same. */
  lemma MergeCommutesIff(a: Lease, b: Lease)
    ensures ClaimOf(Merge(a, b)) == ClaimOf(Merge(b, a)) <==>
      a.epoch != b.epoch || (!a.score.NaN? && !b.score.NaN?) || ClaimOf(a) == ClaimOf(b)
  {
    LexTotal(a.holder, b.holder);
    if LexLeq(a.holder, b.holder) && LexLeq(b.holder, a.holder) {
      LexAntisymmetric(a.holder, b.holder);
    }
  }

  lemma MergeIsBest(a: Lease, b: Lease)
    requires !a.score.NaN? && !b.score.NaN?
    ensures Merge(a, b) == a || Merge(a, b) == b
    ensures Beats(ClaimOf(Merge(a, b)), ClaimOf(a)) && Beats(ClaimOf(Merge(a, b)), ClaimOf(b))
  {
    LexTotal(a.holder, b.holder);
    LexTotal(a.holder, a.holder);
    LexTotal(b.holder, b.holder);
  }

  lemma BeatsTransitive(a: Claim, b: Claim, c: Claim)
    requires Beats(a, b) && Beats(b, c)
    ensures Beats(a, c)
  {
    if LexLeq(a.holder, b.holder) && LexLeq(b.holder, c.holder) {
      LexTransitive(a.holder, b.holder, c.holder);
    }
  }

  lemma BeatsAntisymmetric(a: Claim, b: Claim)
    requires !a.score.NaN? && !b.score.NaN?
    requires Beats(a, b) && Beats(b, a)
    ensures a == b
  {
    if LexLeq(a.holder, b.holder) && LexLeq(b.holder, a.holder) {
      LexAntisymmetric(a.holder, b.holder);
    }
  }

  /** How a replica came by its lease: a lease it saw, or the merge of two others. */
  datatype Gossip = Seen(lease: Lease) | Merged(left: Gossip, right: Gossip)

  function Winner(g: Gossip): Lease {
    match g
    case Seen(l) => l
    case Merged(x, y) => Merge(Winner(x), Winner(y))
  }

  /** Every claim that went into `g`. */
  function Claims(g: Gossip): set<Claim> {
    match g
    case Seen(l) => {ClaimOf(l)}
    case Merged(x, y) => Claims(x) + Claims(y)
  }

  ghost predicate NoNaN(g: Gossip) {
    forall c :: c in Claims(g) ==> !c.score.NaN?
  }

  lemma {:induction false} WinnerBeatsAll(g: Gossip)
    requires NoNaN(g)
    ensures ClaimOf(Winner(g)) in Claims(g)
    ensures forall c :: c in Claims(g) ==> Beats(ClaimOf(Winner(g)), c)
  {
    match g
    case Seen(l) =>
      LexTotal(l.holder, l.holder);
    case Merged(x, y) =>
      WinnerBeatsAll(x);
      WinnerBeatsAll(y);
      MergeIsBest(Winner(x), Winner(y));
      forall c | c in Claims(g)
        ensures Beats(ClaimOf(Winner(g)), c)
      {
        BeatsTransitive(ClaimOf(Winner(g)), ClaimOf(if c in Claims(x) then Winner(x) else Winner(y)), c);
      }
  }

  /** The score is a number at or above `level`, or infinity. */
  predicate Reaches(s: Score, level: real) {
    s.PositiveInfinity? || (s.Finite? && s.value >= level)
  }

  /** What the winner of any pattern of merges is among the claims that went in: none has a later epoch;
      none of its epoch reaches a level its score does not; none of its epoch and score has a holder that
      comes before its holder. */
  lemma WinnerIsBest(g: Gossip)
    requires NoNaN(g)
    ensures ClaimOf(Winner(g)) in Claims(g)
    ensures
      var w := ClaimOf(Winner(g));
      forall c :: c in Claims(g) ==>
        && c.epoch <= w.epoch
        && (c.epoch == w.epoch ==> forall level :: Reaches(c.score, level) ==> Reaches(w.score, level))
        && (c.epoch == w.epoch && c.score == w.score ==> NotAfter(w.holder, c.holder))
  {
    WinnerBeatsAll(g);
    forall c | c in Claims(g) {
      LexLeqIff(ClaimOf(Winner(g)).holder, c.holder);
    }
  }

  /** Replicas that have seen the same claims agree on the winner, whatever the order, grouping or
      repetition in which they merged them. `renewed_at` is never compared and may differ. */
  lemma SameClaimsSameWinner(g: Gossip, f: Gossip)
    requires Claims(g) == Claims(f) && NoNaN(g)
    ensures ClaimOf(Winner(g)) == ClaimOf(Winner(f))
  {
    WinnerBeatsAll(g);
    WinnerBeatsAll(f);
    BeatsAntisymmetric(ClaimOf(Winner(g)), ClaimOf(Winner(f)));
  }
}
