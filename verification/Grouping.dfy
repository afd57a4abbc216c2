/** Associativity of merge, claimed at manifest.rs:90-92: exactly when it holds of three writes to one
    path, ties included. */
module Grouping {
  import opened Basics
  import opened Clocks
  import opened Manifests
  import opened MergeLaws

  /** Both groupings of three manifests give the same result, for every iteration order of all four merges. */
  ghost predicate AlwaysAssociates(a: Entries, b: Entries, c: Entries) {
    forall ab, abThenC, bc, aThenBc ::
      IsMerge(a, b, ab) && IsMerge(ab, c, abThenC) && IsMerge(b, c, bc) && IsMerge(a, bc, aThenBc) ==>
        abThenC == aThenBc
  }

  predicate AllTied(x: Entry, y: Entry, z: Entry) {
    Tie(x, y) && Tie(y, z) && Tie(x, z)
  }

  /** Both losers of three tied writes, in the order they are met, get the same conflict name. */
  predicate CopiesCollide(x: Entry, y: Entry, z: Entry) {
    AllTied(x, y, z) && Short(Loser(x, y).author) == Short(Loser(Winner(x, y), z).author)
  }

  /** What the three writes must satisfy when the copy of a tie between `y` and `z` has a safe name: no tie
      is met by a newer write on its other side only, no entry is offered again around an equal-key tie, and
      three tied writes do not contend for one conflict name. */
  predicate GroupsWithCopy(x: Entry, y: Entry, z: Entry) {
    && !(Tie(x, y) && Less(x.hlc, z.hlc))
    && !(Tie(y, z) && Less(y.hlc, x.hlc))
    && !(x == z && Tie(x, y) && ContentKey(x) == ContentKey(y))
    && !CopiesCollide(x, y, z)
  }

  /** The same when `y` and `z` tie and `apply` refuses the path of their conflict copy, which is then
      lost if the copy reaches a third manifest by a merge. */
  predicate GroupsWithoutCopy(x: Entry, y: Entry, z: Entry) {
    || Less(y.hlc, x.hlc)
    || (x == y && Winner(x, z) == z)
    || (x == z && Winner(x, y) == y && Winner(y, x) == y)
    || (CopiesCollide(x, y, z) && Loser(x, y) == Loser(x, Winner(y, z)))
  }

  predicate GroupsAlike(x: Entry, y: Entry, z: Entry) {
    if Tie(y, z) && !PlainAuthor(Loser(y, z).author) then GroupsWithoutCopy(x, y, z) else GroupsWithCopy(x, y, z)
  }

  // The merges by name

  lemma MergeOne(m: Entries, p: string, e: Entry, r: Entries)
    ensures IsMerge(m, map[p := e], r) <==> r == Applied(m, p, e)
  {
    hide Applied;
    var n := map[p := e];
    var one := [p];
    assert Enumerates(one, n.Keys);
    ReplayLast(m, n, one);
    assert Replay(m, Writes(n, one[..0])) == m;
    if IsMerge(m, n, r) {
      var order :| Enumerates(order, n.Keys) && r == Replay(m, Writes(n, order));
      OneOrder(order, p);
    }
  }

  lemma OneOrder(order: seq<string>, p: string)
    requires Enumerates(order, {p})
    ensures order == [p]
  {
    assert p in order;
    assert forall i :: 0 <= i < |order| ==> order[i] in order;
    EnumerationSize(order, {p});
  }

  lemma ReplayTwo(m: Entries, n: Entries, p: string, q: string)
    requires p in n && q in n
    ensures Replay(m, Writes(n, [p, q])) == Applied(Applied(m, p, n[p]), q, n[q])
  {
    hide Applied;
    ReplayLast(m, n, [p, q]);
    assert [p, q][..1] == [p];
    ReplayLast(m, n, [p]);
    assert Replay(m, Writes(n, [p][..0])) == m;
  }

  lemma MergeTwo(m: Entries, p: string, e: Entry, q: string, f: Entry, r: Entries)
    requires p != q
    ensures IsMerge(m, map[p := e, q := f], r) <==>
      r == Applied(Applied(m, p, e), q, f) || r == Applied(Applied(m, q, f), p, e)
  {
    hide Applied, Replay;
    var n := map[p := e, q := f];
    ReplayTwo(m, n, p, q);
    ReplayTwo(m, n, q, p);
    assert Enumerates([p, q], n.Keys) && Enumerates([q, p], n.Keys);
    if IsMerge(m, n, r) {
      var order :| Enumerates(order, n.Keys) && r == Replay(m, Writes(n, order));
      TwoOrders(order, p, q);
    }
  }

  lemma TwoOrders(order: seq<string>, p: string, q: string)
    requires p != q && Enumerates(order, {p, q})
    ensures order == [p, q] || order == [q, p]
  {
    assert p in order && q in order;
    assert forall i :: 0 <= i < |order| ==> order[i] in order;
    EnumerationSize(order, {p, q});
  }

  function Copy(p: string, e: Entry): string {
    ConflictPath(p, e.author)
  }

  lemma CopyNames(p: string, e: Entry, f: Entry)
    ensures Copy(p, e) != p && |Copy(p, e)| > |p|
    ensures Copy(p, e) == Copy(p, f) <==> Short(e.author) == Short(f.author)
  {
    if Copy(p, e) == Copy(p, f) {
      ConflictNameUnique(p, e.author, p, f.author);
    }
  }

  /** What a tie at `p` adds. */
  function WithCopy(m: Entries, p: string, x: Entry, y: Entry): Entries {
    if Tie(x, y) then InsertIfFree(m, Copy(p, Loser(x, y)), Loser(x, y)) else m
  }

  lemma AppliedHeld(m: Entries, p: string, e: Entry)
    requires SafePath(p) && p in m
    ensures Applied(m, p, e) == WithCopy(m[p := Winner(m[p], e)], p, m[p], e)
  {
  }

  function Left(p: string, x: Entry, y: Entry, z: Entry): Entries {
    WithCopy(WithCopy(map[p := Winner(Winner(x, y), z)], p, x, y), p, Winner(x, y), z)
  }

  function Right(p: string, x: Entry, y: Entry, z: Entry): Entries {
    WithCopy(map[p := Winner(x, Winner(y, z))], p, x, Winner(y, z))
  }

  lemma LeftMerges(p: string, x: Entry, y: Entry, z: Entry)
    requires SafePath(p)
    ensures Applied(Applied(map[p := x], p, y), p, z) == Left(p, x, y, z)
  {
    hide Winner, Loser, Tie, ConflictPath;
    AppliedHeld(map[p := x], p, y);
    AppliedHeld(Applied(map[p := x], p, y), p, z);
    CopyNames(p, Loser(x, y), x);
  }

  /** One order visits the path first, the other the copy that came with it. */
  function PathFirst(p: string, x: Entry, y: Entry, z: Entry): Entries {
    Applied(Right(p, x, y, z), Copy(p, Loser(y, z)), Loser(y, z))
  }

  function CopyFirst(p: string, x: Entry, y: Entry, z: Entry): Entries {
    WithCopy(map[p := Winner(x, Winner(y, z)), Copy(p, Loser(y, z)) := Loser(y, z)], p, x, Winner(y, z))
  }

  lemma RightMerges(p: string, x: Entry, y: Entry, z: Entry, r: Entries)
    requires SafePath(p)
    ensures IsMerge(map[p := x], Applied(map[p := y], p, z), r) <==>
      if Tie(y, z) && PlainAuthor(Loser(y, z).author)
      then r == PathFirst(p, x, y, z) || r == CopyFirst(p, x, y, z)
      else r == Right(p, x, y, z)
  {
    hide IsMerge, Winner, Loser, Tie, ConflictPath, SafePath, PlainAuthor, WithCopy, Applied;
    var w, l := Winner(y, z), Loser(y, z);
    var c := Copy(p, l);
    CopyNames(p, l, l);
    ConflictPathSafeIff(p, l.author);
    HeldMerges(p, x, y, z);
    if Tie(y, z) {
      MergeTwo(map[p := x], p, w, c, l, r);
      CopyMerges(p, x, y, z);
    } else {
      MergeOne(map[p := x], p, w, r);
    }
  }

  lemma HeldMerges(p: string, x: Entry, y: Entry, z: Entry)
    requires SafePath(p)
    ensures Applied(map[p := x], p, Winner(y, z)) == Right(p, x, y, z)
    ensures Applied(map[p := y], p, z) ==
      if Tie(y, z) then map[p := Winner(y, z), Copy(p, Loser(y, z)) := Loser(y, z)] else map[p := Winner(y, z)]
  {
    hide Winner, Loser, Tie, ConflictPath, SafePath, Applied;
    CopyNames(p, Loser(y, z), y);
    AppliedHeld(map[p := x], p, Winner(y, z));
    AppliedHeld(map[p := y], p, z);
  }

  lemma CopyMerges(p: string, x: Entry, y: Entry, z: Entry)
    requires SafePath(p)
    ensures
      var c, l := Copy(p, Loser(y, z)), Loser(y, z);
      if SafePath(c)
      then Applied(Applied(map[p := x], c, l), p, Winner(y, z)) == CopyFirst(p, x, y, z)
      else
        && Applied(Applied(map[p := x], c, l), p, Winner(y, z)) == Right(p, x, y, z)
        && Applied(Right(p, x, y, z), c, l) == Right(p, x, y, z)
  {
    hide Winner, Loser, Tie, ConflictPath, SafePath, WithCopy;
    var c, l := Copy(p, Loser(y, z)), Loser(y, z);
    CopyNames(p, l, l);
    HeldMerges(p, x, y, z);
    var m := Applied(map[p := x], c, l);
    assert p in m && m[p] == x;
    AppliedHeld(m, p, Winner(y, z));
    assert SafePath(c) ==> m[p := Winner(x, Winner(y, z))] == map[p := Winner(x, Winner(y, z)), c := l];
  }

  // The comparison

  /** The names of all copies in play, and the order of content keys. */
  lemma Names(p: string, x: Entry, y: Entry, z: Entry)
    ensures forall e, f :: e in {x, y, z} && f in {x, y, z} ==>
      Copy(p, e) != p && |Copy(p, e)| > |p| && (Copy(p, e) == Copy(p, f) <==> Short(e.author) == Short(f.author))
  {
    hide Copy, Short;
    forall e, f | e in {x, y, z} && f in {x, y, z}
      ensures Copy(p, e) != p && |Copy(p, e)| > |p|
      ensures Copy(p, e) == Copy(p, f) <==> Short(e.author) == Short(f.author)
    {
      CopyNames(p, e, f);
    }
  }

  predicate Below(e: Entry, f: Entry) {
    LexLeq(ContentKey(e), ContentKey(f))
  }

  lemma BelowOrdered(x: Entry, y: Entry, z: Entry)
    ensures forall e, f :: e in {x, y, z} && f in {x, y, z} ==>
      (Below(e, f) || Below(f, e)) && (Below(e, f) && Below(f, e) <==> ContentKey(e) == ContentKey(f))
    ensures forall e, f, g :: e in {x, y, z} && f in {x, y, z} && g in {x, y, z} && Below(e, f) && Below(f, g) ==>
      Below(e, g)
  {
    forall e, f | e in {x, y, z} && f in {x, y, z}
      ensures Below(e, f) || Below(f, e)
      ensures Below(e, f) && Below(f, e) <==> ContentKey(e) == ContentKey(f)
    {
      LexTotal(ContentKey(e), ContentKey(f));
      if Below(e, f) && Below(f, e) {
        LexAntisymmetric(ContentKey(e), ContentKey(f));
      }
    }
    forall e, f, g | e in {x, y, z} && f in {x, y, z} && g in {x, y, z} && Below(e, f) && Below(f, g)
      ensures Below(e, g)
    {
      LexTransitive(ContentKey(e), ContentKey(f), ContentKey(g));
    }
  }

  lemma WinnerBelow(e: Entry, f: Entry)
    ensures Winner(e, f) == if Less(e.hlc, f.hlc) || (Tie(e, f) && Below(e, f)) then f else e
  {
  }

  lemma UntiedIff(p: string, x: Entry, y: Entry, z: Entry)
    requires !Tie(y, z)
    ensures Left(p, x, y, z) == Right(p, x, y, z) <==> GroupsWithCopy(x, y, z)
  {
    hide Copy, Short, ContentKey, LexLeq;
    Names(p, x, y, z);
    BelowOrdered(x, y, z);
  }

  /** `y` and `z` tie; the cases are where `x` stands. */
  lemma FirstNewer(p: string, x: Entry, y: Entry, z: Entry)
    requires Tie(y, z) && Less(y.hlc, x.hlc)
    ensures Left(p, x, y, z) == Right(p, x, y, z) == map[p := x]
    ensures SafePath(Copy(p, Loser(y, z))) ==> Left(p, x, y, z) != PathFirst(p, x, y, z)
  {
    hide Copy, Short, ContentKey, LexLeq, SafePath;
    Names(p, x, y, z);
  }

  lemma FirstOlder(p: string, x: Entry, y: Entry, z: Entry)
    requires Tie(y, z) && Less(x.hlc, y.hlc)
    ensures Left(p, x, y, z) != Right(p, x, y, z)
    ensures SafePath(Copy(p, Loser(y, z))) ==>
      Left(p, x, y, z) == PathFirst(p, x, y, z) == CopyFirst(p, x, y, z)
  {
    hide Copy, Short, ContentKey, LexLeq, SafePath;
    Names(p, x, y, z);
  }

  lemma FirstIsSecond(p: string, y: Entry, z: Entry)
    requires Tie(y, z)
    ensures Left(p, y, y, z) == Right(p, y, y, z) <==> Winner(y, z) == z
    ensures SafePath(Copy(p, Loser(y, z))) ==>
      Left(p, y, y, z) == PathFirst(p, y, y, z) == CopyFirst(p, y, y, z)
  {
    hide Copy, Short, ContentKey, LexLeq, SafePath;
    Names(p, y, y, z);
  }

  lemma FirstIsThird(p: string, y: Entry, z: Entry)
    requires Tie(y, z)
    ensures Left(p, z, y, z) == Right(p, z, y, z) <==> Winner(z, y) == y && Winner(y, z) == y
    ensures SafePath(Copy(p, Loser(y, z))) ==>
      (Left(p, z, y, z) == PathFirst(p, z, y, z) && Left(p, z, y, z) == CopyFirst(p, z, y, z) <==>
        ContentKey(y) != ContentKey(z))
  {
    hide Copy, Short, ContentKey, LexLeq, SafePath;
    Names(p, y, y, z);
    BelowOrdered(y, y, z);
    WinnerBelow(y, z);
    WinnerBelow(z, y);
    var w, l := Winner(y, z), Loser(y, z);
    if ContentKey(y) != ContentKey(z) {
      assert Left(p, z, y, z) == map[p := w, Copy(p, l) := l];
      assert CopyFirst(p, z, y, z) == map[p := w, Copy(p, l) := l];
      assert SafePath(Copy(p, l)) ==> PathFirst(p, z, y, z) == map[p := w, Copy(p, l) := l];
    } else {
      assert CopyFirst(p, z, y, z) == map[p := z, Copy(p, y) := y];
      assert Left(p, z, y, z)[Copy(p, z)] == z;
    }
  }

  /** Three tied writes: both groupings keep the same one and part with the same two. */
  lemma LosersAgree(x: Entry, y: Entry, z: Entry)
    requires AllTied(x, y, z)
    ensures Winner(Winner(x, y), z) == Winner(x, Winner(y, z))
    ensures
      var l1, l2 := Loser(x, y), Loser(Winner(x, y), z);
      var l3, l4 := Loser(y, z), Loser(x, Winner(y, z));
      Tie(l1, l2) && ((l3 == l1 && l4 == l2) || (l3 == l2 && l4 == l1))
  {
    hide Below;
    BelowOrdered(x, y, z);
    WinnersBelow(x, y, z);
  }

  lemma WinnersBelow(x: Entry, y: Entry, z: Entry)
    requires AllTied(x, y, z)
    ensures forall e, f :: e in {x, y, z} && f in {x, y, z} && e != f ==> Winner(e, f) == if Below(e, f) then f else e
  {
    hide Below;
    forall e, f | e in {x, y, z} && f in {x, y, z} && e != f
      ensures Winner(e, f) == if Below(e, f) then f else e
    {
      WinnerBelow(e, f);
    }
  }

  /** One entry and two copies of it; the second copy needs its name free. */
  function WithTwo(p: string, w: Entry, l: Entry, k: Entry): Entries {
    InsertIfFree(map[p := w, Copy(p, l) := l], Copy(p, k), k)
  }

  lemma TwoSame(p: string, w: Entry, l: Entry, k: Entry)
    requires Copy(p, l) != p && Copy(p, k) != p && l != k
    ensures WithTwo(p, w, l, k) == WithTwo(p, w, k, l) <==> Copy(p, l) != Copy(p, k)
    ensures WithTwo(p, w, l, k) == map[p := w, Copy(p, l) := l] <==> Copy(p, l) == Copy(p, k)
    ensures WithTwo(p, w, l, k) != map[p := w, Copy(p, k) := k]
    ensures Copy(p, l) == Copy(p, k) ==> WithTwo(p, w, l, k).Keys == {p, Copy(p, l)}
  {
    hide Copy;
    assert Copy(p, l) in WithTwo(p, w, l, k) && WithTwo(p, w, l, k)[Copy(p, l)] == l;
    assert Copy(p, k) in WithTwo(p, w, l, k);
  }

  lemma AllTiedForms(p: string, x: Entry, y: Entry, z: Entry)
    requires AllTied(x, y, z)
    ensures
      var w, l3, l4 := Winner(Winner(x, y), z), Loser(y, z), Loser(x, Winner(y, z));
      && Left(p, x, y, z) == WithTwo(p, w, Loser(x, y), Loser(Winner(x, y), z))
      && Right(p, x, y, z) == map[p := w, Copy(p, l4) := l4]
      && CopyFirst(p, x, y, z) == WithTwo(p, w, l3, l4)
  {
    hide Copy, Winner, Loser, SafePath;
    LosersAgree(x, y, z);
    LoserIsEither(x, y, z);
    CopyNames(p, Loser(x, y), x);
    CopyNames(p, Loser(y, z), x);
    CopyNames(p, Loser(x, Winner(y, z)), x);
  }

  lemma PathFirstForm(p: string, x: Entry, y: Entry, z: Entry)
    requires AllTied(x, y, z) && SafePath(Copy(p, Loser(y, z)))
    ensures
      var w, l3, l4 := Winner(Winner(x, y), z), Loser(y, z), Loser(x, Winner(y, z));
      if Copy(p, l3) == Copy(p, l4)
      then !(PathFirst(p, x, y, z).Keys <= {p, Copy(p, l3)})
      else PathFirst(p, x, y, z) == WithTwo(p, w, l4, l3)
  {
    hide Copy, Winner, Loser, SafePath, Right;
    LosersAgree(x, y, z);
    AllTiedForms(p, x, y, z);
    var l3, l4 := Loser(y, z), Loser(x, Winner(y, z));
    CopyNames(p, l3, l4);
    if Copy(p, l3) == Copy(p, l4) {
      TieAddsKey(Right(p, x, y, z), Copy(p, l3), l3);
      CopyNames(Copy(p, l3), Loser(l4, l3), l3);
      assert Copy(Copy(p, l3), Loser(l4, l3)) in PathFirst(p, x, y, z).Keys;
    }
  }

  lemma AllTiedRefused(p: string, x: Entry, y: Entry, z: Entry)
    requires AllTied(x, y, z)
    ensures Left(p, x, y, z) == Right(p, x, y, z) <==>
      CopiesCollide(x, y, z) && Loser(x, y) == Loser(x, Winner(y, z))
  {
    hide Copy, Short, Winner, Loser, Left, Right, WithTwo;
    LosersAgree(x, y, z);
    AllTiedForms(p, x, y, z);
    var w, l1, l2 := Winner(Winner(x, y), z), Loser(x, y), Loser(Winner(x, y), z);
    CopyNames(p, l1, l2);
    CopyNames(p, l2, l1);
    TwoSame(p, w, l1, l2);
  }

  lemma LoserIsEither(x: Entry, y: Entry, z: Entry)
    ensures Winner(x, y) in {x, y} && Winner(y, z) in {y, z}
    ensures Loser(x, y) in {x, y} && Loser(y, z) in {y, z}
    ensures Loser(Winner(x, y), z) in {x, y, z} && Loser(x, Winner(y, z)) in {x, y, z}
    ensures AllTied(x, y, z) ==> Tie(Winner(x, y), z) && Tie(x, Winner(y, z))
  {
    hide ContentKey, LexLeq;
  }

  lemma AllTiedKept(p: string, x: Entry, y: Entry, z: Entry)
    requires AllTied(x, y, z) && SafePath(Copy(p, Loser(y, z)))
    ensures Left(p, x, y, z) == PathFirst(p, x, y, z) && Left(p, x, y, z) == CopyFirst(p, x, y, z) <==>
      !CopiesCollide(x, y, z)
  {
    hide Copy, Short, Winner, Loser, SafePath, Left, PathFirst, CopyFirst, WithTwo;
    LosersAgree(x, y, z);
    AllTiedForms(p, x, y, z);
    PathFirstForm(p, x, y, z);
    var w, l1, l2 := Winner(Winner(x, y), z), Loser(x, y), Loser(Winner(x, y), z);
    CopyNames(p, l1, l2);
    CopyNames(p, l2, l1);
    TwoSame(p, w, l1, l2);
  }

  lemma TieAddsKey(m: Entries, p: string, e: Entry)
    requires SafePath(p) && p in m && Tie(m[p], e)
    ensures Copy(p, Loser(m[p], e)) in Applied(m, p, e)
  {
  }

  lemma CopyRefusedIff(p: string, x: Entry, y: Entry, z: Entry)
    requires Tie(y, z)
    ensures Left(p, x, y, z) == Right(p, x, y, z) <==> GroupsWithoutCopy(x, y, z)
  {
    hide Copy, Short, Winner, Loser, Left, Right;
    if AllTied(x, y, z) {
      AllTiedRefused(p, x, y, z);
    } else if x == y {
      FirstIsSecond(p, y, z);
    } else if x == z {
      FirstIsThird(p, y, z);
    } else if Less(y.hlc, x.hlc) {
      FirstNewer(p, x, y, z);
    } else {
      FirstOlder(p, x, y, z);
    }
  }

  lemma CopyKeptIff(p: string, x: Entry, y: Entry, z: Entry)
    requires Tie(y, z) && SafePath(Copy(p, Loser(y, z)))
    ensures Left(p, x, y, z) == PathFirst(p, x, y, z) && Left(p, x, y, z) == CopyFirst(p, x, y, z) <==>
      GroupsWithCopy(x, y, z)
  {
    hide Copy, Short, Winner, Loser, Left, PathFirst, CopyFirst, SafePath, ContentKey;
    if AllTied(x, y, z) {
      AllTiedKept(p, x, y, z);
    } else if x == y {
      FirstIsSecond(p, y, z);
    } else if x == z {
      FirstIsThird(p, y, z);
    } else if Less(y.hlc, x.hlc) {
      FirstNewer(p, x, y, z);
    } else {
      FirstOlder(p, x, y, z);
    }
  }

  lemma GroupsAtUnsafePath(p: string, x: Entry, y: Entry, z: Entry)
    requires !SafePath(p)
    ensures AlwaysAssociates(map[p := x], map[p := y], map[p := z])
  {
    hide IsMerge, SafePath;
    var a, b, c := map[p := x], map[p := y], map[p := z];
    forall ab, abThenC, bc, aThenBc |
      IsMerge(a, b, ab) && IsMerge(ab, c, abThenC) && IsMerge(b, c, bc) && IsMerge(a, bc, aThenBc)
      ensures abThenC == aThenBc
    {
      MergeOne(a, p, y, ab);
      MergeOne(ab, p, z, abThenC);
      MergeOne(b, p, z, bc);
      MergeOne(a, p, y, aThenBc);
    }
  }

  /** Only the last merge of the right-hand grouping has a choice of order. */
  lemma OnlyTheseMerges(p: string, x: Entry, y: Entry, z: Entry)
    requires SafePath(p)
    ensures AlwaysAssociates(map[p := x], map[p := y], map[p := z]) <==>
      forall r :: IsMerge(map[p := x], Applied(map[p := y], p, z), r) ==> r == Left(p, x, y, z)
  {
    hide IsMerge, SafePath, Applied, Left;
    var a, b, c := map[p := x], map[p := y], map[p := z];
    var left, ab, bc := Left(p, x, y, z), Applied(a, p, y), Applied(b, p, z);
    LeftMerges(p, x, y, z);
    MergeOne(a, p, y, ab);
    MergeOne(ab, p, z, left);
    MergeOne(b, p, z, bc);
    if AlwaysAssociates(a, b, c) {
      forall r | IsMerge(a, bc, r)
        ensures r == left
      {
        assert IsMerge(a, b, ab) && IsMerge(ab, c, left) && IsMerge(b, c, bc);
      }
    } else {
      var ab', left', bc', r :|
        IsMerge(a, b, ab') && IsMerge(ab', c, left') && IsMerge(b, c, bc') && IsMerge(a, bc', r) && left' != r;
      MergeOne(a, p, y, ab');
      MergeOne(ab', p, z, left');
      MergeOne(b, p, z, bc');
    }
  }

  lemma AssociatesByForms(p: string, x: Entry, y: Entry, z: Entry)
    requires SafePath(p)
    ensures AlwaysAssociates(map[p := x], map[p := y], map[p := z]) <==>
      if Tie(y, z) && PlainAuthor(Loser(y, z).author)
      then Left(p, x, y, z) == PathFirst(p, x, y, z) && Left(p, x, y, z) == CopyFirst(p, x, y, z)
      else Left(p, x, y, z) == Right(p, x, y, z)
  {
    hide IsMerge, SafePath, Applied, Left, Right, PathFirst, CopyFirst, PlainAuthor, Tie, Loser, AlwaysAssociates;
    OnlyTheseMerges(p, x, y, z);
    var bc := Applied(map[p := y], p, z);
    forall r
      ensures IsMerge(map[p := x], bc, r) <==>
        if Tie(y, z) && PlainAuthor(Loser(y, z).author)
        then r == PathFirst(p, x, y, z) || r == CopyFirst(p, x, y, z)
        else r == Right(p, x, y, z)
    {
      RightMerges(p, x, y, z, r);
    }
    var a, b, c := map[p := x], map[p := y], map[p := z];
    var left := Left(p, x, y, z);
    assert AlwaysAssociates(a, b, c) <==> forall r :: IsMerge(a, bc, r) ==> r == left;
    if Tie(y, z) && PlainAuthor(Loser(y, z).author) {
      assert IsMerge(a, bc, PathFirst(p, x, y, z));
      assert IsMerge(a, bc, CopyFirst(p, x, y, z));
    } else {
      assert IsMerge(a, bc, Right(p, x, y, z));
    }
    assert (forall r :: IsMerge(a, bc, r) ==> r == left) <==>
      if Tie(y, z) && PlainAuthor(Loser(y, z).author)
      then left == PathFirst(p, x, y, z) && left == CopyFirst(p, x, y, z)
      else left == Right(p, x, y, z);
  }

  /** Exactly when merge is associative on three writes to one path, whatever iteration orders the merges
      use. */
  lemma OnePathAssociatesIff(p: string, x: Entry, y: Entry, z: Entry)
    ensures AlwaysAssociates(map[p := x], map[p := y], map[p := z]) <==> !SafePath(p) || GroupsAlike(x, y, z)
  {
    hide AlwaysAssociates, SafePath, Left, Right, PathFirst, CopyFirst, GroupsWithCopy, GroupsWithoutCopy,
      PlainAuthor, Tie, Loser, ConflictPath;
    if !SafePath(p) {
      GroupsAtUnsafePath(p, x, y, z);
    } else {
      AssociatesByForms(p, x, y, z);
      ConflictPathSafeIff(p, Loser(y, z).author);
      if !Tie(y, z) {
        UntiedIff(p, x, y, z);
      } else if PlainAuthor(Loser(y, z).author) {
        CopyKeptIff(p, x, y, z);
      } else {
        CopyRefusedIff(p, x, y, z);
      }
    }
  }

  const BY_ALICE := Entry(["x"], 1, Hlc(5, 0), "alice", false)
  const BY_BOB := Entry(["y"], 1, Hlc(5, 0), "bob", false)
  const NEWER := Entry(["z"], 1, Hlc(6, 0), "carol", false)

  /** Concrete failures of associativity: a tie below a newer write, on either side of it, and a tie whose
      first entry comes back. */
  lemma AssociativityWitness()
    ensures !AlwaysAssociates(map["a" := BY_ALICE], map["a" := BY_BOB], map["a" := NEWER])
    ensures !AlwaysAssociates(map["a" := NEWER], map["a" := BY_ALICE], map["a" := BY_BOB])
    ensures !AlwaysAssociates(map["a" := DELETED_BY_ALICE], map["a" := DELETED_BY_BOB], map["a" := DELETED_BY_ALICE])
  {
    hide AlwaysAssociates, SafePath, PlainAuthor;
    PlainNameSafe();
    PlainWithoutSlash("alice");
    PlainWithoutSlash("bob");
    OnePathAssociatesIff("a", BY_ALICE, BY_BOB, NEWER);
    OnePathAssociatesIff("a", NEWER, BY_ALICE, BY_BOB);
    OnePathAssociatesIff("a", DELETED_BY_ALICE, DELETED_BY_BOB, DELETED_BY_ALICE);
  }
}
