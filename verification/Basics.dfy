/** Small vocabulary shared by every module: bytes, options, and Rust's ordering of strings. */
module Basics {

  newtype Byte = x: int | 0 <= x < 256

  type Bytes = seq<Byte>

  datatype Option<+T> = None | Some(value: T)

  /** `order` lists every element of `s` exactly once: one of the orders in which a
      HashMap or a directory walk may be iterated. */
  ghost predicate Enumerates<T(!new)>(order: seq<T>, s: set<T>) {
    && (forall i, j :: 0 <= i < j < |order| ==> order[i] != order[j])
    && (forall x :: x in order <==> x in s)
  }

  lemma EnumeratesNothing<T(!new)>()
    ensures Enumerates<T>([], {})
  {
  }

  lemma EnumeratesMembers<T(!new)>(order: seq<T>, s: set<T>)
    requires Enumerates(order, s)
    ensures forall x :: x in order <==> x in s
  {
  }

  lemma EnumeratesMore<T(!new)>(order: seq<T>, s: set<T>, x: T, t: set<T>)
    requires Enumerates(order, s) && x !in s && t == s + {x}
    ensures Enumerates(order + [x], t)
  {
  }

  lemma {:induction false} EnumerationSize<T(!new)>(order: seq<T>, s: set<T>)
    requires Enumerates(order, s)
    ensures |order| == |s|
  {
    if order == [] {
      assert s == {};
    } else {
      var k := |order| - 1;
      assert order[k] in order;
      EnumerationSize(order[..k], s - {order[k]});
    }
  }

  /** Every finite set can be enumerated. */
  lemma EnumerationExists<T(!new)>(s: set<T>) returns (order: seq<T>)
    ensures Enumerates(order, s)
    decreases |s|
  {
    if s == {} {
      order := [];
    } else {
      var x :| x in s;
      var rest := EnumerationExists(s - {x});
      order := [x] + rest;
    }
  }

  /** The lexicographic order Rust's `String` comparison uses. */
  predicate LexLeq(a: string, b: string) {
    a == [] || (b != [] && (a[0] < b[0] || (a[0] == b[0] && LexLeq(a[1..], b[1..]))))
  }

  lemma {:induction false} LexTotal(a: string, b: string)
    ensures LexLeq(a, b) || LexLeq(b, a)
  {
    if a != [] && b != [] && a[0] == b[0] {
      LexTotal(a[1..], b[1..]);
    }
  }

  lemma {:induction false} LexAntisymmetric(a: string, b: string)
    requires LexLeq(a, b) && LexLeq(b, a)
    ensures a == b
  {
    if a != [] && b != [] {
      LexAntisymmetric(a[1..], b[1..]);
      assert a == [a[0]] + a[1..];
      assert b == [b[0]] + b[1..];
    }
  }

  lemma {:induction false} LexTransitive(a: string, b: string, c: string)
    requires LexLeq(a, b) && LexLeq(b, c)
    ensures LexLeq(a, c)
  {
    if a != [] && b[0] == a[0] && c[0] == a[0] {
      LexTransitive(a[1..], b[1..], c[1..]);
    }
  }

  /** The order read off two strings side by side: one is a prefix of the other, or at the first place
      where they differ its character is the smaller. */
  ghost predicate NotAfter(a: string, b: string) {
    a <= b || exists k :: SmallerAt(a, b, k)
  }

  predicate SmallerAt(a: string, b: string, k: int) {
    0 <= k < |a| && k < |b| && a[..k] == b[..k] && a[k] < b[k]
  }

  lemma {:induction false} LexLeqIff(a: string, b: string)
    ensures LexLeq(a, b) <==> NotAfter(a, b)
  {
    if a != [] && b != [] {
      if a[0] == b[0] {
        LexLeqIff(a[1..], b[1..]);
        assert a <= b <==> a[1..] <= b[1..] by {
          assert a == [a[0]] + a[1..] && b == [b[0]] + b[1..];
        }
        forall k | 0 < k
          ensures SmallerAt(a, b, k) <==> SmallerAt(a[1..], b[1..], k - 1)
        {
          SmallerLater(a, b, k);
        }
        if k :| SmallerAt(a[1..], b[1..], k) {
          assert SmallerAt(a, b, k + 1);
        }
        assert !SmallerAt(a, b, 0);
      } else if a[0] < b[0] {
        assert SmallerAt(a, b, 0);
      } else {
        forall k
          ensures !SmallerAt(a, b, k)
        {
          assert 0 < k <= |a| && k <= |b| ==> a[..k][0] == a[0] && b[..k][0] == b[0];
        }
      }
    }
  }

  lemma SmallerLater(a: string, b: string, k: nat)
    requires a != [] && b != [] && a[0] == b[0] && k > 0
    ensures SmallerAt(a, b, k) <==> SmallerAt(a[1..], b[1..], k - 1)
  {
    if k < |a| && k < |b| {
      assert a[..k] == [a[0]] + a[1..][..k - 1] && a[1..][..k - 1] == a[..k][1..];
      assert b[..k] == [b[0]] + b[1..][..k - 1] && b[1..][..k - 1] == b[..k][1..];
      assert a[k] == a[1..][k - 1] && b[k] == b[1..][k - 1];
    }
  }
}
