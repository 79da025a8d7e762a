/** The contract of Go's stable slice sort, and the proof that the contract has only one solution. */
module StableSort {

  ghost predicate StrictWeakOrder<T(!new)>(less: (T, T) -> bool) {
    && (forall a, b :: less(a, b) ==> !less(b, a))
    && (forall a, b, c :: less(a, c) ==> less(a, b) || less(b, c))
  }

  ghost predicate Sorted<T>(less: (T, T) -> bool, s: seq<T>) {
    forall i, j | 0 <= i < j < |s| :: !less(s[j], s[i])
  }

  /** The elements of s that tie with x, in the order s lists them. */
  ghost function TiedWith<T>(less: (T, T) -> bool, x: T, s: seq<T>): seq<T> {
    if s == [] then [] else IfTied(less, x, s[0]) + TiedWith(less, x, s[1..])
  }

  ghost function IfTied<T>(less: (T, T) -> bool, x: T, y: T): seq<T> {
    if less(x, y) || less(y, x) then [] else [y]
  }

  lemma TiedCons<T>(less: (T, T) -> bool, x: T, y: T, s: seq<T>)
    ensures TiedWith(less, x, [y] + s) == IfTied(less, x, y) + TiedWith(less, x, s)
  {
    assert ([y] + s)[1..] == s;
  }

  /** r is s sorted, with ties left in their original order. */
  ghost predicate IsStableSort<T(!new)>(less: (T, T) -> bool, s: seq<T>, r: seq<T>) {
    && Sorted(less, r)
    && forall x :: TiedWith(less, x, r) == TiedWith(less, x, s)
  }

  function InsertBeforeTies<T>(less: (T, T) -> bool, x: T, s: seq<T>): (r: seq<T>)
    ensures |r| == |s| + 1
    ensures multiset(r) == multiset{x} + multiset(s)
  {
    if s == [] then [x]
    else if less(s[0], x) then
      assert s == [s[0]] + s[1..];
      [s[0]] + InsertBeforeTies(less, x, s[1..])
    else [x] + s
  }

  function Stable<T>(less: (T, T) -> bool, s: seq<T>): (r: seq<T>)
    ensures |r| == |s|
    ensures multiset(r) == multiset(s)
  {
    if s == [] then []
    else
      assert s == [s[0]] + s[1..];
      InsertBeforeTies(less, s[0], Stable(less, s[1..]))
  }

  lemma {:induction false} InsertKeepsSorted<T(!new)>(less: (T, T) -> bool, x: T, s: seq<T>)
    requires StrictWeakOrder(less) && Sorted(less, s)
    ensures Sorted(less, InsertBeforeTies(less, x, s))
  {
    if s != [] {
      if less(s[0], x) {
        var rest := InsertBeforeTies(less, x, s[1..]);
        InsertKeepsSorted(less, x, s[1..]);
        forall y | y in rest
          ensures !less(y, s[0])
        {
          assert y in multiset(rest);
        }
      } else {
        forall y | y in s
          ensures !less(y, x)
        {
        }
      }
    }
  }

  /** Two neighbours of which one at most ties with x may change places. */
  lemma TiedSwap<T>(less: (T, T) -> bool, x: T, y: T, z: T, s: seq<T>)
    requires IfTied(less, x, y) == [] || IfTied(less, x, z) == []
    ensures TiedWith(less, x, [y] + ([z] + s)) == TiedWith(less, x, [z] + ([y] + s))
  {
    TiedCons(less, x, y, [z] + s);
    TiedCons(less, x, z, s);
    TiedCons(less, x, z, [y] + s);
    TiedCons(less, x, y, s);
  }

  lemma {:induction false} InsertTies<T(!new)>(less: (T, T) -> bool, x: T, s: seq<T>, z: T)
    requires StrictWeakOrder(less)
    ensures TiedWith(less, z, InsertBeforeTies(less, x, s)) == TiedWith(less, z, [x] + s)
  {
    if s != [] && less(s[0], x) {
      var first, rest := s[0], s[1..];
      assert InsertBeforeTies(less, x, s) == [first] + InsertBeforeTies(less, x, rest);
      assert IfTied(less, z, first) == [] || IfTied(less, z, x) == [];
      assert s == [first] + rest;
      hide TiedWith, IfTied, InsertBeforeTies;
      InsertTies(less, x, rest, z);
      TiedCons(less, z, first, InsertBeforeTies(less, x, rest));
      TiedCons(less, z, first, [x] + rest);
      TiedSwap(less, z, first, x, rest);
    } else {
      assert InsertBeforeTies(less, x, s) == [x] + s;
    }
  }

  /** The sort meets its contract: sorted, and each class of ties keeps its order. */
  lemma {:induction false} StableMeetsContract<T(!new)>(less: (T, T) -> bool, s: seq<T>)
    requires StrictWeakOrder(less)
    ensures IsStableSort(less, s, Stable(less, s))
  {
    if s != [] {
      var rest := Stable(less, s[1..]);
      StableMeetsContract(less, s[1..]);
      InsertKeepsSorted(less, s[0], rest);
      forall z
        ensures TiedWith(less, z, Stable(less, s)) == TiedWith(less, z, s)
      {
        InsertTies(less, s[0], rest, z);
        TiedCons(less, z, s[0], rest);
      }
    }
  }

  lemma {:induction false} TiedMember<T(!new)>(less: (T, T) -> bool, x: T, s: seq<T>, y: T)
    ensures y in TiedWith(less, x, s) <==> y in s && !less(x, y) && !less(y, x)
  {
    if s != [] {
      TiedMember(less, x, s[1..], y);
    }
  }

  /** Any two results that meet the contract are equal, so the contract says what the sort computes. */
  lemma {:induction false} StableUnique<T(!new)>(less: (T, T) -> bool, a: seq<T>, b: seq<T>)
    requires StrictWeakOrder(less)
    requires Sorted(less, a) && Sorted(less, b)
    requires forall x :: TiedWith(less, x, a) == TiedWith(less, x, b)
    ensures a == b
  {
    if a != [] {
      TiedMember(less, a[0], a, a[0]);
      TiedMember(less, a[0], b, a[0]);
      TiedMember(less, b[0], b, b[0]);
      TiedMember(less, b[0], a, b[0]);
      assert TiedWith(less, a[0], a)[0] == a[0];
      assert !less(a[0], b[0]) && !less(b[0], a[0]);
      assert TiedWith(less, a[0], b)[0] == b[0];
      forall x
        ensures TiedWith(less, x, a[1..]) == TiedWith(less, x, b[1..])
      {
        assert TiedWith(less, x, a) == TiedWith(less, x, b);
        var head := IfTied(less, x, a[0]);
        assert TiedWith(less, x, a) == head + TiedWith(less, x, a[1..]);
        assert TiedWith(less, x, b) == head + TiedWith(less, x, b[1..]);
        assert TiedWith(less, x, a[1..]) == (head + TiedWith(less, x, a[1..]))[|head|..];
        assert TiedWith(less, x, b[1..]) == (head + TiedWith(less, x, b[1..]))[|head|..];
      }
      StableUnique(less, a[1..], b[1..]);
      assert a == [a[0]] + a[1..] && b == [b[0]] + b[1..];
    }
  }

  /** Sorting a sorted sequence changes nothing. */
  lemma SortedIsFixed<T(!new)>(less: (T, T) -> bool, s: seq<T>)
    requires StrictWeakOrder(less) && Sorted(less, s)
    ensures Stable(less, s) == s
  {
  }

  /** The library call, in place. */
  method SliceStable<T>(a: array<T>, less: (T, T) -> bool)
    modifies a
    ensures a[..] == Stable(less, old(a[..]))
  {
    var sorted := Stable(less, a[..]);
    forall i | 0 <= i < a.Length {
      a[i] := sorted[i];
    }
  }
}
