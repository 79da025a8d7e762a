/** Gathering what each element of a sequence gives, in order. */
module Collecting {

  ghost function Collect<A, B>(parts: A -> seq<B>, s: seq<A>): seq<B> {
    if s == [] then [] else Collect(parts, s[..|s| - 1]) + parts(s[|s| - 1])
  }

  lemma CollectNext<A, B>(parts: A -> seq<B>, s: seq<A>, n: nat)
    requires n < |s|
    ensures Collect(parts, s[..n + 1]) == Collect(parts, s[..n]) + parts(s[n])
  {
    assert s[..n + 1][..n] == s[..n];
  }

  lemma {:induction false} CollectFirst<A, B>(parts: A -> seq<B>, first: A, s: seq<A>)
    ensures Collect(parts, [first] + s) == parts(first) + Collect(parts, s)
  {
    if s == [] {
      assert [first] + s == [first] && [first][..0] == [];
    } else {
      var n := |s| - 1;
      CollectFirst(parts, first, s[..n]);
      assert ([first] + s)[..n + 1] == [first] + s[..n];
    }
  }

  /** Sequences whose elements give the same, one by one, give the same. */
  lemma {:induction false} SameCollection<A, B, C>(f: A -> seq<C>, a: seq<A>, g: B -> seq<C>, b: seq<B>)
    requires |a| == |b| && forall i | 0 <= i < |a| :: f(a[i]) == g(b[i])
    ensures Collect(f, a) == Collect(g, b)
  {
    if a != [] {
      var n := |a| - 1;
      SameCollection(f, a[..n], g, b[..n]);
    }
  }

  /** An element that gives nothing may as well not be there. */
  lemma {:induction false} CollectAround<A, B>(parts: A -> seq<B>, before: seq<A>, x: A, after: seq<A>)
    requires parts(x) == []
    ensures Collect(parts, before + [x] + after) == Collect(parts, before + after)
  {
    if after == [] {
      assert before + [x] + after == before + [x] && (before + [x])[..|before|] == before;
      assert before + after == before;
    } else {
      var n := |after| - 1;
      CollectAround(parts, before, x, after[..n]);
      var long, short := before + [x] + after, before + after;
      assert long[..|long| - 1] == before + [x] + after[..n] && short[..|short| - 1] == before + after[..n];
    }
  }

  lemma {:induction false} CollectSingles<A, B>(parts: A -> seq<B>, s: seq<A>, r: seq<B>)
    requires |s| == |r| && forall i | 0 <= i < |s| :: parts(s[i]) == [r[i]]
    ensures Collect(parts, s) == r
  {
    if s != [] {
      var n := |s| - 1;
      CollectSingles(parts, s[..n], r[..n]);
      assert r == r[..n] + [r[n]];
    }
  }
}
