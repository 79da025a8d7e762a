/** What the merged view of a video guarantees: laws of the deduplication rule. */
module DeduplicationLaws {
  import opened Domain
  import opened StableSort
  import opened Deduplication

  /** What the pool in place k of the priority order contributes. */
  ghost function ContributionAt(ordered: seq<MergePool>, k: nat): seq<DanmakuData>
    requires k < |ordered|
  {
    Contribution(ordered[k].native, ordered[k].data, Kept(ordered[..k]))
  }

  ghost predicate Covered(item: DanmakuData, kept: seq<DanmakuData>) {
    ValidTime(item) ==> Suppressed(item, kept)
  }

  /** Both sorts meet the contract of a stable sort, which has one solution only. */
  lemma OutputIsDoubleStableSort(pools: seq<MergePool>)
    ensures var ordered := Stable(HigherPriority, pools);
            && IsStableSort(HigherPriority, pools, ordered)
            && IsStableSort(Earlier, Kept(ordered), Deduplicated(pools))
  {
    OrdersAreWeak();
    StableMeetsContract(HigherPriority, pools);
    StableMeetsContract(Earlier, Kept(Stable(HigherPriority, pools)));
  }

  lemma {:induction false} ContributionMember(native: bool, data: seq<DanmakuData>, kept: seq<DanmakuData>,
                                              item: DanmakuData)
    ensures item in Contribution(native, data, kept) <==> item in data && Keeps(native, item, kept)
  {
    if data != [] {
      ContributionMember(native, data[..|data| - 1], kept, item);
      assert data == data[..|data| - 1] + [data[|data| - 1]];
    }
  }

  lemma {:induction false} KeptMember(ordered: seq<MergePool>, item: DanmakuData)
    ensures item in Kept(ordered) <==> exists k :: 0 <= k < |ordered| && item in ContributionAt(ordered, k)
  {
    if ordered != [] {
      var n := |ordered| - 1;
      KeptMember(ordered[..n], item);
      forall k | 0 <= k < n
        ensures ContributionAt(ordered[..n], k) == ContributionAt(ordered, k)
      {
        assert ordered[..n][..k] == ordered[..k];
      }
      assert Kept(ordered) == Kept(ordered[..n]) + ContributionAt(ordered, n);
    }
  }

  lemma SameMembers(ordered: seq<MergePool>, pools: seq<MergePool>)
    requires ordered == Stable(HigherPriority, pools)
    ensures forall p :: p in ordered <==> p in pools
    ensures forall item :: item in Deduplicated(pools) <==> item in Kept(ordered)
  {
    forall p
      ensures p in ordered <==> p in pools
    {
      assert p in multiset(ordered) <==> p in multiset(pools);
    }
    forall item
      ensures item in Deduplicated(pools) <==> item in Kept(ordered)
    {
      assert item in multiset(Deduplicated(pools)) <==> item in multiset(Kept(ordered));
    }
  }

  /** Pool k holds the item, and either pool k is native or no twin was kept before pool k. */
  ghost predicate KeptAt(ordered: seq<MergePool>, k: nat, item: DanmakuData)
    requires k < |ordered|
  {
    item in ordered[k].data && Keeps(ordered[k].native, item, Kept(ordered[..k]))
  }

  /** The output holds exactly the items some pool keeps, judged by the strictly earlier pools alone. */
  lemma OutputMembers(pools: seq<MergePool>, item: DanmakuData)
    ensures var ordered := Stable(HigherPriority, pools);
            item in Deduplicated(pools) <==>
            exists k | 0 <= k < |ordered| :: KeptAt(ordered, k, item)
  {
    var ordered := Stable(HigherPriority, pools);
    SameMembers(ordered, pools);
    KeptMember(ordered, item);
    forall k | 0 <= k < |ordered|
      ensures KeptAt(ordered, k, item) <==> item in ContributionAt(ordered, k)
    {
      ContributionMember(ordered[k].native, ordered[k].data, Kept(ordered[..k]), item);
    }
  }

  /** The rule itself, spelled out: a pool keeps its items with a finite time from zero on; all of them if it is
      native, and else those to which no earlier pool has kept an equal text at most one second away. */
  lemma RuleSpelledOut(ordered: seq<MergePool>, k: nat, item: DanmakuData)
    requires k < |ordered|
    ensures item in ContributionAt(ordered, k) <==>
              && item in ordered[k].data && item.time.Finite? && item.time.value >= 0.0
              && (ordered[k].native ||
                  forall j, other | 0 <= j < k && other in ContributionAt(ordered, j) && other.time.Finite? ::
                    || PointerValue(other.text) != PointerValue(item.text)
                    || other.time.value < item.time.value - 1.0 || other.time.value > item.time.value + 1.0)
  {
    ContributionMember(ordered[k].native, ordered[k].data, Kept(ordered[..k]), item);
    KeptAreValid(ordered[..k]);
    forall other
      ensures other in Kept(ordered[..k]) <==> exists j :: 0 <= j < k && other in ContributionAt(ordered, j)
    {
      KeptMember(ordered[..k], other);
      forall j | 0 <= j < k
        ensures ContributionAt(ordered[..k], j) == ContributionAt(ordered, j)
      {
        assert ordered[..k][..j] == ordered[..j];
      }
    }
  }

  /** What a pool keeps stands in the pool's own order. */
  lemma {:induction false} ContributionInOrder(native: bool, data: seq<DanmakuData>, kept: seq<DanmakuData>)
    returns (from: seq<nat>)
    ensures |from| == |Contribution(native, data, kept)|
    ensures forall i | 0 <= i < |from| :: from[i] < |data| && Contribution(native, data, kept)[i] == data[from[i]]
    ensures forall i, j | 0 <= i < j < |from| :: from[i] < from[j]
  {
    if data == [] {
      from := [];
    } else {
      from := ContributionInOrder(native, data[..|data| - 1], kept);
      if Keeps(native, data[|data| - 1], kept) {
        from := from + [|data| - 1];
      }
    }
  }

  /** An item that is dropped despite a valid time has a kept twin in a strictly earlier pool. */
  lemma DroppedHasEarlierWitness(ordered: seq<MergePool>, k: nat, item: DanmakuData) returns (j: nat, twin: DanmakuData)
    requires k < |ordered|
    requires item in ordered[k].data && ValidTime(item)
    requires item !in ContributionAt(ordered, k)
    ensures !ordered[k].native
    ensures j < k && twin in ContributionAt(ordered, j)
    ensures SameText(item, twin) && WithinSecond(item, twin)
  {
    ContributionMember(ordered[k].native, ordered[k].data, Kept(ordered[..k]), item);
    twin :| twin in Kept(ordered[..k]) && SameText(item, twin) && WithinSecond(item, twin);
    KeptMember(ordered[..k], twin);
    j :| 0 <= j < k && twin in ContributionAt(ordered[..k], j);
    assert ordered[..k][..j] == ordered[..j];
  }

  /** Absorption: every item with a valid time is in the output or has a twin there. */
  lemma Absorption(pools: seq<MergePool>, pool: MergePool, item: DanmakuData)
    requires pool in pools && item in pool.data && ValidTime(item)
    ensures Suppressed(item, Deduplicated(pools))
  {
    var ordered := Stable(HigherPriority, pools);
    SameMembers(ordered, pools);
    var k :| 0 <= k < |ordered| && ordered[k] == pool;
    var twin := item;
    if item in ContributionAt(ordered, k) {
      KeptMember(ordered, item);
    } else {
      var j;
      j, twin := DroppedHasEarlierWitness(ordered, k, item);
      KeptMember(ordered, twin);
    }
    assert twin in Deduplicated(pools);
  }

  /** Items that two different pools contribute are more than a second apart, unless the later pool is native. */
  lemma Separation(ordered: seq<MergePool>, i: nat, j: nat, x: DanmakuData, y: DanmakuData)
    requires i < j < |ordered| && !ordered[j].native
    requires x in ContributionAt(ordered, i) && y in ContributionAt(ordered, j)
    requires SameText(x, y)
    ensures At(y) - At(x) > 1.0 || At(x) - At(y) > 1.0
  {
    ContributionMember(ordered[j].native, ordered[j].data, Kept(ordered[..j]), y);
    assert ordered[..j][..i] == ordered[..i];
    assert x in ContributionAt(ordered[..j], i);
    KeptMember(ordered[..j], x);
  }

  /** Repetitions inside one pool survive or fall together. */
  lemma {:induction false} RepetitionsPreserved(native: bool, data: seq<DanmakuData>, kept: seq<DanmakuData>,
                                                item: DanmakuData)
    ensures multiset(Contribution(native, data, kept))[item]
         == if Keeps(native, item, kept) then multiset(data)[item] else 0
  {
    if data != [] {
      var front := data[..|data| - 1];
      RepetitionsPreserved(native, front, kept, item);
      assert data == front + [data[|data| - 1]];
    }
  }

  lemma {:induction false} NativeContribution(data: seq<DanmakuData>, kept: seq<DanmakuData>)
    requires forall item | item in data :: ValidTime(item)
    ensures Contribution(true, data, kept) == data
  {
    if data != [] {
      NativeContribution(data[..|data| - 1], kept);
    }
  }

  lemma {:induction false} CoveredContribution(data: seq<DanmakuData>, kept: seq<DanmakuData>)
    requires forall item | item in data :: Covered(item, kept)
    ensures Contribution(false, data, kept) == []
  {
    if data != [] {
      CoveredContribution(data[..|data| - 1], kept);
      assert Covered(data[|data| - 1], kept);
    }
  }

  ghost predicate AllCovered(pools: seq<MergePool>, kept: seq<DanmakuData>) {
    forall pool, item | pool in pools && item in pool.data :: Covered(item, kept)
  }

  lemma {:induction false} CoveredPoolsAddNothing(first: MergePool, others: seq<MergePool>)
    requires first.native && forall item | item in first.data :: ValidTime(item)
    requires forall pool | pool in others :: !pool.native
    requires AllCovered(others, first.data)
    ensures Kept([first] + others) == first.data
  {
    if others == [] {
      assert [first] + others == [first] && [first][..0] == [];
      NativeContribution(first.data, []);
    } else {
      var n := |others| - 1;
      var front, last := others[..n], others[n];
      assert last in others;
      CoveredPoolsAddNothing(first, front);
      KeptAppend([first] + front, last);
      assert [first] + others == [first] + front + [last];
      hide Kept, Contribution;
      CoveredContribution(last.data, first.data);
    }
  }

  lemma KeptAppend(pools: seq<MergePool>, pool: MergePool)
    ensures Kept(pools + [pool]) == Kept(pools) + Contribution(pool.native, pool.data, Kept(pools))
  {
    assert (pools + [pool])[..|pools|] == pools;
  }

  /** A sorted native pool that covers all others is the whole merged view. */
  lemma CoveringPoolIsFixed(first: MergePool, others: seq<MergePool>)
    requires first.native && forall item | item in first.data :: ValidTime(item)
    requires Sorted(Earlier, first.data)
    requires forall pool | pool in others :: !pool.native
    requires AllCovered(others, first.data)
    ensures Deduplicated([first] + others) == first.data
  {
    var tail := Stable(HigherPriority, others);
    assert ([first] + others)[1..] == others;
    SameMembers(tail, others);
    assert Stable(HigherPriority, [first] + others) == [first] + tail;
    CoveredPoolsAddNothing(first, tail);
    OrdersAreWeak();
    SortedIsFixed(Earlier, first.data);
  }

  ghost function Foreign(pools: seq<MergePool>): (foreign: seq<MergePool>)
    ensures forall pool :: pool in foreign <==> pool in pools && !pool.native
  {
    if pools == [] then []
    else (if pools[0].native then [] else [pools[0]]) + Foreign(pools[1..])
  }

  /** Merging the merged view again, as the native pool beside the same foreign pools, returns it unchanged. */
  lemma Reabsorption(pools: seq<MergePool>, size: int)
    ensures Deduplicated([MergePool(true, Deduplicated(pools), size)] + Foreign(pools)) == Deduplicated(pools)
  {
    var output := Deduplicated(pools);
    OutputIsDoubleStableSort(pools);
    forall item | item in output
      ensures ValidTime(item)
    {
      OutputMembers(pools, item);
    }
    forall pool, item | pool in Foreign(pools) && item in pool.data
      ensures Covered(item, output)
    {
      if ValidTime(item) {
        Absorption(pools, pool, item);
      }
    }
    CoveringPoolIsFixed(MergePool(true, output, size), Foreign(pools));
  }
}
