/** Merging the comment pools of one video: internal/api/merged.go. */
module Deduplication {
  import opened Domain
  import opened StableSort

  datatype MergePool = MergePool(native: bool, data: seq<DanmakuData>, size: int)

  // ----- the naive rule -----

  function Weight(pool: MergePool): int {
    if pool.size > |pool.data| then pool.size else |pool.data|
  }

  /** The order of the pools: the native ones first, then by falling size. */
  predicate HigherPriority(a: MergePool, b: MergePool) {
    if a.native != b.native then a.native else Weight(a) > Weight(b)
  }

  predicate ValidTime(item: DanmakuData) {
    item.time.Finite? && item.time.value >= 0.0
  }

  /** The instant of an item. Only items with a valid time are ever compared. */
  function At(item: DanmakuData): real {
    if item.time.Finite? then item.time.value else 0.0
  }

  predicate Earlier(a: DanmakuData, b: DanmakuData) {
    At(a) < At(b)
  }

  predicate SameText(a: DanmakuData, b: DanmakuData) {
    PointerValue(a.text) == PointerValue(b.text)
  }

  predicate WithinSecond(a: DanmakuData, b: DanmakuData) {
    -1.0 <= At(a) - At(b) <= 1.0
  }

  /** Some item of `kept` repeats this one within a second. */
  ghost predicate Suppressed(item: DanmakuData, kept: seq<DanmakuData>) {
    exists other :: other in kept && SameText(item, other) && WithinSecond(item, other)
  }

  ghost predicate Keeps(native: bool, item: DanmakuData, kept: seq<DanmakuData>) {
    ValidTime(item) && (native || !Suppressed(item, kept))
  }

  /** The items one pool contributes, given what strictly earlier pools kept. */
  ghost function Contribution(native: bool, data: seq<DanmakuData>, kept: seq<DanmakuData>): seq<DanmakuData> {
    if data == [] then []
    else
      var last := data[|data| - 1];
      Contribution(native, data[..|data| - 1], kept) + (if Keeps(native, last, kept) then [last] else [])
  }

  /** What the pools keep, pool after pool. */
  ghost function Kept(pools: seq<MergePool>): seq<DanmakuData> {
    if pools == [] then []
    else
      var kept := Kept(pools[..|pools| - 1]);
      var pool := pools[|pools| - 1];
      kept + Contribution(pool.native, pool.data, kept)
  }

  ghost function Deduplicated(pools: seq<MergePool>): seq<DanmakuData> {
    Stable(Earlier, Kept(Stable(HigherPriority, pools)))
  }

  // ----- the program -----

  function Bucket(index: map<string, seq<real>>, content: string): seq<real> {
    if content in index then index[content] else []
  }

  ghost function TimesOf(items: seq<DanmakuData>, content: string): seq<real> {
    if items == [] then []
    else
      var last := items[|items| - 1];
      TimesOf(items[..|items| - 1], content) + (if PointerValue(last.text) == content then [At(last)] else [])
  }

  predicate Ascending(x: real, y: real) {
    x < y
  }

  /** The accepted times: for every text, the sorted times of the kept items with that text. */
  ghost predicate Indexes(accepted: map<string, seq<real>>, kept: seq<DanmakuData>) {
    forall content: string ::
      && Sorted(Ascending, Bucket(accepted, content))
      && multiset(Bucket(accepted, content)) == multiset(TimesOf(kept, content))
  }

  /** The smallest position whose value is not below x. */
  method SearchFloats(times: seq<real>, x: real) returns (pos: nat)
    requires Sorted(Ascending, times)
    ensures pos <= |times|
    ensures forall k | 0 <= k < pos :: times[k] < x
    ensures forall k | pos <= k < |times| :: times[k] >= x
  {
    pos := 0;
    var high := |times|;
    while pos < high
      invariant pos <= high <= |times|
      invariant forall k | 0 <= k < pos :: times[k] < x
      invariant forall k | high <= k < |times| :: times[k] >= x
    {
      var middle := (pos + high) / 2;
      if times[middle] >= x {
        high := middle;
      } else {
        pos := middle + 1;
      }
    }
  }

  lemma OrdersAreWeak()
    ensures StrictWeakOrder(Ascending) && StrictWeakOrder(Earlier) && StrictWeakOrder(HigherPriority)
  {
  }

  method SortFloats(times: seq<real>) returns (sorted: seq<real>)
    ensures Sorted(Ascending, sorted)
    ensures multiset(sorted) == multiset(times)
  {
    sorted := Stable(Ascending, times);
    OrdersAreWeak();
    StableMeetsContract(Ascending, times);
  }

  /** A bucket holds exactly what two other buckets held, sorted. */
  ghost predicate BucketUnion(bucket: seq<real>, a: seq<real>, b: seq<real>) {
    Sorted(Ascending, bucket) && multiset(bucket) == multiset(a) + multiset(b)
  }

  ghost predicate SortedBuckets(index: map<string, seq<real>>) {
    forall content: string :: Sorted(Ascending, Bucket(index, content))
  }

  /** All but the remaining keys of `pending` have been folded in. */
  ghost predicate FoldedBut(remaining: set<string>, folded: map<string, seq<real>>,
                            accepted: map<string, seq<real>>, pending: map<string, seq<real>>) {
    forall content: string ::
      if content in remaining then Bucket(folded, content) == Bucket(accepted, content)
      else BucketUnion(Bucket(folded, content), Bucket(accepted, content), Bucket(pending, content))
  }

  lemma FoldStep(remaining: set<string>, folded: map<string, seq<real>>, accepted: map<string, seq<real>>,
                 pending: map<string, seq<real>>, content: string, sorted: seq<real>)
    requires FoldedBut(remaining, folded, accepted, pending) && content in remaining
    requires BucketUnion(sorted, Bucket(accepted, content), Bucket(pending, content))
    ensures FoldedBut(remaining - {content}, folded[content := sorted], accepted, pending)
  {
  }

  /** Folds the pending times in, in whatever order the map yields its keys. */
  method FoldPending(accepted: map<string, seq<real>>, pending: map<string, seq<real>>)
    returns (folded: map<string, seq<real>>)
    requires SortedBuckets(accepted)
    ensures forall content: string ::
              BucketUnion(Bucket(folded, content), Bucket(accepted, content), Bucket(pending, content))
  {
    folded := accepted;
    var remaining := pending.Keys;
    while remaining != {}
      invariant remaining <= pending.Keys
      invariant FoldedBut(remaining, folded, accepted, pending)
      decreases remaining
    {
      var content :| content in remaining;
      var sorted := SortFloats(Bucket(folded, content) + pending[content]);
      FoldStep(remaining, folded, accepted, pending, content, sorted);
      folded := folded[content := sorted];
      remaining := remaining - {content};
    }
  }

  lemma {:induction false} TimesOfMember(items: seq<DanmakuData>, content: string, t: real)
    ensures t in TimesOf(items, content) <==>
            exists item :: item in items && PointerValue(item.text) == content && At(item) == t
  {
    if items != [] {
      TimesOfMember(items[..|items| - 1], content, t);
      assert items == items[..|items| - 1] + [items[|items| - 1]];
    }
  }

  lemma {:induction false} TimesOfConcat(a: seq<DanmakuData>, b: seq<DanmakuData>, content: string)
    ensures TimesOf(a + b, content) == TimesOf(a, content) + TimesOf(b, content)
  {
    if b == [] {
      assert a + b == a;
    } else {
      TimesOfConcat(a, b[..|b| - 1], content);
      assert (a + b)[..|a + b| - 1] == a + b[..|b| - 1];
    }
  }

  /** Membership in the accepted times is membership among the kept items. */
  lemma IndexedTime(times: seq<real>, kept: seq<DanmakuData>, content: string, t: real)
    requires multiset(times) == multiset(TimesOf(kept, content))
    ensures t in times <==> exists item :: item in kept && PointerValue(item.text) == content && At(item) == t
  {
    assert t in times <==> t in multiset(times);
    TimesOfMember(kept, content, t);
  }

  /** The binary search at t-1 decides suppression. */
  lemma SearchDecides(times: seq<real>, pos: nat, item: DanmakuData, kept: seq<DanmakuData>)
    requires multiset(times) == multiset(TimesOf(kept, PointerValue(item.text)))
    requires pos <= |times|
    requires forall k | 0 <= k < pos :: times[k] < At(item) - 1.0
    requires forall k | pos <= k < |times| :: times[k] >= At(item) - 1.0
    requires Sorted(Ascending, times)
    ensures (pos < |times| && times[pos] <= At(item) + 1.0) <==> Suppressed(item, kept)
  {
    hide PointerValue, TimesOf;
    if pos < |times| && times[pos] <= At(item) + 1.0 {
      IndexedTime(times, kept, PointerValue(item.text), times[pos]);
    }
    if Suppressed(item, kept) {
      var other :| other in kept && SameText(item, other) && WithinSecond(item, other);
      IndexedTime(times, kept, PointerValue(item.text), At(other));
      var k :| 0 <= k < |times| && times[k] == At(other);
      assert pos <= k;
    }
  }

  lemma FoldIndexes(accepted: map<string, seq<real>>, pending: map<string, seq<real>>,
                    folded: map<string, seq<real>>, kept: seq<DanmakuData>, added: seq<DanmakuData>)
    requires Indexes(accepted, kept)
    requires forall content: string :: Bucket(pending, content) == TimesOf(added, content)
    requires forall content: string ::
               BucketUnion(Bucket(folded, content), Bucket(accepted, content), Bucket(pending, content))
    ensures Indexes(folded, kept + added)
  {
    forall content: string
      ensures Sorted(Ascending, Bucket(folded, content))
      ensures multiset(Bucket(folded, content)) == multiset(TimesOf(kept + added, content))
    {
      TimesOfConcat(kept, added, content);
      assert BucketUnion(Bucket(folded, content), Bucket(accepted, content), Bucket(pending, content));
    }
  }

  lemma ContributionStep(native: bool, data: seq<DanmakuData>, n: nat, kept: seq<DanmakuData>)
    requires n < |data|
    ensures Contribution(native, data[..n + 1], kept)
         == Contribution(native, data[..n], kept) + (if Keeps(native, data[n], kept) then [data[n]] else [])
  {
    assert data[..n + 1][..n] == data[..n];
  }

  lemma PendingStep(pending: map<string, seq<real>>, added: seq<DanmakuData>, item: DanmakuData, content: string)
    requires Bucket(pending, content) == TimesOf(added, content)
    ensures TimesOf(added + [item], content)
         == Bucket(pending[PointerValue(item.text) := Bucket(pending, PointerValue(item.text)) + [At(item)]], content)
  {
  }

  /** The inner loop: the items of one pool, tested against the accepted times of strictly earlier pools. */
  method AcceptPool(pool: MergePool, accepted: map<string, seq<real>>, kept: seq<DanmakuData>)
    returns (added: seq<DanmakuData>, pending: map<string, seq<real>>)
    requires Indexes(accepted, kept)
    ensures added == Contribution(pool.native, pool.data, kept)
    ensures forall content: string :: Bucket(pending, content) == TimesOf(added, content)
  {
    added, pending := [], map[];
    for n := 0 to |pool.data|
      invariant added == Contribution(pool.native, pool.data[..n], kept)
      invariant forall content: string :: Bucket(pending, content) == TimesOf(added, content)
    {
      var item := pool.data[n];
      ContributionStep(pool.native, pool.data, n, kept);
      if !ValidTime(item) {
        continue;
      }
      var t := item.time.value;
      var content := PointerValue(item.text);
      var times := Bucket(accepted, content);
      var pos := SearchFloats(times, t - 1.0);
      SearchDecides(times, pos, item, kept);
      if !pool.native && pos < |times| && times[pos] <= t + 1.0 {
        continue;
      }
      forall c: string {
        PendingStep(pending, added, item, c);
      }
      added := added + [item];
      pending := pending[content := Bucket(pending, content) + [t]];
    }
    assert pool.data[..|pool.data|] == pool.data;
  }

  lemma KeptStep(pools: seq<MergePool>, p: nat)
    requires p < |pools|
    ensures Kept(pools[..p + 1])
         == Kept(pools[..p]) + Contribution(pools[p].native, pools[p].data, Kept(pools[..p]))
  {
    assert pools[..p + 1][..p] == pools[..p];
  }

  // ----- what the two sorts mean -----

  /** The pools of one flag whose larger size, reported or present, is this one, in their order. */
  ghost function OfRank(native: bool, larger: int, pools: seq<MergePool>): seq<MergePool> {
    if pools == [] then []
    else
      var p := pools[0];
      var ranked := && p.native == native && p.size <= larger && |p.data| <= larger
                    && (p.size == larger || |p.data| == larger);
      (if ranked then [p] else []) + OfRank(native, larger, pools[1..])
  }

  lemma {:induction false} OfRankIsTied(x: MergePool, pools: seq<MergePool>)
    ensures TiedWith(HigherPriority, x, pools) == OfRank(x.native, Weight(x), pools)
  {
    if pools != [] {
      OfRankIsTied(x, pools[1..]);
    }
  }

  lemma {:induction false} OfRankNegative(native: bool, larger: int, pools: seq<MergePool>)
    requires larger < 0
    ensures OfRank(native, larger, pools) == []
  {
    if pools != [] {
      OfRankNegative(native, larger, pools[1..]);
    }
  }

  /** Pools in priority order: native first, then the larger first. */
  lemma PriorityMeaning(ordered: seq<MergePool>)
    requires Sorted(HigherPriority, ordered)
    ensures forall i, j | 0 <= i < j < |ordered| :: ordered[j].native ==> ordered[i].native
    ensures forall i, j | 0 <= i < j < |ordered| && ordered[i].native == ordered[j].native ::
              && (ordered[i].size >= ordered[j].size || |ordered[i].data| >= ordered[j].size)
              && (ordered[i].size >= |ordered[j].data| || |ordered[i].data| >= |ordered[j].data|)
  {
    forall i, j | 0 <= i < j < |ordered|
      ensures !HigherPriority(ordered[j], ordered[i])
    {
    }
  }

  /** Pools of one rank stay in their old order. */
  lemma RankOrderStays(pools: seq<MergePool>, ordered: seq<MergePool>, native: bool, larger: int)
    requires IsStableSort(HigherPriority, pools, ordered)
    ensures OfRank(native, larger, ordered) == OfRank(native, larger, pools)
  {
    if larger < 0 {
      OfRankNegative(native, larger, ordered);
      OfRankNegative(native, larger, pools);
    } else {
      var x := MergePool(native, [], larger);
      OfRankIsTied(x, ordered);
      OfRankIsTied(x, pools);
    }
  }

  lemma SortedPools(pools: seq<MergePool>, ordered: seq<MergePool>)
    requires ordered == Stable(HigherPriority, pools)
    ensures IsStableSort(HigherPriority, pools, ordered) && multiset(ordered) == multiset(pools)
    ensures forall native, larger :: OfRank(native, larger, ordered) == OfRank(native, larger, pools)
  {
    OrdersAreWeak();
    StableMeetsContract(HigherPriority, pools);
    hide IsStableSort, HigherPriority, OfRank;
    forall native, larger {
      RankOrderStays(pools, ordered, native, larger);
    }
  }

  lemma {:induction false} KeptAreValid(pools: seq<MergePool>)
    ensures forall item | item in Kept(pools) :: item.time.Finite? && item.time.value >= 0.0
  {
    if pools != [] {
      var front, last := pools[..|pools| - 1], pools[|pools| - 1];
      KeptAreValid(front);
      ContributedAreValid(last.native, last.data, Kept(front));
    }
  }

  lemma {:induction false} ContributedAreValid(native: bool, data: seq<DanmakuData>, kept: seq<DanmakuData>)
    ensures forall item | item in Contribution(native, data, kept) :: item.time.Finite? && item.time.value >= 0.0
  {
    if data != [] {
      ContributedAreValid(native, data[..|data| - 1], kept);
    }
  }

  /** The items of one instant, in their order. */
  ghost function AtInstant(t: real, items: seq<DanmakuData>): seq<DanmakuData> {
    if items == [] then []
    else (if items[0].time == Finite(t) then [items[0]] else []) + AtInstant(t, items[1..])
  }

  lemma {:induction false} AtInstantIsTied(x: DanmakuData, items: seq<DanmakuData>)
    requires x.time.Finite?
    requires forall item | item in items :: item.time.Finite?
    ensures TiedWith(Earlier, x, items) == AtInstant(x.time.value, items)
  {
    if items != [] {
      assert items[0] in items;
      AtInstantIsTied(x, items[1..]);
    }
  }

  /** Items of one instant keep the order in which the pools gave them. */
  lemma InstantOrderStays(kept: seq<DanmakuData>, result: seq<DanmakuData>, t: real)
    requires forall item | item in kept :: item.time.Finite?
    requires forall item | item in result :: item.time.Finite?
    requires IsStableSort(Earlier, kept, result)
    ensures AtInstant(t, result) == AtInstant(t, kept)
  {
    var x := DanmakuData(Finite(t), 0, 0, 0, 0, 0, "", 0, None);
    AtInstantIsTied(x, kept);
    AtInstantIsTied(x, result);
  }

  /** The output runs forward in time. */
  lemma TimeMeaning(kept: seq<DanmakuData>, result: seq<DanmakuData>)
    requires forall item | item in kept :: item.time.Finite? && item.time.value >= 0.0
    requires result == Stable(Earlier, kept)
    ensures forall i | 0 <= i < |result| :: result[i].time.Finite? && result[i].time.value >= 0.0
    ensures forall i, j | 0 <= i < j < |result| :: result[i].time.value <= result[j].time.value
    ensures forall t: real :: AtInstant(t, result) == AtInstant(t, kept)
  {
    OrdersAreWeak();
    StableMeetsContract(Earlier, kept);
    forall i | 0 <= i < |result|
      ensures result[i] in kept
    {
      assert result[i] in multiset(result);
    }
    forall t: real {
      InstantOrderStays(kept, result, t);
    }
  }

  /** The fast form computes the naive rule, and leaves the caller's pools in priority order. */
  method DeduplicatePools(pools: array<MergePool>) returns (result: seq<DanmakuData>)
    modifies pools
    ensures multiset(pools[..]) == multiset(old(pools[..]))
    ensures forall i, j | 0 <= i < j < pools.Length :: pools[j].native ==> pools[i].native
    ensures forall i, j | 0 <= i < j < pools.Length && pools[i].native == pools[j].native ::
              && (pools[i].size >= pools[j].size || |pools[i].data| >= pools[j].size)
              && (pools[i].size >= |pools[j].data| || |pools[i].data| >= |pools[j].data|)
    ensures forall native, larger :: OfRank(native, larger, pools[..]) == OfRank(native, larger, old(pools[..]))
    ensures forall i | 0 <= i < |result| :: result[i].time.Finite? && result[i].time.value >= 0.0
    ensures forall i, j | 0 <= i < j < |result| :: result[i].time.value <= result[j].time.value
    ensures forall t: real :: AtInstant(t, result) == AtInstant(t, Kept(pools[..]))
    ensures pools[..] == Stable(HigherPriority, old(pools[..]))
    ensures result == Deduplicated(old(pools[..]))
  {
    SliceStable(pools, HigherPriority);
    ghost var ordered := pools[..];
    SortedPools(old(pools[..]), ordered);
    PriorityMeaning(ordered);
    KeptAreValid(ordered);
    hide HigherPriority, OfRank, IsStableSort, Sorted, Stable, Kept, AtInstant;
    result := AcceptAll(pools[..]);
    TimeMeaning(result, Stable(Earlier, result));
    result := Stable(Earlier, result);
  }

  /** The outer loop: pool after pool, in the order they are in. */
  method AcceptAll(pools: seq<MergePool>) returns (result: seq<DanmakuData>)
    ensures result == Kept(pools)
  {
    var accepted: map<string, seq<real>> := map[];
    result := [];
    for p := 0 to |pools|
      invariant result == Kept(pools[..p])
      invariant Indexes(accepted, result)
    {
      KeptStep(pools, p);
      var added, pending := AcceptPool(pools[p], accepted, result);
      var folded := FoldPending(accepted, pending);
      FoldIndexes(accepted, pending, folded, result, added);
      result, accepted := result + added, folded;
    }
    assert pools[..|pools|] == pools;
  }
}
