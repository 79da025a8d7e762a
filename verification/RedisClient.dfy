/** The Redis client of internal/store/redis_cache.go as the program writes it. Its calls perform steps of the
    interleaved system and nothing else, so one call alone shows what the system promises for all interleavings. */
module RedisClient {
  import opened Domain
  import opened Runs
  import opened RedisCache

  ghost predicate Possible(s: State) {
    Reachable(Initial, Leads, s)
  }

  lemma StepPossible(s: State, step: Step)
    requires Possible(s) && Enabled(s, step)
    ensures Possible(Apply(s, step))
  {
    NextReachable(Initial, Leads, s, Apply(s, step));
  }

  lemma PossibleInvariant(s: State)
    requires Possible(s)
    ensures Invariant(s)
  {
    var run :| IsRun(Initial, Leads, run) && run[|run| - 1] == s;
    InvariantHolds(run);
  }

  // ----- the steps of one call -----

  /** The reader is about to fetch the next pool of its plan. */
  ghost predicate AtPool(s: State, id: nat, view: View) {
    && id in s.readers && s.readers[id].phase.Collecting?
    && s.readers[id].phase.view == view && s.readers[id].phase.fetch.NoFetch?
  }

  ghost predicate NextIs(s: State, id: nat, view: View, key: PoolKey) {
    AtPool(s, id, view) && |view.pools| < |s.readers[id].plan| && s.readers[id].plan[|view.pools|] == key
  }

  ghost function WithSeen(s: State, id: nat, view: View, seen: nat): State
    requires AtPool(s, id, view)
  {
    SetPhase(s, id, Collected(s.readers[id].phase, seen))
  }

  lemma HitPoolSteps(s: State, id: nat, view: View, key: PoolKey)
    requires Possible(s) && NextIs(s, id, view, key)
    requires PoolEntry(RevisionOf(s, key.provider), key) in s.poolEntries
    ensures Possible(WithSeen(s, id, view, s.poolEntries[PoolEntry(RevisionOf(s, key.provider), key)]))
  {
    StepPossible(s, ReadPoolRevision(id, true));
    var asked := Apply(s, ReadPoolRevision(id, true));
    StepPossible(asked, HitPool(id));
    assert Apply(asked, HitPool(id))
        == WithSeen(s, id, view, s.poolEntries[PoolEntry(RevisionOf(s, key.provider), key)]);
  }

  lemma LoadPoolSteps(s: State, id: nat, view: View, key: PoolKey, reachable: bool, stored: bool)
    requires Possible(s) && NextIs(s, id, view, key) && (stored ==> reachable)
    ensures var entry := PoolEntry(RevisionOf(s, key.provider), key);
            Possible(WithSeen(s, id, view, |s.log|)
              .(poolEntries := if stored then s.poolEntries[entry := |s.log|] else s.poolEntries))
  {
    StepPossible(s, ReadPoolRevision(id, reachable));
    var asked := Apply(s, ReadPoolRevision(id, reachable));
    StepPossible(asked, LoadPool(id));
    var loaded := Apply(asked, LoadPool(id));
    StepPossible(loaded, StorePool(id, stored));
    var entry := PoolEntry(RevisionOf(s, key.provider), key);
    assert Apply(loaded, StorePool(id, stored))
        == WithSeen(s, id, view, |s.log|)
             .(poolEntries := if stored then s.poolEntries[entry := |s.log|] else s.poolEntries);
  }

  ghost function Floor(s: State): set<nat> {
    set w | 0 <= w < |s.log| && s.log[w].mergedMark.Some?
  }

  /** The reader has asked for the merged revision, if Redis was there to answer. */
  ghost function WithReader(s: State, id: nat, plan: seq<PoolKey>, reachable: bool): State {
    var revision := if reachable then Some(s.mergedRevision) else None;
    s.(readers := s.readers[id := Reader(plan, Floor(s), MergedRevision(revision))])
  }

  lemma BeginSteps(s: State, id: nat, plan: seq<PoolKey>, reachable: bool)
    requires Possible(s) && id !in s.readers
    ensures Possible(WithReader(s, id, plan, reachable))
  {
    StepPossible(s, BeginRead(id, plan));
    StepPossible(Apply(s, BeginRead(id, plan)), ReadMergedRevision(id, reachable));
    assert Apply(Apply(s, BeginRead(id, plan)), ReadMergedRevision(id, reachable))
        == WithReader(s, id, plan, reachable);
  }

  lemma HitMergedSteps(s: State, id: nat, entry: MergedEntry)
    requires Possible(s) && id in s.readers && s.readers[id].phase == MergedRevision(Some(entry.revision))
    requires s.readers[id].plan == entry.plan && entry in s.mergedEntries
    ensures Possible(SetPhase(s, id, Done(s.mergedEntries[entry])))
  {
    assert entry == MergedEntry(entry.revision, entry.plan);
    StepPossible(s, HitMerged(id));
  }

  lemma StoreMergedSteps(s: State, id: nat, view: View, revision: nat, reachable: bool, stored: bool)
    requires Possible(s) && id in s.readers && |view.pools| == |s.readers[id].plan| && (stored ==> reachable)
    requires s.readers[id].phase == Collecting(if reachable then Some(revision) else None, view, NoFetch)
    ensures var entry := MergedEntry(revision, s.readers[id].plan);
            Possible(SetPhase(s, id, Done(view))
              .(mergedEntries := if stored then s.mergedEntries[entry := view] else s.mergedEntries))
  {
    StepPossible(s, StoreMerged(id, stored));
  }

  /** A committed write whose invalidation has not begun. */
  ghost predicate Pending(s: State, write: nat, provider: string) {
    write < |s.log| && s.log[write] == Write(provider, None, None)
  }

  ghost function Invalidated(s: State, write: nat, provider: string): State
    requires Pending(s, write, provider)
  {
    Apply(Apply(s, BumpProvider(write)), BumpMerged(write))
  }

  ghost predicate FinishedBefore(s: State, w: nat) {
    w < |s.log| && s.log[w].mergedMark.Some?
  }

  /** A finished read shows every write on its floor. */
  lemma DoneShows(s: State, id: nat, before: State, view: View)
    requires Possible(s) && s.log == before.log
    requires id in s.readers && s.readers[id].phase == Done(view) && s.readers[id].floor == Floor(before)
    ensures forall w | 0 <= w < |before.log| && FinishedBefore(before, w) ::
              Shows(view, s.readers[id].plan, before.log[w].provider, w)
  {
    PossibleInvariant(s);
    assert ReaderFresh(s, s.readers[id]);
  }

  /** How Redis behaves in one lookup: whether it gives a revision, answers the read, and takes the value. */
  datatype Redis = Redis(reachable: bool, answers: bool, stores: bool)

  // ----- what a loader gathers -----

  function EntryOf(revisions: map<string, nat>, key: PoolKey): PoolEntry {
    PoolEntry(if key.provider in revisions then revisions[key.provider] else 0, key)
  }

  ghost function EntriesOf(revisions: map<string, nat>, plan: seq<PoolKey>): (entries: seq<PoolEntry>)
    ensures |entries| == |plan|
  {
    seq(|plan|, i requires 0 <= i < |plan| => EntryOf(revisions, plan[i]))
  }

  datatype Gathering = Gathering(entries: map<PoolEntry, nat>, pools: seq<nat>)

  /** One pool after the other: each is the entry that stands when its turn comes and Redis answers with it, or is
      loaded and then stored. */
  ghost function Gather(stored: map<PoolEntry, nat>, entries: seq<PoolEntry>, redis: seq<Redis>, commits: nat)
    : (gathering: Gathering)
    requires |entries| == |redis|
    ensures |gathering.pools| == |entries|
  {
    if entries == [] then Gathering(stored, [])
    else
      var n := |entries| - 1;
      var before := Gather(stored, entries[..n], redis[..n], commits);
      if redis[n].reachable && redis[n].answers && entries[n] in before.entries
      then before.(pools := before.pools + [before.entries[entries[n]]])
      else Gathering(if redis[n].reachable && redis[n].stores then before.entries[entries[n] := commits]
                     else before.entries,
                     before.pools + [commits])
  }

  lemma GatherNothing(stored: map<PoolEntry, nat>, commits: nat)
    ensures Gather(stored, [], [], commits) == Gathering(stored, [])
  {
  }

  lemma GatherNext(stored: map<PoolEntry, nat>, entries: seq<PoolEntry>, redis: seq<Redis>, commits: nat, n: nat)
    requires n < |entries| == |redis|
    ensures var before := Gather(stored, entries[..n], redis[..n], commits);
            Gather(stored, entries[..n + 1], redis[..n + 1], commits) ==
              if redis[n].reachable && redis[n].answers && entries[n] in before.entries
              then before.(pools := before.pools + [before.entries[entries[n]]])
              else Gathering(if redis[n].reachable && redis[n].stores then before.entries[entries[n] := commits]
                             else before.entries,
                             before.pools + [commits])
  {
    assert entries[..n + 1][..n] == entries[..n] && redis[..n + 1][..n] == redis[..n];
  }

  /** Each pool is as new as the database or what was stored before, where Redis answers with it; the first
      occurrence of a stored pool is exactly what was stored. */
  lemma {:induction false} GatherMeaning(stored: map<PoolEntry, nat>, entries: seq<PoolEntry>, redis: seq<Redis>,
                                         commits: nat, i: nat)
    requires i < |entries| == |redis|
    ensures var seen := Gather(stored, entries, redis, commits).pools[i];
            && (seen == commits
                || (redis[i].reachable && redis[i].answers && entries[i] in stored && seen == stored[entries[i]]))
            && (redis[i].reachable && redis[i].answers && entries[i] in stored && entries[i] !in entries[..i] ==>
                  seen == stored[entries[i]])
  {
    var n := |entries| - 1;
    if i < n {
      assert entries[..n][..i] == entries[..i];
      GatherMeaning(stored, entries[..n], redis[..n], commits, i);
    } else {
      GatherKeeps(stored, entries[..n], redis[..n], commits, entries[n]);
    }
  }

  lemma GatherAll(stored: map<PoolEntry, nat>, revisions: map<string, nat>, plan: seq<PoolKey>, redis: seq<Redis>,
                  commits: nat)
    requires |plan| == |redis|
    ensures var pools := Gather(stored, EntriesOf(revisions, plan), redis, commits).pools;
            forall i | 0 <= i < |plan| ::
              || pools[i] == commits
              || (&& redis[i].reachable && redis[i].answers && EntryOf(revisions, plan[i]) in stored
                  && pools[i] == stored[EntryOf(revisions, plan[i])])
  {
    forall i | 0 <= i < |plan|
      ensures var pools := Gather(stored, EntriesOf(revisions, plan), redis, commits).pools;
              || pools[i] == commits
              || (&& redis[i].reachable && redis[i].answers && EntryOf(revisions, plan[i]) in stored
                  && pools[i] == stored[EntryOf(revisions, plan[i])])
    {
      GatherMeaning(stored, EntriesOf(revisions, plan), redis, commits, i);
    }
  }

  /** An entry is what was stored before or as new as the database, and untouched unless it is gathered. */
  lemma {:induction false} GatherKeeps(stored: map<PoolEntry, nat>, entries: seq<PoolEntry>, redis: seq<Redis>,
                                       commits: nat, entry: PoolEntry)
    requires |entries| == |redis|
    ensures var after := Gather(stored, entries, redis, commits).entries;
            && (entry in stored ==> entry in after)
            && (entry in after ==> after[entry] == commits || (entry in stored && after[entry] == stored[entry]))
            && (entry !in entries ==> (entry in after <==> entry in stored))
            && (entry !in entries && entry in stored ==> after[entry] == stored[entry])
  {
    if entries != [] {
      var n := |entries| - 1;
      GatherKeeps(stored, entries[..n], redis[..n], commits, entry);
      assert entries == entries[..n] + [entries[n]];
    }
  }

  // ----- the program -----

  /** `commits` is what a load from the database shows. */
  class Cache {
    var commits: nat
    var providerRevisions: map<string, nat>
    var mergedRevision: nat
    var poolEntries: map<PoolEntry, nat>
    var mergedEntries: map<MergedEntry, View>
    ghost var readers: map<nat, Reader>
    ghost var log: seq<Write>

    ghost function Whole(): State
      reads this
    {
      State(log, providerRevisions, mergedRevision, poolEntries, mergedEntries, readers)
    }

    ghost predicate Valid()
      reads this
    {
      Possible(Whole()) && commits == |log|
    }

    constructor ()
      ensures Valid() && Whole() == Initial
    {
      commits, providerRevisions, mergedRevision, poolEntries, mergedEntries := 0, map[], 0, map[], map[];
      readers, log := map[], [];
      InitialReachable(Initial, Leads);
    }

    /** A commit, not yet invalidated. */
    method Commit(provider: string) returns (ghost write: nat)
      requires Valid()
      modifies this
      ensures Valid() && Whole() == Apply(old(Whole()), Step.Commit(provider))
      ensures Pending(Whole(), write, provider)
    {
      StepPossible(Whole(), Step.Commit(provider));
      write := |log|;
      commits := commits + 1;
      log := log + [Write(provider, None, None)];
    }

    /** First the provider's revision, then the merged one. */
    method InvalidateDanmakuCache(provider: string, ghost write: nat)
      requires Valid() && Pending(Whole(), write, provider)
      modifies this
      ensures Valid() && Whole() == Invalidated(old(Whole()), write, provider)
      ensures FinishedBefore(Whole(), write)
      ensures mergedRevision == old(mergedRevision) + 1
      ensures providerRevisions ==
                old(providerRevisions)[provider := if provider in old(providerRevisions)
                                                   then old(providerRevisions)[provider] + 1 else 1]
    {
      StepPossible(Whole(), BumpProvider(write));
      StepPossible(Apply(Whole(), BumpProvider(write)), BumpMerged(write));
      var revision := 1;
      if provider in providerRevisions {
        revision := providerRevisions[provider] + 1;
      }
      providerRevisions := providerRevisions[provider := revision];
      mergedRevision := mergedRevision + 1;
      log := log[write := Write(provider, Some(revision), Some(mergedRevision))];
      assert Whole() == Invalidated(old(Whole()), write, provider);
    }

    /** The lower level: one pool, from its cache entry or from the database. Redis may fail at any call. */
    method CachedPool(ghost id: nat, ghost view: View, key: PoolKey, redis: Redis) returns (seen: nat)
      requires Valid() && NextIs(Whole(), id, view, key)
      modifies `poolEntries, `readers
      ensures Valid() && readers == WithSeen(old(Whole()), id, view, seen).readers
      ensures var entry := EntryOf(providerRevisions, key);
              if redis.reachable && redis.answers && entry in old(poolEntries)
              then seen == old(poolEntries)[entry] && poolEntries == old(poolEntries)
              else
                && seen == commits
                && poolEntries == if redis.reachable && redis.stores then old(poolEntries)[entry := commits]
                                  else old(poolEntries)
    {
      var entry := EntryOf(providerRevisions, key);
      if redis.reachable && redis.answers && entry in poolEntries {
        seen := poolEntries[entry];
        HitPoolSteps(Whole(), id, view, key);
      } else {
        seen := commits;
        LoadPoolSteps(Whole(), id, view, key, redis.reachable, redis.reachable && redis.stores);
        if redis.reachable && redis.stores {
          poolEntries := poolEntries[entry := seen];
        }
      }
      readers := WithSeen(Whole(), id, view, seen).readers;
    }

    /** What the loader of the merged view gathers: the pool sizes, then the pools of the plan in order. */
    method LoadMerged(ghost id: nat, plan: seq<PoolKey>, redis: seq<Redis>) returns (view: View)
      requires Valid() && id in readers && readers[id].plan == plan && readers[id].phase.MergedRevision?
      requires |redis| == |plan|
      modifies `poolEntries, `readers
      ensures Valid() && view.sizes == commits
      ensures readers.Keys == old(readers.Keys)
      ensures readers[id]
           == Reader(plan, old(readers[id].floor), Collecting(old(readers[id].phase.revision), view, NoFetch))
      ensures Gathering(poolEntries, view.pools)
           == Gather(old(poolEntries), EntriesOf(providerRevisions, plan), redis, commits)
    {
      hide Possible, Gather;
      ghost var floor, revision := readers[id].floor, readers[id].phase.revision;
      ghost var entries := EntriesOf(providerRevisions, plan);
      view := View(commits, []);
      StepPossible(Whole(), ReadSizes(id));
      readers := Apply(Whole(), ReadSizes(id)).readers;
      GatherNothing(poolEntries, commits);
      for n := 0 to |plan|
        invariant Valid() && |view.pools| == n && readers.Keys == old(readers.Keys) && view.sizes == commits
        invariant readers[id] == Reader(plan, floor, Collecting(revision, view, NoFetch))
        invariant Gathering(poolEntries, view.pools) == Gather(old(poolEntries), entries[..n], redis[..n], commits)
      {
        GatherNext(old(poolEntries), entries, redis, commits, n);
        var seen := CachedPool(id, view, plan[n], redis[n]);
        view := view.(pools := view.pools + [seen]);
      }
      assert entries[..|plan|] == entries && redis[..|plan|] == redis;
    }

    /** The upper level. The result shows every write whose invalidation had returned before the call: the stored
        view where Redis answers with one, and else what the loader gathers, which is then stored. */
    method CachedMergedDanmaku(ghost id: nat, plan: seq<PoolKey>, upper: Redis, lower: seq<Redis>)
      returns (view: View)
      requires Valid() && id !in readers && |lower| == |plan|
      modifies `poolEntries, `mergedEntries, `readers
      ensures Valid()
      ensures forall w | 0 <= w < |log| && FinishedBefore(old(Whole()), w) :: Shows(view, plan, log[w].provider, w)
      ensures var entry := MergedEntry(mergedRevision, plan);
              if upper.reachable && upper.answers && entry in old(mergedEntries)
              then view == old(mergedEntries)[entry]
                   && mergedEntries == old(mergedEntries) && poolEntries == old(poolEntries)
              else
                && view.sizes == commits && |view.pools| == |plan|
                && (forall i | 0 <= i < |plan| ::
                      || view.pools[i] == commits
                      || (&& lower[i].reachable && lower[i].answers
                          && EntryOf(providerRevisions, plan[i]) in old(poolEntries)
                          && view.pools[i] == old(poolEntries)[EntryOf(providerRevisions, plan[i])]))
                && Gathering(poolEntries, view.pools)
                   == Gather(old(poolEntries), EntriesOf(providerRevisions, plan), lower, commits)
                && mergedEntries == if upper.reachable && upper.stores then old(mergedEntries)[entry := view]
                                    else old(mergedEntries)
    {
      hide Possible, Shows, Floor, Gather, Apply, Enabled;
      BeginSteps(Whole(), id, plan, upper.reachable);
      readers := WithReader(Whole(), id, plan, upper.reachable).readers;
      if upper.reachable && upper.answers && MergedEntry(mergedRevision, plan) in mergedEntries {
        view := mergedEntries[MergedEntry(mergedRevision, plan)];
        HitMergedSteps(Whole(), id, MergedEntry(mergedRevision, plan));
      } else {
        view := LoadMerged(id, plan, lower);
        GatherAll(old(poolEntries), providerRevisions, plan, lower, commits);
        StoreMergedSteps(Whole(), id, view, mergedRevision, upper.reachable, upper.reachable && upper.stores);
        if upper.reachable && upper.stores {
          mergedEntries := mergedEntries[MergedEntry(mergedRevision, plan) := view];
        }
      }
      readers := readers[id := readers[id].(phase := Done(view))];
      DoneShows(Whole(), id, old(Whole()), view);
    }
  }
}
