/** The two-level Redis cache of internal/store/redis_cache.go as a system of interleaved steps.
    Provider pools are cached under their provider's revision, and the merged view, computed from
    them, under the merged revision. A cached value is modelled by how much of the commit log it shows. */
module RedisCache {
  import opened Domain
  import opened Runs

  datatype PoolKey = PoolKey(provider: string, pool: string)

  /** A committed change of one provider's rows and the two revisions its invalidation has reached. */
  datatype Write = Write(provider: string, providerMark: Option<nat>, mergedMark: Option<nat>)

  /** For the pool sizes and for each pool of the plan: how many commits the value has seen. */
  datatype View = View(sizes: nat, pools: seq<nat>)

  datatype PoolEntry = PoolEntry(revision: nat, key: PoolKey)
  datatype MergedEntry = MergedEntry(revision: nat, plan: seq<PoolKey>)

  /** Where a reader is with the next pool of its plan. A missing revision means that the lookup of the
      revision failed, so the reader loads from the database and stores nothing. */
  datatype Fetch =
    | NoFetch
    | PoolRevision(revision: Option<nat>)
    | PoolLoaded(revision: Option<nat>, seen: nat)

  datatype Phase =
    | Begun
    | MergedRevision(revision: Option<nat>)
    | Collecting(revision: Option<nat>, view: View, fetch: Fetch)
    | Done(result: View)

  /** A read of the merged view. `floor` records the writes whose invalidation had returned when it began. */
  datatype Reader = Reader(plan: seq<PoolKey>, floor: set<nat>, phase: Phase)

  datatype State = State(
    log: seq<Write>,
    providerRevisions: map<string, nat>,
    mergedRevision: nat,
    poolEntries: map<PoolEntry, nat>,
    mergedEntries: map<MergedEntry, View>,
    readers: map<nat, Reader>)

  datatype Step =
    | Commit(provider: string)
    | BumpProvider(write: nat)
    | BumpMerged(write: nat)
    | ExpirePool(pool: PoolEntry)
    | ExpireMerged(merged: MergedEntry)
    | BeginRead(id: nat, plan: seq<PoolKey>)
    | ReadMergedRevision(id: nat, reachable: bool)
    | HitMerged(id: nat)
    | ReadSizes(id: nat)
    | ReadPoolRevision(id: nat, reachable: bool)
    | HitPool(id: nat)
    | LoadPool(id: nat)
    | StorePool(id: nat, stored: bool)
    | StoreMerged(id: nat, stored: bool)

  const Initial := State([], map[], 0, map[], map[], map[])

  function RevisionOf(s: State, provider: string): nat {
    if provider in s.providerRevisions then s.providerRevisions[provider] else 0
  }

  function NextPool(reader: Reader): PoolKey
    requires reader.phase.Collecting? && |reader.phase.view.pools| < |reader.plan|
  {
    reader.plan[|reader.phase.view.pools|]
  }

  predicate Fetching(reader: Reader) {
    reader.phase.Collecting? && |reader.phase.view.pools| < |reader.plan|
  }

  predicate Enabled(s: State, step: Step) {
    match step
    case Commit(_) => true
    case BumpProvider(w) => w < |s.log| && s.log[w].providerMark.None?
    case BumpMerged(w) => w < |s.log| && s.log[w].providerMark.Some? && s.log[w].mergedMark.None?
    case ExpirePool(entry) => entry in s.poolEntries
    case ExpireMerged(entry) => entry in s.mergedEntries
    case BeginRead(id, _) => id !in s.readers
    case ReadMergedRevision(id, _) => id in s.readers && s.readers[id].phase.Begun?
    case HitMerged(id) =>
      && id in s.readers && s.readers[id].phase.MergedRevision? && s.readers[id].phase.revision.Some?
      && MergedEntry(s.readers[id].phase.revision.value, s.readers[id].plan) in s.mergedEntries
    case ReadSizes(id) => id in s.readers && s.readers[id].phase.MergedRevision?
    case ReadPoolRevision(id, _) =>
      id in s.readers && Fetching(s.readers[id]) && s.readers[id].phase.fetch.NoFetch?
    case HitPool(id) =>
      && id in s.readers && Fetching(s.readers[id])
      && s.readers[id].phase.fetch.PoolRevision? && s.readers[id].phase.fetch.revision.Some?
      && PoolEntry(s.readers[id].phase.fetch.revision.value, NextPool(s.readers[id])) in s.poolEntries
    case LoadPool(id) =>
      id in s.readers && Fetching(s.readers[id]) && s.readers[id].phase.fetch.PoolRevision?
    case StorePool(id, _) =>
      id in s.readers && Fetching(s.readers[id]) && s.readers[id].phase.fetch.PoolLoaded?
    case StoreMerged(id, _) =>
      && id in s.readers && s.readers[id].phase.Collecting?
      && |s.readers[id].phase.view.pools| == |s.readers[id].plan|
  }

  function SetPhase(s: State, id: nat, phase: Phase): State
    requires id in s.readers
  {
    s.(readers := s.readers[id := s.readers[id].(phase := phase)])
  }

  function Collected(phase: Phase, seen: nat): Phase
    requires phase.Collecting?
  {
    Collecting(phase.revision, phase.view.(pools := phase.view.pools + [seen]), NoFetch)
  }

  function Apply(s: State, step: Step): State
    requires Enabled(s, step)
  {
    match step
    case Commit(provider) => s.(log := s.log + [Write(provider, None, None)])
    case BumpProvider(w) =>
      var revision := RevisionOf(s, s.log[w].provider) + 1;
      s.(providerRevisions := s.providerRevisions[s.log[w].provider := revision],
         log := s.log[w := s.log[w].(providerMark := Some(revision))])
    case BumpMerged(w) =>
      s.(mergedRevision := s.mergedRevision + 1,
         log := s.log[w := s.log[w].(mergedMark := Some(s.mergedRevision + 1))])
    case ExpirePool(entry) => s.(poolEntries := s.poolEntries - {entry})
    case ExpireMerged(entry) => s.(mergedEntries := s.mergedEntries - {entry})
    case BeginRead(id, plan) =>
      var floor := set w | 0 <= w < |s.log| && s.log[w].mergedMark.Some?;
      s.(readers := s.readers[id := Reader(plan, floor, Begun)])
    case ReadMergedRevision(id, reachable) =>
      SetPhase(s, id, MergedRevision(if reachable then Some(s.mergedRevision) else None))
    case HitMerged(id) =>
      SetPhase(s, id, Done(s.mergedEntries[MergedEntry(s.readers[id].phase.revision.value, s.readers[id].plan)]))
    case ReadSizes(id) =>
      SetPhase(s, id, Collecting(s.readers[id].phase.revision, View(|s.log|, []), NoFetch))
    case ReadPoolRevision(id, reachable) =>
      var revision := if reachable then Some(RevisionOf(s, NextPool(s.readers[id]).provider)) else None;
      SetPhase(s, id, s.readers[id].phase.(fetch := PoolRevision(revision)))
    case HitPool(id) =>
      var seen := s.poolEntries[PoolEntry(s.readers[id].phase.fetch.revision.value, NextPool(s.readers[id]))];
      SetPhase(s, id, Collected(s.readers[id].phase, seen))
    case LoadPool(id) =>
      SetPhase(s, id, s.readers[id].phase.(fetch := PoolLoaded(s.readers[id].phase.fetch.revision, |s.log|)))
    case StorePool(id, stored) =>
      var fetch := s.readers[id].phase.fetch;
      var after := SetPhase(s, id, Collected(s.readers[id].phase, fetch.seen));
      if stored && fetch.revision.Some?
      then after.(poolEntries := s.poolEntries[PoolEntry(fetch.revision.value, NextPool(s.readers[id])) := fetch.seen])
      else after
    case StoreMerged(id, stored) =>
      var phase := s.readers[id].phase;
      var after := SetPhase(s, id, Done(phase.view));
      if stored && phase.revision.Some?
      then after.(mergedEntries := s.mergedEntries[MergedEntry(phase.revision.value, s.readers[id].plan) := phase.view])
      else after
  }

  // ----- freshness -----

  /** The value shows write w wherever the write matters to it. */
  ghost predicate Shows(view: View, plan: seq<PoolKey>, provider: string, w: nat) {
    && view.sizes > w
    && |view.pools| == |plan|
    && forall i | 0 <= i < |plan| :: plan[i].provider == provider ==> view.pools[i] > w
  }

  ghost predicate MarkedBy(mark: Option<nat>, revision: nat) {
    mark.Some? && mark.value <= revision
  }

  /** The value shows nothing that is not committed. */
  ghost predicate Committed(s: State, view: View) {
    view.sizes <= |s.log| && forall i | 0 <= i < |view.pools| :: view.pools[i] <= |s.log|
  }

  /** A pool stored under revision r shows every write whose provider bump is at most r. */
  ghost predicate PoolEntryFresh(s: State, entry: PoolEntry)
    requires entry in s.poolEntries
  {
    && entry.revision <= RevisionOf(s, entry.key.provider)
    && s.poolEntries[entry] <= |s.log|
    && forall w | 0 <= w < |s.log| ::
         s.log[w].provider == entry.key.provider && MarkedBy(s.log[w].providerMark, entry.revision)
         ==> s.poolEntries[entry] > w
  }

  /** A merged view stored under revision m shows every write whose merged bump is at most m. */
  ghost predicate MergedEntryFresh(s: State, entry: MergedEntry)
    requires entry in s.mergedEntries
  {
    && entry.revision <= s.mergedRevision
    && |s.mergedEntries[entry].pools| == |entry.plan|
    && Committed(s, s.mergedEntries[entry])
    && forall w | 0 <= w < |s.log| ::
         MarkedBy(s.log[w].mergedMark, entry.revision)
         ==> Shows(s.mergedEntries[entry], entry.plan, s.log[w].provider, w)
  }

  /** The writes a reader has to show: those finished before it began, and those its revision counts. */
  ghost predicate Owes(s: State, floor: set<nat>, revision: Option<nat>, w: nat)
    requires w < |s.log|
  {
    w in floor || (revision.Some? && MarkedBy(s.log[w].mergedMark, revision.value))
  }

  ghost predicate ShowsPrefix(view: View, plan: seq<PoolKey>, provider: string, w: nat) {
    && view.sizes > w
    && |view.pools| <= |plan|
    && forall i | 0 <= i < |view.pools| :: plan[i].provider == provider ==> view.pools[i] > w
  }

  ghost predicate FetchFresh(write: Write, fetch: Fetch, w: nat) {
    match fetch
    case NoFetch => true
    case PoolRevision(revision) => revision.Some? ==> MarkedBy(write.providerMark, revision.value)
    case PoolLoaded(_, seen) => seen > w
  }

  /** A loaded pool shows everything its own revision counts, so it may be stored under that revision. */
  ghost predicate FetchStorable(s: State, fetch: Fetch, provider: string) {
    match fetch
    case NoFetch => true
    case PoolRevision(revision) => revision.Some? ==> revision.value <= RevisionOf(s, provider)
    case PoolLoaded(revision, seen) =>
      && seen <= |s.log|
      && (revision.Some? ==>
        && revision.value <= RevisionOf(s, provider)
        && forall w | 0 <= w < |s.log| ::
             s.log[w].provider == provider && MarkedBy(s.log[w].providerMark, revision.value) ==> seen > w)
  }

  ghost predicate FloorDone(s: State, floor: set<nat>) {
    forall w | w in floor :: w < |s.log| && s.log[w].mergedMark.Some?
  }

  ghost predicate RevisionCovers(s: State, floor: set<nat>, revision: Option<nat>) {
    revision.Some? ==>
      && revision.value <= s.mergedRevision
      && forall w | w in floor && w < |s.log| :: MarkedBy(s.log[w].mergedMark, revision.value)
  }

  ghost predicate ReaderFresh(s: State, reader: Reader) {
    && FloorDone(s, reader.floor)
    && match reader.phase
       case Begun => true
       case MergedRevision(revision) => RevisionCovers(s, reader.floor, revision)
       case Collecting(revision, view, fetch) =>
         && RevisionCovers(s, reader.floor, revision)
         && |view.pools| <= |reader.plan| && Committed(s, view)
         && (|view.pools| == |reader.plan| ==> fetch.NoFetch?)
         && (|view.pools| < |reader.plan| ==> FetchStorable(s, fetch, reader.plan[|view.pools|].provider))
         && (forall w | 0 <= w < |s.log| && Owes(s, reader.floor, revision, w) ::
               && ShowsPrefix(view, reader.plan, s.log[w].provider, w)
               && (|view.pools| < |reader.plan| && reader.plan[|view.pools|].provider == s.log[w].provider
                   ==> FetchFresh(s.log[w], fetch, w)))
       case Done(view) =>
         && |view.pools| == |reader.plan| && Committed(s, view)
         && forall w | w in reader.floor :: w < |s.log| && Shows(view, reader.plan, s.log[w].provider, w)
  }

  ghost predicate MarksOrdered(s: State) {
    forall w | 0 <= w < |s.log| ::
      && (s.log[w].providerMark.Some? ==> s.log[w].providerMark.value <= RevisionOf(s, s.log[w].provider))
      && (s.log[w].mergedMark.Some? ==> s.log[w].providerMark.Some? && s.log[w].mergedMark.value <= s.mergedRevision)
  }

  ghost predicate Invariant(s: State) {
    && MarksOrdered(s)
    && (forall entry | entry in s.poolEntries :: PoolEntryFresh(s, entry))
    && (forall entry | entry in s.mergedEntries :: MergedEntryFresh(s, entry))
    && (forall id | id in s.readers :: ReaderFresh(s, s.readers[id]))
  }

  lemma CommitKeeps(s: State, provider: string)
    requires Invariant(s)
    ensures Invariant(Apply(s, Commit(provider)))
  {
    var t := Apply(s, Commit(provider));
    forall id | id in t.readers
      ensures ReaderFresh(t, t.readers[id])
    {
      assert ReaderFresh(s, s.readers[id]);
    }
  }

  lemma BumpProviderKeeps(s: State, w: nat)
    requires Invariant(s) && Enabled(s, BumpProvider(w))
    ensures Invariant(Apply(s, BumpProvider(w)))
  {
    var t := Apply(s, BumpProvider(w));
    assert s.log[w].mergedMark.None?;
    forall id | id in t.readers
      ensures ReaderFresh(t, t.readers[id])
    {
      assert ReaderFresh(s, s.readers[id]);
    }
  }

  lemma BumpMergedKeeps(s: State, w: nat)
    requires Invariant(s) && Enabled(s, BumpMerged(w))
    ensures Invariant(Apply(s, BumpMerged(w)))
  {
    var t := Apply(s, BumpMerged(w));
    forall id | id in t.readers
      ensures ReaderFresh(t, t.readers[id])
    {
      assert ReaderFresh(s, s.readers[id]);
    }
  }

  /** Freshness speaks of the log and the revisions alone. */
  ghost predicate SameClock(s: State, t: State) {
    s.log == t.log && s.providerRevisions == t.providerRevisions && s.mergedRevision == t.mergedRevision
  }

  lemma ReaderFreshTransfers(s: State, t: State, reader: Reader)
    requires SameClock(s, t) && ReaderFresh(s, reader)
    ensures ReaderFresh(t, reader)
  {
  }

  lemma SetPhaseKeeps(s: State, id: nat, phase: Phase)
    requires Invariant(s) && id in s.readers
    requires ReaderFresh(s, s.readers[id].(phase := phase))
    ensures Invariant(SetPhase(s, id, phase))
  {
    var t := SetPhase(s, id, phase);
    forall other | other in t.readers
      ensures ReaderFresh(t, t.readers[other])
    {
      ReaderFreshTransfers(s, t, t.readers[other]);
    }
  }

  lemma BeginKeeps(s: State, id: nat, plan: seq<PoolKey>)
    requires Invariant(s) && Enabled(s, BeginRead(id, plan))
    ensures Invariant(Apply(s, BeginRead(id, plan)))
  {
  }

  lemma ReadMergedRevisionKeeps(s: State, id: nat, reachable: bool)
    requires Invariant(s) && Enabled(s, ReadMergedRevision(id, reachable))
    ensures Invariant(Apply(s, ReadMergedRevision(id, reachable)))
  {
    SetPhaseKeeps(s, id, MergedRevision(if reachable then Some(s.mergedRevision) else None));
  }

  lemma HitMergedKeeps(s: State, id: nat)
    requires Invariant(s) && Enabled(s, HitMerged(id))
    ensures Invariant(Apply(s, HitMerged(id)))
  {
    var reader := s.readers[id];
    var entry := MergedEntry(reader.phase.revision.value, reader.plan);
    assert MergedEntryFresh(s, entry) && ReaderFresh(s, reader);
    SetPhaseKeeps(s, id, Done(s.mergedEntries[entry]));
  }

  lemma ReadSizesKeeps(s: State, id: nat)
    requires Invariant(s) && Enabled(s, ReadSizes(id))
    ensures Invariant(Apply(s, ReadSizes(id)))
  {
    assert ReaderFresh(s, s.readers[id]);
    SetPhaseKeeps(s, id, Collecting(s.readers[id].phase.revision, View(|s.log|, []), NoFetch));
  }

  lemma ReadPoolRevisionKeeps(s: State, id: nat, reachable: bool)
    requires Invariant(s) && Enabled(s, ReadPoolRevision(id, reachable))
    ensures Invariant(Apply(s, ReadPoolRevision(id, reachable)))
  {
    var reader := s.readers[id];
    assert ReaderFresh(s, reader);
    var revision := if reachable then Some(RevisionOf(s, NextPool(reader).provider)) else None;
    SetPhaseKeeps(s, id, reader.phase.(fetch := PoolRevision(revision)));
  }

  lemma CollectedFresh(s: State, reader: Reader, seen: nat)
    requires ReaderFresh(s, reader) && Fetching(reader) && seen <= |s.log|
    requires forall w | 0 <= w < |s.log| && Owes(s, reader.floor, reader.phase.revision, w) ::
               NextPool(reader).provider == s.log[w].provider ==> seen > w
    ensures ReaderFresh(s, reader.(phase := Collected(reader.phase, seen)))
  {
  }

  lemma HitPoolKeeps(s: State, id: nat)
    requires Invariant(s) && Enabled(s, HitPool(id))
    ensures Invariant(Apply(s, HitPool(id)))
  {
    var reader := s.readers[id];
    var entry := PoolEntry(reader.phase.fetch.revision.value, NextPool(reader));
    assert ReaderFresh(s, reader) && PoolEntryFresh(s, entry);
    CollectedFresh(s, reader, s.poolEntries[entry]);
    SetPhaseKeeps(s, id, Collected(reader.phase, s.poolEntries[entry]));
  }

  lemma LoadPoolKeeps(s: State, id: nat)
    requires Invariant(s) && Enabled(s, LoadPool(id))
    ensures Invariant(Apply(s, LoadPool(id)))
  {
    var reader := s.readers[id];
    assert ReaderFresh(s, reader);
    SetPhaseKeeps(s, id, reader.phase.(fetch := PoolLoaded(reader.phase.fetch.revision, |s.log|)));
  }

  lemma StorePoolKeeps(s: State, id: nat, stored: bool)
    requires Invariant(s) && Enabled(s, StorePool(id, stored))
    ensures Invariant(Apply(s, StorePool(id, stored)))
  {
    var reader := s.readers[id];
    var fetch := reader.phase.fetch;
    assert ReaderFresh(s, reader);
    CollectedFresh(s, reader, fetch.seen);
    SetPhaseKeeps(s, id, Collected(reader.phase, fetch.seen));
    if stored && fetch.revision.Some? {
      var after := SetPhase(s, id, Collected(reader.phase, fetch.seen));
      var t := Apply(s, StorePool(id, stored));
      forall entry | entry in t.poolEntries
        ensures PoolEntryFresh(t, entry)
      {
        assert entry in s.poolEntries ==> PoolEntryFresh(s, entry);
      }
      forall other | other in t.readers
        ensures ReaderFresh(t, t.readers[other])
      {
        ReaderFreshTransfers(after, t, t.readers[other]);
      }
    }
  }

  lemma StoreMergedKeeps(s: State, id: nat, stored: bool)
    requires Invariant(s) && Enabled(s, StoreMerged(id, stored))
    ensures Invariant(Apply(s, StoreMerged(id, stored)))
  {
    var reader := s.readers[id];
    var phase := reader.phase;
    assert ReaderFresh(s, reader);
    SetPhaseKeeps(s, id, Done(phase.view));
    if stored && phase.revision.Some? {
      var after := SetPhase(s, id, Done(phase.view));
      var t := Apply(s, StoreMerged(id, stored));
      forall other | other in t.readers
        ensures ReaderFresh(t, t.readers[other])
      {
        ReaderFreshTransfers(after, t, t.readers[other]);
      }
    }
  }

  lemma StepKeepsInvariant(s: State, step: Step)
    requires Invariant(s) && Enabled(s, step)
    ensures Invariant(Apply(s, step))
  {
    match step
    case Commit(provider) => CommitKeeps(s, provider);
    case BumpProvider(w) => BumpProviderKeeps(s, w);
    case BumpMerged(w) => BumpMergedKeeps(s, w);
    case ExpirePool(_) => ExpiryKeeps(s, Apply(s, step));
    case ExpireMerged(_) => ExpiryKeeps(s, Apply(s, step));
    case BeginRead(id, plan) => BeginKeeps(s, id, plan);
    case ReadMergedRevision(id, reachable) => ReadMergedRevisionKeeps(s, id, reachable);
    case HitMerged(id) => HitMergedKeeps(s, id);
    case ReadSizes(id) => ReadSizesKeeps(s, id);
    case ReadPoolRevision(id, reachable) => ReadPoolRevisionKeeps(s, id, reachable);
    case HitPool(id) => HitPoolKeeps(s, id);
    case LoadPool(id) => LoadPoolKeeps(s, id);
    case StorePool(id, stored) => StorePoolKeeps(s, id, stored);
    case StoreMerged(id, stored) => StoreMergedKeeps(s, id, stored);
  }

  lemma ExpiryKeeps(s: State, t: State)
    requires Invariant(s) && SameClock(s, t) && t.readers == s.readers
    requires t.poolEntries.Keys <= s.poolEntries.Keys && t.mergedEntries.Keys <= s.mergedEntries.Keys
    requires forall entry | entry in t.poolEntries :: t.poolEntries[entry] == s.poolEntries[entry]
    requires forall entry | entry in t.mergedEntries :: t.mergedEntries[entry] == s.mergedEntries[entry]
    ensures Invariant(t)
  {
  }

  // ----- all runs -----

  ghost predicate Leads(s: State, t: State) {
    exists step :: Enabled(s, step) && t == Apply(s, step)
  }

  lemma InvariantHolds(run: seq<State>)
    requires IsRun(Initial, Leads, run)
    ensures forall i | 0 <= i < |run| :: Invariant(run[i])
  {
    forall s, t | Invariant(s) && Leads(s, t)
      ensures Invariant(t)
    {
      var step :| Enabled(s, step) && t == Apply(s, step);
      StepKeepsInvariant(s, step);
    }
    KeptOverRun(Initial, Leads, Invariant, run);
  }

  /** In every interleaving, every stored value shows every write that its own revision counts. */
  lemma StoredEntriesAreFresh(run: seq<State>, i: nat)
    requires IsRun(Initial, Leads, run) && i < |run|
    ensures forall entry | entry in run[i].mergedEntries :: MergedEntryFresh(run[i], entry)
    ensures forall entry | entry in run[i].poolEntries :: PoolEntryFresh(run[i], entry)
  {
    InvariantHolds(run);
    assert Invariant(run[i]);
  }

  /** The read is on record as having begun after write w was finished. */
  ghost predicate BeganAfter(s: State, id: nat, w: nat) {
    && w < |s.log| && s.log[w].mergedMark.Some?
    && (id in s.readers ==> w in s.readers[id].floor)
  }

  lemma BeganAfterKept(s: State, step: Step, id: nat, w: nat)
    requires BeganAfter(s, id, w) && Enabled(s, step)
    ensures BeganAfter(Apply(s, step), id, w)
  {
  }

  lemma BeganAfterHolds(run: seq<State>, start: nat, end: nat, id: nat, w: nat)
    requires start <= end < |run|
    requires forall i | start <= i < end :: Leads(run[i], run[i + 1])
    requires BeganAfter(run[start], id, w)
    ensures BeganAfter(run[end], id, w)
  {
    var holds := s => BeganAfter(s, id, w);
    forall s, t | holds(s) && Leads(s, t)
      ensures holds(t)
    {
      var step :| Enabled(s, step) && t == Apply(s, step);
      BeganAfterKept(s, step, id, w);
    }
    KeptFrom(Leads, holds, run, start, end);
  }

  /** A read that begins after a writer's invalidation returned never yields data older than that write. */
  lemma ReadsAreFresh(run: seq<State>, start: nat, end: nat, id: nat, w: nat)
    requires IsRun(Initial, Leads, run) && start < end < |run|
    requires w < |run[start].log| && run[start].log[w].mergedMark.Some?
    requires id !in run[start].readers
    requires id in run[end].readers && run[end].readers[id].phase.Done?
    ensures w < |run[end].log|
    ensures var reader := run[end].readers[id];
            && Shows(reader.phase.result, reader.plan, run[end].log[w].provider, w)
            && Committed(run[end], reader.phase.result)
  {
    BeganAfterHolds(run, start, end, id, w);
    InvariantHolds(run);
    assert Invariant(run[end]);
    assert ReaderFresh(run[end], run[end].readers[id]);
  }
}
