/** The in-process cache of merged views, used when no Redis is configured: internal/store/redis_cache.go. */
module MergedMemory {
  import opened Domain
  import opened Runs

  const WRAP := 0x1_0000_0000_0000_0000  // the revision is a uint64
  const CAPACITY := 128
  const HOUR := 3_600_000_000_000        // in nanoseconds

  /** The cache key names the video and its bindings, so it fixes how many pools a load reads. */
  datatype Identity = Identity(video: string, pools: nat)

  datatype Entry<T> = Entry(data: T, expires: int)

  datatype Cache<T> = Cache(revision: nat, entries: map<Identity, Entry<T>>)

  function Invalidated<T>(cache: Cache<T>): Cache<T> {
    Cache((cache.revision + 1) % WRAP, map[])
  }

  function Published<T>(cache: Cache<T>, revision: nat, identity: Identity, data: T, ttl: int, now: int): Cache<T> {
    if revision != cache.revision then cache
    else
      var entries := if |cache.entries| >= CAPACITY then map[] else cache.entries;
      cache.(entries := entries[identity := Entry(data, now + if ttl <= 0 then HOUR else ttl)])
  }

  function Lookup<T>(cache: Cache<T>, identity: Identity, now: int): Option<T> {
    if identity in cache.entries && now < cache.entries[identity].expires
    then Some(cache.entries[identity].data)
    else None
  }

  // ----- the system: writers, readers, and the cache -----

  /** A load reads its pools one after the other; each shows a prefix of the commit log. */
  type View = seq<nat>

  datatype Phase = Loading(view: View) | Done(result: View)

  /** `begun` counts the invalidations before the read began, `floor` the writes they belong to. */
  datatype Reader = Reader(identity: Identity, seen: nat, begun: nat, floor: set<nat>, phase: Phase)

  /** For each commit, whether its invalidation has run; how many have run in all. */
  datatype State = State(log: seq<bool>, bumps: nat, cache: Cache<View>, readers: map<nat, Reader>)

  datatype Step =
    | Commit
    | Invalidate(write: nat)
    | Begin(id: nat, identity: Identity, now: int)
    | LoadPool(id: nat)
    | Publish(id: nat, ttl: int, now: int)

  const Initial := State([], 0, Cache(0, map[]), map[])

  predicate Enabled(s: State, step: Step) {
    match step
    case Commit => true
    case Invalidate(w) => w < |s.log| && !s.log[w]
    case Begin(id, _, _) => id !in s.readers
    case LoadPool(id) =>
      && id in s.readers && s.readers[id].phase.Loading?
      && |s.readers[id].phase.view| < s.readers[id].identity.pools
    case Publish(id, _, _) =>
      && id in s.readers && s.readers[id].phase.Loading?
      && |s.readers[id].phase.view| == s.readers[id].identity.pools
  }

  function Apply(s: State, step: Step): State
    requires Enabled(s, step)
  {
    match step
    case Commit => s.(log := s.log + [false])
    case Invalidate(w) => s.(log := s.log[w := true], bumps := s.bumps + 1, cache := Invalidated(s.cache))
    case Begin(id, identity, now) =>
      var hit := Lookup(s.cache, identity, now);
      var floor := set w | 0 <= w < |s.log| && s.log[w];
      var phase := if hit.Some? then Done(hit.value) else Loading([]);
      s.(readers := s.readers[id := Reader(identity, s.cache.revision, s.bumps, floor, phase)])
    case LoadPool(id) =>
      var reader := s.readers[id];
      s.(readers := s.readers[id := reader.(phase := Loading(reader.phase.view + [|s.log|]))])
    case Publish(id, ttl, now) =>
      var reader := s.readers[id];
      s.(cache := Published(s.cache, reader.seen, reader.identity, reader.phase.view, ttl, now),
         readers := s.readers[id := reader.(phase := Done(reader.phase.view))])
  }

  ghost predicate Shows(s: State, view: View, w: nat) {
    forall i | 0 <= i < |view| :: w < view[i] <= |s.log|
  }

  ghost predicate EntryFresh(s: State, identity: Identity)
    requires identity in s.cache.entries
  {
    && |s.cache.entries[identity].data| == identity.pools
    && forall w | 0 <= w < |s.log| && s.log[w] :: Shows(s, s.cache.entries[identity].data, w)
  }

  function ViewOf(phase: Phase): View {
    match phase
    case Loading(view) => view
    case Done(view) => view
  }

  ghost predicate ReaderFresh(s: State, reader: Reader) {
    && (reader.phase.Loading? ==> |reader.phase.view| <= reader.identity.pools)
    && (reader.phase.Done? ==> |reader.phase.result| == reader.identity.pools)
    && (forall w | w in reader.floor :: w < |s.log| && s.log[w] && Shows(s, ViewOf(reader.phase), w))
    && (reader.begun == s.bumps ==> forall w | 0 <= w < |s.log| && s.log[w] :: w in reader.floor)
  }

  ghost predicate Fresh(s: State) {
    && (forall identity | identity in s.cache.entries :: EntryFresh(s, identity))
    && (forall id | id in s.readers :: ReaderFresh(s, s.readers[id]))
  }

  ghost predicate Counted(s: State) {
    && s.cache.revision == s.bumps % WRAP
    && forall id | id in s.readers :: s.readers[id].begun <= s.bumps && s.readers[id].seen == s.readers[id].begun % WRAP
  }

  /** The counts and the bound of the map hold always, freshness until the revision wraps around. */
  ghost predicate Invariant(s: State) {
    && Counted(s)
    && |s.cache.entries| <= CAPACITY
    && (s.bumps < WRAP ==> Fresh(s))
  }

  lemma PublishedBounded<T>(cache: Cache<T>, revision: nat, identity: Identity, data: T, ttl: int, now: int)
    requires |cache.entries| <= CAPACITY
    ensures |Published(cache, revision, identity, data, ttl, now).entries| <= CAPACITY
  {
  }

  /** A load that straddled an invalidation is discarded, a load that did not is stored: exactly so until
      2^64 invalidations pass between. */
  lemma PublishesExactlyUnstraddled(s: State, id: nat, ttl: int, now: int)
    requires Counted(s) && Enabled(s, Publish(id, ttl, now))
    ensures var reader := s.readers[id];
            var after := Apply(s, Publish(id, ttl, now)).cache;
            && ((s.bumps - reader.begun) % WRAP != 0 ==> after == s.cache)
            && ((s.bumps - reader.begun) % WRAP == 0 ==>
                  reader.identity in after.entries && after.entries[reader.identity].data == reader.phase.view)
            && (s.bumps < WRAP && reader.begun < s.bumps ==> after == s.cache)
  {
  }

  lemma StepKeepsReaderFresh(s: State, step: Step, id: nat)
    requires Counted(s) && Fresh(s) && s.bumps < WRAP && Enabled(s, step)
    requires id in Apply(s, step).readers
    ensures ReaderFresh(Apply(s, step), Apply(s, step).readers[id])
  {
  }

  lemma StepKeepsEntryFresh(s: State, step: Step, identity: Identity)
    requires Counted(s) && Fresh(s) && s.bumps < WRAP && Enabled(s, step)
    requires identity in Apply(s, step).cache.entries && Apply(s, step).bumps < WRAP
    ensures EntryFresh(Apply(s, step), identity)
  {
  }

  lemma StepKeepsFresh(s: State, step: Step)
    requires Counted(s) && Fresh(s) && s.bumps < WRAP && Enabled(s, step)
    ensures Apply(s, step).bumps < WRAP ==> Fresh(Apply(s, step))
  {
    hide Apply, ReaderFresh, EntryFresh;
    var t := Apply(s, step);
    if t.bumps < WRAP {
      forall id | id in t.readers {
        StepKeepsReaderFresh(s, step, id);
      }
      forall identity | identity in t.cache.entries {
        StepKeepsEntryFresh(s, step, identity);
      }
    }
  }

  lemma StepKeepsInvariant(s: State, step: Step)
    requires Invariant(s) && Enabled(s, step)
    ensures Invariant(Apply(s, step))
  {
    if s.bumps < WRAP {
      StepKeepsFresh(s, step);
    }
    if step.Publish? {
      var reader := s.readers[step.id];
      PublishedBounded(s.cache, reader.seen, reader.identity, reader.phase.view, step.ttl, step.now);
    }
    StepKeepsCounted(s, step);
  }

  lemma StepKeepsCounted(s: State, step: Step)
    requires Counted(s) && Enabled(s, step)
    ensures Counted(Apply(s, step))
  {
  }

  ghost predicate Leads(s: State, t: State) {
    exists step :: Enabled(s, step) && t == Apply(s, step)
  }

  lemma InvariantHolds(run: seq<State>)
    requires IsRun(Initial, Leads, run)
    ensures forall i | 0 <= i < |run| :: Invariant(run[i])
  {
    forall s, t | Invariant(s) && Leads(s, t)
      ensures Invariant(t)
    {
      var step :| Enabled(s, step) && t == Apply(s, step);
      StepKeepsInvariant(s, step);
    }
    KeptOverRun(Initial, Leads, Invariant, run);
  }

  /** At most 128 entries, and every entry was loaded after the commit of every invalidation completed so far. */
  lemma EntriesAreFresh(run: seq<State>, i: nat)
    requires IsRun(Initial, Leads, run) && i < |run|
    ensures Counted(run[i]) && |run[i].cache.entries| <= 128
    ensures run[i].bumps < WRAP ==>
              forall identity | identity in run[i].cache.entries :: EntryFresh(run[i], identity)
  {
    InvariantHolds(run);
    assert Invariant(run[i]);
  }

  ghost predicate BeganAfter(s: State, id: nat, w: nat) {
    && w < |s.log| && s.log[w]
    && (id in s.readers ==> w in s.readers[id].floor)
  }

  /** A read that begins after write w was invalidated shows w. */
  lemma ReadsAreFresh(run: seq<State>, start: nat, end: nat, id: nat, w: nat)
    requires IsRun(Initial, Leads, run) && start < end < |run|
    requires run[end].bumps < WRAP
    requires w < |run[start].log| && run[start].log[w]
    requires id !in run[start].readers
    requires id in run[end].readers && run[end].readers[id].phase.Done?
    ensures Shows(run[end], run[end].readers[id].phase.result, w)
  {
    var holds := s => BeganAfter(s, id, w);
    forall s, t | holds(s) && Leads(s, t)
      ensures holds(t)
    {
      var step :| Enabled(s, step) && t == Apply(s, step);
    }
    KeptFrom(Leads, holds, run, start, end);
    InvariantHolds(run);
    assert Invariant(run[end]);
    assert ReaderFresh(run[end], run[end].readers[id]);
  }

  // ----- the program -----

  ghost predicate Possible(s: State) {
    Reachable(Initial, Leads, s)
  }

  lemma PossibleInvariant(s: State)
    requires Possible(s)
    ensures Invariant(s)
  {
    var run :| IsRun(Initial, Leads, run) && run[|run| - 1] == s;
    InvariantHolds(run);
  }

  lemma StepPossible(s: State, step: Step)
    requires Possible(s) && Enabled(s, step)
    ensures Possible(Apply(s, step)) && Invariant(Apply(s, step))
  {
    NextReachable(Initial, Leads, s, Apply(s, step));
    PossibleInvariant(Apply(s, step));
  }

  /** The view holds every pool and shows every write whose invalidation has run. */
  ghost predicate ShowsAll(s: State, identity: Identity, view: View) {
    |view| == identity.pools && forall w | 0 <= w < |s.log| && s.log[w] :: Shows(s, view, w)
  }

  lemma BeginEffect(s: State, id: nat, identity: Identity, now: int)
    requires Possible(s) && Enabled(s, Begin(id, identity, now))
    ensures var t := Apply(s, Begin(id, identity, now));
            && Possible(t) && t == s.(readers := t.readers)
            && (t.bumps < WRAP && t.readers[id].phase.Done? ==> ShowsAll(t, identity, t.readers[id].phase.result))
  {
    StepPossible(s, Begin(id, identity, now));
    var t := Apply(s, Begin(id, identity, now));
    assert t.bumps < WRAP ==> ReaderFresh(t, t.readers[id]);
  }

  /** What publishing stores, and what it leaves alone. */
  lemma StoresExactly(cache: Cache<View>, reader: Reader, begun: nat, bumps: nat, view: View, ttl: int, now: int)
    requires begun <= bumps && reader.seen == begun % WRAP && cache.revision == bumps % WRAP
    ensures var after := Published(cache, reader.seen, reader.identity, view, ttl, now);
            && (if (bumps - begun) % WRAP == 0
                then && reader.identity in after.entries
                     && after.entries[reader.identity]
                     == Entry(view, now + (if ttl <= 0 then 3_600_000_000_000 else ttl))
                else after == cache)
            && (|cache.entries| < 128 ==> forall other | other in cache.entries && other != reader.identity ::
                  other in after.entries && after.entries[other] == cache.entries[other])
  {
  }

  /** What publishing does to the object: the bound is kept, and all entries stay fresh. */
  lemma PublishEffect(s: State, id: nat, ttl: int, now: int)
    requires Possible(s) && Enabled(s, Publish(id, ttl, now))
    ensures var reader, t := s.readers[id], Apply(s, Publish(id, ttl, now));
            && Possible(t) && |t.cache.entries| <= CAPACITY && reader.begun <= s.bumps
            && reader.seen == reader.begun % WRAP && s.cache.revision == s.bumps % WRAP
            && (t.bumps < WRAP ==> forall identity | identity in t.cache.entries :: EntryFresh(t, identity))
            && (t.bumps < WRAP && reader.begun == s.bumps ==> ShowsAll(t, reader.identity, reader.phase.view))
  {
    var t := Apply(s, Publish(id, ttl, now));
    PossibleInvariant(s);
    StepPossible(s, Publish(id, ttl, now));
    assert t.bumps < WRAP ==> ReaderFresh(t, t.readers[id]);
  }

  /** `commits` is what a load from the database shows. Every method is one region under the mutex, but for the
      last, which is a call without interference. */
  class MergedMemoryCache {
    var commits: nat
    var revision: nat
    var entries: map<Identity, Entry<View>>
    ghost var log: seq<bool>
    ghost var bumps: nat
    ghost var readers: map<nat, Reader>

    ghost function Whole(): State
      reads this
    {
      State(log, bumps, Cache(revision, entries), readers)
    }

    ghost predicate Valid()
      reads this
    {
      Possible(Whole()) && commits == |log|
    }

    constructor ()
      ensures Valid() && Whole() == Initial
    {
      commits, revision, entries := 0, 0, map[];
      log, bumps, readers := [], 0, map[];
      InitialReachable(Initial, Leads);
    }

    method Commit() returns (ghost write: nat)
      requires Valid()
      modifies `commits, `log
      ensures Valid() && write == |old(log)| && log == old(log) + [false]
    {
      StepPossible(Whole(), Step.Commit);
      write := |log|;
      commits := commits + 1;
      log := log + [false];
    }

    /** The first region and the expiry test behind it: a hit shows every invalidated write. */
    method Find(ghost id: nat, identity: Identity, now: int) returns (seen: nat, hit: Option<View>)
      requires Valid() && id !in readers
      modifies `readers
      ensures Valid() && Whole() == Apply(old(Whole()), Begin(id, identity, now))
      ensures seen == revision == readers[id].seen && readers[id].begun == bumps
      ensures hit ==
                if identity in entries && now < entries[identity].expires then Some(entries[identity].data) else None
      ensures readers[id].phase == if hit.Some? then Done(hit.value) else Loading([])
      ensures hit.Some? && bumps < WRAP ==> ShowsAll(Whole(), identity, hit.value)
    {
      BeginEffect(Whole(), id, identity, now);
      hide Possible;
      seen := revision;
      hit := None;
      if identity in entries {
        var entry := entries[identity];
        if now < entry.expires {
          hit := Some(entry.data);
        }
      }
      readers := Apply(Whole(), Begin(id, identity, now)).readers;
    }

    /** The load of every pool, in order, outside the mutex. */
    method Load(ghost id: nat, identity: Identity) returns (view: View)
      requires Valid() && id in readers && readers[id].identity == identity && readers[id].phase == Loading([])
      modifies `readers
      ensures Valid() && |view| == identity.pools && forall i | 0 <= i < |view| :: view[i] == commits
      ensures readers == old(readers)[id := old(readers)[id].(phase := Loading(view))]
    {
      view := [];
      for n := 0 to identity.pools
        invariant Valid() && |view| == n && forall i | 0 <= i < n :: view[i] == commits
        invariant readers == old(readers)[id := old(readers)[id].(phase := Loading(view))]
      {
        StepPossible(Whole(), LoadPool(id));
        view := view + [commits];
        readers := readers[id := readers[id].(phase := Loading(view))];
      }
    }

    /** The second region: a load that straddled an invalidation is discarded, one that did not is stored, and
        every entry there is stays bounded and fresh. */
    method Publish(ghost id: nat, seen: nat, identity: Identity, view: View, ttl: int, now: int)
      requires Valid() && Enabled(Whole(), Step.Publish(id, ttl, now))
      requires readers[id].seen == seen && readers[id].identity == identity && readers[id].phase == Loading(view)
      modifies `entries, `readers
      ensures Valid() && Whole() == Apply(old(Whole()), Step.Publish(id, ttl, now))
      ensures |entries| <= 128 && readers[id] == old(readers)[id].(phase := Done(view))
      ensures readers[id].begun < bumps < WRAP ==> entries == old(entries)
      ensures readers[id].begun == bumps ==>
                && identity in entries
                && entries[identity] == Entry(view, now + (if ttl <= 0 then 3_600_000_000_000 else ttl))
      ensures |old(entries)| < 128 ==> forall other | other in old(entries) && other != identity ::
                other in entries && entries[other] == old(entries)[other]
      ensures readers[id].begun == bumps < WRAP ==> ShowsAll(Whole(), identity, view)
      ensures bumps < WRAP ==> forall i | i in entries :: EntryFresh(Whole(), i)
    {
      PublishEffect(Whole(), id, ttl, now);
      StoresExactly(Cache(revision, entries), readers[id], readers[id].begun, bumps, view, ttl, now);
      hide Possible, EntryFresh, ShowsAll;
      ghost var after := Apply(Whole(), Step.Publish(id, ttl, now));
      if seen == revision {
        if |entries| >= CAPACITY {
          entries := map[];
        }
        var lifetime := ttl;
        if lifetime <= 0 {
          lifetime := HOUR;
        }
        entries := entries[identity := Entry(view, now + lifetime)];
      }
      readers := readers[id := readers[id].(phase := Done(view))];
      assert Whole() == after;
    }

    /** Nothing stored before survives, and no load begun before will be stored. */
    method InvalidateDanmakuCache(ghost write: nat)
      requires Valid() && Enabled(Whole(), Invalidate(write))
      modifies this
      ensures Valid() && Whole() == Apply(old(Whole()), Invalidate(write))
      ensures entries == map[] && log[write] && readers == old(readers)
      ensures forall id | id in readers :: readers[id].begun < bumps
    {
      PossibleInvariant(Whole());
      StepPossible(Whole(), Invalidate(write));
      hide Possible;
      revision := (revision + 1) % WRAP;
      entries := map[];
      log := log[write := true];
      bumps := bumps + 1;
    }

    /** A whole call: its result shows every write whose invalidation had run before. */
    method CachedMergedDanmaku(ghost id: nat, identity: Identity, ttl: int, now: int, later: int) returns (view: View)
      requires Valid() && id !in readers
      modifies `entries, `readers
      ensures Valid() && |entries| <= 128
      ensures identity in old(entries) && now < old(entries)[identity].expires ==> view == old(entries)[identity].data
      ensures !(identity in old(entries) && now < old(entries)[identity].expires) ==>
                && |view| == identity.pools && (forall i | 0 <= i < |view| :: view[i] == commits)
                && identity in entries
                && entries[identity] == Entry(view, later + (if ttl <= 0 then 3_600_000_000_000 else ttl))
      ensures bumps < WRAP ==> ShowsAll(Whole(), identity, view)
    {
      var seen, hit := Find(id, identity, now);
      if hit.Some? {
        PossibleInvariant(Whole());
        return hit.value;
      }
      view := Load(id, identity);
      Publish(id, seen, identity, view, ttl, later);
    }
  }
}
