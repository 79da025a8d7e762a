/** The all-or-nothing worker pool of internal/api/catalog_upstream.go, in every schedule of its workers,
    its producer, failures and cancellations. */
module Segments {
  import opened Collecting
  import opened Domain
  import opened Runs

  const MAX_COMMENTS := 1_000_000
  const WORKERS := 4

  type Segment = seq<DanmakuData>

  datatype Error = TooManyComments | Cancelled | Upstream(message: string)

  datatype Outcome = Success(value: Segment) | Failure(error: Error)

  datatype Worker =
    | Idle                             // receiving from the job channel
    | Received(n: nat)
    | Loading(n: nat)
    | Storing(n: nat, value: Segment)
    | Failing(error: Error)
    | Exited

  /** `data` is the shared slice, where a segment that never arrives stays empty. `loaded` records what
      load returned for each segment. */
  datatype State = State(
    count: nat,
    next: nat,
    workers: seq<Worker>,
    data: seq<Segment>,
    loaded: seq<Option<Segment>>,
    total: int,
    first: Option<Error>,
    cancelled: bool)

  datatype Step =
    | Deliver(w: nat)
    | SkipSend
    | CheckContext(w: nat)
    | LoadReturns(w: nat, value: Segment)
    | LoadFails(w: nat, error: Error)
    | Store(w: nat)
    | RecordError(w: nat)
    | Exit(w: nat)
    | CancelParent

  function Min(a: int, b: int): int {
    if a < b then a else b
  }

  function Nothing(count: nat): seq<Option<Segment>> {
    seq(count, _ => None)
  }

  function Start(count: nat): State {
    State(count, 0, seq(Min(count, WORKERS), _ => Idle), seq(count, _ => []), Nothing(count), 0, None, false)
  }

  predicate InRange(s: State, n: nat) {
    n < |s.data| && n < |s.loaded|
  }

  predicate Enabled(s: State, step: Step) {
    match step
    case Deliver(w) => s.next < s.count && w < |s.workers| && s.workers[w].Idle?
    case SkipSend => s.next < s.count && s.cancelled
    case CheckContext(w) => w < |s.workers| && s.workers[w].Received?
    case LoadReturns(w, _) => w < |s.workers| && s.workers[w].Loading? && InRange(s, s.workers[w].n)
    case LoadFails(w, _) => w < |s.workers| && s.workers[w].Loading?
    case Store(w) => w < |s.workers| && s.workers[w].Storing? && InRange(s, s.workers[w].n)
    case RecordError(w) => w < |s.workers| && s.workers[w].Failing?
    case Exit(w) => s.next == s.count && w < |s.workers| && s.workers[w].Idle?
    case CancelParent => true
  }

  function Become(s: State, w: nat, worker: Worker): State
    requires w < |s.workers|
  {
    s.(workers := s.workers[w := worker])
  }

  function Apply(s: State, step: Step): State
    requires Enabled(s, step)
  {
    match step
    case Deliver(w) => Become(s, w, Received(s.next)).(next := s.next + 1)
    case SkipSend => s.(next := s.next + 1)
    case CheckContext(w) => Become(s, w, if s.cancelled then Idle else Loading(s.workers[w].n))
    case LoadReturns(w, value) =>
      var n := s.workers[w].n;
      var total := s.total + |value|;
      Become(s, w, if total > MAX_COMMENTS then Failing(TooManyComments) else Storing(n, value))
        .(total := total, loaded := s.loaded[n := Some(value)])
    case LoadFails(w, error) => Become(s, w, Failing(error))
    case Store(w) => Become(s, w, Idle).(data := s.data[s.workers[w].n := s.workers[w].value])
    case RecordError(w) =>
      if s.first.None? then Become(s, w, Idle).(first := Some(s.workers[w].error), cancelled := true)
      else Become(s, w, Idle)
    case Exit(w) => Become(s, w, Exited)
    case CancelParent => s.(cancelled := true)
  }

  ghost predicate Finished(s: State) {
    s.next == s.count && forall w | 0 <= w < |s.workers| :: s.workers[w].Exited?
  }

  // ----- collecting the result -----

  function Itself(segment: Segment): Segment {
    segment
  }

  ghost function Flatten(segments: seq<Segment>): Segment {
    Collect(Itself, segments)
  }

  /** The loop after the workers are done. */
  method Concatenate(data: seq<Segment>) returns (outcome: Outcome)
    ensures |Flatten(data)| <= 1_000_000 ==> outcome == Success(Flatten(data))
    ensures |Flatten(data)| > 1_000_000 ==> outcome == Failure(TooManyComments)
  {
    var result: Segment := [];
    for i := 0 to |data|
      invariant result == Flatten(data[..i]) && |result| <= MAX_COMMENTS
    {
      CollectNext(Itself, data, i);
      if |result| + |data[i]| > MAX_COMMENTS {
        FlattenGrows(data, i + 1);
        return Failure(TooManyComments);
      }
      result := result + data[i];
    }
    assert data[..|data|] == data;
    return Success(result);
  }

  lemma {:induction false} FlattenGrows(data: seq<Segment>, i: nat)
    requires i <= |data|
    ensures |Flatten(data[..i])| <= |Flatten(data)|
    decreases |data| - i
  {
    if i == |data| {
      assert data[..i] == data;
    } else {
      CollectNext(Itself, data, i);
      FlattenGrows(data, i + 1);
    }
  }

  /** What fetchCatalogSegments returns once the workers are done. */
  ghost function Result(s: State): Outcome {
    if s.first.Some? then Failure(s.first.value)
    else if s.cancelled then Failure(Cancelled)
    else if |Flatten(s.data)| > MAX_COMMENTS then Failure(TooManyComments)
    else Success(Flatten(s.data))
  }

  /** The statements after the workers are done. */
  method Conclude(first: Option<Error>, cancelled: bool, data: seq<Segment>) returns (outcome: Outcome)
    ensures forall s: State | s.first == first && s.cancelled == cancelled && s.data == data :: outcome == Result(s)
    ensures first.Some? ==> outcome == Failure(first.value)
    ensures first.None? && cancelled ==> outcome == Failure(Cancelled)
    ensures first.None? && !cancelled && |Flatten(data)| <= 1_000_000 ==> outcome == Success(Flatten(data))
    ensures first.None? && !cancelled && |Flatten(data)| > 1_000_000 ==> outcome == Failure(TooManyComments)
  {
    if first.Some? {
      return Failure(first.value);
    }
    if cancelled {
      return Failure(Cancelled);
    }
    outcome := Concatenate(data);
  }

  // ----- the invariant -----

  ghost function Size(loaded: seq<Option<Segment>>): nat {
    if loaded == [] then 0
    else
      var last := loaded[|loaded| - 1];
      Size(loaded[..|loaded| - 1]) + (if last.Some? then |last.value| else 0)
  }

  predicate Holds(worker: Worker, n: nat) {
    (worker.Received? || worker.Loading? || worker.Storing?) && worker.n == n
  }

  ghost predicate Held(workers: seq<Worker>, n: nat) {
    exists w :: 0 <= w < |workers| && Holds(workers[w], n)
  }

  /** Something went wrong, or is about to be recorded. */
  ghost predicate Broken(s: State) {
    s.cancelled || s.first.Some? || exists w :: 0 <= w < |s.workers| && s.workers[w].Failing?
  }

  ghost predicate Shapes(s: State) {
    && |s.workers| == Min(s.count, WORKERS)
    && |s.data| == |s.loaded| == s.count
    && s.next <= s.count
    && (s.first.Some? ==> s.cancelled)
    && (forall n | s.next <= n < s.count :: s.loaded[n].None?)
    && (s.next < s.count ==> forall w | 0 <= w < |s.workers| :: !s.workers[w].Exited?)
  }

  /** Each worker holds a segment of its own, which is loaded exactly when it waits to be stored. */
  ghost predicate WorkerRight(s: State, w: nat)
    requires Shapes(s) && w < |s.workers|
  {
    var worker := s.workers[w];
    && (worker.Received? || worker.Loading? ==> worker.n < s.next && s.loaded[worker.n].None?)
    && (worker.Storing? ==> worker.n < s.next && s.loaded[worker.n] == Some(worker.value))
  }

  ghost predicate Exclusive(workers: seq<Worker>) {
    forall v, w, n | 0 <= v < |workers| && 0 <= w < |workers| && Holds(workers[v], n) && Holds(workers[w], n) :: v == w
  }

  ghost predicate Accounted(s: State, n: nat)
    requires Shapes(s) && n < s.next
  {
    Held(s.workers, n) || s.loaded[n] == Some(s.data[n])
  }

  ghost predicate Invariant(s: State) {
    && Shapes(s)
    && (forall w | 0 <= w < |s.workers| :: WorkerRight(s, w))
    && Exclusive(s.workers)
    && s.total == Size(s.loaded)
    && (!Broken(s) ==> s.total <= MAX_COMMENTS && forall n | 0 <= n < s.next :: Accounted(s, n))
  }

  lemma {:induction false} SizeUpdate(loaded: seq<Option<Segment>>, n: nat, value: Segment)
    requires n < |loaded| && loaded[n].None?
    ensures Size(loaded[n := Some(value)]) == Size(loaded) + |value|
  {
    var front := loaded[..|loaded| - 1];
    if n < |front| {
      SizeUpdate(front, n, value);
      assert loaded[n := Some(value)][..|loaded| - 1] == front[n := Some(value)];
    } else {
      assert loaded[n := Some(value)][..|loaded| - 1] == front;
    }
  }

  lemma {:induction false} SizeNothing(count: nat)
    ensures Size(Nothing(count)) == 0
  {
    if count > 0 {
      SizeNothing(count - 1);
      assert Nothing(count)[..count - 1] == Nothing(count - 1);
    }
  }

  lemma StartRight(count: nat)
    ensures Invariant(Start(count))
  {
    SizeNothing(count);
  }

  lemma BrokenStays(s: State, step: Step)
    requires Broken(s) && Enabled(s, step)
    ensures Broken(Apply(s, step))
  {
    var t := Apply(s, step);
    if !s.cancelled && s.first.None? {
      var w :| 0 <= w < |s.workers| && s.workers[w].Failing?;
      assert t.first.Some? || t.workers[w].Failing?;
    }
  }

  /** A step hands a worker nothing but the next segment. */
  lemma HoldsAfter(s: State, step: Step, w: nat, n: nat)
    requires Enabled(s, step) && w < |s.workers|
    ensures Holds(Apply(s, step).workers[w], n) ==>
              Holds(s.workers[w], n) || (step == Deliver(w) && n == s.next)
  {
  }

  lemma StepKeepsShapes(s: State, step: Step)
    requires Invariant(s) && Enabled(s, step)
    ensures Shapes(Apply(s, step)) && Exclusive(Apply(s, step).workers)
  {
    var t := Apply(s, step);
    if step.LoadReturns? {
      assert WorkerRight(s, step.w);
    }
    forall v, w, n | 0 <= v < |t.workers| && 0 <= w < |t.workers| && Holds(t.workers[v], n) && Holds(t.workers[w], n)
      ensures v == w
    {
      HoldsAfter(s, step, v, n);
      HoldsAfter(s, step, w, n);
      assert WorkerRight(s, v) && WorkerRight(s, w);
    }
  }

  lemma StepKeepsWorker(s: State, step: Step, w: nat)
    requires Invariant(s) && Enabled(s, step) && Shapes(Apply(s, step)) && w < |s.workers|
    ensures WorkerRight(Apply(s, step), w)
  {
    var t := Apply(s, step);
    assert WorkerRight(s, w);
    if step.LoadReturns? {
      assert Holds(s.workers[step.w], s.workers[step.w].n);
      if s.workers[w].Received? || s.workers[w].Loading? || s.workers[w].Storing? {
        assert Holds(s.workers[w], s.workers[w].n);
      }
    }
  }

  lemma StepKeepsWorkers(s: State, step: Step)
    requires Invariant(s) && Enabled(s, step)
    ensures Shapes(Apply(s, step)) && Exclusive(Apply(s, step).workers)
    ensures forall w | 0 <= w < |Apply(s, step).workers| :: WorkerRight(Apply(s, step), w)
  {
    StepKeepsShapes(s, step);
    forall w | 0 <= w < |s.workers| {
      StepKeepsWorker(s, step, w);
    }
  }

  lemma StepKeepsTotal(s: State, step: Step)
    requires Invariant(s) && Enabled(s, step)
    ensures Apply(s, step).total == Size(Apply(s, step).loaded)
    ensures !Broken(Apply(s, step)) ==> Apply(s, step).total <= MAX_COMMENTS
  {
    if !Broken(Apply(s, step)) && Broken(s) {
      BrokenStays(s, step);
    }
    if step.LoadReturns? {
      assert WorkerRight(s, step.w);
      SizeUpdate(s.loaded, s.workers[step.w].n, step.value);
      assert Apply(s, step).workers[step.w].Failing? || Apply(s, step).total <= MAX_COMMENTS;
    }
  }

  lemma StepKeepsAccounts(s: State, step: Step, n: nat)
    requires Invariant(s) && Enabled(s, step)
    requires Shapes(Apply(s, step)) && !Broken(Apply(s, step)) && n < Apply(s, step).next
    ensures Accounted(Apply(s, step), n)
  {
    var t := Apply(s, step);
    if Broken(s) {
      BrokenStays(s, step);
    } else if n == s.next {
      assert Holds(t.workers[step.w], n);
    } else {
      assert Accounted(s, n);
      if Held(s.workers, n) {
        var w :| 0 <= w < |s.workers| && Holds(s.workers[w], n);
        assert WorkerRight(s, w);
        assert Holds(t.workers[w], n) || t.workers[w].Failing? || t.loaded[n] == Some(t.data[n]);
      }
    }
  }

  lemma StepKeepsInvariant(s: State, step: Step)
    requires Invariant(s) && Enabled(s, step)
    ensures Invariant(Apply(s, step))
  {
    StepKeepsWorkers(s, step);
    StepKeepsTotal(s, step);
    if !Broken(Apply(s, step)) {
      forall n | 0 <= n < Apply(s, step).next {
        StepKeepsAccounts(s, step, n);
      }
    }
  }

  // ----- all runs -----

  ghost predicate Leads(s: State, t: State) {
    exists step :: Enabled(s, step) && t == Apply(s, step)
  }

  lemma InvariantHolds(count: nat, run: seq<State>)
    requires IsRun(Start(count), Leads, run)
    ensures forall i | 0 <= i < |run| :: Invariant(run[i])
  {
    StartRight(count);
    forall s, t | Invariant(s) && Leads(s, t)
      ensures Invariant(t)
    {
      var step :| Enabled(s, step) && t == Apply(s, step);
      StepKeepsInvariant(s, step);
    }
    KeptOverRun(Start(count), Leads, Invariant, run);
  }

  lemma CountStays(run: seq<State>, count: nat)
    requires IsRun(Start(count), Leads, run)
    ensures forall i | 0 <= i < |run| :: run[i].count == count
  {
    KeptOverRun(Start(count), Leads, (s: State) => s.count == count, run);
  }

  /** All or nothing: success means that every segment was loaded, and yields them all, in order. The only
      failures are a recorded error and a cancellation; the last size check never fires. */
  lemma AllOrNothing(count: nat, run: seq<State>, end: nat)
    requires IsRun(Start(count), Leads, run) && end < |run| && Finished(run[end])
    ensures var s := run[end];
            && |s.loaded| == count
            && (Result(s).Success? <==> s.first.None? && !s.cancelled)
            && (Result(s).Success? ==>
                  && (forall n | 0 <= n < count :: s.loaded[n].Some?)
                  && Result(s).value
                  == Flatten(seq(count, n requires 0 <= n < count && s.loaded[n].Some? => s.loaded[n].value)))
  {
    InvariantHolds(count, run);
    CountStays(run, count);
    var s := run[end];
    assert Invariant(s);
    if s.first.None? && !s.cancelled {
      forall n | 0 <= n < count
        ensures s.loaded[n] == Some(s.data[n])
      {
        assert Accounted(s, n);
      }
      assert s.data == seq(count, n requires 0 <= n < count && s.loaded[n].Some? => s.loaded[n].value);
      SizeIsFlat(s.loaded, s.data);
    }
  }

  lemma {:induction false} SizeIsFlat(loaded: seq<Option<Segment>>, data: seq<Segment>)
    requires |loaded| == |data| && forall n | 0 <= n < |data| :: loaded[n] == Some(data[n])
    ensures Size(loaded) == |Flatten(data)|
  {
    if data != [] {
      SizeIsFlat(loaded[..|data| - 1], data[..|data| - 1]);
    }
  }

  /** A step in which a segment is refused by load, skipped by a worker, or never handed to one. */
  predicate Loses(s: State, step: Step) {
    step.LoadFails? || step.SkipSend? || (step.CheckContext? && s.cancelled)
  }

  /** A single lost segment makes the whole fetch fail. */
  lemma LostSegmentFails(count: nat, run: seq<State>, i: nat, step: Step, end: nat)
    requires IsRun(Start(count), Leads, run) && i < end < |run| && Finished(run[end])
    requires Enabled(run[i], step) && run[i + 1] == Apply(run[i], step) && Loses(run[i], step)
    ensures Result(run[end]).Failure?
  {
    var t := run[i + 1];
    if step.LoadFails? {
      assert t.workers[step.w].Failing?;
    }
    forall s, t | Broken(s) && Leads(s, t)
      ensures Broken(t)
    {
      var step :| Enabled(s, step) && t == Apply(s, step);
      BrokenStays(s, step);
    }
    KeptFrom(Leads, Broken, run, i + 1, end);
    assert forall w | 0 <= w < |run[end].workers| :: !run[end].workers[w].Failing?;
  }

  // ----- which error is reported, and exactly when there is none -----

  /** A run together with the steps it takes. */
  ghost predicate Traced(count: nat, run: seq<State>, steps: seq<Step>) {
    && |run| == |steps| + 1 && run[0] == Start(count)
    && forall i | 0 <= i < |steps| :: Takes(run[i], steps[i], run[i + 1])
  }

  ghost predicate Takes(s: State, step: Step, t: State) {
    Enabled(s, step) && t == Apply(s, step)
  }

  lemma TracedIsRun(count: nat, run: seq<State>, steps: seq<Step>)
    requires Traced(count, run, steps)
    ensures IsRun(Start(count), Leads, run)
  {
    forall i | 0 <= i < |run| - 1
      ensures Leads(run[i], run[i + 1])
    {
      assert Takes(run[i], steps[i], run[i + 1]);
    }
  }

  lemma TracedPrefix(count: nat, run: seq<State>, steps: seq<Step>)
    requires Traced(count, run, steps) && steps != []
    ensures Traced(count, run[..|run| - 1], steps[..|steps| - 1])
    ensures Takes(run[|steps| - 1], steps[|steps| - 1], run[|steps|])
  {
    hide Takes;
    var front, less := run[..|run| - 1], steps[..|steps| - 1];
    forall i | 0 <= i < |less|
      ensures Takes(front[i], less[i], front[i + 1])
    {
      assert Takes(run[i], steps[i], run[i + 1]);
    }
  }

  lemma {:induction false} NoErrorYet(count: nat, run: seq<State>, steps: seq<Step>)
    requires Traced(count, run, steps) && forall i | 0 <= i < |steps| :: !steps[i].RecordError?
    ensures run[|steps|].first.None?
  {
    if steps != [] {
      TracedPrefix(count, run, steps);
      NoErrorYet(count, run[..|run| - 1], steps[..|steps| - 1]);
    }
  }

  lemma {:induction false} ErrorStays(count: nat, run: seq<State>, steps: seq<Step>, i: nat)
    requires Traced(count, run, steps) && i <= |steps| && run[i].first.Some?
    ensures run[|steps|].first == run[i].first
  {
    if i < |steps| {
      TracedPrefix(count, run, steps);
      ErrorStays(count, run[..|run| - 1], steps[..|steps| - 1], i);
    }
  }

  /** The first error recorded is the one reported, whatever is recorded or cancelled later. */
  lemma FirstErrorReported(count: nat, run: seq<State>, steps: seq<Step>, i: nat)
    requires Traced(count, run, steps) && i < |steps| && steps[i].RecordError?
    requires forall j | 0 <= j < i :: !steps[j].RecordError?
    ensures Enabled(run[i], steps[i]) && run[i].workers[steps[i].w].Failing?
    ensures Result(run[|steps|]) == Failure(run[i].workers[steps[i].w].error)
  {
    assert Takes(run[i], steps[i], run[i + 1]);
    assert Traced(count, run[..i + 1], steps[..i]) by {
      forall j | 0 <= j < i
        ensures Takes(run[..i + 1][j], steps[..i][j], run[..i + 1][j + 1])
      {
        assert Takes(run[j], steps[j], run[j + 1]);
      }
    }
    NoErrorYet(count, run[..i + 1], steps[..i]);
    ErrorStays(count, run, steps, i + 1);
  }

  /** Some load has returned this error, or more than 1,000,000 comments have been loaded. */
  ghost predicate Explained(steps: seq<Step>, total: int, error: Error) {
    || (exists i | 0 <= i < |steps| :: steps[i].LoadFails? && steps[i].error == error)
    || (error == TooManyComments && total > 1_000_000)
  }

  ghost predicate HasCancel(steps: seq<Step>) {
    exists i | 0 <= i < |steps| :: steps[i].CancelParent?
  }

  ghost predicate AllExplained(s: State, steps: seq<Step>) {
    && (forall w | 0 <= w < |s.workers| && s.workers[w].Failing? :: Explained(steps, s.total, s.workers[w].error))
    && (s.first.Some? ==> Explained(steps, s.total, s.first.value))
    && (s.cancelled ==> s.first.Some? || HasCancel(steps))
  }

  lemma MoreExplained(steps: seq<Step>, step: Step, total: int, more: int, error: Error)
    requires Explained(steps, total, error) && total <= more
    ensures Explained(steps + [step], more, error)
  {
    if i :| 0 <= i < |steps| && steps[i].LoadFails? && steps[i].error == error {
      assert (steps + [step])[i] == steps[i];
    }
  }

  lemma StepExplained(s: State, steps: seq<Step>, step: Step)
    requires AllExplained(s, steps) && Enabled(s, step)
    ensures AllExplained(Apply(s, step), steps + [step])
  {
    var t := Apply(s, step);
    assert (steps + [step])[|steps|] == step;
    assert HasCancel(steps) ==> HasCancel(steps + [step]) by {
      if i :| 0 <= i < |steps| && steps[i].CancelParent? {
        assert (steps + [step])[i] == steps[i];
      }
    }
    forall error | Explained(steps, s.total, error)
      ensures Explained(steps + [step], t.total, error)
    {
      MoreExplained(steps, step, s.total, t.total, error);
    }
    forall w | 0 <= w < |t.workers| && t.workers[w].Failing?
      ensures Explained(steps + [step], t.total, t.workers[w].error)
    {
      assert s.workers[w].Failing? ==> Explained(steps, s.total, s.workers[w].error);
    }
  }

  lemma {:induction false} RunExplained(count: nat, run: seq<State>, steps: seq<Step>)
    requires Traced(count, run, steps)
    ensures AllExplained(run[|steps|], steps)
  {
    if steps != [] {
      TracedPrefix(count, run, steps);
      var n := |steps| - 1;
      RunExplained(count, run[..n + 1], steps[..n]);
      StepExplained(run[n], steps[..n], steps[n]);
      assert steps == steps[..n] + [steps[n]];
    }
  }

  /** Every failure has its cause: an error that a load returned, too many comments, or an outside cancellation. */
  lemma FailureExplained(count: nat, run: seq<State>, steps: seq<Step>)
    requires Traced(count, run, steps) && Finished(run[|steps|]) && Result(run[|steps|]).Failure?
    ensures var error := Result(run[|steps|]).error;
            || (exists i | 0 <= i < |steps| :: steps[i].LoadFails? && steps[i].error == error)
            || (error == TooManyComments && Size(run[|steps|].loaded) > 1_000_000)
            || (error == Cancelled && exists i | 0 <= i < |steps| :: steps[i].CancelParent?)
  {
    TracedIsRun(count, run, steps);
    InvariantHolds(count, run);
    AllOrNothing(count, run, |steps|);
    RunExplained(count, run, steps);
    assert Invariant(run[|steps|]);
  }

  lemma {:induction false} CancelStays(count: nat, run: seq<State>, steps: seq<Step>, i: nat)
    requires Traced(count, run, steps) && i < |steps| && steps[i].CancelParent?
    ensures run[|steps|].cancelled
  {
    TracedPrefix(count, run, steps);
    if i < |steps| - 1 {
      CancelStays(count, run[..|run| - 1], steps[..|steps| - 1], i);
    }
  }

  /** The fetch succeeds exactly when no load fails, nobody cancels from outside, and the comments are not too many. */
  lemma SucceedsExactly(count: nat, run: seq<State>, steps: seq<Step>)
    requires Traced(count, run, steps) && Finished(run[|steps|])
    ensures Result(run[|steps|]).Success? <==>
              && (forall i | 0 <= i < |steps| :: !steps[i].LoadFails? && !steps[i].CancelParent?)
              && Size(run[|steps|].loaded) <= 1_000_000
  {
    TracedIsRun(count, run, steps);
    InvariantHolds(count, run);
    AllOrNothing(count, run, |steps|);
    assert Invariant(run[|steps|]);
    if Result(run[|steps|]).Success? {
      forall i | 0 <= i < |steps|
        ensures !steps[i].LoadFails? && !steps[i].CancelParent?
      {
        assert Takes(run[i], steps[i], run[i + 1]);
        if steps[i].LoadFails? {
          LostSegmentFails(count, run, i, steps[i], |steps|);
        }
        if steps[i].CancelParent? {
          CancelStays(count, run, steps, i);
        }
      }
    } else {
      FailureExplained(count, run, steps);
    }
  }

  ghost function Loaders(s: State): set<nat> {
    set w | 0 <= w < |s.workers| && s.workers[w].Loading?
  }

  /** At most four loads run at once, and no two of them load the same segment. */
  lemma BoundedConcurrency(count: nat, run: seq<State>, i: nat)
    requires IsRun(Start(count), Leads, run) && i < |run|
    ensures |Loaders(run[i])| <= 4
    ensures forall v, w | v in Loaders(run[i]) && w in Loaders(run[i]) && v != w ::
              run[i].workers[v].n != run[i].workers[w].n
  {
    InvariantHolds(count, run);
    assert Invariant(run[i]);
    var s := run[i];
    UpToSize(Loaders(s), |s.workers|);
    forall v, w | v in Loaders(s) && w in Loaders(s) && v != w
      ensures s.workers[v].n != s.workers[w].n
    {
      assert Holds(s.workers[v], s.workers[v].n) && Holds(s.workers[w], s.workers[w].n);
    }
  }

  lemma {:induction false} UpToSize(a: set<nat>, bound: nat)
    requires forall x | x in a :: x < bound
    ensures |a| <= bound
  {
    if bound > 0 {
      UpToSize(a - {bound - 1}, bound - 1);
    }
  }

  // ----- termination -----

  function Remaining(worker: Worker): nat {
    match worker
    case Received(_) => 4
    case Loading(_) => 3
    case Storing(_, _) => 2
    case Failing(_) => 2
    case Idle => 1
    case Exited => 0
  }

  ghost function Work(workers: seq<Worker>): nat {
    if workers == [] then 0 else Work(workers[..|workers| - 1]) + Remaining(workers[|workers| - 1])
  }

  lemma {:induction false} WorkUpdate(workers: seq<Worker>, w: nat, worker: Worker)
    requires w < |workers|
    ensures Work(workers[w := worker]) + Remaining(workers[w]) == Work(workers) + Remaining(worker)
  {
    var front := workers[..|workers| - 1];
    if w < |front| {
      WorkUpdate(front, w, worker);
      assert workers[w := worker][..|workers| - 1] == front[w := worker];
    } else {
      assert workers[w := worker][..|workers| - 1] == front;
    }
  }

  ghost function Measure(s: State): int {
    4 * (s.count - s.next) + Work(s.workers)
  }

  /** Every step but an outside cancellation brings the end nearer. */
  lemma StepsRunOut(s: State, step: Step)
    requires Enabled(s, step) && !step.CancelParent?
    ensures Measure(Apply(s, step)) < Measure(s)
  {
    if !step.SkipSend? {
      WorkUpdate(s.workers, step.w, Apply(s, step).workers[step.w]);
    }
  }

  /** And until the end there is always a step to take: no schedule deadlocks. */
  lemma NeverStuck(s: State)
    requires Invariant(s) && !Finished(s)
    ensures exists step :: Enabled(s, step) && !step.CancelParent?
  {
    var w := if s.next < s.count then 0 else var v :| 0 <= v < |s.workers| && !s.workers[v].Exited?; v;
    assert WorkerRight(s, w);
    var step := match s.workers[w]
      case Received(_) => CheckContext(w)
      case Loading(_) => LoadFails(w, Cancelled)
      case Storing(_, _) => Store(w)
      case Failing(_) => RecordError(w)
      case Idle => if s.next < s.count then Deliver(w) else Exit(w)
      case Exited => SkipSend;
    assert Enabled(s, step);
  }
}
