/** The bounded background scheduler of internal/api/refresh.go: one step for each lock region, channel
    operation or deferred call, in any interleaving. */
module Refresh {
  import opened Runs

  const MAX_KEYS := 256
  const SLOTS := 8

  /** The calls that a goroutine defers. */
  datatype Deferred = FinishGroup | DropKey | StopTimer | ReleaseSlot

  datatype Place = Starting | Waiting | Admitted | Fetching | Returning

  /** `pending` is the stack of deferred calls: each defer pushes one, the return pops them. */
  datatype Task = Task(key: string, place: Place, pending: seq<Deferred>)

  /** `started` lists the keys whose fetch has been called, in order. */
  datatype State = State(
    active: set<string>,
    group: int,
    slots: int,
    closed: bool,
    cancelled: bool,
    closers: nat,
    closeReturned: bool,
    started: seq<string>,
    tasks: map<nat, Task>)

  datatype Step =
    | Schedule(id: nat, key: string)
    | Start(id: nat)                        // defers the first three calls
    | TakeSlot(id: nat)                     // and defers its release
    | GiveUp(id: nat)                       // the context is done while waiting: cancelled or timed out
    | CheckContext(id: nat, expired: bool)
    | FetchReturns(id: nat, panicked: bool)
    | RunDeferred(id: nat)
    | CancelParent
    | MarkClosed
    | CloseReturns

  const Initial := State({}, 0, 0, false, false, 0, false, [], map[])

  predicate Refuses(s: State, key: string) {
    s.closed || s.cancelled || key in s.active || |s.active| >= MAX_KEYS
  }

  predicate AtPlace(s: State, id: nat, place: Place) {
    id in s.tasks && s.tasks[id].place == place
  }

  predicate Enabled(s: State, step: Step) {
    match step
    case Schedule(id, _) => id !in s.tasks
    case Start(id) => AtPlace(s, id, Starting)
    case TakeSlot(id) => AtPlace(s, id, Waiting) && s.slots < SLOTS
    case GiveUp(id) => AtPlace(s, id, Waiting)
    case CheckContext(id, _) => AtPlace(s, id, Admitted)
    case FetchReturns(id, _) => AtPlace(s, id, Fetching)
    case RunDeferred(id) => AtPlace(s, id, Returning) && s.tasks[id].pending != []
    case CancelParent => true
    case MarkClosed => true
    case CloseReturns => s.closers > 0 && s.group == 0
  }

  function Top(stack: seq<Deferred>): Deferred
    requires stack != []
  {
    stack[|stack| - 1]
  }

  function Popped(stack: seq<Deferred>): seq<Deferred>
    requires stack != []
  {
    stack[..|stack| - 1]
  }

  /** The goroutine as it goes on, or none when its last deferred call has run. */
  function TaskAfter(s: State, step: Step): Task
    requires Enabled(s, step) && IsTaskStep(step)
  {
    var task := s.tasks[step.id];
    match step
    case Start(_) => task.(place := Waiting, pending := task.pending + [FinishGroup] + [DropKey] + [StopTimer])
    case TakeSlot(_) => task.(place := Admitted, pending := task.pending + [ReleaseSlot])
    case GiveUp(_) => task.(place := Returning)
    case CheckContext(_, expired) => task.(place := if s.cancelled || expired then Returning else Fetching)
    case FetchReturns(_, _) => task.(place := Returning)
    case RunDeferred(_) => task.(pending := Popped(task.pending))
  }

  predicate IsTaskStep(step: Step) {
    step.Start? || step.TakeSlot? || step.GiveUp? || step.CheckContext? || step.FetchReturns? || step.RunDeferred?
  }

  function Called(s: State, task: Task): State
    requires task.pending != []
  {
    match Top(task.pending)
    case FinishGroup => s.(group := s.group - 1)
    case DropKey => s.(active := s.active - {task.key})
    case StopTimer => s
    case ReleaseSlot => s.(slots := s.slots - 1)
  }

  function Apply(s: State, step: Step): State
    requires Enabled(s, step)
  {
    match step
    case Schedule(id, key) =>
      if Refuses(s, key) then s
      else s.(active := s.active + {key}, group := s.group + 1, tasks := s.tasks[id := Task(key, Starting, [])])
    case TakeSlot(id) => s.(slots := s.slots + 1, tasks := s.tasks[id := TaskAfter(s, step)])
    case CheckContext(id, _) =>
      var task := TaskAfter(s, step);
      s.(tasks := s.tasks[id := task], started := if task.place == Fetching then s.started + [task.key] else s.started)
    case RunDeferred(id) =>
      var task := TaskAfter(s, step);
      Called(s, s.tasks[id]).(tasks := if task.pending == [] then s.tasks - {id} else s.tasks[id := task])
    case CancelParent => s.(cancelled := true)
    case MarkClosed => s.(closed := true, cancelled := true, closers := s.closers + 1)
    case CloseReturns => s.(closeReturned := true)
    case _ => s.(tasks := s.tasks[step.id := TaskAfter(s, step)])
  }

  // ----- the invariant -----

  predicate HoldsSlot(task: Task) {
    ReleaseSlot in task.pending
  }

  /** A goroutine owns its key until the call that drops it has run. */
  predicate OwnsKey(task: Task) {
    task.place != Returning || DropKey in task.pending
  }

  predicate Owns(tasks: map<nat, Task>, id: nat) {
    id in tasks && OwnsKey(tasks[id])
  }

  /** The first n calls that a goroutine defers. */
  function Stack(n: nat): (stack: seq<Deferred>)
    requires n <= 4
    ensures |stack| == n
    ensures ReleaseSlot in stack <==> n == 4
    ensures DropKey in stack <==> n >= 2
  {
    match n
    case 0 => []
    case 1 => [FinishGroup]
    case 2 => [FinishGroup, DropKey]
    case 3 => [FinishGroup, DropKey, StopTimer]
    case _ => [FinishGroup, DropKey, StopTimer, ReleaseSlot]
  }

  lemma StackPop(n: nat)
    requires 1 <= n <= 4
    ensures Popped(Stack(n)) == Stack(n - 1)
    ensures Top(Stack(n)) == FinishGroup <==> n == 1
    ensures Top(Stack(n)) == DropKey <==> n == 2
    ensures Top(Stack(n)) == StopTimer <==> n == 3
    ensures Top(Stack(n)) == ReleaseSlot <==> n == 4
  {
  }

  /** What is on top tells what has been called already. */
  lemma StackOrder(n: nat)
    requires 1 <= n <= 4
    ensures FinishGroup in Stack(n)
    ensures Top(Stack(n)) == DropKey ==> ReleaseSlot !in Stack(n) && DropKey in Stack(n)
    ensures Top(Stack(n)) == FinishGroup ==> ReleaseSlot !in Stack(n) && DropKey !in Stack(n) && Popped(Stack(n)) == []
    ensures ReleaseSlot in Stack(n) ==> Top(Stack(n)) == ReleaseSlot
  {
    assert Stack(n)[0] == FinishGroup;
  }

  lemma StackPush(pending: seq<Deferred>)
    ensures pending == Stack(0) ==> pending + [FinishGroup] + [DropKey] + [StopTimer] == Stack(3)
    ensures pending == Stack(3) ==> pending + [ReleaseSlot] == Stack(4)
  {
    if pending == [] {
      assert pending + [FinishGroup] == [FinishGroup];
    }
  }

  /** Whatever the exit, the calls still pending are the first ones deferred. */
  predicate TaskRight(task: Task) {
    && |task.pending| <= 4 && task.pending == Stack(|task.pending|)
    && match task.place
       case Starting => |task.pending| == 0
       case Waiting => |task.pending| == 3
       case Admitted => |task.pending| == 4
       case Fetching => |task.pending| == 4
       case Returning => |task.pending| >= 1
  }

  ghost function Holders(tasks: map<nat, Task>): set<nat> {
    set id | id in tasks && HoldsSlot(tasks[id])
  }

  ghost function Fetchers(tasks: map<nat, Task>): set<nat> {
    set id | id in tasks && tasks[id].place == Fetching
  }

  ghost predicate TasksRight(tasks: map<nat, Task>) {
    forall id | id in tasks :: TaskRight(tasks[id])
  }

  ghost predicate Counted(slots: int, group: int, tasks: map<nat, Task>) {
    slots == |Holders(tasks)| <= SLOTS && group == |tasks.Keys|
  }

  /** Two goroutines share a key only once one of them has dropped it. */
  ghost predicate KeysUnique(tasks: map<nat, Task>) {
    forall i, j | Owns(tasks, i) && Owns(tasks, j) && tasks[i].key == tasks[j].key :: i == j
  }

  /** The active set is exactly the keys that are owned. */
  ghost predicate ActiveMatches(active: set<string>, tasks: map<nat, Task>) {
    && (forall id | Owns(tasks, id) :: tasks[id].key in active)
    && (forall key | key in active :: exists id :: Owns(tasks, id) && tasks[id].key == key)
  }

  ghost predicate FlagsRight(s: State) {
    && (s.closed <==> s.closers > 0)
    && (s.closed ==> s.cancelled)
    && (s.closeReturned ==> s.closed && s.group == 0)
  }

  ghost predicate Invariant(s: State) {
    && TasksRight(s.tasks)
    && Counted(s.slots, s.group, s.tasks)
    && |s.active| <= MAX_KEYS
    && KeysUnique(s.tasks)
    && ActiveMatches(s.active, s.tasks)
    && FlagsRight(s)
  }

  function Token(task: Task): int {
    if HoldsSlot(task) then 1 else 0
  }

  /** What a step of a goroutine does, told by its stack: the slot goes with the call that releases it, the
      key with the call that drops it, and the goroutine with its last call. */
  ghost predicate TaskEffect(s: State, t: State, id: nat, task: Task)
    requires id in s.tasks
  {
    var before := s.tasks[id];
    && task.key == before.key && t.slots == s.slots + Token(task) - Token(before)
    && (s.slots <= SLOTS ==> t.slots <= SLOTS)
    && (if task.place == Returning && task.pending == []
        then !OwnsKey(before) && !HoldsSlot(before) && t.tasks == s.tasks - {id} && t.group == s.group - 1
        else TaskRight(task) && t.tasks == s.tasks[id := task] && t.group == s.group)
    && (if OwnsKey(before) && !OwnsKey(task)
        then !HoldsSlot(before) && t.active == s.active - {before.key}
        else OwnsKey(task) == OwnsKey(before) && t.active == s.active)
  }

  lemma RunDeferredEffect(s: State, id: nat)
    requires Enabled(s, RunDeferred(id)) && TaskRight(s.tasks[id])
    ensures TaskEffect(s, Apply(s, RunDeferred(id)), id, TaskAfter(s, RunDeferred(id)))
  {
    StackPop(|s.tasks[id].pending|);
    hide Stack;
  }

  lemma StartEffect(s: State, id: nat)
    requires Enabled(s, Start(id)) && TaskRight(s.tasks[id])
    ensures TaskEffect(s, Apply(s, Start(id)), id, TaskAfter(s, Start(id)))
  {
    StackPush(s.tasks[id].pending);
    hide Stack;
  }

  lemma TakeSlotEffect(s: State, id: nat)
    requires Enabled(s, TakeSlot(id)) && TaskRight(s.tasks[id])
    ensures TaskEffect(s, Apply(s, TakeSlot(id)), id, TaskAfter(s, TakeSlot(id)))
  {
    StackPush(s.tasks[id].pending);
    hide Stack;
  }

  lemma OtherEffect(s: State, step: Step)
    requires step.GiveUp? || step.CheckContext? || step.FetchReturns?
    requires Enabled(s, step) && TaskRight(s.tasks[step.id])
    ensures TaskEffect(s, Apply(s, step), step.id, TaskAfter(s, step))
  {
    hide Stack;
  }

  lemma TaskStepEffect(s: State, step: Step)
    requires Enabled(s, step) && IsTaskStep(step) && TaskRight(s.tasks[step.id])
    ensures TaskEffect(s, Apply(s, step), step.id, TaskAfter(s, step))
  {
    hide Apply, TaskAfter, TaskEffect, TaskRight, Enabled;
    match step
    case RunDeferred(id) => RunDeferredEffect(s, id);
    case Start(id) => StartEffect(s, id);
    case TakeSlot(id) => TakeSlotEffect(s, id);
    case _ => OtherEffect(s, step);
  }

  lemma MoveKeepsCounts(slots: int, group: int, tasks: map<nat, Task>, id: nat, task: Task)
    requires Counted(slots, group, tasks) && id in tasks
    requires slots + Token(task) - Token(tasks[id]) <= SLOTS
    ensures Counted(slots + Token(task) - Token(tasks[id]), group, tasks[id := task])
  {
    assert Holders(tasks[id := task]) == if HoldsSlot(task) then Holders(tasks) + {id} else Holders(tasks) - {id};
    assert tasks[id := task].Keys == tasks.Keys;
    assert id in Holders(tasks) <==> HoldsSlot(tasks[id]);
  }

  lemma AdmitKeepsCounts(slots: int, group: int, tasks: map<nat, Task>, id: nat, key: string)
    requires Counted(slots, group, tasks) && id !in tasks
    ensures Counted(slots, group + 1, tasks[id := Task(key, Starting, [])])
  {
    var added := tasks[id := Task(key, Starting, [])];
    assert Holders(added) == Holders(tasks);
    assert added.Keys == tasks.Keys + {id};
  }

  lemma LeaveKeepsCounts(slots: int, group: int, tasks: map<nat, Task>, id: nat)
    requires Counted(slots, group, tasks) && id in tasks && !HoldsSlot(tasks[id])
    ensures Counted(slots, group - 1, tasks - {id})
  {
    assert Holders(tasks - {id}) == Holders(tasks);
    assert (tasks - {id}).Keys == tasks.Keys - {id};
  }

  lemma TaskStepCounts(s: State, step: Step)
    requires TasksRight(s.tasks) && Counted(s.slots, s.group, s.tasks) && Enabled(s, step) && IsTaskStep(step)
    ensures var t := Apply(s, step); TasksRight(t.tasks) && Counted(t.slots, t.group, t.tasks)
  {
    TaskStepEffect(s, step);
    var task := TaskAfter(s, step);
    assert |Holders(s.tasks)| == s.slots <= SLOTS;
    hide Apply, TaskAfter, Counted, HoldsSlot, TaskRight, OwnsKey, Token, Enabled;
    if task.place == Returning && task.pending == [] {
      LeaveKeepsCounts(s.slots, s.group, s.tasks, step.id);
    } else {
      MoveKeepsCounts(s.slots, s.group, s.tasks, step.id, task);
    }
  }

  /** Slots in use follow the goroutines that hold one; the wait group follows the goroutines. */
  lemma StepCounts(s: State, step: Step)
    requires TasksRight(s.tasks) && Counted(s.slots, s.group, s.tasks) && Enabled(s, step)
    ensures var t := Apply(s, step); TasksRight(t.tasks) && Counted(t.slots, t.group, t.tasks)
  {
    if IsTaskStep(step) {
      hide *;
      TaskStepCounts(s, step);
    } else if step.Schedule? {
      AdmitKeepsCounts(s.slots, s.group, s.tasks, step.id, step.key);
    }
  }

  lemma MoveKeepsKeys(active: set<string>, tasks: map<nat, Task>, id: nat, task: Task)
    requires KeysUnique(tasks) && ActiveMatches(active, tasks)
    requires id in tasks && task.key == tasks[id].key && OwnsKey(task) == OwnsKey(tasks[id])
    ensures KeysUnique(tasks[id := task]) && ActiveMatches(active, tasks[id := task])
  {
    var moved := tasks[id := task];
    assert forall i :: Owns(moved, i) <==> Owns(tasks, i);
    assert forall i | Owns(tasks, i) :: moved[i].key == tasks[i].key;
  }

  lemma DropKeepsKeys(active: set<string>, tasks: map<nat, Task>, id: nat, task: Task)
    requires KeysUnique(tasks) && ActiveMatches(active, tasks)
    requires Owns(tasks, id) && !OwnsKey(task)
    ensures KeysUnique(tasks[id := task]) && ActiveMatches(active - {tasks[id].key}, tasks[id := task])
  {
    var dropped := tasks[id := task];
    assert forall i :: Owns(dropped, i) <==> Owns(tasks, i) && i != id;
    assert forall i | Owns(dropped, i) :: dropped[i] == tasks[i];
  }

  lemma LeaveKeepsKeys(active: set<string>, tasks: map<nat, Task>, id: nat)
    requires KeysUnique(tasks) && ActiveMatches(active, tasks)
    requires id in tasks && !OwnsKey(tasks[id])
    ensures KeysUnique(tasks - {id}) && ActiveMatches(active, tasks - {id})
  {
    assert forall i :: Owns(tasks - {id}, i) <==> Owns(tasks, i);
  }

  lemma AdmitKeepsKeys(active: set<string>, tasks: map<nat, Task>, id: nat, key: string)
    requires KeysUnique(tasks) && ActiveMatches(active, tasks)
    requires id !in tasks && key !in active
    ensures var added := tasks[id := Task(key, Starting, [])];
            KeysUnique(added) && ActiveMatches(active + {key}, added)
  {
    var added := tasks[id := Task(key, Starting, [])];
    assert forall i :: Owns(added, i) <==> Owns(tasks, i) || i == id;
    assert forall i | Owns(tasks, i) :: added[i] == tasks[i];
    forall k | k in active + {key}
      ensures exists i :: Owns(added, i) && added[i].key == k
    {
      if k in active {
        var i :| Owns(tasks, i) && tasks[i].key == k;
        assert Owns(added, i);
      } else {
        assert Owns(added, id);
      }
    }
  }

  lemma StepKeepsKeys(s: State, step: Step)
    requires Invariant(s) && Enabled(s, step)
    ensures KeysUnique(Apply(s, step).tasks) && ActiveMatches(Apply(s, step).active, Apply(s, step).tasks)
  {
    if IsTaskStep(step) {
      TaskStepEffect(s, step);
      var before, task := s.tasks[step.id], TaskAfter(s, step);
      hide Apply, TaskAfter, OwnsKey, KeysUnique, ActiveMatches;
      if task.place == Returning && task.pending == [] {
        LeaveKeepsKeys(s.active, s.tasks, step.id);
      } else if OwnsKey(before) && !OwnsKey(task) {
        DropKeepsKeys(s.active, s.tasks, step.id, task);
      } else {
        MoveKeepsKeys(s.active, s.tasks, step.id, task);
      }
    } else if step.Schedule? && !Refuses(s, step.key) {
      AdmitKeepsKeys(s.active, s.tasks, step.id, step.key);
    }
  }

  lemma SubsetSize<T>(a: set<T>, b: set<T>)
    requires a <= b
    ensures |a| <= |b|
  {
    assert b == a + (b - a);
  }

  lemma StepKeepsBound(s: State, step: Step)
    requires |s.active| <= MAX_KEYS && Enabled(s, step)
    ensures |Apply(s, step).active| <= MAX_KEYS
  {
    if step.RunDeferred? {
      SubsetSize(Apply(s, step).active, s.active);
    }
  }

  lemma StepKeepsFlags(s: State, step: Step)
    requires FlagsRight(s) && s.group == |s.tasks.Keys| && Enabled(s, step)
    ensures FlagsRight(Apply(s, step))
  {
    if IsTaskStep(step) {
      assert step.id in s.tasks.Keys;
    }
  }

  lemma StepKeepsInvariant(s: State, step: Step)
    requires Invariant(s) && Enabled(s, step)
    ensures Invariant(Apply(s, step))
  {
    StepCounts(s, step);
    StepKeepsKeys(s, step);
    StepKeepsBound(s, step);
    StepKeepsFlags(s, step);
  }

  // ----- safety -----

  ghost predicate Leads(s: State, t: State) {
    exists step :: Enabled(s, step) && t == Apply(s, step)
  }

  lemma InvariantHolds(run: seq<State>)
    requires IsRun(Initial, Leads, run)
    ensures forall i | 0 <= i < |run| :: Invariant(run[i])
  {
    forall s, t | Invariant(s) && Leads(s, t)
      ensures Invariant(t)
    {
      var step :| Enabled(s, step) && t == Apply(s, step);
      StepKeepsInvariant(s, step);
    }
    KeptOverRun(Initial, Leads, Invariant, run);
  }

  ghost predicate Possible(s: State) {
    Reachable(Initial, Leads, s)
  }

  lemma PossibleInvariant(s: State)
    requires Possible(s)
    ensures Invariant(s)
  {
    var run :| IsRun(Initial, Leads, run) && run[|run| - 1] == s;
    InvariantHolds(run);
  }

  lemma StepPossible(s: State, step: Step)
    requires Possible(s) && Enabled(s, step)
    ensures Possible(Apply(s, step))
  {
    NextReachable(Initial, Leads, s, Apply(s, step));
  }

  /** On every run: the two bounds, one live fetch per key, and a key stays active while its slot is held. */
  lemma Safety(s: State)
    requires Possible(s)
    ensures |s.active| <= 256
    ensures |Fetchers(s.tasks)| <= s.slots == |Holders(s.tasks)| <= 8
    ensures forall a, b | a in Fetchers(s.tasks) && b in Fetchers(s.tasks) && s.tasks[a].key == s.tasks[b].key :: a == b
    ensures forall id | id in Holders(s.tasks) :: s.tasks[id].key in s.active
  {
    PossibleInvariant(s);
    forall id | id in s.tasks
      ensures TaskRight(s.tasks[id])
    {
    }
    SubsetSize(Fetchers(s.tasks), Holders(s.tasks));
    forall id | id in Holders(s.tasks)
      ensures Owns(s.tasks, id)
    {
    }
  }

  lemma ReturningRight(s: State, id: nat)
    requires Possible(s) && AtPlace(s, id, Returning)
    ensures 1 <= |s.tasks[id].pending| <= 4 && s.tasks[id].pending == Stack(|s.tasks[id].pending|)
    ensures OwnsKey(s.tasks[id]) ==> s.tasks[id].key in s.active
  {
    PossibleInvariant(s);
    assert TaskRight(s.tasks[id]);
    assert OwnsKey(s.tasks[id]) ==> Owns(s.tasks, id);
  }

  lemma LastCallLeaves(s: State, id: nat)
    requires Enabled(s, RunDeferred(id)) && Popped(s.tasks[id].pending) == []
    ensures id !in Apply(s, RunDeferred(id)).tasks
  {
  }

  /** A fetch is called exactly when a goroutine with a slot finds its context alive: neither cancelled nor late. */
  lemma FetchStarts(s: State, step: Step)
    requires Enabled(s, step)
    ensures Apply(s, step).started ==
              if step.CheckContext? && !s.cancelled && !step.expired then s.started + [s.tasks[step.id].key]
              else s.started
    ensures forall id | AtPlace(Apply(s, step), id, Fetching) && !AtPlace(s, id, Fetching) ::
              step.CheckContext? && step.id == id && !s.cancelled && !step.expired
    ensures step.CheckContext? && !s.cancelled && !step.expired ==> AtPlace(Apply(s, step), step.id, Fetching)
    ensures step.CheckContext? && (s.cancelled || step.expired) ==> AtPlace(Apply(s, step), step.id, Returning)
  {
  }

  /** From a cancelled state on, and so from the closing region on, no fetch is ever called. */
  lemma NoFetchOnceCancelled(run: seq<State>, i: nat, j: nat)
    requires IsRun(Initial, Leads, run) && i <= j < |run|
    requires run[i].cancelled || run[i].closed
    ensures run[j].cancelled && run[j].started == run[i].started
  {
    PossibleAt(run, i);
    PossibleInvariant(run[i]);
    var fetches := run[i].started;
    var holds := s => Quiet(s, fetches);
    hide Leads, Possible, TasksRight, Counted, KeysUnique, ActiveMatches;
    forall s, t | holds(s) && Leads(s, t)
      ensures holds(t)
    {
      QuietStays(s, t, fetches);
    }
    KeptFrom(Leads, holds, run, i, j);
  }

  ghost predicate Quiet(s: State, fetches: seq<string>) {
    s.cancelled && s.started == fetches
  }

  lemma QuietStays(s: State, t: State, fetches: seq<string>)
    requires Quiet(s, fetches) && Leads(s, t)
    ensures Quiet(t, fetches)
  {
    var step :| Enabled(s, step) && t == Apply(s, step);
    FetchStarts(s, step);
  }

  lemma PossibleAt(run: seq<State>, i: nat)
    requires IsRun(Initial, Leads, run) && i < |run|
    ensures Possible(run[i])
  {
    assert IsRun(Initial, Leads, run[..i + 1]);
  }

  /** A goroutine that waits can take a slot whenever fewer than eight are held. */
  lemma FreeSlotIsTaken(s: State, id: nat)
    requires Possible(s) && AtPlace(s, id, Waiting) && |Holders(s.tasks)| < 8
    ensures Enabled(s, TakeSlot(id)) && id in Holders(Apply(s, TakeSlot(id)).tasks)
  {
    PossibleInvariant(s);
  }

  /** The last-in-first-out order of the deferred calls, at every exit: given up, context done, fetch returned or
      panicked. When a goroutine drops its key it has returned its slot, and when it leaves the group it has
      dropped its key. */
  lemma DeferredInOrder(s: State, id: nat)
    requires Possible(s) && AtPlace(s, id, Returning)
    ensures s.tasks[id].pending != []
    ensures Top(s.tasks[id].pending) == DropKey ==> !HoldsSlot(s.tasks[id]) && s.tasks[id].key in s.active
    ensures Top(s.tasks[id].pending) == FinishGroup ==>
              && !HoldsSlot(s.tasks[id]) && !OwnsKey(s.tasks[id])
              && id !in Apply(s, RunDeferred(id)).tasks
    ensures FinishGroup in s.tasks[id].pending
    ensures HoldsSlot(s.tasks[id]) ==> Top(s.tasks[id].pending) == ReleaseSlot
  {
    hide Possible, Stack, Top, Popped, Apply;
    ReturningRight(s, id);
    StackOrder(|s.tasks[id].pending|);
    if Top(s.tasks[id].pending) == FinishGroup {
      LastCallLeaves(s, id);
    }
  }

  // ----- shutdown -----

  /** After the closing region no goroutine is ever admitted. */
  lemma ClosedAdmitsNothing(s: State, step: Step)
    requires s.closed && Enabled(s, step)
    ensures var t := Apply(s, step);
            && t.closed && t.group <= s.group && t.tasks.Keys <= s.tasks.Keys
            && (step.Schedule? ==> t == s)
  {
  }

  /** Once close has returned, at every later point nothing runs, nothing is active and nothing can start. */
  lemma ShutdownIsFinal(run: seq<State>, i: nat, j: nat)
    requires IsRun(Initial, Leads, run) && i <= j < |run|
    requires run[i].closeReturned
    ensures var s := run[j];
            && s.tasks == map[] && s.active == {} && s.group == 0 && s.slots == 0
            && forall id, key | Enabled(s, Schedule(id, key)) :: Apply(s, Schedule(id, key)) == s
  {
    forall s, t | Returned(s) && Leads(s, t)
      ensures Returned(t)
    {
      LeadKeepsReturned(s, t);
    }
    KeptFrom(Leads, Returned, run, i, j);
    InvariantHolds(run);
    NothingLeft(run[j]);
  }

  ghost predicate Returned(s: State) {
    s.closeReturned
  }

  lemma LeadKeepsReturned(s: State, t: State)
    requires Returned(s) && Leads(s, t)
    ensures Returned(t)
  {
  }

  lemma NothingLeft(s: State)
    requires Invariant(s) && s.closed && s.group == 0
    ensures s.tasks == map[] && s.active == {} && s.slots == 0
    ensures forall id, key | Enabled(s, Schedule(id, key)) :: Apply(s, Schedule(id, key)) == s
  {
  }

  /** How many steps a goroutine has left at most. */
  ghost function Remaining(task: Task): nat {
    match task.place
    case Starting => 8
    case Waiting => 7
    case Admitted => 6
    case Fetching => 5
    case Returning => |task.pending|
  }

  ghost function Work(tasks: map<nat, Task>): nat {
    if tasks == map[] then 0
    else
      var id :| id in tasks;
      Remaining(tasks[id]) + Work(tasks - {id})
  }

  lemma {:induction false} WorkWithout(tasks: map<nat, Task>, id: nat)
    requires id in tasks
    ensures Work(tasks) == Remaining(tasks[id]) + Work(tasks - {id})
  {
    var other :| other in tasks && Work(tasks) == Remaining(tasks[other]) + Work(tasks - {other});
    if other != id {
      WorkWithout(tasks - {other}, id);
      WorkWithout(tasks - {id}, other);
      assert tasks - {other} - {id} == tasks - {id} - {other};
    }
  }

  lemma TaskStepLowers(s: State, step: Step)
    requires Enabled(s, step) && IsTaskStep(step) && TaskRight(s.tasks[step.id])
    ensures Remaining(TaskAfter(s, step)) < Remaining(s.tasks[step.id])
  {
  }

  /** Every step of a goroutine uses up work; nothing else does. */
  lemma TaskStepUsesWork(s: State, step: Step)
    requires Invariant(s) && s.closed && Enabled(s, step)
    ensures Work(Apply(s, step).tasks) + (if IsTaskStep(step) then 1 else 0) <= Work(s.tasks)
  {
    if IsTaskStep(step) {
      TaskStepEffect(s, step);
      TaskStepLowers(s, step);
      var task := TaskAfter(s, step);
      hide Apply, TaskAfter, Enabled, Invariant, Remaining, Work;
      WorkWithout(s.tasks, step.id);
      WorkMoved(s.tasks, step.id, task);
    }
  }

  lemma WorkMoved(tasks: map<nat, Task>, id: nat, task: Task)
    ensures Work(tasks[id := task]) == Remaining(task) + Work(tasks - {id})
  {
    WorkWithout(tasks[id := task], id);
    assert tasks[id := task] - {id} == tasks - {id};
  }

  ghost predicate Feasible(s: State, steps: seq<Step>)
    decreases |steps|
  {
    steps == [] || (Enabled(s, steps[0]) && Feasible(Apply(s, steps[0]), steps[1..]))
  }

  ghost function After(s: State, steps: seq<Step>): State
    requires Feasible(s, steps)
    decreases |steps|
  {
    if steps == [] then s else After(Apply(s, steps[0]), steps[1..])
  }

  ghost function TaskSteps(steps: seq<Step>): nat {
    if steps == [] then 0 else (if IsTaskStep(steps[0]) then 1 else 0) + TaskSteps(steps[1..])
  }

  /** From a closed state the goroutines together take a bounded number of steps, whatever happens. */
  lemma {:induction false} ClosedWorkIsBounded(s: State, steps: seq<Step>)
    requires Invariant(s) && s.closed && Feasible(s, steps)
    ensures Invariant(After(s, steps)) && After(s, steps).closed
    ensures TaskSteps(steps) + Work(After(s, steps).tasks) <= Work(s.tasks)
    decreases |steps|
  {
    if steps != [] {
      StepKeepsInvariant(s, steps[0]);
      TaskStepUsesWork(s, steps[0]);
      ClosedAdmitsNothing(s, steps[0]);
      hide Apply, Invariant, Enabled;
      ClosedWorkIsBounded(Apply(s, steps[0]), steps[1..]);
    }
  }

  /** Every goroutine always has a step to take. */
  lemma EveryTaskCanMove(s: State, id: nat) returns (step: Step)
    requires Invariant(s) && id in s.tasks
    ensures IsTaskStep(step) && step.id == id && Enabled(s, step)
  {
    assert TaskRight(s.tasks[id]);
    step := match s.tasks[id].place
      case Starting => Start(id)
      case Waiting => GiveUp(id)
      case Admitted => CheckContext(id, true)
      case Fetching => FetchReturns(id, false)
      case Returning => RunDeferred(id);
  }

  /** Shutdown completes: from every closed state the goroutines take boundedly many steps, and where they can
      take no more, none is left, nothing is active, and close returns. */
  lemma ShutdownCompletes(s: State, steps: seq<Step>)
    requires Possible(s) && s.closed && Feasible(s, steps)
    ensures TaskSteps(steps) <= Work(s.tasks)
    ensures (forall step | IsTaskStep(step) :: !Enabled(After(s, steps), step)) ==>
              && After(s, steps).tasks == map[] && After(s, steps).active == {} && After(s, steps).slots == 0
              && Enabled(After(s, steps), CloseReturns)
  {
    PossibleInvariant(s);
    ClosedWorkIsBounded(s, steps);
    var t := After(s, steps);
    if forall step | IsTaskStep(step) :: !Enabled(t, step) {
      if id :| id in t.tasks {
        var step := EveryTaskCanMove(t, id);
        assert false;
      }
      assert t.tasks.Keys == {};
      NothingLeft(t);
    }
  }

  // ----- the program -----

  /** No goroutine that still has the slot or the key of its fetch works for this key. */
  ghost predicate Free(tasks: map<nat, Task>, key: string) {
    forall i | Owns(tasks, i) :: tasks[i].key != key
  }

  ghost function OwnedKeys(tasks: map<nat, Task>): set<string> {
    set id | id in tasks && OwnsKey(tasks[id]) :: tasks[id].key
  }

  lemma RefusalMeaning(s: State, key: string)
    requires Possible(s)
    ensures !Refuses(s, key) <==> !s.closed && !s.cancelled && Free(s.tasks, key) && |OwnedKeys(s.tasks)| < 256
  {
    PossibleInvariant(s);
    hide Possible, TasksRight, Counted, KeysUnique, OwnsKey;
    assert OwnedKeys(s.tasks) == s.active;
  }

  lemma AdmitEffect(s: State, id: nat, key: string)
    requires Possible(s) && id !in s.tasks
    ensures var t := Apply(s, Schedule(id, key));
            && Possible(t) && |t.active| <= MAX_KEYS && |Fetchers(t.tasks)| <= t.slots <= SLOTS
            && (!Refuses(s, key) <==> !s.closed && !s.cancelled && Free(s.tasks, key) && |OwnedKeys(s.tasks)| < 256)
            && (!Refuses(s, key) ==> forall i | Owns(t.tasks, i) && t.tasks[i].key == key :: i == id)
  {
    var t := Apply(s, Schedule(id, key));
    RefusalMeaning(s, key);
    hide OwnedKeys, Free;
    StepPossible(s, Schedule(id, key));
    Safety(t);
    PossibleInvariant(t);
    if !Refuses(s, key) {
      assert Owns(t.tasks, id);
    }
  }

  lemma InactiveIsFree(s: State, key: string)
    requires Possible(s) && key !in s.active
    ensures Free(s.tasks, key)
  {
    PossibleInvariant(s);
  }

  lemma StartPossible(s: State, id: nat)
    requires Possible(s) && AtPlace(s, id, Starting)
    ensures Possible(s.(tasks := s.tasks[id := Task(s.tasks[id].key, Waiting, Stack(3))]))
  {
    PossibleInvariant(s);
    assert TaskRight(s.tasks[id]) && s.tasks[id].pending == [];
    StepPossible(s, Start(id));
    StackPush([]);
    assert TaskAfter(s, Start(id)) == Task(s.tasks[id].key, Waiting, Stack(3));
  }

  lemma RunEffect(s: State, id: nat)
    requires Possible(s) && Enabled(s, RunDeferred(id))
    ensures var t, task := Apply(s, RunDeferred(id)), s.tasks[id];
            && Possible(t)
            && (Top(task.pending) == ReleaseSlot ==> task.key in t.active && t.slots < SLOTS)
            && (Top(task.pending) == DropKey ==> Free(t.tasks, task.key) && !HoldsSlot(task))
            && (Top(task.pending) == FinishGroup ==> id !in t.tasks && !OwnsKey(task))
  {
    var t := Apply(s, RunDeferred(id));
    DeferredInOrder(s, id);
    StepPossible(s, RunDeferred(id));
    Safety(s);
    PossibleInvariant(t);
    assert HoldsSlot(s.tasks[id]) ==> id in Holders(s.tasks);
    assert ActiveMatches(t.active, t.tasks);
  }

  class BackgroundRefresh {
    var active: set<string>
    var group: int
    var slots: int
    var closed: bool
    var cancelled: bool
    ghost var closers: nat
    ghost var closeReturned: bool
    ghost var started: seq<string>  // the fetches called so far
    ghost var tasks: map<nat, Task>

    ghost function Whole(): State
      reads this
    {
      State(active, group, slots, closed, cancelled, closers, closeReturned, started, tasks)
    }

    /** The object is in a state that the system of all interleavings can reach. */
    ghost predicate Valid()
      reads this
    {
      Possible(Whole())
    }

    constructor ()
      ensures Valid() && Whole() == Initial
    {
      active, group, slots, closed, cancelled := {}, 0, 0, false, false;
      closers, closeReturned, started, tasks := 0, false, [], map[];
      InitialReachable(Initial, Leads);
    }

    /** Admits a key that no goroutine owns, or changes nothing. */
    method Admit(ghost id: nat, key: string) returns (admitted: bool)
      requires Valid() && id !in tasks
      modifies this
      ensures Valid() && Whole() == Apply(old(Whole()), Schedule(id, key))
      ensures admitted <==> old(!closed && !cancelled && Free(tasks, key) && |OwnedKeys(tasks)| < 256)
      ensures admitted ==> tasks == old(tasks)[id := Task(key, Starting, [])]
      ensures !admitted ==> Whole() == old(Whole())
      ensures |active| <= 256 && |Fetchers(tasks)| <= slots <= 8
      ensures admitted ==> forall i | Owns(tasks, i) && tasks[i].key == key :: i == id
    {
      AdmitEffect(Whole(), id, key);
      hide Possible;
      if closed || cancelled || key in active || |active| >= MAX_KEYS {
        return false;
      }
      active := active + {key};
      group := group + 1;
      tasks := tasks[id := Task(key, Starting, [])];
      return true;
    }

    /** Runs the call on top of the stack. A key is dropped only with its slot returned. */
    method RunOne(ghost id: nat, key: string, pending: seq<Deferred>) returns (rest: seq<Deferred>)
      requires Valid() && pending != []
      requires id in tasks && tasks[id] == Task(key, Returning, pending)
      modifies `active, `group, `slots, `tasks
      ensures Valid() && rest == Popped(pending)
      ensures Whole() == Apply(old(Whole()), RunDeferred(id))
      ensures tasks == if rest == [] then old(tasks) - {id} else old(tasks)[id := Task(key, Returning, rest)]
      ensures Top(pending) == ReleaseSlot ==> key in active && slots < SLOTS
      ensures Top(pending) == DropKey ==> Free(tasks, key) && !HoldsSlot(old(tasks[id]))
      ensures Top(pending) == FinishGroup ==> id !in tasks && !OwnsKey(old(tasks[id]))
    {
      ghost var after := Apply(Whole(), RunDeferred(id));
      RunEffect(Whole(), id);
      hide Possible;
      match pending[|pending| - 1] {
        case FinishGroup => group := group - 1;
        case DropKey => active := active - {key};
        case StopTimer =>
        case ReleaseSlot => slots := slots - 1;
      }
      rest := pending[..|pending| - 1];
      tasks := after.tasks;
      assert Whole() == after;
    }

    /** The goroutine without interference, at whichever exit: it fetches exactly when it is granted a slot and finds
        its context alive, and leaves nothing of itself behind. */
    method Goroutine(ghost id: nat, key: string, granted: bool, expired: bool, panicked: bool) returns (fetched: bool)
      requires Valid() && AtPlace(Whole(), id, Starting) && tasks[id].key == key
      modifies `active, `group, `slots, `started, `tasks
      ensures fetched <==> granted && old(slots) < 8 && !cancelled && !expired
      ensures started == if fetched then old(started) + [key] else old(started)
      ensures Valid() && tasks == old(tasks) - {id} && group == old(group) - 1
      ensures active == old(active) - {key} && Free(tasks, key)
      ensures slots == old(slots)
    {
      ghost var start := Whole();
      var pending := DeferFirst(id, key);
      fetched := false;
      if granted && slots < SLOTS {
        pending, fetched := TakeAndFetch(id, key, pending, expired, panicked);
      } else {
        GiveUpWaiting(id, key, pending);
      }
      Unwind(id, key, pending, start);
      assert slots == old(slots);
    }

    /** The three calls deferred before the wait. */
    method DeferFirst(ghost id: nat, key: string) returns (pending: seq<Deferred>)
      requires Valid() && AtPlace(Whole(), id, Starting) && tasks[id].key == key
      modifies `tasks
      ensures Valid() && pending == Stack(3) && tasks == old(tasks)[id := Task(key, Waiting, pending)]
    {
      StartPossible(Whole(), id);
      hide Possible;
      pending := [];
      pending := pending + [FinishGroup];
      pending := pending + [DropKey];
      pending := pending + [StopTimer];
      StackPush([]);
      tasks := tasks[id := Task(key, Waiting, pending)];
    }

    /** The context is done before a slot is free. */
    method GiveUpWaiting(ghost id: nat, key: string, pending: seq<Deferred>)
      requires Valid() && id in tasks && tasks[id] == Task(key, Waiting, pending)
      modifies `tasks
      ensures Valid() && tasks == old(tasks)[id := Task(key, Returning, pending)]
    {
      StepPossible(Whole(), GiveUp(id));
      tasks := tasks[id := Task(key, Returning, pending)];
    }

    /** From the send to the slot channel to the return: cancelled, timed out, fetched or panicked. */
    method TakeAndFetch(ghost id: nat, key: string, pending: seq<Deferred>, expired: bool, panicked: bool)
      returns (deferred: seq<Deferred>, fetched: bool)
      requires Valid() && slots < SLOTS
      requires pending == Stack(3) && id in tasks && tasks[id] == Task(key, Waiting, pending)
      modifies `slots, `started, `tasks
      ensures Valid() && deferred == Stack(4)
      ensures fetched <==> !cancelled && !expired
      ensures started == if fetched then old(started) + [key] else old(started)
      ensures slots == old(slots) + 1 && tasks == old(tasks)[id := Task(key, Returning, deferred)]
    {
      hide Possible;
      StackPush(pending);
      StepPossible(Whole(), TakeSlot(id));
      slots := slots + 1;
      deferred := pending + [ReleaseSlot];
      tasks := tasks[id := Task(key, Admitted, deferred)];
      StepPossible(Whole(), CheckContext(id, expired));
      hide Stack;
      fetched := !(cancelled || expired);
      if !fetched {
        tasks := tasks[id := Task(key, Returning, deferred)];
        return;
      }
      started := started + [key];
      tasks := tasks[id := Task(key, Fetching, deferred)];
      StepPossible(Whole(), FetchReturns(id, panicked));
      tasks := tasks[id := Task(key, Returning, deferred)];
    }

    /** Pops the deferred calls until none is left. */
    method Unwind(ghost id: nat, key: string, deferred: seq<Deferred>, ghost start: State)
      requires Valid() && 3 <= |deferred| <= 4 && deferred == Stack(|deferred|)
      requires id in start.tasks && closed == start.closed && cancelled == start.cancelled
      requires tasks == start.tasks[id := Task(key, Returning, deferred)]
      requires active == start.active && group == start.group && slots == start.slots + |deferred| - 3
      modifies `active, `group, `slots, `tasks
      ensures Valid() && tasks == start.tasks - {id} && group == start.group - 1
      ensures active == start.active - {key} && Free(tasks, key)
      ensures slots == start.slots
    {
      hide Possible, Stack, OwnsKey, Free;
      var pending := deferred;
      while pending != []
        invariant Valid() && |pending| <= |deferred| && pending == Stack(|pending|)
        invariant tasks == if pending == [] then start.tasks - {id}
                           else start.tasks[id := Task(key, Returning, pending)]
        invariant active == if |pending| >= 2 then start.active else start.active - {key}
        invariant group == if pending == [] then start.group - 1 else start.group
        invariant slots == if |pending| == 4 then start.slots + 1 else start.slots
        decreases |pending|
      {
        StackPop(|pending|);
        pending := RunOne(id, key, pending);
      }
      InactiveIsFree(Whole(), key);
    }

    /** The closing region: from here on every key is refused. */
    method Close()
      requires Valid()
      modifies this
      ensures Valid() && Whole() == Apply(old(Whole()), MarkClosed) && closed && cancelled
      ensures forall key :: Refuses(Whole(), key)
    {
      StepPossible(Whole(), MarkClosed);
      closed := true;
      cancelled := true;
      closers := closers + 1;
    }

    /** The wait returns when the group is empty. Then nothing is left. */
    method AfterWait()
      requires Valid() && closed && group == 0
      modifies `closeReturned
      ensures Valid() && closeReturned
      ensures tasks == map[] && active == {} && slots == 0 && forall key :: Refuses(Whole(), key)
    {
      PossibleInvariant(Whole());
      NothingLeft(Whole());
      StepPossible(Whole(), CloseReturns);
      closeReturned := true;
    }
  }
}
