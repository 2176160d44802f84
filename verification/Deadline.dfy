/**
 Abandoning deadlines: `backend/archimedes/deadline.py`, with the teardown that relies on them
 (`BoundedAsyncHTTPProvider.disconnect`).

 The steps are what the event loop runs without interruption: a coroutine between two awaits,
 or one callback. Tasks finish when they like, or never; a timeout may strike at any time. A
 teardown that got a zero starts freeing in the same step, and goes on freeing, session by
 session, in steps of its own.
 */
module Deadline {

  type TaskId = nat
  type DrainId = nat

  /** What became of the caller of `run_with_deadline`. */
  datatype Caller =
    | Waiting       // inside `asyncio.wait`
    | Answered      // got the result
    | Exceeded      // raised TimeoutError and left the task behind
    | Cancelled     // was itself cancelled while waiting

  datatype Task = Task(done: bool, cancelRequested: bool, caller: Caller)

  datatype Drain =
    | Draining(snapshot: set<TaskId>)
    | Drained(remaining: nat)

  /** A session closed by a teardown, with the strays that were running at that moment. */
  datatype Free = Free(drain: DrainId, first: bool, under: set<TaskId>)

  datatype State = State(
    tasks: map<TaskId, Task>,
    abandoned: set<TaskId>,     // `_ABANDONED`
    queued: set<TaskId>,        // tasks whose `_reap` callback the loop has scheduled
    drains: map<DrainId, Drain>,
    frees: seq<Free>)

  datatype Action =
    | Start(task: TaskId)
    | Complete(task: TaskId)
    | Answer(task: TaskId)
    | Exceed(task: TaskId)
    | CancelCaller(task: TaskId)
    | Reap(task: TaskId)
    | BeginDrain(drain: DrainId)
    | EndDrain(drain: DrainId)
    | FreeNext(drain: DrainId)

  /** The deadline-exceeded tasks that have not finished. */
  function Strays(s: State): set<TaskId> {
    set t | t in s.tasks && s.tasks[t].caller == Exceeded && !s.tasks[t].done
  }

  /** Every unfinished task whose caller is gone, for whatever reason. */
  function Severed(s: State): set<TaskId> {
    set t | t in s.tasks && s.tasks[t].caller != Waiting && !s.tasks[t].done
  }

  function Orphans(s: State): set<TaskId> {
    set t | t in s.tasks && s.tasks[t].caller == Cancelled && !s.tasks[t].done
  }

  predicate Enabled(s: State, a: Action) {
    match a
    case Start(t) => t !in s.tasks
    case Complete(t) => t in s.tasks && !s.tasks[t].done
    case Answer(t) => t in s.tasks && s.tasks[t].caller == Waiting && s.tasks[t].done
    case Exceed(t) => t in s.tasks && s.tasks[t].caller == Waiting && !s.tasks[t].done
    case CancelCaller(t) => t in s.tasks && s.tasks[t].caller == Waiting
    case Reap(t) => t in s.queued
    case BeginDrain(d) => d !in s.drains
    case EndDrain(d) => d in s.drains && s.drains[d].Draining?
    case FreeNext(d) => d in s.drains && s.drains[d] == Drained(0)
  }

  /** `drain_abandoned` answers from the live set, and the teardown starts freeing only on zero. */
  function Report(s: State, d: DrainId): State {
    s.(drains := s.drains[d := Drained(|s.abandoned|)],
       frees := if |s.abandoned| == 0 then s.frees + [Free(d, true, Strays(s))] else s.frees)
  }

  function Do(s: State, a: Action): State
    requires Enabled(s, a)
  {
    match a
    case Start(t) => s.(tasks := s.tasks[t := Task(false, false, Waiting)])
    case Complete(t) =>
      s.(tasks := s.tasks[t := s.tasks[t].(done := true)],
         queued := if s.tasks[t].caller == Exceeded then s.queued + {t} else s.queued)
    case Answer(t) => s.(tasks := s.tasks[t := s.tasks[t].(caller := Answered)])
    case Exceed(t) =>
      s.(tasks := s.tasks[t := s.tasks[t].(cancelRequested := true, caller := Exceeded)],
         abandoned := s.abandoned + {t})
    case CancelCaller(t) => s.(tasks := s.tasks[t := s.tasks[t].(caller := Cancelled)])
    case Reap(t) => s.(abandoned := s.abandoned - {t}, queued := s.queued - {t})
    case BeginDrain(d) =>
      if s.abandoned == {} then Report(s, d)
      else s.(drains := s.drains[d := Draining(s.abandoned)])
    case EndDrain(d) => Report(s, d)
    case FreeNext(d) => s.(frees := s.frees + [Free(d, false, Strays(s))])
  }

  ghost predicate Init(s: State) {
    s.tasks == map[] && s.abandoned == {} && s.queued == {} && s.drains == map[] && s.frees == []
  }

  // ----- the lifecycle invariant -----

  /** `_ABANDONED` is exactly the strays plus the finished tasks whose reaper is queued. */
  ghost predicate Inv(s: State) {
    && s.abandoned == Strays(s) + s.queued
    && (forall t :: t in s.queued ==> t in s.tasks && s.tasks[t].done && s.tasks[t].caller == Exceeded)
    && (forall t :: t in s.tasks ==> (s.tasks[t].cancelRequested <==> s.tasks[t].caller == Exceeded))
    && (forall k :: 0 <= k < |s.frees| && s.frees[k].first ==> s.frees[k].under == {})
  }

  lemma StepKeepsInv(s: State, a: Action)
    requires Inv(s) && Enabled(s, a)
    ensures Inv(Do(s, a))
  {
    match a
    case Complete(t) => CompleteKeepsInv(s, t);
    case Exceed(t) => ExceedKeepsInv(s, t);
    case Reap(t) => assert Strays(Do(s, a)) == Strays(s);
    case BeginDrain(d) => assert Strays(Do(s, a)) == Strays(s);
    case EndDrain(d) => assert Strays(Do(s, a)) == Strays(s);
    case FreeNext(d) => assert Strays(Do(s, a)) == Strays(s);
    case _ => QuietStepKeepsInv(s, a);
  }

  lemma CompleteKeepsInv(s: State, t: TaskId)
    requires Inv(s) && Enabled(s, Complete(t))
    ensures Inv(Do(s, Complete(t)))
  {
    assert Strays(Do(s, Complete(t))) == Strays(s) - {t};
  }

  lemma ExceedKeepsInv(s: State, t: TaskId)
    requires Inv(s) && Enabled(s, Exceed(t))
    ensures Inv(Do(s, Exceed(t)))
  {
    assert Strays(Do(s, Exceed(t))) == Strays(s) + {t};
  }

  lemma QuietStepKeepsInv(s: State, a: Action)
    requires Inv(s) && Enabled(s, a) && (a.Start? || a.Answer? || a.CancelCaller?)
    ensures Inv(Do(s, a))
  {
    assert Strays(Do(s, a)) == Strays(s);
  }

  ghost predicate Trace(states: seq<State>, acts: seq<Action>) {
    && |states| == |acts| + 1
    && Init(states[0])
    && (forall k :: 0 <= k < |acts| ==> Enabled(states[k], acts[k]) && states[k + 1] == Do(states[k], acts[k]))
  }

  lemma {:induction false} TraceKeepsInv(states: seq<State>, acts: seq<Action>, k: nat)
    requires Trace(states, acts) && k < |states|
    ensures Inv(states[k])
    decreases k
  {
    if k > 0 {
      TraceKeepsInv(states, acts, k - 1);
      StepKeepsInv(states[k - 1], acts[k - 1]);
    }
  }

  /**
   In every run: each deadline-exceeded unfinished task is held in `_ABANDONED`, and no
   teardown ever started freeing while such a task was running.
   */
  lemma NoFreeStartsUnderStray(states: seq<State>, acts: seq<Action>, k: nat)
    requires Trace(states, acts) && k < |states|
    ensures Strays(states[k]) <= states[k].abandoned
    ensures forall i :: 0 <= i < |states[k].frees| && states[k].frees[i].first ==> states[k].frees[i].under == {}
  {
    TraceKeepsInv(states, acts, k);
  }

  /** A drain that answers zero answers truly, at the moment it answers, whenever it began. */
  lemma ZeroMeansNoStray(states: seq<State>, acts: seq<Action>, k: nat, d: DrainId)
    requires Trace(states, acts) && k < |acts|
    requires acts[k] == EndDrain(d) || acts[k] == BeginDrain(d)
    requires d in states[k + 1].drains && states[k + 1].drains[d] == Drained(0)
    ensures Strays(states[k + 1]) == {} && states[k + 1].abandoned == {}
  {
    TraceKeepsInv(states, acts, k);
    TraceKeepsInv(states, acts, k + 1);
    assert states[k].drains == states[k].drains;
    assert states[k + 1] == Do(states[k], acts[k]);
  }

  /** What a drain answers is the size of the set as it answers: the strays, and the reapers still queued. */
  lemma DrainCounts(states: seq<State>, acts: seq<Action>, k: nat, d: DrainId, n: nat)
    requires Trace(states, acts) && k < |acts|
    requires acts[k] == EndDrain(d) || acts[k] == BeginDrain(d)
    requires d in states[k + 1].drains && states[k + 1].drains[d] == Drained(n)
    ensures n == |Strays(states[k + 1]) + states[k + 1].queued|
    ensures Strays(states[k + 1]) !! states[k + 1].queued
    ensures acts[k].BeginDrain? ==> n == 0
  {
    TraceKeepsInv(states, acts, k + 1);
    assert states[k + 1] == Do(states[k], acts[k]);
  }

  // ----- what a task's standing goes back to -----

  /** No `Complete` of the task at any step after `i` and before `k`. */
  ghost predicate Unfinished(acts: seq<Action>, i: int, k: int, t: TaskId) {
    forall m :: i < m < k && 0 <= m < |acts| ==> acts[m] != Complete(t)
  }

  lemma UnfinishedMore(acts: seq<Action>, i: int, k: int, t: TaskId)
    requires 0 <= k < |acts| && Unfinished(acts, i, k, t) && acts[k] != Complete(t)
    ensures Unfinished(acts, i, k + 1, t)
  {
  }

  lemma {:induction false} StrayHasCause(states: seq<State>, acts: seq<Action>, k: nat, t: TaskId) returns (i: nat)
    requires Trace(states, acts) && k < |states| && t in Strays(states[k])
    ensures i < k && acts[i] == Exceed(t) && Unfinished(acts, i, k, t)
    decreases k
  {
    var s, a := states[k - 1], acts[k - 1];
    assert states[k] == Do(s, a);
    if t in Strays(s) {
      i := StrayHasCause(states, acts, k - 1, t);
      UnfinishedMore(acts, i, k - 1, t);
    } else {
      i := k - 1;
    }
  }

  lemma {:induction false} CauseLeavesStray(states: seq<State>, acts: seq<Action>, i: nat, k: nat, t: TaskId)
    requires Trace(states, acts) && i < k < |states| && acts[i] == Exceed(t) && Unfinished(acts, i, k, t)
    ensures t in Strays(states[k])
    decreases k
  {
    assert Enabled(states[k - 1], acts[k - 1]) && states[k] == Do(states[k - 1], acts[k - 1]);
    if i < k - 1 { CauseLeavesStray(states, acts, i, k - 1, t); }
  }

  lemma {:induction false} OrphanHasCause(states: seq<State>, acts: seq<Action>, k: nat, t: TaskId) returns (i: nat)
    requires Trace(states, acts) && k < |states| && t in Orphans(states[k])
    ensures i < k && acts[i] == CancelCaller(t) && Unfinished(acts, i, k, t)
    ensures t in states[i].tasks && !states[i].tasks[t].done
    decreases k
  {
    var s, a := states[k - 1], acts[k - 1];
    assert states[k] == Do(s, a);
    if t in Orphans(s) {
      i := OrphanHasCause(states, acts, k - 1, t);
      UnfinishedMore(acts, i, k - 1, t);
    } else {
      i := k - 1;
    }
  }

  lemma {:induction false} CauseLeavesOrphan(states: seq<State>, acts: seq<Action>, i: nat, k: nat, t: TaskId)
    requires Trace(states, acts) && i < k < |states| && acts[i] == CancelCaller(t) && Unfinished(acts, i, k, t)
    requires t in states[i].tasks && !states[i].tasks[t].done
    ensures t in Orphans(states[k])
    decreases k
  {
    assert Enabled(states[k - 1], acts[k - 1]) && states[k] == Do(states[k - 1], acts[k - 1]);
    if i < k - 1 { CauseLeavesOrphan(states, acts, i, k - 1, t); }
  }

  /** Step `i` cancels the caller of a task that is running and stays so up to step `k`. */
  ghost predicate Orphaned(states: seq<State>, acts: seq<Action>, i: nat, k: nat, t: TaskId)
    requires |states| == |acts| + 1
  {
    && i < k <= |acts| && acts[i] == CancelCaller(t)
    && t in states[i].tasks && !states[i].tasks[t].done && Unfinished(acts, i, k, t)
  }

  /** A running task is unrecorded exactly when its caller was cancelled while waiting for it. */
  lemma OrphansExactly(states: seq<State>, acts: seq<Action>, k: nat, t: TaskId)
    requires Trace(states, acts) && k < |states|
    ensures t in Orphans(states[k]) <==> exists i :: Orphaned(states, acts, i, k, t)
  {
    hide Trace, Orphans, Unfinished;
    assert |states| == |acts| + 1 by { TraceShape(states, acts); }
    if t in Orphans(states[k]) {
      var i := OrphanHasCause(states, acts, k, t);
      assert Orphaned(states, acts, i, k, t);
    }
    if i :| Orphaned(states, acts, i, k, t) { CauseLeavesOrphan(states, acts, i, k, t); }
  }

  lemma TraceShape(states: seq<State>, acts: seq<Action>)
    requires Trace(states, acts)
    ensures |states| == |acts| + 1
  {
  }

  /**
   An empty set means that no task runs without a caller exactly when every task whose caller
   was cancelled was done by then, or has completed since.
   */
  lemma ZeroMeansNoneSevered(states: seq<State>, acts: seq<Action>, k: nat)
    requires Trace(states, acts) && k < |states| && states[k].abandoned == {}
    ensures Severed(states[k]) == {} <==>
      forall i, t :: 0 <= i < k && acts[i] == CancelCaller(t) ==>
        || (t in states[i].tasks && states[i].tasks[t].done)
        || exists m :: i < m < k && acts[m] == Complete(t)
  {
    TraceKeepsInv(states, acts, k);
    AnsweredIsDone(states, acts, k);
    assert Severed(states[k]) == Orphans(states[k]);
    hide Severed, Inv, Init, Do;
    if t :| t in Orphans(states[k]) {
      OrphansExactly(states, acts, k, t);
    }
    forall i, t | 0 <= i < k && acts[i] == CancelCaller(t) && Orphans(states[k]) == {}
      ensures (t in states[i].tasks && states[i].tasks[t].done) || exists m :: i < m < k && acts[m] == Complete(t)
    {
      assert Enabled(states[i], acts[i]);
      OrphansExactly(states, acts, k, t);
      assert !Orphaned(states, acts, i, k, t);
    }
  }

  // ----- frees after the first -----

  /** Step `i` answers zero to drain `d`. */
  ghost predicate AnswersZero(states: seq<State>, acts: seq<Action>, i: nat, d: DrainId)
    requires |states| == |acts| + 1 && i < |acts|
  {
    && (acts[i] == EndDrain(d) || acts[i] == BeginDrain(d))
    && d in states[i + 1].drains && states[i + 1].drains[d] == Drained(0)
  }

  /**
   A free after a zero answer is under no stray exactly when every call that exceeded its
   deadline in between has completed again; in particular when none exceeded it.
   */
  lemma LaterFreeExactly(states: seq<State>, acts: seq<Action>, i: nat, k: nat, d: DrainId)
    requires Trace(states, acts) && i < k < |acts| && AnswersZero(states, acts, i, d) && acts[k] == FreeNext(d)
    ensures states[k + 1].frees == states[k].frees + [Free(d, false, Strays(states[k]))]
    ensures Strays(states[k]) == {} <==>
      forall j, t :: i < j < k && acts[j] == Exceed(t) ==> exists m :: j < m < k && acts[m] == Complete(t)
  {
    ZeroMeansNoStray(states, acts, i, d);
    assert states[k + 1] == Do(states[k], acts[k]);
    hide Inv, Init, Do, Enabled;
    if t :| t in Strays(states[k]) {
      var j := StrayHasCause(states, acts, k, t);
      if j <= i {
        CauseLeavesStray(states, acts, j, i + 1, t);
        assert false;
      }
    }
    forall j, t | i < j < k && acts[j] == Exceed(t) && Strays(states[k]) == {}
      ensures exists m :: j < m < k && acts[m] == Complete(t)
    {
      if Unfinished(acts, j, k, t) {
        CauseLeavesStray(states, acts, j, k, t);
        assert false;
      }
    }
  }

  /** A call that exceeds its deadline between two closes: the second close is under it. */
  lemma LaterFreeUnderStray() returns (states: seq<State>, acts: seq<Action>)
    ensures Trace(states, acts)
    ensures states[|acts|].frees == [Free(0, true, {}), Free(0, false, {1})]
  {
    var s0 := State(map[], {}, {}, map[], []);
    var s1 := Do(s0, Start(1));
    var s2 := Do(s1, BeginDrain(0));
    assert Strays(s1) == {};
    var s3 := Do(s2, Exceed(1));
    assert Strays(s3) == {1};
    var s4 := Do(s3, FreeNext(0));
    states := [s0, s1, s2, s3, s4];
    acts := [Start(1), BeginDrain(0), Exceed(1), FreeNext(0)];
  }

  lemma {:induction false} AnsweredIsDone(states: seq<State>, acts: seq<Action>, k: nat)
    requires Trace(states, acts) && k < |states|
    ensures forall t :: t in states[k].tasks && states[k].tasks[t].caller == Answered ==> states[k].tasks[t].done
    decreases k
  {
    if k > 0 {
      AnsweredIsDone(states, acts, k - 1);
      assert states[k] == Do(states[k - 1], acts[k - 1]);
    }
  }

  // ----- why the count must be live -----

  /** What a drain would answer from the tasks it waited for. */
  function SnapshotCount(s: State, d: DrainId): nat
    requires d in s.drains && s.drains[d].Draining?
  {
    |s.drains[d].snapshot * s.abandoned|
  }

  /** A task abandoned while the drain was waiting: the snapshot is clear, the floor is not. */
  lemma SnapshotCountLies() returns (states: seq<State>, acts: seq<Action>)
    ensures Trace(states, acts)
    ensures var s := states[|acts|];
            0 in s.drains && s.drains[0].Draining? && SnapshotCount(s, 0) == 0 && Strays(s) == {2}
  {
    var s0 := State(map[], {}, {}, map[], []);
    var s1 := Do(s0, Start(1));
    var s2 := Do(s1, Exceed(1));
    var s3 := Do(s2, BeginDrain(0));
    var s4 := Do(s3, Start(2));
    var s5 := Do(s4, Exceed(2));
    var s6 := Do(s5, Complete(1));
    var s7 := Do(s6, Reap(1));
    assert s7.abandoned == {2} && s7.drains[0] == Draining({1});
    assert s7.drains[0].snapshot * s7.abandoned == {};
    assert Strays(s7) == {2};
    states := [s0, s1, s2, s3, s4, s5, s6, s7];
    acts := [Start(1), Exceed(1), BeginDrain(0), Start(2), Exceed(2), Complete(1), Reap(1)];
  }

  /** A cancelled caller leaves a task running that a drain does not see. */
  lemma OrphanEscapesDrain() returns (states: seq<State>, acts: seq<Action>)
    ensures Trace(states, acts)
    ensures var s := states[|acts|]; 0 in s.drains && s.drains[0] == Drained(0) && Severed(s) == {1}
  {
    var s0 := State(map[], {}, {}, map[], []);
    var s1 := Do(s0, Start(1));
    var s2 := Do(s1, CancelCaller(1));
    var s3 := Do(s2, BeginDrain(0));
    states := [s0, s1, s2, s3];
    acts := [Start(1), CancelCaller(1), BeginDrain(0)];
    assert Severed(s3) == {1};
  }

  // ----- the set empties -----

  /** Once no stray is running, the queued reapers alone bring the count to zero. */
  lemma {:induction false} ReapersEmptyTheSet(s: State) returns (acts: seq<Action>, end: State)
    requires Inv(s) && Strays(s) == {}
    ensures |acts| == |s.abandoned| && (forall a :: a in acts ==> a.Reap?)
    ensures Runs(s, acts, end) && end.abandoned == {} && end.tasks == s.tasks
    decreases |s.abandoned|
  {
    if s.abandoned == {} {
      acts, end := [], s;
    } else {
      var t :| t in s.abandoned;
      var s' := Do(s, Reap(t));
      StepKeepsInv(s, Reap(t));
      assert Strays(s') == {};
      var rest;
      rest, end := ReapersEmptyTheSet(s');
      acts := [Reap(t)] + rest;
      assert acts[1..] == rest;
    }
  }

  ghost predicate Runs(s: State, acts: seq<Action>, end: State)
    decreases |acts|
  {
    if acts == [] then s == end else Enabled(s, acts[0]) && Runs(Do(s, acts[0]), acts[1..], end)
  }

  // ----- the module's own state -----

  class Registry {
    var tasks: map<TaskId, Task>
    var abandoned: set<TaskId>
    var queued: set<TaskId>
    var drains: map<DrainId, Drain>
    var frees: seq<Free>

    ghost function Now(): State
      reads this
    {
      State(tasks, abandoned, queued, drains, frees)
    }

    ghost predicate Valid()
      reads this
    {
      Inv(Now())
    }

    constructor ()
      ensures Valid() && Init(Now())
    {
      tasks, abandoned, queued, drains, frees := map[], {}, {}, map[], [];
      new;
      assert Strays(Now()) == {};
    }

    /** `run_with_deadline` once its wait is over: the result, or the task left behind. */
    method Resume(t: TaskId) returns (answered: bool)
      requires Valid() && t in tasks && tasks[t].caller == Waiting
      modifies this
      ensures Valid() && answered == old(tasks[t].done)
      ensures Now() == Do(old(Now()), if answered then Answer(t) else Exceed(t))
      ensures !answered ==> t in Strays(Now()) && t in abandoned
    {
      answered := tasks[t].done;
      StepKeepsInv(Now(), if answered then Answer(t) else Exceed(t));
      if answered {
        tasks := tasks[t := tasks[t].(caller := Answered)];
        return;
      }
      tasks := tasks[t := tasks[t].(cancelRequested := true, caller := Exceeded)];
      abandoned := abandoned + {t};
    }

    /** A task ends, and the loop schedules the callback it carries, if any. */
    method Complete(t: TaskId)
      requires Valid() && t in tasks && !tasks[t].done
      modifies this
      ensures Valid() && Now() == Do(old(Now()), Action.Complete(t))
    {
      StepKeepsInv(Now(), Action.Complete(t));
      if tasks[t].caller == Exceeded {
        queued := queued + {t};
      }
      tasks := tasks[t := tasks[t].(done := true)];
    }

    /** `_reap`, run by the loop. */
    method Reap(t: TaskId)
      requires Valid() && t in queued
      modifies this
      ensures Valid() && Now() == Do(old(Now()), Action.Reap(t))
      ensures t !in abandoned && AbandonedTaskCount() == old(AbandonedTaskCount()) - 1
    {
      StepKeepsInv(Now(), Action.Reap(t));
      queued := queued - {t};
      abandoned := abandoned - {t};
    }

    /** `abandoned_task_count`. */
    function AbandonedTaskCount(): nat
      reads this
    {
      |abandoned|
    }

    /** The tail of `drain_abandoned` and of the teardown that called it: start freeing only on zero. */
    method Disconnect(d: DrainId) returns (freeing: bool)
      requires Valid() && d in drains && drains[d].Draining?
      modifies this
      ensures Valid() && Now() == Do(old(Now()), EndDrain(d))
      ensures drains == old(drains)[d := Drained(|old(abandoned)|)] && abandoned == old(abandoned)
      ensures freeing ==> Strays(Now()) == {} && frees == old(frees) + [Free(d, true, {})]
      ensures !freeing ==> abandoned != {} && frees == old(frees)
    {
      StepKeepsInv(Now(), EndDrain(d));
      ghost var strays := Strays(Now());
      var remaining := |abandoned|;
      drains := drains[d := Drained(remaining)];
      if remaining != 0 {
        return false;
      }
      assert strays == {};
      assert Strays(Now()) == strays;
      frees := frees + [Free(d, true, {})];
      return true;
    }

    /** The teardown resumed after an await of its own: the next session is closed, whoever is running. */
    method CloseNext(d: DrainId)
      requires Valid() && d in drains && drains[d] == Drained(0)
      modifies this
      ensures Valid() && Now() == Do(old(Now()), FreeNext(d))
    {
      StepKeepsInv(Now(), FreeNext(d));
      frees := frees + [Free(d, false, Strays(State(tasks, abandoned, queued, drains, frees)))];
    }
  }
}
