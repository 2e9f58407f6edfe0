/** `TaskScheduler` (include/task_scheduler.h): a fixed table of sixteen
    tasks, each run when it is critical or its interval has elapsed since
    its last run, measured in wrap-around `unsigned long` milliseconds.
    Callbacks are abstract: the model records which ones `run` invokes, in
    order. */
module TaskScheduler {
  import opened Wrappers
  import opened Bytes

  const MaxTasks: nat := 16

  type CallbackId = nat

  /** The four priorities; `PRIORITY_HIGH` is 1 but runs every 5 ms. */
  datatype Priority = Critical | High | Medium | Low

  /** A table slot: a possibly null callback, its priority, the time of its
      last run, the interval derived from the priority, the enabled flag and
      the name. */
  datatype Task = Task(callback: Option<CallbackId>, priority: Priority, lastRun: nat,
                       interval: nat, enabled: bool, name: string)

  /** The slot's default constructor. */
  const EmptyTask: Task := Task(None, Critical, 0, 0, true, "")

  /** Milliseconds between runs for each priority. */
  function IntervalOf(p: Priority): (ms: nat)
    ensures p == Critical <==> ms == 0
    ensures ms <= 100
  {
    match p
    case Critical => 0
    case High => 5
    case Medium => 10
    case Low => 100
  }

  /** The task constructor: enabled, never run, interval from the
      priority. */
  function MakeTask(cb: Option<CallbackId>, prio: Priority, name: string): (t: Task)
    ensures t.enabled && t.lastRun == 0 && t.interval == IntervalOf(prio)
    ensures t.callback == cb && t.priority == prio && t.name == name
  {
    Task(cb, prio, 0, IntervalOf(prio), true, name)
  }

  predicate TaskValid(t: Task) {
    t.lastRun < U32
  }

  /** `run` calls the task iff it is enabled, has a callback, and is either
      critical or has waited at least its interval. */
  predicate Due(t: Task, now: nat)
    requires TaskValid(t) && now < U32
  {
    t.enabled && t.callback.Some? && (t.priority == Critical || WrapSub(now, t.lastRun) >= t.interval)
  }

  function RunTask(t: Task, now: nat): (r: Task)
    requires TaskValid(t) && now < U32
    ensures TaskValid(r)
  {
    if Due(t, now) then t.(lastRun := now) else t
  }

  /** The table after `run`: the first `count` slots are run, the rest are
      untouched. */
  function RunAll(ts: seq<Task>, count: nat, now: nat): (rs: seq<Task>)
    requires forall i :: 0 <= i < |ts| ==> TaskValid(ts[i])
    requires now < U32
    ensures |rs| == |ts|
  {
    seq(|ts|, i requires 0 <= i < |ts| => if i < count then RunTask(ts[i], now) else ts[i])
  }

  /** The callbacks `run` invokes, in index order. */
  function Calls(ts: seq<Task>, now: nat): (cs: seq<CallbackId>)
    requires forall i :: 0 <= i < |ts| ==> TaskValid(ts[i])
    requires now < U32
    ensures |cs| <= |ts|
  {
    if ts == [] then []
    else
      var last := ts[|ts| - 1];
      Calls(ts[..|ts| - 1], now) + (if Due(last, now) then [last.callback.value] else [])
  }

  /** The first of the first `count` slots with that name. */
  function FirstNamed(ts: seq<Task>, count: nat, name: string, from: nat): (r: Option<nat>)
    requires count <= |ts|
    ensures r.Some? ==> from <= r.value < count && ts[r.value].name == name
    ensures r.Some? ==> forall j :: from <= j < r.value ==> ts[j].name != name
    ensures r.None? ==> forall j :: from <= j < count ==> ts[j].name != name
    decreases count - from
  {
    if from >= count then None
    else if ts[from].name == name then Some(from)
    else FirstNamed(ts, count, name, from + 1)
  }

  function Enable(ts: seq<Task>, count: nat, name: string, enable: bool): (rs: seq<Task>)
    requires count <= |ts|
    ensures |rs| == |ts|
  {
    match FirstNamed(ts, count, name, 0)
    case None => ts
    case Some(k) => ts[k := ts[k].(enabled := enable)]
  }

  // ---------------------------------------------------------------------
  // Properties
  // ---------------------------------------------------------------------

  lemma {:induction false} CallsStep(ts: seq<Task>, i: nat, now: nat)
    requires i < |ts| && now < U32
    requires forall j :: 0 <= j < |ts| ==> TaskValid(ts[j])
    ensures Calls(ts[..i + 1], now)
         == Calls(ts[..i], now) + (if Due(ts[i], now) then [ts[i].callback.value] else [])
  {
    assert ts[..i + 1][..i] == ts[..i];
  }

  /** `run` touches only `lastRun`, only of due tasks among the first
      `count`, and sets it to `now`. */
  lemma RunEffects(ts: seq<Task>, count: nat, now: nat, i: nat)
    requires forall j :: 0 <= j < |ts| ==> TaskValid(ts[j])
    requires now < U32 && i < |ts|
    ensures var r := RunAll(ts, count, now)[i];
      && r.(lastRun := ts[i].lastRun) == ts[i]
      && (i < count && Due(ts[i], now) ==> r.lastRun == now)
      && (i >= count || !Due(ts[i], now) ==> r == ts[i])
  {
  }

  /** A callback is invoked iff some due slot holds it. */
  lemma {:induction false} CallsOfDue(ts: seq<Task>, now: nat, c: CallbackId)
    requires forall j :: 0 <= j < |ts| ==> TaskValid(ts[j])
    requires now < U32
    ensures c in Calls(ts, now) <==> exists i :: 0 <= i < |ts| && Due(ts[i], now) && ts[i].callback == Some(c)
  {
    if ts != [] {
      var init := ts[..|ts| - 1];
      CallsOfDue(init, now, c);
      assert forall i :: 0 <= i < |init| ==> init[i] == ts[i];
    }
  }

  /** Invocations follow slot order: the calls of a table split in two are
      the calls of the first part followed by those of the second. */
  lemma {:induction false} CallsAppend(a: seq<Task>, b: seq<Task>, now: nat)
    requires forall j :: 0 <= j < |a| ==> TaskValid(a[j])
    requires forall j :: 0 <= j < |b| ==> TaskValid(b[j])
    requires now < U32
    ensures Calls(a + b, now) == Calls(a, now) + Calls(b, now)
    decreases |b|
  {
    if b == [] {
      assert a + b == a;
    } else {
      var b' := b[..|b| - 1];
      assert (a + b)[..|a + b| - 1] == a + b';
      assert (a + b)[|a + b| - 1] == b[|b| - 1];
      CallsAppend(a, b', now);
    }
  }

  /** A critical task with a callback runs on every pass; a task with a
      non-zero interval that has just run is not due again at the same
      time. */
  lemma DueFacts(t: Task, now: nat)
    requires TaskValid(t) && now < U32
    ensures t.enabled && t.callback.Some? && t.priority == Critical ==> Due(t, now)
    ensures !t.enabled || t.callback.None? ==> !Due(t, now)
    ensures Due(t, now) && t.priority != Critical && t.interval > 0 ==> !Due(RunTask(t, now), now)
  {
  }

  /** The elapsed time is computed modulo 2^32: for an enabled, non-critical
      task, due is `now - lastRun >= interval` when the counter has not
      wrapped since the last run, and `now + 2^32 - lastRun >= interval`
      when it has. */
  lemma DueAcrossWrap(t: Task, now: nat)
    requires TaskValid(t) && now < U32
    requires t.enabled && t.callback.Some? && t.priority != Critical
    ensures t.lastRun <= now ==> (Due(t, now) <==> now - t.lastRun >= t.interval)
    ensures t.lastRun > now ==> (Due(t, now) <==> now + U32 - t.lastRun >= t.interval)
  {
  }

  /** `enableTask` changes the `enabled` flag of the first slot with the
      name and nothing else; with no such slot the table is unchanged. */
  lemma EnableFirstOnly(ts: seq<Task>, count: nat, name: string, enable: bool)
    requires count <= |ts|
    ensures var rs := Enable(ts, count, name, enable);
      && (forall j :: 0 <= j < |ts| ==> rs[j].(enabled := ts[j].enabled) == ts[j])
      && (forall j :: 0 <= j < |ts| && rs[j] != ts[j] ==>
            j < count && ts[j].name == name && rs[j].enabled == enable
            && forall k :: 0 <= k < j ==> ts[k].name != name)
      && ((forall j :: 0 <= j < count ==> ts[j].name != name) ==> rs == ts)
      && (forall j :: 0 <= j < count && ts[j].name == name ==> exists k :: 0 <= k <= j && rs[k].enabled == enable)
  {
  }

  // ---------------------------------------------------------------------
  // The object
  // ---------------------------------------------------------------------

  class Scheduler {
    var tasks: array<Task>
    var taskCount: nat

    ghost predicate Valid()
      reads this, tasks
    {
      && tasks.Length == MaxTasks
      && taskCount <= MaxTasks
      && forall i :: 0 <= i < tasks.Length ==> TaskValid(tasks[i])
    }

    constructor()
      ensures Valid() && fresh(tasks)
      ensures taskCount == 0 && tasks[..] == seq(MaxTasks, _ => EmptyTask)
    {
      tasks := new Task[MaxTasks](_ => EmptyTask);
      taskCount := 0;
    }

    /** `addTask`: refused once the table is full; otherwise the task fills
        the next slot. */
    method AddTask(callback: Option<CallbackId>, priority: Priority, name: string) returns (ok: bool)
      requires Valid()
      modifies this, tasks
      ensures Valid() && tasks == old(tasks)
      ensures ok <==> old(taskCount) < MaxTasks
      ensures ok ==> (taskCount == old(taskCount) + 1
                      && tasks[..] == old(tasks[..])[old(taskCount) := MakeTask(callback, priority, name)])
      ensures !ok ==> taskCount == old(taskCount) && tasks[..] == old(tasks[..])
    {
      if taskCount >= MaxTasks {
        return false;
      }
      tasks[taskCount] := MakeTask(callback, priority, name);
      taskCount := taskCount + 1;
      ok := true;
    }

    /** `run` at time `now` (the `millis()` reading). */
    method Run(now: nat) returns (calls: seq<CallbackId>)
      requires Valid() && now < U32
      modifies tasks
      ensures Valid()
      ensures tasks[..] == RunAll(old(tasks[..]), taskCount, now)
      ensures calls == Calls(old(tasks[..])[..taskCount], now)
    {
      ghost var before := tasks[..];
      calls := [];
      var i := 0;
      while i < taskCount
        invariant 0 <= i <= taskCount
        invariant Valid()
        invariant forall j :: 0 <= j < MaxTasks ==>
          tasks[j] == if j < i then RunTask(before[j], now) else before[j]
        invariant calls == Calls(before[..i], now)
      {
        CallsStep(before, i, now);
        assert before[..taskCount][..i + 1] == before[..i + 1];
        var called := RunSlot(i, now);
        if called.Some? {
          calls := calls + [called.value];
        }
        i := i + 1;
      }
      assert before[..taskCount][..i] == before[..i];
      assert tasks[..] == RunAll(before, taskCount, now);
    }

    /** One pass of `run`'s loop body over slot `i`. */
    method RunSlot(i: nat, now: nat) returns (called: Option<CallbackId>)
      requires Valid() && i < tasks.Length && now < U32
      modifies tasks
      ensures Valid()
      ensures tasks[..] == old(tasks[..])[i := RunTask(old(tasks[i]), now)]
      ensures called == if Due(old(tasks[i]), now) then Some(old(tasks[i]).callback.value) else None
    {
      var task := tasks[i];
      if !task.enabled || task.callback.None? {
        return None;
      }
      if task.priority == Critical || WrapSub(now, task.lastRun) >= task.interval {
        tasks[i] := task.(lastRun := now);
        return task.callback;
      }
      called := None;
    }

    /** `enableTask`: the first slot with the name gets the flag. */
    method EnableTask(name: string, enable: bool)
      requires Valid()
      modifies tasks
      ensures Valid()
      ensures tasks[..] == Enable(old(tasks[..]), taskCount, name, enable)
    {
      ghost var before := tasks[..];
      var i := 0;
      while i < taskCount
        invariant 0 <= i <= taskCount
        invariant tasks[..] == before
        invariant FirstNamed(before, taskCount, name, 0) == FirstNamed(before, taskCount, name, i)
      {
        if tasks[i].name == name {
          tasks[i] := tasks[i].(enabled := enable);
          return;
        }
        i := i + 1;
      }
    }
  }
}
