/**
 The task registry of the cron service as a step system: registrations, switches, ticks, startup and shutdown.

 A tick holds on to the task object it began with, while a timeout completes by name.  A timeout that was executed is
 switched off while its tick may still be waiting for the release of the lock.  Startup waits for the lock client before
 it schedules anything, so other operations can run in between.
 */
module CronScheduler {
  import opened Options

  type TaskId = nat
  type TickId = nat

  datatype Kind = Cron | Interval | Timeout
  datatype Task = Task(kind: Kind, expression: string, enabled: bool, running: bool, scheduled: bool)

  datatype State = State(
    names: map<string, TaskId>,
    objects: map<TaskId, Task>,
    ticks: map<TickId, TaskId>,
    executed: set<TickId>,
    started: bool,
    starting: nat,
    shutDown: bool)

  const Initial := State(map[], map[], map[], {}, false, 0, false)

  datatype Step =
    | Add(id: TaskId, name: string, kind: Kind, expression: string, fails: bool)
    | Remove(name: string)
    | Enable(name: string, fails: bool)
    | Disable(name: string)
    | UpdateCron(name: string, expression: string, fails: bool)
    | BeginBootstrap
    | BootstrapSucceeds(decorated: map<string, TaskId>, kinds: map<TaskId, Task>)
    | BootstrapFails
    | BeginTick(tick: TickId, name: string)
    | ExecutedTick(tick: TickId)
    | EndTick(tick: TickId)
    | CompleteTimeout(name: string)
    | Shutdown

  function Fresh(kind: Kind, expression: string, scheduled: bool): Task {
    Task(kind, expression, true, false, scheduled)
  }

  function Lookup(s: State, name: string): Option<Task> {
    if name in s.names && s.names[name] in s.objects then Some(s.objects[s.names[name]]) else None
  }

  function WithTask(s: State, name: string, t: Task): State
    requires name in s.names
  {
    s.(objects := s.objects[s.names[name] := t])
  }

  /** The registered task objects. */
  function Registered(s: State): set<TaskId> { s.names.Values }

  function Unscheduled(s: State): map<TaskId, Task> {
    map i | i in s.objects :: if i in Registered(s) then s.objects[i].(scheduled := false) else s.objects[i]
  }

  /** Every enabled registered task gets a handle. */
  function Scheduled(names: map<string, TaskId>, objects: map<TaskId, Task>): map<TaskId, Task> {
    map i | i in objects ::
      if i in names.Values then objects[i].(scheduled := objects[i].scheduled || objects[i].enabled) else objects[i]
  }

  predicate Enabled(s: State, step: Step) {
    match step
    case Add(id, _, _, _, _) => id !in s.objects
    case BootstrapSucceeds(decorated, kinds) =>
      s.starting > 0 && decorated.Keys !! s.names.Keys && kinds.Keys !! s.objects.Keys &&
      decorated.Values == kinds.Keys &&
      (forall m <- decorated, n <- decorated :: m != n ==> decorated[m] != decorated[n]) &&
      (forall i <- kinds :: kinds[i] == Fresh(kinds[i].kind, kinds[i].expression, false))
    case BootstrapFails => s.starting > 0
    case BeginTick(k, _) => k !in s.ticks
    case ExecutedTick(k) => k in s.ticks && k !in s.executed && s.ticks[k] in s.objects
    case EndTick(k) => k in s.ticks && s.ticks[k] in s.objects
    case _ => true
  }

  /** The callback of a tick has run: a timeout is switched off, through the object the tick holds. */
  function AfterExecutedTick(s: State, k: TickId): State
    requires k in s.ticks && s.ticks[k] in s.objects
  {
    var i := s.ticks[k];
    var t := s.objects[i];
    s.(executed := s.executed + {k},
       objects := s.objects[i := t.(enabled := t.enabled && !t.kind.Timeout?,
                                    scheduled := t.scheduled && !t.kind.Timeout?)])
  }

  function AfterEndTick(s: State, k: TickId): State
    requires k in s.ticks && s.ticks[k] in s.objects
  {
    s.(ticks := s.ticks - {k}, executed := s.executed - {k},
       objects := s.objects[s.ticks[k] := s.objects[s.ticks[k]].(running := false)])
  }

  function Next(s: State, step: Step): State
    requires Enabled(s, step)
  {
    match step
    case Add(id, name, kind, expression, fails) =>
      if name in s.names || (s.started && fails) then s
      else s.(names := s.names[name := id], objects := s.objects[id := Fresh(kind, expression, s.started)])
    case Remove(name) =>
      if Lookup(s, name).None? then s
      else WithTask(s, name, Lookup(s, name).value.(scheduled := false)).(names := s.names - {name})
    case Enable(name, fails) =>
      var t := Lookup(s, name);
      if t.None? || t.value.enabled || (s.started && fails && !t.value.scheduled) then s
      else WithTask(s, name, t.value.(enabled := true, scheduled := s.started || t.value.scheduled))
    case Disable(name) =>
      var t := Lookup(s, name);
      if t.None? then s else WithTask(s, name, t.value.(enabled := false, scheduled := false))
    case UpdateCron(name, expression, fails) =>
      var t := Lookup(s, name);
      if t.None? || !t.value.kind.Cron? || (t.value.enabled && s.started && fails) then s
      else WithTask(s, name, t.value.(expression := expression,
                                     scheduled := t.value.scheduled || (t.value.enabled && s.started)))
    case BeginBootstrap => if s.started then s else s.(starting := s.starting + 1)
    case BootstrapSucceeds(decorated, kinds) =>
      s.(starting := s.starting - 1, started := true, names := s.names + decorated,
         objects := Scheduled(s.names + decorated, s.objects + kinds))
    case BootstrapFails =>
      s.(starting := s.starting - 1, started := false, names := map[], objects := Unscheduled(s))
    case BeginTick(k, name) =>
      var t := Lookup(s, name);
      if t.None? || !t.value.enabled || t.value.running then s
      else WithTask(s, name, t.value.(running := true)).(ticks := s.ticks[k := s.names[name]])
    case ExecutedTick(k) => AfterExecutedTick(s, k)
    case EndTick(k) => AfterEndTick(s, k)
    case CompleteTimeout(name) =>
      var t := Lookup(s, name);
      if t.None? || !t.value.kind.Timeout? then s else WithTask(s, name, t.value.(enabled := false, scheduled := false))
    case Shutdown =>
      if s.shutDown then s else s.(shutDown := true, started := false, objects := Unscheduled(s))
  }

  predicate ValidRun(s: State, steps: seq<Step>)
    decreases |steps|
  {
    steps == [] || (Enabled(s, steps[0]) && ValidRun(Next(s, steps[0]), steps[1..]))
  }

  function After(s: State, steps: seq<Step>): State
    requires ValidRun(s, steps)
    decreases |steps|
  {
    if steps == [] then s else After(Next(s, steps[0]), steps[1..])
  }

  // ---------- Invariants ----------

  predicate NamesOk(s: State) {
    && (forall n <- s.names :: s.names[n] in s.objects)
    && (forall m <- s.names, n <- s.names :: m != n ==> s.names[m] != s.names[n])
  }

  /** A registered task has a scheduled handle exactly when the service is started and the task is enabled. */
  predicate HandlesOk(s: State) {
    forall n <- s.names :: s.names[n] in s.objects &&
      (s.objects[s.names[n]].scheduled <==> s.started && s.objects[s.names[n]].enabled)
  }

  /** A task is marked running exactly while a tick holds it, and no two ticks hold the same task. */
  predicate TicksOk(s: State) {
    && (forall k <- s.ticks :: s.ticks[k] in s.objects)
    && (forall i <- s.objects :: s.objects[i].running <==> i in s.ticks.Values)
    && (forall j <- s.ticks, k <- s.ticks :: j != k ==> s.ticks[j] != s.ticks[k])
  }

  predicate Inv(s: State) { NamesOk(s) && HandlesOk(s) && TicksOk(s) }

  lemma NamesKept(s: State, step: Step)
    requires NamesOk(s) && Enabled(s, step)
    ensures NamesOk(Next(s, step))
  {
  }

  lemma ChangeKeepsHandles(s: State, name: string, t: Task)
    requires NamesOk(s) && HandlesOk(s) && name in s.names && (t.scheduled <==> s.started && t.enabled)
    ensures HandlesOk(WithTask(s, name, t))
  {
  }

  lemma SwitchKeepsHandles(s: State, step: Step)
    requires NamesOk(s) && HandlesOk(s) && Enabled(s, step)
    requires step.Enable? || step.Disable? || step.UpdateCron? || step.CompleteTimeout? || step.BeginTick?
    ensures HandlesOk(Next(s, step))
  {
    var t := Lookup(s, step.name);
    if t.Some? && Next(s, step) != s {
      ChangeKeepsHandles(s, step.name, Next(s, step).objects[s.names[step.name]]);
    }
  }

  lemma TickKeepsHandles(s: State, k: TickId)
    requires NamesOk(s) && HandlesOk(s) && k in s.ticks && s.ticks[k] in s.objects
    ensures HandlesOk(AfterExecutedTick(s, k)) && HandlesOk(AfterEndTick(s, k))
  {
  }

  lemma BootstrapKeepsHandles(s: State, decorated: map<string, TaskId>, kinds: map<TaskId, Task>)
    requires NamesOk(s) && HandlesOk(s) && Enabled(s, BootstrapSucceeds(decorated, kinds))
    ensures HandlesOk(Next(s, BootstrapSucceeds(decorated, kinds)))
  {
    var names := s.names + decorated;
    forall n | n in names
      ensures names[n] in s.objects + kinds
      ensures !s.started ==> !(s.objects + kinds)[names[n]].scheduled
      ensures (s.objects + kinds)[names[n]].scheduled ==> (s.objects + kinds)[names[n]].enabled
    {
      if n in decorated { assert decorated[n] in decorated.Values; }
    }
  }

  lemma HandlesKept(s: State, step: Step)
    requires NamesOk(s) && HandlesOk(s) && Enabled(s, step)
    ensures HandlesOk(Next(s, step))
  {
    match step
    case ExecutedTick(k) => TickKeepsHandles(s, k);
    case EndTick(k) => TickKeepsHandles(s, k);
    case BootstrapSucceeds(decorated, kinds) => BootstrapKeepsHandles(s, decorated, kinds);
    case Add(_, _, _, _, _) =>
    case Remove(_) =>
    case BeginBootstrap =>
    case BootstrapFails =>
    case Shutdown =>
    case _ => SwitchKeepsHandles(s, step);
  }

  lemma BeginTickKeepsTicks(s: State, k: TickId, name: string)
    requires NamesOk(s) && TicksOk(s) && Enabled(s, BeginTick(k, name))
    ensures TicksOk(Next(s, BeginTick(k, name)))
  {
    var s' := Next(s, BeginTick(k, name));
    if s' != s {
      assert s'.ticks[k] == s.names[name];
      forall i | i in s'.objects ensures s'.objects[i].running <==> i in s'.ticks.Values {
        if i != s.names[name] && i in s.ticks.Values {
          var j :| j in s.ticks && s.ticks[j] == i;
          assert s'.ticks[j] == i;
        }
      }
    }
  }

  lemma EndTickKeepsTicks(s: State, k: TickId)
    requires TicksOk(s) && Enabled(s, EndTick(k))
    ensures TicksOk(AfterEndTick(s, k))
  {
    var s' := AfterEndTick(s, k);
    forall i | i in s'.objects ensures s'.objects[i].running <==> i in s'.ticks.Values {
      if i != s.ticks[k] && i in s.ticks.Values {
        var j :| j in s.ticks && s.ticks[j] == i;
        assert s'.ticks[j] == i;
      }
    }
  }

  lemma TicksKept(s: State, step: Step)
    requires NamesOk(s) && TicksOk(s) && Enabled(s, step)
    ensures TicksOk(Next(s, step))
  {
    match step
    case BeginTick(k, name) => BeginTickKeepsTicks(s, k, name);
    case EndTick(k) => EndTickKeepsTicks(s, k);
    case _ => SameTicks(s, step);
  }

  /** A step that starts and ends no tick leaves the running marks of the objects it finds. */
  lemma SameTicks(s: State, step: Step)
    requires NamesOk(s) && TicksOk(s) && Enabled(s, step) && !step.BeginTick? && !step.EndTick?
    ensures TicksOk(Next(s, step))
  {
    var s' := Next(s, step);
    if step.Remove? || step.Enable? || step.Disable? || step.UpdateCron? || step.CompleteTimeout? {
      SwitchKeepsRunning(s, step);
    }
    RunningKept(s, s');
  }

  lemma SwitchKeepsRunning(s: State, step: Step)
    requires NamesOk(s) && Enabled(s, step)
    requires step.Remove? || step.Enable? || step.Disable? || step.UpdateCron? || step.CompleteTimeout?
    ensures var s' := Next(s, step);
            s'.ticks == s.ticks && s'.objects.Keys == s.objects.Keys &&
            forall i <- s.objects :: s'.objects[i].running == s.objects[i].running
  {
  }

  lemma RunningKept(s: State, s': State)
    requires TicksOk(s) && s'.ticks == s.ticks && s.objects.Keys <= s'.objects.Keys
    requires forall i <- s.objects :: s'.objects[i].running == s.objects[i].running
    requires forall i <- s'.objects :: i !in s.objects ==> !s'.objects[i].running
    ensures TicksOk(s')
  {
    assert forall i <- s.ticks.Values :: i in s.objects;
  }

  lemma StepKeeps(s: State, step: Step)
    requires Inv(s) && Enabled(s, step)
    ensures Inv(Next(s, step))
  {
    NamesKept(s, step);
    HandlesKept(s, step);
    TicksKept(s, step);
  }

  lemma {:induction false} RunKeeps(s: State, steps: seq<Step>)
    requires Inv(s) && ValidRun(s, steps)
    ensures Inv(After(s, steps))
    decreases |steps|
  {
    if steps != [] {
      StepKeeps(s, steps[0]);
      RunKeeps(Next(s, steps[0]), steps[1..]);
    }
  }

  /**
   In every reachable state each registered task has a scheduled handle exactly when the service is started and the task
   is enabled, is marked running exactly while a tick holds it, and is held by at most one tick.
   */
  lemma SchedulerIsConsistent(steps: seq<Step>, name: string)
    requires ValidRun(Initial, steps) && name in After(Initial, steps).names
    ensures var s := After(Initial, steps);
            && s.names[name] in s.objects
            && (s.objects[s.names[name]].scheduled <==> s.started && s.objects[s.names[name]].enabled)
            && (s.objects[s.names[name]].running <==> s.names[name] in s.ticks.Values)
            && (forall j <- s.ticks, k <- s.ticks :: s.ticks[j] == s.ticks[k] ==> j == k)
  {
    RunKeeps(Initial, steps);
  }

  // ---------- After shutdown ----------

  /** A bootstrap completed, and none failed after it. */
  ghost predicate Restarted(steps: seq<Step>) {
    exists i :: 0 <= i < |steps| && steps[i].BootstrapSucceeds? && NoFailureAfter(steps, i)
  }

  ghost predicate NoFailureAfter(steps: seq<Step>, i: int) {
    forall j | i < j < |steps| :: 0 <= j ==> !steps[j].BootstrapFails?
  }

  lemma RestartedLater(steps: seq<Step>)
    requires steps != []
    ensures Restarted(steps) <==> Restarted(steps[1..]) ||
                                  (steps[0].BootstrapSucceeds? && NoFailureAfter(steps[1..], -1))
  {
    if i :| 0 <= i < |steps| && steps[i].BootstrapSucceeds? && NoFailureAfter(steps, i) {
      forall j | i - 1 < j < |steps[1..]| ensures 0 <= j ==> !steps[1..][j].BootstrapFails? {
        if 0 <= j { assert steps[1..][j] == steps[j + 1]; }
      }
      assert NoFailureAfter(steps[1..], i - 1);
      assert i > 0 ==> steps[1..][i - 1] == steps[i];
    }
    if i :| 0 <= i < |steps[1..]| && steps[1..][i].BootstrapSucceeds? && NoFailureAfter(steps[1..], i) {
      forall j | i + 1 < j < |steps| ensures !steps[j].BootstrapFails? { assert steps[j] == steps[1..][j - 1]; }
      assert steps[i + 1] == steps[1..][i] && NoFailureAfter(steps, i + 1);
    }
    if steps[0].BootstrapSucceeds? && NoFailureAfter(steps[1..], -1) {
      forall j | 0 < j < |steps| ensures !steps[j].BootstrapFails? { assert steps[j] == steps[1..][j - 1]; }
      assert NoFailureAfter(steps, 0);
    }
  }

  /**
   After the first shutdown the service runs exactly if it still ran, or started again, and no startup failed since.
   */
  lemma {:induction false} StartedAfterShutdown(s: State, steps: seq<Step>)
    requires s.shutDown && ValidRun(s, steps)
    ensures After(s, steps).started <==> Restarted(steps) || (s.started && NoFailureAfter(steps, -1))
    decreases |steps|
  {
    if steps != [] {
      var s' := Next(s, steps[0]);
      StartedAfterShutdown(s', steps[1..]);
      RestartedLater(steps);
      if NoFailureAfter(steps, -1) {
        forall j | -1 < j < |steps[1..]| ensures !steps[1..][j].BootstrapFails? {
          assert steps[1..][j] == steps[j + 1];
        }
      }
      if NoFailureAfter(steps[1..], -1) && !steps[0].BootstrapFails? {
        forall j | -1 < j < |steps| ensures !steps[j].BootstrapFails? {
          if j > 0 { assert steps[j] == steps[1..][j - 1]; }
        }
      }
    }
  }

  /**
   Whatever happens after the first shutdown, a registered task is scheduled if and only if it is enabled and a
   bootstrap completed after the shutdown with no failed one since.
   */
  lemma ScheduledAfterShutdown(before: seq<Step>, steps: seq<Step>, name: string)
    requires ValidRun(Initial, before) && !After(Initial, before).shutDown
    requires ValidRun(Next(After(Initial, before), Shutdown), steps)
    requires name in After(Next(After(Initial, before), Shutdown), steps).names
    ensures var s := After(Next(After(Initial, before), Shutdown), steps);
            s.names[name] in s.objects &&
            (s.objects[s.names[name]].scheduled <==> Restarted(steps) && s.objects[s.names[name]].enabled)
  {
    RunKeeps(Initial, before);
    var stopped := Next(After(Initial, before), Shutdown);
    StepKeeps(After(Initial, before), Shutdown);
    RunKeeps(stopped, steps);
    StartedAfterShutdown(stopped, steps);
  }

  ghost predicate BeginsNone(steps: seq<Step>) {
    forall step <- steps :: !step.BeginBootstrap?
  }

  lemma {:induction false} NoneStarting(s: State, steps: seq<Step>)
    requires s.starting == 0 && !s.started && ValidRun(s, steps) && BeginsNone(steps)
    ensures After(s, steps).starting == 0 && !After(s, steps).started
    decreases |steps|
  {
    if steps != [] {
      assert steps[0] in steps && forall step <- steps[1..] :: step in steps;
      NoneStarting(Next(s, steps[0]), steps[1..]);
    }
  }

  /**
   What a caller of shutdown can check: as long as no bootstrap is begun afterwards, the service can be started again if
   and only if a bootstrap is under way at the moment of the shutdown.
   */
  lemma ShutdownIsFinalUnlessStarting(before: seq<Step>)
    requires ValidRun(Initial, before) && !After(Initial, before).shutDown
    ensures var stopped := Next(After(Initial, before), Shutdown);
            After(Initial, before).starting > 0 <==>
            (exists steps :: ValidRun(stopped, steps) && BeginsNone(steps) && After(stopped, steps).started)
  {
    var stopped := Next(After(Initial, before), Shutdown);
    if stopped.starting > 0 {
      var resume := BootstrapSucceeds(map[], map[]);
      assert Enabled(stopped, resume);
      assert [resume][1..] == [];
      assert ValidRun(Next(stopped, resume), []);
      assert ValidRun(stopped, [resume]) && BeginsNone([resume]) && After(stopped, [resume]).started;
    }
    if steps :| ValidRun(stopped, steps) && BeginsNone(steps) && After(stopped, steps).started {
      if stopped.starting == 0 { NoneStarting(stopped, steps); }
    }
  }

  /** That exception is real: a bootstrap that was waiting during the shutdown schedules its tasks afterwards. */
  lemma BootstrapOutlivesShutdown() returns (steps: seq<Step>)
    ensures ValidRun(Initial, steps)
    ensures var s := After(Initial, steps);
            && s.shutDown && s.started
            && "job" in s.names && s.names["job"] in s.objects && s.objects[s.names["job"]].scheduled
  {
    var s1 := Next(Initial, Add(0, "job", Interval, "", false));
    var s2 := Next(s1, BeginBootstrap);
    var s3 := Next(s2, Shutdown);
    var resume := BootstrapSucceeds(map[], map[]);
    assert Enabled(s3, resume);
    var s4 := Next(s3, resume);
    assert ValidRun(s4, []) && After(s4, []) == s4;
    var last := [resume];
    assert last[1..] == [];
    assert ValidRun(s3, last) && After(s3, last) == s4;
    var tail := [Shutdown] + last;
    assert tail[1..] == last;
    assert ValidRun(s2, tail) && After(s2, tail) == s4;
    var more := [BeginBootstrap] + tail;
    assert more[1..] == tail;
    assert ValidRun(s1, more) && After(s1, more) == s4;
    steps := [Add(0, "job", Interval, "", false)] + more;
    assert steps[1..] == more;
    assert s4.names["job"] == 0;
  }
}
