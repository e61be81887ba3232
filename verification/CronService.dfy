/** The registry operations of the cron service on its task objects, with the scheduler's failures as inputs. */
module CronService {
  import opened Options
  import opened CronScheduler

  type Handle = nat
  datatype Outcome = Returned(found: bool) | Threw

  class RuntimeTask {
    const kind: Kind
    var expression: string
    var enabled: bool
    var running: bool
    var scheduledHandle: Option<Handle>

    constructor (kind: Kind, expression: string)
      ensures this.kind == kind && this.expression == expression && enabled && !running && scheduledHandle == None
    {
      this.kind, this.expression := kind, expression;
      enabled, running, scheduledHandle := true, false, None;
    }
  }

  function HandleSet(h: Option<Handle>): set<Handle> { if h.Some? then {h.value} else {} }

  twostate predicate Untouched(t: RuntimeTask)
    reads t
  {
    t.expression == old(t.expression) && t.enabled == old(t.enabled) && t.running == old(t.running) &&
    t.scheduledHandle == old(t.scheduledHandle)
  }

  class CronLifecycleService {
    var tasks: map<string, RuntimeTask>
    var started: bool
    var created: Handle
    /** Handles whose stop has been called. */
    var stopped: set<Handle>

    constructor ()
      ensures Valid() && tasks == map[] && !started
    {
      tasks, started, created, stopped := map[], false, 0, {};
    }

    ghost predicate Distinct()
      reads this
    {
      forall m <- tasks, n <- tasks :: m != n ==> tasks[m] != tasks[n]
    }

    /**
     A task has a handle exactly when the service is started and the task is enabled, and that handle is not stopped.
     */
    ghost predicate Valid()
      reads this, tasks.Values
    {
      && Distinct()
      && (forall n <- tasks :: tasks[n].scheduledHandle.Some? <==> started && tasks[n].enabled)
      && (forall n <- tasks :: tasks[n].scheduledHandle.Some? ==>
            tasks[n].scheduledHandle.value < created && tasks[n].scheduledHandle.value !in stopped)
      && (forall m <- tasks, n <- tasks ::
            m != n && tasks[m].scheduledHandle.Some? ==> tasks[m].scheduledHandle != tasks[n].scheduledHandle)
      && (forall h <- stopped :: h < created)
    }

    /** The scheduler either throws or returns a handle it has not returned before. */
    method CreateScheduledHandle(fails: bool) returns (h: Option<Handle>)
      modifies this`created
      ensures h.None? <==> fails
      ensures h.Some? ==> h.value == old(created) && created == old(created) + 1
      ensures h.None? ==> created == old(created)
    {
      if fails {
        return None;
      }
      h := Some(created);
      created := created + 1;
    }

    /** A task that cannot be scheduled is not registered. */
    method RegisterTask(name: string, kind: Kind, expression: string, fails: bool) returns (r: Outcome)
      requires Valid()
      modifies this
      ensures Valid() && started == old(started)
      ensures r.Threw? <==> name in old(tasks) || (started && fails)
      ensures r.Threw? ==> tasks == old(tasks)
      ensures !r.Threw? ==> name in tasks && fresh(tasks[name]) && tasks == old(tasks)[name := tasks[name]]
                            && tasks[name].kind == kind && tasks[name].expression == expression
                            && tasks[name].enabled && !tasks[name].running
    {
      if name in tasks {
        return Threw;
      }
      var task := new RuntimeTask(kind, expression);
      if started {
        var h := CreateScheduledHandle(fails);
        if h.None? {
          return Threw;
        }
        task.scheduledHandle := h;
      }
      tasks := tasks[name := task];
      r := Returned(true);
    }

    method UnscheduleTask(task: RuntimeTask)
      modifies this`stopped, task`scheduledHandle
      ensures task.scheduledHandle == None
      ensures stopped == old(stopped) + HandleSet(old(task.scheduledHandle))
    {
      if task.scheduledHandle.Some? {
        stopped := stopped + {task.scheduledHandle.value};
        task.scheduledHandle := None;
      }
    }

    method Remove(name: string) returns (found: bool)
      requires Valid()
      modifies this`tasks, this`stopped, tasks.Values
      ensures Valid() && found == (name in old(tasks)) && tasks == old(tasks) - {name}
      ensures found ==> old(tasks)[name].scheduledHandle == None
      ensures stopped == old(stopped) + HandleSet(if found then old(tasks[name].scheduledHandle) else None)
      ensures forall n <- tasks :: Untouched(tasks[n])
    {
      if name !in tasks {
        return false;
      }
      UnscheduleTask(tasks[name]);
      tasks := tasks - {name};
      found := true;
    }

    /** The task counts as enabled while it is scheduled. */
    method EnableAndSchedule(task: RuntimeTask, fails: bool) returns (threw: bool)
      requires Valid() && started && task in tasks.Values && !task.enabled
      modifies this`created, task`enabled, task`scheduledHandle
      ensures Valid() && threw == fails && task.enabled == !threw
      ensures threw ==> task.scheduledHandle == old(task.scheduledHandle)
    {
      task.enabled := true;
      var h := CreateScheduledHandle(fails);
      if h.None? {
        task.enabled := false;
        return true;
      }
      task.scheduledHandle := h;
      threw := false;
    }

    /** Enabling a task of a started service schedules it; if that throws the task stays disabled. */
    method Enable(name: string, fails: bool) returns (r: Outcome)
      requires Valid()
      modifies this`created, tasks.Values
      ensures Valid() && (r == Returned(false) <==> name !in tasks)
      ensures r.Threw? <==> name in tasks && !old(tasks[name].enabled) && started && fails
      ensures forall n <- tasks :: n != name || r.Threw? || old(tasks[n].enabled) ==> Untouched(tasks[n])
      ensures r == Returned(true) ==> tasks[name].enabled && tasks[name].running == old(tasks[name].running)
                                      && tasks[name].expression == old(tasks[name].expression)
    {
      if name !in tasks {
        return Returned(false);
      }
      var task := tasks[name];
      if task.enabled {
        return Returned(true);
      }
      if started {
        var threw := EnableAndSchedule(task, fails);
        return if threw then Threw else Returned(true);
      }
      task.enabled := true;
      r := Returned(true);
    }

    method Disable(name: string) returns (found: bool)
      requires Valid()
      modifies this`stopped, tasks.Values
      ensures Valid() && found == (name in tasks)
      ensures found ==> !tasks[name].enabled && tasks[name].scheduledHandle == None
                        && tasks[name].running == old(tasks[name].running)
                        && tasks[name].expression == old(tasks[name].expression)
      ensures stopped == old(stopped) + HandleSet(if found then old(tasks[name].scheduledHandle) else None)
      ensures forall n <- tasks :: n != name ==> Untouched(tasks[n])
    {
      if name !in tasks {
        return false;
      }
      var task := tasks[name];
      if task.enabled || task.scheduledHandle.Some? {
        task.enabled := false;
        UnscheduleTask(task);
      }
      found := true;
    }

    /** A new handle takes the place of the old one, which is stopped; a scheduler that throws leaves the old one. */
    method ReplaceHandle(task: RuntimeTask, fails: bool) returns (threw: bool)
      requires Valid() && started && task in tasks.Values && task.enabled
      modifies this`created, this`stopped, task`scheduledHandle
      ensures Valid() && threw == fails
      ensures threw ==> task.scheduledHandle == old(task.scheduledHandle)
      ensures stopped == old(stopped) + HandleSet(if threw then None else old(task.scheduledHandle))
    {
      var previous := task.scheduledHandle;
      var h := CreateScheduledHandle(fails);
      if h.None? {
        return true;
      }
      task.scheduledHandle := h;
      if previous.Some? {
        stopped := stopped + {previous.value};
      }
      threw := false;
    }

    /** A scheduler that throws leaves expression and handle as they were; otherwise the old handle is stopped. */
    method UpdateCronExpression(name: string, expression: string, fails: bool) returns (r: Outcome)
      requires Valid()
      modifies this`created, this`stopped, tasks.Values
      ensures Valid()
      ensures r.Threw? <==> name !in tasks || !tasks[name].kind.Cron? || (tasks[name].enabled && started && fails)
      ensures r.Threw? ==> stopped == old(stopped) && forall n <- tasks :: Untouched(tasks[n])
      ensures !r.Threw? ==> tasks[name].expression == expression && tasks[name].enabled == old(tasks[name].enabled)
                            && tasks[name].running == old(tasks[name].running)
                            && stopped == old(stopped) + HandleSet(old(tasks[name].scheduledHandle))
      ensures forall n <- tasks :: n != name ==> Untouched(tasks[n])
    {
      if name !in tasks || !tasks[name].kind.Cron? {
        return Threw;
      }
      var task := tasks[name];
      if !task.enabled || !started {
        task.expression := expression;
        return Returned(true);
      }
      var previousExpression := task.expression;
      task.expression := expression;
      var threw := ReplaceHandle(task, fails);
      if threw {
        task.expression := previousExpression;
        return Threw;
      }
      r := Returned(true);
    }

    /** Shutdown and a failed startup stop every task. */
    method StopAllScheduledTasks()
      requires Distinct()
      modifies this`stopped, tasks.Values`scheduledHandle
      ensures forall n <- tasks :: tasks[n].scheduledHandle == None
      ensures forall n <- tasks :: old(tasks[n].scheduledHandle).Some? ==>
              old(tasks[n].scheduledHandle).value in stopped
      ensures forall h <- stopped :: h in old(stopped) || exists n <- tasks :: old(tasks[n].scheduledHandle) == Some(h)
      ensures old(stopped) <= stopped
    {
      var todo := tasks.Keys;
      while todo != {}
        invariant todo <= tasks.Keys && old(stopped) <= stopped
        invariant forall n <- tasks ::
                    n !in todo ==> tasks[n].scheduledHandle == None && StoppedBy(old(tasks[n].scheduledHandle))
        invariant forall n <- todo :: tasks[n].scheduledHandle == old(tasks[n].scheduledHandle)
        invariant forall h <- stopped ::
                    h in old(stopped) || exists n <- tasks :: old(tasks[n].scheduledHandle) == Some(h)
        decreases |todo|
      {
        var n :| n in todo;
        UnscheduleTask(tasks[n]);
        todo := todo - {n};
      }
    }

    ghost predicate StoppedBy(h: Option<Handle>)
      reads this
    {
      h.Some? ==> h.value in stopped
    }

    method Shutdown()
      requires Valid()
      modifies this`started, this`stopped, tasks.Values`scheduledHandle
      ensures Valid() && !started
      ensures forall n <- tasks :: tasks[n].scheduledHandle == None
      ensures forall n <- tasks :: old(tasks[n].scheduledHandle).Some? ==>
              old(tasks[n].scheduledHandle).value in stopped
    {
      started := false;
      StopAllScheduledTasks();
    }

    /** Handles are numbered from `from` on, and no two tasks have the same. */
    ghost predicate NewHandles(from: Handle)
      reads this, tasks.Values
    {
      && (forall n <- tasks :: tasks[n].scheduledHandle.Some? ==> from <= tasks[n].scheduledHandle.value < created)
      && (forall m <- tasks, n <- tasks :: m != n && tasks[m].scheduledHandle.Some? ==>
            tasks[m].scheduledHandle != tasks[n].scheduledHandle)
    }

    ghost predicate Held(h: Handle)
      reads this, tasks.Values
    {
      exists n <- tasks :: tasks[n].scheduledHandle == Some(h)
    }

    /** Every handle created since `from` belongs to a task. */
    ghost predicate AllHeld(from: Handle)
      reads this, tasks.Values
    {
      forall h | from <= h < created :: Held(h)
    }

    method ScheduleTask(task: RuntimeTask, fails: bool, ghost from: Handle) returns (threw: bool)
      requires Distinct() && NewHandles(from) && from <= created && task in tasks.Values && task.scheduledHandle == None
      modifies this`created, task`scheduledHandle
      ensures NewHandles(from) && old(created) <= created && threw == (task.enabled && fails)
      ensures !threw ==> (task.scheduledHandle.Some? <==> task.enabled)
      ensures old(AllHeld(from)) ==> AllHeld(from)
    {
      if !task.enabled {
        assert forall k: Handle :: old(Held(k)) ==> Held(k);
        return false;
      }
      var h := CreateScheduledHandle(fails);
      task.scheduledHandle := h;
      threw := h.None?;
      forall k: Handle | old(Held(k)) ensures Held(k) {
        var n :| n in tasks && old(tasks[n].scheduledHandle) == Some(k);
        assert tasks[n] != task;
      }
      var m :| m in tasks && tasks[m] == task;
      assert tasks[m].scheduledHandle == h;
    }

    /** Schedules the enabled tasks until one of them cannot be scheduled. */
    method ScheduleEnabledTasks(failing: set<string>) returns (threw: bool)
      requires Distinct() && forall n <- tasks :: tasks[n].scheduledHandle == None
      modifies this`created, tasks.Values`scheduledHandle
      ensures old(created) <= created && NewHandles(old(created)) && AllHeld(old(created))
      ensures threw <==> exists n <- tasks :: tasks[n].enabled && n in failing
      ensures !threw ==> forall n <- tasks :: tasks[n].scheduledHandle.Some? <==> tasks[n].enabled
    {
      var todo := tasks.Keys;
      while todo != {}
        invariant todo <= tasks.Keys && old(created) <= created && NewHandles(old(created)) && AllHeld(old(created))
        invariant forall n <- todo :: tasks[n].scheduledHandle == None
        invariant forall n <- tasks :: n !in todo ==> (tasks[n].scheduledHandle.Some? <==> tasks[n].enabled)
        invariant forall n <- tasks :: n !in todo && tasks[n].enabled ==> n !in failing
        decreases |todo|
      {
        var n :| n in todo;
        threw := ScheduleTask(tasks[n], n in failing, old(created));
        if threw {
          return true;
        }
        todo := todo - {n};
      }
      threw := false;
    }

    /** Startup: if a task cannot be scheduled, every handle it has created is stopped and nothing stays registered. */
    method StartTasks(failing: set<string>) returns (threw: bool)
      requires Valid() && !started
      modifies this, tasks.Values`scheduledHandle
      ensures threw <==> exists n <- old(tasks) :: old(tasks)[n].enabled && n in failing
      ensures !threw ==> Valid() && started && tasks == old(tasks)
      ensures threw ==> !started && tasks == map[] && forall n <- old(tasks) :: old(tasks)[n].scheduledHandle == None
      ensures threw ==> forall h | old(created) <= h < created :: h in stopped
      ensures old(created) <= created && old(stopped) <= stopped
    {
      started := true;
      threw := ScheduleEnabledTasks(failing);
      if threw {
        HandleStartupFailure(old(created));
      } else {
        assert forall n <- tasks :: tasks[n].scheduledHandle.Some? ==> old(created) <= tasks[n].scheduledHandle.value;
      }
    }

    method HandleStartupFailure(ghost from: Handle)
      requires Distinct() && AllHeld(from)
      modifies this, tasks.Values`scheduledHandle
      ensures !started && tasks == map[] && forall n <- old(tasks) :: old(tasks)[n].scheduledHandle == None
      ensures created == old(created) && old(stopped) <= stopped
      ensures forall h | from <= h < created :: h in stopped
    {
      started := false;
      StopAllScheduledTasks();
      forall h | from <= h < created ensures h in stopped { assert old(Held(h)); }
      assert forall n <- tasks :: tasks[n].scheduledHandle == None;
      assert tasks == old(tasks);
      tasks := map[];
    }

    /** A timeout completes by name: whatever task has the name now is switched off if it is a timeout. */
    method CompleteTimeoutTask(name: string)
      requires Valid()
      modifies tasks.Values
      ensures Valid()
      ensures name in tasks && tasks[name].kind.Timeout? ==> !tasks[name].enabled && tasks[name].scheduledHandle == None
      ensures forall n <- tasks :: n != name || !tasks[n].kind.Timeout? ==> Untouched(tasks[n])
    {
      if name in tasks && tasks[name].kind.Timeout? {
        tasks[name].scheduledHandle := None;
        tasks[name].enabled := false;
      }
    }
  }
}
