/**
 What the registry says about a task, told from the steps of a run alone: whether it is registered, whether it is
 enabled, which cron expression it has, and when a tick runs it.
 */
module CronSwitches {
  import opened Options
  import opened CronScheduler

  lemma {:induction false} RunSnoc(s: State, steps: seq<Step>, step: Step)
    requires ValidRun(s, steps + [step])
    ensures ValidRun(s, steps) && Enabled(After(s, steps), step)
    ensures After(s, steps + [step]) == Next(After(s, steps), step)
    decreases |steps|
  {
    var all := steps + [step];
    if steps == [] {
      assert all[0] == step && all[1..] == [];
    } else {
      assert all[0] == steps[0] && all[1..] == steps[1..] + [step];
      RunSnoc(Next(s, steps[0]), steps[1..], step);
    }
  }

  // ---------- Properties that steps switch on and off ----------

  ghost predicate OnAt(on: (State, Step) -> bool, steps: seq<Step>, i: nat) {
    i < |steps| && ValidRun(Initial, steps[..i]) && on(After(Initial, steps[..i]), steps[i])
  }

  ghost predicate OffAt(off: (State, Step) -> bool, steps: seq<Step>, j: nat) {
    j < |steps| && ValidRun(Initial, steps[..j]) && off(After(Initial, steps[..j]), steps[j])
  }

  ghost predicate StaysOn(off: (State, Step) -> bool, steps: seq<Step>, i: nat) {
    forall j | i < j < |steps| :: !OffAt(off, steps, j)
  }

  /** Some step of the run switches the property on, and none after it switches it off. */
  ghost predicate SwitchedOn(on: (State, Step) -> bool, off: (State, Step) -> bool, steps: seq<Step>) {
    exists i :: OnAt(on, steps, i) && StaysOn(off, steps, i)
  }

  /** In each state of a run a step makes the property true, leaves it true, or makes it false. */
  ghost predicate Switches(on: (State, Step) -> bool, off: (State, Step) -> bool, holds: State -> bool) {
    !holds(Initial) && forall s, step | Inv(s) && Enabled(s, step) ::
      holds(Next(s, step)) <==> on(s, step) || (holds(s) && !off(s, step))
  }

  lemma SamePrefix(on: (State, Step) -> bool, steps: seq<Step>, step: Step, i: nat)
    requires i < |steps|
    ensures OnAt(on, steps + [step], i) <==> OnAt(on, steps, i)
    ensures OffAt(on, steps + [step], i) <==> OffAt(on, steps, i)
  {
    assert (steps + [step])[..i] == steps[..i];
  }

  lemma SwitchedLater(on: (State, Step) -> bool, off: (State, Step) -> bool, steps: seq<Step>, step: Step)
    requires ValidRun(Initial, steps)
    ensures SwitchedOn(on, off, steps + [step]) <==>
            on(After(Initial, steps), step) || (SwitchedOn(on, off, steps) && !off(After(Initial, steps), step))
  {
    var all, n, s := steps + [step], |steps|, After(Initial, steps);
    assert all[..n] == steps && all[n] == step;
    if on(s, step) { assert OnAt(on, all, n) && StaysOn(off, all, n); }
    if SwitchedOn(on, off, steps) && !off(s, step) {
      var i: nat :| OnAt(on, steps, i) && StaysOn(off, steps, i);
      SamePrefix(on, steps, step, i);
      forall j | i < j < |all| ensures !OffAt(off, all, j) { if j < n { SamePrefix(off, steps, step, j); } }
      assert StaysOn(off, all, i);
    }
    if SwitchedOn(on, off, all) && !on(s, step) {
      var i: nat :| OnAt(on, all, i) && StaysOn(off, all, i);
      SamePrefix(on, steps, step, i);
      forall j | i < j < n ensures !OffAt(off, steps, j) {
        SamePrefix(off, steps, step, j);
        assert !OffAt(off, all, j);
      }
      assert StaysOn(off, steps, i) && !OffAt(off, all, n);
    }
  }

  /** Such a property holds after a run exactly if it has been switched on and not switched off since. */
  lemma {:induction false} HoldsIfSwitchedOn(on: (State, Step) -> bool, off: (State, Step) -> bool,
                                             holds: State -> bool, steps: seq<Step>)
    requires Switches(on, off, holds) && ValidRun(Initial, steps)
    ensures holds(After(Initial, steps)) <==> SwitchedOn(on, off, steps)
    decreases |steps|
  {
    if steps != [] {
      var before, step := steps[..|steps| - 1], steps[|steps| - 1];
      assert steps == before + [step];
      RunSnoc(Initial, before, step);
      RunKeeps(Initial, before);
      HoldsIfSwitchedOn(on, off, holds, before);
      SwitchedLater(on, off, before, step);
    }
  }

  /**
   The service is started exactly if a bootstrap has succeeded, and neither a bootstrap has failed nor the first
   shutdown has come since.
   */
  lemma StartedExactly(steps: seq<Step>)
    requires ValidRun(Initial, steps)
    ensures After(Initial, steps).started <==>
            SwitchedOn((s: State, step: Step) => step.BootstrapSucceeds?,
                       (s: State, step: Step) => step.BootstrapFails? || (step.Shutdown? && !s.shutDown), steps)
  {
    var on := (s: State, step: Step) => step.BootstrapSucceeds?;
    var off := (s: State, step: Step) => step.BootstrapFails? || (step.Shutdown? && !s.shutDown);
    var holds := (s: State) => s.started;
    forall s, step | Inv(s) && Enabled(s, step)
      ensures holds(Next(s, step)) <==> on(s, step) || (holds(s) && !off(s, step))
    {
    }
    HoldsIfSwitchedOn(on, off, holds, steps);
  }

  /** How often a step of this kind occurs in the run. */
  function Occurrences(kind: (State, Step) -> bool, s: State, steps: seq<Step>): nat
    requires ValidRun(s, steps)
    decreases |steps|
  {
    if steps == [] then 0
    else (if kind(s, steps[0]) then 1 else 0) + Occurrences(kind, Next(s, steps[0]), steps[1..])
  }

  const begins := (s: State, step: Step) => step.BeginBootstrap? && !s.started
  const ends := (s: State, step: Step) => step.BootstrapSucceeds? || step.BootstrapFails?

  /**
   The bootstraps under way are those begun while the service was not started, less those that have ended: a call that
   finds the service started begins nothing, while one that finds another bootstrap under way begins a second.
   */
  lemma {:induction false} BootstrapsAddUp(s: State, steps: seq<Step>)
    requires ValidRun(s, steps)
    ensures s.starting + Occurrences(begins, s, steps) == After(s, steps).starting + Occurrences(ends, s, steps)
    decreases |steps|
  {
    if steps != [] { BootstrapsAddUp(Next(s, steps[0]), steps[1..]); }
  }

  // ---------- Registered tasks ----------

  /** A registration of this name that the service accepts, or finds already made. */
  predicate Registers(s: State, step: Step, name: string) {
    (step.Add? && step.name == name && !(s.started && step.fails)) ||
    (step.BootstrapSucceeds? && name in step.decorated)
  }

  predicate Unregisters(s: State, step: Step, name: string) { step == Remove(name) || step.BootstrapFails? }

  /**
   A name is registered exactly if it was added, or found by a bootstrap, and neither removed nor swept away by a failed
   bootstrap since.
   */
  lemma RegisteredExactly(steps: seq<Step>, name: string)
    requires ValidRun(Initial, steps)
    ensures name in After(Initial, steps).names <==>
            SwitchedOn((s, step) => Registers(s, step, name), (s, step) => Unregisters(s, step, name), steps)
  {
    var on := (s: State, step: Step) => Registers(s, step, name);
    var off := (s: State, step: Step) => Unregisters(s, step, name);
    var holds := (s: State) => name in s.names;
    forall s, step | Inv(s) && Enabled(s, step)
      ensures holds(Next(s, step)) <==> on(s, step) || (holds(s) && !off(s, step))
    {
      StepRegisters(s, step, name);
    }
    HoldsIfSwitchedOn(on, off, holds, steps);
  }

  lemma StepRegisters(s: State, step: Step, name: string)
    requires Inv(s) && Enabled(s, step)
    ensures name in Next(s, step).names <==>
            Registers(s, step, name) || (name in s.names && !Unregisters(s, step, name))
  {
  }

  // ---------- Enabled tasks ----------

  predicate IsEnabled(s: State, name: string) {
    name in s.names && s.names[name] in s.objects && s.objects[s.names[name]].enabled
  }

  predicate HasKind(s: State, name: string, kind: Kind) {
    name in s.names && s.names[name] in s.objects && s.objects[s.names[name]].kind == kind
  }

  /** A new registration, or an `enable` that the service accepts. */
  predicate TurnsOn(s: State, step: Step, name: string) {
    (Registers(s, step, name) && name !in s.names) ||
    (step.Enable? && step.name == name && name in s.names && !(s.started && step.fails))
  }

  /** A `disable`, the end of the registration, or the completion of a timeout by its name or by its own tick. */
  predicate TurnsOff(s: State, step: Step, name: string) {
    step == Disable(name) || Unregisters(s, step, name) ||
    (HasKind(s, name, Timeout) &&
     (step == CompleteTimeout(name) ||
      (step.ExecutedTick? && step.tick in s.ticks && s.ticks[step.tick] == s.names[name])))
  }

  lemma StepEnables(s: State, step: Step, name: string)
    requires Inv(s) && Enabled(s, step)
    ensures IsEnabled(Next(s, step), name) <==>
            TurnsOn(s, step, name) || (IsEnabled(s, name) && !TurnsOff(s, step, name))
  {
    if step.BootstrapSucceeds? {
      BootstrapEnables(s, step.decorated, step.kinds, name);
    } else if step.Add? || step.Remove? || step.BootstrapFails? || step.Shutdown? || step.BeginBootstrap? {
      RegistrationEnables(s, step, name);
    } else if step.ExecutedTick? || step.EndTick? {
      TickEnables(s, step, name);
    } else {
      SwitchEnables(s, step, name);
    }
  }

  lemma BootstrapEnables(s: State, decorated: map<string, TaskId>, kinds: map<TaskId, Task>, name: string)
    requires Inv(s) && Enabled(s, BootstrapSucceeds(decorated, kinds))
    ensures IsEnabled(Next(s, BootstrapSucceeds(decorated, kinds)), name) <==> name in decorated || IsEnabled(s, name)
  {
    if name in decorated { assert decorated[name] in decorated.Values; }
  }

  lemma RegistrationEnables(s: State, step: Step, name: string)
    requires Inv(s) && Enabled(s, step)
    requires step.Add? || step.Remove? || step.BootstrapFails? || step.Shutdown? || step.BeginBootstrap?
    ensures IsEnabled(Next(s, step), name) <==>
            TurnsOn(s, step, name) || (IsEnabled(s, name) && !TurnsOff(s, step, name))
  {
  }

  lemma TickEnables(s: State, step: Step, name: string)
    requires Inv(s) && Enabled(s, step) && (step.ExecutedTick? || step.EndTick?)
    ensures IsEnabled(Next(s, step), name) <==> IsEnabled(s, name) && !TurnsOff(s, step, name)
  {
  }

  lemma SwitchEnables(s: State, step: Step, name: string)
    requires Inv(s) && Enabled(s, step)
    requires step.Enable? || step.Disable? || step.UpdateCron? || step.BeginTick? || step.CompleteTimeout?
    ensures IsEnabled(Next(s, step), name) <==>
            TurnsOn(s, step, name) || (IsEnabled(s, name) && !TurnsOff(s, step, name))
  {
    if step.name != name {
      if name in s.names { OtherTaskStays(s, step, name); }
    } else if step.Enable? {
      EnableEnables(s, name, step.fails);
    } else if step.Disable? || step.CompleteTimeout? {
      DisableDisables(s, step, name);
    }
  }

  lemma OtherTaskStays(s: State, step: Step, name: string)
    requires Inv(s) && Enabled(s, step) && name in s.names
    requires step.Enable? || step.Disable? || step.UpdateCron? || step.BeginTick? || step.CompleteTimeout?
    requires step.name != name
    ensures Next(s, step).names == s.names && s.names[name] in s.objects && s.names[name] in Next(s, step).objects
    ensures Next(s, step).objects[s.names[name]] == s.objects[s.names[name]]
  {
  }

  lemma EnableEnables(s: State, name: string, fails: bool)
    requires Inv(s) && Enabled(s, Enable(name, fails))
    ensures IsEnabled(Next(s, Enable(name, fails)), name) <==>
            (name in s.names && !(s.started && fails)) || IsEnabled(s, name)
  {
  }

  lemma DisableDisables(s: State, step: Step, name: string)
    requires Inv(s) && Enabled(s, step) && (step == Disable(name) || step == CompleteTimeout(name))
    ensures IsEnabled(Next(s, step), name) <==> IsEnabled(s, name) && !TurnsOff(s, step, name)
  {
  }

  /**
   A registered task is enabled exactly if, since its registration or the last `enable` the service accepted, it was not
   disabled and, being a timeout, not completed.
   */
  lemma EnabledExactly(steps: seq<Step>, name: string)
    requires ValidRun(Initial, steps)
    ensures IsEnabled(After(Initial, steps), name) <==>
            SwitchedOn((s, step) => TurnsOn(s, step, name), (s, step) => TurnsOff(s, step, name), steps)
  {
    var on := (s: State, step: Step) => TurnsOn(s, step, name);
    var off := (s: State, step: Step) => TurnsOff(s, step, name);
    var holds := (s: State) => IsEnabled(s, name);
    forall s, step | Inv(s) && Enabled(s, step)
      ensures holds(Next(s, step)) <==> on(s, step) || (holds(s) && !off(s, step))
    {
      StepEnables(s, step, name);
    }
    HoldsIfSwitchedOn(on, off, holds, steps);
  }

  /**
   After any run a tick starts the task exactly if it is enabled and no other tick is running it; otherwise the tick is
   skipped and leaves no trace.
   */
  lemma TickRunsExactly(steps: seq<Step>, tick: TickId, name: string)
    requires ValidRun(Initial, steps) && Enabled(After(Initial, steps), BeginTick(tick, name))
    ensures var s := After(Initial, steps);
            var s' := Next(s, BeginTick(tick, name));
            && (tick in s'.ticks <==> IsEnabled(s, name) && s.names[name] !in s.ticks.Values)
            && (tick in s'.ticks ==> s'.ticks == s.ticks[tick := s.names[name]] && s'.names == s.names)
            && (tick !in s'.ticks ==> s' == s)
  {
    RunKeeps(Initial, steps);
  }

  // ---------- Cron expressions ----------

  predicate HasExpression(s: State, name: string, expression: string) {
    HasKind(s, name, Cron) && s.objects[s.names[name]].expression == expression
  }

  /** An update of the task that the service accepts. */
  predicate Updates(s: State, step: Step, name: string) {
    step.UpdateCron? && step.name == name && HasKind(s, name, Cron) &&
    !(IsEnabled(s, name) && s.started && step.fails)
  }

  /** A new registration of a cron task, or an accepted update, with this expression. */
  predicate Sets(s: State, step: Step, name: string, expression: string) {
    (Updates(s, step, name) && step.expression == expression) ||
    (step.Add? && Registers(s, step, name) && name !in s.names && step.kind == Cron && step.expression == expression) ||
    (step.BootstrapSucceeds? && name in step.decorated && step.decorated[name] in step.kinds &&
     step.kinds[step.decorated[name]].kind == Cron && step.kinds[step.decorated[name]].expression == expression)
  }

  predicate Unsets(s: State, step: Step, name: string) { Unregisters(s, step, name) || Updates(s, step, name) }

  lemma StepSets(s: State, step: Step, name: string, expression: string)
    requires Inv(s) && Enabled(s, step)
    ensures HasExpression(Next(s, step), name, expression) <==>
            Sets(s, step, name, expression) || (HasExpression(s, name, expression) && !Unsets(s, step, name))
  {
    if step.BootstrapSucceeds? {
      BootstrapSets(s, step.decorated, step.kinds, name, expression);
    } else if step.UpdateCron? {
      UpdateSets(s, step, name, expression);
    } else if step.Enable? || step.Disable? || step.BeginTick? || step.CompleteTimeout? {
      SwitchSets(s, step, name, expression);
    } else if step.ExecutedTick? || step.EndTick? {
      TickSets(s, step, name, expression);
    } else {
      OthersSet(s, step, name, expression);
    }
  }

  lemma TickSets(s: State, step: Step, name: string, expression: string)
    requires Inv(s) && Enabled(s, step) && (step.ExecutedTick? || step.EndTick?)
    ensures HasExpression(Next(s, step), name, expression) <==> HasExpression(s, name, expression)
  {
  }

  lemma SwitchSets(s: State, step: Step, name: string, expression: string)
    requires Inv(s) && Enabled(s, step)
    requires step.Enable? || step.Disable? || step.BeginTick? || step.CompleteTimeout?
    ensures HasExpression(Next(s, step), name, expression) <==> HasExpression(s, name, expression)
  {
    if name in s.names && step.name != name { OtherTaskStays(s, step, name); }
  }

  lemma BootstrapSets(s: State, decorated: map<string, TaskId>, kinds: map<TaskId, Task>, name: string,
                      expression: string)
    requires Inv(s) && Enabled(s, BootstrapSucceeds(decorated, kinds))
    ensures var step := BootstrapSucceeds(decorated, kinds);
            HasExpression(Next(s, step), name, expression) <==>
            Sets(s, step, name, expression) || HasExpression(s, name, expression)
  {
    if name in decorated { assert decorated[name] in decorated.Values; }
  }

  lemma UpdateSets(s: State, step: Step, name: string, expression: string)
    requires Inv(s) && Enabled(s, step) && step.UpdateCron?
    ensures HasExpression(Next(s, step), name, expression) <==>
            Sets(s, step, name, expression) || (HasExpression(s, name, expression) && !Unsets(s, step, name))
  {
  }

  lemma OthersSet(s: State, step: Step, name: string, expression: string)
    requires Inv(s) && Enabled(s, step) && !step.BootstrapSucceeds? && !step.UpdateCron?
    requires !step.Enable? && !step.Disable? && !step.BeginTick? && !step.CompleteTimeout?
    requires !step.ExecutedTick? && !step.EndTick?
    ensures HasExpression(Next(s, step), name, expression) <==>
            Sets(s, step, name, expression) || (HasExpression(s, name, expression) && !Unsets(s, step, name))
  {
    if step.Add? {
      AddSets(s, step, name, expression);
    } else if step.Remove? {
      RemoveSets(s, step, name, expression);
    } else {
      assert !Sets(s, step, name, expression);
    }
  }

  lemma AddSets(s: State, step: Step, name: string, expression: string)
    requires Inv(s) && Enabled(s, step) && step.Add?
    ensures HasExpression(Next(s, step), name, expression) <==>
            Sets(s, step, name, expression) || HasExpression(s, name, expression)
  {
  }

  lemma RemoveSets(s: State, step: Step, name: string, expression: string)
    requires Inv(s) && Enabled(s, step) && step.Remove?
    ensures HasExpression(Next(s, step), name, expression) <==>
            HasExpression(s, name, expression) && !Unsets(s, step, name)
  {
  }

  /** A cron task has the expression it was registered with, or that of the last update the service accepted. */
  lemma ExpressionExactly(steps: seq<Step>, name: string, expression: string)
    requires ValidRun(Initial, steps)
    ensures HasExpression(After(Initial, steps), name, expression) <==>
            SwitchedOn((s, step) => Sets(s, step, name, expression), (s, step) => Unsets(s, step, name), steps)
  {
    var on := (s: State, step: Step) => Sets(s, step, name, expression);
    var off := (s: State, step: Step) => Unsets(s, step, name);
    var holds := (s: State) => HasExpression(s, name, expression);
    forall s, step | Inv(s) && Enabled(s, step)
      ensures holds(Next(s, step)) <==> on(s, step) || (holds(s) && !off(s, step))
    {
      StepSets(s, step, name, expression);
    }
    HoldsIfSwitchedOn(on, off, holds, steps);
  }
}
