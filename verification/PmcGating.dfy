// client_hook_sched_in: performance counters of a CPU switched on and off at context switches, while forks, exits and
// registrations change which tasks are tracked.
module PmcGating {
  type Pid = int

  datatype State = State(filter: bool, current: seq<Pid>, enabled: seq<bool>, tracked: set<Pid>) {
    // One running task and one counter switch for each CPU.
    predicate Valid() {
      |current| == |enabled|
    }

    predicate Running(p: Pid) {
      p in current
    }
  }

  datatype Event = Switch(cpu: nat, next: Pid) | Fork(parent: Pid, child: Pid) | Exit(p: Pid) | Register(p: Pid)

  // PMCs after a switch from prev to next.
  function Gate(filter: bool, tracked: set<Pid>, prev: Pid, next: Pid, enabled: bool): bool {
    if !filter then enabled
    else if prev in tracked then (if next in tracked then enabled else false)
    else if next in tracked then true
    else enabled
  }

  function Step(s: State, e: Event): State
    requires s.Valid()
  {
    match e
    case Switch(cpu, next) =>
      if cpu < |s.current| then
        s.(current := s.current[cpu := next],
           enabled := s.enabled[cpu := Gate(s.filter, s.tracked, s.current[cpu], next, s.enabled[cpu])])
      else s
    case Fork(parent, child) => if parent in s.tracked then s.(tracked := s.tracked + {child}) else s
    case Exit(p) => s.(tracked := s.tracked - {p})
    case Register(p) => s.(tracked := s.tracked + {p})
  }

  // While a tracked task runs, its CPU counts.
  predicate Covered(s: State)
    requires s.Valid()
  {
    forall cpu :: 0 <= cpu < |s.current| && s.current[cpu] in s.tracked ==> s.enabled[cpu]
  }

  // A CPU counts exactly while it runs a tracked task.
  predicate Exact(s: State)
    requires s.Valid()
  {
    forall cpu :: 0 <= cpu < |s.current| ==> (s.enabled[cpu] <==> s.current[cpu] in s.tracked)
  }

  // A forked child is not running yet, and a task is registered while it is off every CPU.
  predicate OffCpu(s: State, e: Event) {
    match e
    case Fork(_, child) => !s.Running(child)
    case Register(p) => !s.Running(p)
    case _ => true
  }

  lemma StepCovers(s: State, e: Event)
    requires s.Valid() && s.filter && Covered(s) && OffCpu(s, e)
    ensures Step(s, e).Valid() && Step(s, e).filter && Covered(Step(s, e))
  {
    var s' := Step(s, e);
    forall cpu | 0 <= cpu < |s'.current| && s'.current[cpu] in s'.tracked ensures s'.enabled[cpu] {
      assert s.current[cpu] in s.current;
    }
  }

  function Run(s: State, h: seq<Event>): (s': State)
    requires s.Valid()
    ensures s'.Valid() && s'.filter == s.filter
    decreases h
  {
    if h == [] then s else Run(Step(s, h[0]), h[1..])
  }

  predicate OffCpuRun(s: State, h: seq<Event>)
    requires s.Valid()
    decreases h
  {
    h != [] ==> OffCpu(s, h[0]) && OffCpuRun(Step(s, h[0]), h[1..])
  }

  // With the filter on, no run of switches, forks of children not yet running, exits and registrations of tasks off the
  // CPUs leaves a tracked task running with its counters off.
  lemma {:induction false} TrackedTasksAreCounted(s: State, h: seq<Event>)
    requires s.Valid() && s.filter && Covered(s) && OffCpuRun(s, h)
    ensures Covered(Run(s, h))
    decreases h
  {
    if h != [] {
      StepCovers(s, h[0]);
      TrackedTasksAreCounted(Step(s, h[0]), h[1..]);
    }
  }

  // With the filter off, which is how the client starts, no event ever switches a counter.
  lemma {:induction false} FilterOffNeverSwitches(s: State, h: seq<Event>)
    requires s.Valid() && !s.filter
    ensures Run(s, h).enabled == s.enabled
    decreases h
  {
    if h != [] {
      FilterOffNeverSwitches(Step(s, h[0]), h[1..]);
    }
  }

  // Registering a running task is harmless exactly when its counters are already on.
  lemma RegisterCoversIff(s: State, p: Pid)
    requires s.Valid() && Covered(s)
    ensures Covered(Step(s, Register(p)))
            <==> forall cpu :: 0 <= cpu < |s.current| && s.current[cpu] == p ==> s.enabled[cpu]
  {
    var s' := Step(s, Register(p));
    if Covered(s') {
      forall cpu | 0 <= cpu < |s.current| && s.current[cpu] == p ensures s.enabled[cpu] {
        assert s'.current[cpu] in s'.tracked;
      }
    }
  }

  // A switch leaves the CPU exact for the next task exactly when it was exact before or tracking changes between the
  // two.
  lemma SwitchIsExactIff(s: State, cpu: nat, next: Pid)
    requires s.Valid() && s.filter && cpu < |s.current|
    ensures (Step(s, Switch(cpu, next)).enabled[cpu] <==> next in s.tracked)
            <==> (s.enabled[cpu] <==> s.current[cpu] in s.tracked)
                 || (s.current[cpu] in s.tracked) != (next in s.tracked)
  {
  }

  // The event changes the membership of no running task.
  predicate SparesRunning(s: State, e: Event) {
    match e
    case Switch(_, _) => true
    case Fork(parent, child) => !s.Running(child) || parent !in s.tracked || child in s.tracked
    case Exit(p) => !s.Running(p) || p !in s.tracked
    case Register(p) => !s.Running(p) || p in s.tracked
  }

  // One event keeps an exact state exact exactly when it changes the membership of no running task.
  lemma ExactStepIff(s: State, e: Event)
    requires s.Valid() && s.filter && Exact(s)
    ensures Exact(Step(s, e)) <==> SparesRunning(s, e)
  {
    var s' := Step(s, e);
    if SparesRunning(s, e) {
      forall cpu | 0 <= cpu < |s'.current| ensures s'.enabled[cpu] <==> s'.current[cpu] in s'.tracked {
        assert s.current[cpu] in s.current;
      }
    } else {
      var p := match e case Fork(_, child) => child case Exit(p) => p case Register(p) => p;
      var cpu :| 0 <= cpu < |s.current| && s.current[cpu] == p;
      assert s'.enabled[cpu] == s.enabled[cpu];
    }
  }

  predicate SparingRun(s: State, h: seq<Event>)
    requires s.Valid()
    decreases h
  {
    h != [] ==> SparesRunning(s, h[0]) && SparingRun(Step(s, h[0]), h[1..])
  }

  // Exact after every event of the run.
  predicate ExactAlong(s: State, h: seq<Event>)
    requires s.Valid()
    decreases h
  {
    Exact(s) && (h != [] ==> ExactAlong(Step(s, h[0]), h[1..]))
  }

  // A run from an exact state is exact throughout exactly when it changes the membership of tasks off the CPUs only.
  lemma {:induction false} ExactAlongIff(s: State, h: seq<Event>)
    requires s.Valid() && s.filter && Exact(s)
    ensures ExactAlong(s, h) <==> SparingRun(s, h)
    decreases h
  {
    if h != [] {
      ExactStepIff(s, h[0]);
      if SparesRunning(s, h[0]) {
        ExactAlongIff(Step(s, h[0]), h[1..]);
      }
    }
  }

  lemma {:induction false} ExactStaysExact(s: State, h: seq<Event>)
    requires s.Valid() && s.filter && Exact(s) && SparingRun(s, h)
    ensures Exact(Run(s, h))
    decreases h
  {
    if h != [] {
      ExactStepIff(s, h[0]);
      ExactStaysExact(Step(s, h[0]), h[1..]);
    }
  }

  // The switches of one CPU to a list of tasks.
  function Switches(cpu: nat, nexts: seq<Pid>): seq<Event>
    decreases nexts
  {
    if nexts == [] then [] else [Switch(cpu, nexts[0])] + Switches(cpu, nexts[1..])
  }

  lemma {:induction false} StaysOn(s: State, cpu: nat, nexts: seq<Pid>)
    requires s.Valid() && cpu < |s.current| && s.enabled[cpu] && s.current[cpu] !in s.tracked
    requires forall i :: 0 <= i < |nexts| ==> nexts[i] !in s.tracked
    ensures cpu < |Run(s, Switches(cpu, nexts)).enabled| && Run(s, Switches(cpu, nexts)).enabled[cpu]
    decreases nexts
  {
    if nexts != [] {
      var h := Switches(cpu, nexts);
      assert h[0] == Switch(cpu, nexts[0]) && h[1..] == Switches(cpu, nexts[1..]);
      StaysOn(Step(s, h[0]), cpu, nexts[1..]);
    }
  }

  // When a tracked task exits on its CPU the counters stay on, and no later switch among untracked tasks turns them
  // off.
  lemma CountersOutliveExit(s: State, cpu: nat, nexts: seq<Pid>)
    requires s.Valid() && Covered(s) && cpu < |s.current| && s.current[cpu] in s.tracked
    requires forall i :: 0 <= i < |nexts| ==> nexts[i] !in s.tracked || nexts[i] == s.current[cpu]
    ensures var s' := Run(Step(s, Exit(s.current[cpu])), Switches(cpu, nexts));
            cpu < |s'.enabled| && s'.enabled[cpu] && !Exact(Step(s, Exit(s.current[cpu])))
  {
    StaysOn(Step(s, Exit(s.current[cpu])), cpu, nexts);
  }

  class Client {
    const threadFilter: bool
    var current: seq<Pid>
    var enabled: seq<bool>
    var tracked: set<Pid>

    function View(): State
      reads this
    {
      State(threadFilter, current, enabled, tracked)
    }

    // pmi_init leaves the counters of every CPU on.
    constructor (filter: bool, running: seq<Pid>)
      ensures View().Valid() && threadFilter == filter && current == running && tracked == {} && Covered(View())
      ensures forall cpu :: 0 <= cpu < |enabled| ==> enabled[cpu]
    {
      threadFilter := filter;
      current := running;
      enabled := seq(|running|, i => true);
      tracked := {};
    }

    // client_hook_sched_in on one CPU.
    method SchedIn(cpu: nat, next: Pid)
      requires View().Valid() && cpu < |current|
      modifies this
      ensures View() == Step(old(View()), Switch(cpu, next))
    {
      var prev := current[cpu];
      current := current[cpu := next];
      if !threadFilter {
        return;
      }
      var prevEn := prev in tracked;
      var nextEn := next in tracked;
      if prevEn {
        if !nextEn {
          enabled := enabled[cpu := false];
        }
      } else if nextEn {
        enabled := enabled[cpu := true];
      }
    }
  }
}
