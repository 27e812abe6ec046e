// Handlers entering and leaving the hooks while the module is unloaded: system_hook.c, the wrappers and module exit of
// system_hook_tracep.c, and the grace period of hooks.c. One shared access per step.
module HandlerProtocol {
  datatype Place =
    | Away          // not running
    | Entered       // the tracepoint called the wrapper
    | SawEnabled    // start_handler read shook_enabled
    | Passed        // start_handler read unmounting <= 1 and has not yet counted itself
    | Inside        // counted in usage, running the hook
    | Leaving       // refused, or past stop_handler; the wrapper is about to return

  datatype Handler = Handler(hook: nat, at: Place)

  datatype Unload =
    | Loaded
    | Marked                              // unmounting incremented
    | Draining                            // shook_enabled cleared, polling usage
    | Clearing                            // the poll read 1
    | Removing(i: nat)                    // about to unregister hook i
    | Removed(i: nat)                     // hook i unregistered, not yet synchronised
    | Waiting(i: nat, who: set<nat>)      // tracepoint_synchronize_unregister waits for these handlers
    | Unloaded

  datatype State = State(enabled: bool, usage: int, unmounting: int, probes: seq<bool>, handlers: seq<Handler>,
                         unload: Unload)

  datatype Action =
    | Fire(h: nat) | TestEnabled(h: nat) | TestUnmounting(h: nat) | Count(h: nat) | Stop(h: nat) | Leave(h: nat)
    | SetEnabled(on: bool)
    | Mark | Disable | Poll | Clear | Unregister | BeginSync | EndSync

  ghost predicate Init(s: State) {
    && s.usage == 1 && s.unmounting == 1 && s.unload == Loaded
    && (forall i :: 0 <= i < |s.probes| ==> s.probes[i])
    && forall h :: 0 <= h < |s.handlers| ==> s.handlers[h].hook < |s.probes| && s.handlers[h].at == Away
  }

  predicate At(s: State, h: nat, place: Place) {
    h < |s.handlers| && s.handlers[h].at == place
  }

  function Busy(s: State): set<nat> {
    set h | 0 <= h < |s.handlers| && s.handlers[h].at != Away
  }

  predicate Enabled(s: State, a: Action) {
    match a
    case Fire(h) => At(s, h, Away) && s.handlers[h].hook < |s.probes| && s.probes[s.handlers[h].hook]
    case TestEnabled(h) => At(s, h, Entered)
    case TestUnmounting(h) => At(s, h, SawEnabled)
    case Count(h) => At(s, h, Passed)
    case Stop(h) => At(s, h, Inside)
    case Leave(h) => At(s, h, Leaving)
    case SetEnabled(_) => true
    case Mark => s.unload == Loaded
    case Disable => s.unload == Marked
    case Poll => s.unload == Draining
    case Clear => s.unload == Clearing
    case Unregister => s.unload.Removing? && s.unload.i < |s.probes|
    case BeginSync => s.unload.Removed?
    case EndSync => s.unload.Waiting? && s.unload.who == {}
  }

  function Move(s: State, h: nat, place: Place): State
    requires h < |s.handlers|
  {
    s.(handlers := s.handlers[h := s.handlers[h].(at := place)])
  }

  // The next hook to unregister, or the end.
  function From(s: State, i: nat): Unload {
    if i < |s.probes| then Removing(i) else Unloaded
  }

  function Next(s: State, a: Action): State
    requires Enabled(s, a)
  {
    match a
    case Fire(h) => Move(s, h, Entered)
    case TestEnabled(h) => Move(s, h, if s.enabled then SawEnabled else Leaving)
    case TestUnmounting(h) => Move(s, h, if s.unmounting > 1 then Leaving else Passed)
    case Count(h) => Move(s, h, Inside).(usage := s.usage + 1)
    case Stop(h) => Move(s, h, Leaving).(usage := s.usage - 1)
    case Leave(h) =>
      Move(s, h, Away).(unload := if s.unload.Waiting? then s.unload.(who := s.unload.who - {h}) else s.unload)
    case SetEnabled(on) => s.(enabled := on)
    case Mark => s.(unmounting := s.unmounting + 1, unload := Marked)
    case Disable => s.(enabled := false, unload := Draining)
    case Poll => if s.usage > 1 then s else s.(unload := Clearing)
    case Clear => s.(unload := From(s, 0))
    case Unregister => s.(probes := s.probes[s.unload.i := false], unload := Removed(s.unload.i))
    case BeginSync => s.(unload := Waiting(s.unload.i, Busy(s)))
    case EndSync => s.(unload := From(s, s.unload.i + 1))
  }

  // The next step of a handler in a wrapper.
  function HandlerStep(h: nat, place: Place): Action
    requires place != Away
  {
    match place
    case Entered => TestEnabled(h)
    case SawEnabled => TestUnmounting(h)
    case Passed => Count(h)
    case Inside => Stop(h)
    case Leaving => Leave(h)
  }

  ghost predicate IsRun(states: seq<State>, acts: seq<Action>) {
    && |states| == |acts| + 1
    && Init(states[0])
    && forall i {:trigger acts[i]} :: 0 <= i < |acts| ==> Steps(states[i], acts[i], states[i + 1])
  }

  predicate Steps(s: State, a: Action, s': State) {
    Enabled(s, a) && s' == Next(s, a)
  }

  // ---- invariant ----

  function Insiders(handlers: seq<Handler>): nat {
    if handlers == [] then 0
    else Insiders(handlers[..|handlers| - 1]) + if handlers[|handlers| - 1].at == Inside then 1 else 0
  }

  // Hooks below this number have been unregistered and synchronised.
  function Finished(s: State): nat {
    match s.unload
    case Removing(i) => i
    case Removed(i) => i
    case Waiting(i, _) => i
    case Unloaded => |s.probes|
    case _ => 0
  }

  ghost predicate HookGone(s: State, i: nat) {
    && (i < |s.probes| ==> !s.probes[i])
    && forall h :: 0 <= h < |s.handlers| && s.handlers[h].hook == i ==> s.handlers[h].at == Away
  }

  ghost predicate Inv(s: State) {
    && s.usage == 1 + Insiders(s.handlers)
    && s.unmounting == (if s.unload == Loaded then 1 else 2)
    && (forall h :: 0 <= h < |s.handlers| ==> s.handlers[h].hook < |s.probes|)
    && Finished(s) <= |s.probes| && (s.unload.Removing? ==> s.unload.i < |s.probes|)
    && (forall i :: 0 <= i < Finished(s) ==> HookGone(s, i))
    && (s.unload.Removed? || s.unload.Waiting? ==> s.unload.i < |s.probes| && !s.probes[s.unload.i])
    && (s.unload.Waiting? ==>
          forall h :: 0 <= h < |s.handlers| && s.handlers[h].hook == s.unload.i && s.handlers[h].at != Away ==>
            h in s.unload.who)
  }

  lemma {:induction false} NobodyInside(handlers: seq<Handler>)
    requires forall h :: 0 <= h < |handlers| ==> handlers[h].at != Inside
    ensures Insiders(handlers) == 0
  {
    if handlers != [] {
      NobodyInside(handlers[..|handlers| - 1]);
    }
  }

  lemma {:induction false} InsidersAfter(handlers: seq<Handler>, h: nat, handler: Handler)
    requires h < |handlers|
    ensures Insiders(handlers[h := handler])
            == Insiders(handlers) - (if handlers[h].at == Inside then 1 else 0)
               + (if handler.at == Inside then 1 else 0)
  {
    var n := |handlers| - 1;
    if h < n {
      assert handlers[h := handler][..n] == handlers[..n][h := handler];
      InsidersAfter(handlers[..n], h, handler);
    } else {
      assert handlers[h := handler][..n] == handlers[..n];
    }
  }

  // A handler moves: the counter follows, and a hook that is gone stays gone unless a handler enters it.
  lemma MoveKeeps(s: State, h: nat, s': State)
    requires Inv(s) && h < |s.handlers| == |s'.handlers|
    requires s' == Move(s, h, s'.handlers[h].at).(usage := s'.usage, unload := s'.unload)
    requires s'.usage == s.usage - (if s.handlers[h].at == Inside then 1 else 0)
                         + (if s'.handlers[h].at == Inside then 1 else 0)
    requires s'.handlers[h].at == Away || s.handlers[h].at != Away || s.probes[s.handlers[h].hook]
    requires s'.unload == if s.unload.Waiting? && s'.handlers[h].at == Away then s.unload.(who := s.unload.who - {h})
                          else s.unload
    ensures Inv(s')
  {
    InsidersAfter(s.handlers, h, s'.handlers[h]);
    forall i | 0 <= i < Finished(s') ensures HookGone(s', i) {
      assert HookGone(s, i);
    }
  }

  lemma UnloadKeeps(s: State, a: Action)
    requires Inv(s) && Enabled(s, a)
    requires a == Unregister || a == BeginSync || a == EndSync
    ensures Inv(Next(s, a))
  {
    var s' := Next(s, a);
    forall i | 0 <= i < Finished(s') ensures HookGone(s', i) {
      if i < Finished(s) {
        assert HookGone(s, i);
      }
    }
  }

  predicate ByHandler(a: Action) {
    a.Fire? || a.TestEnabled? || a.TestUnmounting? || a.Count? || a.Stop? || a.Leave?
  }

  lemma StepKeeps(s: State, a: Action)
    requires Inv(s) && Enabled(s, a)
    ensures Inv(Next(s, a))
  {
    if ByHandler(a) {
      MoveKeeps(s, a.h, Next(s, a));
    } else if a == Unregister || a == BeginSync || a == EndSync {
      UnloadKeeps(s, a);
    } else {
      OthersKeep(s, a);
    }
  }

  lemma OthersKeep(s: State, a: Action)
    requires Inv(s) && Enabled(s, a)
    requires a.SetEnabled? || a == Mark || a == Disable || a == Poll || a == Clear
    ensures Inv(Next(s, a))
  {
    forall i | 0 <= i < Finished(Next(s, a)) ensures HookGone(Next(s, a), i) {
      assert HookGone(s, i);
    }
  }

  lemma {:induction false} RunKeeps(states: seq<State>, acts: seq<Action>, i: nat)
    requires IsRun(states, acts) && i < |states|
    ensures Inv(states[i])
  {
    if i == 0 {
      NobodyInside(states[0].handlers);
    } else {
      RunKeeps(states, acts, i - 1);
      assert Steps(states[i - 1], acts[i - 1], states[i]);
      StepKeeps(states[i - 1], acts[i - 1]);
    }
  }
}
