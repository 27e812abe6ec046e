// What one tracepoint wrapper does between being called and returning, in the handler protocol.
module WrapperRuns {
  import opened HandlerProtocol
  import opened UnloadSafety

  // What shook_enabled was last set to, by a client or by module exit.
  function LastSetting(start: bool, acts: seq<Action>): bool {
    if acts == [] then start
    else match acts[|acts| - 1]
      case SetEnabled(on) => on
      case Disable => false
      case _ => LastSetting(start, acts[..|acts| - 1])
  }

  lemma StepSets(s: State, a: Action)
    requires Enabled(s, a)
    ensures Next(s, a).enabled == if a.SetEnabled? then a.on else if a == Disable then false else s.enabled
  {
  }

  lemma {:induction false} EnabledIsLastSet(states: seq<State>, acts: seq<Action>, j: nat)
    requires IsRun(states, acts) && j < |states|
    ensures states[j].enabled == LastSetting(states[0].enabled, acts[..j])
  {
    if j > 0 {
      EnabledIsLastSet(states, acts, j - 1);
      assert acts[..j][..j - 1] == acts[..j - 1];
      assert Steps(states[j - 1], acts[j - 1], states[j]);
      StepSets(states[j - 1], acts[j - 1]);
    }
  }

  // A client may set it either way at any moment.
  lemma SettingIsFree(s: State, on: bool)
    requires Reachable(s)
    ensures Reachable(s.(enabled := on))
  {
    ReachNext(s, SetEnabled(on));
  }

  // The handler found the hooks enabled and has not left since.
  predicate Admitted(s: State, h: nat) {
    At(s, h, SawEnabled) || Past(s, h)
  }

  ghost predicate AdmittedSince(states: seq<State>, acts: seq<Action>, h: nat, k: nat, j: nat) {
    && k < |acts| && k < j < |states|
    && acts[k] == TestEnabled(h) && LastSetting(states[0].enabled, acts[..k])
    && forall i :: k < i <= j ==> Admitted(states[i], h)
  }

  lemma AdmittedBy(s: State, a: Action, h: nat)
    requires Enabled(s, a) && Admitted(Next(s, a), h) && !Admitted(s, h)
    ensures a == TestEnabled(h) && s.enabled
  {
  }

  // Whoever is inside a hook, or past the first test, made that test at a moment when the last setting was `enabled`.
  lemma {:induction false} AdmittedWhileEnabled(states: seq<State>, acts: seq<Action>, h: nat, j: nat) returns (k: nat)
    requires IsRun(states, acts) && j < |states| && Admitted(states[j], h)
    ensures AdmittedSince(states, acts, h, k, j)
    decreases j
  {
    assert j > 0;
    assert Steps(states[j - 1], acts[j - 1], states[j]);
    if Admitted(states[j - 1], h) {
      k := AdmittedWhileEnabled(states, acts, h, j - 1);
    } else {
      AdmittedBy(states[j - 1], acts[j - 1], h);
      k := j - 1;
      EnabledIsLastSet(states, acts, k);
    }
  }

  // The steps are the handler's own.
  predicate OwnSteps(acts: seq<Action>, h: nat) {
    forall i :: 0 <= i < |acts| ==> ByHandler(acts[i]) && acts[i].h == h
  }

  lemma StepThenLeads(s: State, a: Action, rest: seq<Action>, s': State)
    requires Enabled(s, a) && Leads(Next(s, a), rest, s')
    ensures Leads(s, [a] + rest, s')
  {
    assert ([a] + rest)[1..] == rest;
  }

  // From any place in the wrapper the handler gets out by its own steps.
  lemma {:induction false} RunsOut(s: State, h: nat) returns (acts: seq<Action>, s': State)
    requires h < |s.handlers|
    ensures Leads(s, acts, s') && OwnSteps(acts, h) && At(s', h, Away)
    ensures acts == [] || acts[|acts| - 1] == Leave(h)
    ensures s'.handlers == s.handlers[h := s.handlers[h].(at := Away)]
    ensures s'.enabled == s.enabled && s'.unmounting == s.unmounting && s'.probes == s.probes
    ensures s'.usage == s.usage - if At(s, h, Inside) then 1 else 0
    ensures Count(h) in acts <==>
              match s.handlers[h].at
              case Entered => s.enabled && s.unmounting <= 1
              case SawEnabled => s.unmounting <= 1
              case Passed => true
              case _ => false
    decreases match s.handlers[h].at
              case Away => 0 case Leaving => 1 case Inside => 2 case Passed => 3 case SawEnabled => 4 case Entered => 5
  {
    if s.handlers[h].at == Away {
      acts, s' := [], s;
    } else {
      var a := HandlerStep(h, s.handlers[h].at);
      var rest;
      rest, s' := RunsOut(Next(s, a), h);
      StepThenLeads(s, a, rest, s');
      acts := [a] + rest;
    }
  }

  // A wrapper nobody interferes with runs its hook exactly when hooks are enabled and unmounting is not marked, and
  // leaves everything as it was.
  lemma WrapperAlone(s: State, h: nat) returns (acts: seq<Action>, s': State)
    requires At(s, h, Away) && s.handlers[h].hook < |s.probes| && s.probes[s.handlers[h].hook]
    ensures Leads(s, acts, s') && OwnSteps(acts, h)
    ensures |acts| >= 2 && acts[0] == Fire(h) && acts[|acts| - 1] == Leave(h)
    ensures Count(h) in acts <==> s.enabled && s.unmounting <= 1
    ensures s' == s.(unload := s'.unload)
  {
    var rest;
    rest, s' := RunsOut(Next(s, Fire(h)), h);
    StepThenLeads(s, Fire(h), rest, s');
    acts := [Fire(h)] + rest;
    assert s'.handlers == s.handlers;
  }
}
