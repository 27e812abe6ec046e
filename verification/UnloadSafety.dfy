// What unloading the module guarantees, along every run of the handler protocol.
module UnloadSafety {
  import opened HandlerProtocol

  // usage is one more than the number of handlers between start_handler and stop_handler, and once every hook has been
  // unregistered and synchronised no handler is anywhere in a wrapper. The same holds hook by hook on the way.
  lemma UnloadedMeansEmpty(states: seq<State>, acts: seq<Action>, j: nat)
    requires IsRun(states, acts) && j < |states|
    ensures states[j].usage == 1 + Insiders(states[j].handlers)
    ensures forall h :: 0 <= h < |states[j].handlers| && states[j].handlers[h].hook < Finished(states[j]) ==>
              states[j].handlers[h].at == Away
    ensures states[j].unload == Unloaded ==>
              forall h :: 0 <= h < |states[j].handlers| ==> states[j].handlers[h].at == Away
  {
    RunKeeps(states, acts, j);
    var s := states[j];
    forall h | 0 <= h < |s.handlers| && s.handlers[h].hook < Finished(s) ensures s.handlers[h].at == Away {
      assert HookGone(s, s.handlers[h].hook);
    }
  }

  // The handler has passed the unmounting test and not yet left.
  predicate Past(s: State, h: nat) {
    At(s, h, Passed) || At(s, h, Inside)
  }

  // Between its unmounting test, made at step k, and state j the handler never leaves.
  ghost predicate PastSince(states: seq<State>, acts: seq<Action>, h: nat, k: nat, j: nat) {
    && k < |acts| && k < j < |states|
    && acts[k] == TestUnmounting(h) && states[k].unmounting == 1
    && forall i :: k < i <= j ==> Past(states[i], h)
  }

  // A handler found in a hook, or on its way in, made its unmounting test before unmounting was marked.
  lemma {:induction false} PassedBeforeMark(states: seq<State>, acts: seq<Action>, h: nat, j: nat) returns (k: nat)
    requires IsRun(states, acts) && j < |states| && Past(states[j], h)
    ensures PastSince(states, acts, h, k, j)
    decreases j
  {
    assert j > 0;
    assert Steps(states[j - 1], acts[j - 1], states[j]);
    RunKeeps(states, acts, j - 1);
    if Past(states[j - 1], h) {
      k := PassedBeforeMark(states, acts, h, j - 1);
    } else {
      k := j - 1;
    }
  }

  lemma {:induction false} MarkStays(states: seq<State>, acts: seq<Action>, m: nat, j: nat)
    requires IsRun(states, acts) && m <= j < |states| && states[m].unmounting > 1
    ensures states[j].unmounting > 1
    decreases j
  {
    if m < j {
      MarkStays(states, acts, m, j - 1);
      assert Steps(states[j - 1], acts[j - 1], states[j]);
    }
  }

  // So whoever is inside after the drain loop was already past the test when unmounting was marked, and has stayed.
  lemma InsideAfterMark(states: seq<State>, acts: seq<Action>, m: nat, j: nat, h: nat)
    requires IsRun(states, acts) && m <= j < |states|
    requires states[m].unmounting > 1 && At(states[j], h, Inside)
    ensures exists k: nat :: k < m && PastSince(states, acts, h, k, j)
    ensures Past(states[m], h)
  {
    var k := PassedBeforeMark(states, acts, h, j);
    if k >= m {
      MarkStays(states, acts, m, k);
    }
  }

  // ---- the drain loop ends ----

  // Steps a handler past the test still has to take before it stops counting.
  function DebtAt(place: Place): nat {
    match place
    case Passed => 2
    case Inside => 1
    case _ => 0
  }

  function Debt(handlers: seq<Handler>): nat {
    if handlers == [] then 0
    else Debt(handlers[..|handlers| - 1]) + DebtAt(handlers[|handlers| - 1].at)
  }

  lemma {:induction false} DebtAfter(handlers: seq<Handler>, h: nat, handler: Handler)
    requires h < |handlers|
    ensures Debt(handlers[h := handler]) == Debt(handlers) - DebtAt(handlers[h].at) + DebtAt(handler.at)
  {
    var n := |handlers| - 1;
    if h < n {
      assert handlers[h := handler][..n] == handlers[..n][h := handler];
      DebtAfter(handlers[..n], h, handler);
    } else {
      assert handlers[h := handler][..n] == handlers[..n];
    }
  }

  lemma {:induction false} DebtBoundsInsiders(handlers: seq<Handler>)
    ensures Insiders(handlers) <= Debt(handlers) <= 2 * |handlers|
  {
    if handlers != [] {
      DebtBoundsInsiders(handlers[..|handlers| - 1]);
    }
  }

  // The steps that pay the debt off.
  predicate Pays(a: Action) {
    a.Count? || a.Stop?
  }

  // How many of steps m to j - 1 do.
  function Payments(acts: seq<Action>, m: nat, j: nat): nat
    requires m <= j <= |acts|
    decreases j
  {
    if m == j then 0 else Payments(acts, m, j - 1) + if Pays(acts[j - 1]) then 1 else 0
  }

  lemma StepPays(s: State, a: Action)
    requires Enabled(s, a) && s.unmounting > 1
    ensures Debt(Next(s, a).handlers) == Debt(s.handlers) - if Pays(a) then 1 else 0
  {
    var s' := Next(s, a);
    if ByHandler(a) {
      DebtAfter(s.handlers, a.h, s'.handlers[a.h]);
    }
  }

  lemma DebtStep(states: seq<State>, acts: seq<Action>, j: nat)
    requires IsRun(states, acts) && 0 < j < |states| && states[j - 1].unmounting > 1
    ensures Debt(states[j].handlers) == Debt(states[j - 1].handlers) - if Pays(acts[j - 1]) then 1 else 0
  {
    assert Steps(states[j - 1], acts[j - 1], states[j]);
    StepPays(states[j - 1], acts[j - 1]);
  }

  // Once unmounting is marked the debt never grows, and every count and every stop pays one unit of it.
  lemma {:induction false} DebtIsPaidOff(states: seq<State>, acts: seq<Action>, m: nat, j: nat)
    requires IsRun(states, acts) && m <= j < |states| && states[m].unmounting > 1
    ensures Debt(states[m].handlers) == Debt(states[j].handlers) + Payments(acts, m, j)
    decreases j
  {
    if m < j {
      DebtIsPaidOff(states, acts, m, j - 1);
      MarkStays(states, acts, m, j - 1);
      DebtStep(states, acts, j);
    }
  }

  lemma {:induction false} DebtorExists(s: State, n: nat) returns (h: nat)
    requires n <= |s.handlers| && Debt(s.handlers[..n]) > 0
    ensures Past(s, h)
    decreases n
  {
    var last := s.handlers[..n][n - 1].at;
    if last == Passed || last == Inside {
      h := n - 1;
    } else {
      assert s.handlers[..n][..n - 1] == s.handlers[..n - 1];
      h := DebtorExists(s, n - 1);
    }
  }

  // After the mark at most two steps per handler remain to be taken, as long as one remains it can be taken, and when
  // all are taken usage is 1.
  lemma DrainProgresses(states: seq<State>, acts: seq<Action>, m: nat, j: nat)
    requires IsRun(states, acts) && m <= j < |states| && states[m].unmounting > 1
    ensures Payments(acts, m, j) <= Debt(states[m].handlers) <= 2 * |states[m].handlers|
    ensures Payments(acts, m, j) == Debt(states[m].handlers) ==> states[j].usage == 1
    ensures Payments(acts, m, j) < Debt(states[m].handlers) ==>
              exists h :: Enabled(states[j], Count(h)) || Enabled(states[j], Stop(h))
  {
    DebtIsPaidOff(states, acts, m, j);
    DebtBoundsInsiders(states[m].handlers);
    DebtBoundsInsiders(states[j].handlers);
    RunKeeps(states, acts, j);
    if Debt(states[j].handlers) > 0 {
      var h := SomeDebtor(states[j]);
      assert Enabled(states[j], Count(h)) || Enabled(states[j], Stop(h));
    }
  }

  lemma SomeDebtor(s: State) returns (h: nat)
    requires Debt(s.handlers) > 0
    ensures Past(s, h)
  {
    assert s.handlers[..|s.handlers|] == s.handlers;
    h := DebtorExists(s, |s.handlers|);
  }

  ghost predicate Reachable(s: State) {
    exists states: seq<State>, acts: seq<Action> :: IsRun(states, acts) && states[|acts|] == s
  }

  lemma ReachNext(s: State, a: Action)
    requires Reachable(s) && Enabled(s, a)
    ensures Reachable(Next(s, a))
  {
    var states: seq<State>, acts: seq<Action> :| IsRun(states, acts) && states[|acts|] == s;
    var states', acts' := states + [Next(s, a)], acts + [a];
    forall i | 0 <= i < |acts'| ensures Steps(states'[i], acts'[i], states'[i + 1]) {
      if i < |acts| {
        assert Steps(states[i], acts[i], states[i + 1]);
      }
    }
    assert IsRun(states', acts');
  }

  // ---- the drain loop is not the end ----

  // The actions lead from s to s'.
  ghost predicate Leads(s: State, acts: seq<Action>, s': State)
    decreases acts
  {
    if acts == [] then s' == s
    else Enabled(s, acts[0]) && Leads(Next(s, acts[0]), acts[1..], s')
  }

  // Some continuation puts the handler inside its hook.
  ghost predicate MayEnter(s: State, h: nat) {
    exists acts, s' :: Leads(s, acts, s') && At(s', h, Inside)
  }

  // After the mark nobody passes the test any more.
  lemma {:induction false} NobodyPasses(s: State, acts: seq<Action>, s': State, h: nat)
    requires s.unmounting > 1 && Leads(s, acts, s') && Past(s', h)
    ensures Past(s, h)
    decreases acts
  {
    if acts != [] {
      NobodyPasses(Next(s, acts[0]), acts[1..], s', h);
    }
  }

  // After the mark the handlers that can still be found inside a hook are exactly those past the test by now.
  lemma MayEnterIff(s: State, h: nat)
    requires s.unmounting > 1
    ensures MayEnter(s, h) <==> Past(s, h)
  {
    if At(s, h, Inside) {
      assert Leads(s, [], s);
    } else if At(s, h, Passed) {
      var s' := Next(s, Count(h));
      assert Leads(s', [], s');
      assert Leads(s, [Count(h)], s') && At(s', h, Inside);
    }
    if MayEnter(s, h) {
      var acts, s' :| Leads(s, acts, s') && At(s', h, Inside);
      NobodyPasses(s, acts, s', h);
    }
  }

  lemma {:induction false} InsiderCounts(handlers: seq<Handler>, h: nat)
    requires h < |handlers| && handlers[h].at == Inside
    ensures Insiders(handlers) >= 1
  {
    if h < |handlers| - 1 {
      InsiderCounts(handlers[..|handlers| - 1], h);
    }
  }

  // When the drain loop has read 1, a handler can still come to be inside a hook exactly when one has passed the test
  // and not yet counted itself.
  lemma EntersAfterDrainIff(s: State)
    requires Inv(s) && s.unload == Clearing && s.usage == 1
    ensures (exists h :: MayEnter(s, h)) <==> exists h :: At(s, h, Passed)
  {
    forall h ensures MayEnter(s, h) <==> At(s, h, Passed) {
      MayEnterIff(s, h);
      if At(s, h, Inside) {
        InsiderCounts(s.handlers, h);
      }
    }
  }

  // The drain loop is left by a poll exactly when nobody is counted inside at that moment.
  lemma PollLeavesIff(states: seq<State>, acts: seq<Action>, j: nat)
    requires IsRun(states, acts) && j < |acts| && acts[j] == Poll
    ensures states[j].unload == Draining && (states[j + 1].unload == Draining || states[j + 1].unload == Clearing)
    ensures states[j + 1].unload == Clearing <==> forall h: nat :: !At(states[j], h, Inside)
  {
    RunKeeps(states, acts, j);
    assert Steps(states[j], acts[j], states[j + 1]);
    if h: nat :| At(states[j], h, Inside) {
      InsiderCounts(states[j].handlers, h);
    } else {
      forall h: nat | h < |states[j].handlers| ensures states[j].handlers[h].at != Inside {
        assert !At(states[j], h, Inside);
      }
      NobodyInside(states[j].handlers);
    }
  }

  // So tracker_fini never runs under a handler counted by then: whoever is inside later had, at that very poll, passed
  // the test and not yet counted itself.
  lemma InsideAfterDrain(states: seq<State>, acts: seq<Action>, i: nat, j: nat, h: nat)
    requires IsRun(states, acts) && i < j < |states|
    requires states[i].unload == Draining && states[i + 1].unload == Clearing
    requires At(states[j], h, Inside)
    ensures At(states[i], h, Passed)
  {
    assert Steps(states[i], acts[i], states[i + 1]);
    assert acts[i] == Poll;
    RunKeeps(states, acts, i);
    PollLeavesIff(states, acts, i);
    InsideAfterMark(states, acts, i, j, h);
    assert !At(states[i], h, Inside);
  }

  // And such a state is reached: the loop can end while a handler that passed the test is still on its way in.
  lemma DrainIsNotTheEnd()
    ensures exists s :: Reachable(s) && s.unload == Clearing && At(s, 0, Inside)
  {
    var s0 := State(true, 1, 1, [true], [Handler(0, Away)], Loaded);
    assert IsRun([s0], []);
    assert Reachable(s0);
    ReachNext(s0, Fire(0));
    var s1 := s0.(handlers := [Handler(0, Entered)]);
    assert s1 == Next(s0, Fire(0));
    ReachNext(s1, TestEnabled(0));
    var s2 := s0.(handlers := [Handler(0, SawEnabled)]);
    assert s2 == Next(s1, TestEnabled(0));
    ReachNext(s2, TestUnmounting(0));
    var s3 := s0.(handlers := [Handler(0, Passed)]);
    assert s3 == Next(s2, TestUnmounting(0));
    DrainWhilePassed(s3);
  }

  lemma DrainWhilePassed(s: State)
    requires Reachable(s) && s == State(true, 1, 1, [true], [Handler(0, Passed)], Loaded)
    ensures exists s' :: Reachable(s') && s'.unload == Clearing && At(s', 0, Inside)
  {
    ReachNext(s, Mark);
    var s1 := s.(unmounting := 2, unload := Marked);
    ReachNext(s1, Disable);
    var s2 := s1.(enabled := false, unload := Draining);
    ReachNext(s2, Poll);
    var s3 := s2.(unload := Clearing);
    ReachNext(s3, Count(0));
    assert At(Next(s3, Count(0)), 0, Inside);
  }
}
