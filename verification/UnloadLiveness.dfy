// Unloading in runs without end: with a fair scheduler the drain loop of module exit ends and the unload completes.
module UnloadLiveness {
  import opened HandlerProtocol
  import opened UnloadSafety

  ghost predicate StepAt(s: nat -> State, a: nat -> Action, i: nat) {
    Steps(s(i), a(i), s(i + 1))
  }

  ghost predicate IsEndlessRun(s: nat -> State, a: nat -> Action) {
    Init(s(0)) && forall i: nat :: StepAt(s, a, i)
  }

  predicate Serves(a: nat -> Action, h: nat, k: nat) {
    a(k) == Count(h) || a(k) == Stop(h)
  }

  // No handler is left past the test for ever without its next step.
  ghost predicate Fair(s: nat -> State, a: nat -> Action) {
    forall i: nat, h: nat :: Past(s(i), h) ==> exists k: nat :: k >= i && Serves(a, h, k)
  }

  ghost predicate SettledFrom(s: nat -> State, k: nat) {
    forall i: nat :: i >= k ==> s(i).usage == 1
  }

  lemma {:induction false} EndlessInv(s: nat -> State, a: nat -> Action, i: nat)
    requires IsEndlessRun(s, a)
    ensures Inv(s(i))
  {
    if i == 0 {
      NobodyInside(s(0).handlers);
    } else {
      EndlessInv(s, a, i - 1);
      assert StepAt(s, a, i - 1);
      StepKeeps(s(i - 1), a(i - 1));
    }
  }

  lemma EndlessStepPays(s: nat -> State, a: nat -> Action, i: nat)
    requires IsEndlessRun(s, a) && s(i).unmounting > 1
    ensures s(i + 1).unmounting > 1
    ensures Debt(s(i + 1).handlers) == Debt(s(i).handlers) - if Pays(a(i)) then 1 else 0
  {
    assert StepAt(s, a, i);
    StepPays(s(i), a(i));
  }

  // The debt is never replenished.
  lemma {:induction false} DebtNeverGrows(s: nat -> State, a: nat -> Action, m: nat, j: nat)
    requires IsEndlessRun(s, a) && s(m).unmounting > 1 && m <= j
    ensures s(j).unmounting > 1 && Debt(s(j).handlers) <= Debt(s(m).handlers)
    decreases j
  {
    if m < j {
      DebtNeverGrows(s, a, m, j - 1);
      EndlessStepPays(s, a, j - 1);
    }
  }

  // The drain loop ends: in every endless fair run, some time after unmounting is marked usage is 1 for good.
  lemma {:induction false} DrainEnds(s: nat -> State, a: nat -> Action, m: nat)
    requires IsEndlessRun(s, a) && Fair(s, a) && s(m).unmounting > 1
    ensures exists k: nat :: k >= m && SettledFrom(s, k)
    decreases Debt(s(m).handlers)
  {
    if Debt(s(m).handlers) == 0 {
      forall i: nat | i >= m ensures s(i).usage == 1 {
        DebtNeverGrows(s, a, m, i);
        DebtBoundsInsiders(s(i).handlers);
        EndlessInv(s, a, i);
      }
      assert SettledFrom(s, m);
    } else {
      var h := SomeDebtor(s(m));
      var j: nat :| j >= m && Serves(a, h, j);
      DebtNeverGrows(s, a, m, j);
      EndlessStepPays(s, a, j);
      DrainEnds(s, a, j + 1);
    }
  }

  // ---- the whole unload ends ----

  // The next step of the unloading thread.
  function UnloadStep(u: Unload): Action {
    match u
    case Loaded => Mark
    case Marked => Disable
    case Draining => Poll
    case Clearing => Clear
    case Removing(_) => Unregister
    case Removed(_) => BeginSync
    case _ => EndSync
  }

  // Nothing keeps the unloading thread from its next step but a grace period that has not ended.
  lemma OnlyGracePeriodsWait(s: State)
    requires Inv(s) && s.unload != Unloaded
    ensures Enabled(s, UnloadStep(s.unload)) <==> (s.unload.Waiting? ==> s.unload.who == {})
  {
  }

  ghost predicate HandlerServed(s: nat -> State, a: nat -> Action, i: nat, h: nat) {
    h < |s(i).handlers| && s(i).handlers[h].at != Away ==>
      exists k: nat :: k >= i && a(k) == HandlerStep(h, s(i).handlers[h].at)
  }

  ghost predicate UnloadServed(s: nat -> State, a: nat -> Action, i: nat) {
    s(i).unload != Loaded && Enabled(s(i), UnloadStep(s(i).unload)) ==>
      exists k: nat :: k >= i && a(k) == UnloadStep(s(i).unload)
  }

  // Every handler in a wrapper takes its next step some time, and so does the unloading thread when it can.
  ghost predicate AllFair(s: nat -> State, a: nat -> Action) {
    && (forall i: nat, h: nat :: HandlerServed(s, a, i, h))
    && (forall i: nat :: UnloadServed(s, a, i))
  }

  lemma FairToDebtors(s: nat -> State, a: nat -> Action)
    requires AllFair(s, a)
    ensures Fair(s, a)
  {
    forall i: nat, h: nat | Past(s(i), h) ensures exists k: nat :: k >= i && Serves(a, h, k) {
      assert HandlerServed(s, a, i, h);
      var k: nat :| k >= i && a(k) == HandlerStep(h, s(i).handlers[h].at);
      assert Serves(a, h, k);
    }
  }

  // What the unloading thread has still to do.
  function Ahead(s: State): int {
    var n := |s.probes|;
    match s.unload
    case Loaded => 3 * n + 4
    case Marked => 3 * n + 3
    case Draining => 3 * n + 2
    case Clearing => 3 * n + 1
    case Removing(i) => 3 * (n - i)
    case Removed(i) => 3 * (n - i) - 1
    case Waiting(i, _) => 3 * (n - i) - 2
    case Unloaded => 0
  }

  lemma StepAhead(s: State, a: Action)
    requires Inv(s) && Enabled(s, a)
    ensures Ahead(Next(s, a)) <= Ahead(s)
    ensures a == Disable || a == Clear || a == Unregister || a == BeginSync || a == EndSync
            ==> Ahead(Next(s, a)) < Ahead(s)
  {
  }

  lemma {:induction false} NeverBack(s: nat -> State, a: nat -> Action, m: nat, j: nat)
    requires IsEndlessRun(s, a) && m <= j
    ensures Ahead(s(j)) <= Ahead(s(m)) && |s(j).probes| == |s(m).probes|
    decreases j
  {
    if m < j {
      NeverBack(s, a, m, j - 1);
      EndlessInv(s, a, j - 1);
      assert StepAt(s, a, j - 1);
      StepAhead(s(j - 1), a(j - 1));
    }
  }

  // The unloading thread has got further at k than it was at m.
  ghost predicate Further(s: nat -> State, m: nat, k: nat) {
    k >= m && Ahead(s(k)) < Ahead(s(m))
  }

  lemma TakesStep(s: nat -> State, a: nat -> Action, m: nat)
    requires IsEndlessRun(s, a) && AllFair(s, a)
    requires s(m).unload != Loaded && s(m).unload != Draining && Enabled(s(m), UnloadStep(s(m).unload))
    ensures exists k: nat :: Further(s, m, k)
  {
    assert UnloadServed(s, a, m);
    var k: nat :| k >= m && a(k) == UnloadStep(s(m).unload);
    NeverBack(s, a, m, k);
    EndlessInv(s, a, k);
    assert StepAt(s, a, k);
    StepAhead(s(k), a(k));
    assert Further(s, m, k + 1);
  }

  predicate Cleared(s: nat -> State, m: nat, k: nat) {
    k >= m && s(k).unload == Clearing
  }

  lemma {:induction false} DrainsUntilCleared(s: nat -> State, a: nat -> Action, m: nat, j: nat)
    requires IsEndlessRun(s, a) && m <= j && s(m).unload == Draining
    ensures s(j).unload == Draining || exists k: nat :: Cleared(s, m, k)
    decreases j
  {
    if m < j {
      DrainsUntilCleared(s, a, m, j - 1);
      assert StepAt(s, a, j - 1);
      assert s(j).unload == Clearing ==> Cleared(s, m, j);
    }
  }

  // So the drain loop is left: with usage settled at 1, if not before, a poll reads 1.
  lemma DrainLoopExits(s: nat -> State, a: nat -> Action, m: nat)
    requires IsEndlessRun(s, a) && Fair(s, a) && s(m).unload == Draining
    requires forall i: nat :: UnloadServed(s, a, i)
    ensures exists k: nat :: Cleared(s, m, k)
  {
    EndlessInv(s, a, m);
    DrainEnds(s, a, m);
    var settled: nat :| settled >= m && SettledFrom(s, settled);
    DrainsUntilCleared(s, a, m, settled);
    if s(settled).unload == Draining {
      assert UnloadServed(s, a, settled);
      var k: nat :| k >= settled && a(k) == Poll;
      assert StepAt(s, a, k);
      assert s(k).usage == 1;
      assert Cleared(s, m, k + 1);
    }
  }

  // ---- a grace period ends ----

  // Steps a handler in a wrapper still has to take.
  function StepsLeft(place: Place): nat {
    match place
    case Away => 0
    case Entered => 5
    case SawEnabled => 4
    case Passed => 3
    case Inside => 2
    case Leaving => 1
  }

  // The steps left to the handlers waited for.
  function Awaited(handlers: seq<Handler>, who: set<nat>): nat {
    if handlers == [] then 0
    else
      var n := |handlers| - 1;
      Awaited(handlers[..n], who) + if n in who then StepsLeft(handlers[n].at) else 0
  }

  lemma {:induction false} AwaitedAfter(handlers: seq<Handler>, who: set<nat>, h: nat, handler: Handler)
    requires h < |handlers|
    ensures Awaited(handlers[h := handler], who)
            == Awaited(handlers, who) + if h in who then StepsLeft(handler.at) - StepsLeft(handlers[h].at) else 0
  {
    var n := |handlers| - 1;
    if h < n {
      assert handlers[h := handler][..n] == handlers[..n][h := handler];
      AwaitedAfter(handlers[..n], who, h, handler);
    } else {
      assert handlers[h := handler][..n] == handlers[..n];
    }
  }

  lemma {:induction false} AwaitedWithout(handlers: seq<Handler>, who: set<nat>, h: nat)
    requires h < |handlers| ==> handlers[h].at == Away
    ensures Awaited(handlers, who - {h}) == Awaited(handlers, who)
  {
    if handlers != [] {
      AwaitedWithout(handlers[..|handlers| - 1], who, h);
    }
  }

  // Only handlers still in a wrapper are waited for.
  ghost predicate WaitsForBusy(s: State) {
    s.unload.Waiting? ==> s.unload.who <= Busy(s)
  }

  lemma {:induction false} EndlessWaits(s: nat -> State, a: nat -> Action, i: nat)
    requires IsEndlessRun(s, a)
    ensures WaitsForBusy(s(i))
  {
    if i > 0 {
      EndlessWaits(s, a, i - 1);
      assert StepAt(s, a, i - 1);
    }
  }

  predicate StillWaited(s: State, h: nat) {
    s.unload.Waiting? && h in s.unload.who && h < |s.handlers|
  }

  function Awaiting(s: State): nat {
    if s.unload.Waiting? then Awaited(s.handlers, s.unload.who) else 0
  }

  // While the wait lasts what is awaited does not grow, and it shrinks when a handler waited for moves.
  lemma WaitStep(s: State, a: Action)
    requires Enabled(s, a) && WaitsForBusy(s) && s.unload.Waiting? && a != EndSync
    ensures Next(s, a).unload.Waiting? && Awaiting(Next(s, a)) <= Awaiting(s)
    ensures forall h: nat | StillWaited(s, h) && Awaiting(Next(s, a)) == Awaiting(s) ::
              StillWaited(Next(s, a), h) && Next(s, a).handlers[h] == s.handlers[h]
    ensures forall h: nat | StillWaited(s, h) && s.handlers[h].at != Away ::
              a == HandlerStep(h, s.handlers[h].at) ==> Awaiting(Next(s, a)) < Awaiting(s)
  {
    if ByHandler(a) {
      var s' := Next(s, a);
      AwaitedAfter(s.handlers, s.unload.who, a.h, s'.handlers[a.h]);
      if a.Leave? {
        AwaitedWithout(s'.handlers, s.unload.who, a.h);
      }
    }
  }

  // From m to j the unloading thread gets further, or less is awaited, or the handler has not moved.
  ghost predicate WaitHolds(s: nat -> State, m: nat, j: nat, h: nat) {
    Further(s, m, j) || (s(j).unload.Waiting? && (LessAwaited(s(m), s(j)) || Unmoved(s(m), s(j), h)))
  }

  predicate LessAwaited(s: State, s': State) {
    s.unload.Waiting? && s'.unload.Waiting? && Awaiting(s') < Awaiting(s)
  }

  predicate Unmoved(s: State, s': State, h: nat) {
    && StillWaited(s, h) && StillWaited(s', h)
    && Awaiting(s') == Awaiting(s) && s'.handlers[h] == s.handlers[h]
  }

  lemma {:induction false} WaitGoesOn(s: nat -> State, a: nat -> Action, m: nat, j: nat, h: nat)
    requires IsEndlessRun(s, a) && m <= j && StillWaited(s(m), h)
    ensures WaitHolds(s, m, j, h)
    decreases j
  {
    if m < j {
      WaitGoesOn(s, a, m, j - 1, h);
      NeverBack(s, a, m, j - 1);
      EndlessInv(s, a, j - 1);
      EndlessWaits(s, a, j - 1);
      assert StepAt(s, a, j - 1);
      StepAhead(s(j - 1), a(j - 1));
      if !Further(s, m, j - 1) && a(j - 1) != EndSync {
        WaitStep(s(j - 1), a(j - 1));
      }
    }
  }

  // Some handler waited for takes its step, so the wait ends or less is awaited.
  lemma WaitShrinks(s: nat -> State, a: nat -> Action, m: nat) returns (k: nat)
    requires IsEndlessRun(s, a) && AllFair(s, a) && s(m).unload.Waiting? && s(m).unload.who != {}
    ensures k >= m && (Further(s, m, k) || LessAwaited(s(m), s(k)))
  {
    EndlessWaits(s, a, m);
    var h :| h in s(m).unload.who;
    assert h in Busy(s(m));
    assert HandlerServed(s, a, m, h);
    k :| k >= m && a(k) == HandlerStep(h, s(m).handlers[h].at);
    WaitGoesOn(s, a, m, k, h);
    if Unmoved(s(m), s(k), h) && !Further(s, m, k) {
      EndlessWaits(s, a, k);
      assert StepAt(s, a, k);
      WaitStep(s(k), a(k));
      k := k + 1;
    }
  }

  lemma {:induction false} WaitEnds(s: nat -> State, a: nat -> Action, m: nat)
    requires IsEndlessRun(s, a) && AllFair(s, a) && s(m).unload.Waiting?
    ensures exists k: nat :: Further(s, m, k)
    decreases Awaiting(s(m))
  {
    if s(m).unload.who == {} {
      TakesStep(s, a, m);
    } else {
      var k := WaitShrinks(s, a, m);
      if !Further(s, m, k) {
        WaitEnds(s, a, k);
        NeverBack(s, a, m, k);
        var k': nat :| Further(s, k, k');
        assert Further(s, m, k');
      }
    }
  }

  lemma Advances(s: nat -> State, a: nat -> Action, m: nat)
    requires IsEndlessRun(s, a) && AllFair(s, a) && s(m).unload != Loaded && s(m).unload != Unloaded
    ensures exists k: nat :: Further(s, m, k)
  {
    EndlessInv(s, a, m);
    if s(m).unload.Waiting? {
      WaitEnds(s, a, m);
    } else if s(m).unload == Draining {
      FairToDebtors(s, a);
      DrainLoopExits(s, a, m);
      var k: nat :| Cleared(s, m, k);
      NeverBack(s, a, m, k);
      assert Further(s, m, k);
    } else {
      TakesStep(s, a, m);
    }
  }

  lemma {:induction false} StaysUnloaded(s: nat -> State, a: nat -> Action, m: nat, j: nat)
    requires IsEndlessRun(s, a) && m <= j && s(m).unload == Unloaded
    ensures s(j).unload == Unloaded && Busy(s(j)) == {}
    decreases j
  {
    EndlessInv(s, a, j);
    if m < j {
      StaysUnloaded(s, a, m, j - 1);
      assert StepAt(s, a, j - 1);
    }
    forall h | 0 <= h < |s(j).handlers| ensures s(j).handlers[h].at == Away {
      assert HookGone(s(j), s(j).handlers[h].hook);
    }
  }

  ghost predicate EmptyFrom(s: nat -> State, k: nat) {
    forall i: nat :: i >= k ==> s(i).unload == Unloaded && Busy(s(i)) == {}
  }

  // In every endless fair run that begins to unload, the unload completes, and from then on no handler is in a wrapper.
  lemma {:induction false} UnloadFinishes(s: nat -> State, a: nat -> Action, m: nat)
    requires IsEndlessRun(s, a) && AllFair(s, a) && s(m).unload != Loaded
    ensures exists k: nat :: k >= m && EmptyFrom(s, k)
    decreases Ahead(s(m))
  {
    EndlessInv(s, a, m);
    if s(m).unload == Unloaded {
      forall i: nat | i >= m ensures s(i).unload == Unloaded && Busy(s(i)) == {} {
        StaysUnloaded(s, a, m, i);
      }
      assert EmptyFrom(s, m);
    } else {
      Advances(s, a, m);
      var k: nat :| Further(s, m, k);
      EndlessInv(s, a, k);
      NeverBack(s, a, m, k);
      UnloadFinishes(s, a, k);
    }
  }
}
