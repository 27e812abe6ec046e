// Which tasks are tracked: the living descendants of the registered ones.
module Genealogy {
  import opened ProcessWorld
  import opened TrackerSpec

  // How a task came to be in the family: registered itself by event `at`, or forked by event `at` from a parent who was
  // in the family then.
  datatype Lineage = Root(at: nat) | Child(parent: Pid, up: Lineage, at: nat)

  predicate Registers(e: Event, pid: Pid) {
    e.Register? && e.pid == pid && e.rec != NULL && e.added
  }

  predicate Forks(e: Event, parent: Pid, child: Pid) {
    e.Fork? && e.parent == parent && e.child == child && e.gotLock && e.added
  }

  function PidOf(e: Event): Pid {
    match e
    case Register(pid, _, _) => pid
    case Fork(_, child, _, _, _) => child
    case Exit(pid) => pid
  }

  // The pid has not exited since event number `from`.
  predicate AliveSince(h: seq<Event>, pid: Pid, from: nat) {
    forall i :: from <= i < |h| ==> h[i] != Exit(pid)
  }

  predicate Proves(h: seq<Event>, lineage: Lineage, pid: Pid)
    decreases lineage
  {
    && lineage.at < |h|
    && AliveSince(h, pid, lineage.at + 1)
    && match lineage
       case Root(at) => Registers(h[at], pid)
       case Child(parent, up, at) => Forks(h[at], parent, pid) && Proves(h[..at], up, parent)
  }

  ghost predicate InFamily(h: seq<Event>, pid: Pid) {
    exists lineage :: Proves(h, lineage, pid)
  }

  // No registration that goes through targets a task tracked by then.
  ghost predicate RegistersOnce(w: World, h: seq<Event>) {
    h != [] ==>
      && RegistersOnce(w, h[..|h| - 1])
      && (Registers(h[|h| - 1], PidOf(h[|h| - 1])) ==> !IsTracked(Run(w, h[..|h| - 1]), PidOf(h[|h| - 1])))
  }

  // In such runs tracked tasks are alive and tracked once.
  lemma {:induction false} TrackedOnce(w: World, h: seq<Event>, pid: Pid)
    requires Start(w) && PossibleRun(w, h) && RegistersOnce(w, h)
    ensures |StackIn(Run(w, h).tracked, pid)| <= 1
    ensures IsTracked(Run(w, h), pid) ==> pid in Run(w, h).alive
    decreases |h|
  {
    if h != [] {
      TrackedOnce(w, h[..|h| - 1], pid);
    }
  }

  ghost predicate OneEntryEach(w: World) {
    forall pid: Pid :: |StackIn(w.tracked, pid)| <= 1
  }

  ghost predicate OneEntryAt(w: World, h: seq<Event>, n: nat) {
    n <= |h| ==> OneEntryEach(Run(w, h[..n]))
  }

  lemma {:induction false} OnceUpTo(w: World, h: seq<Event>, n: nat)
    requires PossibleRun(w, h) && RegistersOnce(w, h) && n <= |h|
    ensures PossibleRun(w, h[..n]) && RegistersOnce(w, h[..n])
    decreases |h|
  {
    if n < |h| {
      assert h[..|h| - 1][..n] == h[..n];
      OnceUpTo(w, h[..|h| - 1], n);
    } else {
      assert h[..n] == h;
    }
  }

  // A possible run never gives any task two entries exactly when none of its registrations goes through for a task that
  // is tracked already.
  lemma {:induction false} OneEntryIff(w: World, h: seq<Event>)
    requires Start(w) && PossibleRun(w, h)
    ensures (forall n: nat :: OneEntryAt(w, h, n)) <==> RegistersOnce(w, h)
    decreases |h|
  {
    if RegistersOnce(w, h) {
      forall n: nat ensures OneEntryAt(w, h, n) {
        if n <= |h| {
          OnceUpTo(w, h, n);
          forall pid: Pid ensures |StackIn(Run(w, h[..n]).tracked, pid)| <= 1 {
            TrackedOnce(w, h[..n], pid);
          }
        }
      }
    } else {
      SecondEntry(w, h);
    }
  }

  lemma {:induction false} SecondEntry(w: World, h: seq<Event>)
    requires Start(w) && PossibleRun(w, h) && !RegistersOnce(w, h)
    ensures exists n: nat :: !OneEntryAt(w, h, n)
    decreases |h|
  {
    var shorter, e := h[..|h| - 1], h[|h| - 1];
    if RegistersOnce(w, shorter) {
      assert h[..|h|] == h;
      assert |StackIn(Run(w, h).tracked, e.pid)| >= 2;
      assert !OneEntryAt(w, h, |h|);
    } else {
      SecondEntry(w, shorter);
      var n: nat :| !OneEntryAt(w, shorter, n);
      assert shorter[..n] == h[..n];
      assert !OneEntryAt(w, h, n);
    }
  }

  lemma AliveOneMore(h: seq<Event>, pid: Pid, from: nat)
    requires h != [] && from < |h|
    ensures AliveSince(h, pid, from) <==> AliveSince(h[..|h| - 1], pid, from) && h[|h| - 1] != Exit(pid)
  {
    var shorter := h[..|h| - 1];
    if AliveSince(shorter, pid, from) && h[|h| - 1] != Exit(pid) {
      forall i | from <= i < |h| ensures h[i] != Exit(pid) {
        assert i == |h| - 1 || shorter[i] == h[i];
      }
    }
  }

  // A lineage of the run so far holds for one event more, unless that event is the exit of the task; and the other way.
  lemma OneEventMore(h: seq<Event>, lineage: Lineage, pid: Pid)
    requires h != [] && lineage.at < |h| - 1
    ensures Proves(h, lineage, pid) <==> Proves(h[..|h| - 1], lineage, pid) && h[|h| - 1] != Exit(pid)
  {
    var shorter, at := h[..|h| - 1], lineage.at;
    AliveOneMore(h, pid, at + 1);
    assert shorter[at] == h[at];
    assert shorter[..at] == h[..at];
  }

  lemma StaysTracked(w: World, e: Event, pid: Pid)
    requires IsTracked(w, pid) && e != Exit(pid)
    ensures IsTracked(Step(w, e), pid)
  {
  }

  lemma JoinsFamily(w: World, e: Event, parent: Pid, pid: Pid)
    requires Registers(e, pid) || (Forks(e, parent, pid) && IsTracked(w, parent))
    ensures IsTracked(Step(w, e), pid)
  {
  }

  // In every possible run that registers only untracked tasks, a task is tracked exactly when it is alive and is a
  // registered task or was forked, with a successful add, by a parent that was itself in the family.
  lemma {:induction false} TrackedIsFamily(w: World, h: seq<Event>, pid: Pid)
    requires Start(w) && PossibleRun(w, h) && RegistersOnce(w, h)
    ensures IsTracked(Run(w, h), pid) <==> InFamily(h, pid)
    ensures InFamily(h, pid) ==> pid in Run(w, h).alive
    decreases |h|
  {
    TrackedOnce(w, h, pid);
    if h != [] {
      var n := |h| - 1;
      var shorter, e := h[..n], h[n];
      TrackedIsFamily(w, shorter, pid);
      if e.Fork? {
        TrackedIsFamily(w, shorter, e.parent);
      }
      if IsTracked(Run(w, h), pid) {
        FamilyComplete(w, h, pid);
      }
      if InFamily(h, pid) {
        FamilySound(w, h, pid);
      }
    }
  }

  lemma FamilyComplete(w: World, h: seq<Event>, pid: Pid)
    requires h != [] && Start(w) && PossibleRun(w, h) && RegistersOnce(w, h) && IsTracked(Run(w, h), pid)
    requires IsTracked(Run(w, h[..|h| - 1]), pid) ==> InFamily(h[..|h| - 1], pid)
    requires var e := h[|h| - 1];
             e.Fork? && IsTracked(Run(w, h[..|h| - 1]), e.parent) ==> InFamily(h[..|h| - 1], e.parent)
    ensures InFamily(h, pid)
  {
    var n := |h| - 1;
    var shorter, e := h[..n], h[n];
    TrackedOnce(w, shorter, pid);
    if IsTracked(Run(w, shorter), pid) {
      var lineage :| Proves(shorter, lineage, pid);
      OneEventMore(h, lineage, pid);
    } else if e.Register? {
      assert Proves(h, Root(n), pid);
    } else {
      var up :| Proves(shorter, up, e.parent);
      assert Proves(h, Child(e.parent, up, n), pid);
    }
  }

  lemma FamilySound(w: World, h: seq<Event>, pid: Pid)
    requires h != [] && Start(w) && PossibleRun(w, h) && RegistersOnce(w, h) && InFamily(h, pid)
    requires InFamily(h[..|h| - 1], pid) ==> IsTracked(Run(w, h[..|h| - 1]), pid)
    requires var e := h[|h| - 1];
             e.Fork? && InFamily(h[..|h| - 1], e.parent) ==> IsTracked(Run(w, h[..|h| - 1]), e.parent)
    ensures IsTracked(Run(w, h), pid)
  {
    var shorter, e := h[..|h| - 1], h[|h| - 1];
    var lineage :| Proves(h, lineage, pid);
    if lineage.at < |h| - 1 {
      OneEventMore(h, lineage, pid);
      StaysTracked(Run(w, shorter), e, pid);
    } else {
      match lineage
      case Root(at) => JoinsFamily(Run(w, shorter), e, 0, pid);
      case Child(parent, up, at) =>
        assert Proves(shorter, up, parent);
        JoinsFamily(Run(w, shorter), e, parent, pid);
    }
  }

  lemma RunMore(w: World, h: seq<Event>, e: Event)
    requires PossibleRun(w, h) && Possible(Run(w, h), e)
    ensures PossibleRun(w, h + [e]) && Run(w, h + [e]) == Step(Run(w, h), e)
  {
    assert (h + [e])[..|h|] == h;
  }

  // A task registered twice stays tracked after its death: from every start, in a run with nothing failing.
  lemma DoublyRegisteredOutlives(w: World, pid: Pid, rec: Ptr, rec': Ptr)
    requires Start(w) && pid in w.alive && rec != rec' && rec != NULL && rec' != NULL
    ensures var h := [Register(pid, rec, true), Register(pid, rec', true), Exit(pid)];
            PossibleRun(w, h) && pid !in Run(w, h).alive && IsTracked(Run(w, h), pid)
  {
    var first, second, exit := Register(pid, rec, true), Register(pid, rec', true), Exit(pid);
    RunMore(w, [], first);
    assert StackIn(Run(w, [] + [first]).tracked, pid) == [rec];
    RunMore(w, [] + [first], second);
    assert StackIn(Run(w, [] + [first] + [second]).tracked, pid) == [rec', rec];
    RunMore(w, [] + [first] + [second], exit);
    assert [] + [first] + [second] + [exit] == [first, second, exit];
  }
}
