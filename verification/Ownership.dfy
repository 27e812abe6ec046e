// Who owns the records: every record allocated is held by one tracked entry, or was freed once, or leaked when an add
// failed.
module Ownership {
  import opened ProcessWorld
  import opened TrackerSpec

  // Entry number i of a task holds the record.
  ghost predicate HeldAt(w: World, pid: Pid, i: nat, rec: Ptr) {
    i < |StackIn(w.tracked, pid)| && StackIn(w.tracked, pid)[i] == rec
  }

  ghost predicate Held(w: World, rec: Ptr) {
    exists pid: Pid, i: nat :: HeldAt(w, pid, i, rec)
  }

  // Entries hold live records only, and no two entries hold the same one.
  ghost predicate EntriesOwn(w: World) {
    && (forall pid: Pid, i: nat, rec: Ptr :: HeldAt(w, pid, i, rec) && rec != NULL ==> rec in w.live - w.leaked)
    && (forall pid: Pid, i: nat, pid': Pid, i': nat, rec: Ptr ::
          HeldAt(w, pid, i, rec) && HeldAt(w, pid', i', rec) && rec != NULL ==> pid == pid' && i == i')
  }

  ghost predicate Owned(w: World) {
    && NULL !in w.live && w.leaked <= w.live
    && EntriesOwn(w)
    && forall rec :: rec in w.live ==> (Held(w, rec) <==> rec !in w.leaked)
  }

  // Entry i of a task is entry i + 1 once another is pushed, and the entries of other tasks stay where they are.
  lemma PushMoves(w: World, w': World, pid: Pid, rec: Ptr, p: Pid, i: nat, r: Ptr)
    requires w'.tracked == w.tracked[pid := [rec] + StackIn(w.tracked, pid)]
    ensures HeldAt(w', p, i, r) <==>
              if p != pid then HeldAt(w, p, i, r) else if i == 0 then r == rec else HeldAt(w, p, i - 1, r)
  {
  }

  lemma PopMoves(w: World, w': World, pid: Pid, p: Pid, i: nat, r: Ptr)
    requires IsTracked(w, pid) && w'.tracked == w.tracked[pid := StackIn(w.tracked, pid)[1..]]
    ensures HeldAt(w', p, i, r) <==> if p != pid then HeldAt(w, p, i, r) else HeldAt(w, p, i + 1, r)
  {
  }

  lemma HeldAfterPush(w: World, w': World, pid: Pid, rec: Ptr, r: Ptr)
    requires w'.tracked == w.tracked[pid := [rec] + StackIn(w.tracked, pid)]
    ensures Held(w', r) <==> r == rec || Held(w, r)
  {
    if Held(w', r) {
      var p: Pid, i: nat :| HeldAt(w', p, i, r);
      PushMoves(w, w', pid, rec, p, i, r);
      if p == pid && i > 0 {
        assert HeldAt(w, p, i - 1, r);
      }
    }
    if r == rec {
      assert HeldAt(w', pid, 0, r);
    }
    if Held(w, r) {
      var p: Pid, i: nat :| HeldAt(w, p, i, r);
      var i' := if p == pid then i + 1 else i;
      PushMoves(w, w', pid, rec, p, i', r);
      assert HeldAt(w', p, i', r);
    }
  }

  lemma GivenEntries(w: World, pid: Pid, rec: Ptr)
    requires Owned(w) && rec !in w.live
    ensures EntriesOwn(Given(w, pid, rec, true))
  {
    var w' := Given(w, pid, rec, true);
    forall p: Pid, i: nat, r: Ptr | HeldAt(w', p, i, r) && r != NULL ensures r in w'.live - w'.leaked {
      PushMoves(w, w', pid, rec, p, i, r);
    }
    forall p: Pid, i: nat, p': Pid, i': nat, r: Ptr | HeldAt(w', p, i, r) && HeldAt(w', p', i', r) && r != NULL
      ensures p == p' && i == i'
    {
      PushMoves(w, w', pid, rec, p, i, r);
      PushMoves(w, w', pid, rec, p', i', r);
    }
  }

  lemma GivenKeeps(w: World, pid: Pid, rec: Ptr, added: bool)
    requires Owned(w) && rec !in w.live
    ensures Owned(Given(w, pid, rec, added))
  {
    var w' := Given(w, pid, rec, added);
    if added {
      GivenEntries(w, pid, rec);
      forall r | r in w'.live ensures Held(w', r) <==> r !in w'.leaked {
        HeldAfterPush(w, w', pid, rec, r);
      }
    } else {
      SameEntries(w, w');
    }
  }

  // Records can leak or come alive without any entry changing.
  lemma SameEntries(w: World, w': World)
    requires Owned(w) && w'.tracked == w.tracked
    requires NULL !in w'.live && w.live <= w'.live
    requires w'.leaked == w.leaked + (w'.live - w.live)
    ensures Owned(w')
  {
    forall p: Pid, i: nat, r: Ptr ensures HeldAt(w', p, i, r) <==> HeldAt(w, p, i, r) {
    }
    forall r | r in w'.live ensures Held(w', r) <==> r !in w'.leaked {
      assert Held(w', r) <==> Held(w, r);
      if Held(w, r) {
        var p: Pid, i: nat :| HeldAt(w, p, i, r);
      }
    }
  }

  lemma PopEntries(w: World, pid: Pid)
    requires Owned(w) && IsTracked(w, pid)
    ensures EntriesOwn(Step(w, Exit(pid)))
  {
    var w' := Step(w, Exit(pid));
    var freed := StackIn(w.tracked, pid)[0];
    assert HeldAt(w, pid, 0, freed);
    forall p: Pid, i: nat, r: Ptr | HeldAt(w', p, i, r) && r != NULL ensures r in w'.live - w'.leaked {
      PopMoves(w, w', pid, p, i, r);
    }
    forall p: Pid, i: nat, p': Pid, i': nat, r: Ptr | HeldAt(w', p, i, r) && HeldAt(w', p', i', r) && r != NULL
      ensures p == p' && i == i'
    {
      PopMoves(w, w', pid, p, i, r);
      PopMoves(w, w', pid, p', i', r);
    }
  }

  lemma HeldAfterPop(w: World, w': World, pid: Pid, r: Ptr)
    requires IsTracked(w, pid) && w'.tracked == w.tracked[pid := StackIn(w.tracked, pid)[1..]]
    ensures Held(w', r) ==> Held(w, r)
    ensures Held(w, r) && r != StackIn(w.tracked, pid)[0] ==> Held(w', r)
  {
    if Held(w', r) {
      var p: Pid, i: nat :| HeldAt(w', p, i, r);
      PopMoves(w, w', pid, p, i, r);
      assert HeldAt(w, p, if p == pid then i + 1 else i, r);
    }
    if Held(w, r) && r != StackIn(w.tracked, pid)[0] {
      var p: Pid, i: nat :| HeldAt(w, p, i, r);
      var i' := if p == pid then i - 1 else i;
      PopMoves(w, w', pid, p, i', r);
      assert HeldAt(w', p, i', r);
    }
  }

  lemma ExitKeeps(w: World, pid: Pid)
    requires Owned(w)
    ensures Owned(Step(w, Exit(pid)))
  {
    var w' := Step(w, Exit(pid));
    if IsTracked(w, pid) {
      PopEntries(w, pid);
      assert HeldAt(w, pid, 0, StackIn(w.tracked, pid)[0]);
      forall r | r in w'.live ensures Held(w', r) <==> r !in w'.leaked {
        HeldAfterPop(w, w', pid, r);
      }
    } else {
      SameEntries(w, w');
    }
  }

  lemma StepKeeps(w: World, e: Event)
    requires Owned(w) && Possible(w, e)
    ensures Owned(Step(w, e))
  {
    match e
    case Register(pid, rec, added) =>
      if rec != NULL {
        GivenKeeps(w, pid, rec, added);
      }
    case Fork(parent, child, gotLock, rec, added) =>
      var born := w.(alive := w.alive + {child});
      SameEntries(w, born);
      if gotLock && IsTracked(w, parent) {
        var fitted := if rec == NULL then born else born.(fitted := w.fitted + {rec});
        SameEntries(born, fitted);
        GivenKeeps(fitted, child, rec, added);
      }
    case Exit(pid) => ExitKeeps(w, pid);
  }

  // In every possible run, whatever fails and however often a task is registered: a live record is held by exactly one
  // entry or has leaked, never both, and entries hold no freed record.
  lemma {:induction false} OwnedInEveryRun(w: World, h: seq<Event>)
    requires Start(w) && PossibleRun(w, h)
    ensures Owned(Run(w, h))
  {
    if h != [] {
      OwnedInEveryRun(w, h[..|h| - 1]);
      StepKeeps(Run(w, h[..|h| - 1]), h[|h| - 1]);
    }
  }

  // The record an exit passes to detach is live, so nothing is freed twice, and no entry holds it afterwards; a task
  // whose attach failed is deleted without freeing anything.
  lemma ExitFreesItsOwn(w: World, h: seq<Event>, pid: Pid)
    requires Start(w) && PossibleRun(w, h) && IsTracked(Run(w, h), pid)
    ensures var before, after := Run(w, h), Step(Run(w, h), Exit(pid));
            var rec := StackIn(before.tracked, pid)[0];
            if rec == NULL then after.live == before.live
            else rec in before.live && after.live == before.live - {rec} && !Held(after, rec)
  {
    OwnedInEveryRun(w, h);
    var before, after := Run(w, h), Step(Run(w, h), Exit(pid));
    var rec := StackIn(before.tracked, pid)[0];
    assert HeldAt(before, pid, 0, rec);
    if rec != NULL && Held(after, rec) {
      var p: Pid, i: nat :| HeldAt(after, p, i, rec);
      PopMoves(before, after, pid, p, i, rec);
    }
  }

  // The event allocates a record.
  ghost predicate Allocates(w: World, e: Event) {
    match e
    case Register(_, rec, _) => rec != NULL
    case Fork(parent, _, gotLock, rec, _) => gotLock && IsTracked(w, parent) && rec != NULL
    case Exit(_) => false
  }

  // The event hands a record to detach.
  ghost predicate Detaches(w: World, e: Event) {
    e.Exit? && IsTracked(w, e.pid) && StackIn(w.tracked, e.pid)[0] != NULL
  }

  ghost function Allocations(w: World, h: seq<Event>): nat {
    if h == [] then 0
    else Allocations(w, h[..|h| - 1]) + if Allocates(Run(w, h[..|h| - 1]), h[|h| - 1]) then 1 else 0
  }

  ghost function Detachments(w: World, h: seq<Event>): nat {
    if h == [] then 0
    else Detachments(w, h[..|h| - 1]) + if Detaches(Run(w, h[..|h| - 1]), h[|h| - 1]) then 1 else 0
  }

  lemma StepConserves(w: World, e: Event)
    requires Owned(w) && Possible(w, e)
    ensures |Step(w, e).live| + (if Detaches(w, e) then 1 else 0) == |w.live| + if Allocates(w, e) then 1 else 0
  {
    if e.Exit? && IsTracked(w, e.pid) {
      assert HeldAt(w, e.pid, 0, StackIn(w.tracked, e.pid)[0]);
      assert !Detaches(w, e) ==> Step(w, e).live == w.live;
    }
  }

  // In every possible run each record allocated is still live or was handed to detach, exactly once.
  lemma {:induction false} RecordsAreConserved(w: World, h: seq<Event>)
    requires Start(w) && PossibleRun(w, h)
    ensures Allocations(w, h) == |Run(w, h).live| + Detachments(w, h)
  {
    if h != [] {
      var shorter := h[..|h| - 1];
      RecordsAreConserved(w, shorter);
      OwnedInEveryRun(w, shorter);
      StepConserves(Run(w, shorter), h[|h| - 1]);
    }
  }

  // The last event that allocated the record was a registration.
  ghost predicate RegistrationGave(w: World, h: seq<Event>, rec: Ptr) {
    h != [] &&
      var shorter, e := h[..|h| - 1], h[|h| - 1];
      if Allocates(Run(w, shorter), e) && e.rec == rec then e.Register? else RegistrationGave(w, shorter, rec)
  }

  lemma {:induction false} FittedAreLive(w: World, h: seq<Event>)
    requires Start(w) && PossibleRun(w, h)
    ensures Run(w, h).fitted <= Run(w, h).live
  {
    if h != [] {
      FittedAreLive(w, h[..|h| - 1]);
    }
  }

  lemma StepFits(w: World, e: Event, rec: Ptr)
    requires Possible(w, e) && w.fitted <= w.live && rec in Step(w, e).live
    ensures rec !in Step(w, e).fitted
            <==> if Allocates(w, e) && e.rec == rec then e.Register? else rec !in w.fitted
    ensures !(Allocates(w, e) && e.rec == rec) ==> rec in w.live
  {
  }

  // register_process leaves the clist of its record unset: in every possible run a live record is without one exactly
  // when a registration allocated it.
  lemma {:induction false} UnfittedIffRegistered(w: World, h: seq<Event>, rec: Ptr)
    requires Start(w) && PossibleRun(w, h) && rec in Run(w, h).live
    ensures rec !in Run(w, h).fitted <==> RegistrationGave(w, h, rec)
  {
    var shorter, e := h[..|h| - 1], h[|h| - 1];
    FittedAreLive(w, shorter);
    StepFits(Run(w, shorter), e, rec);
    if !(Allocates(Run(w, shorter), e) && e.rec == rec) {
      UnfittedIffRegistered(w, shorter, rec);
    }
  }

  // So an exit hands detach a record whose clist was never set exactly when a registration allocated that record.
  lemma DetachesUnfittedIff(w: World, h: seq<Event>, pid: Pid)
    requires Start(w) && PossibleRun(w, h) && Detaches(Run(w, h), Exit(pid))
    ensures var rec := StackIn(Run(w, h).tracked, pid)[0];
            rec !in Run(w, h).fitted <==> RegistrationGave(w, h, rec)
  {
    OwnedInEveryRun(w, h);
    var rec := StackIn(Run(w, h).tracked, pid)[0];
    assert HeldAt(Run(w, h), pid, 0, rec);
    UnfittedIffRegistered(w, h, rec);
  }

  // The event gives a record to a tracker_add that fails.
  ghost predicate Leaks(w: World, e: Event) {
    Allocates(w, e) && !e.added
  }

  ghost predicate LeaksIn(w: World, h: seq<Event>) {
    h != [] && (LeaksIn(w, h[..|h| - 1]) || Leaks(Run(w, h[..|h| - 1]), h[|h| - 1]))
  }

  lemma {:induction false} LeakedMeansLeaks(w: World, h: seq<Event>, rec: Ptr)
    requires Start(w) && rec in Run(w, h).leaked
    ensures LeaksIn(w, h)
  {
    if h != [] && rec in Run(w, h[..|h| - 1]).leaked {
      LeakedMeansLeaks(w, h[..|h| - 1], rec);
    }
  }

  lemma {:induction false} LeaksLeaveARecord(w: World, h: seq<Event>) returns (rec: Ptr)
    requires LeaksIn(w, h)
    ensures rec in Run(w, h).leaked
  {
    if LeaksIn(w, h[..|h| - 1]) {
      rec := LeaksLeaveARecord(w, h[..|h| - 1]);
    } else {
      rec := h[|h| - 1].rec;
    }
  }

  // Every live record is still reachable through the tracker exactly when no add that was given a record failed.
  lemma NothingLeaksIff(w: World, h: seq<Event>)
    requires Start(w) && PossibleRun(w, h)
    ensures (forall rec :: rec in Run(w, h).live ==> Held(Run(w, h), rec)) <==> !LeaksIn(w, h)
  {
    OwnedInEveryRun(w, h);
    if LeaksIn(w, h) {
      var rec := LeaksLeaveARecord(w, h);
      assert rec in Run(w, h).live && !Held(Run(w, h), rec);
    } else {
      forall rec | rec in Run(w, h).live ensures Held(Run(w, h), rec) {
        if rec in Run(w, h).leaked {
          LeakedMeansLeaks(w, h, rec);
        }
      }
    }
  }
}
