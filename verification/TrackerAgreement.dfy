// When the three trackers can be exchanged for one another, and when they cannot.
module TrackerAgreement {
  import opened TaggedWord
  import opened TrackerSpec

  ghost function HashAnswers(v: Stacks, ops: seq<Op>): seq<Answer>
    decreases ops
  {
    if ops == [] then []
    else [HashStep(v, ops[0]).1] + HashAnswers(HashStep(v, ops[0]).0, ops[1..])
  }

  function MapAnswers(policy: Policy, m: map<Pid, Ptr>, ops: seq<Op>): seq<Answer>
    decreases ops
  {
    if ops == [] then []
    else [MapStep(policy, m, ops[0]).1] + MapAnswers(policy, MapStep(policy, m, ops[0]).0, ops[1..])
  }

  // Each task has been added at most once since it was last deleted.
  ghost predicate Singly(v: Stacks, m: map<Pid, Ptr>) {
    forall t: Pid :: StackIn(v, t) == if t in m then [m[t]] else []
  }

  // Every add targets a task that is not tracked, with a canonical pointer.
  predicate Admissible(m: map<Pid, Ptr>, ops: seq<Op>)
    decreases ops
  {
    ops != [] ==>
      && (ops[0].Add? ==> ops[0].task !in m && Canonical(ops[0].data))
      && Admissible(MapStep(FirstAddWins, m, ops[0]).0, ops[1..])
  }

  lemma StepAgrees(v: Stacks, m: map<Pid, Ptr>, op: Op)
    requires Singly(v, m)
    requires op.Add? ==> op.task !in m && Canonical(op.data)
    ensures MapStep(LastAddWins, m, op) == MapStep(FirstAddWins, m, op)
    ensures HashStep(v, op).1 == MapStep(FirstAddWins, m, op).1
    ensures Singly(HashStep(v, op).0, MapStep(FirstAddWins, m, op).0)
  {
    if op.Add? {
      ExtendedIsCanonical(op.data);
    }
    var v', m' := HashStep(v, op).0, MapStep(FirstAddWins, m, op).0;
    assert StackIn(v, op.task) == if op.task in m then [m[op.task]] else [];
    forall t: Pid ensures StackIn(v', t) == if t in m' then [m'[t]] else [] {
      assert StackIn(v, t) == if t in m then [m[t]] else [];
    }
  }

  // On every run whose adds target untracked tasks with canonical pointers the three trackers give the same answers.
  lemma {:induction false} TrackersAgree(v: Stacks, m: map<Pid, Ptr>, ops: seq<Op>)
    requires Singly(v, m) && Admissible(m, ops)
    ensures HashAnswers(v, ops) == MapAnswers(LastAddWins, m, ops) == MapAnswers(FirstAddWins, m, ops)
    decreases ops
  {
    if ops != [] {
      StepAgrees(v, m, ops[0]);
      TrackersAgree(HashStep(v, ops[0]).0, MapStep(FirstAddWins, m, ops[0]).0, ops[1..]);
    }
  }

  // What the three answer from now on.
  ghost predicate SameAnswers(v: Stacks, last: map<Pid, Ptr>, first: map<Pid, Ptr>, ops: seq<Op>) {
    HashAnswers(v, ops) == MapAnswers(LastAddWins, last, ops) == MapAnswers(FirstAddWins, first, ops)
  }

  predicate NoAdds(ops: seq<Op>) {
    forall i :: 0 <= i < |ops| ==> !ops[i].Add?
  }

  lemma {:induction false} NoAddsIsAdmissible(m: map<Pid, Ptr>, ops: seq<Op>)
    requires NoAdds(ops)
    ensures Admissible(m, ops)
    decreases ops
  {
    if ops != [] {
      NoAddsIsAdmissible(MapStep(FirstAddWins, m, ops[0]).0, ops[1..]);
    }
  }

  // From a state where they agree, one add keeps the trackers indistinguishable to later queries and deletions exactly
  // when the task was not tracked and the pointer is canonical.
  lemma AddKeepsAgreementIff(v: Stacks, m: map<Pid, Ptr>, task: Pid, data: Ptr)
    requires Singly(v, m)
    ensures var add := Add(task, data);
            (forall ops | NoAdds(ops) :: SameAnswers(HashStep(v, add).0, MapStep(LastAddWins, m, add).0,
                                                     MapStep(FirstAddWins, m, add).0, ops))
            <==> task !in m && Canonical(data)
  {
    var add := Add(task, data);
    var v', last, first := HashStep(v, add).0, MapStep(LastAddWins, m, add).0, MapStep(FirstAddWins, m, add).0;
    if task !in m && Canonical(data) {
      StepAgrees(v, m, add);
      forall ops | NoAdds(ops) ensures SameAnswers(v', last, first, ops) {
        NoAddsIsAdmissible(first, ops);
        TrackersAgree(v', first, ops);
      }
    } else if task in m {
      assert StackIn(v, task) == [m[task]];
      ReAddedHash(v, task, m[task], data);
      ReAddedMap(FirstAddWins, m, task, data);
      var ops := [Del(task), Query(task)];
      assert NoAdds(ops);
      assert HashAnswers(v', ops)[1] != MapAnswers(FirstAddWins, first, ops)[1];
      assert !SameAnswers(v', last, first, ops);
    } else {
      CutPointerShows(v, m, task, data);
      assert !SameAnswers(v', last, first, [QueryData(task)]);
    }
  }

  lemma AnswersOf(v: Stacks, policy: Policy, m: map<Pid, Ptr>, op: Op, rest: seq<Op>)
    ensures HashAnswers(v, [op] + rest) == [HashStep(v, op).1] + HashAnswers(HashStep(v, op).0, rest)
    ensures MapAnswers(policy, m, [op] + rest)
            == [MapStep(policy, m, op).1] + MapAnswers(policy, MapStep(policy, m, op).0, rest)
  {
    assert ([op] + rest)[1..] == rest;
  }

  // A second add of the same task, then one deletion: the hash tracker hands back the new datum and still knows the
  // task.
  lemma ReAddedHash(v: Stacks, task: Pid, prior: Ptr, data: Ptr)
    requires StackIn(v, task) == [prior]
    ensures HashAnswers(HashStep(v, Add(task, data)).0, [Del(task), Query(task)]) == [Pointer(data), Tracked(true)]
  {
    var v' := HashStep(v, Add(task, data)).0;
    assert StackIn(v', task) == [data, prior];
    var v'' := HashStep(v', Del(task)).0;
    assert StackIn(v'', task) == [prior];
    AnswersOf(v', FirstAddWins, map[], Del(task), [Query(task)]);
    assert [Del(task)] + [Query(task)] == [Del(task), Query(task)];
    AnswersOf(v'', FirstAddWins, map[], Query(task), []);
    assert [Query(task)] + [] == [Query(task)];
  }

  // The others have forgotten it: the stack word handed back the second datum, the perf event the first.
  lemma ReAddedMap(policy: Policy, m: map<Pid, Ptr>, task: Pid, data: Ptr)
    requires task in m
    ensures MapAnswers(policy, MapStep(policy, m, Add(task, data)).0, [Del(task), Query(task)])
            == [Pointer(match policy case FirstAddWins => m[task] case LastAddWins => SignExtend(data)), Tracked(false)]
  {
    var m' := MapStep(policy, m, Add(task, data)).0;
    AnswersOf(imap[], policy, m', Del(task), [Query(task)]);
    assert [Del(task)] + [Query(task)] == [Del(task), Query(task)];
    AnswersOf(imap[], policy, m' - {task}, Query(task), []);
    assert [Query(task)] + [] == [Query(task)];
  }

  // A pointer that is not canonical comes back changed from the stack word.
  lemma CutPointerShows(v: Stacks, m: map<Pid, Ptr>, task: Pid, data: Ptr)
    requires Singly(v, m) && task !in m && !Canonical(data)
    ensures NoAdds([QueryData(task)])
    ensures HashAnswers(HashStep(v, Add(task, data)).0, [QueryData(task)])
            != MapAnswers(LastAddWins, MapStep(LastAddWins, m, Add(task, data)).0, [QueryData(task)])
  {
    ExtendedIsCanonical(data);
    var v', m' := HashStep(v, Add(task, data)).0, MapStep(LastAddWins, m, Add(task, data)).0;
    assert StackIn(v, task) == [];
    assert StackIn(v', task) == [data];
    AnswersOf(v', LastAddWins, m', QueryData(task), []);
    assert [QueryData(task)] == [QueryData(task)] + [];
    assert HashAnswers(v', [QueryData(task)])[0] == Pointer(data);
    assert MapAnswers(LastAddWins, m', [QueryData(task)])[0] == Pointer(SignExtend(data));
  }
}
