// What the trackers answer, told from the calls made so far and not from any state: a stack of outstanding adds per
// task for the hash tracker, the first or the last add since the last deletion for the others.
module TrackerHistory {
  import opened TaggedWord
  import opened TrackerSpec

  datatype Datum = Nothing | Some(data: Ptr)

  function OrNull(datum: Datum): Ptr {
    match datum
    case Nothing => NULL
    case Some(data) => data
  }

  // ---- hash tracker ----

  // The machine after some calls on an empty tracker.
  ghost function HashAfter(ops: seq<Op>): Stacks {
    if ops == [] then imap[] else HashStep(HashAfter(ops[..|ops| - 1]), ops[|ops| - 1]).0
  }

  // Read backwards: the datum of the newest add of the task that no later deletion took, once k more are passed over.
  function Outstanding(ops: seq<Op>, task: Pid, k: nat): Datum
    decreases |ops|
  {
    if ops == [] then Nothing
    else
      var earlier := ops[..|ops| - 1];
      match ops[|ops| - 1]
      case Add(t, d) =>
        if t != task then Outstanding(earlier, task, k)
        else if k == 0 then Some(d)
        else Outstanding(earlier, task, k - 1)
      case Del(t) => Outstanding(earlier, task, if t == task then k + 1 else k)
      case _ => Outstanding(earlier, task, k)
  }

  lemma StackAfter(v: Stacks, op: Op, task: Pid)
    ensures StackIn(HashStep(v, op).0, task)
            == if op.task != task then StackIn(v, task)
               else match op
                 case Add(_, d) => [d] + StackIn(v, task)
                 case Del(_) => if StackIn(v, task) == [] then [] else StackIn(v, task)[1..]
                 case _ => StackIn(v, task)
  {
  }

  lemma {:induction false} StackIsOutstanding(ops: seq<Op>, task: Pid, k: nat)
    ensures var stack := StackIn(HashAfter(ops), task);
            Outstanding(ops, task, k) == if k < |stack| then Some(stack[k]) else Nothing
    decreases |ops|
  {
    if ops != [] {
      var earlier, op := ops[..|ops| - 1], ops[|ops| - 1];
      StackAfter(HashAfter(earlier), op, task);
      if op.task != task || op.Query? || op.QueryData? {
        StackIsOutstanding(earlier, task, k);
      } else if op.Del? {
        StackIsOutstanding(earlier, task, k + 1);
      } else if k > 0 {
        StackIsOutstanding(earlier, task, k - 1);
      }
    }
  }

  // Every call is answered from the newest outstanding add of its task.
  lemma HashAnswersFromHistory(ops: seq<Op>, op: Op)
    ensures var newest := Outstanding(ops, op.task, 0);
            HashStep(HashAfter(ops), op).1
            == match op
               case Add(_, _) => Status(0)
               case Query(_) => Tracked(newest != Nothing)
               case Del(_) => Pointer(OrNull(newest))
               case QueryData(_) => Pointer(OrNull(newest))
  {
    StackIsOutstanding(ops, op.task, 0);
  }

  // ---- stack and perf trackers ----

  function MapAfter(policy: Policy, ops: seq<Op>): map<Pid, Ptr> {
    if ops == [] then map[] else MapStep(policy, MapAfter(policy, ops[..|ops| - 1]), ops[|ops| - 1]).0
  }

  predicate Adds(ops: seq<Op>, task: Pid, i: nat) {
    i < |ops| && ops[i].Add? && ops[i].task == task
  }

  predicate Dels(ops: seq<Op>, task: Pid, i: nat) {
    i < |ops| && ops[i].Del? && ops[i].task == task
  }

  // Add number i is the one the tracker goes by: not deleted since, and either no add came later, or every add before
  // it was deleted before it.
  predicate Counts(policy: Policy, ops: seq<Op>, task: Pid, i: nat) {
    && Adds(ops, task, i)
    && (forall j: nat :: i < j < |ops| ==> !Dels(ops, task, j))
    && match policy
       case LastAddWins => forall j: nat :: i < j < |ops| ==> !Adds(ops, task, j)
       case FirstAddWins => forall j: nat :: j < i && Adds(ops, task, j) ==> DeletedBetween(ops, task, j, i)
  }

  ghost predicate InForce(policy: Policy, ops: seq<Op>, task: Pid) {
    exists i: nat :: Counts(policy, ops, task, i)
  }

  predicate DeletedBetween(ops: seq<Op>, task: Pid, j: nat, i: nat) {
    exists l: nat :: j < l < i && Dels(ops, task, l)
  }

  // One call more keeps add number i in force unless it deletes the task, or adds it again where the last add wins.
  lemma CountsLater(policy: Policy, ops: seq<Op>, task: Pid, i: nat)
    requires ops != [] && i < |ops| - 1
    ensures Counts(policy, ops, task, i)
            <==> Counts(policy, ops[..|ops| - 1], task, i) && !Dels(ops, task, |ops| - 1)
                 && (policy == LastAddWins ==> !Adds(ops, task, |ops| - 1))
  {
    var earlier := ops[..|ops| - 1];
    forall j: nat | j < |ops| - 1
      ensures (Adds(ops, task, j) <==> Adds(earlier, task, j)) && (Dels(ops, task, j) <==> Dels(earlier, task, j))
    {
      assert earlier[j] == ops[j];
    }
    forall j: nat | j < i ensures DeletedBetween(ops, task, j, i) <==> DeletedBetween(earlier, task, j, i) {
      if DeletedBetween(ops, task, j, i) {
        var l: nat :| j < l < i && Dels(ops, task, l);
        assert Dels(earlier, task, l);
      }
      if DeletedBetween(earlier, task, j, i) {
        var l: nat :| j < l < i && Dels(earlier, task, l);
        assert Dels(ops, task, l);
      }
    }
  }

  // A task the machine does not know has had all its adds deleted.
  ghost predicate AllDeleted(ops: seq<Op>, task: Pid) {
    forall j: nat :: Adds(ops, task, j) ==> DeletedBetween(ops, task, j, |ops|)
  }

  lemma DeletedLater(ops: seq<Op>, task: Pid, j: nat)
    requires ops != [] && j < |ops| - 1
    ensures DeletedBetween(ops, task, j, |ops|)
            <==> DeletedBetween(ops[..|ops| - 1], task, j, |ops| - 1) || Dels(ops, task, |ops| - 1)
    ensures DeletedBetween(ops, task, j, |ops| - 1) <==> DeletedBetween(ops[..|ops| - 1], task, j, |ops| - 1)
  {
    var earlier, n := ops[..|ops| - 1], |ops| - 1;
    forall l: nat | l < n ensures Dels(ops, task, l) <==> Dels(earlier, task, l) {
      assert earlier[l] == ops[l];
    }
    if l: nat :| j < l < n && Dels(ops, task, l) {
      assert Dels(earlier, task, l);
    }
    if l: nat :| j < l < n && Dels(earlier, task, l) {
      assert Dels(ops, task, l);
    }
  }

  lemma {:induction false} UnknownMeansDeleted(policy: Policy, ops: seq<Op>, task: Pid)
    requires task !in MapAfter(policy, ops)
    ensures AllDeleted(ops, task)
    decreases |ops|
  {
    if ops != [] {
      var earlier, n := ops[..|ops| - 1], |ops| - 1;
      if task !in MapAfter(policy, earlier) {
        UnknownMeansDeleted(policy, earlier, task);
      }
      forall j: nat | Adds(ops, task, j) ensures DeletedBetween(ops, task, j, |ops|) {
        assert j < n;
        assert Adds(earlier, task, j) by {
          assert earlier[j] == ops[j];
        }
        DeletedLater(ops, task, j);
      }
    }
  }

  // The add just made is in force exactly when the machine had forgotten the task, or the last add wins.
  lemma NewAddCounts(policy: Policy, ops: seq<Op>, task: Pid)
    requires ops != [] && Adds(ops, task, |ops| - 1)
    requires task in MapAfter(policy, ops[..|ops| - 1]) ==> InForce(policy, ops[..|ops| - 1], task)
    ensures Counts(policy, ops, task, |ops| - 1)
            <==> policy == LastAddWins || task !in MapAfter(policy, ops[..|ops| - 1])
  {
    var earlier, n := ops[..|ops| - 1], |ops| - 1;
    if policy == FirstAddWins {
      if task in MapAfter(policy, earlier) {
        var i: nat :| Counts(policy, earlier, task, i);
        assert earlier[i] == ops[i];
        assert Adds(ops, task, i);
        DeletedLater(ops, task, i);
        assert !DeletedBetween(earlier, task, i, n);
      } else {
        UnknownMeansDeleted(policy, earlier, task);
        forall j: nat | j < n && Adds(ops, task, j) ensures DeletedBetween(ops, task, j, n) {
          assert earlier[j] == ops[j];
          assert Adds(earlier, task, j);
          DeletedLater(ops, task, j);
        }
      }
    }
  }

  // A task is tracked exactly when some add of it is in force.
  lemma {:induction false} TrackedIffAddCounts(policy: Policy, ops: seq<Op>, task: Pid)
    ensures task in MapAfter(policy, ops) <==> InForce(policy, ops, task)
    decreases |ops|
  {
    if ops != [] {
      var earlier, n := ops[..|ops| - 1], |ops| - 1;
      TrackedIffAddCounts(policy, earlier, task);
      if Adds(ops, task, n) {
        NewAddCounts(policy, ops, task);
      }
      if i: nat :| Counts(policy, earlier, task, i) {
        CountsLater(policy, ops, task, i);
      }
      if i: nat :| Counts(policy, ops, task, i) && i < n {
        CountsLater(policy, ops, task, i);
      }
    }
  }

  // And the datum remembered is that add's, whole in the perf event and made canonical by the stack word.
  lemma {:induction false} DatumOfAdd(policy: Policy, ops: seq<Op>, task: Pid, i: nat)
    requires Counts(policy, ops, task, i)
    ensures task in MapAfter(policy, ops) && MapAfter(policy, ops)[task] == Kept(policy, ops[i].data)
    decreases |ops|
  {
    var earlier, n := ops[..|ops| - 1], |ops| - 1;
    TrackedIffAddCounts(policy, earlier, task);
    if i < n {
      assert earlier[i] == ops[i];
      CountsLater(policy, ops, task, i);
      DatumOfAdd(policy, earlier, task, i);
    } else {
      NewAddCounts(policy, ops, task);
    }
  }

  // Every call is answered from the add in force.
  lemma MapAnswersFromHistory(policy: Policy, ops: seq<Op>, op: Op)
    ensures var answer := MapStep(policy, MapAfter(policy, ops), op).1;
            match op
            case Add(_, _) => answer == Status(0)
            case Query(_) => answer == Tracked(InForce(policy, ops, op.task))
            case _ =>
              && (forall i: nat :: Counts(policy, ops, op.task, i) ==>
                    answer == Pointer(Kept(policy, ops[i].data)))
              && (!InForce(policy, ops, op.task) ==> answer == Pointer(NULL))
  {
    TrackedIffAddCounts(policy, ops, op.task);
    forall i: nat | Counts(policy, ops, op.task, i)
      ensures op.task in MapAfter(policy, ops)
              && MapAfter(policy, ops)[op.task] == Kept(policy, ops[i].data)
    {
      DatumOfAdd(policy, ops, op.task, i);
    }
  }
}
