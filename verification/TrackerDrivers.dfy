// The three trackers of ptracker_hash.c, ptracker_stack.c and ptracker_perf.c driven through one sequence of calls.
module TrackerDrivers {
  import HashTracker
  import PerfTracker
  import StackTracker
  import opened TaggedWord
  import opened TrackerAgreement
  import opened TrackerSpec

  // One call on the hash tracker, with memory and lock at hand.
  method CallHash(tracker: HashTracker.Tracker, op: Op) returns (answer: Answer)
    requires tracker.Valid()
    modifies tracker`trackedCount, tracker.trackedMap
    ensures tracker.Valid() && (tracker.View(), answer) == HashStep(old(tracker.View()), op)
  {
    match op
    case Add(task, data) =>
      var err := tracker.Add(task, data, true);
      answer := Status(err);
    case Del(task) =>
      var data := tracker.Del(task);
      answer := Pointer(data);
    case Query(task) =>
      var yes := tracker.Query(task, true);
      answer := Tracked(yes);
    case QueryData(task) =>
      var data := tracker.QueryData(task, true);
      answer := Pointer(data);
  }

  // One call on the stack tracker, for a task that has a stack page.
  method CallStack(tracker: StackTracker.Tracker, op: Op) returns (answer: Answer)
    requires op.task in tracker.words
    modifies tracker
    ensures tracker.words.Keys == old(tracker.words.Keys)
    ensures (tracker.View(), answer) == MapStep(LastAddWins, old(tracker.View()), op)
  {
    match op
    case Add(task, data) =>
      var err := tracker.Add(task, data);
      answer := Status(err);
    case Del(task) =>
      var data := tracker.Del(task);
      answer := Pointer(data);
    case Query(task) =>
      var yes := tracker.Query(task);
      answer := Tracked(yes);
    case QueryData(task) =>
      var data := tracker.QueryData(task);
      answer := Pointer(data);
  }

  // One call on the perf tracker, outside removals, with the kernel counter created.
  method CallPerf(tracker: PerfTracker.Tracker, op: Op) returns (answer: Answer)
    requires tracker.Valid() && !tracker.removing && op.task in tracker.events
    modifies tracker
    ensures tracker.Valid() && !tracker.removing && tracker.events.Keys == old(tracker.events.Keys)
    ensures (tracker.View(), answer) == MapStep(FirstAddWins, old(tracker.View()), op)
  {
    match op
    case Add(task, data) =>
      var err := tracker.Add(task, data, true);
      answer := Status(err);
    case Del(task) =>
      var data := tracker.Del(task);
      answer := Pointer(data);
    case Query(task) =>
      var yes := tracker.Query(task);
      answer := Tracked(yes);
    case QueryData(task) =>
      var data := tracker.QueryData(task);
      answer := Pointer(data);
  }

  // What has been answered so far and what the machine will answer from here make up all its answers.
  ghost predicate SoFarHash(v: Stacks, ops: seq<Op>, i: nat, now: Stacks, answers: seq<Answer>) {
    i <= |ops| && HashAnswers(v, ops) == answers + HashAnswers(now, ops[i..])
  }

  lemma OneMoreHash(v: Stacks, ops: seq<Op>, i: nat, now: Stacks, answers: seq<Answer>)
    requires i < |ops| && SoFarHash(v, ops, i, now, answers)
    ensures SoFarHash(v, ops, i + 1, HashStep(now, ops[i]).0, answers + [HashStep(now, ops[i]).1])
  {
    assert ops[i..][0] == ops[i] && ops[i..][1..] == ops[i + 1..];
  }

  // The three track the same tasks with the same data, and `tasks` have a stack page and an event list.
  ghost predicate Agree(hash: HashTracker.Tracker, stack: StackTracker.Tracker, perf: PerfTracker.Tracker,
                        tasks: set<Pid>)
    reads hash, hash.trackedMap, stack, perf
  {
    && hash.Valid() && perf.Valid() && !perf.removing
    && tasks <= stack.words.Keys && tasks <= perf.events.Keys
    && stack.View() == perf.View() && Singly(hash.View(), perf.View())
  }

  // The same call on all three.
  method CallAll(hash: HashTracker.Tracker, stack: StackTracker.Tracker, perf: PerfTracker.Tracker,
                 ghost tasks: set<Pid>, op: Op)
    returns (byHash: Answer, byStack: Answer, byPerf: Answer)
    requires Agree(hash, stack, perf, tasks) && op.task in tasks
    requires op.Add? ==> op.task !in perf.View() && Canonical(op.data)
    modifies hash`trackedCount, hash.trackedMap, stack, perf
    ensures Agree(hash, stack, perf, tasks)
    ensures byHash == byStack == byPerf && (hash.View(), byHash) == HashStep(old(hash.View()), op)
    ensures perf.View() == MapStep(FirstAddWins, old(perf.View()), op).0
  {
    StepAgrees(hash.View(), perf.View(), op);
    byHash := CallHash(hash, op);
    byStack := CallStack(stack, op);
    byPerf := CallPerf(perf, op);
  }

  // From there on the three implementations answer every sequence whose adds target untracked tasks with canonical
  // pointers alike, call by call.
  method RunTogether(hash: HashTracker.Tracker, stack: StackTracker.Tracker, perf: PerfTracker.Tracker,
                     ghost tasks: set<Pid>, ops: seq<Op>)
    returns (byHash: seq<Answer>, byStack: seq<Answer>, byPerf: seq<Answer>)
    requires Agree(hash, stack, perf, tasks) && Admissible(perf.View(), ops)
    requires forall op :: op in ops ==> op.task in tasks
    modifies hash`trackedCount, hash.trackedMap, stack, perf
    ensures Agree(hash, stack, perf, tasks)
    ensures byHash == byStack == byPerf == HashAnswers(old(hash.View()), ops)
  {
    byHash, byStack, byPerf := [], [], [];
    ghost var v := hash.View();
    for i := 0 to |ops|
      invariant Agree(hash, stack, perf, tasks) && Admissible(perf.View(), ops[i..])
      invariant byHash == byStack == byPerf && SoFarHash(v, ops, i, hash.View(), byHash)
    {
      assert ops[i..][0] == ops[i] && ops[i..][1..] == ops[i + 1..];
      OneMoreHash(v, ops, i, hash.View(), byHash);
      var h, s, p := CallAll(hash, stack, perf, tasks, ops[i]);
      byHash, byStack, byPerf := byHash + [h], byStack + [s], byPerf + [p];
    }
  }
}
