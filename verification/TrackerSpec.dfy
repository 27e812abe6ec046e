// What the three process trackers mean, as state machines over the same operations.
module TrackerSpec {
  import opened TaggedWord

  type Pid = int
  type Ptr = Word

  const NULL: Ptr := 0

  datatype Op = Add(task: Pid, data: Ptr) | Del(task: Pid) | Query(task: Pid) | QueryData(task: Pid)
  datatype Answer = Status(err: int) | Tracked(yes: bool) | Pointer(data: Ptr)

  // ---- hash tracker: a stack of data per pid ----

  type Stacks = imap<Pid, seq<Ptr>>

  function StackIn(v: Stacks, task: Pid): seq<Ptr> {
    if task in v then v[task] else []
  }

  ghost function HashStep(v: Stacks, op: Op): (Stacks, Answer) {
    var stack := StackIn(v, op.task);
    match op
    case Add(t, d) => (v[t := [d] + stack], Status(0))
    case Del(t) => if stack == [] then (v, Pointer(NULL)) else (v[t := stack[1..]], Pointer(stack[0]))
    case Query(t) => (v, Tracked(stack != []))
    case QueryData(t) => (v, Pointer(if stack == [] then NULL else stack[0]))
  }

  // ---- the other two: one datum per task ----

  datatype Policy = FirstAddWins | LastAddWins

  // What is remembered of a datum: the stack word keeps 48 bits of it, the perf event all.
  function Kept(policy: Policy, d: Ptr): Ptr {
    match policy
    case FirstAddWins => d
    case LastAddWins => SignExtend(d)
  }

  function MapStep(policy: Policy, m: map<Pid, Ptr>, op: Op): (map<Pid, Ptr>, Answer) {
    var data := if op.task in m then m[op.task] else NULL;
    match op
    case Add(t, d) =>
      (if policy == FirstAddWins && t in m then m else m[t := Kept(policy, d)], Status(0))
    case Del(t) => (m - {t}, Pointer(data))
    case Query(t) => (m, Tracked(t in m))
    case QueryData(t) => (m, Pointer(data))
  }
}
