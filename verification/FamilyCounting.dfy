// The counters of client_module.c over the tracker of ptracker.c: which tasks are counted is decided by fork, exit and
// registration.
module FamilyCounting {
  import opened Genealogy
  import opened ProcessWorld
  import opened TrackerSpec
  import G = PmcGating

  // One thing that happens on the machine: a context switch, or an event of the process world.
  datatype Joint = Switched(cpu: nat, next: Pid) | Happened(e: Event)

  function Worlds(js: seq<Joint>): seq<Event> {
    if js == [] then []
    else
      var front, last := js[..|js| - 1], js[|js| - 1];
      if last.Happened? then Worlds(front) + [last.e] else Worlds(front)
  }

  // What the event does to membership: nothing when it fails.
  function Effect(e: Event): seq<G.Event> {
    match e
    case Register(pid, _, _) => if Registers(e, pid) then [G.Register(pid)] else []
    case Fork(parent, child, _, _, _) => if Forks(e, parent, child) then [G.Fork(parent, child)] else []
    case Exit(pid) => [G.Exit(pid)]
  }

  function Gating(js: seq<Joint>): seq<G.Event> {
    if js == [] then []
    else
      var front, last := js[..|js| - 1], js[|js| - 1];
      Gating(front) + if last.Happened? then Effect(last.e) else [G.Switch(last.cpu, last.next)]
  }

  // The gating goes by exactly the tasks the tracker knows.
  ghost predicate Mirrors(s: G.State, w: World) {
    forall p: Pid :: p in s.tracked <==> IsTracked(w, p)
  }

  lemma {:induction false} RunAppend(s: G.State, a: seq<G.Event>, b: seq<G.Event>)
    requires s.Valid()
    ensures G.Run(s, a + b) == G.Run(G.Run(s, a), b)
    decreases a
  {
    if a == [] {
      assert a + b == b;
    } else {
      assert (a + b)[1..] == a[1..] + b;
      RunAppend(G.Step(s, a[0]), a[1..], b);
    }
  }

  lemma StepMirrors(s: G.State, w: World, e: Event)
    requires s.Valid() && Mirrors(s, w) && OneEntryEach(w)
    ensures Mirrors(G.Run(s, Effect(e)), Step(w, e))
  {
    var effect := Effect(e);
    assert effect != [] ==> G.Run(s, effect) == G.Step(s, effect[0]);
  }

  // Along every run whose registrations target untracked tasks, with switches anywhere in between.
  lemma {:induction false} GatingMirrorsTracker(s: G.State, w: World, js: seq<Joint>)
    requires s.Valid() && s.tracked == {} && Start(w)
    requires PossibleRun(w, Worlds(js)) && RegistersOnce(w, Worlds(js))
    ensures Mirrors(G.Run(s, Gating(js)), Run(w, Worlds(js)))
    decreases |js|
  {
    if js != [] {
      var front, last := js[..|js| - 1], js[|js| - 1];
      var h := Worlds(front);
      if last.Happened? {
        assert (h + [last.e])[..|h|] == h;
        GatingMirrorsTracker(s, w, front);
        forall p: Pid ensures |StackIn(Run(w, h).tracked, p)| <= 1 {
          TrackedOnce(w, h, p);
        }
        StepMirrors(G.Run(s, Gating(front)), Run(w, h), last.e);
        RunAppend(s, Gating(front), Effect(last.e));
      } else {
        GatingMirrorsTracker(s, w, front);
        RunAppend(s, Gating(front), [G.Switch(last.cpu, last.next)]);
      }
    }
  }

  // With the filter on, a CPU that runs a registered task or a descendant of one, forked and not exited since, counts.
  lemma FamilyIsCounted(s: G.State, w: World, js: seq<Joint>, cpu: nat)
    requires s.Valid() && s.filter && s.tracked == {} && Start(w)
    requires PossibleRun(w, Worlds(js)) && RegistersOnce(w, Worlds(js)) && G.OffCpuRun(s, Gating(js))
    requires cpu < |G.Run(s, Gating(js)).current|
    requires InFamily(Worlds(js), G.Run(s, Gating(js)).current[cpu])
    ensures G.Run(s, Gating(js)).enabled[cpu]
  {
    var p := G.Run(s, Gating(js)).current[cpu];
    TrackedIsFamily(w, Worlds(js), p);
    GatingMirrorsTracker(s, w, js);
    G.TrackedTasksAreCounted(s, Gating(js));
  }
}
