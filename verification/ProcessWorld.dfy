// What registration, fork and exit do to the tracker and to the records of the tracked tasks (ptracker.c with the hash
// tracker and the hooks of client/client_module.c).
module ProcessWorld {
  import opened TrackerSpec

  datatype Event =
    // `rec` is what kmalloc returned for the record (NULL when it failed), `added` whether tracker_add got its node,
    // `gotLock` whether the query for the parent got the tracker lock.
    | Register(pid: Pid, rec: Ptr, added: bool)
    | Fork(parent: Pid, child: Pid, gotLock: bool, rec: Ptr, added: bool)
    | Exit(pid: Pid)

  // `live` are the records allocated and not freed, `leaked` those that were handed to a tracker_add that failed, and
  // `fitted` those whose clist has been set.
  datatype World = World(tracked: Stacks, alive: set<Pid>, live: set<Ptr>, leaked: set<Ptr>, fitted: set<Ptr>)

  ghost predicate IsTracked(w: World, pid: Pid) {
    StackIn(w.tracked, pid) != []
  }

  // A record is allocated and given to tracker_add together with the task.
  ghost function Given(w: World, pid: Pid, rec: Ptr, added: bool): World {
    var live := if rec == NULL then w.live else w.live + {rec};
    if added then w.(tracked := w.tracked[pid := [rec] + StackIn(w.tracked, pid)], live := live)
    else w.(live := live, leaked := if rec == NULL then w.leaked else w.leaked + {rec})
  }

  ghost function Step(w: World, e: Event): World {
    match e
    case Register(pid, rec, added) => if rec == NULL then w else Given(w, pid, rec, added)
    case Fork(parent, child, gotLock, rec, added) =>
      var born := w.(alive := w.alive + {child});
      if !gotLock || !IsTracked(w, parent) then born
      else Given(if rec == NULL then born else born.(fitted := w.fitted + {rec}), child, rec, added)
    case Exit(pid) =>
      var gone := w.(alive := w.alive - {pid});
      if !IsTracked(w, pid) then gone
      else gone.(tracked := w.tracked[pid := StackIn(w.tracked, pid)[1..]],
                 live := w.live - {StackIn(w.tracked, pid)[0]}, fitted := w.fitted - {StackIn(w.tracked, pid)[0]})
  }

  // What the kernel guarantees: a fresh address, a living parent, a pid not in use, a living task exiting.
  ghost predicate Possible(w: World, e: Event) {
    match e
    case Register(pid, rec, _) => pid in w.alive && rec !in w.live
    case Fork(parent, child, _, rec, _) => parent in w.alive && child !in w.alive && rec !in w.live
    case Exit(pid) => pid in w.alive
  }

  // Nothing tracked, nothing allocated.
  ghost predicate Start(w: World) {
    (forall pid: Pid :: StackIn(w.tracked, pid) == []) && w.live == {} && w.leaked == {} && w.fitted == {}
  }

  ghost function Run(w: World, h: seq<Event>): World {
    if h == [] then w else Step(Run(w, h[..|h| - 1]), h[|h| - 1])
  }

  ghost predicate PossibleRun(w: World, h: seq<Event>) {
    h != [] ==>
      PossibleRun(w, h[..|h| - 1]) && Possible(Run(w, h[..|h| - 1]), h[|h| - 1])
  }
}
