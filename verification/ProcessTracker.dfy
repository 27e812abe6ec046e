// ptracker.c and the attach and detach hooks of client/client_module.c, over the hash tracker.
module ProcessTracker {
  import opened Errno
  import HashTracker
  import opened ProcessWorld
  import opened TrackerSpec

  // Deleting the task from the tracker and freeing what comes back is the exit step.
  lemma ExitIsDelAndFree(w: World, pid: Pid, after: Stacks, data: Ptr)
    requires (after, Pointer(data)) == HashStep(w.tracked, Op.Del(pid)) && NULL !in w.live + w.fitted
    ensures Step(w, Exit(pid))
            == ProcessWorld.World(after, w.alive - {pid}, if data == NULL then w.live else w.live - {data}, w.leaked,
                                  if data == NULL then w.fitted else w.fitted - {data})
  {
    if data == NULL {
      assert w.live - {NULL} == w.live && w.fitted - {NULL} == w.fitted;
    }
  }

  // Attaching a record and adding the child is the fork step of a tracked parent.
  lemma ForkIsAttachAndAdd(w: World, parent: Pid, child: Pid, rec: Ptr, gotMemory: bool, after: Stacks)
    requires IsTracked(w, parent)
    requires after == if gotMemory then HashStep(w.tracked, Op.Add(child, rec)).0 else w.tracked
    ensures Step(w, Fork(parent, child, true, rec, gotMemory))
            == ProcessWorld.World(after, w.alive + {child}, if rec == NULL then w.live else w.live + {rec},
                                  if !gotMemory && rec != NULL then w.leaked + {rec} else w.leaked,
                                  if rec == NULL then w.fitted else w.fitted + {rec})
  {
  }

  lemma ForkUnseen(w: World, parent: Pid, child: Pid, gotLock: bool, rec: Ptr, gotMemory: bool)
    requires !gotLock || !IsTracked(w, parent)
    ensures Step(w, Fork(parent, child, gotLock, rec, gotMemory)) == w.(alive := w.alive + {child})
  {
  }

  class ProcessTracker {
    const tracker: HashTracker.Tracker
    // Records allocated and not freed, and those whose clist has been set.
    var live: set<Ptr>
    var fitted: set<Ptr>
    // The tasks that exist, and the records no tracker entry was made for.
    ghost var alive: set<Pid>
    ghost var leaked: set<Ptr>

    ghost predicate Valid()
      reads this, tracker, tracker.trackedMap
    {
      tracker.Valid() && NULL !in live + fitted
    }

    ghost function World(): World
      requires Valid()
      reads this, tracker, tracker.trackedMap
    {
      ProcessWorld.World(tracker.View(), alive, live, leaked, fitted)
    }

    constructor (ghost tasks: set<Pid>)
      ensures Valid() && fresh(tracker) && fresh(tracker.trackedMap) && Start(World()) && World().alive == tasks
    {
      tracker := new HashTracker.Tracker();
      live := {};
      fitted := {};
      alive := tasks;
      leaked := {};
    }

    // client_hook_on_attach; `rec` is what kmalloc returned.
    method OnAttach(rec: Ptr) returns (data: Ptr)
      requires rec !in live
      modifies this`live, this`fitted
      ensures data == rec && live == if rec == NULL then old(live) else old(live) + {rec}
      ensures fitted == if rec == NULL then old(fitted) else old(fitted) + {rec}
    {
      if rec == NULL {
        return NULL;
      }
      live := live + {rec};
      fitted := fitted + {rec};
      data := rec;
    }

    // client_hook_on_detach
    method OnDetach(data: Ptr)
      modifies this`live, this`fitted
      ensures live == if data == NULL then old(live) else old(live) - {data}
      ensures fitted == if data == NULL then old(fitted) else old(fitted) - {data}
    {
      if data != NULL {
        live := live - {data};
        fitted := fitted - {data};
      }
    }

    // register_process: unlike an attach it sets no clist.
    method RegisterProcess(pid: Pid, rec: Ptr, gotMemory: bool) returns (err: int)
      requires Valid() && Possible(World(), Register(pid, rec, gotMemory))
      modifies this`live, this`leaked, tracker, tracker.trackedMap
      ensures Valid() && World() == Step(old(World()), Register(pid, rec, gotMemory))
      ensures err == if rec != NULL && gotMemory then 0 else -ENOMEM
    {
      if rec == NULL {
        return -ENOMEM;
      }
      live := live + {rec};
      err := tracker.Add(pid, rec, gotMemory);
      if !gotMemory {
        leaked := leaked + {rec};
      }
    }

    // The call `tracker_add(child, hook_on_attach(NULL))`, whose error nobody looks at.
    method AddChild(child: Pid, rec: Ptr, gotMemory: bool)
      requires Valid() && rec !in live
      modifies this`live, this`fitted, this`leaked, tracker, tracker.trackedMap
      ensures Valid()
      ensures tracker.View() == if gotMemory then HashStep(old(tracker.View()), Op.Add(child, rec)).0
                                else old(tracker.View())
      ensures live == if rec == NULL then old(live) else old(live) + {rec}
      ensures fitted == if rec == NULL then old(fitted) else old(fitted) + {rec}
      ensures leaked == if !gotMemory && rec != NULL then old(leaked) + {rec} else old(leaked)
    {
      var data := OnAttach(rec);
      var _ := tracker.Add(child, data, gotMemory);
      if !gotMemory && rec != NULL {
        leaked := leaked + {rec};
      }
    }

    // track_fork_wrapper; `gotLock` is the outcome of the trylock in query_tracker.
    method TrackFork(parent: Pid, child: Pid, gotLock: bool, rec: Ptr, gotMemory: bool)
      requires Valid() && Possible(World(), Fork(parent, child, gotLock, rec, gotMemory))
      modifies this, tracker, tracker.trackedMap
      ensures Valid() && World() == Step(old(World()), Fork(parent, child, gotLock, rec, gotMemory))
    {
      ghost var w := World();
      var tracked := tracker.Query(parent, gotLock);
      assert tracked <==> gotLock && IsTracked(w, parent);
      alive := alive + {child};
      if tracked {
        AddChild(child, rec, gotMemory);
        ForkIsAttachAndAdd(w, parent, child, rec, gotMemory, tracker.View());
      } else {
        ForkUnseen(w, parent, child, gotLock, rec, gotMemory);
      }
    }

    // track_exit_wrapper
    method TrackExit(p: Pid)
      requires Valid() && Possible(World(), Exit(p))
      modifies this, tracker, tracker.trackedMap
      ensures Valid() && World() == Step(old(World()), Exit(p))
    {
      ghost var w := World();
      alive := alive - {p};
      var data := tracker.Del(p);
      ExitIsDelAndFree(w, p, tracker.View(), data);
      OnDetach(data);
    }
  }
}
