// ptracker_perf.c: a task is tracked while it owns a dummy perf event, whose private pointer is the task's data.
module PerfTracker {
  import opened TrackerSpec

  datatype PerfEvent = PerfEvent(pmuPrivate: Ptr)

  // The datum of each task that owns an event.
  ghost function ViewOf(events: map<Pid, seq<PerfEvent>>): map<Pid, Ptr> {
    map t | t in events && events[t] != [] :: events[t][0].pmuPrivate
  }

  // A task that loses its first event is seen with the second, if it has one.
  lemma FirstGone(before: map<Pid, seq<PerfEvent>>, task: Pid)
    requires task in before && before[task] != []
    ensures ViewOf(before[task := before[task][1..]])
            == if |before[task]| == 1 then ViewOf(before) - {task}
               else ViewOf(before)[task := before[task][1].pmuPrivate]
  {
    var after := before[task := before[task][1..]];
    if |before[task]| == 1 {
      assert ViewOf(after) == ViewOf(before) - {task};
    } else {
      assert ViewOf(after) == ViewOf(before)[task := before[task][1].pmuPrivate];
    }
  }

  class Tracker {
    // perf_event_list of every task, oldest event first. The first one is taken for the tracker's.
    var events: map<Pid, seq<PerfEvent>>
    // pcpu_removing_event of the running CPU.
    var removing: bool

    // No task owns two events.
    ghost predicate Valid()
      reads this
    {
      forall t :: t in events ==> |events[t]| <= 1
    }

    ghost function View(): map<Pid, Ptr>
      reads this
    {
      ViewOf(events)
    }

    constructor (tasks: set<Pid>)
      ensures Valid() && !removing && events.Keys == tasks && View() == map[]
    {
      events := map t | t in tasks :: [];
      removing := false;
    }

    // The lists of all other tasks are what they were.
    twostate predicate OthersKept(task: Pid)
      reads this
    {
      && events.Keys == old(events.Keys)
      && forall t :: t in events && t != task ==> events[t] == old(events)[t]
    }

    // __get_task_event: an interrupt that preempts a removal sees no event.
    method GetTaskEvent(task: Pid) returns (found: bool)
      requires task in events
      ensures found <==> !removing && task in View()
    {
      if removing {
        return false;
      }
      found := events[task] != [];
    }

    // create_task_data; `created` says whether the kernel counter could be created. The event goes to the end of the
    // list, so it is the one later calls see only when the list was empty.
    method CreateTaskData(task: Pid, data: Ptr, created: bool) returns (ok: bool)
      requires task in events
      modifies this`events
      ensures OthersKept(task) && ok == created
      ensures events[task] == if created then old(events)[task] + [PerfEvent(data)] else old(events)[task]
      ensures View() == if created && old(events)[task] == [] then old(View())[task := data] else old(View())
    {
      if !created {
        return false;
      }
      var event := PerfEvent(data);
      events := events[task := events[task] + [event]];
      ok := true;
    }

    // destroy_task_data: the flag is up from before the event is touched until it has left the list.
    method DestroyTaskData(task: Pid)
      requires task in events
      modifies this
      ensures OthersKept(task) && !removing
      ensures events[task] == if old(events)[task] == [] then [] else old(events)[task][1..]
      ensures View() == if |old(events)[task]| <= 1 then old(View()) - {task}
                        else old(View())[task := old(events)[task][1].pmuPrivate]
    {
      removing := true;
      if events[task] != [] {
        if events[task][0].pmuPrivate != NULL {
          events := events[task := events[task][0 := PerfEvent(NULL)]];
        }
        events := events[task := events[task][1..]];
        assert events == old(events)[task := old(events)[task][1..]];
        FirstGone(old(events), task);
      }
      removing := false;
    }

    // During a removal the event of the task is not seen, and a second one is appended.
    method Add(task: Pid, data: Ptr, created: bool) returns (err: int)
      requires task in events
      modifies this`events
      ensures OthersKept(task) && err == 0
      ensures events[task] == if created && (removing || old(events)[task] == [])
                              then old(events)[task] + [PerfEvent(data)] else old(events)[task]
      ensures created ==> (View(), Status(err)) == MapStep(FirstAddWins, old(View()), Op.Add(task, data))
      ensures !created ==> View() == old(View())
      ensures old(Valid()) ==> (Valid() <==> !(created && removing && task in old(View())))
    {
      var found := GetTaskEvent(task);
      if !found {
        var _ := CreateTaskData(task, data, created);
      }
      err := 0;
    }

    // During a removal nothing is found and nothing changes; a second event of the task takes the place of the first.
    method Del(task: Pid) returns (data: Ptr)
      requires task in events
      modifies this
      ensures OthersKept(task) && removing == old(removing)
      ensures removing ==> data == NULL && events == old(events)
      ensures !removing ==> data == if task in old(View()) then old(View())[task] else NULL
      ensures !removing ==> events[task] == if old(events)[task] == [] then [] else old(events)[task][1..]
      ensures !removing && |old(events)[task]| <= 1 ==>
                (View(), Pointer(data)) == MapStep(FirstAddWins, old(View()), Op.Del(task))
      ensures old(Valid()) ==> Valid()
    {
      data := NULL;
      var found := GetTaskEvent(task);
      if found {
        data := events[task][0].pmuPrivate;
        DestroyTaskData(task);
      } else if !removing {
        assert View() - {task} == View();
      }
    }

    method Query(task: Pid) returns (yes: bool)
      requires task in events
      ensures !removing ==> (View(), Tracked(yes)) == MapStep(FirstAddWins, View(), Op.Query(task))
      ensures removing ==> !yes
    {
      yes := GetTaskEvent(task);
    }

    method QueryData(task: Pid) returns (data: Ptr)
      requires task in events
      ensures !removing ==> (View(), Pointer(data)) == MapStep(FirstAddWins, View(), Op.QueryData(task))
      ensures removing ==> data == NULL
    {
      var found := GetTaskEvent(task);
      if !found {
        return NULL;
      }
      data := events[task][0].pmuPrivate;
    }
  }
}
