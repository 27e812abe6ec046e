// ptracker_stack.c: a task is tracked while the last word of its stack is a valid tagged pointer.
module StackTracker {
  import opened Errno
  import opened TaggedWord
  import opened TrackerSpec

  class Tracker {
    // The last stack word of every task that has a stack page.
    var words: map<Pid, Word>

    ghost function View(): map<Pid, Ptr>
      reads this
    {
      map t | t in words && Accepted(words[t]) :: BuildPtr(words[t])
    }

    constructor (stacks: map<Pid, Word>)
      requires forall t :: t in stacks ==> !Accepted(stacks[t])
      ensures words == stacks && View() == map[]
    {
      words := stacks;
      new;
      assert forall t :: t !in View();
    }

    // The stack words of all other tasks are what they were.
    twostate predicate OthersKept(task: Pid)
      reads this
    {
      && words.Keys == old(words.Keys)
      && forall t :: t in words && t != task ==> words[t] == old(words)[t]
    }

    // patch_thread_stack
    method PatchThreadStack(task: Pid, data: Ptr) returns (err: int)
      modifies this
      ensures OthersKept(task)
      ensures err == if task in words then 0 else -EINVAL
      ensures View() == if task in words then old(View())[task := SignExtend(data)] else old(View())
      ensures task in words ==> words[task] == Encode(data)
    {
      if task !in words {
        return -EINVAL;
      }
      RoundTrip(data);
      words := words[task := Encode(data)];
      err := 0;
    }

    // restore_thread_stack
    method RestoreThreadStack(task: Pid)
      modifies this
      ensures OthersKept(task) && View() == old(View()) - {task}
      ensures task in words ==> words[task] == 0
    {
      if task in words {
        RestoredIsRejected();
        words := words[task := 0];
      }
    }

    // get_magic_entry
    method GetMagicEntry(task: Pid) returns (found: bool)
      ensures found <==> task in View()
    {
      found := task in words && CheckCrc(words[task]) && words[task] & ENABLED_MASK != 0;
    }

    // tracker_add drops the error of patch_thread_stack.
    method Add(task: Pid, data: Ptr) returns (err: int)
      modifies this
      ensures OthersKept(task) && err == 0
      ensures task in words ==> (View(), Status(err)) == MapStep(LastAddWins, old(View()), Op.Add(task, data))
      ensures task !in words ==> View() == old(View())
    {
      var _ := PatchThreadStack(task, data);
      err := 0;
    }

    method Del(task: Pid) returns (data: Ptr)
      modifies this
      ensures OthersKept(task)
      ensures (View(), Pointer(data)) == MapStep(LastAddWins, old(View()), Op.Del(task))
    {
      data := NULL;
      var found := GetMagicEntry(task);
      if found {
        data := BuildPtr(words[task]);
        RestoreThreadStack(task);
      } else {
        assert View() - {task} == View();
      }
    }

    method Query(task: Pid) returns (yes: bool)
      ensures (View(), Tracked(yes)) == MapStep(LastAddWins, View(), Op.Query(task))
    {
      yes := GetMagicEntry(task);
    }

    method QueryData(task: Pid) returns (data: Ptr)
      ensures (View(), Pointer(data)) == MapStep(LastAddWins, View(), Op.QueryData(task))
    {
      var found := GetMagicEntry(task);
      if !found {
        return NULL;
      }
      data := BuildPtr(words[task]);
    }
  }
}
