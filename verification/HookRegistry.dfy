// hooks.c and the registration loops of system_hook_tracep.c.
module HookRegistry {
  import opened Errno
  import opened SystemHook

  // A wrapper function, or NULL.
  type Func = nat
  const NULL_FUNC: Func := 0

  datatype HookFunc = HookFunc(func: Func, hook: HookType)

  // The tracepoint names get_tp_name returns: sched_switch, sched_process_exec, _exit, _fork, _free, and "".
  datatype TpName = SchedSwitch | ProcessExec | ProcessExit | ProcessFork | ProcessFree | NoName

  // A tracepoint is known by its name.
  datatype Hook = Hook(name: TpName, func: Func, hook: HookType, tp: TpName)

  function GetTpName(hook: HookType): TpName {
    match hook
    case SCHED_IN => SchedSwitch
    case PROC_EXEC => ProcessExec
    case PROC_EXIT => ProcessExit
    case PROC_FORK => ProcessFork
    case PROC_FREE => ProcessFree
    case _ => NoName
  }

  // The hooks a tracepoint serves, read the other way round: switching in, exec, exit, fork and free have one each, and
  // the name no tracepoint has is left for the rest.
  function ServedBy(name: TpName): set<HookType> {
    match name
    case SchedSwitch => {SCHED_IN}
    case ProcessExec => {PROC_EXEC}
    case ProcessExit => {PROC_EXIT}
    case ProcessFork => {PROC_FORK}
    case ProcessFree => {PROC_FREE}
    case NoName => {SCHED_OUT, ON_ATTACH, ON_DETACH}
  }

  lemma NameServes(name: TpName, hook: HookType)
    ensures GetTpName(hook) == name <==> hook in ServedBy(name)
  {
  }

  function HookFor(entry: HookFunc): Hook {
    Hook(GetTpName(entry.hook), entry.func, entry.hook, GetTpName(entry.hook))
  }

  // What the kernel answers to one registration.
  datatype Luck = Luck(gotMemory: bool, probeAccepted: bool)

  // The outcome register_hook reports.
  function Verdict(tracepoints: set<TpName>, entry: HookFunc, luck: Luck): int {
    if entry.func == NULL_FUNC then -EINVAL
    else if !luck.gotMemory then -ENOMEM
    else if GetTpName(entry.hook) !in tracepoints || !luck.probeAccepted then -ENXIO
    else 0
  }

  // The first n hooks of a table as registration leaves them in the list: newest first.
  function Stacked(table: seq<HookFunc>, n: nat): seq<Hook>
    requires n <= |table|
  {
    if n == 0 then [] else [HookFor(table[n - 1])] + Stacked(table, n - 1)
  }

  // The probes of the first n entries.
  function ProbesOf(table: seq<HookFunc>, n: nat): multiset<(TpName, Func)>
    requires n <= |table|
  {
    if n == 0 then multiset{} else ProbesOf(table, n - 1) + multiset{ProbeOf(table[n - 1])}
  }

  function ProbeOf(entry: HookFunc): (TpName, Func) {
    (GetTpName(entry.hook), entry.func)
  }

  // The list without the first occurrence of a hook.
  function RemoveFirst(list: seq<Hook>, hook: Hook): seq<Hook> {
    if list == [] then []
    else if list[0] == hook then list[1..]
    else [list[0]] + RemoveFirst(list[1..], hook)
  }

  // Removing the hooks of a table in table order, from entry i on.
  function RemoveAll(list: seq<Hook>, table: seq<HookFunc>, i: nat): seq<Hook>
    requires i <= |table|
    decreases |table| - i
  {
    if i == |table| then list else RemoveAll(RemoveFirst(list, HookFor(table[i])), table, i + 1)
  }

  // Every hook of the table from entry i on is in the list when its turn comes.
  predicate Removable(list: seq<Hook>, table: seq<HookFunc>, i: nat)
    requires i <= |table|
    decreases |table| - i
  {
    i < |table| ==> HookFor(table[i]) in list && Removable(RemoveFirst(list, HookFor(table[i])), table, i + 1)
  }

  // Every listed hook is the one registration makes from its type and function.
  predicate WellMade(list: seq<Hook>) {
    forall i :: 0 <= i < |list| ==> list[i] == HookFor(HookFunc(list[i].func, list[i].hook))
  }

  lemma {:induction false} RemoveFirstAt(list: seq<Hook>, i: nat)
    requires i < |list| && forall k :: 0 <= k < i ==> list[k] != list[i]
    ensures RemoveFirst(list, list[i]) == list[..i] + list[i + 1..]
    decreases i
  {
    if i > 0 {
      RemoveFirstAt(list[1..], i - 1);
      assert list[1..][..i - 1] == list[..i][1..];
      assert list[..i] == [list[0]] + list[1..][..i - 1];
    }
  }

  // ---- fini undoes init, although it removes in the opposite order to a stack ----

  lemma {:induction false} RemoveFromFront(front: seq<Hook>, rest: seq<Hook>, hook: Hook)
    requires hook in front
    ensures RemoveFirst(front + rest, hook) == RemoveFirst(front, hook) + rest
    ensures multiset(RemoveFirst(front, hook)) == multiset(front) - multiset{hook}
  {
    assert front == [front[0]] + front[1..];
    assert (front + rest)[1..] == front[1..] + rest;
    if front[0] != hook {
      RemoveFromFront(front[1..], rest, hook);
    }
  }

  function HooksFrom(table: seq<HookFunc>, i: nat): multiset<Hook>
    requires i <= |table|
    decreases |table| - i
  {
    if i == |table| then multiset{} else multiset{HookFor(table[i])} + HooksFrom(table, i + 1)
  }

  // Whatever order the table's hooks stand in before the rest of the list, and however often a pair repeats, removing
  // them first match by first match leaves the rest.
  lemma {:induction false} RemoveAllLeavesRest(front: seq<Hook>, rest: seq<Hook>, table: seq<HookFunc>, i: nat)
    requires i <= |table| && multiset(front) == HooksFrom(table, i)
    ensures Removable(front + rest, table, i) && RemoveAll(front + rest, table, i) == rest
    decreases |table| - i
  {
    if i == |table| {
      assert front == [];
    } else {
      var hook := HookFor(table[i]);
      assert hook in multiset(front);
      RemoveFromFront(front, rest, hook);
      RemoveAllLeavesRest(RemoveFirst(front, hook), rest, table, i + 1);
    }
  }

  lemma {:induction false} StackedHolds(table: seq<HookFunc>, n: nat)
    requires n <= |table|
    ensures multiset(Stacked(table, n)) + HooksFrom(table, n) == HooksFrom(table, 0)
  {
    if n > 0 {
      StackedHolds(table, n - 1);
    }
  }

  // Registering a table and then unregistering it in table order restores the list as a sequence, for a table of any
  // length, with repeated pairs, and whatever was listed before.
  lemma InitThenFini(table: seq<HookFunc>, list: seq<Hook>)
    ensures Removable(Stacked(table, |table|) + list, table, 0)
    ensures RemoveAll(Stacked(table, |table|) + list, table, 0) == list
  {
    StackedHolds(table, |table|);
    RemoveAllLeavesRest(Stacked(table, |table|), list, table, 0);
  }

  // Linking in one entry more.
  lemma StackedStep(table: seq<HookFunc>, i: nat, list: seq<Hook>)
    requires i < |table|
    ensures Stacked(table, i + 1) + list == [HookFor(table[i])] + (Stacked(table, i) + list)
    ensures RemoveFirst(Stacked(table, i + 1) + list, HookFor(table[i])) == Stacked(table, i) + list
    ensures HookFor(table[i]) in Stacked(table, i + 1) + list
  {
    var longer := Stacked(table, i + 1) + list;
    assert longer == [HookFor(table[i])] + (Stacked(table, i) + list);
    assert longer[0] == HookFor(table[i]) && longer[1..] == Stacked(table, i) + list;
  }

  lemma ProbesStep(table: seq<HookFunc>, i: nat, before: multiset<(TpName, Func)>)
    requires i < |table|
    ensures before + ProbesOf(table, i + 1) - multiset{ProbeOf(table[i])} == before + ProbesOf(table, i)
  {
  }

  // The wrappers of the module and its table hook_funcs.
  const WHOOK_SCHED_IN: Func := 1
  const WHOOK_PROC_FORK: Func := 2
  const WHOOK_PROC_EXIT: Func := 3

  function HookFuncs(): seq<HookFunc> {
    [HookFunc(WHOOK_SCHED_IN, SCHED_IN), HookFunc(WHOOK_PROC_FORK, PROC_FORK), HookFunc(WHOOK_PROC_EXIT, PROC_EXIT)]
  }

  // A loaded module sits on the switch, fork and exit tracepoints, each with the wrapper of that event.
  lemma ModuleProbes()
    ensures ProbesOf(HookFuncs(), |HookFuncs()|)
            == multiset{(SchedSwitch, WHOOK_SCHED_IN), (ProcessFork, WHOOK_PROC_FORK), (ProcessExit, WHOOK_PROC_EXIT)}
  {
    var table := HookFuncs();
    assert ProbesOf(table, 1) == multiset{(SchedSwitch, WHOOK_SCHED_IN)};
    assert ProbesOf(table, 2) == multiset{(SchedSwitch, WHOOK_SCHED_IN), (ProcessFork, WHOOK_PROC_FORK)};
  }

  // Which tables register as a whole.
  lemma AllRegisterIff(tracepoints: set<TpName>, table: seq<HookFunc>, luck: seq<Luck>)
    requires |luck| == |table|
    ensures (forall k :: 0 <= k < |table| ==> Verdict(tracepoints, table[k], luck[k]) == 0)
            <==> forall k :: 0 <= k < |table| ==>
                   table[k].func != NULL_FUNC && luck[k].gotMemory && luck[k].probeAccepted
                   && GetTpName(table[k].hook) in tracepoints
  {
    if forall k :: 0 <= k < |table| ==> Verdict(tracepoints, table[k], luck[k]) == 0 {
      forall k | 0 <= k < |table|
        ensures table[k].func != NULL_FUNC && luck[k].gotMemory && luck[k].probeAccepted
                && GetTpName(table[k].hook) in tracepoints
      {
        assert Verdict(tracepoints, table[k], luck[k]) == 0;
      }
    }
  }

  class Registry {
    // Tracepoints the kernel has.
    const tracepoints: set<TpName>
    var hooksList: seq<Hook>
    // Probes attached to tracepoints.
    var probes: multiset<(TpName, Func)>

    ghost predicate Valid()
      reads this
    {
      WellMade(hooksList)
    }

    constructor (kernel: set<TpName>)
      ensures Valid() && tracepoints == kernel && hooksList == [] && probes == multiset{}
    {
      tracepoints := kernel;
      hooksList := [];
      probes := multiset{};
    }

    method RegisterHook(entry: HookFunc, luck: Luck) returns (err: int)
      requires Valid()
      modifies this
      ensures Valid() && err == Verdict(tracepoints, entry, luck)
      ensures err == 0 <==>
                entry.func != NULL_FUNC && luck.gotMemory && luck.probeAccepted
                && GetTpName(entry.hook) in tracepoints
      ensures err == -EINVAL <==> entry.func == NULL_FUNC
      ensures err == -ENOMEM <==> entry.func != NULL_FUNC && !luck.gotMemory
      ensures hooksList == (if err == 0 then [HookFor(entry)] else []) + old(hooksList)
      ensures probes == old(probes) + if err == 0 then multiset{ProbeOf(entry)} else multiset{}
    {
      if entry.func == NULL_FUNC {
        return -EINVAL;
      }
      if !luck.gotMemory {
        return -ENOMEM;
      }
      var name := GetTpName(entry.hook);
      if name !in tracepoints {
        return -ENXIO;
      }
      if !luck.probeAccepted {
        return -ENXIO;
      }
      probes := probes + multiset{(name, entry.func)};
      hooksList := [Hook(name, entry.func, entry.hook, name)] + hooksList;
      err := 0;
    }

    // unregister_hook, for a hook that is registered.
    method UnregisterHook(entry: HookFunc)
      requires Valid() && HookFor(entry) in hooksList
      modifies this
      ensures Valid() && hooksList == RemoveFirst(old(hooksList), HookFor(entry))
      ensures probes == old(probes) - multiset{ProbeOf(entry)}
    {
      var i := 0;
      while !(hooksList[i].hook == entry.hook && hooksList[i].func == entry.func)
        invariant 0 <= i < |hooksList|
        invariant forall k :: 0 <= k < i ==> hooksList[k] != HookFor(entry)
        decreases |hooksList| - i
      {
        i := i + 1;
      }
      var pos := hooksList[i];
      RemoveFirstAt(hooksList, i);
      hooksList := hooksList[..i] + hooksList[i + 1..];
      probes := probes - multiset{(pos.tp, pos.func)};
    }

    // system_hooks_init, for a table of any length. Either every entry is registered, or the list and the probes are as
    // they were and the error is that of the first entry that failed.
    method SystemHooksInit(table: seq<HookFunc>, luck: seq<Luck>) returns (err: int)
      requires Valid() && |luck| == |table|
      modifies this
      ensures Valid()
      ensures err == 0 <==>
                forall k :: 0 <= k < |table| ==>
                  table[k].func != NULL_FUNC && luck[k].gotMemory && luck[k].probeAccepted
                  && GetTpName(table[k].hook) in tracepoints
      ensures err == 0 ==>
                && (forall k :: 0 <= k < |table| ==> Verdict(tracepoints, table[k], luck[k]) == 0)
                && hooksList == Stacked(table, |table|) + old(hooksList)
                && probes == old(probes) + ProbesOf(table, |table|)
      ensures err != 0 ==>
                && hooksList == old(hooksList) && probes == old(probes)
                && exists k :: FirstFailure(tracepoints, table, luck, k, err)
    {
      AllRegisterIff(tracepoints, table, luck);
      var i := 0;
      while i < |table|
        invariant 0 <= i <= |table| && Valid()
        invariant forall k :: 0 <= k < i ==> Verdict(tracepoints, table[k], luck[k]) == 0
        invariant hooksList == Stacked(table, i) + old(hooksList)
        invariant probes == old(probes) + ProbesOf(table, i)
      {
        err := RegisterHook(table[i], luck[i]);
        if err != 0 {
          assert FirstFailure(tracepoints, table, luck, i, err);
          Rollback(table, i, old(hooksList), old(probes));
          return err;
        }
        StackedStep(table, i, old(hooksList));
        i := i + 1;
      }
      err := 0;
    }

    // The no_hooks loop: unregisters entries n - 1 down to 0.
    method Rollback(table: seq<HookFunc>, n: nat, ghost list: seq<Hook>, ghost before: multiset<(TpName, Func)>)
      requires Valid() && n <= |table|
      requires hooksList == Stacked(table, n) + list && probes == before + ProbesOf(table, n)
      modifies this
      ensures Valid() && hooksList == list && probes == before
    {
      var i := n;
      while i > 0
        invariant 0 <= i <= n && Valid()
        invariant hooksList == Stacked(table, i) + list
        invariant probes == before + ProbesOf(table, i)
      {
        i := i - 1;
        StackedStep(table, i, list);
        ProbesStep(table, i, before);
        UnregisterHook(table[i]);
      }
    }

    // system_hooks_fini: unregisters the table in table order.
    method SystemHooksFini(table: seq<HookFunc>)
      requires Valid() && Removable(hooksList, table, 0)
      modifies this
      ensures Valid() && hooksList == RemoveAll(old(hooksList), table, 0)
      ensures probes == old(probes) - ProbesOf(table, |table|)
    {
      var i := 0;
      while i < |table|
        invariant 0 <= i <= |table| && Valid()
        invariant Removable(hooksList, table, i)
        invariant RemoveAll(hooksList, table, i) == RemoveAll(old(hooksList), table, 0)
        invariant probes == old(probes) - ProbesOf(table, i)
      {
        UnregisterHook(table[i]);
        i := i + 1;
      }
    }

    // switch_hook_module_init; `trackerErr` is what tracker_init returns. Load leaves all hooks registered, or nothing.
    method ModuleInit(table: seq<HookFunc>, luck: seq<Luck>, trackerErr: int) returns (err: int)
      requires Valid() && |luck| == |table|
      modifies this
      ensures Valid()
      ensures err == 0 ==> hooksList == Stacked(table, |table|) + old(hooksList)
                           && probes == old(probes) + ProbesOf(table, |table|)
      ensures err != 0 ==> hooksList == old(hooksList) && probes == old(probes)
      ensures (exists k :: FirstFailure(tracepoints, table, luck, k, err))
              || (err == trackerErr && forall k :: 0 <= k < |table| ==> Verdict(tracepoints, table[k], luck[k]) == 0)
      ensures err == 0 <==>
                trackerErr == 0 && forall k :: 0 <= k < |table| ==>
                  table[k].func != NULL_FUNC && luck[k].gotMemory && luck[k].probeAccepted
                  && GetTpName(table[k].hook) in tracepoints
    {
      err := SystemHooksInit(table, luck);
      if err != 0 {
        return err;
      }
      if trackerErr != 0 {
        InitThenFini(table, old(hooksList));
        SystemHooksFini(table);
        return trackerErr;
      }
    }
  }

  // Entry k is the first whose registration fails, with this error.
  predicate FirstFailure(tracepoints: set<TpName>, table: seq<HookFunc>, luck: seq<Luck>, k: nat, err: int)
    requires |luck| == |table|
  {
    && k < |table| && err != 0 && Verdict(tracepoints, table[k], luck[k]) == err
    && forall i :: 0 <= i < k ==> Verdict(tracepoints, table[i], luck[i]) == 0
  }
}
