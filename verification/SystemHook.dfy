// system_hook.c and the wrappers of system_hook_tracep.c, run without interference.
module SystemHook {
  datatype HookType = SCHED_IN | SCHED_OUT | PROC_EXEC | PROC_EXIT | PROC_FORK | PROC_FREE | ON_ATTACH | ON_DETACH

  // A callback: the module's own do-nothing function, or one a client installed.
  datatype Callback = Dummy(hook: HookType) | Client(id: nat)

  // The hooks that have a function pointer.
  predicate Assignable(hook: HookType) {
    hook in {SCHED_IN, PROC_FORK, PROC_EXIT, ON_ATTACH, ON_DETACH}
  }

  class SystemHook {
    var shookEnabled: bool
    var usage: int
    var unmounting: int
    var hooks: map<HookType, Callback>
    // Callbacks invoked so far.
    ghost var calls: seq<Callback>

    ghost predicate Valid()
      reads this
    {
      forall hook :: hook in hooks <==> Assignable(hook)
    }

    // Whether a handler that starts now may run its hook.
    predicate Open()
      reads this
    {
      shookEnabled && unmounting <= 1
    }

    constructor ()
      ensures Valid() && !Open() && usage == 1 && unmounting == 1 && calls == []
      ensures hooks.Keys == {SCHED_IN, PROC_FORK, PROC_EXIT, ON_ATTACH, ON_DETACH}
      ensures forall hook :: hook in hooks ==> hooks[hook] == Dummy(hook)
    {
      shookEnabled := false;
      usage := 1;
      unmounting := 1;
      hooks := map hook | hook in {SCHED_IN, PROC_FORK, PROC_EXIT, ON_ATTACH, ON_DETACH} :: Dummy(hook);
      calls := [];
    }

    method StartHandler() returns (ok: bool)
      modifies this`usage
      ensures ok <==> shookEnabled && unmounting <= 1
      ensures usage == old(usage) + if ok then 1 else 0
    {
      if !shookEnabled {
        return false;
      }
      if unmounting > 1 {
        return false;
      }
      usage := usage + 1;
      ok := true;
    }

    method StopHandler()
      modifies this`usage
      ensures usage == old(usage) - 1
    {
      usage := usage - 1;
    }

    // set_shook_callback: a null callback restores the dummy; a hook without a pointer is skipped.
    method SetShookCallback(callback: Callback, isNull: bool, hook: HookType)
      requires Valid()
      modifies this`hooks
      ensures Valid()
      ensures forall other :: Assignable(other) ==>
                hooks[other] == if other != hook then old(hooks)[other] else if isNull then Dummy(hook) else callback
    {
      if hook in hooks {
        hooks := hooks[hook := if isNull then Dummy(hook) else callback];
      }
    }

    // whook_sched_in, whook_proc_fork and whook_proc_exit: the hook runs exactly when the module is open, and the usage
    // count is balanced either way.
    method Whook(hook: HookType)
      requires Valid() && Assignable(hook)
      modifies this`usage, this`calls
      ensures usage == old(usage)
      ensures calls == if shookEnabled && unmounting <= 1 then old(calls) + [hooks[hook]] else old(calls)
    {
      var ok := StartHandler();
      if ok {
        calls := calls + [hooks[hook]];
        StopHandler();
      }
    }
  }
}
