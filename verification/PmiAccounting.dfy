// Sampling on counter overflow: the reload value, the 48-bit counter and the interrupt count of one CPU.
module PmiAccounting {
  import opened Errno
  import opened MachineWords

  // BIT_ULL(28) - 1
  const DEFAULT_PERIOD: nat := 0xFFF_FFFF

  function Pow2(v: nat): (p: nat)
    ensures p >= 1
  {
    if v == 0 then 1 else 2 * Pow2(v - 1)
  }

  lemma Pow2SixMore(v: nat)
    ensures Pow2(v + 6) == 64 * Pow2(v)
  {
    assert Pow2(v + 6) == 4 * Pow2(v + 4);
    assert Pow2(v + 4) == 4 * Pow2(v + 2);
    assert Pow2(v + 2) == 4 * Pow2(v);
  }

  lemma Pow2Of48()
    ensures Pow2(48) == TWO48
  {
    Pow2SixMore(0);
    Pow2SixMore(6);
    Pow2SixMore(12);
    Pow2SixMore(18);
    Pow2SixMore(24);
    Pow2SixMore(30);
    Pow2SixMore(36);
    Pow2SixMore(42);
  }

  lemma {:induction false} Pow2Grows(a: nat, b: nat)
    requires a <= b
    ensures Pow2(a) <= Pow2(b)
    decreases b
  {
    if a < b {
      Pow2Grows(a, b - 1);
    }
  }

  // Shifts add up.
  lemma {:induction false} Pow2Sum(a: nat, b: nat)
    ensures Pow2(0) == 1 && Pow2(1) == 2 && Pow2(a + b) == Pow2(a) * Pow2(b)
  {
    if a > 0 {
      Pow2Sum(a - 1, b);
      assert Pow2(a + b) == 2 * Pow2(a - 1 + b);
      assert 2 * (Pow2(a - 1) * Pow2(b)) == 2 * Pow2(a - 1) * Pow2(b);
    }
  }

  // The default is the period of parameter value 28.
  lemma DefaultIs28()
    ensures DEFAULT_PERIOD == Pow2(28) - 1
  {
    Pow2SixMore(0);
    Pow2SixMore(6);
    Pow2SixMore(12);
    Pow2SixMore(18);
    assert Pow2(28) == 16 * Pow2(24);
  }

  // PMC_TRIM on a u64.
  function Trim(n: nat): nat {
    n % TWO48
  }

  // ~n on a u64.
  function Not64(n: nat): nat
    requires n < TWO64
  {
    TWO64 - 1 - n
  }

  // What __init_pmu_local and pmi_handler write into the counter: the value is trimmed twice.
  function Reload(resetPeriod: nat): (r: nat)
    requires resetPeriod < TWO48
    ensures r < TWO48 && r == TWO48 - 1 - resetPeriod
  {
    var n := Not64(resetPeriod);
    assert n == TWO48 * 0xFFFF + (TWO48 - 1 - resetPeriod);
    Trim(Trim(n))
  }

  // One CPU. `reload` is the value last written to the counter and `periods` the events counted in every finished
  // period.
  datatype Cpu = Cpu(counter: nat, overflowed: bool, pmis: nat, reload: nat, periods: seq<int>)

  // `other` says that the global status has a bit set that is not the sampling counter's.
  datatype Event = Tick | Interrupt(other: bool) | SetPeriod(period: nat)

  // The CPU and reset_period.
  datatype State = State(cpu: Cpu, resetPeriod: nat)

  predicate Sane(s: State) {
    s.resetPeriod < TWO48 && s.cpu.counter < TWO48 && s.cpu.reload < TWO48
  }

  // How far the counter stands: a counter that has overflowed reads 0 and stands at 2^48.
  function Position(c: Cpu): nat {
    if c.overflowed then TWO48 else c.counter
  }

  function Step(s: State, e: Event): State
    requires Sane(s)
  {
    match e
    case Tick =>
      // FREEZE_ON_PMI: after an overflow the counter stands still until the handler has run.
      if s.cpu.overflowed then s
      else
        var c := (s.cpu.counter + 1) % TWO48;
        s.(cpu := s.cpu.(counter := c, overflowed := c == 0))
    case Interrupt(other) =>
      // The handler means to pass over interrupts of other origin, but tests `global && MASK`, which holds for every
      // status other than 0.
      if !s.cpu.overflowed && !other then s
      else
        var r := Reload(s.resetPeriod);
        s.(cpu := Cpu(r, false, s.cpu.pmis + 1, r, s.cpu.periods + [Position(s.cpu) - s.cpu.reload]))
    case SetPeriod(p) => if p < TWO48 then s.(resetPeriod := p) else s
  }

  function Run(s: State, h: seq<Event>): (s': State)
    requires Sane(s)
    ensures Sane(s')
    decreases h
  {
    if h == [] then s else Run(Step(s, h[0]), h[1..])
  }

  // Events the counter has counted along a run.
  function Counted(s: State, h: seq<Event>): nat
    requires Sane(s)
    decreases h
  {
    if h == [] then 0
    else (if h[0] == Tick && !s.cpu.overflowed then 1 else 0) + Counted(Step(s, h[0]), h[1..])
  }

  function Sum(periods: seq<int>): int {
    if periods == [] then 0 else Sum(periods[..|periods| - 1]) + periods[|periods| - 1]
  }

  predicate Inv(s: State) {
    && Sane(s)
    && s.cpu.reload <= Position(s.cpu)
    && (s.cpu.overflowed ==> s.cpu.counter == 0)
    && |s.cpu.periods| == s.cpu.pmis
  }

  // Events counted so far.
  function Total(s: State): int {
    Sum(s.cpu.periods) + Position(s.cpu) - s.cpu.reload
  }

  lemma StepAccounts(s: State, e: Event)
    requires Inv(s)
    ensures Inv(Step(s, e))
    ensures Total(Step(s, e)) == Total(s) + if e == Tick && !s.cpu.overflowed then 1 else 0
  {
    if e.Interrupt? && Step(s, e) != s {
      var periods := Step(s, e).cpu.periods;
      assert periods[..|periods| - 1] == s.cpu.periods;
    }
  }

  // Whatever happens to reset_period along the way, the events counted are the sum of the finished periods plus the
  // distance of the counter from its reload value.
  lemma {:induction false} EventsAreAccounted(s: State, h: seq<Event>)
    requires Inv(s)
    ensures Inv(Run(s, h)) && Total(Run(s, h)) == Total(s) + Counted(s, h)
    decreases h
  {
    if h != [] {
      StepAccounts(s, h[0]);
      EventsAreAccounted(Step(s, h[0]), h[1..]);
    }
  }

  // A counter just loaded for the period in force.
  function Loaded(resetPeriod: nat): State
    requires resetPeriod < TWO48
  {
    State(Cpu(Reload(resetPeriod), false, 0, Reload(resetPeriod), []), resetPeriod)
  }

  predicate KeepsPeriod(h: seq<Event>) {
    forall i :: 0 <= i < |h| ==> !h[i].SetPeriod?
  }

  // An interrupt the sampling counter did not raise, and which the handler takes all the same.
  predicate Foreign(s: State, e: Event) {
    e.Interrupt? && e.other && !s.cpu.overflowed
  }

  predicate ForeignIn(s: State, h: seq<Event>)
    requires Sane(s)
    decreases h
  {
    h != [] && (Foreign(s, h[0]) || ForeignIn(Step(s, h[0]), h[1..]))
  }

  // Events the interrupt count stands for, beyond those of the finished periods.
  function Excess(s: State): int {
    s.cpu.pmis * (s.resetPeriod + 1) - Sum(s.cpu.periods)
  }

  // The current period has the length in force.
  predicate Steady(s: State) {
    Inv(s) && s.cpu.reload == TWO48 - 1 - s.resetPeriod
  }

  lemma StepExcess(s: State, e: Event)
    requires Steady(s) && !e.SetPeriod?
    ensures Steady(Step(s, e)) && Step(s, e).resetPeriod == s.resetPeriod
    ensures Excess(Step(s, e)) == Excess(s) + if Foreign(s, e) then TWO48 - s.cpu.counter else 0
  {
    StepAccounts(s, e);
    var s' := Step(s, e);
    if s'.cpu.pmis == s.cpu.pmis + 1 {
      assert s'.cpu.periods[..s.cpu.pmis] == s.cpu.periods;
      assert (s.cpu.pmis + 1) * (s.resetPeriod + 1) == s.cpu.pmis * (s.resetPeriod + 1) + (s.resetPeriod + 1);
    }
  }

  lemma {:induction false} RunExcess(s: State, h: seq<Event>)
    requires Steady(s) && KeepsPeriod(h)
    ensures Steady(Run(s, h)) && Run(s, h).resetPeriod == s.resetPeriod
    ensures Excess(Run(s, h)) >= Excess(s)
    ensures Excess(Run(s, h)) == Excess(s) <==> !ForeignIn(s, h)
    decreases h
  {
    if h != [] {
      StepExcess(s, h[0]);
      RunExcess(Step(s, h[0]), h[1..]);
    }
  }

  // With one period p in force, events = interrupts * (p + 1) + (counter - reload) exactly when no interrupt of other
  // origin came while the sampling counter was still short of overflow; otherwise the count stands for too many.
  lemma PmiCountMeasuresEvents(resetPeriod: nat, h: seq<Event>)
    requires resetPeriod < TWO48 && KeepsPeriod(h)
    ensures var start := Loaded(resetPeriod);
            var s := Run(start, h);
            var measured := s.cpu.pmis * (resetPeriod + 1) + (Position(s.cpu) - (TWO48 - 1 - resetPeriod));
            && Counted(start, h) <= measured
            && (Counted(start, h) == measured <==> !ForeignIn(start, h))
  {
    EventsAreAccounted(Loaded(resetPeriod), h);
    RunExcess(Loaded(resetPeriod), h);
  }

  function Ticks(n: nat): seq<Event> {
    if n == 0 then [] else [Tick] + Ticks(n - 1)
  }

  // A reloaded counter overflows after exactly resetPeriod + 1 events, not one earlier, and then stands still.
  lemma {:induction false} OverflowsAfter(s: State, n: nat)
    requires Inv(s)
    ensures Run(s, Ticks(n)).cpu.overflowed <==> Position(s.cpu) + n >= TWO48
    ensures Position(Run(s, Ticks(n)).cpu) == if Position(s.cpu) + n >= TWO48 then TWO48 else Position(s.cpu) + n
    decreases n
  {
    if n > 0 {
      assert Ticks(n)[0] == Tick && Ticks(n)[1..] == Ticks(n - 1);
      StepAccounts(s, Tick);
      OverflowsAfter(Step(s, Tick), n - 1);
    }
  }

  lemma OverflowsAfterPeriod(resetPeriod: nat, n: nat)
    requires resetPeriod < TWO48
    ensures Run(Loaded(resetPeriod), Ticks(n)).cpu.overflowed <==> n >= resetPeriod + 1
  {
    OverflowsAfter(Loaded(resetPeriod), n);
  }

  lemma {:induction false} RunAppend(s: State, a: seq<Event>, b: seq<Event>)
    requires Sane(s)
    ensures Run(s, a + b) == Run(Run(s, a), b)
    decreases a
  {
    if a == [] {
      assert a + b == b;
    } else {
      assert (a + b)[1..] == a[1..] + b;
      RunAppend(Step(s, a[0]), a[1..], b);
    }
  }

  // The counter has just been loaded for the period in force.
  predicate Fresh(s: State) {
    Steady(s) && !s.cpu.overflowed && s.cpu.counter == TWO48 - 1 - s.resetPeriod
  }

  // n times over: as many events as the counter needs to overflow, then its interrupt.
  function Rounds(resetPeriod: nat, n: nat): seq<Event> {
    if n == 0 then [] else Ticks(resetPeriod + 1) + [Interrupt(false)] + Rounds(resetPeriod, n - 1)
  }

  lemma {:induction false} TicksOnly(s: State, n: nat)
    requires Inv(s)
    ensures var s' := Run(s, Ticks(n));
            Inv(s') && s'.resetPeriod == s.resetPeriod && s'.cpu.pmis == s.cpu.pmis && s'.cpu.reload == s.cpu.reload
    decreases n
  {
    if n > 0 {
      assert Ticks(n)[0] == Tick && Ticks(n)[1..] == Ticks(n - 1);
      StepAccounts(s, Tick);
      TicksOnly(Step(s, Tick), n - 1);
    }
  }

  // The handler of an overflow counts one and loads the counter for the period in force by then.
  lemma OneOverflow(s: State, other: bool)
    requires Inv(s) && s.cpu.overflowed
    ensures Fresh(Step(s, Interrupt(other))) && Step(s, Interrupt(other)).resetPeriod == s.resetPeriod
    ensures Step(s, Interrupt(other)).cpu.pmis == s.cpu.pmis + 1
  {
    StepAccounts(s, Interrupt(other));
  }

  lemma OneRound(s: State)
    requires Fresh(s)
    ensures var s' := Run(s, Ticks(s.resetPeriod + 1) + [Interrupt(false)]);
            Fresh(s') && s'.resetPeriod == s.resetPeriod && s'.cpu.pmis == s.cpu.pmis + 1
  {
    var n := s.resetPeriod + 1;
    RunAppend(s, Ticks(n), [Interrupt(false)]);
    OverflowsAfter(s, n);
    TicksOnly(s, n);
    var full := Run(s, Ticks(n));
    OneOverflow(full, false);
    assert Run(full, [Interrupt(false)]) == Step(full, Interrupt(false));
  }

  // Sampling is periodic: each reset_period + 1 events bring one interrupt, which leaves the counter ready for the
  // next.
  lemma {:induction false} SamplesForever(s: State, n: nat)
    requires Fresh(s)
    ensures var s' := Run(s, Rounds(s.resetPeriod, n));
            Fresh(s') && s'.resetPeriod == s.resetPeriod && s'.cpu.pmis == s.cpu.pmis + n
    decreases n
  {
    if n > 0 {
      var round := Ticks(s.resetPeriod + 1) + [Interrupt(false)];
      OneRound(s);
      RunAppend(s, round, Rounds(s.resetPeriod, n - 1));
      SamplesForever(Run(s, round), n - 1);
    }
  }

  // A period set while an overflow is pending, or at any time before, is in force from that overflow's interrupt on.
  lemma NewPeriodSamples(s: State, period: nat, other: bool, n: nat)
    requires Inv(s) && s.cpu.overflowed && period < TWO48
    ensures var s' := Run(s, [SetPeriod(period), Interrupt(other)] + Rounds(period, n));
            Fresh(s') && s'.resetPeriod == period && s'.cpu.pmis == s.cpu.pmis + 1 + n
  {
    var start := [SetPeriod(period), Interrupt(other)];
    var s1 := Step(s, SetPeriod(period));
    StepAccounts(s, SetPeriod(period));
    OneOverflow(s1, other);
    assert start[1..] == [Interrupt(other)];
    assert Run(s, start) == Run(s1, [Interrupt(other)]);
    assert Run(s1, [Interrupt(other)]) == Step(s1, Interrupt(other));
    RunAppend(s, start, Rounds(period, n));
    SamplesForever(Run(s, start), n);
  }

  // The values the module parameter accepts.
  lemma ParameterPeriods(v: nat)
    requires 12 <= v <= 48
    ensures Pow2(v) - 1 < TWO48 && Reload(Pow2(v) - 1) == TWO48 - Pow2(v)
  {
    Pow2Of48();
    Pow2Grows(v, 48);
  }

  class Pmu {
    var resetPeriod: nat
    // The fixed counters of one CPU, and which of them raises the interrupt.
    const fixedCtr: array<nat>
    const fixedPmcPmi: nat
    var overflowed: bool
    var pmiCounter: nat
    ghost var reload: nat
    ghost var periods: seq<int>

    ghost predicate Valid()
      reads this, fixedCtr
    {
      fixedPmcPmi < fixedCtr.Length && Inv(View())
    }

    ghost function View(): State
      requires fixedPmcPmi < fixedCtr.Length
      reads this, fixedCtr
    {
      State(Cpu(fixedCtr[fixedPmcPmi], overflowed, pmiCounter, reload, periods), resetPeriod)
    }

    constructor (counters: nat, pmi: nat)
      requires pmi < counters
      ensures Valid() && fresh(fixedCtr) && fixedCtr.Length == counters && fixedPmcPmi == pmi
      ensures View() == Loaded(DEFAULT_PERIOD)
      ensures forall pmc :: 0 <= pmc < counters && pmc != pmi ==> fixedCtr[pmc] == 0
    {
      resetPeriod := DEFAULT_PERIOD;
      fixedCtr := new nat[counters];
      fixedPmcPmi := pmi;
      overflowed := false;
      pmiCounter := 0;
      reload := 0;
      periods := [];
      new;
      InitPmuLocal();
    }

    // __init_pmu_local
    method InitPmuLocal()
      requires fixedPmcPmi < fixedCtr.Length && resetPeriod < TWO48
      modifies this`overflowed, this`reload, fixedCtr
      ensures overflowed == false && reload == Reload(resetPeriod)
      ensures forall pmc :: 0 <= pmc < fixedCtr.Length ==>
                fixedCtr[pmc] == if pmc == fixedPmcPmi then Reload(resetPeriod) else 0
    {
      overflowed := false;
      reload := Reload(resetPeriod);
      var pmc := 0;
      while pmc < fixedCtr.Length
        invariant 0 <= pmc <= fixedCtr.Length
        invariant forall k :: 0 <= k < pmc ==> fixedCtr[k] == if k == fixedPmcPmi then Reload(resetPeriod) else 0
        modifies fixedCtr
      {
        if pmc == fixedPmcPmi {
          fixedCtr[pmc] := Trim(Trim(Not64(resetPeriod)));
        } else {
          fixedCtr[pmc] := Trim(0);
        }
        pmc := pmc + 1;
      }
    }

    // reset_period_set, once the string has been parsed.
    method ResetPeriodSet(val: int) returns (err: int)
      requires Valid()
      modifies this`resetPeriod
      ensures Valid() && err == if 12 <= val <= 48 then 0 else -EINVAL
      ensures View() == if err == 0 then Step(old(View()), SetPeriod(Pow2(val) - 1)) else old(View())
      ensures err == 0 ==> resetPeriod == Pow2(val) - 1
    {
      if val < 12 || val > 48 {
        return -EINVAL;
      }
      ParameterPeriods(val);
      resetPeriod := Pow2(val) - 1;
      err := 0;
    }

    // One event at the counter.
    method Tick()
      requires Valid()
      modifies this`overflowed, fixedCtr
      ensures Valid() && View() == Step(old(View()), Event.Tick)
      ensures forall pmc :: 0 <= pmc < fixedCtr.Length && pmc != fixedPmcPmi ==> fixedCtr[pmc] == old(fixedCtr[pmc])
    {
      StepAccounts(View(), Event.Tick);
      if !overflowed {
        fixedCtr[fixedPmcPmi] := (fixedCtr[fixedPmcPmi] + 1) % TWO48;
        overflowed := fixedCtr[fixedPmcPmi] == 0;
      }
    }

    // pmi_handler; `other` says that the status has a bit set beside the sampling counter's.
    method PmiHandler(other: bool) returns (handled: int)
      requires Valid()
      modifies this`overflowed, this`pmiCounter, this`reload, this`periods, fixedCtr
      ensures Valid() && View() == Step(old(View()), Interrupt(other))
      ensures forall pmc :: 0 <= pmc < fixedCtr.Length && pmc != fixedPmcPmi ==> fixedCtr[pmc] == old(fixedCtr[pmc])
      ensures handled == if old(overflowed) || other then 1 else 0
    {
      StepAccounts(View(), Interrupt(other));
      handled := 0;
      if !overflowed && !other {
        return;
      }
      pmiCounter := pmiCounter + 1;
      handled := 1;
      periods := periods + [Position(View().cpu) - reload];
      reload := Reload(resetPeriod);
      fixedCtr[fixedPmcPmi] := Trim(Trim(Not64(resetPeriod)));
      overflowed := false;
    }
  }
}
