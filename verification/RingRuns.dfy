// What holds along every run of the ring protocol.
module RingRuns {
  import opened PackedIndex
  import opened RingFifo
  import opened RingProof
  import opened RingProtocol
  import opened SampleRing
  import opened Slots

  ghost predicate Steps(c: Config, s: State, a: Action, s': State) {
    Sized(c, s) && Enabled(c, s, a) && s' == Next(c, s, a)
  }

  ghost predicate IsRun(c: Config, states: seq<State>, acts: seq<Action>) {
    && |states| == |acts| + 1
    && Init(c, states[0])
    && forall i :: 0 <= i < |acts| ==> Steps(c, states[i], acts[i], states[i + 1])
  }

  lemma {:induction false} RunKeeps(c: Config, states: seq<State>, acts: seq<Action>, i: nat)
    requires IsRun(c, states, acts) && i < |states|
    ensures Inv(c, states[i])
  {
    if i == 0 {
      InitInv(c, states[0]);
    } else {
      RunKeeps(c, states, acts, i - 1);
      assert Steps(c, states[i - 1], acts[i - 1], states[i]);
      StepKeeps(c, states[i - 1], acts[i - 1]);
    }
  }

  // A read that succeeds returns the sample of its own ticket, byte for byte, except the bytes it copied before the
  // writer of that same ticket had stored them; those are the bytes the slot held before. So it returns the sample
  // whole exactly when every such byte happens to be equal, and always when the writer was done at load time.
  lemma ReadsAreExact(c: Config, states: seq<State>, acts: seq<Action>, i: nat, j: nat)
    requires IsRun(c, states, acts) && i < |states|
    requires j < |states[i].log| && states[i].log[j].Consumed?
    ensures j < |states[i].samples| == |states[i].before|
    ensures var e, sample, before := states[i].log[j], states[i].samples[j], states[i].before[j];
            && |e.bytes| == |sample| == |before| == c.stride && e.ticket == j * c.stride
            && (forall k: nat :: k < c.stride ==> e.bytes[k] == if k in e.stale then before[k] else sample[k])
            && (!e.early ==> e.bytes == sample)
            && (e.bytes == sample <==> forall k: nat :: k < c.stride && k in e.stale ==> before[k] == sample[k])
            && (c.Divides() && j >= c.Capacity() ==> before == states[i].samples[j - c.Capacity()])
  {
    RunKeeps(c, states, acts, i);
    var s := states[i];
    assert EventInv(c, s, j);
    assert BeforeInv(c, s, j);
    var e, sample, before := s.log[j], s.samples[j], s.before[j];
    forall k: nat | k < c.stride ensures e.bytes[k] == if k in e.stale then before[k] else sample[k] {
      assert ByteCopied(e.bytes, e.stale, sample, before, k);
    }
  }

  // From the ticket taken on a full ring until HEAD has moved, TAIL - HEAD is one entry more than len and no
  // compare-and-swap succeeds; at any other time, when stride divides len, it is at most len.
  lemma OverwriteWindow(c: Config, states: seq<State>, acts: seq<Action>, i: nat)
    requires IsRun(c, states, acts) && i < |states|
    ensures var s := states[i];
            && c.Sound()
            && (InWindow(c, s) ==> Tail(s.idx) - Head(s.idx) == c.len + c.stride)
            && (c.Divides() && !InWindow(c, s) ==> Tail(s.idx) - Head(s.idx) <= c.len)
            && (InWindow(c, s) ==> forall r: nat | Enabled(c, s, Swap(r)) ::
                  Swapped(c, s, r).idx == s.idx && Swapped(c, s, r).log == s.log)
  {
    RunKeeps(c, states, acts, i);
    var s := states[i];
    if InWindow(c, s) {
      forall r: nat | Enabled(c, s, Swap(r)) ensures Swapped(c, s, r).idx == s.idx && Swapped(c, s, r).log == s.log {
        assert ReaderInv(c, s, s.readers[r]);
      }
    }
  }

  // While it copies, the writer overwrites no queued sample but, inside the window, the oldest one.
  lemma OverwritesOnlyTheOldest(c: Config, states: seq<State>, acts: seq<Action>, i: nat, j: nat)
    requires IsRun(c, states, acts) && i < |states| && c.Sound() && c.Divides()
    requires var s := states[i];
             |s.log| <= j < |s.samples| - 1 && SlotOf(c, j) == SlotOf(c, |s.samples| - 1)
    ensures InWindow(c, states[i]) && j == |states[i].log|
  {
    RunKeeps(c, states, acts, i);
    var s := states[i];
    var n := |s.samples|;
    NextTicket(c, n - 1);
    SameTicket(c.stride, |s.log|, j);
    if (n - 1) * c.stride < j * c.stride + c.len {
      LapSlotsDiffer(c, n - 1, j);
    }
  }

  // The load and the store of `idx +=` act as one addition to the index as it stands, and what they drop is the ticket
  // one lap behind the writer's own: the one whose slot it has just reused.
  lemma StoreLosesNoUpdate(c: Config, states: seq<State>, acts: seq<Action>, i: nat)
    requires IsRun(c, states, acts) && i < |acts| && acts[i] == StoreIdx
    ensures states[i + 1].idx == Add64(states[i].idx, HighUnits(c.stride))
    ensures Head(states[i + 1].idx) == Head(states[i].idx) + c.stride
    ensures Tail(states[i + 1].idx) == Tail(states[i].idx)
    ensures states[i + 1].log == states[i].log + [Dropped(Head(states[i].idx))]
    ensures Head(states[i].idx) + c.len == Tail(states[i].idx) - c.stride
  {
    RunKeeps(c, states, acts, i);
    assert Steps(c, states[i], acts[i], states[i + 1]);
    SameTicket(c.stride, |states[i].log|, |states[i].samples|);
    HeadMovesCounts(c, states[i], states[i + 1]);
  }

  function Reads(log: seq<Event>): nat {
    if log == [] then 0 else Reads(log[..|log| - 1]) + if log[|log| - 1].Consumed? then 1 else 0
  }

  function Drops(log: seq<Event>): nat {
    if log == [] then 0 else Drops(log[..|log| - 1]) + if log[|log| - 1].Dropped? then 1 else 0
  }

  lemma {:induction false} LogSplits(log: seq<Event>)
    ensures Reads(log) + Drops(log) == |log|
  {
    if log != [] {
      LogSplits(log[..|log| - 1]);
    }
  }

  // Ticket t left the queue at position j of the log.
  predicate LeftAt(s: State, t: nat, j: nat) {
    j < |s.log| && s.log[j].ticket == t
  }

  // Every ticket issued has left the queue exactly when HEAD is past it.
  lemma TicketLeft(c: Config, s: State, n: nat)
    requires Inv(c, s) && n < |s.samples|
    ensures (exists j :: LeftAt(s, n * c.stride, j)) <==> n * c.stride < Head(s.idx)
  {
    SameTicket(c.stride, n, |s.log|);
    if n < |s.log| {
      assert EventInv(c, s, n);
      assert LeftAt(s, n * c.stride, n);
    }
    forall j: nat | LeftAt(s, n * c.stride, j) ensures n < |s.log| {
      assert EventInv(c, s, j);
      SameTicket(c.stride, n, j);
    }
  }

  // Readers and drops together take the tickets in increasing order, so none is taken twice.
  lemma TicketsInOrder(c: Config, states: seq<State>, acts: seq<Action>, i: nat, j: nat, k: nat)
    requires IsRun(c, states, acts) && i < |states| && j < k < |states[i].log|
    ensures states[i].log[j].ticket < states[i].log[k].ticket
  {
    RunKeeps(c, states, acts, i);
    assert EventInv(c, states[i], j) && EventInv(c, states[i], k);
    SameTicket(c.stride, j, k);
  }

  // Every ticket issued is consumed or dropped, or still queued: HEAD counts the reads and the drops, TAIL all samples.
  lemma TicketsAreConserved(c: Config, states: seq<State>, acts: seq<Action>, i: nat)
    requires IsRun(c, states, acts) && i < |states|
    ensures var s := states[i];
            && Reads(s.log) + Drops(s.log) == |s.log|
            && Head(s.idx) == |s.log| * c.stride && Tail(s.idx) == |s.samples| * c.stride
            && (forall n: nat :: n < |s.samples| ==>
                  ((exists j :: LeftAt(s, n * c.stride, j)) <==> n * c.stride < Head(s.idx)))
  {
    RunKeeps(c, states, acts, i);
    var s := states[i];
    LogSplits(s.log);
    forall n: nat | n < |s.samples|
      ensures (exists j :: LeftAt(s, n * c.stride, j)) <==> n * c.stride < Head(s.idx)
    {
      TicketLeft(c, s, n);
    }
  }

  // Without divisibility, once the ring is overrun no ticket ever leaves it again: no read succeeds, nothing is
  // dropped.
  lemma {:induction false} OverrunIsFinal(c: Config, states: seq<State>, acts: seq<Action>, i: nat, j: nat)
    requires IsRun(c, states, acts) && i <= j < |states|
    requires c.Sound() && !c.Divides() && Head(states[i].idx) + c.len < Tail(states[i].idx)
    ensures states[j].log == states[i].log && Head(states[j].idx) + c.len < Tail(states[j].idx)
    decreases j
  {
    if i < j {
      OverrunIsFinal(c, states, acts, i, j - 1);
      OverrunStep(c, states, acts, j - 1);
    }
  }

  lemma OverrunStep(c: Config, states: seq<State>, acts: seq<Action>, i: nat)
    requires IsRun(c, states, acts) && i < |acts|
    requires c.Sound() && !c.Divides() && Head(states[i].idx) + c.len < Tail(states[i].idx)
    ensures states[i + 1].log == states[i].log && Head(states[i + 1].idx) + c.len < Tail(states[i + 1].idx)
  {
    RunKeeps(c, states, acts, i);
    assert Steps(c, states[i], acts[i], states[i + 1]);
    OverrunStays(c, states[i], acts[i]);
  }

  lemma OverrunStays(c: Config, s: State, a: Action)
    requires Inv(c, s) && Enabled(c, s, a) && !c.Divides() && Head(s.idx) + c.len < Tail(s.idx)
    ensures Next(c, s, a).log == s.log && Head(Next(c, s, a).idx) + c.len < Tail(Next(c, s, a).idx)
  {
    match a
    case TakeTicket(sample) => TakeTicketCounts(c, s, sample);
    case StoreIdx =>
      SameTicket(c.stride, |s.log|, |s.samples|);
      NextTicket(c, |s.samples| - 1);
      NeverExactlyFull(c, View(|s.log|, s.samples[..|s.samples| - 1]));
    case Swap(r) => assert ReaderInv(c, s, s.readers[r]);
    case _ =>
  }

  // The only sample written was also read, and the read returned something else.
  predicate TornRead(s: State) {
    |s.log| == 1 && |s.samples| == 1 && s.log[0].Consumed? && s.log[0].bytes != s.samples[0]
  }

  ghost predicate Reachable(c: Config, s: State) {
    exists states: seq<State>, acts: seq<Action> :: IsRun(c, states, acts) && states[|acts|] == s
  }

  lemma ReachNext(c: Config, s: State, a: Action)
    requires Reachable(c, s) && Sized(c, s) && Enabled(c, s, a)
    ensures Reachable(c, Next(c, s, a))
  {
    var states: seq<State>, acts: seq<Action> :| IsRun(c, states, acts) && states[|acts|] == s;
    var states', acts' := states + [Next(c, s, a)], acts + [a];
    forall i | 0 <= i < |acts'| ensures Steps(c, states'[i], acts'[i], states'[i + 1]) {
      if i < |acts| {
        assert Steps(c, states[i], acts[i], states[i + 1]);
      }
    }
    assert IsRun(c, states', acts');
  }

  // The exception in ReadsAreExact is real: a reader can return a byte its sample never had.
  lemma TornReadIsReachable()
    ensures exists c: Config, s: State :: Reachable(c, s) && TornRead(s)
  {
    var c := Config(1, 1);
    var s := State(0, [0], Resting, [Outside], [], [], []);
    assert IsRun(c, [s], []);
    assert Reachable(c, s);
    ReachNext(c, s, TakeTicket([1]));
    TornFrom(c, Next(c, s, TakeTicket([1])));
  }

  lemma TornFrom(c: Config, s: State)
    requires c == Config(1, 1) && Reachable(c, s) && s.idx == 1 && s.mem == [0]
    requires s.writer == Copying(0, [1], {}) && s.readers == [Outside] && s.samples == [[1]] && s.log == []
    ensures exists s' :: Reachable(c, s') && TornRead(s')
  {
    ReachNext(c, s, Enter(0, [9]));
    TornOnceRead(c, s.(readers := [Reading(1, [9], {}, {}, true)]));
  }

  lemma TornOnceRead(c: Config, s: State)
    requires c == Config(1, 1) && Reachable(c, s) && s.idx == 1 && s.mem == [0]
    requires s.writer == Copying(0, [1], {}) && s.readers == [Reading(1, [9], {}, {}, true)]
    requires s.samples == [[1]] && s.log == []
    ensures exists s' :: Reachable(c, s') && TornRead(s')
  {
    ReachNext(c, s, ReadByte(0, 0));
    var s3 := Next(c, s, ReadByte(0, 0));
    assert s3.readers[0].bucket == [0];
    assert 0 in s3.readers[0].got;
    ReachNext(c, s3, Swap(0));
    assert TornRead(Next(c, s3, Swap(0)));
  }
}
