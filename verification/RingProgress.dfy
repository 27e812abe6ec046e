// The ring is non-blocking: from any state, whatever the others were in the middle of, the writer and every reader
// finish by steps of their own, and in a bounded number of them.
module RingProgress {
  import opened MachineWords
  import opened PackedIndex
  import opened RingAlone
  import opened RingFifo
  import opened RingProof
  import opened RingProtocol
  import opened SampleRing
  import opened Slots

  function Missing(c: Config, bytes: set<nat>): set<nat> {
    set k | 0 <= k < c.stride && k !in bytes
  }

  // One byte more leaves one byte less.
  lemma OneLess(c: Config, bytes: set<nat>, k: nat)
    requires k < c.stride && k !in bytes
    ensures |Missing(c, bytes + {k})| == |Missing(c, bytes)| - 1
  {
    assert k in Missing(c, bytes);
    assert Missing(c, bytes + {k}) == Missing(c, bytes) - {k};
  }

  // Own steps until the write is done.
  function WriterOwes(c: Config, w: Writer): nat {
    match w
    case Resting => 0
    case Storing(_) => 1
    case Loading(_) => 2
    case Comparing(_) => 3
    case Copying(_, _, done) => 4 + |Missing(c, done)|
  }

  predicate ByWriter(a: Action) {
    a.TakeTicket? || a.WriteByte? || a == EndCopy || a == Compare || a == LoadIdx || a == StoreIdx
  }

  predicate AllByWriter(acts: seq<Action>) {
    forall i :: 0 <= i < |acts| ==> ByWriter(acts[i])
  }

  // The next step of a writer at work.
  lemma WriterStep(c: Config, s: State) returns (a: Action)
    requires Inv(c, s) && !s.writer.Resting?
    ensures Enabled(c, s, a) && ByWriter(a) && Inv(c, Next(c, s, a))
    ensures WriterOwes(c, Next(c, s, a).writer) < WriterOwes(c, s.writer)
    ensures Next(c, s, a).samples == s.samples && Next(c, s, a).readers == s.readers
  {
    match s.writer {
      case Copying(_, _, done) =>
        if AllBytes(c, done) {
          a := EndCopy;
        } else {
          var k: nat :| k < c.stride && k !in done;
          OneLess(c, done, k);
          a := WriteByte(k);
        }
      case Comparing(_) => a := Compare;
      case Loading(_) => a := LoadIdx;
      case Storing(_) => a := StoreIdx;
    }
    StepKeeps(c, s, a);
  }

  lemma StepThen(c: Config, s: State, a: Action, rest: seq<Action>, s': State)
    requires Sized(c, s) && Enabled(c, s, a) && StepsTo(c, Next(c, s, a), rest, s')
    ensures StepsTo(c, s, [a] + rest, s')
  {
    assert ([a] + rest)[1..] == rest;
  }

  lemma {:induction false} AtMostStride(c: Config, bytes: set<nat>, n: nat)
    requires n <= c.stride
    ensures |set k | 0 <= k < n && k !in bytes| <= n
    decreases n
  {
    var missing := set k | 0 <= k < n && k !in bytes;
    if n == 0 {
      assert missing == {};
    } else {
      var fewer := set k | 0 <= k < n - 1 && k !in bytes;
      AtMostStride(c, bytes, n - 1);
      assert missing == if n - 1 in bytes then fewer else fewer + {n - 1};
    }
  }

  lemma OwesAtMost(c: Config, w: Writer)
    ensures WriterOwes(c, w) <= c.stride + 4
  {
    if w.Copying? {
      AtMostStride(c, w.done, c.stride);
    }
  }

  // The writer never waits: whatever the readers hold, it finishes its write in at most stride + 4 steps of its own.
  lemma {:induction false} WriterFinishes(c: Config, s: State) returns (acts: seq<Action>, s': State)
    requires Inv(c, s)
    ensures StepsTo(c, s, acts, s') && AllByWriter(acts)
    ensures |acts| <= WriterOwes(c, s.writer) <= c.stride + 4
    ensures Inv(c, s') && s'.writer.Resting? && s'.samples == s.samples && s'.readers == s.readers
    decreases WriterOwes(c, s.writer)
  {
    OwesAtMost(c, s.writer);
    if s.writer.Resting? {
      acts, s' := [], s;
    } else {
      var a := WriterStep(c, s);
      var rest;
      rest, s' := WriterFinishes(c, Next(c, s, a));
      StepThen(c, s, a, rest, s');
      acts := [a] + rest;
    }
  }

  predicate AllByReader(acts: seq<Action>, r: nat) {
    forall i :: 0 <= i < |acts| ==> (acts[i].ReadByte? || acts[i].Swap?) && acts[i].reader == r
  }

  // A reader never waits either: its attempt ends after the bytes it misses and one compare-and-swap, which succeeds
  // exactly when the index is the one it loaded, and then takes the ticket at the head.
  lemma {:induction false} ReaderGetsOut(c: Config, s: State, r: nat) returns (acts: seq<Action>, s': State)
    requires Inv(c, s) && r < |s.readers| && s.readers[r].Reading?
    ensures StepsTo(c, s, acts, s') && AllByReader(acts, r) && |acts| == |Missing(c, s.readers[r].got)| + 1
    ensures Inv(c, s') && s'.writer == s.writer && s'.samples == s.samples
    ensures s'.readers == s.readers[r := Outside]
    ensures s.readers[r].midx == s.idx ==>
              |s'.log| == |s.log| + 1 && s'.log[..|s.log|] == s.log
              && s'.log[|s.log|].Consumed? && s'.log[|s.log|].ticket == Head(s.idx) && s'.log[|s.log|].reader == r
    ensures s.readers[r].midx != s.idx ==> s'.log == s.log && s'.idx == s.idx
    decreases |Missing(c, s.readers[r].got)|
  {
    var me := s.readers[r];
    if k: nat :| k < c.stride && k !in me.got {
      ReaderBucket(c, s, r);
      OneLess(c, me.got, k);
      ReadByteKeeps(c, s, r, k);
      var next := Next(c, s, ReadByte(r, k));
      var rest;
      rest, s' := ReaderGetsOut(c, next, r);
      StepThen(c, s, ReadByte(r, k), rest, s');
      acts := [ReadByte(r, k)] + rest;
    } else {
      assert Missing(c, me.got) == {};
      SwapKeeps(c, s, r);
      s' := Swapped(c, s, r);
      acts := [Swap(r)];
    }
  }

  lemma ReaderBucket(c: Config, s: State, r: nat)
    requires Inv(c, s) && r < |s.readers| && s.readers[r].Reading?
    ensures |s.readers[r].bucket| == c.stride
  {
    assert ReaderInv(c, s, s.readers[r]);
  }
}
