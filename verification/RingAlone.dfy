// Run without interference, the steps of the ring protocol are the write and the read of the sequential ring.
module RingAlone {
  import opened MachineWords
  import opened PackedIndex
  import opened RingFifo
  import opened RingProof
  import opened RingProtocol
  import opened SampleRing
  import opened Slots

  // The actions lead from s to s'.
  ghost predicate StepsTo(c: Config, s: State, acts: seq<Action>, s': State)
    decreases acts
  {
    if acts == [] then s' == s
    else Sized(c, s) && Enabled(c, s, acts[0]) && StepsTo(c, Next(c, s, acts[0]), acts[1..], s')
  }

  lemma {:induction false} StepsThen(c: Config, s: State, a: seq<Action>, mid: State, b: seq<Action>, s': State)
    requires StepsTo(c, s, a, mid) && StepsTo(c, mid, b, s')
    ensures StepsTo(c, s, a + b, s')
    decreases a
  {
    if a == [] {
      assert a + b == b;
    } else {
      assert (a + b)[1..] == a[1..] + b;
      StepsThen(c, Next(c, s, a[0]), a[1..], mid, b, s');
    }
  }

  lemma OneStep(c: Config, s: State, a: Action)
    requires Sized(c, s) && Enabled(c, s, a)
    ensures StepsTo(c, s, [a], Next(c, s, a))
  {
  }

  // The samples and the retired tickets, as the sequential ring sees them.
  function ViewOf(s: State): View
    requires |s.log| <= |s.samples|
  {
    View(|s.log|, s.samples)
  }

  // Bytes k to the end, in order.
  function WriteFrom(c: Config, k: nat): seq<Action>
    requires k <= c.stride
    decreases c.stride - k
  {
    if k == c.stride then [] else [WriteByte(k)] + WriteFrom(c, k + 1)
  }

  lemma {:induction false} CopyFrom(c: Config, s: State, k: nat) returns (s': State)
    requires Inv(c, s) && s.writer.Copying? && k <= c.stride
    requires forall i :: 0 <= i < c.stride ==> (i in s.writer.done <==> i < k)
    ensures StepsTo(c, s, WriteFrom(c, k), s') && Inv(c, s')
    ensures s'.writer.Copying? && s'.writer.midx == s.writer.midx && AllBytes(c, s'.writer.done)
    ensures s' == s.(mem := s'.mem, writer := s'.writer)
    decreases c.stride - k
  {
    if k == c.stride {
      s' := s;
    } else {
      WriteByteKeeps(c, s, k);
      var mid := WroteByte(c, s, k);
      s' := CopyFrom(c, mid, k + 1);
      assert WriteFrom(c, k)[0] == WriteByte(k) && WriteFrom(c, k)[1..] == WriteFrom(c, k + 1);
    }
  }

  // After the copy: the comparison and, on a full ring, the two halves of `idx +=`.
  lemma FinishWrite(c: Config, s: State) returns (acts: seq<Action>, s': State)
    requires Inv(c, s) && s.writer.Copying? && AllBytes(c, s.writer.done)
    ensures StepsTo(c, s, acts, s') && Inv(c, s') && s'.writer.Resting?
    ensures s'.samples == s.samples && s'.readers == s.readers
    ensures |s'.log| == |s.log| + if Head(s.writer.midx) + c.len == Tail(s.writer.midx) then 1 else 0
  {
    StepKeeps(c, s, EndCopy);
    var s1 := Next(c, s, EndCopy);
    OneStep(c, s, EndCopy);
    StepKeeps(c, s1, Compare);
    var s2 := Next(c, s1, Compare);
    OneStep(c, s1, Compare);
    StepsThen(c, s, [EndCopy], s1, [Compare], s2);
    if s2.writer.Resting? {
      acts, s' := [EndCopy] + [Compare], s2;
    } else {
      StepKeeps(c, s2, LoadIdx);
      var s3 := Next(c, s2, LoadIdx);
      OneStep(c, s2, LoadIdx);
      StepKeeps(c, s3, StoreIdx);
      s' := Next(c, s3, StoreIdx);
      OneStep(c, s3, StoreIdx);
      StepsThen(c, s2, [LoadIdx], s3, [StoreIdx], s');
      StepsThen(c, s, [EndCopy] + [Compare], s2, [LoadIdx] + [StoreIdx], s');
      acts := [EndCopy] + [Compare] + ([LoadIdx] + [StoreIdx]);
    }
  }

  // A write nobody interferes with is the sequential write.
  lemma WriteAlone(c: Config, s: State, sample: Sample) returns (acts: seq<Action>, s': State)
    requires Inv(c, s) && s.writer.Resting? && |sample| == c.stride && Tail(s.idx) + c.stride < TWO32
    ensures acts != [] && acts[0] == TakeTicket(sample)
    ensures StepsTo(c, s, acts, s') && Inv(c, s') && s'.writer.Resting? && s'.readers == s.readers
    ensures ViewOf(s') == WriteView(c, ViewOf(s), sample)
  {
    TakeTicketKeeps(c, s, sample);
    var s1 := TakenTicket(c, s, sample);
    OneStep(c, s, TakeTicket(sample));
    var s2 := CopyFrom(c, s1, 0);
    var rest;
    rest, s' := FinishWrite(c, s2);
    StepsThen(c, s, [TakeTicket(sample)], s1, WriteFrom(c, 0), s2);
    StepsThen(c, s, [TakeTicket(sample)] + WriteFrom(c, 0), s2, rest, s');
    acts := [TakeTicket(sample)] + WriteFrom(c, 0) + rest;
  }

  function ReadFrom(c: Config, r: nat, k: nat): seq<Action>
    requires k <= c.stride
    decreases c.stride - k
  {
    if k == c.stride then [] else [ReadByte(r, k)] + ReadFrom(c, r, k + 1)
  }

  lemma {:induction false} FetchFrom(c: Config, s: State, r: nat, k: nat) returns (s': State)
    requires Inv(c, s) && k <= c.stride && r < |s.readers| && s.readers[r].Reading? && s.readers[r].midx == s.idx
    requires forall i :: 0 <= i < c.stride ==> (i in s.readers[r].got <==> i < k)
    ensures StepsTo(c, s, ReadFrom(c, r, k), s') && Inv(c, s')
    ensures |s'.readers| == |s.readers| && s'.readers[r].Reading? && AllBytes(c, s'.readers[r].got)
    ensures s'.readers[r].midx == s.idx && s'.readers[r].early == s.readers[r].early
    ensures s.readers[r].stale <= s'.readers[r].stale
    ensures forall i: nat :: k <= i < c.stride && Unwritten(s.writer, Head(s.idx), i) ==> i in s'.readers[r].stale
    ensures s' == s.(readers := s'.readers)
    decreases c.stride - k
  {
    assert ReaderInv(c, s, s.readers[r]);
    if k == c.stride {
      s' := s;
    } else {
      ReadByteKeeps(c, s, r, k);
      var mid := Next(c, s, ReadByte(r, k));
      s' := FetchFrom(c, mid, r, k + 1);
      assert ReadFrom(c, r, k)[0] == ReadByte(r, k) && ReadFrom(c, r, k)[1..] == ReadFrom(c, r, k + 1);
    }
  }

  // A read nobody interferes with is the sequential read: it spins or finds the ring empty without changing anything,
  // or takes exactly the sample the sequential read delivers.
  lemma ReadAlone(c: Config, s: State, r: nat, bucket: Sample) returns (acts: seq<Action>, s': State)
    requires Inv(c, s) && s.writer.Resting? && |bucket| == c.stride
    requires r < |s.readers| && s.readers[r].Outside?
    ensures acts != [] && acts[0] == Enter(r, bucket)
    ensures StepsTo(c, s, acts, s') && Inv(c, s') && ViewOf(s') == ReadView(c, ViewOf(s)).0
    ensures match ReadView(c, ViewOf(s)).1
            case Got(sample) =>
              s'.log == s.log + [Consumed(Head(s.idx), r, sample, {}, false)]
            case _ => s' == s
  {
    EnterKeeps(c, s, r, bucket);
    var s1 := Entered(c, s, r, bucket);
    OneStep(c, s, Enter(r, bucket));
    SameTicket(c.stride, |s.log|, |s.samples|);
    if s1.readers[r].Outside? {
      acts, s' := [Enter(r, bucket)], s1;
    } else {
      var s2 := FetchFrom(c, s1, r, 0);
      SwapKeeps(c, s2, r);
      s' := Swapped(c, s2, r);
      OneStep(c, s2, Swap(r));
      StepsThen(c, s, [Enter(r, bucket)], s1, ReadFrom(c, r, 0), s2);
      StepsThen(c, s, [Enter(r, bucket)] + ReadFrom(c, r, 0), s2, [Swap(r)], s');
      acts := [Enter(r, bucket)] + ReadFrom(c, r, 0) + [Swap(r)];
      ReadWhole(c, s', |s.log|);
    }
  }

  lemma ReadWhole(c: Config, s: State, j: nat)
    requires Inv(c, s) && j < |s.log| && s.log[j].Consumed? && !s.log[j].early
    ensures s.log[j].bytes == s.samples[j] && s.log[j].stale == {}
  {
    assert EventInv(c, s, j);
    var e := s.log[j];
    forall k: nat | k < c.stride ensures e.bytes[k] == s.samples[j][k] {
      assert ByteCopied(e.bytes, e.stale, s.samples[j], s.before[j], k);
    }
  }
}
