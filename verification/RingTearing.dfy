// When a read of the ring protocol can return bytes its sample never had.
module RingTearing {
  import opened PackedIndex
  import opened RingAlone
  import opened RingFifo
  import opened RingProof
  import opened RingProtocol
  import opened SampleRing
  import opened Slots

  // The reader holds a copy of the ticket at the head, begun under the index as it still is.
  predicate Fresh(s: State, r: nat) {
    r < |s.readers| && s.readers[r].Reading? && s.readers[r].midx == s.idx
  }

  // From s the actions lead to a state where the read of r succeeds and delivers something else than its sample.
  ghost predicate Tears(c: Config, s: State, r: nat, acts: seq<Action>, s': State) {
    && StepsTo(c, s, acts, s') && s'.idx == s.idx
    && Enabled(c, s', Swap(r)) && Fresh(s', r)
    && |s'.log| < |s'.samples| && s'.readers[r].bucket != s'.samples[|s'.log|]
  }

  // Byte k of the sample at the head is still to be written, and the slot holds another value there.
  predicate Exposed(c: Config, s: State, k: nat)
    requires |s.log| < |s.samples| == |s.before|
  {
    && k < c.stride && Unwritten(s.writer, Head(s.idx), k)
    && k < |s.before[|s.log|]| && k < |s.samples[|s.log|]|
    && s.before[|s.log|][k] != s.samples[|s.log|][k]
  }

  lemma IdxStepGrows(c: Config, s: State, a: Action)
    requires Inv(c, s) && Enabled(c, s, a)
    ensures s.idx <= Next(c, s, a).idx
    ensures s.idx == Next(c, s, a).idx ==>
              && Next(c, s, a).samples == s.samples && Next(c, s, a).before == s.before && Next(c, s, a).log == s.log
              && forall k: nat, t: nat :: Unwritten(Next(c, s, a).writer, t, k) ==> Unwritten(s.writer, t, k)
  {
    match a
    case TakeTicket(sample) => TakeTicketCounts(c, s, sample);
    case StoreIdx =>
      SameTicket(c.stride, |s.log|, |s.samples|);
      HeadMovesCounts(c, s, StoredIdx(c, s));
    case Swap(r) =>
      if s.idx == s.readers[r].midx {
        assert ReaderInv(c, s, s.readers[r]);
        HeadMovesCounts(c, s, Swapped(c, s, r));
      }
    case _ =>
  }

  lemma {:induction false} IdxGrows(c: Config, s: State, acts: seq<Action>, s': State)
    requires Inv(c, s) && StepsTo(c, s, acts, s')
    ensures s.idx <= s'.idx
    decreases acts
  {
    if acts != [] {
      IdxStepGrows(c, s, acts[0]);
      StepKeeps(c, s, acts[0]);
      IdxGrows(c, Next(c, s, acts[0]), acts[1..], s');
    }
  }

  // The bytes copied or still to be written were all unwritten under writer w.
  ghost predicate StaleFrom(s: State, r: nat, w: Writer) {
    && Fresh(s, r)
    && (forall k: nat :: k in s.readers[r].stale ==> Unwritten(w, Head(s.idx), k))
    && (forall k: nat :: Unwritten(s.writer, Head(s.idx), k) ==> Unwritten(w, Head(s.idx), k))
  }

  lemma StaleStep(c: Config, s: State, a: Action, r: nat, w: Writer)
    requires Inv(c, s) && Enabled(c, s, a) && StaleFrom(s, r, w) && Next(c, s, a).idx == s.idx
    ensures StaleFrom(Next(c, s, a), r, w)
  {
    IdxStepGrows(c, s, a);
    if a == Swap(r) {
      assert ReaderInv(c, s, s.readers[r]);
      HeadMovesCounts(c, s, Swapped(c, s, r));
    }
  }

  // While idx stays, no byte becomes stale that was written when the copy began.
  lemma {:induction false} StaleStays(c: Config, s: State, acts: seq<Action>, s': State, r: nat, w: Writer)
    requires Inv(c, s) && StepsTo(c, s, acts, s') && s'.idx == s.idx && StaleFrom(s, r, w)
    ensures Inv(c, s') && StaleFrom(s', r, w)
    ensures s'.samples == s.samples && s'.before == s.before && s'.log == s.log
    decreases acts
  {
    if acts != [] {
      var next := Next(c, s, acts[0]);
      StepKeeps(c, s, acts[0]);
      IdxStepGrows(c, s, acts[0]);
      IdxGrows(c, next, acts[1..], s');
      StaleStep(c, s, acts[0], r, w);
      StaleStays(c, next, acts[1..], s', r, w);
    }
  }

  lemma TearMeansExposed(c: Config, s: State, r: nat, acts: seq<Action>, s': State) returns (k: nat)
    requires Inv(c, s) && StaleFrom(s, r, s.writer) && Tears(c, s, r, acts, s')
    ensures |s.log| < |s.samples| && Exposed(c, s, k)
  {
    StaleStays(c, s, acts, s', r, s.writer);
    var me := s'.readers[r];
    assert ReaderInv(c, s', me);
    var sample, before := s.samples[|s.log|], s.before[|s.log|];
    k :| k < c.stride && me.bucket[k] != sample[k];
    assert ByteCopied(me.bucket, me.stale, sample, before, k);
  }

  lemma ExposedMeansTear(c: Config, s: State, r: nat, k: nat) returns (acts: seq<Action>, s': State)
    requires Inv(c, s) && Fresh(s, r) && s.readers[r].got == {}
    requires |s.log| < |s.samples| && Exposed(c, s, k)
    ensures Tears(c, s, r, acts, s')
  {
    acts := ReadFrom(c, r, 0);
    s' := FetchFrom(c, s, r, 0);
    var me := s'.readers[r];
    assert ReaderInv(c, s', me);
    assert ByteCopied(me.bucket, me.stale, s.samples[|s.log|], s.before[|s.log|], k);
  }

  // Whatever the writer is in the middle of, a read begins to copy exactly when some sample is queued and no more than
  // the ring holds are; then the copy is of the ticket at the head, and early exactly when the writer is still copying
  // and that ticket is its own, the last one issued.
  lemma BeginsIff(c: Config, s: State, r: nat, bucket: Sample)
    requires Inv(c, s) && |bucket| == c.stride && r < |s.readers| && s.readers[r].Outside?
    ensures Enabled(c, s, Enter(r, bucket))
    ensures Entered(c, s, r, bucket).readers[r].Reading? <==> 0 < |s.samples| - |s.log| <= c.Capacity()
    ensures 0 < |s.samples| - |s.log| <= c.Capacity() ==> Fresh(Entered(c, s, r, bucket), r)
    ensures 0 < |s.samples| - |s.log| <= c.Capacity() ==>
              (Entered(c, s, r, bucket).readers[r].early
               <==> s.writer.Copying? && |s.log| == |s.samples| - 1)
    ensures !(0 < |s.samples| - |s.log| <= c.Capacity()) ==> Entered(c, s, r, bucket) == s
  {
    OverrunIffTooMany(c, ViewOf(s));
    SameTicket(c.stride, |s.log|, |s.samples|);
    if |s.samples| > 0 {
      NextTicket(c, |s.samples| - 1);
      SameTicket(c.stride, |s.log|, |s.samples| - 1);
    }
  }

  // A read that has just begun can succeed and deliver something else than its sample exactly when the writer still has
  // to write a byte of that very sample and the slot holds another value there.
  lemma TearsIff(c: Config, s: State, r: nat, bucket: Sample)
    requires Inv(c, s) && |bucket| == c.stride && r < |s.readers| && s.readers[r].Outside?
    requires 0 < |s.samples| - |s.log| <= c.Capacity()
    ensures |s.log| < |s.samples| == |s.before|
    ensures (exists acts, s' :: Tears(c, Entered(c, s, r, bucket), r, acts, s')) <==> exists k: nat :: Exposed(c, s, k)
  {
    var t := Entered(c, s, r, bucket);
    BeginsIff(c, s, r, bucket);
    EnterKeeps(c, s, r, bucket);
    assert ReaderInv(c, t, t.readers[r]);
    if acts, s' :| Tears(c, t, r, acts, s') {
      var k := TearMeansExposed(c, t, r, acts, s');
      assert Exposed(c, s, k);
    }
    if k: nat :| Exposed(c, s, k) {
      var acts, s' := ExposedMeansTear(c, t, r, k);
    }
  }
}
