// Every step of the ring protocol keeps its invariant.
module RingProof {
  import opened PackedIndex
  import opened RingFifo
  import opened RingProtocol
  import opened SampleRing
  import opened Slots

  lemma InitInv(c: Config, s: State)
    requires Init(c, s)
    ensures Inv(c, s)
  {
  }

  lemma NextTicket(c: Config, n: nat)
    ensures (n + 1) * c.stride == n * c.stride + c.stride
  {
  }

  lemma SlotByteAt(c: Config, mem: seq<Byte>, r: nat, k: nat)
    requires |mem| == c.len * c.stride && r < c.len && k < c.stride
    ensures SlotBytes(c, mem, r)[k] == ByteAt(c, mem, r, k)
  {
    SlotFits(c.len, c.stride, r);
  }

  // Writing byte k of slot r, seen from byte i of slot q.
  lemma SetByteSeen(c: Config, mem: seq<Byte>, r: nat, k: nat, b: Byte, q: nat, i: nat)
    requires c.Sound() && |mem| == c.len * c.stride && r < c.len && q < c.len && k < c.stride && i < c.stride
    ensures ByteAt(c, SetByte(c, mem, r, k, b), q, i) == if q == r && i == k then b else ByteAt(c, mem, q, i)
  {
    SlotFits(c.len, c.stride, q);
    SlotFits(c.len, c.stride, r);
    if q != r {
      SlotsApart(c.stride, q, r);
    }
  }

  // ---- xadd ----

  lemma TakeTicketCounts(c: Config, s: State, sample: Sample)
    requires Counts(c, s) && Enabled(c, s, TakeTicket(sample))
    ensures Counts(c, TakenTicket(c, s, sample))
    ensures Head(TakenTicket(c, s, sample).idx) == Head(s.idx)
    ensures Tail(TakenTicket(c, s, sample).idx) == Tail(s.idx) + c.stride
    ensures s.idx < TakenTicket(c, s, sample).idx
  {
    AddTail(s.idx, c.stride);
    NextTicket(c, |s.samples|);
  }

  lemma TakeTicketWriter(c: Config, s: State, sample: Sample)
    requires Inv(c, s) && Enabled(c, s, TakeTicket(sample)) && Counts(c, TakenTicket(c, s, sample))
    ensures WriterInv(c, TakenTicket(c, s, sample))
  {
    var s' := TakenTicket(c, s, sample);
    TakeTicketCounts(c, s, sample);
    if c.Divides() {
      DistanceInSamples(c, View(|s.log|, s.samples));
      DistanceInSamples(c, View(|s'.log|, s'.samples));
    }
  }

  lemma TakeTicketMemory(c: Config, s: State, sample: Sample)
    requires Inv(c, s) && Enabled(c, s, TakeTicket(sample)) && Counts(c, TakenTicket(c, s, sample))
    ensures MemoryInv(c, TakenTicket(c, s, sample))
  {
    var s' := TakenTicket(c, s, sample);
    var n := |s.samples|;
    NextTicket(c, n);
    forall j: nat, k: nat | j < n + 1 && InLap(c, n + 1, j) && k < c.stride ensures ByteHolds(c, s', j, k) {
      if j < n {
        assert InLap(c, n, j);
        assert ByteHolds(c, s, j, k);
      } else {
        SlotByteAt(c, s.mem, SlotOf(c, n), k);
      }
    }
  }

  // With divisibility the slot of the next ticket holds the sample a whole capacity older.
  lemma OneLapBack(c: Config, s: State)
    requires Inv(c, s) && s.writer.Resting? && c.Divides() && |s.samples| >= c.Capacity()
    ensures SlotBytes(c, s.mem, SlotAt(c, Tail(s.idx))) == s.samples[|s.samples| - c.Capacity()]
  {
    var cap, n := c.Capacity(), |s.samples|;
    var j := n - cap;
    DistanceInSamples(c, View(j, s.samples));
    ResidueOfNextLap(j * c.stride, c.len);
    assert SlotOf(c, j) == SlotAt(c, Tail(s.idx));
    assert InLap(c, n, j);
    forall k | 0 <= k < c.stride ensures SlotBytes(c, s.mem, SlotOf(c, j))[k] == s.samples[j][k] {
      assert ByteHolds(c, s, j, k);
      SlotByteAt(c, s.mem, SlotOf(c, j), k);
    }
  }

  lemma TakeTicketKeeps(c: Config, s: State, sample: Sample)
    requires Inv(c, s) && Enabled(c, s, TakeTicket(sample))
    ensures Inv(c, TakenTicket(c, s, sample))
  {
    var s' := TakenTicket(c, s, sample);
    TakeTicketCounts(c, s, sample);
    TakeTicketWriter(c, s, sample);
    TakeTicketMemory(c, s, sample);
    forall r | 0 <= r < |s'.readers| ensures ReaderInv(c, s', s'.readers[r]) {
      assert ReaderInv(c, s, s.readers[r]);
    }
    HistoryGrows(c, s, s');
    if c.Divides() && |s.samples| >= c.Capacity() {
      OneLapBack(c, s);
    }
    assert BeforeInv(c, s', |s.samples|);
  }

  // What is recorded about old tickets stays true when the records only grow.
  lemma HistoryGrows(c: Config, s: State, s': State)
    requires Inv(c, s) && Counts(c, s')
    requires s.samples <= s'.samples && s.before <= s'.before && s.log <= s'.log
    ensures forall j :: 0 <= j < |s.log| ==> EventInv(c, s', j)
    ensures forall j :: 0 <= j < |s.samples| ==> BeforeInv(c, s', j)
  {
    forall j | 0 <= j < |s.log| ensures EventInv(c, s', j) {
      assert EventInv(c, s, j);
    }
    forall j | 0 <= j < |s.samples| ensures BeforeInv(c, s', j) {
      assert BeforeInv(c, s, j);
    }
  }

  // ---- the writer's copy ----

  lemma WriteByteMemory(c: Config, s: State, k: nat)
    requires Inv(c, s) && WriterCan(c, s, k) && Counts(c, WroteByte(c, s, k))
    ensures MemoryInv(c, WroteByte(c, s, k))
  {
    var s' := WroteByte(c, s, k);
    var n := |s.samples|;
    NextTicket(c, n - 1);
    var r := SlotAt(c, Tail(s.writer.midx));
    assert SlotOf(c, n - 1) == r;
    forall j: nat, i: nat | j < n && InLap(c, n, j) && i < c.stride ensures ByteHolds(c, s', j, i) {
      assert ByteHolds(c, s, j, i);
      SetByteSeen(c, s.mem, r, k, s.writer.sample[k], SlotOf(c, j), i);
      if j < n - 1 {
        LapSlotsDiffer(c, n - 1, j);
      }
    }
  }

  lemma WriteByteKeeps(c: Config, s: State, k: nat)
    requires Inv(c, s) && WriterCan(c, s, k)
    ensures Inv(c, WroteByte(c, s, k))
  {
    var s' := WroteByte(c, s, k);
    assert Counts(c, s') && WriterInv(c, s');
    WriteByteMemory(c, s, k);
    forall r | 0 <= r < |s'.readers| ensures ReaderInv(c, s', s'.readers[r]) {
      assert ReaderInv(c, s, s.readers[r]);
    }
    HistoryGrows(c, s, s');
  }

  // The writer's bookkeeping steps touch neither memory, index nor records.
  lemma WriterMoves(c: Config, s: State, s': State)
    requires Inv(c, s) && s' == s.(writer := s'.writer) && WriterInv(c, s')
    requires !s'.writer.Copying?
    requires s.writer.Copying? ==> AllBytes(c, s.writer.done)
    ensures Inv(c, s')
  {
    forall j: nat, k: nat | j < |s.samples| && InLap(c, |s.samples|, j) && k < c.stride ensures ByteHolds(c, s', j, k) {
      assert ByteHolds(c, s, j, k);
    }
    forall r | 0 <= r < |s'.readers| ensures ReaderInv(c, s', s'.readers[r]) {
      assert ReaderInv(c, s, s.readers[r]);
    }
    HistoryGrows(c, s, s');
  }

  // ---- HEAD moves by one sample: the end of a drop, or a compare-and-swap that succeeds ----

  lemma HeadMovesCounts(c: Config, s: State, s': State)
    requires Counts(c, s) && |s.log| < |s.samples|
    requires s'.idx == Add64(s.idx, HighUnits(c.stride)) && s'.mem == s.mem
    requires s'.samples == s.samples && s'.before == s.before && |s'.log| == |s.log| + 1
    ensures Counts(c, s') && Tail(s'.idx) == Tail(s.idx) && Head(s'.idx) == Head(s.idx) + c.stride
    ensures s.idx < s'.idx
  {
    NextTicket(c, |s.log|);
    SlotsInOrder(c.stride, |s.log|, |s.samples|);
    AddHead(s.idx, c.stride);
  }

  lemma HeadMoves(c: Config, s: State, s': State, e: Event)
    requires Inv(c, s) && |s.log| < |s.samples|
    requires s'.idx == Add64(s.idx, HighUnits(c.stride)) && s'.mem == s.mem
    requires s'.samples == s.samples && s'.before == s.before && s'.log == s.log + [e]
    requires s.writer == s'.writer || (!s.writer.Copying? && !s'.writer.Copying?)
    requires Counts(c, s') && WriterInv(c, s')
    requires |s'.readers| == |s.readers|
    requires forall r :: 0 <= r < |s.readers| ==> s'.readers[r] == s.readers[r] || s'.readers[r] == Outside
    requires e.ticket == Head(s.idx)
    requires e.Consumed? ==>
               WholeCopy(c, e.bytes, e.stale, s.samples[|s.log|], s.before[|s.log|]) && (!e.early ==> e.stale == {})
    ensures Inv(c, s')
  {
    HeadMovesCounts(c, s, s');
    forall j: nat, k: nat | j < |s.samples| && InLap(c, |s.samples|, j) && k < c.stride ensures ByteHolds(c, s', j, k) {
      assert ByteHolds(c, s, j, k);
    }
    forall r | 0 <= r < |s'.readers| ensures ReaderInv(c, s', s'.readers[r]) {
      assert ReaderInv(c, s, s.readers[r]);
    }
    HistoryGrows(c, s, s');
    assert EventInv(c, s', |s.log|);
  }

  lemma StoreKeeps(c: Config, s: State)
    requires Inv(c, s) && s.writer.Storing?
    ensures Inv(c, StoredIdx(c, s))
  {
    var s' := StoredIdx(c, s);
    SameTicket(c.stride, |s.log|, |s.samples|);
    HeadMovesCounts(c, s, s');
    HeadMoves(c, s, s', Dropped(Head(s.idx)));
  }

  // ---- readers ----

  lemma EnterKeeps(c: Config, s: State, r: nat, bucket: Sample)
    requires Inv(c, s) && Enabled(c, s, Enter(r, bucket))
    ensures Inv(c, Entered(c, s, r, bucket))
  {
    var s' := Entered(c, s, r, bucket);
    if s' != s {
      SameTicket(c.stride, |s.log|, |s.samples|);
      assert ReaderInv(c, s', s'.readers[r]);
      OtherReaders(c, s, s', r);
    }
  }

  // A step of reader r that writes only its own local state.
  lemma OtherReaders(c: Config, s: State, s': State, r: nat)
    requires Inv(c, s) && r < |s.readers|
    requires s' == s.(readers := s'.readers) && |s'.readers| == |s.readers|
    requires forall q :: 0 <= q < |s.readers| && q != r ==> s'.readers[q] == s.readers[q]
    requires ReaderInv(c, s', s'.readers[r])
    ensures Inv(c, s')
  {
    forall j: nat, k: nat | j < |s.samples| && InLap(c, |s.samples|, j) && k < c.stride ensures ByteHolds(c, s', j, k) {
      assert ByteHolds(c, s, j, k);
    }
    forall q | 0 <= q < |s'.readers| ensures ReaderInv(c, s', s'.readers[q]) {
      if q != r {
        assert ReaderInv(c, s, s.readers[q]);
      }
    }
    HistoryGrows(c, s, s');
  }

  // While the index is still the one the reader loaded, byte k of its slot is the sample's byte, or a stale one.
  lemma ByteRead(c: Config, s: State, r: nat, k: nat)
    requires Inv(c, s) && ReaderCan(c, s, r, k) && s.readers[r].midx == s.idx
    ensures |s.log| < |s.samples| && k < |s.samples[|s.log|]| == |s.before[|s.log|]|
    ensures ByteAt(c, s.mem, SlotAt(c, Head(s.idx)), k)
            == if Unwritten(s.writer, Head(s.idx), k) then s.before[|s.log|][k] else s.samples[|s.log|][k]
  {
    var j, n := |s.log|, |s.samples|;
    assert ReaderInv(c, s, s.readers[r]);
    assert InLap(c, n, j);
    assert ByteHolds(c, s, j, k);
    assert SlotOf(c, j) == SlotAt(c, Head(s.idx));
    NextTicket(c, n - 1);
    SameTicket(c.stride, j, n - 1);
  }

  lemma ReadByteKeeps(c: Config, s: State, r: nat, k: nat)
    requires Inv(c, s) && ReaderCan(c, s, r, k)
    ensures Inv(c, s.(readers := s.readers[r := ReadOne(c, s, r, k)]))
  {
    var s' := s.(readers := s.readers[r := ReadOne(c, s, r, k)]);
    var me, me' := s.readers[r], s'.readers[r];
    assert ReaderInv(c, s, me);
    if me.midx == s.idx {
      ByteRead(c, s, r, k);
      var sample, before := s.samples[|s.log|], s.before[|s.log|];
      forall i: nat | i < c.stride && i in me'.got ensures ByteCopied(me'.bucket, me'.stale, sample, before, i) {
        if i != k {
          assert ByteCopied(me.bucket, me.stale, sample, before, i);
        }
      }
      assert CopyOf(c, me'.bucket, me'.got, me'.stale, sample, before);
    }
    assert ReaderInv(c, s', me');
    OtherReaders(c, s, s', r);
  }

  lemma CopiedWhole(c: Config, bytes: Sample, got: set<nat>, stale: set<nat>, sample: Sample, before: Sample)
    requires AllBytes(c, got) && CopyOf(c, bytes, got, stale, sample, before)
    ensures WholeCopy(c, bytes, stale, sample, before)
  {
    forall k: nat | k < c.stride ensures ByteCopied(bytes, stale, sample, before, k) {
      assert k in got;
    }
  }

  lemma SwapKeeps(c: Config, s: State, r: nat)
    requires Inv(c, s) && Enabled(c, s, Swap(r))
    ensures Inv(c, Swapped(c, s, r))
  {
    var s', me := Swapped(c, s, r), s.readers[r];
    assert ReaderInv(c, s, me);
    if s.idx == me.midx {
      HeadMovesCounts(c, s, s');
      CopiedWhole(c, me.bucket, me.got, me.stale, s.samples[|s.log|], s.before[|s.log|]);
      HeadMoves(c, s, s', Consumed(Head(me.midx), r, me.bucket, me.stale, me.early));
    } else {
      OtherReaders(c, s, s', r);
    }
  }

  // ---- all steps ----

  lemma StepKeeps(c: Config, s: State, a: Action)
    requires Inv(c, s) && Enabled(c, s, a)
    ensures Inv(c, Next(c, s, a))
  {
    match a
    case TakeTicket(sample) => TakeTicketKeeps(c, s, sample);
    case WriteByte(k) => WriteByteKeeps(c, s, k);
    case EndCopy => WriterMoves(c, s, Next(c, s, a));
    case Compare => WriterMoves(c, s, Next(c, s, a));
    case LoadIdx => WriterMoves(c, s, Next(c, s, a));
    case StoreIdx => StoreKeeps(c, s);
    case Enter(r, bucket) => EnterKeeps(c, s, r, bucket);
    case ReadByte(r, k) => ReadByteKeeps(c, s, r, k);
    case Swap(r) => SwapKeeps(c, s, r);
  }
}
