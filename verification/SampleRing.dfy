// client/clist/nbboundedlist.c run by one thread at a time: the packed index, the byte buffer and the real offsets.
module SampleRing {
  import opened MachineWords
  import opened PackedIndex
  import opened RingFifo
  import opened Slots

  // The slot of ticket number j.
  function SlotOf(c: Config, j: nat): (r: nat)
    requires c.Sound()
    ensures r < c.len
  {
    j * c.stride % c.len
  }

  // Ticket number j is less than one lap behind the next one to be issued, number n.
  predicate InLap(c: Config, n: nat, j: nat) {
    j < n && n * c.stride <= j * c.stride + c.len
  }

  // Slot q of the buffer holds `sample`.
  ghost predicate Holds(c: Config, mem: seq<Byte>, q: nat, sample: Sample)
    requires c.Sound() && |mem| == c.len * c.stride && q < c.len
  {
    SlotFits(c.len, c.stride, q);
    Slot(mem, c.stride, q) == sample
  }

  // The buffer keeps every sample of the last lap, whether or not it has been read.
  ghost predicate KeepsLastLap(c: Config, mem: seq<Byte>, history: seq<Sample>)
    requires c.Sound() && |mem| == c.len * c.stride
  {
    forall j :: 0 <= j < |history| && InLap(c, |history|, j) ==> Holds(c, mem, SlotOf(c, j), history[j])
  }

  // Tickets less than a lap apart never share a slot.
  lemma LapSlotsDiffer(c: Config, n: nat, j: nat)
    requires c.Sound() && j < n && n * c.stride < j * c.stride + c.len
    ensures SlotOf(c, j) != SlotOf(c, n)
  {
    SameTicket(c.stride, j, n);
    ResiduesDiffer(j * c.stride, n * c.stride, c.len);
  }

  // When stride divides len only every stride-th slot is ever used: ticket number j goes to slot stride * (j mod
  // capacity), so the samples kept fill len / stride of the len slots allocated.
  lemma SlotsUsed(c: Config, j: nat)
    requires c.Sound() && c.Divides()
    ensures c.Capacity() >= 1 && SlotOf(c, j) == j % c.Capacity() * c.stride
  {
    var cap := c.Capacity();
    var q, r := j / cap, j % cap;
    assert c.len == cap * c.stride;
    assert j * c.stride == (q * cap + r) * c.stride;
    assert (q * cap + r) * c.stride == q * (cap * c.stride) + r * c.stride;
    SlotsInOrder(c.stride, r, cap);
    RemainderIs(j * c.stride, c.len, q, r * c.stride);
  }

  lemma LapAfterWrite(c: Config, before: seq<Byte>, after: seq<Byte>, history: seq<Sample>, sample: Sample)
    requires c.Sound() && |before| == c.len * c.stride && |sample| == c.stride
    requires KeepsLastLap(c, before, history)
    requires CopiedAt(before, after, SlotOf(c, |history|) * c.stride, sample)
    ensures |after| == |before| && KeepsLastLap(c, after, history + [sample])
  {
    var n := |history|;
    var r := SlotOf(c, n);
    assert (n + 1) * c.stride == n * c.stride + c.stride;
    forall j | 0 <= j < n + 1 && InLap(c, n + 1, j)
      ensures Holds(c, after, SlotOf(c, j), (history + [sample])[j])
    {
      PutSlot(before, after, c.len, c.stride, r, sample, SlotOf(c, j));
      if j < n {
        LapSlotsDiffer(c, n, j);
        assert InLap(c, n, j);
        assert Holds(c, before, SlotOf(c, j), history[j]);
      }
    }
  }

  // The index after one more ticket has been handed out, and after one more has left.
  lemma IndexAfterTake(c: Config, idx: U64, n: nat)
    requires c.stride < TWO32 && Tail(idx) == n * c.stride && Tail(idx) + c.stride < TWO32
    ensures Head(Add64(idx, c.stride)) == Head(idx) && Tail(Add64(idx, c.stride)) == (n + 1) * c.stride
  {
    AddTail(idx, c.stride);
    assert (n + 1) * c.stride == n * c.stride + c.stride;
  }

  lemma IndexAfterLeave(c: Config, idx: U64, gone: nat, n: nat)
    requires c.Sound() && c.stride < TWO32
    requires Head(idx) == gone * c.stride && Tail(idx) == n * c.stride && gone < n
    ensures var idx' := Add64(idx, HighUnits(c.stride));
            Head(idx') == (gone + 1) * c.stride && Tail(idx') == n * c.stride
  {
    SlotsInOrder(c.stride, gone, n);
    assert (gone + 1) * c.stride == gone * c.stride + c.stride;
    AddHead(idx, c.stride);
  }

  // The slot HEAD points at holds the oldest sample owed, and copying it fills a bucket of that size.
  lemma OldestInPlace(c: Config, mem: seq<Byte>, history: seq<Sample>, gone: nat, head: nat, at: nat)
    requires c.Sound() && |mem| == c.len * c.stride && KeepsLastLap(c, mem, history)
    requires gone < |history| && |history| * c.stride <= gone * c.stride + c.len
    requires head == gone * c.stride && at == c.stride * (head % c.len)
    ensures at + c.stride <= |mem| && mem[at..at + c.stride] == history[gone]
  {
    SlotFits(c.len, c.stride, head % c.len);
    assert Holds(c, mem, SlotOf(c, gone), history[gone]);
  }

  lemma WholeBucket(before: seq<Byte>, after: seq<Byte>, sample: Sample)
    requires |before| == |sample| && CopiedAt(before, after, 0, sample)
    ensures after == sample
  {
  }

  class NbBoundedList {
    const len: nat
    const stride: nat
    var idx: U64
    const buf: array<Byte>
    // Every sample ever written, and how many have been read or dropped.
    ghost var history: seq<Sample>
    ghost var gone: nat

    ghost function Shape(): Config {
      Config(len, stride)
    }

    ghost predicate Valid()
      reads this, buf
    {
      && Shape().Sound() && stride < TWO32
      && buf.Length == len * stride
      && gone <= |history|
      && Tail(idx) == |history| * stride
      && Head(idx) == gone * stride
      && (forall j :: 0 <= j < |history| ==> |history[j]| == stride)
      && KeepsLastLap(Shape(), buf[..], history)
    }

    ghost function View(): View
      requires Valid()
      reads this, buf
    {
      RawView.View(gone, history)
    }

    // init_clist, once the allocation has succeeded. The memory is not cleared.
    constructor (entryCount: nat, entrySize: nat, memory: array<Byte>)
      requires entryCount >= 1 && 1 <= entrySize < TWO32
      requires memory.Length == entryCount * entrySize
      ensures Valid() && len == entryCount && stride == entrySize && buf == memory
      ensures View() == Start
    {
      len := entryCount;
      stride := entrySize;
      idx := 0;
      buf := memory;
      history := [];
      gone := 0;
    }

    method Write(bucket: seq<Byte>)
      requires Valid() && |bucket| == stride
      requires Tail(idx) + stride < TWO32
      modifies this`idx, this`history, this`gone, buf
      ensures Valid() && View() == WriteView(Shape(), old(View()), bucket)
      ensures CopiedAt(old(buf[..]), buf[..], SlotOf(Shape(), |old(history)|) * stride, bucket)
    {
      var midx := idx;
      IndexAfterTake(Shape(), idx, |history|);
      idx := Add64(idx, stride);
      SlotFits(len, stride, Tail(midx) % len);
      Memcpy(buf, stride * (Tail(midx) % len), bucket);
      LapAfterWrite(Shape(), old(buf[..]), buf[..], history, bucket);
      history := history + [bucket];
      if Head(midx) + len == Tail(midx) {
        SameTicket(stride, gone, |history| - 1);
        IndexAfterLeave(Shape(), idx, gone, |history|);
        idx := Add64(idx, HighUnits(stride));
        gone := gone + 1;
      }
    }

    // With nobody else running, the reload loop leaves at once or never, and the compare-and-swap succeeds.
    method Read(bucket: array<Byte>) returns (r: Outcome)
      requires Valid() && bucket.Length == stride && bucket != buf
      modifies this`idx, this`gone, bucket
      ensures Valid() && (View(), r) == ReadView(Shape(), old(View()))
      ensures bucket[..] == if r.Got? then r.sample else old(bucket[..])
    {
      var midx := idx;
      if Head(midx) + len < Tail(midx) {
        return Spins;
      }
      SameTicket(stride, gone, |history|);
      if Head(midx) == Tail(midx) {
        return Empty;
      }
      var at := stride * (Head(midx) % len);
      OldestInPlace(Shape(), buf[..], history, gone, Head(midx), at);
      Memcpy(bucket, 0, buf[at..at + stride]);
      WholeBucket(old(bucket[..]), bucket[..], history[gone]);
      IndexAfterLeave(Shape(), idx, gone, |history|);
      idx := Add64(idx, HighUnits(stride));
      gone := gone + 1;
      r := Got(bucket[..]);
    }
  }
}
