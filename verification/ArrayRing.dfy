// client/clist/carray.c: a spinlocked ring over a byte array, whose index counts bytes but is compared with an entry
// count.
module ArrayRing {
  import opened ClientSizes
  import opened Slots

  const INT_MAX := 0x7FFF_FFFF

  // The number of slots the ring really uses.
  function Period(len: nat, stride: nat): (p: nat)
    requires len >= 1 && stride >= 1
    ensures p >= 1
  {
    (len - 1 + stride - 1) / stride + 1
  }

  // The last slot in use starts at or after byte len - 1, and every earlier slot before it.
  lemma PeriodSplits(len: nat, stride: nat, r: nat)
    requires len >= 1 && stride >= 1 && r < Period(len, stride)
    ensures r * stride < len - 1 <==> r < Period(len, stride) - 1
  {
    var last := Period(len, stride) - 1;
    var d := (len - 1 + stride - 1) % stride;
    assert len - 1 + stride - 1 == last * stride + d;
    if r < last {
      SlotsInOrder(stride, r, last);
    }
  }

  lemma AreaAtLeastSides(len: nat, stride: nat)
    requires len >= 1 && stride >= 1
    ensures len * stride >= len + stride - 1
  {
    assert (len - 1) * (stride - 1) >= 0;
    assert (len - 1) * (stride - 1) == len * stride - len - stride + 1;
  }

  // The slots in use fit in the allocation of len slots.
  lemma PeriodFits(len: nat, stride: nat)
    requires len >= 1 && stride >= 1
    ensures Period(len, stride) <= len
  {
    var last := Period(len, stride) - 1;
    var d := (len - 1 + stride - 1) % stride;
    assert len - 1 + stride - 1 == last * stride + d;
    AreaAtLeastSides(len, stride);
    if last > len {
      SlotsInOrder(stride, len, last);
    }
  }

  // All len slots are used exactly when entries are single bytes or there are at most two of them.
  lemma AllSlotsUsedIff(len: nat, stride: nat)
    requires len >= 1 && stride >= 1
    ensures Period(len, stride) == len <==> stride == 1 || len <= 2
  {
    PeriodFits(len, stride);
    var p := Period(len, stride);
    if stride >= 2 && len >= 3 {
      AreaAtLeastSides(len - 2, stride - 1);
      assert (len - 2) * (stride - 1) == (len - 2) * stride - (len - 2);
      PeriodSplits(len, stride, p - 1);
      if p == len {
        PeriodSplits(len, stride, len - 2);
      }
    } else if stride >= 2 && len == 2 {
      PeriodSplits(len, stride, 0);
    }
  }

  // The per-CPU array of the client has room for 11915 entries and keeps the last 137, in the first 12056 bytes of its
  // megabyte; the per-task one has room for 682 and keeps the last 9, in the first 864 bytes.
  lemma ClientArraysKeepFew(perCpu: bool, k: nat)
    ensures var len, stride := EntryCount(perCpu), EntrySize(perCpu);
            && len == (if perCpu then 11915 else 682)
            && Period(len, stride) == (if perCpu then 137 else 9)
            && k % Period(len, stride) * stride + stride <= if perCpu then 12056 else 864
  {
    var p := Period(EntryCount(perCpu), EntrySize(perCpu));
    SlotFits(p, EntrySize(perCpu), k % p);
  }

  lemma NextResidue(k: nat, p: nat)
    requires p >= 1
    ensures (k + 1) % p == if k % p == p - 1 then 0 else k % p + 1
  {
    var q, r := k / p, k % p;
    assert k == q * p + r;
    if r == p - 1 {
      assert (q + 1) * p == q * p + p;
      RemainderIs(k + 1, p, q + 1, 0);
    } else {
      RemainderIs(k + 1, p, q, r + 1);
    }
  }

  ghost predicate Holds(mem: seq<Byte>, len: nat, stride: nat, r: nat, sample: Sample)
    requires |mem| == len * stride && r < len
  {
    SlotFits(len, stride, r);
    Slot(mem, stride, r) == sample
  }

  // The buffer keeps the last Period samples, or all of them while there are fewer, each at its slot.
  ghost predicate KeepsLast(mem: seq<Byte>, len: nat, stride: nat, history: seq<Sample>)
    requires len >= 1 && stride >= 1 && |mem| == len * stride
  {
    PeriodFits(len, stride);
    var p := Period(len, stride);
    forall j :: 0 <= j < |history| && |history| - p <= j ==> Holds(mem, len, stride, j % p, history[j])
  }

  lemma KeepsLastAfterWrite(before: seq<Byte>, after: seq<Byte>, len: nat, stride: nat, history: seq<Sample>,
                            sample: Sample)
    requires len >= 1 && stride >= 1 && |before| == len * stride && |sample| == stride
    requires KeepsLast(before, len, stride, history)
    requires CopiedAt(before, after, |history| % Period(len, stride) * stride, sample)
    ensures |after| == |before| && KeepsLast(after, len, stride, history + [sample])
  {
    PeriodFits(len, stride);
    var p, n := Period(len, stride), |history|;
    forall j | 0 <= j < n + 1 && n + 1 - p <= j ensures Holds(after, len, stride, j % p, (history + [sample])[j]) {
      PutSlot(before, after, len, stride, n % p, sample, j % p);
      if j < n {
        ResiduesDiffer(j, n, p);
        assert Holds(before, len, stride, j % p, history[j]);
      }
    }
  }

  lemma NothingWritten(mem: seq<Byte>, len: nat, stride: nat)
    requires len >= 1 && stride >= 1 && |mem| == len * stride
    ensures KeepsLast(mem, len, stride, []) && 0 % Period(len, stride) * stride == 0
  {
  }

  // The two branches of write_clist step from slot k mod Period to slot k + 1 mod Period.
  lemma IndexSteps(len: nat, stride: nat, k: nat)
    requires len >= 1 && stride >= 1
    ensures var p := Period(len, stride);
            var idx := k % p * stride;
            && (if idx < len - 1 then idx + stride else 0) == (k + 1) % p * stride <= (p - 1) * stride
  {
    var p := Period(len, stride);
    var r := k % p;
    NextResidue(k, p);
    PeriodSplits(len, stride, r);
    assert (r + 1) * stride == r * stride + stride;
    SlotsUpTo(stride, (k + 1) % p, p - 1);
  }

  class CArray {
    const len: nat
    const stride: nat
    var idx: int
    const buf: array<Byte>
    // Every sample ever written.
    ghost var history: seq<Sample>

    // After k writes the index is at slot k mod Period, and the buffer keeps the last samples.
    ghost predicate Valid()
      reads this, buf
    {
      && len >= 1 && stride >= 1 && buf.Length == len * stride
      && idx == |history| % Period(len, stride) * stride
      && 0 <= idx <= INT_MAX
      && (Period(len, stride) - 1) * stride <= INT_MAX
      && (forall j :: 0 <= j < |history| ==> |history[j]| == stride)
      && KeepsLast(buf[..], len, stride, history)
    }

    // init_clist, once the allocation has succeeded. The memory is not cleared.
    constructor (entryCount: nat, entrySize: nat, memory: array<Byte>)
      requires entryCount >= 1 && entrySize >= 1 && memory.Length == entryCount * entrySize
      requires (Period(entryCount, entrySize) - 1) * entrySize <= INT_MAX
      ensures Valid() && len == entryCount && stride == entrySize && buf == memory && history == []
    {
      len := entryCount;
      stride := entrySize;
      idx := 0;
      buf := memory;
      history := [];
      new;
      NothingWritten(buf[..], len, stride);
    }

    method Write(bucket: seq<Byte>)
      requires Valid() && |bucket| == stride
      modifies this, buf
      ensures Valid() && history == old(history) + [bucket]
      ensures idx == |history| % Period(len, stride) * stride
      ensures CopiedAt(old(buf[..]), buf[..], old(idx), bucket)
    {
      ghost var p := Period(len, stride);
      ghost var r := |history| % p;
      PeriodFits(len, stride);
      SlotFits(len, stride, r);
      Memcpy(buf, idx, bucket);
      KeepsLastAfterWrite(old(buf[..]), buf[..], len, stride, history, bucket);
      history := history + [bucket];
      IndexSteps(len, stride, |history| - 1);
      if idx < len - 1 {
        idx := idx + stride;
      } else {
        idx := 0;
      }
    }
  }
}
