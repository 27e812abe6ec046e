// A byte buffer cut into equal slots, as every buffer of client/clist is addressed.
module Slots {
  type Byte = b: int | 0 <= b < 256

  // One entry.
  type Sample = seq<Byte>

  // The bytes of a region.
  function Region(buf: seq<Byte>, at: nat, size: nat): (s: seq<Byte>)
    requires at + size <= |buf|
    ensures |s| == size
  {
    buf[at..at + size]
  }

  // The bytes of slot r.
  function Slot(buf: seq<Byte>, stride: nat, r: nat): (s: seq<Byte>)
    requires r * stride + stride <= |buf|
    ensures |s| == stride
  {
    Region(buf, r * stride, stride)
  }

  // At least one lap is at least as long as a lap.
  lemma AtLeastOne(laps: int, len: nat)
    requires laps >= 1
    ensures laps * len >= len
  {
    var more := laps - 1;
    assert more * len >= 0;
    assert laps * len == more * len + len;
  }

  // Slot q > r starts at or after the end of slot r.
  lemma SlotsInOrder(stride: nat, r: nat, q: nat)
    requires r < q
    ensures r * stride + stride <= q * stride
  {
    AtLeastOne(q - r, stride);
    assert (q - r) * stride == q * stride - r * stride;
  }

  lemma SlotsUpTo(stride: nat, r: nat, last: nat)
    requires r <= last
    ensures r * stride <= last * stride
  {
    if r < last {
      SlotsInOrder(stride, r, last);
    }
  }

  // A slot number below the entry count stays inside the allocation.
  lemma SlotFits(len: nat, stride: nat, r: nat)
    requires r < len
    ensures r * stride + stride <= len * stride
  {
    SlotsInOrder(stride, r, len);
  }

  // Two different slots do not overlap.
  lemma SlotsApart(stride: nat, r: nat, q: nat)
    requires r != q
    ensures r * stride + stride <= q * stride || q * stride + stride <= r * stride
  {
    if r < q {
      SlotsInOrder(stride, r, q);
    } else {
      SlotsInOrder(stride, q, r);
    }
  }

  // `after` is `before` with `sample` copied in at offset `at`.
  ghost predicate CopiedAt(before: seq<Byte>, after: seq<Byte>, at: nat, sample: seq<Byte>) {
    at + |sample| <= |before| && after == before[..at] + sample + before[at + |sample|..]
  }

  method Memcpy(dst: array<Byte>, at: nat, src: seq<Byte>)
    requires at + |src| <= dst.Length
    modifies dst
    ensures CopiedAt(old(dst[..]), dst[..], at, src)
  {
    forall k | 0 <= k < |src| {
      dst[at + k] := src[k];
    }
  }

  // Copying a sample into one region makes it the content there and leaves a region apart from it alone.
  lemma CopyHere(before: seq<Byte>, after: seq<Byte>, at: nat, sample: seq<Byte>)
    requires CopiedAt(before, after, at, sample)
    ensures |after| == |before| && Region(after, at, |sample|) == sample
  {
  }

  lemma CopyApart(before: seq<Byte>, after: seq<Byte>, at: nat, sample: seq<Byte>, other: nat, size: nat)
    requires other + size <= |before|
    requires CopiedAt(before, after, at, sample)
    requires at + |sample| <= other || other + size <= at
    ensures |after| == |before| && Region(after, other, size) == Region(before, other, size)
  {
    forall i | other <= i < other + size ensures after[i] == before[i] {
    }
  }

  // Copying a whole sample into slot r makes it the content of r and changes no other slot.
  lemma PutSlot(before: seq<Byte>, after: seq<Byte>, len: nat, stride: nat, r: nat, sample: seq<Byte>, q: nat)
    requires |before| == len * stride && r < len && q < len && |sample| == stride
    requires CopiedAt(before, after, r * stride, sample)
    ensures |after| == |before| && q * stride + stride <= |before|
    ensures Slot(after, stride, q) == if q == r then sample else Slot(before, stride, q)
  {
    SlotFits(len, stride, q);
    if r == q {
      CopyHere(before, after, r * stride, sample);
    } else {
      SlotsApart(stride, r, q);
      CopyApart(before, after, r * stride, sample, q * stride, stride);
    }
  }

  // Quotient and remainder are unique.
  lemma DivisionIsUnique(len: int, q: int, r: int, q': int, r': int)
    requires 0 <= r < len && 0 <= r' < len
    requires q * len + r == q' * len + r'
    ensures q == q' && r == r'
  {
    assert (q - q') * len == q * len - q' * len;
    assert (q' - q) * len == q' * len - q * len;
    if q > q' {
      AtLeastOne(q - q', len);
    } else if q < q' {
      AtLeastOne(q' - q, len);
    }
  }

  // The remainder that goes with a known quotient.
  lemma RemainderIs(a: int, len: int, q: int, r: int)
    requires 0 <= r < len && a == q * len + r
    ensures a % len == r && a / len == q
  {
    var q', r' := a / len, a % len;
    assert a == q' * len + r' by {
      assert a == len * q' + r';
    }
    DivisionIsUnique(len, q, r, q', r');
  }

  // A number and the same number one lap later fall on the same slot.
  lemma ResidueOfNextLap(a: nat, len: nat)
    requires len >= 1
    ensures (a + len) % len == a % len
  {
    var q, r := a / len, a % len;
    assert (q + 1) * len == q * len + len;
    RemainderIs(a + len, len, q + 1, r);
  }

  // Two numbers less than len apart fall on different slots of a ring of len slots.
  lemma ResiduesDiffer(a: nat, b: nat, len: nat)
    requires a < b < a + len
    ensures a % len != b % len
  {
    var r, d := a % len, b - a;
    var q := a / len;
    assert a == q * len + r;
    if r + d < len {
      RemainderIs(b, len, q, r + d);
    } else {
      assert (q + 1) * len == q * len + len;
      RemainderIs(b, len, q + 1, r + d - len);
    }
  }
}
