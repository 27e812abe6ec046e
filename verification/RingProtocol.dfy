// client/clist/nbboundedlist.c under concurrency: one writer, any number of readers, one memory access per step.
//
// Copies go byte by byte, in any order. The writer's `idx +=` is a load and a store. Steps are totally ordered
// (sequential consistency). `samples`, `before` and `log` record the run: the sample written for each ticket, what its
// slot held when the ticket was taken, and the tickets that left the queue, in the order they left it.
module RingProtocol {
  import opened MachineWords
  import opened PackedIndex
  import opened RingFifo
  import opened SampleRing
  import opened Slots

  datatype Writer =
    | Resting
    | Copying(midx: U64, sample: Sample, done: set<nat>)  // after xadd, inside memcpy
    | Comparing(midx: U64)                              // memcpy finished
    | Loading(midx: U64)                                // the comparison held: `idx +=` begins
    | Storing(loaded: U64)                              // `idx` loaded, not yet stored

  datatype Reader =
    | Outside
    // The index passed both tests; `got` are the bytes copied so far. `stale` are those copied while the writer had not
    // yet written them, and `early` says that the writer was still copying this very ticket when `idx` was loaded.
    | Reading(midx: U64, bucket: Sample, got: set<nat>, stale: set<nat>, early: bool)

  datatype Event =
    | Consumed(ticket: nat, reader: nat, bytes: Sample, stale: set<nat>, early: bool)
    | Dropped(ticket: nat)

  datatype State = State(
    idx: U64, mem: seq<Byte>, writer: Writer, readers: seq<Reader>,
    samples: seq<Sample>, before: seq<Sample>, log: seq<Event>)

  datatype Action =
    | TakeTicket(sample: Sample)
    | WriteByte(k: nat)
    | EndCopy
    | Compare
    | LoadIdx
    | StoreIdx
    | Enter(reader: nat, bucket: Sample)
    | ReadByte(reader: nat, k: nat)
    | Swap(reader: nat)

  ghost predicate Init(c: Config, s: State) {
    && c.Sound() && c.stride < TWO32
    && s.idx == 0 && |s.mem| == c.len * c.stride && s.writer == Resting
    && (forall r :: 0 <= r < |s.readers| ==> s.readers[r] == Outside)
    && s.samples == [] && s.before == [] && s.log == []
  }

  // Where the slot of a loaded index half starts.
  function SlotAt(c: Config, ticket: nat): (r: nat)
    requires c.Sound()
    ensures r < c.len
  {
    ticket % c.len
  }

  // The writer holds `ticket` and has not written byte k of it yet.
  predicate Unwritten(w: Writer, ticket: nat, k: nat) {
    w.Copying? && Tail(w.midx) == ticket && k !in w.done
  }

  predicate AllBytes(c: Config, bytes: set<nat>) {
    forall k: nat :: k < c.stride ==> k in bytes
  }

  // One byte of slot r.
  function ByteAt(c: Config, mem: seq<Byte>, r: nat, k: nat): Byte
    requires |mem| == c.len * c.stride && r < c.len && k < c.stride
  {
    SlotFits(c.len, c.stride, r);
    mem[r * c.stride + k]
  }

  function SetByte(c: Config, mem: seq<Byte>, r: nat, k: nat, b: Byte): (mem': seq<Byte>)
    requires |mem| == c.len * c.stride && r < c.len && k < c.stride
    ensures |mem'| == |mem|
  {
    SlotFits(c.len, c.stride, r);
    mem[r * c.stride + k := b]
  }

  function SlotBytes(c: Config, mem: seq<Byte>, r: nat): (bytes: seq<Byte>)
    requires |mem| == c.len * c.stride && r < c.len
    ensures |bytes| == c.stride
  {
    SlotFits(c.len, c.stride, r);
    Slot(mem, c.stride, r)
  }

  // What the model needs to be able to step at all.
  predicate Sized(c: Config, s: State) {
    c.Sound() && |s.mem| == c.len * c.stride
  }

  predicate WriterCan(c: Config, s: State, k: nat) {
    s.writer.Copying? && k < c.stride && k !in s.writer.done && k < |s.writer.sample|
  }

  predicate ReaderCan(c: Config, s: State, r: nat, k: nat) {
    r < |s.readers| && s.readers[r].Reading? && k < c.stride && k !in s.readers[r].got && k < |s.readers[r].bucket|
  }

  ghost predicate Enabled(c: Config, s: State, a: Action) {
    match a
    case TakeTicket(sample) => s.writer.Resting? && |sample| == c.stride && Tail(s.idx) + c.stride < TWO32
    case WriteByte(k) => WriterCan(c, s, k)
    case EndCopy => s.writer.Copying? && AllBytes(c, s.writer.done)
    case Compare => s.writer.Comparing?
    case LoadIdx => s.writer.Loading?
    case StoreIdx => s.writer.Storing?
    case Enter(r, bucket) => r < |s.readers| && s.readers[r].Outside? && |bucket| == c.stride
    case ReadByte(r, k) => ReaderCan(c, s, r, k)
    case Swap(r) => r < |s.readers| && s.readers[r].Reading? && AllBytes(c, s.readers[r].got)
  }

  // xadd hands out the ticket.
  function TakenTicket(c: Config, s: State, sample: Sample): State
    requires Sized(c, s)
  {
    s.(idx := Add64(s.idx, c.stride), writer := Copying(s.idx, sample, {}),
       samples := s.samples + [sample], before := s.before + [SlotBytes(c, s.mem, SlotAt(c, Tail(s.idx)))])
  }

  function WroteByte(c: Config, s: State, k: nat): State
    requires Sized(c, s) && WriterCan(c, s, k)
  {
    s.(mem := SetByte(c, s.mem, SlotAt(c, Tail(s.writer.midx)), k, s.writer.sample[k]),
       writer := Copying(s.writer.midx, s.writer.sample, s.writer.done + {k}))
  }

  // HEAD of the index the writer saw, plus len, against its own ticket.
  function Compared(c: Config, midx: U64): Writer {
    if Head(midx) + c.len == Tail(midx) then Loading(midx) else Resting
  }

  function StoredIdx(c: Config, s: State): State
    requires s.writer.Storing?
  {
    s.(idx := Add64(s.writer.loaded, HighUnits(c.stride)), writer := Resting,
       log := s.log + [Dropped(Head(s.writer.loaded))])
  }

  // The reload loop goes round, the call returns 0, or the copy begins.
  function Entered(c: Config, s: State, r: nat, bucket: Sample): State
    requires r < |s.readers|
  {
    if Head(s.idx) + c.len < Tail(s.idx) || Head(s.idx) == Tail(s.idx) then s
    else
      var early := s.writer.Copying? && Tail(s.writer.midx) == Head(s.idx);
      s.(readers := s.readers[r := Reading(s.idx, bucket, {}, {}, early)])
  }

  function ReadOne(c: Config, s: State, r: nat, k: nat): Reader
    requires Sized(c, s) && ReaderCan(c, s, r, k)
  {
    var me := s.readers[r];
    Reading(me.midx, me.bucket[k := ByteAt(c, s.mem, SlotAt(c, Head(me.midx)), k)], me.got + {k},
            if Unwritten(s.writer, Head(me.midx), k) then me.stale + {k} else me.stale, me.early)
  }

  // cmpxchg: on failure the outer loop starts again.
  function Swapped(c: Config, s: State, r: nat): State
    requires r < |s.readers| && s.readers[r].Reading?
  {
    var me := s.readers[r];
    if s.idx == me.midx then
      s.(idx := Add64(s.idx, HighUnits(c.stride)), readers := s.readers[r := Outside],
         log := s.log + [Consumed(Head(me.midx), r, me.bucket, me.stale, me.early)])
    else s.(readers := s.readers[r := Outside])
  }

  ghost function Next(c: Config, s: State, a: Action): State
    requires Sized(c, s) && Enabled(c, s, a)
  {
    match a
    case TakeTicket(sample) => TakenTicket(c, s, sample)
    case WriteByte(k) => WroteByte(c, s, k)
    case EndCopy => s.(writer := Comparing(s.writer.midx))
    case Compare => s.(writer := Compared(c, s.writer.midx))
    case LoadIdx => s.(writer := Storing(s.idx))
    case StoreIdx => StoredIdx(c, s)
    case Enter(r, bucket) => Entered(c, s, r, bucket)
    case ReadByte(r, k) => s.(readers := s.readers[r := ReadOne(c, s, r, k)])
    case Swap(r) => Swapped(c, s, r)
  }

  // ---- what every reachable state keeps ----

  // The writer took its ticket on a full ring and has not yet moved HEAD.
  predicate InWindow(c: Config, s: State) {
    match s.writer
    case Resting => false
    case Copying(midx, _, _) => Head(midx) + c.len == Tail(midx)
    case Comparing(midx) => Head(midx) + c.len == Tail(midx)
    case Loading(_) => true
    case Storing(_) => true
  }

  // The sizes: both halves of the index count whole samples.
  ghost predicate Counts(c: Config, s: State) {
    && c.Sound() && c.stride < TWO32 && |s.mem| == c.len * c.stride
    && |s.log| <= |s.samples| == |s.before|
    && Tail(s.idx) == |s.samples| * c.stride
    && Head(s.idx) == |s.log| * c.stride
    && (forall j :: 0 <= j < |s.samples| ==> |s.samples[j]| == c.stride)
    && (forall j :: 0 <= j < |s.before| ==> |s.before[j]| == c.stride)
  }

  ghost predicate WriterInv(c: Config, s: State)
    requires Counts(c, s)
  {
    && (!s.writer.Resting? ==> |s.samples| >= 1)
    && (match s.writer
        case Resting => true
        case Copying(midx, sample, _) => Issued(c, s, midx) && sample == s.samples[|s.samples| - 1]
        case Comparing(midx) => Issued(c, s, midx)
        case Loading(midx) => Issued(c, s, midx) && Head(midx) + c.len == Tail(midx)
        case Storing(loaded) => loaded == s.idx)
    && (InWindow(c, s) ==> Tail(s.idx) == Head(s.idx) + c.len + c.stride)
    && (c.Divides() && !InWindow(c, s) ==> Tail(s.idx) <= Head(s.idx) + c.len)
  }

  // midx is what the last xadd returned.
  ghost predicate Issued(c: Config, s: State, midx: U64) {
    && Tail(midx) + c.stride == Tail(s.idx)
    && Head(midx) <= Head(s.idx)
    && (Head(midx) + c.len == Tail(midx) ==> Head(midx) == Head(s.idx))
  }

  // Byte k of the slot of sample j is the byte written for it, or, if the writer has not come to it, the byte before.
  ghost predicate ByteHolds(c: Config, s: State, j: nat, k: nat)
    requires Counts(c, s) && j < |s.samples| && k < c.stride
  {
    ByteAt(c, s.mem, SlotOf(c, j), k)
    == if j == |s.samples| - 1 && s.writer.Copying? && k !in s.writer.done then s.before[j][k] else s.samples[j][k]
  }

  ghost predicate MemoryInv(c: Config, s: State)
    requires Counts(c, s)
  {
    forall j: nat, k: nat :: j < |s.samples| && InLap(c, |s.samples|, j) && k < c.stride ==> ByteHolds(c, s, j, k)
  }

  // Byte k was copied from the sample, unless the reader overtook the writer there.
  ghost predicate ByteCopied(bytes: Sample, stale: set<nat>, sample: Sample, before: Sample, k: nat)
    requires |bytes| == |sample| == |before| && k < |bytes|
  {
    bytes[k] == if k in stale then before[k] else sample[k]
  }

  ghost predicate CopyOf(c: Config, bytes: Sample, got: set<nat>, stale: set<nat>, sample: Sample, before: Sample) {
    && |bytes| == |sample| == |before| == c.stride
    && forall k: nat :: k < c.stride && k in got ==> ByteCopied(bytes, stale, sample, before, k)
  }

  ghost predicate WholeCopy(c: Config, bytes: Sample, stale: set<nat>, sample: Sample, before: Sample) {
    && |bytes| == |sample| == |before| == c.stride
    && forall k: nat :: k < c.stride ==> ByteCopied(bytes, stale, sample, before, k)
  }

  ghost predicate ReaderInv(c: Config, s: State, me: Reader)
    requires Counts(c, s)
  {
    me.Reading? ==>
      && |me.bucket| == c.stride
      && me.midx <= s.idx
      && Head(me.midx) < Tail(me.midx) <= Head(me.midx) + c.len
      && me.stale <= me.got
      && (me.midx == s.idx ==>
            && |s.log| < |s.samples|
            && CopyOf(c, me.bucket, me.got, me.stale, s.samples[|s.log|], s.before[|s.log|])
            && (!me.early ==> me.stale == {} && !(s.writer.Copying? && Tail(s.writer.midx) == Head(me.midx))))
  }

  ghost predicate EventInv(c: Config, s: State, j: nat)
    requires Counts(c, s) && j < |s.log|
  {
    var e := s.log[j];
    && e.ticket == j * c.stride
    && (e.Consumed? ==>
          && WholeCopy(c, e.bytes, e.stale, s.samples[j], s.before[j])
          && (!e.early ==> e.stale == {}))
  }

  // A slot that is reused held the sample one lap older.
  ghost predicate BeforeInv(c: Config, s: State, j: nat)
    requires Counts(c, s) && j < |s.samples|
  {
    c.Divides() && j >= c.Capacity() ==> s.before[j] == s.samples[j - c.Capacity()]
  }

  ghost predicate Inv(c: Config, s: State) {
    && Counts(c, s)
    && WriterInv(c, s)
    && MemoryInv(c, s)
    && (forall r :: 0 <= r < |s.readers| ==> ReaderInv(c, s, s.readers[r]))
    && (forall j :: 0 <= j < |s.log| ==> EventInv(c, s, j))
    && (forall j :: 0 <= j < |s.samples| ==> BeforeInv(c, s, j))
  }
}
