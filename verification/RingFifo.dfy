// What the non-blocking ring means to its callers: a queue that drops its oldest sample when full.
//
// A ticket is a TAIL value handed to a writer. Tickets are multiples of the entry size (`stride`), so the n-th sample
// ever written has ticket n * stride, and the ring compares ticket distances with an entry count (`len`).
module RingFifo {
  import opened ClientSizes
  import opened Slots

  datatype Config = Config(len: nat, stride: nat) {
    predicate Sound() {
      len >= 1 && stride >= 1
    }

    // Whole samples that fit between HEAD and TAIL when they are `len` apart.
    function Capacity(): nat
      requires Sound()
    {
      len / stride
    }

    predicate Divides()
      requires Sound()
    {
      len % stride == 0
    }
  }

  // Every sample ever written, and how many of them have been read or dropped.
  datatype RawView = View(gone: nat, history: seq<Sample>)
  type View = v: RawView | v.gone <= |v.history| witness View(0, [])

  const Start: View := View(0, [])

  function HeadOf(c: Config, v: View): nat {
    v.gone * c.stride
  }

  function TailOf(c: Config, v: View): nat {
    |v.history| * c.stride
  }

  // Samples the ring still owes its readers, oldest first.
  function Queue(v: View): seq<Sample> {
    v.history[v.gone..]
  }

  // The state in which `read_clist` keeps reloading the index.
  predicate Overrun(c: Config, v: View) {
    HeadOf(c, v) + c.len < TailOf(c, v)
  }

  datatype Outcome = Got(sample: Sample) | Empty | Spins

  // `write_clist` seen from outside: HEAD moves when the writer's own ticket was `len` ahead of it.
  function WriteView(c: Config, v: View, sample: Sample): View {
    View(if HeadOf(c, v) + c.len == TailOf(c, v) then v.gone + 1 else v.gone, v.history + [sample])
  }

  // `read_clist` seen from outside, with nobody else running.
  function ReadView(c: Config, v: View): (View, Outcome)
    requires c.Sound()
  {
    if Overrun(c, v) then (v, Spins)
    else if HeadOf(c, v) == TailOf(c, v) then (v, Empty)
    else
      SameTicket(c.stride, v.gone, |v.history|);
      (View(v.gone + 1, v.history), Got(v.history[v.gone]))
  }

  // The reference queue.
  function FifoWrite(capacity: nat, q: seq<Sample>, sample: Sample): seq<Sample> {
    var longer := q + [sample];
    if |longer| <= capacity then longer else longer[|longer| - capacity..]
  }

  datatype Op = Write(sample: Sample) | Read

  function RunRing(c: Config, v: View, ops: seq<Op>): seq<Outcome>
    requires c.Sound()
    decreases ops
  {
    if ops == [] then []
    else match ops[0]
      case Write(s) => RunRing(c, WriteView(c, v, s), ops[1..])
      case Read => var (v', o) := ReadView(c, v); [o] + RunRing(c, v', ops[1..])
  }

  // The ring after a run.
  function After(c: Config, v: View, ops: seq<Op>): View
    requires c.Sound()
    decreases ops
  {
    if ops == [] then v
    else match ops[0]
      case Write(s) => After(c, WriteView(c, v, s), ops[1..])
      case Read => After(c, ReadView(c, v).0, ops[1..])
  }

  function RunFifo(capacity: nat, q: seq<Sample>, ops: seq<Op>): seq<Outcome>
    decreases ops
  {
    if ops == [] then []
    else match ops[0]
      case Write(s) => RunFifo(capacity, FifoWrite(capacity, q, s), ops[1..])
      case Read =>
        if q == [] then [Empty] + RunFifo(capacity, q, ops[1..])
        else [Got(q[0])] + RunFifo(capacity, q[1..], ops[1..])
  }

  // ---- ticket arithmetic ----

  lemma SameTicket(stride: nat, a: nat, b: nat)
    requires stride >= 1
    ensures a * stride == b * stride <==> a == b
    ensures a * stride < b * stride <==> a < b
  {
    if a < b {
      SlotsInOrder(stride, a, b);
    } else if b < a {
      SlotsInOrder(stride, b, a);
    }
  }

  // Comparing a ticket distance with `len`: with divisibility it counts whole samples.
  lemma DistanceInSamples(c: Config, v: View)
    requires c.Sound() && c.Divides()
    ensures HeadOf(c, v) + c.len == TailOf(c, v) <==> |Queue(v)| == c.Capacity()
    ensures Overrun(c, v) <==> |Queue(v)| > c.Capacity()
    ensures c.Capacity() >= 1
  {
    var cap := c.Capacity();
    assert c.len == cap * c.stride;
    assert (v.gone + cap) * c.stride == v.gone * c.stride + cap * c.stride;
    SameTicket(c.stride, v.gone + cap, |v.history|);
  }

  // Without divisibility no two tickets are exactly `len` apart.
  lemma NeverExactlyFull(c: Config, v: View)
    requires c.Sound() && !c.Divides()
    ensures HeadOf(c, v) + c.len != TailOf(c, v)
  {
    var n := |v.history| - v.gone;
    assert n * c.stride == TailOf(c, v) - HeadOf(c, v);
    if HeadOf(c, v) + c.len == TailOf(c, v) {
      RemainderIs(c.len, c.stride, n, 0);
    }
  }

  // A ring is overrun exactly when it owes more samples than fit.
  lemma OverrunIffTooMany(c: Config, v: View)
    requires c.Sound()
    ensures Overrun(c, v) <==> |Queue(v)| > c.Capacity()
  {
    var n, cap := |Queue(v)|, c.Capacity();
    QueueSpans(c, v);
    assert c.len == cap * c.stride + c.len % c.stride;
    if n > cap {
      SlotsInOrder(c.stride, cap, n);
    } else {
      SlotsUpTo(c.stride, n, cap);
    }
  }

  lemma QueueSpans(c: Config, v: View)
    ensures |Queue(v)| * c.stride == TailOf(c, v) - HeadOf(c, v)
  {
  }

  // ---- stride divides len: the ring is the queue ----

  lemma WriteRefines(c: Config, v: View, sample: Sample)
    requires c.Sound() && c.Divides() && !Overrun(c, v)
    ensures !Overrun(c, WriteView(c, v, sample))
    ensures Queue(WriteView(c, v, sample)) == FifoWrite(c.Capacity(), Queue(v), sample)
  {
    DistanceInSamples(c, v);
    DistanceInSamples(c, WriteView(c, v, sample));
  }

  lemma ReadRefines(c: Config, v: View)
    requires c.Sound() && c.Divides() && !Overrun(c, v)
    ensures !Overrun(c, ReadView(c, v).0)
    ensures Queue(v) == [] ==> ReadView(c, v) == (v, Empty)
    ensures Queue(v) != [] ==>
              ReadView(c, v).1 == Got(Queue(v)[0]) && Queue(ReadView(c, v).0) == Queue(v)[1..]
  {
    SameTicket(c.stride, v.gone, |v.history|);
    DistanceInSamples(c, v);
    DistanceInSamples(c, ReadView(c, v).0);
  }

  lemma {:induction false} RingIsFifo(c: Config, v: View, ops: seq<Op>)
    requires c.Sound() && c.Divides() && !Overrun(c, v)
    ensures RunRing(c, v, ops) == RunFifo(c.Capacity(), Queue(v), ops)
    decreases ops
  {
    if ops != [] {
      match ops[0]
      case Write(s) =>
        WriteRefines(c, v, s);
        RingIsFifo(c, WriteView(c, v, s), ops[1..]);
      case Read =>
        ReadRefines(c, v);
        RingIsFifo(c, ReadView(c, v).0, ops[1..]);
    }
  }

  // ---- stride does not divide len: nothing is ever dropped, and the ring wedges ----

  function Writes(n: nat): seq<Op> {
    if n == 0 then [] else [Write([])] + Writes(n - 1)
  }

  // n writes after v, when none of them drops.
  function Appended(v: View, n: nat): (w: View)
    ensures w.gone == v.gone && |w.history| == |v.history| + n
    decreases n
  {
    if n == 0 then v else Appended(View(v.gone, v.history + [[]]), n - 1)
  }

  lemma {:induction false} WritesThenRead(c: Config, v: View, n: nat)
    requires c.Sound() && !c.Divides()
    ensures RunRing(c, v, Writes(n) + [Read]) == [ReadView(c, Appended(v, n)).1]
    decreases n
  {
    var ops := Writes(n) + [Read];
    if n == 0 {
      assert ops == [Read];
    } else {
      NeverExactlyFull(c, v);
      assert ops[0] == Write([]) && ops[1..] == Writes(n - 1) + [Read];
      WritesThenRead(c, WriteView(c, v, []), n - 1);
    }
  }

  lemma {:induction false} FifoNeverSpins(capacity: nat, q: seq<Sample>, ops: seq<Op>)
    ensures Spins !in RunFifo(capacity, q, ops)
    decreases ops
  {
    if ops != [] {
      match ops[0]
      case Write(s) => FifoNeverSpins(capacity, FifoWrite(capacity, q, s), ops[1..]);
      case Read => FifoNeverSpins(capacity, if q == [] then q else q[1..], ops[1..]);
    }
  }

  // The ring agrees with a drop-oldest queue of len / stride samples on every run, exactly when stride divides len.
  lemma RefinesIffDivides(c: Config)
    requires c.Sound()
    ensures (forall ops :: RunRing(c, Start, ops) == RunFifo(c.Capacity(), [], ops)) <==> c.Divides()
  {
    if c.Divides() {
      forall ops ensures RunRing(c, Start, ops) == RunFifo(c.Capacity(), [], ops) {
        RingIsFifo(c, Start, ops);
      }
    } else {
      var ops := Writes(c.Capacity() + 1) + [Read];
      WritesThenRead(c, Start, c.Capacity() + 1);
      OverrunIffTooMany(c, Appended(Start, c.Capacity() + 1));
      FifoNeverSpins(c.Capacity(), [], ops);
      assert RunRing(c, Start, ops) == [Spins];
      assert Spins in RunRing(c, Start, ops);
    }
  }

  lemma {:induction false} WritesFill(c: Config, v: View, n: nat)
    requires c.Sound() && c.Divides() && |Queue(v)| + n <= c.Capacity()
    ensures |Queue(After(c, v, Writes(n)))| == |Queue(v)| + n
    decreases n
  {
    if n > 0 {
      DistanceInSamples(c, v);
      WritesFill(c, WriteView(c, v, []), n - 1);
    }
  }

  // Some run makes a writer advance HEAD exactly when stride divides len.
  lemma DropsIffDivides(c: Config)
    requires c.Sound()
    ensures (exists ops: seq<Op>, s: Sample :: WriteView(c, After(c, Start, ops), s).gone > After(c, Start, ops).gone)
            <==> c.Divides()
  {
    if c.Divides() {
      var ops := Writes(c.Capacity());
      WritesFill(c, Start, c.Capacity());
      DistanceInSamples(c, After(c, Start, ops));
      assert WriteView(c, After(c, Start, ops), []).gone > After(c, Start, ops).gone;
    } else {
      forall ops: seq<Op>, s: Sample ensures WriteView(c, After(c, Start, ops), s).gone <= After(c, Start, ops).gone {
        NeverExactlyFull(c, After(c, Start, ops));
      }
    }
  }

  predicate OnlySpins(outcomes: seq<Outcome>) {
    forall i :: 0 <= i < |outcomes| ==> outcomes[i] == Spins
  }

  // Once overrun, a ring that never drops answers no read again, whatever is written or read later.
  lemma {:induction false} WedgedForever(c: Config, v: View, ops: seq<Op>)
    requires c.Sound() && !c.Divides() && Overrun(c, v)
    ensures OnlySpins(RunRing(c, v, ops))
    ensures Overrun(c, After(c, v, ops))
    decreases ops
  {
    if ops != [] {
      match ops[0]
      case Write(s) =>
        NeverExactlyFull(c, v);
        SameTicket(c.stride, |v.history|, |v.history| + 1);
        WedgedForever(c, WriteView(c, v, s), ops[1..]);
      case Read =>
        WedgedForever(c, v, ops[1..]);
    }
  }

  // Every read of the run happens while at most `capacity` samples are unread; n are unread at the start.
  predicate ReadsFit(capacity: nat, n: nat, ops: seq<Op>)
    decreases ops
  {
    if ops == [] then true
    else match ops[0]
      case Write(_) => ReadsFit(capacity, n + 1, ops[1..])
      case Read => n <= capacity && ReadsFit(capacity, if n == 0 then 0 else n - 1, ops[1..])
  }

  function WritesIn(ops: seq<Op>): nat {
    if ops == [] then 0 else (if ops[0].Write? then 1 else 0) + WritesIn(ops[1..])
  }

  // Once overrun the ring parts from the queue at the next read.
  lemma {:induction false} OverrunParts(c: Config, v: View, n: nat, q: seq<Sample>, ops: seq<Op>)
    requires c.Sound() && !c.Divides() && Overrun(c, v) && n > c.Capacity()
    ensures RunRing(c, v, ops) == RunFifo(c.Capacity(), q, ops) <==> ReadsFit(c.Capacity(), n, ops)
    decreases ops
  {
    if ops != [] {
      match ops[0]
      case Write(s) =>
        WedgedForever(c, v, [Write(s)]);
        OverrunParts(c, WriteView(c, v, s), n + 1, FifoWrite(c.Capacity(), q, s), ops[1..]);
      case Read =>
        assert RunRing(c, v, ops)[0] == Spins;
        assert RunFifo(c.Capacity(), q, ops)[0] != Spins;
    }
  }

  // A ring whose stride does not divide len answers a run as the queue does exactly when no read of the run finds more
  // than len / stride samples unread.
  lemma {:induction false} AgreesIffReadsFit(c: Config, v: View, ops: seq<Op>)
    requires c.Sound() && !c.Divides()
    ensures RunRing(c, v, ops) == RunFifo(c.Capacity(), Queue(v), ops)
            <==> ReadsFit(c.Capacity(), |Queue(v)|, ops)
    decreases ops
  {
    OverrunIffTooMany(c, v);
    if Overrun(c, v) {
      OverrunParts(c, v, |Queue(v)|, Queue(v), ops);
    } else if ops != [] {
      match ops[0]
      case Write(s) =>
        var v' := WriteView(c, v, s);
        NeverExactlyFull(c, v);
        OverrunIffTooMany(c, v');
        assert Queue(v') == Queue(v) + [s];
        if Overrun(c, v') {
          OverrunParts(c, v', |Queue(v')|, FifoWrite(c.Capacity(), Queue(v), s), ops[1..]);
        } else {
          AgreesIffReadsFit(c, v', ops[1..]);
        }
      case Read =>
        SameTicket(c.stride, v.gone, |v.history|);
        AgreesIffReadsFit(c, ReadView(c, v).0, ops[1..]);
        ReadSplits(c, v, ops[1..]);
    }
  }

  // The first answer of ring and queue is the same, so they agree exactly when they agree from there on.
  lemma ReadSplits(c: Config, v: View, rest: seq<Op>)
    requires c.Sound() && !Overrun(c, v)
    ensures var v', q := ReadView(c, v).0, Queue(v);
            && Queue(v') == (if q == [] then q else q[1..])
            && (RunRing(c, v, [Read] + rest) == RunFifo(c.Capacity(), q, [Read] + rest)
                <==> RunRing(c, v', rest) == RunFifo(c.Capacity(), Queue(v'), rest))
  {
    SameTicket(c.stride, v.gone, |v.history|);
    var v', q, ops := ReadView(c, v).0, Queue(v), [Read] + rest;
    assert ops[1..] == rest;
    var first := if q == [] then Empty else Got(q[0]);
    assert Queue(v') == if q == [] then q else q[1..];
    assert RunRing(c, v, ops) == [first] + RunRing(c, v', rest);
    assert RunFifo(c.Capacity(), q, ops) == [first] + RunFifo(c.Capacity(), Queue(v'), rest);
    assert ([first] + RunRing(c, v', rest))[1..] == RunRing(c, v', rest);
    assert ([first] + RunFifo(c.Capacity(), Queue(v'), rest))[1..] == RunFifo(c.Capacity(), Queue(v'), rest);
  }

  lemma {:induction false} FewWritesFit(capacity: nat, n: nat, ops: seq<Op>)
    requires n + WritesIn(ops) <= capacity
    ensures ReadsFit(capacity, n, ops)
    decreases ops
  {
    if ops != [] {
      FewWritesFit(capacity, if ops[0].Write? then n + 1 else if n == 0 then 0 else n - 1, ops[1..]);
    }
  }

  // In particular such a ring is a queue until it is overrun.
  lemma FifoUntilOverrun(c: Config, v: View, ops: seq<Op>)
    requires c.Sound() && !c.Divides() && |Queue(v)| + WritesIn(ops) <= c.Capacity()
    ensures RunRing(c, v, ops) == RunFifo(c.Capacity(), Queue(v), ops)
  {
    FewWritesFit(c.Capacity(), |Queue(v)|, ops);
    AgreesIffReadsFit(c, v, ops);
  }

  // The samples a run writes.
  function Written(ops: seq<Op>): seq<Sample> {
    if ops == [] then []
    else (match ops[0] case Write(s) => [s] case Read => []) + Written(ops[1..])
  }

  // Whatever the sizes and however full the ring, every write is recorded, in order, and no departure is undone.
  lemma {:induction false} HistoryIsWrites(c: Config, v: View, ops: seq<Op>)
    requires c.Sound()
    ensures After(c, v, ops).history == v.history + Written(ops) && v.gone <= After(c, v, ops).gone
    decreases ops
  {
    if ops != [] {
      match ops[0]
      case Write(s) => HistoryIsWrites(c, WriteView(c, v, s), ops[1..]);
      case Read => HistoryIsWrites(c, ReadView(c, v).0, ops[1..]);
    }
  }

  // The ring that `buffering_static_init` (per CPU) and `buffering_dynamic_init` (per task) build.
  function ClientRing(perCpu: bool): Config {
    Config(EntryCount(perCpu), EntrySize(perCpu))
  }

  // Neither ring the client builds has a len its stride divides. The per-CPU ring stops answering readers for good once
  // 136 samples are unread, the per-task ring once 8 are.
  lemma ClientRingsWedge(perCpu: bool, v: View, ops: seq<Op>)
    requires |Queue(v)| >= if perCpu then 136 else 8
    ensures var c := ClientRing(perCpu);
            c.Sound() && !c.Divides() && OnlySpins(RunRing(c, v, ops))
  {
    OverrunIffTooMany(ClientRing(perCpu), v);
    WedgedForever(ClientRing(perCpu), v, ops);
  }
}
