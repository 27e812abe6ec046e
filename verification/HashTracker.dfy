// ptracker_hash.c: tracked tasks in a chained hash table of 256 buckets.
module HashTracker {
  import opened Errno
  import opened MachineWords
  import opened TrackerSpec

  const BUCKETS := 256

  datatype Node = Node(id: Pid, data: Ptr)

  // hash_min of a 32-bit key on 8 bits: the top byte of the product with the golden ratio.
  function Bucket(id: Pid): (b: nat)
    ensures b < BUCKETS
  {
    (id % TWO32) * 0x61C8_8647 % TWO32 / 0x100_0000
  }

  // The multiplier is odd, so no bucket stays empty for lack of ids: 119 inverts its last byte, 71, modulo 256.
  lemma EveryBucketIsHit(b: nat)
    requires b < BUCKETS
    ensures Bucket(b * 119 % 256 * 0x100_0000) == b
  {
    var q, t := b * 119 % 256, b * 119 / 256;
    assert 71 * q == b + 256 * (33 * b - 71 * t);
    TopByte(q, b, 33 * b - 71 * t);
  }

  // Only the last byte of the multiplier reaches the top byte of the product.
  lemma TopByte(q: nat, b: nat, laps: int)
    requires q < 256 && b < 256 && 71 * q == b + 256 * laps
    ensures Bucket(q * 0x100_0000) == b
  {
    var id, over := q * 0x100_0000, laps + q * 0x61_C886;
    assert id % TWO32 == id;
    assert id * 0x61C8_8647 == over * TWO32 + b * 0x100_0000;
    LowBits(over, b * 0x100_0000);
  }

  lemma LowBits(over: int, r: nat)
    requires r < TWO32
    ensures (over * TWO32 + r) % TWO32 == r
  {
  }

  // The data of the nodes of one task in a bucket, newest first.
  function Entries(bucket: seq<Node>, id: Pid): seq<Ptr> {
    if bucket == [] then []
    else if bucket[0].id == id then [bucket[0].data] + Entries(bucket[1..], id)
    else Entries(bucket[1..], id)
  }

  function Total(table: seq<seq<Node>>): nat {
    if table == [] then 0 else Total(table[..|table| - 1]) + |table[|table| - 1]|
  }

  // Every node is in the bucket of its id.
  ghost predicate Placed(table: seq<seq<Node>>) {
    && |table| == BUCKETS
    && forall b, i :: 0 <= b < BUCKETS && 0 <= i < |table[b]| ==> Bucket(table[b][i].id) == b
  }

  // All data stored for a task, newest first.
  function StackOf(table: seq<seq<Node>>, id: Pid): seq<Ptr>
    requires |table| == BUCKETS
  {
    Entries(table[Bucket(id)], id)
  }

  // What the table stores for every task.
  ghost function ViewOf(table: seq<seq<Node>>): (v: Stacks)
    requires |table| == BUCKETS
    ensures forall id: Pid :: id in v && v[id] == StackOf(table, id)
  {
    imap id: Pid :: StackOf(table, id)
  }

  predicate Absent(chain: seq<Node>, id: Pid) {
    forall i :: 0 <= i < |chain| ==> chain[i].id != id
  }

  lemma {:induction false} NoEntries(chain: seq<Node>, id: Pid)
    ensures Entries(chain, id) == [] <==> Absent(chain, id)
  {
    if chain != [] {
      var rest := chain[1..];
      NoEntries(rest, id);
      if chain[0].id != id {
        if Absent(rest, id) {
          forall i | 0 <= i < |chain| ensures chain[i].id != id {
            assert i == 0 || chain[i] == rest[i - 1];
          }
        }
        if Absent(chain, id) {
          forall i | 0 <= i < |rest| ensures rest[i].id != id {
            assert rest[i] == chain[i + 1];
          }
        }
      }
    }
  }

  // A node put at the front of a chain is the newest of its task and nothing to any other.
  lemma PushFirst(chain: seq<Node>, node: Node, other: Pid)
    ensures Entries([node] + chain, other)
            == if other == node.id then [node.data] + Entries(chain, other) else Entries(chain, other)
  {
    assert ([node] + chain)[1..] == chain;
  }

  // A chain without node i.
  function Without(chain: seq<Node>, i: nat): seq<Node>
    requires i < |chain|
  {
    chain[..i] + chain[i + 1..]
  }

  // Unlinking the first node of a task pops that task and no other.
  lemma {:induction false} RemoveFirst(chain: seq<Node>, i: nat, other: Pid)
    requires i < |chain| && Absent(chain[..i], chain[i].id)
    ensures Entries(chain, other)
            == if other == chain[i].id then [chain[i].data] + Entries(Without(chain, i), other)
               else Entries(Without(chain, i), other)
    decreases i
  {
    var rest := chain[1..];
    if i == 0 {
      assert Without(chain, i) == rest;
    } else {
      assert Without(chain, i)[0] == chain[0] && Without(chain, i)[1..] == Without(rest, i - 1);
      assert chain[..i][0] == chain[0];
      assert rest[..i - 1] == chain[..i][1..];
      RemoveFirst(rest, i - 1, other);
    }
  }

  lemma {:induction false} TotalAfter(table: seq<seq<Node>>, b: nat, chain: seq<Node>)
    requires b < |table|
    ensures Total(table[b := chain]) == Total(table) - |table[b]| + |chain|
    ensures Total(table) >= |table[b]|
  {
    var n := |table| - 1;
    if b < n {
      assert table[b := chain][..n] == table[..n][b := chain];
      TotalAfter(table[..n], b, chain);
    } else {
      assert table[b := chain][..n] == table[..n];
    }
  }

  lemma {:induction false} TotalOfEmpty(table: seq<seq<Node>>)
    requires forall b :: 0 <= b < |table| ==> table[b] == []
    ensures Total(table) == 0
  {
    if table != [] {
      TotalOfEmpty(table[..|table| - 1]);
    }
  }

  // Replacing one chain by another whose nodes belong there.
  lemma ChainReplaced(table: seq<seq<Node>>, b: nat, chain: seq<Node>)
    requires Placed(table) && b < BUCKETS
    requires forall i :: 0 <= i < |chain| ==> Bucket(chain[i].id) == b
    ensures Placed(table[b := chain]) && Total(table[b := chain]) == Total(table) - |table[b]| + |chain|
  {
    TotalAfter(table, b, chain);
  }

  // If replacing the chain of task id changes what the chain stores for that task only, it changes the view there only.
  lemma ViewReplaced(table: seq<seq<Node>>, id: Pid, chain: seq<Node>)
    requires |table| == BUCKETS
    requires forall other: Pid :: other != id ==> Entries(chain, other) == Entries(table[Bucket(id)], other)
    ensures ViewOf(table[Bucket(id) := chain]) == ViewOf(table)[id := Entries(chain, id)]
  {
    var after := table[Bucket(id) := chain];
    forall other: Pid
      ensures StackOf(after, other) == if other == id then Entries(chain, id) else StackOf(table, other)
    {
      if Bucket(other) != Bucket(id) {
        assert after[Bucket(other)] == table[Bucket(other)];
      }
    }
  }

  // The table after linking a node in at the head of its chain.
  lemma TableAdd(table: seq<seq<Node>>, node: Node, after: seq<seq<Node>>)
    requires Placed(table)
    requires after == table[Bucket(node.id) := [node] + table[Bucket(node.id)]]
    ensures Placed(after) && Total(after) == Total(table) + 1
    ensures ViewOf(after) == ViewOf(table)[node.id := [node.data] + StackOf(table, node.id)]
  {
    var b := Bucket(node.id);
    var chain := [node] + table[b];
    ChainReplaced(table, b, chain);
    forall other: Pid
      ensures Entries(chain, other)
              == if other == node.id then [node.data] + Entries(table[b], other) else Entries(table[b], other)
    {
      PushFirst(table[b], node, other);
    }
    ViewReplaced(table, node.id, chain);
  }

  // The table after unlinking the first node of task id, found at position i of its chain.
  lemma TableDel(table: seq<seq<Node>>, id: Pid, i: nat, after: seq<seq<Node>>)
    requires Placed(table) && i < |table[Bucket(id)]| && table[Bucket(id)][i].id == id
    requires Absent(table[Bucket(id)][..i], id)
    requires after == table[Bucket(id) := Without(table[Bucket(id)], i)]
    ensures Placed(after) && Total(after) == Total(table) - 1
    ensures StackOf(table, id) == [table[Bucket(id)][i].data] + StackOf(after, id)
    ensures ViewOf(after) == ViewOf(table)[id := StackOf(after, id)]
  {
    var b := Bucket(id);
    var chain := Without(table[b], i);
    ChainReplaced(table, b, chain);
    RemoveFirst(table[b], i, id);
    forall other: Pid | other != id ensures Entries(chain, other) == Entries(table[b], other) {
      RemoveFirst(table[b], i, other);
    }
    ViewReplaced(table, id, chain);
  }

  class Tracker {
    const trackedMap: array<seq<Node>>
    var trackedCount: int

    // Every node is in the bucket of its id, and the counter counts the nodes of all buckets.
    ghost predicate Valid()
      reads this, trackedMap
    {
      trackedMap.Length == BUCKETS && Placed(trackedMap[..]) && trackedCount == Total(trackedMap[..])
    }

    ghost function Stack(id: Pid): seq<Ptr>
      requires Valid()
      reads this, trackedMap
    {
      StackOf(trackedMap[..], id)
    }

    ghost function View(): Stacks
      requires Valid()
      reads this, trackedMap
    {
      ViewOf(trackedMap[..])
    }

    // hash_init
    constructor ()
      ensures Valid() && fresh(trackedMap) && trackedCount == 0
      ensures forall id: Pid :: View()[id] == []
    {
      trackedMap := new seq<Node>[BUCKETS](_ => []);
      trackedCount := 0;
      new;
      TotalOfEmpty(trackedMap[..]);
    }

    // tracker_add; `gotMemory` says whether kmalloc delivered.
    method Add(id: Pid, data: Ptr, gotMemory: bool) returns (err: int)
      requires Valid()
      modifies this`trackedCount, trackedMap
      ensures Valid()
      ensures gotMemory ==> (View(), Status(err)) == HashStep(old(View()), Op.Add(id, data))
      ensures !gotMemory ==> View() == old(View()) && err == -ENOMEM
      ensures trackedCount == old(trackedCount) + if gotMemory then 1 else 0
    {
      if !gotMemory {
        return -ENOMEM;
      }
      ghost var table := trackedMap[..];
      trackedMap[Bucket(id)] := [Node(id, data)] + trackedMap[Bucket(id)];
      trackedCount := trackedCount + 1;
      TableAdd(table, Node(id, data), trackedMap[..]);
      err := 0;
    }

    // tracker_del: unlinks the first matching node.
    method Del(id: Pid) returns (data: Ptr)
      requires Valid()
      modifies this`trackedCount, trackedMap
      ensures Valid()
      ensures (View(), Pointer(data)) == HashStep(old(View()), Op.Del(id))
      ensures trackedCount == old(trackedCount) - if old(Stack(id)) == [] then 0 else 1
    {
      var chain := trackedMap[Bucket(id)];
      ghost var table := trackedMap[..];
      var i := 0;
      while i < |chain| && chain[i].id != id
        invariant 0 <= i <= |chain|
        invariant Absent(chain[..i], id)
      {
        i := i + 1;
      }
      NoEntries(chain, id);
      if i == |chain| {
        assert chain[..i] == chain;
        return NULL;
      }
      data := chain[i].data;
      trackedCount := trackedCount - 1;
      trackedMap[Bucket(id)] := Without(chain, i);
      TableDel(table, id, i, trackedMap[..]);
      assert Stack(id) == old(Stack(id))[1..];
    }

    // query_tracker; `gotLock` is the outcome of the trylock.
    method Query(id: Pid, gotLock: bool) returns (exist: bool)
      requires Valid()
      ensures gotLock ==> (View(), Tracked(exist)) == HashStep(View(), Op.Query(id))
      ensures !gotLock ==> !exist
    {
      if !gotLock {
        return false;
      }
      var chain := trackedMap[Bucket(id)];
      exist := false;
      var i := 0;
      while i < |chain| && !exist
        invariant 0 <= i <= |chain|
        invariant exist ==> exists k :: 0 <= k < |chain| && chain[k].id == id
        invariant !exist ==> forall k :: 0 <= k < i ==> chain[k].id != id
      {
        exist := chain[i].id == id;
        i := i + 1;
      }
      NoEntries(chain, id);
    }

    // query_data_tracker
    method QueryData(id: Pid, gotLock: bool) returns (data: Ptr)
      requires Valid()
      ensures gotLock ==> (View(), Pointer(data)) == HashStep(View(), Op.QueryData(id))
      ensures !gotLock ==> data == NULL
    {
      if !gotLock {
        return NULL;
      }
      var chain := trackedMap[Bucket(id)];
      var i := 0;
      while i < |chain| && chain[i].id != id
        invariant 0 <= i <= |chain|
        invariant Absent(chain[..i], id)
      {
        i := i + 1;
      }
      NoEntries(chain, id);
      if i == |chain| {
        assert chain[..i] == chain;
        return NULL;
      }
      RemoveFirst(chain, i, id);
      data := chain[i].data;
    }
  }
}
