// The <HEAD, TAIL> word of the non-blocking ring: two 32-bit halves packed in one u64.
module PackedIndex {
  import opened MachineWords

  type U64 = x: int | 0 <= x < TWO64

  // `t & TAIL_MASK`: the low half.
  function Tail(word: U64): (t: nat)
    ensures t < TWO32
  {
    word % TWO32
  }

  // `(h & HEAD_MASK) >> 32`: the high half.
  function Head(word: U64): (h: nat)
    ensures h < TWO32
  {
    word / TWO32
  }

  // Machine addition on a u64.
  function Add64(word: U64, delta: nat): U64 {
    (word + delta) % TWO64
  }

  // `stride << 32` on a u64.
  function HighUnits(stride: nat): U64 {
    (stride * TWO32) % TWO64
  }

  // Adding to the low half behaves as addition on TAIL alone exactly when TAIL does not carry.
  lemma AddTail(word: U64, stride: nat)
    requires stride < TWO32
    ensures Head(Add64(word, stride)) == Head(word) <==> Tail(word) + stride < TWO32
    ensures Tail(word) + stride < TWO32 ==>
              Tail(Add64(word, stride)) == Tail(word) + stride && Add64(word, stride) == word + stride
  {
    var h, t := Head(word), Tail(word);
    assert word == h * TWO32 + t;
    if t + stride < TWO32 {
      assert word + stride == h * TWO32 + (t + stride);
      assert word + stride < TWO64;
    } else if h + 1 < TWO32 {
      assert word + stride == (h + 1) * TWO32 + (t + stride - TWO32);
      assert word + stride < TWO64;
    } else {
      assert word + stride - TWO64 == t + stride - TWO32;
      assert Add64(word, stride) == t + stride - TWO32;
    }
  }

  // Adding `stride << 32` moves HEAD and leaves TAIL alone while HEAD stays below 2^32.
  lemma AddHead(word: U64, stride: nat)
    requires Head(word) + stride < TWO32
    ensures Head(Add64(word, HighUnits(stride))) == Head(word) + stride
    ensures Tail(Add64(word, HighUnits(stride))) == Tail(word)
    ensures Add64(word, HighUnits(stride)) == word + stride * TWO32
  {
    var h, t := Head(word), Tail(word);
    assert word == h * TWO32 + t;
    assert stride * TWO32 < TWO64;
    assert word + stride * TWO32 == (h + stride) * TWO32 + t;
    assert word + stride * TWO32 < TWO64;
  }
}
