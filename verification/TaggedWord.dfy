// The word ptracker_stack.c keeps at the end of a task's stack:
// [0:47] data pointer, [48:61] crc, [62] process bit, [63] enable bit.
module TaggedWord {
  type Word = bv64

  const PTR_THR_BIT: Word := 0x0000_8000_0000_0000
  const PTR_USED_MASK: Word := 0x0000_FFFF_FFFF_FFFF
  const PTR_FREE_MASK: Word := 0xFFFF_0000_0000_0000
  const PTR_CRC_MASK: Word := 0x3FFF_0000_0000_0000
  const PTR_CCB_MASK: Word := 0x0000_0000_0000_3FFF
  const PROCESS_MASK: Word := 0x4000_0000_0000_0000
  const ENABLED_MASK: Word := 0x8000_0000_0000_0000
  const CRC_MAGIC: Word := 0xc

  // check_crc
  predicate CheckCrc(ctl: Word) {
    (ctl & PTR_CCB_MASK) ^ CRC_MAGIC == (ctl & PTR_CRC_MASK) >> 48
  }

  // The two tests of get_magic_entry.
  predicate Accepted(w: Word) {
    CheckCrc(w) && w & ENABLED_MASK != 0
  }

  // build_ptr
  function BuildPtr(w: Word): Word {
    if w & PTR_THR_BIT != 0 then PTR_FREE_MASK | w else PTR_USED_MASK & w
  }

  // The word patch_thread_stack stores for a data pointer.
  function Encode(data: Word): Word {
    var low := data & PTR_USED_MASK;
    var withCrc := low | (((low & PTR_CCB_MASK) ^ CRC_MAGIC) << 48);
    var idle := withCrc & !PROCESS_MASK;
    idle | ENABLED_MASK
  }

  const SIGN_BITS: Word := 0xFFFF_8000_0000_0000

  // A 48-bit pointer in canonical form: bits 48 to 63 repeat bit 47.
  predicate Canonical(p: Word) {
    p & SIGN_BITS == 0 || p & SIGN_BITS == SIGN_BITS
  }

  // Bit 47 copied over the 16 bits above it.
  function SignExtend(p: Word): Word {
    if p & PTR_THR_BIT != 0 then p | PTR_FREE_MASK else p & PTR_USED_MASK
  }

  // ---- single-field facts, each decided bit by bit ----

  lemma EncodeKeepsPointer(p: Word)
    ensures PTR_USED_MASK & Encode(p) == p & PTR_USED_MASK
  {
  }

  lemma EncodeKeepsBit47(p: Word)
    ensures Encode(p) & PTR_THR_BIT == p & PTR_THR_BIT
  {
  }

  lemma EncodeExtends(p: Word)
    ensures PTR_FREE_MASK | Encode(p) == p | PTR_FREE_MASK
  {
  }

  lemma EncodeSetsFields(p: Word)
    ensures CheckCrc(Encode(p))
    ensures Encode(p) & ENABLED_MASK != 0
    ensures Encode(p) & PROCESS_MASK == 0
  {
  }

  lemma HighHalf(p: Word)
    ensures p & PTR_THR_BIT != 0 && p | PTR_FREE_MASK == p <==> p & SIGN_BITS == SIGN_BITS
  {
  }

  lemma LowHalf(p: Word)
    ensures p & PTR_THR_BIT == 0 && p & PTR_USED_MASK == p <==> p & SIGN_BITS == 0
  {
  }

  lemma ExtendedIsCanonical(p: Word)
    ensures SignExtend(p) == p <==> Canonical(p)
  {
    HighHalf(p);
    LowHalf(p);
    if p & PTR_THR_BIT != 0 {
      assert SignExtend(p) == p | PTR_FREE_MASK;
    } else {
      assert SignExtend(p) == p & PTR_USED_MASK;
    }
  }

  lemma BuildPtrExtends(w: Word)
    ensures BuildPtr(w) == SignExtend(w)
    ensures BuildPtr(w) & PTR_USED_MASK == w & PTR_USED_MASK
    ensures Canonical(BuildPtr(w))
  {
    if w & PTR_THR_BIT != 0 {
      assert BuildPtr(w) == PTR_FREE_MASK | w;
      assert (PTR_FREE_MASK | w) & SIGN_BITS == SIGN_BITS;
    } else {
      assert BuildPtr(w) == PTR_USED_MASK & w;
      assert (PTR_USED_MASK & w) & SIGN_BITS == 0;
    }
  }

  // Encode only looks at the pointer bits.
  lemma EncodeFields(p: Word)
    ensures Encode(p) == Joined(p)
  {
  }

  // The crc field of the words that pass check_crc.
  function CrcField(w: Word): Word {
    ((w & PTR_USED_MASK & PTR_CCB_MASK) ^ CRC_MAGIC) << 48
  }

  lemma CrcChecked(w: Word)
    ensures CheckCrc(w) <==> w & PTR_CRC_MASK == CrcField(w)
  {
  }

  lemma EnableBit(w: Word)
    ensures w & ENABLED_MASK != 0 <==> w & ENABLED_MASK == ENABLED_MASK
  {
  }

  // The word whose fields are w's pointer bits, their crc, and the enable bit.
  function Joined(w: Word): Word {
    (w & PTR_USED_MASK) | CrcField(w) | ENABLED_MASK
  }

  lemma AcceptedIsJoined(w: Word)
    requires w & PTR_CRC_MASK == CrcField(w) && w & ENABLED_MASK == ENABLED_MASK
    ensures w & !PROCESS_MASK == Joined(w)
  {
  }

  lemma JoinedCrc(w: Word)
    requires w & !PROCESS_MASK == Joined(w)
    ensures w & PTR_CRC_MASK == CrcField(w)
  {
  }

  lemma JoinedEnable(w: Word)
    requires w & !PROCESS_MASK == Joined(w)
    ensures w & ENABLED_MASK == ENABLED_MASK
  {
  }

  lemma AcceptedFields(w: Word)
    ensures Accepted(w) <==> w & !PROCESS_MASK == Joined(w)
  {
    CrcChecked(w);
    EnableBit(w);
    if Accepted(w) {
      AcceptedIsJoined(w);
    }
    if w & !PROCESS_MASK == Joined(w) {
      JoinedCrc(w);
      JoinedEnable(w);
    }
  }

  // ---- the layout of the stored word ----

  // Bits 0 to 47 are the pointer's, bits 48 to 61 its low 14 bits with the magic number folded in, bit 62 is clear and
  // bit 63 set.
  lemma WordLayout(p: Word)
    ensures Encode(p) & 0xFFFF_FFFF_FFFF == p & 0xFFFF_FFFF_FFFF
    ensures Encode(p) & 0x3FFF_0000_0000_0000 == ((p & 0x3FFF) ^ 0xc) << 48
    ensures Encode(p) & 0xC000_0000_0000_0000 == 0x8000_0000_0000_0000
  {
    EncodeKeepsPointer(p);
    CrcOfEncoded(p);
    TopOfEncoded(p);
  }

  lemma CrcOfEncoded(p: Word)
    ensures Encode(p) & 0x3FFF_0000_0000_0000 == ((p & 0x3FFF) ^ 0xc) << 48
  {
  }

  lemma TopOfEncoded(p: Word)
    ensures Encode(p) & 0xC000_0000_0000_0000 == 0x8000_0000_0000_0000
  {
  }

  // ---- the word as a tagged pointer ----

  // Whatever the pointer, the stored word is accepted with the process bit clear and decodes to the pointer with bit 47
  // sign-extended; it gives the pointer back exactly when the pointer is canonical.
  lemma RoundTrip(p: Word)
    ensures Accepted(Encode(p)) && Encode(p) & PROCESS_MASK == 0
    ensures BuildPtr(Encode(p)) == SignExtend(p)
    ensures BuildPtr(Encode(p)) == p <==> Canonical(p)
  {
    EncodeSetsFields(p);
    DecodedExtends(p);
    ExtendedIsCanonical(p);
  }

  lemma DecodedExtends(p: Word)
    ensures BuildPtr(Encode(p)) == SignExtend(p)
  {
    EncodeKeepsBit47(p);
    EncodeExtends(p);
    EncodeKeepsPointer(p);
    SameExtension(Encode(p), p);
  }

  lemma SameExtension(w: Word, p: Word)
    requires w & PTR_THR_BIT == p & PTR_THR_BIT
    requires PTR_FREE_MASK | w == p | PTR_FREE_MASK && PTR_USED_MASK & w == p & PTR_USED_MASK
    ensures BuildPtr(w) == SignExtend(p)
  {
    if p & PTR_THR_BIT != 0 {
      assert BuildPtr(w) == PTR_FREE_MASK | w;
    } else {
      assert BuildPtr(w) == PTR_USED_MASK & w;
    }
  }

  // The words accepted are exactly the encodings of what they decode to, process bit aside.
  lemma AcceptedIsEncoded(w: Word)
    ensures Accepted(w) <==> w & !PROCESS_MASK == Encode(BuildPtr(w))
    ensures Accepted(w) && w & PROCESS_MASK == 0 ==> w == Encode(BuildPtr(w))
  {
    BuildPtrExtends(w);
    SameFields(w, BuildPtr(w));
    ClearProcess(w);
  }

  lemma SameFields(w: Word, p: Word)
    requires p & PTR_USED_MASK == w & PTR_USED_MASK
    ensures Accepted(w) <==> w & !PROCESS_MASK == Encode(p)
  {
    EncodeFields(p);
    AcceptedFields(w);
  }

  lemma ClearProcess(w: Word)
    ensures w & PROCESS_MASK == 0 ==> w & !PROCESS_MASK == w
  {
  }

  // The word restore_thread_stack leaves behind is not accepted.
  lemma RestoredIsRejected()
    ensures !Accepted(0)
  {
  }
}
