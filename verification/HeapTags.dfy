/** Heap words and their two tag bits (src/c/h/heap-tags.h, src/c/h/heap.h).

    A 32-bit heap word is a pointer (low bits 00), a tagged integer (low bit 1) or a tagword (low bits
    10).  `Word` names the three cases; `Encode` gives the bits of a word whose address is a word index,
    so a byte address is four times `addr`.  Forwarding marks are words too, not a fourth case. */
module HeapTags {

  type Btag = b: nat | b < 32

  datatype Word =
    | Pointer(addr: nat)
    | TaggedInt(value: nat)
    | Tagword(len: nat, btag: Btag)

  const PAIRS_AND_RECORDS: Btag := 0
  const RO_VECTOR_HEADER: Btag := 1
  const RW_VECTOR_HEADER: Btag := 2
  const RW_VECTOR_DATA: Btag := 3
  const FOUR_BYTE_DATA: Btag := 4
  const EIGHT_BYTE_DATA: Btag := 5
  const WEAK_OR_SUSPENSION: Btag := 6
  const FORWARDED: Btag := 31

  // The length field of a special chunk says which kind of special it is.
  const UNEVALUATED_SUSPENSION := 0
  const EVALUATED_SUSPENSION := 1
  const WEAK_POINTER := 2
  const NULLED_WEAK_POINTER := 3

  const FORWARDED_CHUNK_TAGWORD := Tagword(0, FORWARDED)
  const WEAKREF_TAGWORD := Tagword(WEAK_POINTER, WEAK_OR_SUSPENSION)
  const NULLED_WEAKREF_TAGWORD := Tagword(NULLED_WEAK_POINTER, WEAK_OR_SUSPENSION)
  const HEAP_VOID := TaggedInt(0)

  /** The bits of a word: address in bits 2.., integer in bits 1.., b-tag in bits 2-6, length in bits 7... */
  function Encode(w: Word): nat {
    match w
    case Pointer(a) => 4 * a
    case TaggedInt(n) => 2 * n + 1
    case Tagword(l, b) => 128 * l + 4 * b + 2
  }

  /** What the tests IS_POINTER, IS_TAGGED_INT and IS_TAGWORD and the field macros read out of the bits. */
  function Decode(bits: nat): Word {
    if bits % 4 == 0 then Pointer(bits / 4)
    else if bits % 2 == 1 then TaggedInt(bits / 2)
    else Tagword(bits / 128, bits / 4 % 32)
  }

  /** MAKE_PAIRSPACE_FORWARDING_POINTER: the address with the tagword bit (0x2) set. */
  function PairForward(addr: nat): Word { Tagword(addr / 32, addr % 32) }

  /** FOLLOW_PAIRSPACE_FORWARDING_POINTER: the word with its two tag bits cleared. */
  function FollowPairForward(w: Word): nat
    requires w.Tagword?
  {
    32 * w.len + w.btag
  }

  /** MARK_POINTER: the address with its low bit set, so that sweepers take it for an integer. */
  function MarkPointer(addr: nat): Word { TaggedInt(2 * addr) }

  /** UNMARK_POINTER. */
  function UnmarkPointer(w: Word): nat
    requires w.TaggedInt?
  {
    w.value / 2
  }

  /** No word has two readings: the bits determine it. */
  lemma DecodeEncode(w: Word)
    ensures Decode(Encode(w)) == w
  {
    match w
    case Pointer(_) =>
    case TaggedInt(n) =>
      assert (2 * n + 1) % 2 == 1 && (2 * n + 1) / 2 == n;
    case Tagword(l, b) =>
      Quotients(l, b);
  }

  /** Every bit pattern is some word. */
  lemma EncodeDecode(bits: nat)
    ensures Encode(Decode(bits)) == bits
  {
    var q, r := bits / 4, bits % 4;
    if r == 0 {
    } else if r == 2 {
      EncodeDecodeTagword(q);
    } else {
      assert bits == 2 * (2 * q + r / 2) + 1;
      DecodeEncode(TaggedInt(2 * q + r / 2));
    }
  }

  lemma EncodeDecodeTagword(q: nat)
    ensures Encode(Decode(4 * q + 2)) == 4 * q + 2
  {
    var w := Tagword(q / 32, q % 32);
    assert Encode(w) == 4 * q + 2;
    DecodeEncode(w);
  }

  lemma Quotients(l: nat, b: Btag)
    ensures var n := 128 * l + 4 * b + 2; n % 4 == 2 && n % 2 == 0 && n / 128 == l && n / 4 % 32 == b
  {
    QuotientsBy4(32 * l + b);
    assert 128 * l <= 128 * l + 4 * b + 2 < 128 * l + 128;
  }

  lemma QuotientsBy4(q: nat)
    ensures (4 * q + 2) % 4 == 2 && (4 * q + 2) / 4 == q && (4 * q + 2) % 2 == 0
  {
  }

  /** The two marks really are the address with one more bit set, they are read back exactly, and no
      sweeper takes either of them for a pointer. */
  lemma MarksAreBitsOnTheAddress(addr: nat)
    ensures Encode(PairForward(addr)) == Encode(Pointer(addr)) + 2
    ensures Encode(MarkPointer(addr)) == Encode(Pointer(addr)) + 1
    ensures FollowPairForward(PairForward(addr)) == addr && UnmarkPointer(MarkPointer(addr)) == addr
    ensures !PairForward(addr).Pointer? && !MarkPointer(addr).Pointer?
  {
  }
}
