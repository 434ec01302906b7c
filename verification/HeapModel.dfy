/** The records of src/c/h/heap.h and the book table of src/c/h/sibid.h, with sizes in words. */
module HeapModel {
  import opened HeapTags

  // A "book" is 64KB, a card 256 bytes; a word is four bytes.
  const BOOK := 16384
  const CARD := 64

  const MAX_AGEGROUPS := 14
  const CLEAN_CARD := 255

  // Kinds of book.  The four plain sibs of an agegroup are numbered one below their kinds.
  const NEW_KIND := 0
  const RO_POINTERS_KIND := 1
  const RO_CONSCELL_KIND := 2
  const NONPTR_DATA_KIND := 3
  const RW_POINTERS_KIND := 4
  const CODE_KIND := 8

  const RO_POINTERS_SIB := 0
  const RO_CONSCELL_SIB := 1
  const NONPTR_DATA_SIB := 2
  const RW_POINTERS_SIB := 3

  const HUGECHUNK_DATA := 0
  const HUGECHUNK_RECORD := 1

  datatype Sibid = Sibid(age: nat, kind: nat, id: nat)

  const AGEGROUP0_SIBID := Sibid(0, NEW_KIND, 0)
  const UNMAPPED_BOOK_SIBID := Sibid(15, 15, 255)

  /** The table covers the whole address space in the source; here an address beyond it is unmapped. */
  function SibidFor(b2s: seq<Sibid>, addr: nat): Sibid {
    if addr / BOOK < |b2s| then b2s[addr / BOOK] else UNMAPPED_BOOK_SIBID
  }

  /** A sib buffer: to-space, from-space, and the index of the sib that receives its seniors. */
  datatype Sib = Sib(
    start: nat, firstFree: nat, limit: nat, sweptEnd: nat,
    fromStart: nat, fromFirstFree: nat, fromLimit: nat, seniorEnd: nat,
    promoted: nat)

  /** Sibs of all agegroups in one table: four for each age from 1. */
  function SibIndex(age: nat, kind: nat): (i: int) {
    4 * (age - 1) + kind - 1
  }

  function SibAge(i: nat): nat { i / 4 + 1 }
  function SibSlot(i: nat): nat { i % 4 }

  predicate Active(s: Sib) { s.limit > s.start }

  /** Words of a chunk after its tagword. */
  function ContentLength(tag: Word): nat {
    if !tag.Tagword? then 0
    else if tag.btag == RO_VECTOR_HEADER || tag.btag == RW_VECTOR_HEADER then 2
    else if tag.btag == WEAK_OR_SUSPENSION then 1
    else tag.len
  }

  /** The cards of the RW_POINTERS sib of one agegroup, each with the least age its words point to. */
  datatype CardMap = CardMap(base: nat, minAge: seq<nat>)

  function Even(p: nat): bool { p % 2 == 0 }

  // ------------------------------------------------------------------ hugechunks

  // A hugechunk page is 1KB.
  const PAGE := 256

  const FREE_HUGECHUNK := 0
  const JUNIOR_HUGECHUNK := 1
  const JUNIOR_WAITING_TO_BE_FORWARDED := 2
  const SENIOR_HUGECHUNK := 3
  const SENIOR_WAITING_TO_BE_PROMOTED := 4

  /** A hugechunk descriptor: its size is in pages. */
  datatype Huge = Huge(state: nat, age: nat, pages: nat)

  /** A quire of hugechunks: its first page, for each page the descriptor that covers it, the number of
      books it fills and the age it is labelled with. */
  datatype Quire = Quire(firstPage: nat, pages: seq<nat>, books: nat, youngest: nat)

  /** The book at or below `book` that starts a quire of hugechunks, or -1. */
  function RecordBook(b2s: seq<Sibid>, book: nat): (r: int)
    ensures -1 <= r <= book
    ensures r >= 0 ==> r < |b2s| && b2s[r].id == HUGECHUNK_RECORD
  {
    if book < |b2s| && b2s[book].id == HUGECHUNK_RECORD then book
    else if book == 0 then -1
    else RecordBook(b2s, book - 1)
  }

  /** The descriptor of the hugechunk that holds an address, or -1. */
  function HugeAt(b2s: seq<Sibid>, quires: map<nat, Quire>, addr: nat): int {
    var r := RecordBook(b2s, addr / BOOK);
    if r >= 0 && r in quires && quires[r].firstPage <= addr &&
        (addr - quires[r].firstPage) / PAGE < |quires[r].pages| then
      quires[r].pages[(addr - quires[r].firstPage) / PAGE]
    else -1
  }
}
