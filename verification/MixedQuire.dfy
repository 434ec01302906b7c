/** A heap at rest whose cards a clean of agegroup1 gets wrong.

    A vector of agegroup5 refers to code of age 4, in a quire that is labelled 1 because it also holds code of
    age 1, and to a record of age 2.  Its card is marked 1.  The scan follows the first reference, since it is
    labelled as being cleaned, and marks the card 4; the second is then covered no more. */
module MixedQuire {
  import opened HeapTags
  import opened HeapModel
  import opened Forwarding
  import opened MajorForward
  import opened MajorCards
  import opened MajorRoots
  import opened MajorSizing
  import opened MajorHuge
  import opened HeapWorld
  import opened MajorRisk
  import opened MajorMain
  import opened MajorSetup
  import opened HeapObject
  import opened MinorForward
  import opened MinorRest
  import opened NurseryLabels
  import opened CallHeapcleaner

  const VECTOR := BOOK + 1
  const RECORD := 2 * BOOK + 1
  const OLD_CODE := 3 * BOOK + PAGE
  const ROOT := 1
  const NURSERY := 4 * BOOK
  const FREE := 5 * BOOK
  const WORDS := 9 * BOOK
  const VECTORS := 19
  const RECORDS := 4

  function MixedWord(x: nat): Word {
    if x == ROOT then Pointer(VECTOR)
    else if x == VECTOR - 1 then Tagword(2, RW_VECTOR_DATA)
    else if x == VECTOR then Pointer(OLD_CODE)
    else if x == VECTOR + 1 then Pointer(RECORD)
    else if x == RECORD - 1 then Tagword(1, PAIRS_AND_RECORDS)
    else HEAP_VOID
  }

  function MixedZone(x: nat): Zone {
    if VECTOR - 1 <= x <= VECTOR + 1 then Old(VECTOR)
    else if VECTOR + 1 < x < 2 * BOOK then New(VECTORS)
    else if RECORD - 1 <= x <= RECORD then Old(RECORD)
    else if RECORD < x < 3 * BOOK then New(RECORDS)
    else Fixed
  }

  function MixedSib(i: nat): Sib {
    var promoted := if i / 4 + 1 == 5 then i else i + 4;
    if i == VECTORS then Sib(BOOK, VECTOR + 2, 2 * BOOK, VECTOR + 2, 0, 0, 0, BOOK, promoted)
    else if i == RECORDS then Sib(2 * BOOK, RECORD + 1, 3 * BOOK, RECORD + 1, 0, 0, 0, 2 * BOOK, promoted)
    else Sib(0, 0, 0, 0, 0, 0, 0, 0, promoted)
  }

  const MIXED_LABELS := [UNMAPPED_BOOK_SIBID, Sibid(5, RW_POINTERS_KIND, 0), Sibid(2, RO_POINTERS_KIND, 0),
      Sibid(1, CODE_KIND, HUGECHUNK_RECORD), AGEGROUP0_SIBID, UNMAPPED_BOOK_SIBID, UNMAPPED_BOOK_SIBID,
          UNMAPPED_BOOK_SIBID,
      UNMAPPED_BOOK_SIBID]
  const MIXED_HUGE := [Huge(JUNIOR_HUGECHUNK, 1, 1), Huge(JUNIOR_HUGECHUNK, 4, 1)]
  const MIXED_QUIRES: map<nat, Quire> := map[3 := Quire(3 * BOOK, [0, 1], 1, 1)]
  const MIXED_LISTS: seq<seq<nat>> := [[0], [], [], [1], []]

  function MixedCards(a: nat): CardMap {
    if a == 4 then CardMap(BOOK, seq(BOOK / CARD, d => if d == 0 then 1 else CLEAN_CARD)) else CardMap(0, [])
  }

  ghost function MixedHeap(): Flip {
    Flip(seq(WORDS, x requires 0 <= x => MixedWord(x)), MIXED_LABELS, seq(20, i requires 0 <= i => MixedSib(i)),
         seq(WORDS, x requires 0 <= x => MixedZone(x)), {ROOT}, MIXED_QUIRES, MIXED_HUGE,
         seq(5, a requires 0 <= a => MixedCards(a)), 5)
  }

  // ------------------------------------------------------------------ it is at rest

  lemma MixedChunk(a: int)
    ensures Chunk(MixedHeap(), a) <==> a == VECTOR || a == RECORD
  {
  }

  lemma MixedShape(a: nat)
    requires a == VECTOR || a == RECORD
    ensures var w := MixedHeap();
      && ChunkOk(w, a) && HomeOk(w, a) && DestOk(w, a) && !Weak(w, a) && OldHeader(w, a) == 1 &&
          Length(w, a) == (if a == VECTOR then 2 else 1)
      && AgeAt(w, a) == (if a == VECTOR then 5 else 2) &&
          Slot(w, a) == if a == VECTOR then RW_POINTERS_SIB else RO_POINTERS_SIB
  {
  }

  lemma OldCodeIs()
    ensures var w := MixedHeap();
      && AgeAt(w, OLD_CODE) == 1
      && KindAt(w, OLD_CODE) == CODE_KIND
      && HugeAt(w.b2s, w.quires, OLD_CODE) == 1
      && Code(w, OLD_CODE)
  {
    assert OLD_CODE / BOOK == 3;
    assert RecordBook(MIXED_LABELS, 3) == 3;
  }

  lemma MixedReference(x: int)
    ensures var w := MixedHeap(); TargetOk(w, x) && LabelOk(w, x) && CodeLives(w, x) && OrderedWord(w, x)
  {
    OldCodeIs();
    MixedShape(VECTOR);
    MixedShape(RECORD);
  }

  lemma MixedPlace(i: int, x: int)
    ensures var w := MixedHeap(); AreaOk(w, i, x) && AreaLabelOk(w, i, x) && UsedOk(w, i, x)
  {
  }

  lemma MixedZones(a: int, x: int)
    ensures var w := MixedHeap(); ZoneOk(w, x) && ExtentOk(w, a, x)
  {
    MixedShape(VECTOR);
    MixedShape(RECORD);
    MixedChunk(a);
  }

  lemma MixedSibOk(i: int)
    ensures var w := MixedHeap(); (0 <= i < |w.sibs| ==> SibOk(w, i)) && SibRests(w, i) && SweepStart(w, i) && MapOk(w,
        w.cards, i)
  {
  }

  lemma MixedCovered(i: int, x: int)
    ensures CardCovers(MixedHeap(), i, x)
  {
    OldCodeIs();
    MixedShape(RECORD);
  }

  lemma MixedWellFormed()
    ensures var w := MixedHeap(); WellFormed(w) && MajorFlip(w) && CardReady(w, w.cards)
  {
    var w := MixedHeap();
    forall x ensures ZoneOk(w, x) { MixedZones(0, x); }
    forall a: nat | Chunk(w, a) ensures ChunkOk(w, a) && AgeAt(w, a) >= 1 { MixedChunk(a); MixedShape(a); }
    forall a, x ensures ExtentOk(w, a, x) { MixedZones(a, x); }
    forall i | 0 <= i < |w.sibs| ensures SibOk(w, i) { MixedSibOk(i); }
    forall i, x ensures AreaOk(w, i, x) && AreaLabelOk(w, i, x) { MixedPlace(i, x); }
    forall x ensures TargetOk(w, x) && LabelOk(w, x) { MixedReference(x); }
    forall a ensures WeakTargetOk(w, a) &&
        DestOk(w, a) { MixedChunk(a); if a == VECTOR || a == RECORD { MixedShape(a); } }
    forall i ensures MapOk(w, w.cards, i) { MixedSibOk(i); }
  }

  lemma MixedQuires()
    ensures var w := MixedHeap(); QuiresOk(w.b2s, w.quires, w.huge, [3]) && NoRepeats([3]) && HugeListsOk(w.huge,
        MIXED_LISTS, 0, 5)
  {
    var w := MixedHeap();
    assert Tiled(MIXED_HUGE, [0, 1], 2) && Tiled(MIXED_HUGE, [0, 1], 1);
  }

  lemma MixedRests()
    ensures AtRest(MixedHeap(), [ROOT], MIXED_LISTS, [3])
  {
    var w := MixedHeap();
    MixedWellFormed();
    MixedQuires();
    forall i, x ensures UsedOk(w, i, x) && CardCovers(w, i, x) { MixedPlace(i, x); MixedCovered(i, x); }
    forall a ensures HomeOk(w, a) { MixedChunk(a); if a == VECTOR || a == RECORD { MixedShape(a); } }
    forall i ensures SibRests(w, i) && SweepStart(w, i) { MixedSibOk(i); }
    forall x ensures OrderedWord(w, x) && CodeLives(w, x) { MixedReference(x); }
    assert [ROOT][0] in [ROOT];
    forall x: int ensures x in w.ext <==> x in (set y | y in [ROOT] :: y as int) { }
    forall i ensures !InBuffer(w, i, ROOT) { }
    assert RootOk(w, [ROOT][0]);
  }

  /** It is at rest, cleaning agegroup1 leaves the others alone, and the vector's card is at risk. */
  lemma MixedQuireIsAtRisk()
    ensures AtRest(MixedHeap(), [ROOT], MIXED_LISTS, [3]) && Absorbs(MixedHeap().sibs, 1) && !Safe(MixedHeap(), 1)
  {
    hide AtRest, Absorbs;
    MixedRests();
    MixedAbsorbs();
    MixedRisk();
  }

  lemma MixedRisk()
    ensures Risk(MixedHeap(), 1, VECTORS, 0)
  {
    OldCodeIs();
    MixedShape(RECORD);
    var c := MixedHeap().(k := 1);
    assert FromAt(c, BOOK, VECTOR + 2, VECTOR) && YoungOther(c, 5, BOOK, VECTOR + 2, VECTOR + 1);
  }

  // ------------------------------------------------------------------ and can be cleaned

  lemma MixedNursery()
    ensures Nursery(MixedHeap(), NURSERY, NURSERY, NURSERY + BOOK)
  {
    var w := MixedHeap();
    forall x: nat ensures NurseryLabel(w, x) && NurseryWord(w, NURSERY, NURSERY + BOOK, x) &&
        IdleWord(w, NURSERY, NURSERY, NURSERY + BOOK, x) { }
  }

  lemma MixedIsUnpadded()
    ensures Unpadded(MixedHeap())
  {
    forall a: nat | Chunk(MixedHeap(), a) ensures !Aligned(MixedHeap(), a) { MixedChunk(a); MixedShape(a); }
  }

  /** Four free books for agegroup1, and none for the others, which need none. */
  const MIXED_BASES := [FREE, FREE, FREE, FREE, FREE]
  const MIXED_GRANTS: seq<nat> := [4 * BOOK, 0, 0, 0, 0]

  lemma MixedGrants()
    ensures var w := MixedHeap();
      GrantsOk(w.b2s, |w.mem|, MIXED_BASES, MIXED_GRANTS, 5) && GrantsFresh(w, MIXED_BASES, MIXED_GRANTS)
  {
    var w := MixedHeap();
    forall a, x | InWords(MIXED_BASES, MIXED_GRANTS, a, x) ensures FREE <= x < WORDS { }
    forall x | ScanWord(w, x) && w.mem[x].Pointer? ensures w.mem[x].addr < FREE { }
  }

  /** No agegroup older than 1 has to be cleaned, and agegroup1 has been granted what it needs. */
  lemma MixedIsNotStarved(requested: seq<nat>)
    requires requested == seq(20, _ => 0)
    ensures !Starved(MixedHeap().sibs, requested, BOOK / 2, MIXED_GRANTS, 1, 5)
  {
    hide Absorbs, Minima, Offset;
    var sibs := MixedHeap().sibs;
    MixedAbsorbs();
    MixedMinima(requested);
    FourBooks();
    forall a: nat ensures !(TooLittle(sibs, requested, BOOK / 2, MIXED_GRANTS, a) && NoneForNothing(sibs, 1, a + 1)) {
      ghost var absorbs := Absorbs(sibs, 1);
    }
  }

  lemma MixedMinima(requested: seq<nat>)
    requires requested == seq(20, _ => 0)
    ensures Minima(MixedHeap().sibs, requested, BOOK / 2, 0) == [BOOK / 2, BOOK / 2 + 2, BOOK / 2, BOOK / 2]
  {
  }

  lemma FourBooks()
    ensures Offset(Fallback([BOOK / 2, BOOK / 2 + 2, BOOK / 2, BOOK / 2]), 4) == 4 * BOOK
  {
    assert BookRounded(2 * BOOK) == BOOK && BookRounded(2 * BOOK + 8) == BOOK;
    var sizes := Fallback([BOOK / 2, BOOK / 2 + 2, BOOK / 2, BOOK / 2]);
    assert sizes == [BOOK, BOOK, BOOK, BOOK];
    assert Offset(sizes, 1) == BOOK && Offset(sizes, 2) == 2 * BOOK && Offset(sizes, 3) == 3 * BOOK;
  }

  lemma MixedAbsorbs()
    ensures Absorbs(MixedHeap().sibs, 1)
  {
    ghost var sibs := MixedHeap().sibs;
    assert Seniors(sibs[0]) == Seniors(sibs[1]) == Seniors(sibs[2]) == Seniors(sibs[3]) == 0;
  }

  method BuildMixedHeap() returns (h: Heap)
    ensures fresh(h) && fresh(h.ram) && HeapIs(h, MixedHeap()) && SizingOk(h) && h.hugechunks == MIXED_LISTS &&
        h.quire_list == [3]
    ensures h.requested == seq(20, _ => 0) && h.nurseryWords == BOOK / 2 && h.youngerCounts[0] < h.counts[0]
  {
    h := new Heap(WORDS, 5);
    FillMixedMemory(h.ram);
    SetMixedSpaces(h);
    SetMixedCode(h);
    SetMixedSizing(h);
  }

  method FillMixedMemory(ram: array<Word>)
    requires ram.Length == WORDS && forall x {:trigger ram[x]} :: 0 <= x < WORDS ==> ram[x] == HEAP_VOID
    modifies ram
    ensures ram[..] == MixedHeap().mem
  {
    hide MixedZone, MixedSib, MixedCards;
    ram[ROOT] := Pointer(VECTOR);
    ram[VECTOR - 1] := Tagword(2, RW_VECTOR_DATA);
    ram[VECTOR] := Pointer(OLD_CODE);
    ram[VECTOR + 1] := Pointer(RECORD);
    ram[RECORD - 1] := Tagword(1, PAIRS_AND_RECORDS);
  }

  method SetMixedSpaces(h: Heap)
    modifies h`b2s, h`sibs, h`cards
    ensures h.b2s == MixedHeap().b2s && h.sibs == MixedHeap().sibs && h.cards == MixedHeap().cards
  {
    hide MixedZone, MixedSib, MixedCards, MixedWord;
    h.b2s, h.sibs := MIXED_LABELS, seq(20, i requires 0 <= i => MixedSib(i));
    h.cards := seq(5, a requires 0 <= a => MixedCards(a));
  }

  method SetMixedCode(h: Heap)
    modifies h`quires, h`huge, h`hugechunks, h`quire_list
    ensures h.quires == MixedHeap().quires && h.huge == MixedHeap().huge
    ensures h.hugechunks == MIXED_LISTS && h.quire_list == [3]
  {
    h.quires, h.huge, h.hugechunks, h.quire_list := MIXED_QUIRES, MIXED_HUGE, MIXED_LISTS, [3];
  }

  method SetMixedSizing(h: Heap)
    requires h.active == 5
    modifies h`requested, h`softMax, h`ratios, h`nurseryWords, h`counts, h`youngerCounts
    ensures SizingOk(h) && h.requested == seq(20,
        _ => 0) && h.nurseryWords == BOOK / 2 && h.youngerCounts[0] < h.counts[0]
  {
    h.requested, h.softMax, h.ratios, h.nurseryWords := seq(20, _ => 0), seq(20, _ => 4), seq(5, _ => 1), BOOK / 2;
    h.counts, h.youngerCounts := [1, 0, 0, 0, 0, 0], [0, 0, 0, 0, 0];
  }

  /** Clean agegroup1 of that heap: nothing else is cleaned, and a card is wrong afterwards. */
  method MixedQuireGoesWrong() returns (h: Heap, ok: bool, k: nat, ghost r: Flip)
    ensures ok && k == 1 && HeapIs(h, r) && AtRestBut(r, [ROOT], h.hugechunks, h.quire_list) && !AllCovered(r)
  {
    hide AtRest, Nursery, Unpadded, GrantsOk, GrantsFresh, GapsFit, Starved, Safe, AllCovered, AtRestBut, MixedHeap,
         Absorbs,
         FlipFrom, DidClean, RoomLeft;
    h := BuildMixedHeap();
    ghost var w := MixedHeap();
    MixedQuireIsAtRisk();
    MixedCanBeCleaned(h.requested);
    ok, k, r := HeapcleanNAgegroups(h, [ROOT], 1, MIXED_BASES, MIXED_GRANTS, BOOK / 2, true, w, NURSERY,
        NURSERY + BOOK);
    ghost var absorbs := Absorbs(w.sibs, 1);
  }

  lemma MixedCanBeCleaned(requested: seq<nat>)
    requires requested == seq(20, _ => 0)
    ensures var w := MixedHeap();
      && w.k == 5 && |w.mem| == WORDS && Nursery(w, NURSERY, NURSERY, NURSERY + BOOK)
      && GrantsOk(w.b2s, |w.mem|, MIXED_BASES, MIXED_GRANTS, w.k) && GrantsFresh(w, MIXED_BASES, MIXED_GRANTS)
      && GapsFit(w, [ROOT], MIXED_LISTS, [3], requested, BOOK / 2, MIXED_BASES, MIXED_GRANTS)
      && !Starved(w.sibs, requested, BOOK / 2, MIXED_GRANTS, 1, 5)
  {
    hide Nursery, Unpadded, GrantsOk, GrantsFresh, GapsFit, Starved;
    MixedNursery();
    MixedIsUnpadded();
    MixedGrants();
    UnpaddedGapsFit(MixedHeap(), [ROOT], MIXED_LISTS, [3], requested, BOOK / 2, MIXED_BASES, MIXED_GRANTS);
    MixedIsNotStarved(requested);
  }
}
