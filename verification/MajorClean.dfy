/** A major clean as a whole: the fixed point reached by sweeping, and what it means. */
module MajorClean {
  import opened HeapTags
  import opened HeapModel
  import opened Forwarding
  import opened HeapObject
  import opened MajorForward
  import opened MajorSweep
  import opened MajorCards
  import opened MajorRoots
  import opened Weakrefs
  import opened CleanResult

  // ------------------------------------------------------------------ what scanning the cards leaves behind

  /** Word x of an agegroup not being cleaned lies on a card that was dirty. */
  predicate OnDirtyCard(f: Flip, i: int, x: int) {
    && 0 <= i < |f.sibs| && i % 4 == RW_POINTERS_SIB && SibAge(i) > f.k && f.sibs[i].start <= x < f.sibs[i].firstFree
    && i / 4 < |f.cards| && InMap(f.cards[i / 4], x) && Dirty(f, i, CardOf(f.cards[i / 4], x))
  }

  ghost predicate DirtyWordsSeen(f: Flip, seen: set<int>) {
    forall i, x {:trigger OnDirtyCard(f, i, x)} :: OnDirtyCard(f, i, x) ==> x in seen
  }

  predicate OldCard(f: Flip, cards: seq<CardMap>, i: nat, d: int) {
    i < |f.sibs| && i % 4 == RW_POINTERS_SIB && SibAge(i) >= f.k + 2 && Active(f.sibs[i]) && i / 4 < |f.cards| &&
        i / 4 < |cards|
    && 0 <= d < |f.cards[i / 4].minAge| == |cards[i / 4].minAge|
    ==> cards[i / 4].minAge[d] == CardAfter(f, i, d)
  }

  /** The cards of agegroups beyond the first one not being cleaned have their final marks. */
  ghost predicate OldCards(f: Flip, cards: seq<CardMap>) {
    forall i: nat, d {:trigger OldCard(f, cards, i, d)} :: OldCard(f, cards, i, d)
  }

  /** The mark of card d of sib i before anything that was copied is swept: what a scan left it with if its agegroup is
      not being cleaned, and that of the new map otherwise. */
  predicate ScanMark(f: Flip, cards: seq<CardMap>, i: nat, d: int) {
    i < |f.sibs| && i % 4 == RW_POINTERS_SIB && Active(f.sibs[i]) && i / 4 < |f.cards| && i / 4 < |cards|
    && 0 <= d < |f.cards[i / 4].minAge| == |cards[i / 4].minAge|
    ==> cards[i / 4].minAge[d] == if SibAge(i) > f.k then CardAfter(f, i, d) else f.cards[i / 4].minAge[d]
  }

  ghost predicate ScanMarks(f: Flip, cards: seq<CardMap>) {
    |cards| == |f.cards| && forall i: nat, d {:trigger ScanMark(f, cards, i, d)} :: ScanMark(f, cards, i, d)
  }

  /** All marks are those a scan left, or have a cause among the words copied. */
  ghost predicate Recorded(f: Flip, m: seq<Word>, cards: seq<CardMap>, c: Copy) {
    exists base: seq<CardMap> {:trigger ScanMarks(f, base)} :: ScanMarks(f, base) && MarksCaused(f, m, base, cards, c)
  }

  /** What that means for one card of a heap after a major clean. */
  lemma MarkHasCause(f: Flip, m: seq<Word>, cards: seq<CardMap>, c: Copy, i: nat, d: nat)
    requires Recorded(f, m, cards, c) && CardReady(f, cards)
    requires i < |f.sibs| && i % 4 == RW_POINTERS_SIB && Active(f.sibs[i])
    ensures i / 4 < |cards| == |f.cards| && |cards[i / 4].minAge| == |f.cards[i / 4].minAge|
    ensures d < |cards[i / 4].minAge| ==>
      || cards[i / 4].minAge[d] == (if SibAge(i) > f.k then CardAfter(f, i, d) else f.cards[i / 4].minAge[d])
      || exists x :: InMap(cards[i / 4], x) && CardOf(cards[i / 4], x) == d && x in c.seen &&
          0 <= x < |m| == |f.zone| && f.zone[x] == New(i) && m[x].Pointer? &&
          PointeeAge(f, m[x].addr) == cards[i / 4].minAge[d]
  {
    var base: seq<CardMap> :| ScanMarks(f, base) && MarksCaused(f, m, base, cards, c);
    assert MapOk(f, cards, i) && SameShape(base, cards, i / 4) && ScanMark(f, base, i, d);
    if d < |cards[i / 4].minAge| { assert MarkCaused(f, m, base[i / 4], cards[i / 4], c, i, d); }
  }

  /** Further sweeping keeps the record. */
  lemma RecordedFurther(f: Flip, m: seq<Word>, ff: seq<nat>, weakrefs: nat, c: Copy, m': seq<Word>, ff': seq<nat>,
      weakrefs': nat, c': Copy, cards: seq<CardMap>, cards': seq<CardMap>)
    requires Inv(f, m, ff, weakrefs, c) && Inv(f, m', ff', weakrefs', c') && Extends(f, c, c')
    requires Recorded(f, m, cards, c) && MarksCaused(f, m', cards, cards', c')
    ensures Recorded(f, m', cards', c')
  {
    hide Inv, Extends, MarksCaused, ScanMarks;
    var base: seq<CardMap> :| ScanMarks(f, base) && MarksCaused(f, m, base, cards, c);
    MarksCompose(f, m, ff, weakrefs, c, m', ff', weakrefs', c', base, cards, cards');
  }

  /** So does settling the weakrefs. */
  lemma RecordedSettled(f: Flip, m: seq<Word>, ff: seq<nat>, weakrefs: nat, c: Copy, cards: seq<CardMap>, m': seq<Word>)
    requires Inv(f, m, ff, weakrefs, c) && Recorded(f, m, cards, c) && SettledFrom(f, m, c, m', 0)
    ensures Recorded(f, m', cards, c)
  {
    hide ScanMarks;
    var base: seq<CardMap> :| ScanMarks(f, base) && MarksCaused(f, m, base, cards, c);
    forall i: nat, d | i % 4 == RW_POINTERS_SIB && i / 4 < |cards| && 0 <= d < |base[i / 4].minAge|
      ensures MarkCaused(f, m', base[i / 4], cards[i / 4], c, i, d)
    {
      assert MarkCaused(f, m, base[i / 4], cards[i / 4], c, i, d);
      if Caused(f, m, cards[i / 4], c, i, d) { CauseSettled(f, m, ff, weakrefs, c, cards[i / 4], m', i, d); }
    }
  }

  lemma CauseSettled(f: Flip, m: seq<Word>, ff: seq<nat>, weakrefs: nat, c: Copy, cm: CardMap, m': seq<Word>, i: int,
      d: int)
    requires Inv(f, m, ff, weakrefs, c) && Caused(f, m, cm, c, i, d) && SettledFrom(f, m, c, m', 0)
    ensures Caused(f, m', cm, c, i, d)
  {
    var x :| InMap(cm, x) && CardOf(cm, x) == d && RefersToAge(f, m, c, i, x, cm.minAge[d]);
    if Link(f, c.org, c.chain, x) { LinkIsNoPointer(f, m, ff, weakrefs, c, x); }
    assert SettledWord(f, m, c, m', 0, x);
    assert RefersToAge(f, m', c, i, x, cm.minAge[d]);
  }

  lemma RecordStarts(f: Flip, m: seq<Word>, cards: seq<CardMap>, c: Copy)
    requires ScanMarks(f, cards)
    ensures Recorded(f, m, cards, c)
  {
    MarksAsBefore(f, m, cards, c);
  }

  lemma ScanIsComplete(f: Flip, cards: seq<CardMap>, seen: set<int>)
    requires WellFormed(f) && CardReady(f, cards) && |cards| == |f.cards| && Scanned(f, cards, seen, |f.sibs|)
    ensures DirtyWordsSeen(f, seen) && OldCards(f, cards) && ScanMarks(f, cards)
  {
    forall i, x | OnDirtyCard(f, i, x) ensures x in seen {
      assert SibOk(f, i) && MapOk(f, cards, i) && ScannedSib(f, cards, seen, i, |f.sibs|);
      var d := CardOf(f.cards[i / 4], x);
      assert CardStage(f, cards, seen, i, |f.cards[i / 4].minAge|, d);
    }
    forall i: nat, d ensures OldCard(f, cards, i, d) {
      assert ScannedSib(f, cards, seen, i, |f.sibs|);
      if i < |f.sibs| && i % 4 == RW_POINTERS_SIB && SibAge(i) >= f.k + 2 && Active(f.sibs[i]) && i / 4 < |f.cards| {
        assert CardStage(f, cards, seen, i, |f.cards[i / 4].minAge|, d);
      }
    }
    forall i: nat, d ensures ScanMark(f, cards, i, d) {
      assert ScannedSib(f, cards, seen, i, |f.sibs|);
      if i < |f.sibs| && i % 4 == RW_POINTERS_SIB && Active(f.sibs[i]) && i / 4 < |f.cards| {
        assert CardStage(f, cards, seen, i, if SibAge(i) > f.k then |f.cards[i / 4].minAge| else 0, d);
      }
    }
  }

  /** The word is covered by a mark of its card: it refers to nothing younger than the mark. */
  predicate CoveredAfter(f: Flip, g: nat, x: int, mark: int) {
    0 <= x < |f.mem| && f.mem[x].Pointer? && AgeAfter(f, f.mem[x]) < g ==> mark <= AgeAfter(f, f.mem[x])
  }

  /** The marks a scan leaves are right if and only if the card is not at risk. */
  lemma RemarkIsRight(f: Flip, i: nat, d: nat)
    requires WellFormed(f) && CardReady(f, f.cards) && Uncleaned(f)
    requires i < |f.sibs| && i % 4 == RW_POINTERS_SIB && Active(f.sibs[i]) && SibAge(i) > f.k && i / 4 < |f.cards|
    requires Dirty(f, i, d) && 0 <= CardStart(f, i, d) < CardEnd(f, i, d)
    ensures (forall x {:trigger CoveredAfter(f, SibAge(i), x, CardAfter(f, i, d))} ::
               CardStart(f, i, d) <= x < CardEnd(f, i, d)
               ==> CoveredAfter(f, SibAge(i), x, CardAfter(f, i, d)))
            <==> !Risky(f, i, d)
  {
    var g, lo, q, mark := SibAge(i), CardStart(f, i, d), CardEnd(f, i, d), CardAfter(f, i, d);
    assert MapOk(f, f.cards, i) && SibOk(f, i);
    MinTargetIsLeast(f, g, lo, q);
    if AtRisk(f, g, lo, q) {
      var y :| YoungOther(f, g, lo, q, y) && AllFromOlder(f, lo, q, y);
      OtherIsOld(f, i, y);
      assert !CoveredAfter(f, g, y, mark);
    } else {
      forall x | lo <= x < q ensures CoveredAfter(f, g, x, mark) {
        assert UncleanedOk(f, i, x);
        if f.mem[x].Pointer? && AgeAfter(f, f.mem[x]) < g && !FromAt(f, lo, q, x) {
          OtherIsOld(f, i, x);
          assert YoungOther(f, g, lo, q, x);
        }
      }
    }
  }

  /** What an uncleaned word refers to outside the cleaned agegroups is older than they are. */
  lemma OtherIsOld(f: Flip, i: nat, x: int)
    requires WellFormed(f) && CardReady(f, f.cards) && Uncleaned(f)
    requires i < |f.sibs| && i % 4 == RW_POINTERS_SIB && SibAge(i) > f.k && f.sibs[i].start <= x < f.sibs[i].firstFree
    requires x < |f.mem| && f.mem[x].Pointer? && !FromWord(f, f.mem[x])
    ensures !Chunk(f, f.mem[x].addr) && AgeAfter(f, f.mem[x]) == PointeeAge(f, f.mem[x].addr) > f.k
  {
    assert UncleanedOk(f, i, x) && ScanWord(f, x);
    OlderPointee(f, f.cards, x);
  }

  /** Only a card of an agegroup beyond the first uncleaned one can be at risk, and only because of code
      older than that first one in a quire labelled as being cleaned. */
  lemma RiskNeedsOldCode(f: Flip, i: nat, d: nat, x: int)
    requires WellFormed(f) && CardReady(f, f.cards) && Uncleaned(f)
    requires i < |f.sibs| && i % 4 == RW_POINTERS_SIB && Active(f.sibs[i]) && SibAge(i) > f.k && i / 4 < |f.cards|
    requires Risky(f, i, d) && FromAt(f, CardStart(f, i, d), CardEnd(f, i, d), x)
    ensures SibAge(i) >= f.k + 2
    ensures KindAt(f, f.mem[x].addr) == CODE_KIND && PointeeAge(f, f.mem[x].addr) > f.k + 1 &&
        AgeAt(f, f.mem[x].addr) <= f.k
  {
    var g, lo, q := SibAge(i), CardStart(f, i, d), CardEnd(f, i, d);
    assert MapOk(f, f.cards, i);
    var y :| YoungOther(f, g, lo, q, y) && AllFromOlder(f, lo, q, y);
    OtherIsOld(f, i, y);
    assert UncleanedOk(f, i, x) && TargetOk(f, x) && ScanWord(f, x);
    ChunkAgeAfter(f, f.mem[x].addr);
  }

  lemma ChunkAgeAfter(f: Flip, v: nat)
    requires WellFormed(f) && CardReady(f, f.cards)
    ensures Chunk(f, v) ==> AgeAfter(f, Pointer(v)) <= f.k + 1
  {
    assert Chunk(f, v) ==> ChunkOk(f, v) && DestOk(f, v);
  }

  /** On a card at risk some reference out of the cleaned agegroups ends up younger than the mark. */
  lemma RiskyCardLoses(f: Flip, cards: seq<CardMap>, i: nat, d: nat) returns (y: int)
    requires WellFormed(f) && CardReady(f, f.cards) && Uncleaned(f) && OldCards(f, cards) && CardReady(f, cards)
    requires i < |f.sibs| && i % 4 == RW_POINTERS_SIB && Active(f.sibs[i]) && SibAge(i) > f.k &&
        i / 4 < |f.cards| == |cards| && Risky(f, i, d)
    ensures CardStart(f, i, d) <= y < CardEnd(f, i, d) && y < |f.mem| && f.mem[y].Pointer? && !FromWord(f, f.mem[y])
    ensures f.k < PointeeAge(f, f.mem[y].addr) < SibAge(i) && d < |cards[i / 4].minAge| &&
        cards[i / 4].minAge[d] > PointeeAge(f, f.mem[y].addr)
    ensures f.sibs[i].start <= y && CardOf(cards[i / 4], y) == d
  {
    var g, lo, q, mark := SibAge(i), CardStart(f, i, d), CardEnd(f, i, d), CardAfter(f, i, d);
    assert MapOk(f, f.cards, i) && MapOk(f, cards, i) && SibOk(f, i);
    var z :| FromAt(f, lo, q, z) && AgeAfter(f, f.mem[z]) < g;
    RiskNeedsOldCode(f, i, d, z);
    RemarkIsRight(f, i, d);
    y :| lo <= y < q && !CoveredAfter(f, g, y, mark);
    MinTargetIsLeast(f, g, lo, q);
    ghost var cleaned := FromAt(f, lo, q, y);
    assert UncleanedOk(f, i, y) && OldCard(f, cards, i, d);
    OtherIsOld(f, i, y);
  }

  // ------------------------------------------------------------------ sweeping until nothing is left

  predicate SweepRange(f: Flip, sibs: seq<Sib>, i: int) {
    0 <= i < |sibs| && |sibs| == |f.sibs| && i % 4 != NONPTR_DATA_SIB ==>
        f.sibs[i].firstFree <= sibs[i].sweptEnd <= f.sibs[i].limit
  }

  /** The state between sweeps. */
  ghost predicate Remaining(h: Heap, k: nat)
    reads h, h.ram
  {
    && Carding(h, k) && DirtyWordsSeen(h.flip, h.copy.seen) && OldCards(h.flip, h.cards)
    && Recorded(h.flip, h.ram[..], h.cards, h.copy)
    && forall i {:trigger SweepRange(h.flip, h.sibs, i)} :: SweepRange(h.flip, h.sibs, i)
  }

  predicate SweptOut(s: Sib) { Active(s) ==> s.sweptEnd == s.firstFree }

  /** A sweep pointer never passes the allocation pointer. */
  lemma SweepBelowFree(f: Flip, m: seq<Word>, sibs: seq<Sib>, weakrefs: nat, c: Copy, i: nat)
    requires Inv(f, m, Free(sibs), weakrefs, c) && SweptBut(f, c.seen, sibs, -1, 0) && SweepRange(f, sibs, i)
    requires i < |sibs| && i % 4 != NONPTR_DATA_SIB
    ensures f.sibs[i].firstFree <= sibs[i].sweptEnd <= sibs[i].firstFree
  {
    var p := sibs[i].sweptEnd - 1;
    assert Free(sibs)[i] == sibs[i].firstFree && SibOk(f, i);
    if f.sibs[i].firstFree <= p {
      assert SweepOk(f, c.seen, i, SweepPoint(sibs, -1, 0, i), p);
      assert Visitable(f, c.org, p) && AreaOk(f, i, p);
      assert OriginOk(f, Free(sibs), c.fwd, p, c.org[p]);
    }
  }

  lemma RangesKept(f: Flip, m: seq<Word>, sibs: seq<Sib>, weakrefs: nat, c: Copy, sibs0: seq<Sib>, i: nat)
    requires Inv(f, m, Free(sibs), weakrefs, c) && SweptOnly(sibs0, sibs, i) && i < |sibs|
    requires forall j {:trigger SweepRange(f, sibs0, j)} :: SweepRange(f, sibs0, j)
    requires sibs[i].sweptEnd == sibs0[i].sweptEnd || sibs[i].sweptEnd == sibs[i].firstFree
    ensures forall j {:trigger SweepRange(f, sibs, j)} :: SweepRange(f, sibs, j)
  {
    forall j ensures SweepRange(f, sibs, j) {
      assert SweepRange(f, sibs0, j);
      assert 0 <= j < |sibs| ==> Free(sibs)[j] == sibs[j].firstFree;
    }
  }

  lemma RoWordsNotCarded(f: Flip, seen: set<int>, c: Copy, i: nat)
    requires WellFormed(f) && SeenOnly(f, seen, c.seen, i) && i % 4 != RW_POINTERS_SIB
    ensures forall x {:trigger x in c.seen} :: x in c.seen && x !in seen ==>
        forall j {:trigger Carded(f, c, j, x)} :: !Carded(f, c, j, x)
  {
    forall x, j | x in c.seen && x !in seen ensures !Carded(f, c, j, x) {
    }
  }

  method SweepRoSib(h: Heap, k: nat, i: nat) returns (made_progress: bool)
    requires Remaining(h, k) && i < |h.sibs| && i % 4 <= RO_CONSCELL_SIB
    modifies h`sibs, h`copy, h`weakrefs, h`huge, h`marked, h.ram
    ensures Remaining(h, k) && Extends(h.flip, old(h.copy), h.copy) && SweptOut(h.sibs[i]) && |h.sibs| == |old(h.sibs)|
    ensures if made_progress then Strictly(h.flip, old(h.copy),
        h.copy) else h.sibs == old(h.sibs) && h.copy == old(h.copy)
    ensures SeenOnly(h.flip, old(h.copy).seen, h.copy.seen, i)
  {
    hide Uncopied, Todo, Recorded, MarksCaused;
    ghost var m0, c0, sibs0, weakrefs0 := h.ram[..], h.copy, h.sibs, h.weakrefs;
    SweepBelowFree(h.flip, h.ram[..], h.sibs, h.weakrefs, h.copy, i);
    made_progress := ForwardRestOfRoPointersSib(h, k, i);
    MarksAsBefore(h.flip, h.ram[..], h.cards, h.copy);
    RecordedFurther(h.flip, m0, Free(sibs0), weakrefs0, c0, h.ram[..], Free(h.sibs), h.weakrefs, h.copy, h.cards,
        h.cards);
    RoWordsNotCarded(h.flip, c0.seen, h.copy, i);
    CardsStable(h.flip, m0, Free(sibs0), weakrefs0, c0, h.ram[..], Free(h.sibs), h.weakrefs, h.copy, h.cards);
    RangesKept(h.flip, h.ram[..], h.sibs, h.weakrefs, h.copy, sibs0, i);
  }

  method SweepRwSib(h: Heap, k: nat, i: nat) returns (made_progress: bool)
    requires Remaining(h, k) && i < |h.sibs| && i % 4 == RW_POINTERS_SIB && SibAge(i) <= k + 1
    modifies h`sibs, h`copy, h`weakrefs, h`huge, h`marked, h`cards, h.ram
    ensures Remaining(h, k) && Extends(h.flip, old(h.copy), h.copy) && SweptOut(h.sibs[i]) && |h.sibs| == |old(h.sibs)|
    ensures if made_progress then Strictly(h.flip, old(h.copy),
        h.copy) else h.sibs == old(h.sibs) && h.copy == old(h.copy)
    ensures SeenOnly(h.flip, old(h.copy).seen, h.copy.seen, i)
  {
    hide Uncopied, Todo, Recorded, MarksCaused;
    ghost var sibs0, cards0, m0, c0, weakrefs0 := h.sibs, h.cards, h.ram[..], h.copy, h.weakrefs;
    SweepBelowFree(h.flip, h.ram[..], h.sibs, h.weakrefs, h.copy, i);
    made_progress := ForwardRestOfRwPointersSib(h, k, i);
    RecordedFurther(h.flip, m0, Free(sibs0), weakrefs0, c0, h.ram[..], Free(h.sibs), h.weakrefs, h.copy, cards0,
        h.cards);
    OldCardsKept(h.flip, cards0, h.cards, i);
    RangesKept(h.flip, h.ram[..], h.sibs, h.weakrefs, h.copy, sibs0, i);
  }

  lemma OldCardsKept(f: Flip, cards: seq<CardMap>, cards': seq<CardMap>, i: nat)
    requires OldCards(f, cards) && OneMap(cards, cards', i / 4) && SibAge(i) <= f.k + 1
    ensures OldCards(f, cards')
  {
    forall j: nat, d ensures OldCard(f, cards', j, d) {
      assert OldCard(f, cards, j, d);
    }
  }

  /** The words newly seen lie in the free areas of sibs. */
  ghost predicate SeenInCopies(f: Flip, seen: set<int>, seen': set<int>) {
    forall x {:trigger x in seen'} :: x in seen' && x !in seen ==> 0 <= x < |f.zone| && f.zone[x].New?
  }

  method SweepAgegroup(h: Heap, k: nat, a: nat) returns (made_progress: bool)
    requires Remaining(h, k) && 4 * a + 4 <= |h.sibs| && a <= k
    modifies h`sibs, h`copy, h`weakrefs, h`huge, h`marked, h`cards, h.ram
    ensures Remaining(h, k) && Extends(h.flip, old(h.copy), h.copy) && |h.sibs| == |old(h.sibs)|
    ensures if made_progress then Strictly(h.flip, old(h.copy),
        h.copy) else h.sibs == old(h.sibs) && h.copy == old(h.copy)
    ensures !made_progress ==> SweptOut(h.sibs[4 * a]) && SweptOut(h.sibs[4 * a + 1]) && SweptOut(h.sibs[4 * a + 3])
    ensures SeenInCopies(h.flip, old(h.copy).seen, h.copy.seen)
  {
    hide Uncopied, Todo, Remaining, SweptOut;
    ghost var c0 := h.copy;
    var p0 := SweepRoSib(h, k, 4 * a + RO_POINTERS_SIB);
    ghost var c1 := h.copy;
    var p1 := SweepRoSib(h, k, 4 * a + RO_CONSCELL_SIB);
    ghost var c2 := h.copy;
    ExtendsTransitive(h.flip, c0, c1, c2);
    var p2 := SweepRwSib(h, k, 4 * a + RW_POINTERS_SIB);
    ExtendsTransitive(h.flip, c0, c2, h.copy);
    made_progress := p0 || p1 || p2;
  }

  /** Every pointer sib of the first n agegroups has been swept to its end. */
  predicate AllSweptOut(sibs: seq<Sib>, n: nat) {
    4 * n <= |sibs| && forall i {:trigger sibs[i]} :: 0 <= i < 4 * n && i % 4 != NONPTR_DATA_SIB ==> SweptOut(sibs[i])
  }

  /** One pass over the queues of the first n agegroups, youngest first. */
  method SweepPass(h: Heap, k: nat, n: nat) returns (making_progress: bool)
    requires Remaining(h, k) && 4 * n <= |h.sibs| && n <= k + 1
    modifies h`sibs, h`copy, h`weakrefs, h`huge, h`marked, h`cards, h.ram
    ensures Remaining(h, k) && Extends(h.flip, old(h.copy), h.copy) && |h.sibs| == |old(h.sibs)|
    ensures if making_progress then Strictly(h.flip, old(h.copy), h.copy) else AllSweptOut(h.sibs, n)
    ensures SeenInCopies(h.flip, old(h.copy).seen, h.copy.seen)
  {
    hide Uncopied, Todo, Remaining, SweptOut, Extends;
    ghost var c1, sibs1 := h.copy, h.sibs;
    ExtendsReflexive(h.flip, c1);
    making_progress := false;
    var a := 0;
    while a < n
      invariant Remaining(h, k) && Extends(h.flip, c1, h.copy) && |h.sibs| == |sibs1|
      invariant SeenInCopies(h.flip, c1.seen, h.copy.seen) && a <= n
      invariant if making_progress then Strictly(h.flip, c1,
          h.copy) else h.sibs == sibs1 && h.copy == c1 && AllSweptOut(h.sibs, a)
    {
      ghost var c2 := h.copy;
      var p := SweepAgegroup(h, k, a);
      ExtendsTransitive(h.flip, c1, c2, h.copy);
      making_progress := making_progress || p;
      if !making_progress { SweptOutThrough(h.sibs, a); }
      a := a + 1;
    }
  }

  /** Sweep the queues of the youngest agegroups, over and over, until none holds an unvisited word. */
  method ForwardAllRemainingLiveChunks(h: Heap, k: nat, max_swept_agegroup: nat)
    requires Remaining(h, k) && 4 * max_swept_agegroup <= |h.sibs| && max_swept_agegroup <= k + 1
    modifies h`sibs, h`copy, h`weakrefs, h`huge, h`marked, h`cards, h.ram
    ensures Remaining(h, k) && Extends(h.flip, old(h.copy), h.copy) && |h.sibs| == |old(h.sibs)|
    ensures AllSweptOut(h.sibs, max_swept_agegroup) && SeenInCopies(h.flip, old(h.copy).seen, h.copy.seen)
  {
    hide Uncopied, Todo, Remaining, SweptOut, Extends;
    ghost var c0, n := h.copy, |h.sibs|;
    ExtendsReflexive(h.flip, c0);
    var making_progress := true;
    while making_progress
      invariant Remaining(h, k) && Extends(h.flip, c0, h.copy) && |h.sibs| == n &&
          SeenInCopies(h.flip, c0.seen, h.copy.seen)
      invariant making_progress || AllSweptOut(h.sibs, max_swept_agegroup)
      decreases making_progress, Uncopied(h.flip, h.copy), Todo(h.copy)
    {
      ghost var c1 := h.copy;
      making_progress := SweepPass(h, k, max_swept_agegroup);
      ExtendsTransitive(h.flip, c0, c1, h.copy);
    }
  }

  lemma SweptOutThrough(sibs: seq<Sib>, a: nat)
    requires AllSweptOut(sibs, a) && 4 * a + 4 <= |sibs|
    requires SweptOut(sibs[4 * a]) && SweptOut(sibs[4 * a + 1]) && SweptOut(sibs[4 * a + 3])
    ensures AllSweptOut(sibs, a + 1)
  {
    forall i | 4 * a <= i < 4 * a + 4 && i % 4 != NONPTR_DATA_SIB ensures SweptOut(sibs[i]) {
      assert i == 4 * a + i % 4;
    }
  }

  // ------------------------------------------------------------------ the heap a clean starts from

  predicate UncleanedWord(f: Flip, i: int, x: int) {
    0 <= i < |f.sibs| && i % 4 == RW_POINTERS_SIB && SibAge(i) > f.k && f.sibs[i].start <= x < f.sibs[i].firstFree
  }

  ghost predicate InUncleaned(f: Flip, x: int) { exists i :: UncleanedWord(f, i, x) }

  predicate OlderWord(f: Flip, w: Word) { w.Pointer? ==> PointeeAge(f, w.addr) > f.k }

  /** A pointer word outside from-space is a root location, or belongs to an RW_POINTERS sib that is not
      being cleaned, or refers to nothing that is: immutable chunks do not point to younger agegroups. */
  ghost predicate ExtWordOk(f: Flip, roots: seq<nat>, x: int) {
    x in f.ext ==>
        && 0 <= x < |f.zone|
        && |f.zone| == |f.mem|
        && f.zone[x].Fixed?
        && (x in roots || InUncleaned(f, x) || OlderWord(f, f.mem[x]))
  }

  /** When cleaning starts every word of an uncleaned RW_POINTERS sib is covered by its card. */
  ghost predicate FlipCardOk(f: Flip, i: int, x: int) {
    UncleanedWord(f, i, x) && 0 <= x < |f.mem| ==> i / 4 < |f.cards| && Covers(f, f.cards[i / 4], SibAge(i), x,
        f.mem[x])
  }

  predicate DestSwept(f: Flip, n: nat, a: int) { a >= 0 && Chunk(f, a) ==> Dest(f, a) < 4 * n }

  predicate EmptyToSpace(f: Flip,
      i: int) { 0 <= i < |f.sibs| && SibAge(i) <= f.k ==> f.sibs[i].firstFree == f.sibs[i].start }

  function MaxSwept(k: nat, active: nat): nat { if k < active then k + 1 else k }

  ghost predicate MajorReady(f: Flip, roots: seq<nat>, active: nat) {
    && WellFormed(f) && Room(f) && MajorFlip(f) && CardReady(f, f.cards) && Uncleaned(f) && RootsOk(f, {}, roots)
    && |f.sibs| == 4 * active == 4 * |f.cards| && f.k <= active
    && (forall i {:trigger SweepStart(f, i)} :: SweepStart(f, i))
    && (forall i {:trigger EmptyToSpace(f, i)} :: EmptyToSpace(f, i))
    && (forall x {:trigger ExtWordOk(f, roots, x)} :: ExtWordOk(f, roots, x))
    && (forall i, x {:trigger FlipCardOk(f, i, x)} :: FlipCardOk(f, i, x))
    && (forall a {:trigger DestSwept(f, MaxSwept(f.k, active), a)} :: DestSwept(f, MaxSwept(f.k, active), a))
  }

  const NOTHING_COPIED := Copy(map[], map[], {}, [])

  /** The heap object is as the flip describes it and nothing has been copied. */
  ghost predicate AtFlip(h: Heap)
    reads h, h.ram
  {
    && h.ram[..] == h.flip.mem && h.b2s == h.flip.b2s && h.sibs == h.flip.sibs && h.cards == h.flip.cards
    && h.quires == h.flip.quires && h.huge == h.flip.huge && h.weakrefs == 0
    && h.copy == NOTHING_COPIED && h.marked == {}
  }

  lemma FlipState(f: Flip)
    requires WellFormed(f) && Room(f)
    ensures CleaningState(f, f.mem, f.sibs, 0, NOTHING_COPIED, f.huge, {})
  {
    var c, ff := NOTHING_COPIED, Free(f.sibs);
    forall i | 0 <= i < |f.sibs| ensures f.sibs[i].firstFree <= ff[i] <= f.sibs[i].limit { assert SibOk(f, i); }
    assert Inv(f, f.mem, ff, 0, c);
  }

  lemma FlipScans(f: Flip, roots: seq<nat>, active: nat)
    requires MajorReady(f, roots, active)
    ensures SweptBut(f, {}, f.sibs, -1, 0) && CardsHold(f, f.mem, f.cards, NOTHING_COPIED)
    ensures forall i {:trigger SweepRange(f, f.sibs, i)} :: SweepRange(f, f.sibs, i)
  {
    var n, c, s := -1, NOTHING_COPIED, {};
    forall j, x ensures SweepOk(f, s, j, SweepPoint(f.sibs, n, 0, j), x) { assert SweepStart(f, j); }
    forall i ensures SweepRange(f, f.sibs, i) {
      assert SweepStart(f, i) && (0 <= i < |f.sibs| ==> SibOk(f, i));
    }
    forall j, x ensures !(j == n && 0 <= x < 0) ==> CardOk(f, f.mem, f.cards, c, j, x) {
      if Carded(f, c, j, x) {
        CardedAtFlip(f, roots, active, j, x);
      }
    }
  }

  lemma CardedAtFlip(f: Flip, roots: seq<nat>, active: nat, j: int, x: int)
    requires MajorReady(f, roots, active) && Carded(f, NOTHING_COPIED, j, x)
    ensures CardOk(f, f.mem, f.cards, NOTHING_COPIED, j, x)
  {
    assert FlipCardOk(f, j, x) && SibOk(f, j);
    assert EmptyToSpace(f, j);
  }

  lemma RootsAreSeen(f: Flip, roots: seq<nat>, seen: set<int>, cards: seq<CardMap>)
    requires WellFormed(f) && RootsOk(f, {}, roots) && seen == {} + set j | 0 <= j < |roots| :: roots[j]
    requires cards == f.cards && CardReady(f, f.cards) && Uncleaned(f)
    ensures Scanned(f, cards, seen, 4 * f.k)
  {
    var n := 4 * f.k;
    forall j: nat ensures ScannedSib(f, cards, seen, j, n) {
      if j < |f.sibs| && j % 4 == RW_POINTERS_SIB && Active(f.sibs[j]) && j / 4 < |f.cards| {
        forall d ensures CardStage(f, cards, seen, j, 0, d) {
          forall x | x in seen ensures !(f.sibs[j].start <= x < f.sibs[j].firstFree) {
            var i :| 0 <= i < |roots| && roots[i] == x;
            assert RootOk(f, roots[i]) && !InBuffer(f, j, x) && SibOk(f, j);
          }
          assert MapOk(f, cards, j);
        }
      }
    }
  }

  // ------------------------------------------------------------------ copying everything that is live

  method ForwardAllLiveChunks(h: Heap, k: nat, roots: seq<nat>)
    requires MajorReady(h.flip, roots, h.active) && AtFlip(h) && k == h.flip.k
    modifies h`sibs, h`copy, h`weakrefs, h`huge, h`marked, h`cards, h.ram
    ensures Remaining(h, k) && AllSweptOut(h.sibs, MaxSwept(k, h.active)) && |h.sibs| == 4 * h.active
    ensures forall j {:trigger roots[j]} :: 0 <= j < |roots| ==> roots[j] in h.copy.seen
  {
    FlipState(h.flip);
    FlipScans(h.flip, roots, h.active);
    ForwardAllRootChunks(h, k, roots);
    RootsAreSeen(h.flip, roots, h.copy.seen, h.cards);
    ghost var c1 := h.copy;
    ForwardAllChunksReferencedByUncleanedAgegroups(h, k);
    ScanIsComplete(h.flip, h.cards, h.copy.seen);
    RecordStarts(h.flip, h.ram[..], h.cards, h.copy);
    forall i ensures SweepRange(h.flip, h.sibs, i) { assert SweepRange(h.flip, h.flip.sibs, i); }
    ghost var c2 := h.copy;
    var max_swept_agegroup := k;
    if k < h.active {
      max_swept_agegroup := max_swept_agegroup + 1;
    }
    ForwardAllRemainingLiveChunks(h, k, max_swept_agegroup);
    forall j | 0 <= j < |roots| ensures roots[j] in h.copy.seen {
      assert roots[j] in c1.seen && roots[j] in c2.seen;
    }
  }

  lemma SweptMeansVisited(f: Flip, m: seq<Word>, sibs: seq<Sib>, weakrefs: nat, c: Copy, n: nat)
    requires Inv(f, m, Free(sibs), weakrefs, c) && SameBuffers(f.sibs, sibs) && SweptBut(f, c.seen, sibs, -1, 0) &&
        AllSweptOut(sibs, n)
    requires forall a {:trigger DestSwept(f, n, a)} :: DestSwept(f, n, a)
    ensures AllVisited(f, c)
  {
    forall p ensures VisitedIfPointer(f, c, p) {
      if p in c.org && 0 <= p < |f.zone| && f.zone[p].New? {
        CopySwept(f, m, sibs, weakrefs, c, n, p);
      }
    }
  }

  lemma CopySwept(f: Flip, m: seq<Word>, sibs: seq<Sib>, weakrefs: nat, c: Copy, n: nat, p: int)
    requires Inv(f, m, Free(sibs), weakrefs, c) && SameBuffers(f.sibs, sibs) && SweptBut(f, c.seen, sibs, -1, 0) &&
        AllSweptOut(sibs, n)
    requires forall a {:trigger DestSwept(f, n, a)} :: DestSwept(f, n, a)
    requires p in c.org && 0 <= p < |f.zone| && f.zone[p].New?
    ensures VisitedIfPointer(f, c, p)
  {
    var i := f.zone[p].sib;
    var x := c.org[p];
    assert OriginOk(f, Free(sibs), c.fwd, p, x) && ZoneOk(f, p) && SibOk(f, i) && SameBuffer(f.sibs[i], sibs[i]);
    assert Free(sibs)[i] == sibs[i].firstFree;
    assert SweepOk(f, c.seen, i, SweepPoint(sibs, -1, 0, i), p);
    var a := if x >= 0 then f.zone[x].chunk else -1 - x;
    assert Forwarded(f, m, a, c.fwd[a]) && DestSwept(f, n, a);
    assert Active(sibs[i]);
    assert SweptOut(sibs[i]) || i % 4 == NONPTR_DATA_SIB;
  }

  /** Every word outside from-space that refers to what is being cleaned has been visited. */
  lemma ReferringWordIsSeen(f: Flip, roots: seq<nat>, active: nat, seen: set<int>, x: int)
    requires MajorReady(f, roots, active) && DirtyWordsSeen(f, seen)
    requires forall j {:trigger roots[j]} :: 0 <= j < |roots| ==> roots[j] in seen
    requires ScanWord(f, x) && f.zone[x].Fixed? && f.mem[x].Pointer? && PointeeAge(f, f.mem[x].addr) <= f.k &&
        AgeAt(f, f.mem[x].addr) <= f.k
    ensures x in seen
  {
    assert ExtWordOk(f, roots, x);
    if x !in roots {
      var i :| UncleanedWord(f, i, x);
      assert FlipCardOk(f, i, x) && OnDirtyCard(f, i, x);
    }
  }

  lemma RootWordsClosed(f: Flip, roots: seq<nat>, active: nat, m: seq<Word>, ff: seq<nat>, weakrefs: nat, c: Copy,
      x: int, b: int)
    requires MajorReady(f, roots, active) && DirtyWordsSeen(f, c.seen) && Inv(f, m, ff, weakrefs, c)
    requires forall j {:trigger roots[j]} :: 0 <= j < |roots| ==> roots[j] in c.seen
    requires RootWord(f, x, b)
    ensures b in c.fwd
  {
    assert ChunkOk(f, b);
    ReferringWordIsSeen(f, roots, active, c.seen, x);
    assert FixedOk(f, m, c.fwd, c.seen, x);
  }

  /** Code of a cleaned age is marked if and only if a live pointer leads to it. */
  predicate MarkIsExact(f: Flip, marked: set<int>, d: int, live: bool) {
    0 <= d < |f.huge| && f.huge[d].age <= f.k ==> (d in marked <==> live)
  }

  lemma CodeReached(f: Flip, roots: seq<nat>, active: nat, m: seq<Word>, ff: seq<nat>, weakrefs: nat, c: Copy,
                    huge: seq<Huge>, marked: set<int>, d: int)
    requires MajorReady(f, roots, active) && DirtyWordsSeen(f, c.seen) && Inv(f, m, ff, weakrefs, c)
    requires forall j {:trigger roots[j]} :: 0 <= j < |roots| ==> roots[j] in c.seen
    requires AllVisited(f, c) && InvHuge(f, huge, c, marked) && forall a {:trigger Live(f, a)} :: a in c.fwd <==>
        Live(f, a)
    ensures MarkIsExact(f, marked, d, HugeLive(f, d))
  {
    if 0 <= d < |f.huge| && f.huge[d].age <= f.k && HugeLive(f, d) {
      var x :| HugeWord(f, x, d);
      if f.zone[x].Fixed? {
        assert LabelOk(f, x);
        ReferringWordIsSeen(f, roots, active, c.seen, x);
        assert SeenCode(f, c, marked, x);
      } else {
        LiveCodeWord(f, m, ff, weakrefs, c, x, d);
        assert SeenCode(f, c, marked, c.fwd[f.zone[x].chunk] + x - f.zone[x].chunk);
      }
    }
  }

  lemma LiveCodeWord(f: Flip, m: seq<Word>, ff: seq<nat>, weakrefs: nat, c: Copy, x: int, d: int)
    requires Inv(f, m, ff, weakrefs, c) && AllVisited(f, c) && HugeWord(f, x, d) && f.zone[x].Old? &&
        f.zone[x].chunk in c.fwd
    ensures var p := c.fwd[f.zone[x].chunk] + x - f.zone[x].chunk;
      p in c.seen && Visitable(f, c.org, p) && f.zone[p].New? && c.org[p] == x
  {
    var a := f.zone[x].chunk;
    assert Forwarded(f, m, a, c.fwd[a]) && ZoneOk(f, x) && ChunkOk(f, a);
    var p := c.fwd[a] + x - a;
    assert ImageOk(f, c.fwd, c.org, x) && OriginOk(f, ff, c.fwd, p, c.org[p]) && VisitedIfPointer(f, c, p);
  }

  /** Settling the weakrefs changes no word the cards account for. */
  lemma SettledCards(f: Flip, m: seq<Word>, cards: seq<CardMap>, c: Copy, m': seq<Word>, ff: seq<nat>, weakrefs: nat)
    requires Inv(f, m, ff, weakrefs, c) && CardsHold(f, m, cards, c) && SettledFrom(f, m, c, m', 0)
    ensures CardsHold(f, m', cards, c)
  {
    var n := -1;
    forall j, x ensures !(j == n && 0 <= x < 0) ==> CardOk(f, m', cards, c, j, x) {
      assert CardOk(f, m, cards, c, j, x) && SettledWord(f, m, c, m', 0, x);
      assert x in c.org ==> OriginOk(f, ff, c.fwd, x, c.org[x]);
    }
  }

  /** Words outside from-space, after the clean: relocated, so that none refers to from-space. */
  predicate ExtMoved(f: Flip, fwd: map<int, int>, m: seq<Word>, x: int) {
    0 <= x < |m| && |m| == |f.mem| == |f.zone| && x in f.ext && f.zone[x].Fixed? ==> Relocated(f, fwd, f.mem[x], m[x])
  }

  lemma ExtWordMoved(f: Flip, roots: seq<nat>, active: nat, m: seq<Word>, ff: seq<nat>, weakrefs: nat, c: Copy,
      m': seq<Word>, x: int)
    requires MajorReady(f, roots, active) && DirtyWordsSeen(f, c.seen) && Inv(f, m, ff, weakrefs, c) &&
        SettledFrom(f, m, c, m', 0)
    requires forall j {:trigger roots[j]} :: 0 <= j < |roots| ==> roots[j] in c.seen
    ensures ExtMoved(f, c.fwd, m', x)
  {
    if 0 <= x < |m| && x in f.ext && f.zone[x].Fixed? {
      assert FixedOk(f, m, c.fwd, c.seen, x) && SettledWord(f, m, c, m', 0, x);
      assert x in c.org ==> OriginOk(f, ff, c.fwd, x, c.org[x]);
      if f.mem[x].Pointer? && Chunk(f, f.mem[x].addr) {
        assert ChunkOk(f, f.mem[x].addr);
        ReferringWordIsSeen(f, roots, active, c.seen, x);
      }
    }
  }

  /** How the copies lie in the to-spaces. */
  ghost predicate Layout(f: Flip, ff: seq<nat>, c: Copy) {
    WellFormed(f) && InvFree(f, ff) && InvOrg(f, ff, c.fwd, c.org) && InvCover(f, ff, c.org) &&
        InvImage(f, c.fwd, c.org)
  }

  predicate SweepDone(sibs: seq<Sib>,
      i: int) { 0 <= i < |sibs| && i % 4 != NONPTR_DATA_SIB ==> sibs[i].sweptEnd == sibs[i].firstFree }

  /** A word outside from-space that holds no reference of the mutator's is untouched. */
  predicate RestKept(f: Flip, m: seq<Word>, x: int) {
    0 <= x < |m| && |m| == |f.mem| == |f.zone| && x !in f.ext && f.zone[x].Fixed? ==> m[x] == f.mem[x]
  }

  /** What a major clean of agegroups 1 to k leaves, up to its treatment of hugechunks. */
  ghost predicate CleanedState(f: Flip, m: seq<Word>, sibs: seq<Sib>, c: Copy, huge: seq<Huge>, marked: set<int>,
      cards: seq<CardMap>) {
    && SameBuffers(f.sibs, sibs) && |m| == |f.mem|
    && Layout(f, Free(sibs), c) && (forall i {:trigger SweepDone(sibs, i)} :: SweepDone(sibs, i))
    && LiveGraphCopied(f, Free(sibs), c.fwd, m)
    && (forall x {:trigger ExtMoved(f, c.fwd, m, x)} :: ExtMoved(f, c.fwd, m, x))
    && (forall x {:trigger RestKept(f, m, x)} :: RestKept(f, m, x))
    && CardReady(f, cards) && CardsHold(f, m, cards, c) && OldCards(f, cards) && AllVisited(f, c)
    && Recorded(f, m, cards, c) && InvHuge(f, huge, c, marked)
    && (forall d {:trigger MarkIsExact(f, marked, d, HugeLive(f, d))} :: MarkIsExact(f, marked, d, HugeLive(f, d)))
    && (forall a {:trigger a in c.chain} :: a in c.chain ==> Chunk(f, a) && Weak(f, a))
  }

  ghost predicate Cleaned(h: Heap)
    reads h, h.ram
  {
    && CleanedState(h.flip, h.ram[..], h.sibs, h.copy, h.huge, h.marked, h.cards) && |h.cards| == |h.flip.cards|
    && h.weakrefs == 0 && h.b2s == h.flip.b2s && h.quires == h.flip.quires
  }

  /** Copy what is live and settle the weakrefs. */
  method CleanPlainChunks(h: Heap, k: nat, roots: seq<nat>)
    requires MajorReady(h.flip, roots, h.active) && AtFlip(h) && k == h.flip.k
    modifies h`sibs, h`copy, h`weakrefs, h`huge, h`marked, h`cards, h.ram
    ensures Cleaned(h)
  {
    ForwardAllLiveChunks(h, k, roots);
    ghost var m, w := h.ram[..], h.weakrefs;
    NullOutNewlyDeadWeakrefs(h);
    Conclude(h.flip, roots, h.active, m, h.sibs, w, h.copy, h.huge, h.marked, h.cards, h.ram[..]);
    QueuesAreEmpty(h.flip, roots, h.active, m, h.sibs, w, h.copy);
  }

  /** No sib has an unswept word, not even those that received nothing. */
  lemma QueuesAreEmpty(f: Flip, roots: seq<nat>, active: nat, m: seq<Word>, sibs: seq<Sib>, w: nat, c: Copy)
    requires MajorReady(f, roots, active) && Inv(f, m, Free(sibs), w, c) && SameBuffers(f.sibs, sibs) &&
        SweptBut(f, c.seen, sibs, -1, 0)
    requires AllSweptOut(sibs, MaxSwept(f.k, active)) &&
        forall i {:trigger SweepRange(f, sibs, i)} :: SweepRange(f, sibs, i)
    ensures forall i {:trigger SweepDone(sibs, i)} :: SweepDone(sibs, i)
  {
    forall i ensures SweepDone(sibs, i) {
      if 0 <= i < |sibs| && i % 4 != NONPTR_DATA_SIB {
        SweepBelowFree(f, m, sibs, w, c, i);
        assert SweepStart(f, i) && SibOk(f, i) && Free(sibs)[i] == sibs[i].firstFree && SameBuffer(f.sibs[i], sibs[i]);
        if i < 4 * MaxSwept(f.k, active) {
          assert SweptOut(sibs[i]);
        } else {
          NothingArrived(f, roots, active, m, sibs, w, c, i);
        }
      }
    }
  }

  lemma NothingArrived(f: Flip, roots: seq<nat>, active: nat, m: seq<Word>, sibs: seq<Sib>, w: nat, c: Copy, i: nat)
    requires MajorReady(f, roots, active) && Inv(f, m, Free(sibs), w, c) && 4 * MaxSwept(f.k, active) <= i < |sibs|
    ensures sibs[i].firstFree == f.sibs[i].firstFree
  {
    assert Free(sibs)[i] == sibs[i].firstFree;
    var p := f.sibs[i].firstFree;
    assert CoverOk(f, Free(sibs), c.org, i, p) && SibOk(f, i) && AreaOk(f, i, p);
    if p in c.org {
      assert OriginOk(f, Free(sibs), c.fwd, p, c.org[p]);
      var a := if c.org[p] >= 0 then f.zone[c.org[p]].chunk else -1 - c.org[p];
      assert a in c.fwd ==> Forwarded(f, m, a, c.fwd[a]);
      assert DestSwept(f, MaxSwept(f.k, active), a);
    }
  }

  lemma Conclude(f: Flip, roots: seq<nat>, active: nat, m: seq<Word>, sibs: seq<Sib>, w: nat, c: Copy, huge: seq<Huge>,
                 marked: set<int>, cards: seq<CardMap>, m': seq<Word>)
    requires MajorReady(f, roots, active) && CleaningState(f, m, sibs, w, c, huge, marked)
    requires SweptBut(f, c.seen, sibs, -1, 0) && AllSweptOut(sibs, MaxSwept(f.k, active)) && DirtyWordsSeen(f, c.seen)
    requires forall j {:trigger roots[j]} :: 0 <= j < |roots| ==> roots[j] in c.seen
    requires CardsHold(f, m, cards, c) && Recorded(f, m, cards, c) && SettledFrom(f, m, c, m', 0)
    ensures Recorded(f, m', cards, c)
    ensures LiveGraphCopied(f, Free(sibs), c.fwd, m') && CardsHold(f, m', cards, c) && AllVisited(f, c)
    ensures forall x {:trigger ExtMoved(f, c.fwd, m', x)} :: ExtMoved(f, c.fwd, m', x)
    ensures forall x {:trigger RestKept(f, m', x)} :: RestKept(f, m', x)
    ensures forall d {:trigger MarkIsExact(f, marked, d, HugeLive(f, d))} :: MarkIsExact(f, marked, d, HugeLive(f, d))
    ensures forall a {:trigger a in c.chain} :: a in c.chain ==> Chunk(f, a) && Weak(f, a)
  {
    var ff := Free(sibs);
    forall a | a in c.chain ensures Chunk(f, a) && Weak(f, a) {
      var j :| 0 <= j < |c.chain| && c.chain[j] == a;
      assert LinkOk(f, m, c.fwd, c.chain, j);
    }
    SweptMeansVisited(f, m, sibs, w, c, MaxSwept(f.k, active));
    forall x, b | RootWord(f, x, b) ensures b in c.fwd {
      RootWordsClosed(f, roots, active, m, ff, w, c, x, b);
    }
    GraphIsCopied(f, m, ff, w, c, m');
    SettledCards(f, m, cards, c, m', ff, w);
    RecordedSettled(f, m, ff, w, c, cards, m');
    forall x ensures ExtMoved(f, c.fwd, m', x) {
      ExtWordMoved(f, roots, active, m, ff, w, c, m', x);
    }
    forall x ensures RestKept(f, m', x) {
      assert FixedOk(f, m, c.fwd, c.seen, x) && SettledWord(f, m, c, m', 0, x);
      assert x in c.org ==> OriginOk(f, ff, c.fwd, x, c.org[x]);
    }
    forall d ensures MarkIsExact(f, marked, d, HugeLive(f, d)) {
      CodeReached(f, roots, active, m, ff, w, c, huge, marked, d);
    }
  }
}
