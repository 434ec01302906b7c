/** heapclean_n_agegroups of heapclean-n-agegroups.c, from a heap at rest to a heap at rest. */
module MajorMain {
  import opened HeapTags
  import opened HeapModel
  import opened Forwarding
  import opened HeapObject
  import opened MajorForward
  import opened MajorSweep
  import opened MajorCards
  import opened MajorRoots
  import opened MajorClean
  import opened MajorSizing
  import opened MajorHuge
  import opened MajorFinish
  import opened CleanResult
  import opened HeapWorld
  import opened MajorSetup
  import opened MajorRest
  import opened MajorRisk
  import opened NurseryLabels
  import opened FreshMemory

  /** The heap object is the heap w at rest. */
  ghost predicate HeapIs(h: Heap, w: Flip)
    reads h, h.ram
  {
    && h.ram[..] == w.mem && h.b2s == w.b2s && h.sibs == w.sibs && h.cards == w.cards && h.quires == w.quires &&
        h.huge == w.huge
    && h.active == w.k && h.weakrefs == 0
  }

  /** The tables the sizing reads have the right sizes, and each agegroup was cleaned more often than its
      elder has seen. */
  ghost predicate SizingOk(h: Heap)
    reads h
  {
    && |h.requested| == |h.softMax| == 4 * h.active && |h.ratios| == h.active && h.active >= 1
    && (forall i {:trigger h.softMax[i]} :: 0 <= i < |h.softMax| ==> h.softMax[i] >= 4 && h.softMax[i] % 4 == 0)
    && CountsOk(h.counts, h.youngerCounts, h.active)
  }

  // ------------------------------------------------------------------ between the phases

  lemma ShapesOf(w: Flip, roots: seq<nat>, lists: seq<seq<nat>>, quireList: seq<nat>)
    requires AtRest(w, roots, lists, quireList)
    ensures forall i {:trigger w.sibs[i]} :: 0 <= i < |w.sibs| ==> SibShape(w.sibs[i])
    ensures |w.sibs| == 4 * w.k == 4 * |w.cards|
  {
    forall i | 0 <= i < |w.sibs| ensures SibShape(w.sibs[i]) { assert SibRests(w, i) && SibOk(w, i); }
  }

  /** Marking changes no state from live to free and no age or size. */
  lemma MarkingKeepsQuires(b2s: seq<Sibid>, quires: map<nat, Quire>, f: Flip, huge: seq<Huge>, c: Copy,
      marked: set<int>, list: seq<nat>)
    requires QuiresOk(b2s, quires, f.huge, list) && InvHuge(f, huge, c, marked)
    ensures QuiresOk(b2s, quires, huge, list)
  {
    forall r | r in quires ensures QuireOk(b2s, quires[r], huge, r) {
      assert QuireOk(b2s, quires[r], f.huge, r);
      TilesMarked(f, huge, c, marked, quires[r].pages, 0);
      forall j ensures AtMost(huge, quires[r].pages, quires[r].youngest, j) { assert AtMost(f.huge, quires[r].pages,
          quires[r].youngest, j); }
    }
  }

  lemma {:induction false} TilesMarked(f: Flip, huge: seq<Huge>, c: Copy, marked: set<int>, pages: seq<nat>, i: nat)
    requires Tiled(f.huge, pages, i) && InvHuge(f, huge, c, marked)
    ensures Tiled(huge, pages, i)
    decreases |pages| - i
  {
    if i < |pages| {
      assert huge[pages[i]] == MarkedState(f.huge[pages[i]], pages[i] in marked, f.k);
      TilesMarked(f, huge, c, marked, pages, i + f.huge[pages[i]].pages);
    }
  }

  /** The flip touches no quire. */
  lemma FlipKeepsQuires(w: Flip, k: nat, bases: seq<nat>, grants: seq<nat>, n: After, list: seq<nat>)
    requires Relabel(w, k, bases, grants, n) && QuiresOk(w.b2s, w.quires, w.huge, list)
    ensures QuiresOk(n.b2s, w.quires, w.huge, list)
  {
    forall r | r in w.quires ensures QuireOk(n.b2s, w.quires[r], w.huge, r) {
      assert QuireOk(w.b2s, w.quires[r], w.huge, r);
      forall b ensures BookOk(n.b2s, w.quires[r], r, b) {
        assert BookOk(w.b2s, w.quires[r], r, b);
        if r <= b < r + w.quires[r].books { CodeBookKept(w, k, bases, grants, n, b); }
      }
    }
  }

  lemma CodeBookKept(w: Flip, k: nat, bases: seq<nat>, grants: seq<nat>, n: After, b: nat)
    requires Relabel(w, k, bases, grants, n) && b < |w.b2s| && w.b2s[b].kind == CODE_KIND
    ensures n.b2s[b] == w.b2s[b]
  {
    var x := b * BOOK;
    assert x / BOOK == b;
    var kind := KindAt(w, x);
    forall a ensures !InWords(bases, grants, a, x) {
      assert InWords(bases, grants, a, x) ==> kind != CODE_KIND;
    }
    NotGranted(w, k, bases, grants, n, x);
  }

  /** The old buffers and the quires share no book. */
  lemma OldBuffersApart(w: Flip, k: nat, requested: seq<nat>, nursery: nat, bases: seq<nat>, grants: seq<nat>, n: After,
      copied: seq<Sib>, list: seq<nat>,
                        i: int, r: nat, b: int)
    requires Relabel(w, k, bases, grants, n) && SibsFlipped(w, k, requested, nursery, bases, grants, n) &&
        SameBuffers(n.sibs, copied)
    requires QuiresOk(n.b2s, w.quires, w.huge, list) && 0 <= i < 4 * k
    ensures ApartFrom(copied, w.quires, i, r, b)
  {
    if r in w.quires && r <= b < r + w.quires[r].books && FromBookOf(copied, i, b) {
      assert QuireOk(n.b2s, w.quires[r], w.huge, r) && BookOk(n.b2s, w.quires[r], r, b);
      var y := OldBook(w, k, requested, nursery, bases, grants, n, copied, i, b);
    }
  }

  lemma FromSpacesFit(w: Flip, k: nat, requested: seq<nat>, nursery: nat, bases: seq<nat>, grants: seq<nat>, n: After,
      copied: seq<Sib>, i: nat)
    requires Relabel(w, k, bases, grants, n) && SibsFlipped(w, k, requested, nursery, bases, grants, n) &&
        SameBuffers(n.sibs, copied)
    requires |w.mem| <= |w.b2s| * BOOK && i < |copied|
    ensures FromFits(copied[i], |n.b2s|)
  {
    assert SibRests(w, i) && SibOk(w, i) && SameBuffer(n.sibs[i], copied[i]);
    if i < 4 * k { assert Flipped(w.sibs, n.sibs, requested, nursery, i, bases[i / 4], grants[i / 4]); }
    InBooks(w.sibs[i].limit, |w.b2s|);
  }

  lemma InBooks(x: nat, books: nat)
    requires x <= books * BOOK
    ensures x / BOOK <= books
  {
  }

  /** After the from-spaces are given back and the boundaries and limits are moved, every sib is final. */
  lemma SibsAreFinal(w: Flip, k: nat, requested: seq<nat>, nursery: nat, bases: seq<nat>, grants: seq<nat>, n: After,
      copied: seq<Sib>,
                     freed: seq<Sib>, moved: seq<Sib>, sibs: seq<Sib>, least: seq<nat>, i: nat)
    requires Relabel(w, k, bases, grants, n) && SibsFlipped(w, k, requested, nursery, bases, grants, n) &&
        SameBuffers(n.sibs, copied)
    requires i < |copied| == |freed| == |moved| == |sibs| == |least| && copied[i].firstFree <= copied[i].limit
    requires freed[i] == if 0 <= i < 4 * k && copied[i].fromStart != 0 then NoFromSpace(copied[i]) else copied[i]
    requires moved[i] == if i < 4 * k then freed[i].(seniorEnd := SeniorEnd(freed[i], i, w.k)) else freed[i]
    requires if i < 4 * k then Trimmed(moved[i], sibs[i], least[i]) else sibs[i] == moved[i]
    ensures SibFinal(copied[i], sibs[i], i, k, w.k)
  {
    assert SibRests(w, i) && SibOk(w, i) && SameBuffer(n.sibs[i], copied[i]);
    if i < 4 * k { assert Flipped(w.sibs, n.sibs, requested, nursery, i, bases[i / 4], grants[i / 4]); }
  }

  // ------------------------------------------------------------------ the whole clean

  /** Whatever is flipped, the data buffers have room for the alignment gaps copying may leave. */
  ghost predicate GapsFit(w: Flip, roots: seq<nat>, lists: seq<seq<nat>>, quireList: seq<nat>, requested: seq<nat>,
      nursery: nat, bases: seq<nat>, grants: seq<nat>) {
    forall k: nat, n {:trigger Flipping(w, k, roots, lists, quireList, requested, nursery, bases, grants, n)} ::
      Flipping(w, k, roots, lists, quireList, requested, nursery, bases, grants, n) ==> DataHasRoom(Flips(w, k, n))
  }

  /** What the clean did, beyond leaving a heap at rest: copied the live graph of what it cleaned, followed
      every reference from outside, and kept of the hugechunks of those ages the ones that were reached. */
  ghost predicate DidClean(h: Heap, huge: seq<Huge>)
    reads h, h.ram
  {
    var f := h.flip;
    && LiveGraphCopied(f, Free(h.sibs), h.copy.fwd, h.ram[..])
    && (forall x {:trigger ExtMoved(f, h.copy.fwd, h.ram[..], x)} :: ExtMoved(f, h.copy.fwd, h.ram[..], x))
    && (forall d {:trigger SurvivesIfReached(f, huge, h.huge, d)} :: SurvivesIfReached(f, huge, h.huge, d))
    && Recorded(f, h.ram[..], h.cards, h.copy)
  }

  ghost predicate SurvivesIfReached(f: Flip, huge0: seq<Huge>, huge: seq<Huge>, d: int) {
    0 <= d < |huge0| && |huge| == |huge0| ==> (LiveHuge(huge[d]) <==>
        LiveHuge(huge0[d]) && (huge0[d].age > f.k || HugeLive(f, d)))
  }

  /** Flip and copy. */
  method CleanFlipped(h: Heap, k: nat, roots: seq<nat>, bases: seq<nat>, grants: seq<nat>, ghost w: Flip)
      returns (ghost n: After)
    requires Flipping(w, k, roots, h.hugechunks, h.quire_list, h.requested, h.nurseryWords, bases, grants,
        After(h.ram[..], h.b2s, h.sibs, h.cards))
    requires h.quires == w.quires && h.huge == w.huge && h.active == w.k && h.weakrefs == 0
    requires GapsFit(w, roots, h.hugechunks, h.quire_list, h.requested, h.nurseryWords, bases, grants)
    modifies h`flip, h`sibs, h`copy, h`weakrefs, h`huge, h`marked, h`cards, h.ram
    ensures Flipping(w, k, roots, h.hugechunks, h.quire_list, h.requested, h.nurseryWords, bases, grants, n)
    ensures h.flip == Flips(w, k, n) && MajorReady(h.flip, roots, w.k) && Cleaned(h) && h.b2s == n.b2s &&
        h.quires == w.quires
  {
    n := After(h.ram[..], h.b2s, h.sibs, h.cards);
    FlipIsReady(w, k, roots, h.hugechunks, h.quire_list, h.requested, h.nurseryWords, bases, grants, n);
    h.flip, h.copy, h.marked := Flips(w, k, n), NOTHING_COPIED, {};
    CleanPlainChunks(h, k, roots);
  }

  /** What the hugechunk pass needs. */
  lemma BeforePass(w: Flip, k: nat, roots: seq<nat>, lists: seq<seq<nat>>, quireList: seq<nat>, requested: seq<nat>,
      nursery: nat, bases: seq<nat>,
                   grants: seq<nat>, n: After, m: seq<Word>, copied: seq<Sib>, c: Copy, huge: seq<Huge>,
                       marked: set<int>, cards: seq<CardMap>)
    requires Flipping(w, k, roots, lists, quireList, requested, nursery, bases, grants, n)
    requires CleanedState(Flips(w, k, n), m, copied, c, huge, marked, cards)
    ensures HugeListsOk(huge, lists, k, w.k) && k <= w.k && |copied| == 4 * w.k && NoRepeats(quireList) &&
        QuiresOk(n.b2s, w.quires, huge, quireList)
    ensures |Flips(w, k, n).cards| == w.k && SameBuffers(n.sibs, copied)
    ensures forall i {:trigger copied[i]} :: 0 <= i < |copied| ==> FromFits(copied[i], |n.b2s|) && TrimReady(copied[i])
    ensures forall i, r, b {:trigger ApartFrom(copied, w.quires, i, r, b)} ::
        0 <= i < 4 * k ==> ApartFrom(copied, w.quires, i, r, b)
  {
    var f := Flips(w, k, n);
    FlippingParts(w, k, roots, lists, quireList, requested, nursery, bases, grants, n);
    MarkingKeepsLists(f, lists, w.k, huge, c, marked);
    FlipKeepsQuires(w, k, bases, grants, n, quireList);
    MarkingKeepsQuires(n.b2s, w.quires, f, huge, c, marked, quireList);
    forall i | 0 <= i < |copied| ensures FromFits(copied[i], |n.b2s|) && TrimReady(copied[i]) {
      FromSpacesFit(w, k, requested, nursery, bases, grants, n, copied, i);
      assert SibOk(f, i) && Free(copied)[i] == copied[i].firstFree && SameBuffer(f.sibs[i], copied[i]);
    }
    forall i, r, b | 0 <= i < 4 * k ensures ApartFrom(copied, w.quires, i, r, b) {
      OldBuffersApart(w, k, requested, nursery, bases, grants, n, copied, quireList, i, r, b);
    }
  }

  lemma SibsEnd(w: Flip, k: nat, roots: seq<nat>, lists: seq<seq<nat>>, quireList: seq<nat>, requested: seq<nat>,
      nursery: nat, bases: seq<nat>,
                grants: seq<nat>, n: After, copied: seq<Sib>, freed: seq<Sib>, moved: seq<Sib>, sibs: seq<Sib>,
                    buffer: nat)
    requires Flipping(w, k, roots, lists, quireList, requested, nursery, bases, grants, n) &&
        SameBuffers(n.sibs, copied)
    requires |copied| == |freed| == |moved| == |sibs| &&
        forall i {:trigger copied[i]} :: 0 <= i < |copied| ==> TrimReady(copied[i])
    requires forall i {:trigger freed[i]} :: 0 <= i < |freed| ==> freed[i] == if 0 <= i < 4 * k &&
        copied[i].fromStart != 0 then NoFromSpace(copied[i]) else copied[i]
    requires forall i {:trigger moved[i]} :: 0 <= i < |moved| ==>
        moved[i] == if i < 4 * k then freed[i].(seniorEnd := SeniorEnd(freed[i], i, w.k)) else freed[i]
    requires forall i {:trigger sibs[i]} :: 0 <= i < |sibs| ==>
      if i < 4 * k then Trimmed(moved[i], sibs[i],
          (if i < 4 then 4 * buffer else 0) + 4 * Used(moved[i]) + 4 * requested[i]) else sibs[i] == moved[i]
    ensures forall i {:trigger sibs[i]} :: 0 <= i < |sibs| ==> SibFinal(copied[i], sibs[i], i, k, w.k)
    ensures Free(sibs) == Free(copied)
  {
    FlippingParts(w, k, roots, lists, quireList, requested, nursery, bases, grants, n);
    var least := seq(|sibs|,
        i requires 0 <= i < |sibs| => (if i < 4 then 4 * buffer else 0) + 4 * Used(moved[i]) + 4 * requested[i]);
    forall i | 0 <= i < |sibs| ensures SibFinal(copied[i], sibs[i], i, k, w.k) && Free(sibs)[i] == Free(copied)[i] {
      assert TrimReady(copied[i]);
      SibsAreFinal(w, k, requested, nursery, bases, grants, n, copied, freed, moved, sibs, least, i);
    }
  }

  /** Sib i has room for a nursery of that size and for what was asked for. */
  predicate RoomLeftIn(sibs: seq<Sib>, requested: seq<nat>, buffer: nat, i: nat) {
    i < |sibs| && i < |requested| ==>
        && Active(sibs[i])
        && sibs[i].firstFree <= sibs[i].limit
        && buffer + requested[i] <= sibs[i].limit - sibs[i].firstFree
  }

  /** Each pointer sib of agegroup1 has. */
  predicate RoomLeft(sibs: seq<Sib>, requested: seq<nat>, buffer: nat) {
    forall i: nat {:trigger RoomLeftIn(sibs, requested, buffer, i)} :: i < 4 && i != NONPTR_DATA_SIB ==>
        RoomLeftIn(sibs, requested, buffer, i)
  }

  /** No more was copied into a sib of agegroup1 than its juniors, so what was added for the nursery and the
      request is still free, and trimming leaves it. */
  lemma RoomAfterMajor(w: Flip, k: nat, roots: seq<nat>, lists: seq<seq<nat>>, quireList: seq<nat>, requested: seq<nat>,
      nursery: nat, bases: seq<nat>,
                       grants: seq<nat>, n: After, copied: seq<Sib>, c: Copy, sibs: seq<Sib>, buffer: nat, i: nat)
    requires Flipping(w, k, roots, lists, quireList, requested, nursery, bases, grants, n) &&
        SameBuffers(n.sibs, copied)
    requires Layout(Flips(w, k, n), Free(copied), c) && i < 4 && i < |copied| == |sibs| == |requested| &&
        (i != NONPTR_DATA_SIB || Unpadded(w)) && 1 <= buffer <= nursery
    requires Trimmed(NoFromSpace(copied[i]).(seniorEnd := sibs[i].seniorEnd),
        sibs[i].(fromStart := 0, fromFirstFree := 0, fromLimit := 0),
                     4 * buffer + 4 * Used(copied[i]) + 4 * requested[i])
    ensures RoomLeftIn(sibs, requested, buffer, i)
  {
    FlippingParts(w, k, roots, lists, quireList, requested, nursery, bases, grants, n);
    CopiedArrivals(w, k, roots, lists, quireList, requested, nursery, bases, grants, n, copied, c, i);
    ArrivalsSize(w, k, i);
    assert Flipped(w.sibs, n.sibs, requested, nursery, i, bases[i / 4], grants[i / 4]);
  }

  /** No more was copied than could arrive. */
  lemma CopiedArrivals(w: Flip, k: nat, roots: seq<nat>, lists: seq<seq<nat>>, quireList: seq<nat>, requested: seq<nat>,
      nursery: nat, bases: seq<nat>, grants: seq<nat>, n: After, copied: seq<Sib>, c: Copy, i: nat)
    requires Flipping(w, k, roots, lists, quireList, requested, nursery, bases, grants, n) &&
        SameBuffers(n.sibs, copied)
    requires Layout(Flips(w, k, n), Free(copied), c) && i < 4 && i < |copied| && (i != NONPTR_DATA_SIB || Unpadded(w))
    ensures i < |n.sibs| && SameBuffer(n.sibs[i], copied[i]) && n.sibs[i].firstFree <= n.sibs[i].limit
    ensures copied[i].firstFree - n.sibs[i].firstFree <= |Arrivals(w, k, i)|
  {
    var f := Flips(w, k, n);
    FlippingParts(w, k, roots, lists, quireList, requested, nursery, bases, grants, n);
    CopiedAtMost(f, Free(copied), c, i);
    forall x | x in Incoming(f, i) ensures x in Arrivals(w, k, i) {
      IncomingArrives(w, k, requested, nursery, bases, grants, n, i, x);
    }
    SubsetSize(Incoming(f, i), Arrivals(w, k, i));
    assert SibOk(f, i) && Free(copied)[i] == copied[i].firstFree;
  }

  lemma RoomEnd(w: Flip, k: nat, roots: seq<nat>, lists: seq<seq<nat>>, quireList: seq<nat>, requested: seq<nat>,
      nursery: nat, bases: seq<nat>,
                grants: seq<nat>, n: After, copied: seq<Sib>, c: Copy, freed: seq<Sib>, moved: seq<Sib>,
                    sibs: seq<Sib>, softMax: seq<nat>,
                buffer: nat, unlimited: bool)
    requires Flipping(w, k, roots, lists, quireList, requested, nursery, bases, grants, n) &&
        SameBuffers(n.sibs, copied)
    requires Layout(Flips(w, k, n), Free(copied), c) && |copied| == |freed| == |moved| == |sibs| == |requested| &&
        1 <= buffer <= nursery
    requires forall i {:trigger freed[i]} :: 0 <= i < |freed| ==> freed[i] == if 0 <= i < 4 * k &&
        copied[i].fromStart != 0 then NoFromSpace(copied[i]) else copied[i]
    requires forall i {:trigger moved[i]} :: 0 <= i < |moved| ==>
        moved[i] == if i < 4 * k then freed[i].(seniorEnd := SeniorEnd(freed[i], i, w.k)) else freed[i]
    requires forall i {:trigger sibs[i]} :: 0 <= i < |sibs| ==>
      if i < 4 * k then Trimmed(moved[i], sibs[i],
          (if i < 4 then 4 * buffer else 0) + 4 * Used(moved[i]) + 4 * requested[i]) else sibs[i] == moved[i]
    requires forall i {:trigger copied[i]} :: 0 <= i < |copied| ==> TrimReady(copied[i])
    requires |softMax| == |sibs| && forall i {:trigger sibs[i]} :: 0 <= i < 4 && i < 4 * k ==>
      if unlimited then sibs[i] == moved[i]
      else TrimmedTo(moved[i], sibs[i], 4 * buffer + 4 * Used(moved[i]) + 4 * requested[i], softMax[i])
    ensures RoomLeft(sibs, requested, buffer) && (Unpadded(w) ==> RoomLeftIn(sibs, requested, buffer, NONPTR_DATA_SIB))
    ensures VectorRoom(sibs, requested, softMax, buffer, unlimited)
  {
    hide Flipping, Layout, Unpadded, Trimmed, RoomLeftIn;
    FlippingSize(w, k, roots, lists, quireList, requested, nursery, bases, grants, n);
    forall i: nat | i < 4 && (i != NONPTR_DATA_SIB || Unpadded(w)) ensures RoomLeftIn(sibs, requested, buffer, i) {
      if i < |sibs| {
        ghost var s := sibs[i];
        NormalTrim(copied[i], freed[i], moved[i], sibs[i], SeniorEnd(freed[i], i, w.k),
            4 * buffer + 4 * Used(moved[i]) + 4 * requested[i]);
        RoomAfterMajor(w, k, roots, lists, quireList, requested, nursery, bases, grants, n, copied, c, sibs, buffer, i);
      } else {
        NoSuchSib(sibs, requested, buffer, i);
      }
    }
    VectorBooks(w, k, roots, lists, quireList, requested, nursery, bases, grants, n, copied);
    VectorEnd(copied[RW_POINTERS_SIB], freed[RW_POINTERS_SIB], moved[RW_POINTERS_SIB],
        SeniorEnd(freed[RW_POINTERS_SIB], RW_POINTERS_SIB, w.k), sibs, requested, softMax, buffer, unlimited);
  }

  lemma VectorEnd(copied: Sib, freed: Sib, moved: Sib, end: nat, sibs: seq<Sib>, requested: seq<nat>, softMax: seq<nat>,
      buffer: nat, unlimited: bool)
    requires freed == (if copied.fromStart != 0 then NoFromSpace(copied) else copied)
    requires moved == freed.(seniorEnd := end)
    requires copied.start % BOOK == 0 && copied.limit % BOOK == 0
    requires RW_POINTERS_SIB < |sibs| == |requested| == |softMax| && RoomLeft(sibs, requested, buffer) && buffer >= 1
    requires var s, least := sibs[RW_POINTERS_SIB], 4 * buffer + 4 * Used(moved) + 4 * requested[RW_POINTERS_SIB];
      Trimmed(moved, s, least) && if unlimited then s == moved else TrimmedTo(moved, s, least, softMax[RW_POINTERS_SIB])
    requires TrimReady(copied)
    ensures VectorRoom(sibs, requested, softMax, buffer, unlimited)
  {
    var i := RW_POINTERS_SIB;
    assert RoomLeftIn(sibs, requested, buffer, i);
    TrimmedByBooks(moved, sibs[i], requested[i], buffer, softMax[i], unlimited);
  }

  /** A sib has the room needed for what it holds, a nursery of that size and what was asked for, and when there is
      not a word besides: only if that is whole books, and then surely if it is beyond the soft limit. */
  predicate RoomByBooks(s: Sib, requested: nat, buffer: nat, soft_max_bytesize: nat, unlimited: bool) {
    s.start <= s.firstFree <= s.limit && var needed := s.firstFree - s.start + buffer + requested;
      && needed <= s.limit - s.start
      && (needed == s.limit - s.start ==> needed % BOOK == 0)
      && (needed % BOOK == 0 && !unlimited && soft_max_bytesize <= 4 * needed ==> needed == s.limit - s.start)
  }

  predicate VectorRoom(sibs: seq<Sib>, requested: seq<nat>, softMax: seq<nat>, buffer: nat, unlimited: bool) {
    RW_POINTERS_SIB < |sibs| && |requested| == |softMax| == |sibs| &&
        RoomByBooks(sibs[RW_POINTERS_SIB], requested[RW_POINTERS_SIB], buffer, softMax[RW_POINTERS_SIB], unlimited)
  }

  /** A flipped buffer of mutable vectors is whole books. */
  lemma VectorBooks(w: Flip, k: nat, roots: seq<nat>, lists: seq<seq<nat>>, quireList: seq<nat>, requested: seq<nat>,
      nursery: nat, bases: seq<nat>, grants: seq<nat>, n: After, copied: seq<Sib>)
    requires Flipping(w, k, roots, lists, quireList, requested, nursery, bases, grants, n) &&
        SameBuffers(n.sibs, copied) && RW_POINTERS_SIB < |copied|
    ensures copied[RW_POINTERS_SIB].start % BOOK == 0 && copied[RW_POINTERS_SIB].limit % BOOK == 0
  {
    FlippingParts(w, k, roots, lists, quireList, requested, nursery, bases, grants, n);
    assert SameBuffer(n.sibs[RW_POINTERS_SIB], copied[RW_POINTERS_SIB]);
    assert Flipped(w.sibs, n.sibs, requested, nursery, RW_POINTERS_SIB, bases[0], grants[0]);
  }

  lemma TrimmedByBooks(moved: Sib, s: Sib, requested: nat, buffer: nat, soft_max_bytesize: nat, unlimited: bool)
    requires moved.start % BOOK == 0 && moved.limit % BOOK == 0 && Active(moved)
    requires moved.start == s.start <= moved.firstFree == s.firstFree && s.limit <= moved.limit
    requires s.firstFree + buffer + requested <= s.limit
    requires if unlimited then s.limit == moved.limit
             else TrimmedTo(moved, s, 4 * buffer + 4 * Used(moved) + 4 * requested, soft_max_bytesize)
    ensures RoomByBooks(s, requested, buffer, soft_max_bytesize, unlimited)
  {
    var size, needed := moved.limit - moved.start, Used(moved) + buffer + requested;
    BooksApart(moved.start, moved.limit);
    hide TrimmedBytes;
    WhenTrimLeavesNothing(size, needed, soft_max_bytesize);
  }

  lemma BooksApart(x: nat, y: nat)
    requires x % BOOK == 0 && y % BOOK == 0 && x <= y
    ensures (y - x) % BOOK == 0
  {
  }

  lemma NoSuchSib(sibs: seq<Sib>, requested: seq<nat>, buffer: nat, i: nat)
    requires i >= |sibs|
    ensures RoomLeftIn(sibs, requested, buffer, i)
  {
  }

  lemma NormalTrim(copied: Sib, freed: Sib, moved: Sib, s: Sib, end: nat, least: nat)
    requires freed == (if copied.fromStart != 0 then NoFromSpace(copied) else copied) &&
        moved == freed.(seniorEnd := end) && Trimmed(moved, s, least)
    ensures Used(moved) == Used(copied)
    ensures Trimmed(NoFromSpace(copied).(seniorEnd := s.seniorEnd),
        s.(fromStart := 0, fromFirstFree := 0, fromLimit := 0), least)
  {
  }

  lemma SibsCanBeTrimmed(copied: seq<Sib>, freed: seq<Sib>, moved: seq<Sib>, k: nat, active: nat)
    requires |copied| == |freed| == |moved| && forall i {:trigger copied[i]} ::
        0 <= i < |copied| ==> TrimReady(copied[i])
    requires forall i {:trigger freed[i]} :: 0 <= i < |freed| ==> freed[i] == if 0 <= i < 4 * k &&
        copied[i].fromStart != 0 then NoFromSpace(copied[i]) else copied[i]
    requires forall i {:trigger moved[i]} :: 0 <= i < |moved| ==>
        moved[i] == if i < 4 * k then freed[i].(seniorEnd := SeniorEnd(freed[i], i, active)) else freed[i]
    ensures forall i {:trigger moved[i]} :: 0 <= i < |moved| ==> TrimReady(moved[i])
  {
    forall i | 0 <= i < |moved| ensures TrimReady(moved[i]) { assert TrimReady(copied[i]); }
  }

  /** Deal with the hugechunks, and move boundaries and limits. */
  method FinishClean(h: Heap, k: nat, roots: seq<nat>, bases: seq<nat>, grants: seq<nat>, buffer: nat, unlimited: bool,
      ghost w: Flip, ghost n: After)
    returns (ghost o: Outcome)
    requires Flipping(w, k, roots, h.hugechunks, h.quire_list, h.requested, h.nurseryWords, bases, grants, n)
    requires h.flip == Flips(w, k, n) && MajorReady(h.flip, roots, w.k) && Cleaned(h) && h.b2s == n.b2s &&
        h.quires == w.quires && h.active == w.k
    requires |h.requested| == |h.softMax| == 4 * h.active &&
        forall i {:trigger h.softMax[i]} :: 0 <= i < |h.softMax| ==> h.softMax[i] >= 4 && h.softMax[i] % 4 == 0
    requires 1 <= buffer <= h.nurseryWords
    modifies h`huge, h`hugechunks, h`b2s, h`quires, h`sibs
    ensures o.m == h.ram[..] && o.sibs == h.sibs && o.c == h.copy && o.cards == h.cards && o.b2s == h.b2s &&
        o.quires == h.quires && o.huge == h.huge
    ensures o.lists == h.hugechunks && Free(h.sibs) == Free(o.copied)
    ensures Ended(w, k, roots, old(h.hugechunks), h.quire_list, h.requested, h.nurseryWords, bases, grants, n, o)
    ensures RoomLeft(h.sibs, h.requested, buffer) && (Unpadded(w) ==>
        RoomLeftIn(h.sibs, h.requested, buffer, NONPTR_DATA_SIB))
    ensures VectorRoom(h.sibs, h.requested, h.softMax, buffer, unlimited)
  {
    hide Flipping, CleanedState, MajorReady, HugeListsOk, QuiresOk, Flips, Passed, Relabelled;
    hide Trimmed, TrimmedTo, VectorRoom, RoomLeft, RoomLeftIn, Unpadded, SeniorEnd, NoFromSpace, TrimReady, FromFits;
    hide ApartFrom, SibFinal, Used, AllTrimmed;
    ghost var copied, huge1, lists0 := h.sibs, h.huge, h.hugechunks;
    BeforePass(w, k, roots, h.hugechunks, h.quire_list, h.requested, h.nurseryWords, bases, grants, n, h.ram[..],
        h.sibs, h.copy, h.huge, h.marked, h.cards);
    ghost var unmapped := ForwardPromoteOrReclaimAllHugechunks(h, k);
    ghost var freed := h.sibs;
    UpdateFromspaceSeniorchunksEndPointers(h, k);
    ghost var moved := h.sibs;
    SibsCanBeTrimmed(copied, freed, moved, k, w.k);
    TrimHeap(h, k, buffer, unlimited);
    YoungestTrimmed(moved, h.sibs, h.requested, h.softMax, buffer, 4 * k, unlimited);
    o := Outcome(h.ram[..], copied, h.copy, h.marked, huge1, h.cards, unmapped, h.b2s, h.quires, h.huge, h.hugechunks,
        h.sibs);
    SibsEnd(w, k, roots, lists0, h.quire_list, h.requested, h.nurseryWords, bases, grants, n, copied, freed, moved,
        h.sibs, buffer);
    LayoutLeft(w, k, n, h.ram[..], copied, h.copy, huge1, h.marked, h.cards);
    RoomEnd(w, k, roots, lists0, h.quire_list, h.requested, h.nurseryWords, bases, grants, n, copied, h.copy, freed,
        moved, h.sibs, h.softMax, buffer, unlimited);
  }

  lemma LayoutLeft(w: Flip, k: nat, n: After, m: seq<Word>, copied: seq<Sib>, c: Copy, huge: seq<Huge>,
      marked: set<int>, cards: seq<CardMap>)
    requires CleanedState(Flips(w, k, n), m, copied, c, huge, marked, cards)
    ensures Layout(Flips(w, k, n), Free(copied), c)
  {
  }

  lemma RestFields(w: Flip, k: nat, n: After, o: Outcome)
    requires |n.m| == |w.zone|
    ensures var r := Rest(w, k, n, o);
      && r.mem == o.m && r.b2s == o.b2s && r.sibs == o.sibs && r.cards == o.cards && r.quires == o.quires &&
          r.huge == o.huge && r.k == w.k
  {
  }

  lemma NurseryRests(w: Flip, k: nat, roots: seq<nat>, lists: seq<seq<nat>>, quireList: seq<nat>, requested: seq<nat>,
      nursery: nat, bases: seq<nat>,
                     grants: seq<nat>, n: After, o: Outcome, lo: nat, end: nat)
    requires Ended(w, k, roots, lists, quireList, requested, nursery, bases, grants, n, o) && Nursery(w, lo, lo, end)
    ensures |n.m| == |w.zone| && Nursery(Rest(w, k, n, o), lo, lo, end)
  {
    CleanParts(w, k, roots, lists, quireList, requested, nursery, bases, grants, n, o);
    NurseryAfterMajor(CleanOf(w, k, requested, nursery, bases, grants, n, o), lo, end);
  }

  /** A heap without gaps stays one, an empty one stays empty, and memory not granted stays fresh. */
  lemma SparesRest(w: Flip, k: nat, roots: seq<nat>, lists: seq<seq<nat>>, quireList: seq<nat>, requested: seq<nat>,
      nursery: nat, bases: seq<nat>,
                      grants: seq<nat>, n: After, o: Outcome)
    requires Ended(w, k, roots, lists, quireList, requested, nursery, bases, grants, n, o)
    ensures |n.m| == |w.zone| && Spares(w, Rest(w, k, n, o), bases, grants)
  {
    CleanParts(w, k, roots, lists, quireList, requested, nursery, bases, grants, n, o);
    var e := CleanOf(w, k, requested, nursery, bases, grants, n, o);
    if Unpadded(w) { UnpaddedAfterMajor(e, lists); }
    if Vacant(w) { VacantAfterMajor(e, lists); }
    forall others: seq<nat>, sizes: seq<nat> | GrantsFresh(w, others, sizes) && GrantsApart(bases, grants, others,
        sizes)
      ensures GrantsFresh(e.r, others, sizes)
    {
      FreshAfterMajor(e, lists, others, sizes);
    }
  }

  lemma VacantAfterMajor(e: Clean, lists: seq<seq<nat>>)
    requires References(e, lists) && Vacant(e.w)
    ensures Vacant(e.r)
  {
    forall t: nat ensures !Chunk(e.r, t) {
      if Chunk(e.r, t) {
        var copy, a := RestChunk(e, t);
        if copy { CopyOf(e, a); }
      }
    }
    forall i | 0 <= i < |e.r.sibs| ensures EmptySib(e.r.sibs[i]) { NothingCopied(e, i); }
  }

  lemma NoneIncoming(e: Clean, i: nat, x: int)
    requires Labels(e) && Copies(e) && Vacant(e.w)
    ensures !IsIncoming(e.f, i, x)
  {
    if IsIncoming(e.f, i, x) {
      var a := IncomingChunk(e.f, i, x);
      FlipChunkIsOld(e, a);
    }
  }

  lemma NothingCopied(e: Clean, i: nat)
    requires Labels(e) && Copies(e) && Vacant(e.w) && i < |e.r.sibs|
    ensures EmptySib(e.r.sibs[i])
  {
    RestSib(e, i);
    FlippedSib(e, i);
    CopiedAtMost(e.f, Free(e.o.copied), e.o.c, i);
    forall x ensures x !in Incoming(e.f, i) {
      if x in Incoming(e.f, i) { NoneIncoming(e, i, x); }
    }
    assert Incoming(e.f, i) == {};
  }

  lemma UnpaddedAfterMajor(e: Clean, lists: seq<seq<nat>>)
    requires References(e, lists) && Unpadded(e.w)
    ensures Unpadded(e.r)
  {
    forall t: nat | Chunk(e.r, t) ensures !Aligned(e.r, t) {
      var copy, a := RestChunk(e, t);
      if copy {
        UnpaddedCopyOf(e, a);
      } else {
        OlderAligned(e, t);
      }
    }
  }

  lemma UnpaddedCopyOf(e: Clean, a: int)
    requires Labels(e) && Copies(e) && Unpadded(e.w) && a in e.o.c.fwd && Chunk(e.f, a)
    ensures e.o.c.fwd[a] >= 0 && !Aligned(e.r, e.o.c.fwd[a])
  {
    CopyOf(e, a);
    CopyShape(e, a);
    FlippedAligned(e, a);
    assert !Aligned(e.w, a);
  }

  lemma FlippedAligned(e: Clean, a: nat)
    requires Labels(e) && Chunk(e.w, a)
    ensures Aligned(e.f, a) == Aligned(e.w, a)
  {
    FlippedChunk(e, a);
  }

  lemma OlderAligned(e: Clean, a: nat)
    requires Labels(e) && Copies(e) && Outer(e) && Chunk(e.w, a) && AgeAt(e.w, a) > e.k && Unpadded(e.w)
    ensures !Aligned(e.r, a)
  {
    OlderShape(e, a);
    OlderChunk(e, a);
    FlippedChunk(e, a);
    assert !Aligned(e.w, a);
  }

  lemma FlippingSize(w: Flip, k: nat, roots: seq<nat>, lists: seq<seq<nat>>, quireList: seq<nat>, requested: seq<nat>,
      nursery: nat,
                     bases: seq<nat>, grants: seq<nat>, n: After)
    requires Flipping(w, k, roots, lists, quireList, requested, nursery, bases, grants, n)
    ensures |n.m| == |w.zone| && Flips(w, k, n).k == k && 1 <= k && |requested| >= 4
  {
  }

  /** f is the heap w with agegroups 1 to k flipped. */
  ghost predicate FlipFrom(w: Flip, k: nat, roots: seq<nat>, lists: seq<seq<nat>>, quireList: seq<nat>,
      requested: seq<nat>, nursery: nat,
                           bases: seq<nat>, grants: seq<nat>, f: Flip) {
    exists n {:trigger Flips(w, k, n)} :: Flipping(w, k, roots, lists, quireList, requested, nursery, bases, grants,
        n) && f == Flips(w, k, n)
  }

  /** The cards of the new heap r are right if and only if no card of w was at risk; and every word that was
      on no card at risk is covered. */
  ghost predicate CardsFollow(w: Flip, k: nat, r: Flip) {
    (AllCovered(r) <==> Safe(w, k)) && forall i, x {:trigger CardCovers(r, i, x)} ::
        OffRiskyCards(w, k, i, x) ==> CardCovers(r, i, x)
  }

  /** From the flip on. */
  method CleanAndFinish(h: Heap, k: nat, roots: seq<nat>, bases: seq<nat>, grants: seq<nat>, buffer: nat,
      unlimited: bool, ghost w: Flip, ghost lo: nat, ghost end: nat)
    returns (ghost r: Flip)
    requires Flipping(w, k, roots, h.hugechunks, h.quire_list, h.requested, h.nurseryWords, bases, grants,
        After(h.ram[..], h.b2s, h.sibs, h.cards))
    requires h.quires == w.quires && h.huge == w.huge && h.active == w.k && h.weakrefs == 0 && Nursery(w, lo, lo, end)
    requires GapsFit(w, roots, h.hugechunks, h.quire_list, h.requested, h.nurseryWords, bases, grants)
    requires |h.requested| == |h.softMax| == 4 * h.active &&
        forall i {:trigger h.softMax[i]} :: 0 <= i < |h.softMax| ==> h.softMax[i] >= 4 && h.softMax[i] % 4 == 0
    requires 1 <= buffer <= h.nurseryWords
    modifies h`flip, h`sibs, h`copy, h`weakrefs, h`huge, h`marked, h`cards, h`hugechunks, h`b2s, h`quires, h.ram
    ensures FlipFrom(w, k, roots, old(h.hugechunks), h.quire_list, h.requested, h.nurseryWords, bases, grants, h.flip)
    ensures h.flip.k == k && DidClean(h, w.huge) && RoomLeft(h.sibs, h.requested, buffer)
    ensures VectorRoom(h.sibs, h.requested, h.softMax, buffer, unlimited)
    ensures Spares(w, r, bases, grants) && (Unpadded(w) ==> RoomLeftIn(h.sibs, h.requested, buffer, NONPTR_DATA_SIB))
    ensures HeapIs(h, r) && AtRestBut(r, roots, h.hugechunks, h.quire_list) && Nursery(r, lo, lo, end) &&
        CardsFollow(w, k, r)
  {
    hide Flipping, GapsFit, MajorReady, CleanedState, Flips, Rest, Ended, AtRestBut, AllCovered, Safe, OffRiskyCards,
         CardCovers, Recorded, Nursery, Unpadded, Spares, RoomLeft, RoomLeftIn, VectorRoom;
    ghost var lists0 := h.hugechunks;
    ghost var n := CleanFlipped(h, k, roots, bases, grants, w);
    FlippingSize(w, k, roots, lists0, h.quire_list, h.requested, h.nurseryWords, bases, grants, n);
    ghost var o := FinishClean(h, k, roots, bases, grants, buffer, unlimited, w, n);
    WhatWasDone(w, k, roots, lists0, h.quire_list, h.requested, h.nurseryWords, bases, grants, n, o);
    r := Rest(w, k, n, o);
    RestFields(w, k, n, o);
    CleanRests(w, k, roots, lists0, h.quire_list, h.requested, h.nurseryWords, bases, grants, n, o);
    NurseryRests(w, k, roots, lists0, h.quire_list, h.requested, h.nurseryWords, bases, grants, n, o, lo, end);
    SparesRest(w, k, roots, lists0, h.quire_list, h.requested, h.nurseryWords, bases, grants, n, o);
    CardsRest(w, k, roots, lists0, h.quire_list, h.requested, h.nurseryWords, bases, grants, n, o);
  }

  /** Clean the first `level` agegroups of a heap at rest and as many more as cannot absorb what may be
      promoted into them.  It fails only when the operating system grants one of these less than the smallest
      to-spaces it can be cleaned with.  Otherwise the live graph of what was cleaned has been copied,
          agegroup1 has room
      for the next nursery, and the heap is at rest again, with right cards if and only if none was at risk. */
  method HeapcleanNAgegroups(h: Heap, roots: seq<nat>, level: nat, bases: seq<nat>, grants: seq<nat>, buffer: nat,
      unlimited: bool,
                             ghost w: Flip, ghost lo: nat, ghost end: nat)
    returns (ok: bool, k: nat, ghost r: Flip)
    requires HeapIs(h, w) && AtRest(w, roots, h.hugechunks, h.quire_list) && Nursery(w, lo, lo, end) && SizingOk(h) &&
        1 <= level <= h.active
    requires h.youngerCounts[0] < h.counts[0] && 1 <= buffer <= h.nurseryWords
    requires GrantsOk(w.b2s, |w.mem|, bases, grants, w.k) && GrantsFresh(w, bases, grants)
    requires GapsFit(w, roots, h.hugechunks, h.quire_list, h.requested, h.nurseryWords, bases, grants)
    modifies h, h.ram
    ensures ok ==> level <= k <= h.active && SizingOk(h) && h.counts[0] == old(h.counts)[0]
    ensures h.requested == old(h.requested) && h.nurseryWords == old(h.nurseryWords) && h.softMax == old(h.softMax) &&
        h.quire_list == old(h.quire_list)
    ensures ok ==> NoneForNothing(w.sibs, level, k) && (k < h.active ==> Absorbs(w.sibs, k))
    ensures !ok ==> Starved(w.sibs, h.requested, h.nurseryWords, grants, level, h.active)
    ensures ok ==> FlipFrom(w, k, roots, old(h.hugechunks), h.quire_list, h.requested, h.nurseryWords, bases, grants,
        h.flip)
    ensures ok ==> h.flip.k == k && DidClean(h, w.huge) && RoomLeft(h.sibs, h.requested, buffer)
    ensures ok ==> VectorRoom(h.sibs, h.requested, h.softMax, buffer, unlimited)
    ensures ok ==>
        && Spares(w, r, bases, grants)
        && (Unpadded(w) ==> RoomLeftIn(h.sibs, h.requested, buffer, NONPTR_DATA_SIB))
    ensures ok ==>
        && HeapIs(h, r)
        && AtRestBut(r, roots, h.hugechunks, h.quire_list)
        && Nursery(r, lo, lo, end)
        && CardsFollow(w, k, r)
  {
    hide AtRest, AtRestBut, CardsFollow, Unpadded, Spares, RoomLeft, RoomLeftIn, VectorRoom, GrantsOk, GrantsFresh,
         FlippedBelow, GapsFit, DidClean, Nursery, FlipFrom, NoneForNothing, Absorbs, Starved, SizedBelow, Counted;
    ShapesOf(w, roots, h.hugechunks, h.quire_list);
    ok, k := EstablishAllRequiredEmptyTospaceSibBuffers(h, level, bases, grants);
    r := w;
    if ok {
      r := CleanAndFinish(h, k, roots, bases, grants, buffer, unlimited, w, lo, end);
    }
  }

  lemma WhatWasDone(w: Flip, k: nat, roots: seq<nat>, lists: seq<seq<nat>>, quireList: seq<nat>, requested: seq<nat>,
      nursery: nat,
                    bases: seq<nat>, grants: seq<nat>, n: After, o: Outcome)
    requires Ended(w, k, roots, lists, quireList, requested, nursery, bases, grants, n, o)
    ensures var f := Flips(w, k, n);
      && LiveGraphCopied(f, Free(o.copied), o.c.fwd, o.m) &&
          (forall x {:trigger ExtMoved(f, o.c.fwd, o.m, x)} :: ExtMoved(f, o.c.fwd, o.m, x))
      && (forall d {:trigger SurvivesIfReached(f, w.huge, o.huge, d)} :: SurvivesIfReached(f, w.huge, o.huge, d))
      && Recorded(f, o.m, o.cards, o.c)
  {
    hide Recorded;
    var f := Flips(w, k, n);
    forall d ensures SurvivesIfReached(f, w.huge, o.huge, d) {
      if 0 <= d < |w.huge| {
        SurvivesIfMarked(f, lists, w.k, o.hugeMarked, o.c, o.marked, o.huge, d);
        assert MarkIsExact(f, o.marked, d, HugeLive(f, d));
      }
    }
  }
}
