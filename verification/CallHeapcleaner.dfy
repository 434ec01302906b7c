/** call_heapcleaner of call-heapcleaner.c: a minor clean, then a major one if it was asked for or agegroup1
    has become short of room. */
module CallHeapcleaner {
  import opened HeapTags
  import opened HeapModel
  import opened Forwarding
  import opened HeapObject
  import opened MajorCards
  import opened MajorRoots
  import opened MajorClean
  import opened MajorSizing
  import opened MajorHuge
  import opened MajorFinish
  import opened CleanResult
  import opened HeapWorld
  import opened MajorSetup
  import opened MajorRest
  import opened MajorRisk
  import opened NurseryLabels
  import opened MajorMain
  import opened MinorForward
  import opened MinorClean
  import opened MinorRest

  // ------------------------------------------------------------------ an empty nursery

  /** A heap at rest is at work with an empty nursery and an empty changelog. */
  lemma RestIsWork(w: Flip, roots: seq<nat>, lists: seq<seq<nat>>, quireList: seq<nat>, lo: nat, end: nat)
    requires AtRest(w, roots, lists, quireList) && Nursery(w, lo, lo, end)
    ensures AtWork(w, roots, [], lists, quireList, lo, lo)
  {
    forall x: nat ensures NurseryWord(w, lo, lo, x) { assert NurseryWord(w, lo, end, x); }
    forall a ensures WorkHome(w, lo, lo, a) && PairValue(w, a) {
      assert HomeOk(w, a);
      if a >= 0 && Chunk(w, a) { assert ChunkOk(w, a); }
    }
    forall x ensures Logged(w, [], x) { RestHasNoYoung(w, roots, lists, quireList, x); }
    forall i, x ensures WorkCovered(w, [], i, x) { assert CardCovers(w, i, x); }
  }

  /** At rest nothing refers to the nursery. */
  lemma RestHasNoYoung(w: Flip, roots: seq<nat>, lists: seq<seq<nat>>, quireList: seq<nat>, x: int)
    requires AtRest(w, roots, lists, quireList) && (forall v: nat {:trigger NurseryLabel(w, v)} :: NurseryLabel(w, v))
    ensures ScanWord(w, x) && w.mem[x].Pointer? ==> AgeAt(w, w.mem[x].addr) != 0
  {
    if ScanWord(w, x) && w.mem[x].Pointer? {
      assert TargetOk(w, x) && NurseryLabel(w, w.mem[x].addr) && HomeOk(w, w.mem[x].addr);
    }
  }

  /** A minor clean empties the nursery. */
  lemma NurseryAfterMinor(w: Flip, roots: seq<nat>, log: seq<nat>, lists: seq<seq<nat>>, quireList: seq<nat>, lo: nat,
      hi: nat, end: nat,
                          m: seq<Word>, sibs: seq<Sib>, c: Copy, cards: seq<CardMap>)
    requires AtWork(w, roots, log, lists, quireList, lo, hi) && Nursery(w, lo, hi, end)
    ensures Nursery(NursedHeap(w, m, sibs, c, cards), lo, lo, end)
  {
    var r := NursedHeap(w, m, sibs, c, cards);
    forall v: nat ensures NurseryLabel(r, v) { assert NurseryLabel(w, v); }
    forall x: nat ensures NurseryWord(r, lo, end, x) && IdleWord(r, lo, lo, end, x) {
      assert NurseryWord(w, lo, end, x) && IdleWord(w, lo, hi, end, x);
      if lo <= x < end { NurseryWordAfter(w, roots, log, lists, quireList, lo, hi, x); }
    }
  }

  lemma NurseryIsNoBuffer(w: Flip, i: int, x: nat)
    requires WellFormed(w) && (forall j, y {:trigger AreaLabelOk(w, j, y)} :: AreaLabelOk(w, j, y)) && AgeAt(w, x) == 0
    ensures !InBuffer(w, i, x) && (0 <= i < |w.sibs| ==> SibOk(w, i))
  {
    assert AreaLabelOk(w, i, x);
  }

  lemma NurseryWordAfter(w: Flip, roots: seq<nat>, log: seq<nat>, lists: seq<seq<nat>>, quireList: seq<nat>, lo: nat,
      hi: nat, x: nat)
    requires AtWork(w, roots, log, lists, quireList, lo, hi) && AgeAt(w, x) == 0 && x < |w.zone|
    ensures !w.zone[x].New? && (w.zone[x].Old? ==> w.zone[x].chunk >= 0 && AgeAt(w, w.zone[x].chunk) == 0)
  {
    assert ZoneOk(w, x);
    var j := if w.zone[x].New? then w.zone[x].sib else 0;
    NurseryIsNoBuffer(w, j, x);
    if w.zone[x].Old? {
      var a := w.zone[x].chunk;
      assert ChunkOk(w, a) && WorkHome(w, lo, hi, a);
      var i := SibIndex(AgeAt(w, a), KindAt(w, a));
      NurseryIsNoBuffer(w, i, x);
    }
  }

  // ------------------------------------------------------------------ what the operating system may grant

  lemma LandsOffGrants(e: Nursed, lo: nat, hi: nat, bases: seq<nat>, grants: seq<nat>, y: int, v: nat, v1: nat, a: int)
    requires Nursing(e) && (forall t {:trigger WorkHome(e.w, lo, hi, t)} :: WorkHome(e.w, lo, hi, t)) &&
        GrantsFresh(e.w, bases, grants)
    requires ScanWord(e.w, y) && e.w.mem[y] == Pointer(v) && Relocated(e.f, e.c.fwd, Pointer(v), Pointer(v1))
    ensures !InWords(bases, grants, a, v1)
  {
    if Chunk(e.f, v) {
      NurseryCopy(e, v);
      NurseryPlaceOf(e, v, 0);
      var i := Dest(e.f, v);
      assert InBuffer(e.w, i, v1);
      assert InWords(bases, grants, a, v1) ==> !InBuffer(e.w, i, v1);
    }
  }

  lemma ReferenceOffGrants(e: Nursed, lists: seq<seq<nat>>, lo: nat, hi: nat, bases: seq<nat>, grants: seq<nat>, x: int,
      a: int)
    requires NursedReferences(e, lists, lo, hi) && GrantsFresh(e.w, bases, grants) && ScanWord(e.r, x) &&
        e.r.mem[x].Pointer?
    ensures !InWords(bases, grants, a, e.r.mem[x].addr)
  {
    hide NursedReferences, NursedLanded, Live, GrantsFresh;
    NursedParts(e, lists, lo, hi);
    NursedZoneIs(e, x);
    var y := x;
    if e.f.zone[x].New? {
      NewIsNotRoot(e, x);
      var b, j := NursedFrom(e, x);
      y := b + j;
      NurseryReference(e, b, j);
    } else {
      KeptReference(e, x);
    }
    LandsOffGrants(e, lo, hi, bases, grants, y, e.w.mem[y].addr, e.r.mem[x].addr, a);
  }

  /** What is in nobody's use before a minor clean is in nobody's use after it. */
  lemma GrantsAfterMinor(e: Nursed, lists: seq<seq<nat>>, lo: nat, hi: nat, bases: seq<nat>, grants: seq<nat>)
    requires NursedReferences(e, lists, lo, hi) && GrantsFresh(e.w, bases, grants)
    ensures GrantsFresh(e.r, bases, grants)
  {
    NursedParts(e, lists, lo, hi);
    forall a, x | InWords(bases, grants, a, x)
      ensures 0 <= x && x !in e.r.ext && KindAt(e.r, x) != CODE_KIND && AgeAt(e.r, x) != 0 &&
          forall i {:trigger InBuffer(e.r, i, x)} :: !InBuffer(e.r, i, x)
    {
      forall i ensures !InBuffer(e.r, i, x) {
        assert !InBuffer(e.w, i, x);
        if 0 <= i < |e.w.sibs| { NursedSib(e, i); }
      }
    }
    hide NursedReferences, Nursing;
    forall x, a | ScanWord(e.r, x) && e.r.mem[x].Pointer? ensures !InWords(bases, grants, a, e.r.mem[x].addr) {
      ReferenceOffGrants(e, lists, lo, hi, bases, grants, x, a);
    }
  }

  // ------------------------------------------------------------------ the minor clean

  /** No more is copied into a pointer sib than the nursery held. */
  lemma MinorCopiesAtMost(w: Flip, roots: seq<nat>, log: seq<nat>, lists: seq<seq<nat>>, quireList: seq<nat>, lo: nat,
      hi: nat,
                          m: seq<Word>, sibs: seq<Sib>, c: Copy, cards: seq<CardMap>, i: nat)
    requires AtWork(w, roots, log, lists, quireList, lo, hi) && MinorCleanedState(MinorOf(w), m, sibs, c, cards) &&
        i < |sibs| && i != NONPTR_DATA_SIB && i < 4
    ensures sibs[i].firstFree - w.sibs[i].firstFree <= hi - lo
  {
    var f := MinorOf(w);
    forall x | x in Incoming(f, i) ensures x in Run(lo, hi) { MinorIncoming(w, lo, hi, i, x); }
    RunSize(lo, hi);
    SubsetSize(Incoming(f, i), Run(lo, hi));
    CopiedAtMost(f, Free(sibs), c, i);
    assert Free(sibs)[i] == sibs[i].firstFree;
  }

  /** Each pointer sib of agegroup1 is there and could take a nursery of that size. */
  predicate RoomFor(sibs: seq<Sib>, buffer: nat) {
    forall i {:trigger sibs[i]} :: 0 <= i < 4 && i < |sibs| && i != NONPTR_DATA_SIB ==>
      Active(sibs[i]) && sibs[i].firstFree <= sibs[i].limit && buffer <= sibs[i].limit - sibs[i].firstFree
  }

  /** Some sib of agegroup1 could not. */
  predicate ShortOfRoom(sibs: seq<Sib>, buffer: nat) {
    exists i {:trigger sibs[i]} :: 0 <= i < 4 && i < |sibs| && Active(sibs[i]) &&
        sibs[i].limit - sibs[i].firstFree < buffer
  }

  method IsShortOfRoom(h: Heap, buffer: nat) returns (short: bool)
    requires 4 <= |h.sibs|
    ensures short <==> ShortOfRoom(h.sibs, buffer)
  {
    var i := 0;
    while i < 4
      invariant i <= 4 && forall j {:trigger h.sibs[j]} :: 0 <= j < i && Active(h.sibs[j]) ==>
          buffer <= h.sibs[j].limit - h.sibs[j].firstFree
    {
      var sib := h.sibs[i];
      if Active(sib) && sib.limit - sib.firstFree < buffer {
        return true;
      }
      i := i + 1;
    }
    return false;
  }

  /** u is the heap that a minor clean made of w. */
  ghost predicate MinorDid(w: Flip, u: Flip) {
    exists c {:trigger NursedHeap(w, u.mem, u.sibs, c, u.cards)} ::
      MinorCleanedState(MinorOf(w), u.mem, u.sibs, c, u.cards) && u == NursedHeap(w, u.mem, u.sibs, c, u.cards)
  }

  /** Alignment gaps, which depend on the order of copying, fit in the data sibs. */
  ghost predicate GapsFitBoth(w: Flip, roots: seq<nat>, lists: seq<seq<nat>>, quireList: seq<nat>, requested: seq<nat>,
      nursery: nat, bases: seq<nat>, grants: seq<nat>) {
    DataHasRoom(MinorOf(w)) && forall m, sibs, c, cards {:trigger MinorCleanedState(MinorOf(w), m, sibs, c, cards)} ::
      MinorCleanedState(MinorOf(w), m, sibs, c, cards) ==>
          GapsFit(NursedHeap(w, m, sibs, c, cards), roots, lists, quireList, requested, nursery, bases, grants)
  }

  /** The data sib of agegroup1 could take a nursery of that size. */
  predicate DataRoomFor(sibs: seq<Sib>, buffer: nat) {
    |sibs| > NONPTR_DATA_SIB && Active(sibs[NONPTR_DATA_SIB]) &&
        sibs[NONPTR_DATA_SIB].firstFree <= sibs[NONPTR_DATA_SIB].limit &&
        buffer <= sibs[NONPTR_DATA_SIB].limit - sibs[NONPTR_DATA_SIB].firstFree
  }

  /** A heap without gaps stays one. */
  lemma UnpaddedAfterMinor(e: Nursed)
    requires Nursing(e) && Unpadded(e.w)
    ensures Unpadded(e.r)
  {
    forall t: nat | Chunk(e.r, t) ensures !Aligned(e.r, t) {
      var copy, a := NursedChunk(e, t);
      if copy {
        UnpaddedCopy(e, a);
      } else {
        KeptChunk(e, t);
        assert !Aligned(e.w, t);
      }
    }
  }

  lemma VacantAfterMinor(e: Nursed)
    requires Nursing(e) && Vacant(e.w)
    ensures Vacant(e.r)
  {
    forall t: nat ensures !Chunk(e.r, t) {
      if Chunk(e.r, t) {
        var copy, a := NursedChunk(e, t);
        if copy { NurseryCopy(e, a); }
      }
    }
    forall i | 0 <= i < |e.r.sibs| ensures EmptySib(e.r.sibs[i]) { NothingNursed(e, i); }
  }

  lemma NothingNursed(e: Nursed, i: nat)
    requires Nursing(e) && Vacant(e.w) && i < |e.r.sibs|
    ensures EmptySib(e.r.sibs[i])
  {
    NursedSib(e, i);
    CopiedAtMost(e.f, Free(e.sibs), e.c, i);
    forall x ensures x !in Incoming(e.f, i) {
      if x in Incoming(e.f, i) {
        var a := IncomingChunk(e.f, i, x);
        MinorChunk(e.w, a);
      }
    }
    assert Incoming(e.f, i) == {};
  }

  lemma UnpaddedCopy(e: Nursed, a: int)
    requires Nursing(e) && Unpadded(e.w) && a in e.c.fwd
    ensures e.c.fwd[a] >= 0 && !Aligned(e.r, e.c.fwd[a])
  {
    NurseryCopy(e, a);
    NursedCopy(e, a);
    MinorChunk(e.w, a);
    assert MovedWord(e.f, e.c.fwd, e.m, a, -1);
  }

  /** Without eight-byte data the room that is there is enough for the minor clean and for any major one. */
  lemma UnpaddedFits(w: Flip, roots: seq<nat>, log: seq<nat>, lists: seq<seq<nat>>, quireList: seq<nat>, lo: nat,
      hi: nat,
                     requested: seq<nat>, nursery: nat, bases: seq<nat>, grants: seq<nat>)
    requires AtWork(w, roots, log, lists, quireList, lo, hi) && Unpadded(w) && NurseryFits(w, lo, hi) &&
        DataRoomFor(w.sibs, hi - lo)
    ensures GapsFitBoth(w, roots, lists, quireList, requested, nursery, bases, grants)
  {
    var f := MinorOf(w);
    forall i | i % 4 == NONPTR_DATA_SIB ensures RoomIn(f, i) { if 0 <= i < |w.sibs| { MinorHasRoom(w, lo, hi, i); } }
    WorkIsReady(w, roots, log, lists, quireList, lo, hi);
    forall m, sibs, c, cards | MinorCleanedState(f, m, sibs, c, cards)
      ensures GapsFit(NursedHeap(w, m, sibs, c, cards), roots, lists, quireList, requested, nursery, bases, grants)
    {
      NursingHolds(w, roots, log, lists, quireList, lo, hi, m, sibs, c, cards);
      UnpaddedAfterMinor(NursedOf(w, m, sibs, c, cards));
      UnpaddedGapsFit(NursedHeap(w, m, sibs, c, cards), roots, lists, quireList, requested, nursery, bases, grants);
    }
  }

  lemma UnpaddedGapsFit(w: Flip, roots: seq<nat>, lists: seq<seq<nat>>, quireList: seq<nat>, requested: seq<nat>,
      nursery: nat, bases: seq<nat>, grants: seq<nat>)
    requires Unpadded(w)
    ensures GapsFit(w, roots, lists, quireList, requested, nursery, bases, grants)
  {
    forall k: nat, n | Flipping(w, k, roots, lists, quireList, requested, nursery, bases, grants, n)
        ensures DataHasRoom(Flips(w, k, n)) {
      FlippingParts(w, k, roots, lists, quireList, requested, nursery, bases, grants, n);
      forall i | i % 4 == NONPTR_DATA_SIB ensures RoomIn(Flips(w, k, n), i) {
        if 0 <= i < |w.sibs| { FlipHasRoom(w, k, requested, nursery, bases, grants, n, i); }
      }
    }
  }

  /** The minor clean ends in a heap at rest, with an empty nursery and the same memory to be had. */
  lemma AfterMinor(w: Flip, roots: seq<nat>, log: seq<nat>, lists: seq<seq<nat>>, quireList: seq<nat>, lo: nat, hi: nat,
      end: nat,
                   m: seq<Word>, sibs: seq<Sib>, c: Copy, cards: seq<CardMap>, bases: seq<nat>, grants: seq<nat>)
    requires AtWork(w, roots, log, lists, quireList, lo, hi) && MinorReady(MinorOf(w), roots, log) &&
        MinorCleanedState(MinorOf(w), m, sibs, c, cards)
    requires Nursery(w, lo, hi, end) && GrantsFresh(w, bases, grants)
    ensures var u := NursedHeap(w, m, sibs, c, cards);
      AtRest(u, roots, lists, quireList) && Nursery(u, lo, lo, end) && GrantsFresh(u, bases, grants) &&
          MinorDid(w, u) && Spares(w, u, [], [])
      && u.mem == m && u.sibs == sibs && u.cards == cards && u.b2s == w.b2s && u.quires == w.quires &&
          u.huge == w.huge && u.k == w.k && |m| == |w.mem|
  {
    hide AtWork, MinorReady, AtRest, Nursery, GrantsFresh, NursedReferences, Nursing, Unpadded;
    MinorCleanRests(w, roots, log, lists, quireList, lo, hi, m, sibs, c, cards);
    NurseryAfterMinor(w, roots, log, lists, quireList, lo, hi, end, m, sibs, c, cards);
    NursingHolds(w, roots, log, lists, quireList, lo, hi, m, sibs, c, cards);
    GrantsAfterMinor(NursedOf(w, m, sibs, c, cards), lists, lo, hi, bases, grants);
    NursedParts(NursedOf(w, m, sibs, c, cards), lists, lo, hi);
    if Unpadded(w) { UnpaddedAfterMinor(NursedOf(w, m, sibs, c, cards)); }
    if Vacant(w) { VacantAfterMinor(NursedOf(w, m, sibs, c, cards)); }
    forall others: seq<nat>, sizes: seq<nat> | GrantsFresh(w, others, sizes)
      ensures GrantsFresh(NursedHeap(w, m, sibs, c, cards), others, sizes)
    {
      GrantsAfterMinor(NursedOf(w, m, sibs, c, cards), lists, lo, hi, others, sizes);
    }
  }

  lemma FitsMeansRoom(w: Flip, agegroup0: nat, lo: nat, hi: nat, end: nat)
    requires RoomFor(w.sibs, agegroup0) && Nursery(w, lo, hi, end) && end - lo <= agegroup0
    ensures NurseryFits(w, lo, hi)
  {
  }

  /** The room that a minor clean leaves, unless the test finds it short. */
  lemma RoomAfterTest(w: Flip, sibs: seq<Sib>, buffer: nat)
    requires RoomFor(w.sibs, buffer) && SameBuffers(w.sibs, sibs) && !ShortOfRoom(sibs, buffer) && 4 <= |sibs| &&
        1 <= buffer
    ensures RoomFor(sibs, buffer) && (DataRoomFor(w.sibs, buffer) ==> DataRoomFor(sibs, buffer))
  {
    assert SameBuffer(w.sibs[NONPTR_DATA_SIB], sibs[NONPTR_DATA_SIB]);
    assert DataRoomFor(w.sibs, buffer) ==> sibs[NONPTR_DATA_SIB].limit - sibs[NONPTR_DATA_SIB].firstFree >= buffer;
    forall i | 0 <= i < 4 && i != NONPTR_DATA_SIB ensures Active(sibs[i]) && sibs[i].firstFree <= sibs[i].limit &&
        buffer <= sibs[i].limit - sibs[i].firstFree {
      assert SameBuffer(w.sibs[i], sibs[i]) && Active(w.sibs[i]);
    }
  }

  lemma LeftIsRoom(sibs: seq<Sib>, requested: seq<nat>, buffer: nat, agegroup0: nat)
    requires RoomLeft(sibs, requested, buffer) && 4 <= |requested| && agegroup0 <= buffer
    ensures RoomFor(sibs, agegroup0) && (4 <= |sibs| && RoomLeftIn(sibs, requested, buffer, NONPTR_DATA_SIB) ==>
        DataRoomFor(sibs, agegroup0))
  {
    assert RoomLeftIn(sibs, requested, buffer, 0) && RoomLeftIn(sibs, requested, buffer, 1) &&
        RoomLeftIn(sibs, requested, buffer, 3);
  }

  method CleanNursery(h: Heap, roots: seq<nat>, log: seq<nat>, ghost w: Flip, ghost lo: nat, ghost hi: nat,
      ghost end: nat, ghost bases: seq<nat>, ghost grants: seq<nat>)
    returns (ghost u: Flip)
    requires HeapIs(h, w) && AtWork(w, roots, log, h.hugechunks, h.quire_list, lo, hi) && Nursery(w, lo, hi, end) &&
        NurseryFits(w, lo, hi)
    requires DataHasRoom(MinorOf(w)) && GrantsFresh(w, bases, grants) && 1 <= |h.counts|
    modifies h`flip, h`copy, h`marked, h`sibs, h`weakrefs, h`cards, h`counts, h.ram
    ensures HeapIs(h, u) && AtRest(u, roots, h.hugechunks, h.quire_list) && Nursery(u, lo, lo, end) &&
        GrantsFresh(u, bases, grants) && MinorDid(w, u)
    ensures Spares(w, u, [], [])
    ensures MinorCleanedState(MinorOf(w), u.mem, u.sibs, h.copy, u.cards) &&
        u == NursedHeap(w, u.mem, u.sibs, h.copy, u.cards)
    ensures h.counts == old(h.counts)[0 := old(h.counts)[0] + 1] && u.b2s == w.b2s && u.k == w.k && |u.mem| == |w.mem|
  {
    hide AtWork, AtRest, MinorReady, Nursery, GrantsFresh, DataHasRoom, NurseryFits, MinorCleanedState, MinorDid,
         Unpadded;
    WorkIsReady(w, roots, log, h.hugechunks, h.quire_list, lo, hi);
    h.flip, h.copy, h.marked := MinorOf(w), NOTHING_COPIED, {};
    HeapcleanAgegroup0(h, roots, log);
    u := NursedHeap(w, h.ram[..], h.sibs, h.copy, h.cards);
    AfterMinor(w, roots, log, h.hugechunks, h.quire_list, lo, hi, end, h.ram[..], h.sibs, h.copy, h.cards, bases,
        grants);
  }

  lemma WorkSize(w: Flip, roots: seq<nat>, log: seq<nat>, lists: seq<seq<nat>>, quireList: seq<nat>, lo: nat, hi: nat)
    requires AtWork(w, roots, log, lists, quireList, lo, hi)
    ensures |w.sibs| == 4 * w.k >= 4
  {
  }

  lemma RestSize(w: Flip, roots: seq<nat>, lists: seq<seq<nat>>, quireList: seq<nat>)
    requires AtRestBut(w, roots, lists, quireList)
    ensures |w.sibs| == 4 * w.k >= 4
  {
  }

  lemma MinorSibs(w: Flip, m: seq<Word>, sibs: seq<Sib>, c: Copy, cards: seq<CardMap>)
    requires MinorCleanedState(MinorOf(w), m, sibs, c, cards)
    ensures SameBuffers(w.sibs, sibs)
  {
  }

  /** Clean the nursery, then agegroups 1 to k: none if none was asked for and agegroup1 has room for another
      nursery, otherwise at least as many as were asked for.  A minor clean never finds too little room, and
      the room it needs is there again when the call is over. */
  method CallHeapcleaner(h: Heap, roots: seq<nat>, log: seq<nat>, level: nat, agegroup0: nat, buffer: nat,
      bases: seq<nat>, grants: seq<nat>, unlimited: bool,
                         ghost w: Flip, ghost lo: nat, ghost hi: nat, ghost end: nat)
    returns (ok: bool, k: nat, ghost u: Flip, ghost r: Flip)
    requires HeapIs(h, w) && AtWork(w, roots, log, h.hugechunks, h.quire_list, lo, hi) && Nursery(w, lo, hi, end) &&
        SizingOk(h)
    requires level <= h.active && end - lo <= agegroup0 && 1 <= agegroup0 <= buffer <= h.nurseryWords &&
        RoomFor(h.sibs, agegroup0)
    requires GrantsOk(w.b2s, |w.mem|, bases, grants, w.k) && GrantsFresh(w, bases, grants)
    requires GapsFitBoth(w, roots, h.hugechunks, h.quire_list, h.requested, h.nurseryWords, bases, grants)
    modifies h, h.ram
    ensures h.requested == old(h.requested) && h.nurseryWords == old(h.nurseryWords) && h.softMax == old(h.softMax) &&
        h.quire_list == old(h.quire_list)
    ensures MinorDid(w, u) && AtRest(u, roots, old(h.hugechunks), h.quire_list) && Spares(w, u, [], [])
    ensures k == 0 && ok <==> level == 0 && !ShortOfRoom(u.sibs, agegroup0)
    ensures ok && k == 0 ==> r == u
    ensures ok && k > 0 ==> level <= k <= h.active && h.flip.k == k && DidClean(h, u.huge)
    ensures ok && k > 0 ==>
        && NoneForNothing(u.sibs, if level == 0 then 1 else level, k)
        && (k < h.active ==> Absorbs(u.sibs, k))
    ensures !ok ==> Starved(u.sibs, h.requested, h.nurseryWords, grants, if level == 0 then 1 else level, h.active)
    ensures ok && k > 0 ==> FlipFrom(u, k, roots, old(h.hugechunks), h.quire_list, h.requested, h.nurseryWords, bases,
        grants, h.flip)
    ensures ok ==> SizingOk(h) && RoomFor(h.sibs, agegroup0) && (k > 0 ==> RoomLeft(h.sibs, h.requested, buffer))
    ensures ok ==> HeapIs(h, r) && AtRestBut(r, roots, h.hugechunks, h.quire_list) && Nursery(r, lo, lo, end)
    ensures ok && k > 0 ==> CardsFollow(u, k, r)
    ensures ok && Unpadded(w) && DataRoomFor(w.sibs, agegroup0) ==> DataRoomFor(h.sibs, agegroup0)
    ensures ok ==>
        && Spares(w, r, bases, grants)
        && (k > 0 ==> VectorRoom(h.sibs, h.requested, h.softMax, buffer, unlimited))
  {
    hide AtWork, AtRestBut, Unpadded, Vacant, Spares, DataRoomFor, RoomLeftIn, VectorRoom, AllCovered, CardsFollow,
         Nursery, GrantsFresh, GrantsOk, GapsFit, MinorCleanedState, MinorDid, DidClean, RoomFor, RoomLeft, FlipFrom,
         ShortOfRoom, NurseryFits, NoneForNothing, Absorbs, Starved;
    FitsMeansRoom(w, agegroup0, lo, hi, end);
    WorkSize(w, roots, log, h.hugechunks, h.quire_list, lo, hi);
    ghost var counts0 := h.counts;
    u := CleanNursery(h, roots, log, w, lo, hi, end, bases, grants);
    SparesKinds(w, u, [], []);
    MinorSibs(w, u.mem, u.sibs, h.copy, u.cards);
    var least := level;
    if level == 0 {
      var short := IsShortOfRoom(h, agegroup0);
      if short {
        least := 1;
      }
    }
    ok, k, r := true, 0, u;
    if least > 0 {
      ok, k, r := HeapcleanNAgegroups(h, roots, least, bases, grants, buffer, unlimited, u, lo, end);
      if ok {
        SparesBoth(w, u, r, bases, grants);
        RestSize(r, roots, h.hugechunks, h.quire_list);
        LeftIsRoom(h.sibs, h.requested, buffer, agegroup0);
      }
    } else {
      SparesNothing(w, u, bases, grants);
      RoomAfterTest(w, h.sibs, agegroup0);
    }
  }
}
