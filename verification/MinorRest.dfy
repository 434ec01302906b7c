/** A minor clean of a heap at work leaves a heap at rest.

    A heap at work is a heap at rest to which the mutator has added a nursery of new chunks, and into whose
    mutable words it has stored, noting each store in the changelog. */
module MinorRest {
  import opened HeapTags
  import opened HeapModel
  import opened Forwarding
  import opened HeapObject
  import opened MajorForward
  import opened MajorSweep
  import opened MajorCards
  import opened MajorRoots
  import opened MajorClean
  import opened MajorHuge
  import opened Weakrefs
  import opened CleanResult
  import opened HeapWorld
  import opened MajorSetup
  import opened MajorRest
  import opened MinorForward
  import opened MinorClean

  // ------------------------------------------------------------------ the heap at work

  /** A chunk of an agegroup is at home there; one of the nursery lies in its words lo to hi. */
  predicate WorkHome(w: Flip, lo: nat, hi: nat, a: int) {
    a >= 0 && Chunk(w, a) ==> if AgeAt(w, a) == 0 then lo <= a - OldHeader(w, a) &&
        a + Length(w, a) <= hi else HomeOk(w, a)
  }

  /** A pair holds values, and no value looks like a tagword. */
  predicate PairValue(w: Flip, a: int) {
    0 <= a < |w.mem| && Chunk(w, a) && KindAt(w, a) == NEW_KIND && PairRecord(TagOf(w, a)) ==> !w.mem[a].Tagword?
  }

  predicate NurseryWord(w: Flip, lo: nat, hi: nat, x: nat) { lo <= x < hi ==> AgeAt(w, x) == 0 }

  /** A reference to the nursery from a chunk of an agegroup is in the changelog. */
  predicate Logged(w: Flip, log: seq<nat>, x: int) {
    (0 <= x < |w.mem| && |w.zone| == |w.mem| && w.zone[x].Old? && w.zone[x].chunk >= 0 && AgeAt(w, w.zone[x].chunk) != 0
     && Slot(w, w.zone[x].chunk) == RW_POINTERS_SIB && w.mem[x].Pointer? && AgeAt(w, w.mem[x].addr) == 0) ==> x in log
  }

  /** A mutable word is covered by its card unless it is in the changelog. */
  predicate WorkCovered(w: Flip, log: seq<nat>, i: int, x: int) {
    0 <= i < |w.sibs| && i % 4 == RW_POINTERS_SIB && w.sibs[i].start <= x < w.sibs[i].firstFree && 0 <= x < |w.mem|
    ==> x in log || (i / 4 < |w.cards| && Covers(w, w.cards[i / 4], SibAge(i), x, w.mem[x]))
  }

  /** What the changelog holds: words of the nursery, of no agegroup at all, or mutable words in use. */
  ghost predicate EntryOk(w: Flip, x: nat) {
    x < |w.mem| && (SibidFor(w.b2s, x) == AGEGROUP0_SIBID || SibidFor(w.b2s, x) == UNMAPPED_BOOK_SIBID
                    || exists i {:trigger InBuffer(w, i, x)} :: InBuffer(w, i, x) && i % 4 == RW_POINTERS_SIB &&
                        x < w.sibs[i].firstFree)
  }

  ghost predicate AtWork(w: Flip, roots: seq<nat>, log: seq<nat>, lists: seq<seq<nat>>, quireList: seq<nat>, lo: nat,
      hi: nat) {
    && WellFormed(w) && 1 <= w.k <= MAX_AGEGROUPS && |w.mem| <= |w.b2s| * BOOK &&
        |w.sibs| == 4 * w.k == 4 * |w.cards| && lo <= hi
    && CardReady(w, w.cards) && RootsOk(w, {}, roots) && w.ext == (set x | x in roots :: x as int)
    && (forall v: nat {:trigger NurseryLabel(w, v)} :: NurseryLabel(w, v))
    && (forall x: nat {:trigger NurseryWord(w, lo, hi, x)} :: NurseryWord(w, lo, hi, x))
    && (forall i, x {:trigger UsedOk(w, i, x)} :: UsedOk(w, i, x))
    && (forall a {:trigger WorkHome(w, lo, hi, a)} :: WorkHome(w, lo, hi, a))
    && (forall a {:trigger PairValue(w, a)} :: PairValue(w, a))
    && (forall i {:trigger SibRests(w, i)} :: SibRests(w, i))
    && (forall i {:trigger SweepStart(w, i)} :: SweepStart(w, i))
    && (forall x {:trigger Logged(w, log, x)} :: Logged(w, log, x))
    && (forall i, x {:trigger WorkCovered(w, log, i, x)} :: WorkCovered(w, log, i, x))
    && (forall j {:trigger log[j]} :: 0 <= j < |log| ==> EntryOk(w, log[j]))
    && (forall x {:trigger OrderedWord(w, x)} :: OrderedWord(w, x))
    && (forall x {:trigger CodeLives(w, x)} :: CodeLives(w, x))
    && (forall b: nat {:trigger RecordIsCode(w.b2s, b)} :: RecordIsCode(w.b2s, b))
    && HugeListsOk(w.huge, lists, 0, w.k) && QuiresOk(w.b2s, w.quires, w.huge, quireList) && NoRepeats(quireList)
  }

  /** Each pointer sib of agegroup1 could take the whole nursery. */
  predicate NurseryFits(w: Flip, lo: nat, hi: nat) {
    forall i {:trigger w.sibs[i]} :: 0 <= i < 4 && i < |w.sibs| && i != NONPTR_DATA_SIB ==>
        hi - lo <= w.sibs[i].limit - w.sibs[i].firstFree
  }

  /** The heap as the minor clean sees it. */
  ghost function MinorOf(w: Flip): Flip {
    Flip(w.mem, w.b2s, w.sibs,
         seq(|w.zone|, x requires 0 <= x < |w.zone| =>
           if w.zone[x].Old? && w.zone[x].chunk >= 0 && AgeAt(w, w.zone[x].chunk) > 0 then Fixed else w.zone[x]),
         w.ext + (set x: int | 0 <= x < |w.zone| && OlderPart(w, 0, x)), w.quires, w.huge, w.cards, 0)
  }

  // ------------------------------------------------------------------ ready for a minor clean

  /** The nursery's chunks are those of the flip, with the same shape. */
  lemma MinorChunk(w: Flip, a: nat)
    requires WellFormed(w)
    ensures var f := MinorOf(w);
      && AgeAt(f, a) == AgeAt(w, a) && KindAt(f, a) == KindAt(w, a) && OldHeader(f, a) == OldHeader(w, a) &&
          Length(f, a) == Length(w, a)
      && Slot(f, a) == Slot(w, a) && Weak(f, a) == Weak(w, a) && NewHeader(f, a) == NewHeader(w, a) &&
          Aligned(f, a) == Aligned(w, a) && Dest(f, a) == Dest(w, a)
      && (Chunk(f, a) <==> Chunk(w, a) && AgeAt(w, a) == 0) &&
          (Chunk(f, a) ==> ChunkOk(f, a) && KindAt(f, a) == NEW_KIND && Dest(f, a) == Slot(f, a) < 4)
  {
    assert Chunk(w, a) ==> ChunkOk(w, a);
    SlotsAreFour(TagOf(w, a));
  }

  lemma SlotsAreFour(tag: Word)
    ensures 0 <= SlotForTag(tag) < 4
  {
  }

  ghost predicate ExtFixed(w: Flip) {
    forall y {:trigger y in w.ext} :: y in w.ext ==> 0 <= y < |w.zone| && w.zone[y].Fixed?
  }

  lemma MinorScanWord(w: Flip, x: int)
    requires WellFormed(w) && ExtFixed(w) && ScanWord(MinorOf(w), x)
    ensures ScanWord(w, x)
  {
  }

  lemma MinorTarget(w: Flip, x: int)
    requires WellFormed(w) && ExtFixed(w)
    ensures TargetOk(MinorOf(w), x) && WeakTargetOk(MinorOf(w), x)
  {
    var f := MinorOf(w);
    if ScanWord(f, x) {
      MinorScanWord(w, x);
      assert TargetOk(w, x);
      if f.mem[x].Pointer? { MinorChunk(w, f.mem[x].addr); }
    }
    if x >= 0 && Chunk(f, x) {
      MinorChunk(w, x);
      assert WeakTargetOk(w, x);
      if x < |f.mem| && f.mem[x].Pointer? { MinorChunk(w, f.mem[x].addr); }
    }
  }

  lemma MinorIsWellFormed(w: Flip)
    requires WellFormed(w) && ExtFixed(w)
    ensures WellFormed(MinorOf(w))
  {
    var f := MinorOf(w);
    forall x ensures ZoneOk(f, x) {
      assert ZoneOk(w, x);
      if 0 <= x < |f.zone| && f.zone[x].Old? { MinorChunk(w, f.zone[x].chunk); }
    }
    forall a: nat | Chunk(f, a) ensures ChunkOk(f, a) { MinorChunk(w, a); }
    forall a, x ensures ExtentOk(f, a, x) {
      if a >= 0 { MinorChunk(w, a); }
      assert ExtentOk(w, a, x);
    }
    forall i | 0 <= i < |f.sibs| ensures SibOk(f, i) { assert SibOk(w, i); }
    forall i, x ensures AreaOk(f, i, x) { assert AreaOk(w, i, x); }
    forall x ensures TargetOk(f, x) && WeakTargetOk(f, x) { MinorTarget(w, x); }
  }

  /** No more can be copied into a pointer sib, or into any sib if there are no gaps, than the nursery held. */
  lemma MinorIncoming(w: Flip, lo: nat, hi: nat, i: nat, x: int)
    requires WellFormed(w) && (forall a {:trigger WorkHome(w, lo, hi, a)} :: WorkHome(w, lo, hi, a))
    requires (i % 4 != NONPTR_DATA_SIB || Unpadded(w)) && x in Incoming(MinorOf(w), i)
    ensures x in Run(lo, hi) && i < 4
  {
    var f := MinorOf(w);
    var a := if x >= 0 then f.zone[x].chunk else -1 - x;
    if x >= 0 { assert ZoneOk(w, x); }
    MinorChunk(w, a);
    assert WorkHome(w, lo, hi, a);
  }

  lemma MinorHasRoom(w: Flip, lo: nat, hi: nat, i: nat)
    requires WellFormed(w) && (forall a {:trigger WorkHome(w, lo, hi, a)} :: WorkHome(w, lo, hi, a)) && lo <= hi
    requires i < |w.sibs| && (i % 4 != NONPTR_DATA_SIB || Unpadded(w)) &&
        (i < 4 ==> hi - lo <= w.sibs[i].limit - w.sibs[i].firstFree)
    ensures RoomIn(MinorOf(w), i)
  {
    var f := MinorOf(w);
    forall x | x in Incoming(f, i) ensures x in Run(lo, hi) && i < 4 { MinorIncoming(w, lo, hi, i, x); }
    RunSize(lo, hi);
    assert SibOk(w, i);
    if i < 4 {
      SubsetSize(Incoming(f, i), Run(lo, hi));
    } else {
      assert Incoming(f, i) == {};
    }
  }

  lemma MinorCards(w: Flip, roots: seq<nat>, log: seq<nat>, lists: seq<seq<nat>>, quireList: seq<nat>, lo: nat, hi: nat)
    requires AtWork(w, roots, log, lists, quireList, lo, hi) && ExtFixed(w)
    ensures CardReady(MinorOf(w), w.cards)
  {
    var f := MinorOf(w);
    forall i, x ensures AreaLabelOk(f, i, x) { assert AreaLabelOk(w, i, x); }
    forall x ensures LabelOk(f, x) {
      if ScanWord(f, x) { MinorScanWord(w, x); }
      assert LabelOk(w, x);
    }
    forall i ensures MapOk(f, f.cards, i) { assert MapOk(w, w.cards, i); }
    forall a ensures DestOk(f, a) {
      if a >= 0 { MinorChunk(w, a); }
    }
  }

  /** A word in use in a sib belongs to a chunk of that sib. */
  lemma WorkWord(w: Flip, roots: seq<nat>, log: seq<nat>, lists: seq<seq<nat>>, quireList: seq<nat>, lo: nat, hi: nat,
      i: nat, x: int)
    requires AtWork(w, roots, log, lists, quireList, lo, hi) && i < |w.sibs| && i % 4 != NONPTR_DATA_SIB &&
        w.sibs[i].start <= x < w.sibs[i].firstFree
    ensures 0 <= x < |w.zone| && w.zone[x].Old? && var a := w.zone[x].chunk;
      a >= 0 && Chunk(w, a) && AgeAt(w, a) == SibAge(i) && Slot(w, a) == i % 4 && HomeOk(w, a)
  {
    assert UsedOk(w, i, x) && ZoneOk(w, x) && SibOk(w, i);
    var a := w.zone[x].chunk;
    assert WorkHome(w, lo, hi, a) && ChunkOk(w, a);
    assert AreaLabelOk(w, i, x);
    NurseryIsApart(w, roots, log, lists, quireList, lo, hi, i, a, x);
    OldWordKind(w, a, x, i);
  }

  lemma NurseryIsApart(w: Flip, roots: seq<nat>, log: seq<nat>, lists: seq<seq<nat>>, quireList: seq<nat>, lo: nat,
      hi: nat, i: nat, a: nat, x: int)
    requires AtWork(w, roots, log, lists, quireList, lo, hi) && i < |w.sibs| && Chunk(w, a) && InBuffer(w, i, x)
    requires a - OldHeader(w, a) <= x < a + Length(w, a)
    ensures AgeAt(w, a) != 0
  {
    assert ChunkOk(w, a) && SibOk(w, i) && AreaLabelOk(w, i, x);
    assert WorkHome(w, lo, hi, a) && NurseryWord(w, lo, hi, x);
  }

  lemma MinorUncleaned(w: Flip, roots: seq<nat>, log: seq<nat>, lists: seq<seq<nat>>, quireList: seq<nat>, lo: nat,
      hi: nat, i: int, x: int)
    requires AtWork(w, roots, log, lists, quireList, lo, hi)
    ensures UncleanedOk(MinorOf(w), i, x) && OldCovered(MinorOf(w), w.mem, w.cards, log, i, x)
  {
    var f := MinorOf(w);
    if UncleanedWord(f, i, x) {
      WorkWord(w, roots, log, lists, quireList, lo, hi, i, x);
      assert WorkCovered(w, log, i, x);
    }
  }

  lemma ExtIsFixed(w: Flip, roots: seq<nat>, log: seq<nat>, lists: seq<seq<nat>>, quireList: seq<nat>, lo: nat, hi: nat)
    requires AtWork(w, roots, log, lists, quireList, lo, hi)
    ensures ExtFixed(w) && forall j {:trigger roots[j]} :: 0 <= j < |roots| ==> RootOk(MinorOf(w), roots[j])
  {
    var f := MinorOf(w);
    forall y | y in w.ext ensures 0 <= y < |w.zone| && w.zone[y].Fixed? {
      var j :| 0 <= j < |roots| && roots[j] == y;
      assert RootOk(w, roots[j]);
    }
    forall j | 0 <= j < |roots| ensures RootOk(f, roots[j]) {
      assert RootOk(w, roots[j]) && roots[j] in roots;
      forall i ensures !InBuffer(f, i, roots[j]) { assert !InBuffer(w, i, roots[j]); }
    }
  }

  lemma MinorEntry(w: Flip, x: nat)
    requires EntryOk(w, x) && WellFormed(w)
    ensures LogEntryOk(MinorOf(w), x)
  {
    var f := MinorOf(w);
    if !(SibidFor(w.b2s, x) == AGEGROUP0_SIBID || SibidFor(w.b2s, x) == UNMAPPED_BOOK_SIBID) {
      var i :| InBuffer(w, i, x) && i % 4 == RW_POINTERS_SIB && x < w.sibs[i].firstFree;
      assert UncleanedWord(f, i, x);
    }
  }

  /** Only roots and logged words refer to the nursery from outside it. */
  lemma MinorExt(w: Flip, roots: seq<nat>, log: seq<nat>, lists: seq<seq<nat>>, quireList: seq<nat>, lo: nat, hi: nat,
      x: int)
    requires AtWork(w, roots, log, lists, quireList, lo, hi)
    ensures MinorExtOk(MinorOf(w), roots, log, x)
  {
    var f := MinorOf(w);
    ExtIsFixed(w, roots, log, lists, quireList, lo, hi);
    if x in f.ext && x !in w.ext && w.mem[x].Pointer? && AgeAt(w, w.mem[x].addr) == 0 {
      var a := w.zone[x].chunk;
      assert ZoneOk(w, x) && WorkHome(w, lo, hi, a) && ChunkOk(w, a) && OrderedWord(w, x) && Logged(w, log, x);
      var h := SibIndex(AgeAt(w, a), KindAt(w, a));
      assert HomeOk(w, a) && SibOk(w, h);
      NurseryPlace(w, w.mem[x].addr);
      if Slot(w, a) == RW_POINTERS_SIB { assert UncleanedWord(f, h, x); }
    }
  }

  lemma NurseryPlace(w: Flip, v: nat)
    requires NurseryLabel(w, v)
    ensures AgeAt(w, v) == 0 ==> PointeePlace(w, v) == 0
  {
  }

  /** A heap at work is ready for a minor clean. */
  lemma WorkIsReady(w: Flip, roots: seq<nat>, log: seq<nat>, lists: seq<seq<nat>>, quireList: seq<nat>, lo: nat,
      hi: nat)
    requires AtWork(w, roots, log, lists, quireList, lo, hi) && NurseryFits(w, lo, hi) && DataHasRoom(MinorOf(w))
    ensures MinorReady(MinorOf(w), roots, log)
  {
    var f := MinorOf(w);
    ExtIsFixed(w, roots, log, lists, quireList, lo, hi);
    MinorIsWellFormed(w);
    MinorCards(w, roots, log, lists, quireList, lo, hi);
    forall i ensures RoomIn(f, i) {
      if 0 <= i < |f.sibs| && i % 4 != NONPTR_DATA_SIB { MinorHasRoom(w, lo, hi, i); }
    }
    forall v: nat ensures NurseryLabel(f, v) { assert NurseryLabel(w, v); }
    forall i ensures SweepStart(f, i) { assert SweepStart(w, i); }
    forall i, x ensures UncleanedOk(f, i, x) && OldCovered(f, f.mem, f.cards, log, i, x) { MinorUncleaned(w, roots, log,
        lists, quireList, lo, hi, i, x); }
    forall j | 0 <= j < |log| ensures LogEntryOk(f, log[j]) {
      assert EntryOk(w, log[j]);
      MinorEntry(w, log[j]);
    }
    forall x ensures MinorExtOk(f, roots, log, x) { MinorExt(w, roots, log, lists, quireList, lo, hi, x); }
    forall a: int ensures DestSwept(f, 1, a) && (a >= 0 && Chunk(f, a) ==> AgeAt(f, a) == 0) {
      if a >= 0 { MinorChunk(w, a); }
    }
  }

  // ------------------------------------------------------------------ the heap afterwards

  /** One minor clean: the heap at work, the flip, the heap at rest afterwards, and what the clean left. */
  datatype Nursed = Nursed(w: Flip, f: Flip, r: Flip, m: seq<Word>, sibs: seq<Sib>, c: Copy, cards: seq<CardMap>)

  function NursedZone(w: Flip, f: Flip, c: Copy, x: nat): Zone
    requires x < |f.zone| == |w.zone|
  {
    match f.zone[x]
    case Old(_) => Fixed
    case New(i) =>
      if x in c.org then
        var y := c.org[x];
        if 0 <= y < |f.zone| && f.zone[y].Old? && f.zone[y].chunk in c.fwd then Old(c.fwd[f.zone[y].chunk]) else Fixed
      else New(i)
    case Fixed => if w.zone[x].Old? then w.zone[x] else Fixed
  }

  predicate NursedZoneAt(e: Nursed, x: int) {
    0 <= x < |e.r.zone| && |e.r.zone| == |e.f.zone| == |e.w.zone| ==> e.r.zone[x] == NursedZone(e.w, e.f, e.c, x)
  }

  ghost function NursedHeap(w: Flip, m: seq<Word>, sibs: seq<Sib>, c: Copy, cards: seq<CardMap>): Flip {
    var f := MinorOf(w);
    Flip(m, w.b2s, sibs, seq(|w.zone|, x requires 0 <= x < |w.zone| => NursedZone(w, f, c, x)), w.ext, w.quires, w.huge,
        cards, w.k)
  }

  /** r is what the minor clean made of w, and the parts that stay are those of w. */
  ghost predicate IsNursed(e: Nursed) {
    && e.f == MinorOf(e.w) && |e.w.mem| == |e.w.zone| == |e.f.zone| == |e.f.mem| == |e.r.zone| == |e.r.mem| &&
        e.f.mem == e.w.mem
    && e.r.mem == e.m && e.r.sibs == e.sibs && e.r.cards == e.cards && e.r.k == e.w.k && e.r.ext == e.w.ext
    && e.f.b2s == e.r.b2s == e.w.b2s && e.f.quires == e.r.quires == e.w.quires && e.f.huge == e.r.huge == e.w.huge &&
        e.f.sibs == e.w.sibs && e.f.k == 0
    && forall x {:trigger NursedZoneAt(e, x)} :: NursedZoneAt(e, x)
  }

  /** What the lemmas below need of the heap at work and of the copies. */
  ghost predicate Nursing(e: Nursed) {
    && IsNursed(e) && WellFormed(e.w) && WellFormed(e.f) && 1 <= e.w.k && |e.w.sibs| == 4 * e.w.k &&
        CardReady(e.w, e.w.cards)
    && (forall a {:trigger PairValue(e.w, a)} :: PairValue(e.w, a)) &&
        (forall i {:trigger SibRests(e.w, i)} :: SibRests(e.w, i))
    && SameBuffers(e.w.sibs, e.sibs) && InvFree(e.f, Free(e.sibs)) && InvOrg(e.f, Free(e.sibs), e.c.fwd, e.c.org)
    && InvCover(e.f, Free(e.sibs), e.c.org) && InvImage(e.f, e.c.fwd, e.c.org) &&
        LiveGraphCopied(e.f, Free(e.sibs), e.c.fwd, e.m)
    && (forall x {:trigger RestKept(e.f, e.m, x)} :: RestKept(e.f, e.m, x)) &&
        (forall x {:trigger ExtMoved(e.f, e.c.fwd, e.m, x)} :: ExtMoved(e.f, e.c.fwd, e.m, x))
    && (forall a {:trigger DestSwept(e.f, 1, a)} :: DestSwept(e.f, 1, a)) && ExtFixed(e.w)
  }

  predicate NursedSizes(e: Nursed) {
    && |e.w.mem| == |e.w.zone| == |e.f.zone| == |e.f.mem| == |e.r.zone| == |e.r.mem| && e.r.mem == e.m &&
        e.r.sibs == e.sibs && e.r.k == e.w.k
    && e.r.b2s == e.w.b2s == e.f.b2s && |e.r.sibs| == |e.w.sibs| == 4 * e.w.k && e.f.mem == e.w.mem &&
        e.r.cards == e.cards && e.r.huge == e.w.huge
    && e.r.quires == e.w.quires && e.f.sibs == e.w.sibs && e.r.ext == e.w.ext && e.f.quires == e.w.quires &&
        e.f.huge == e.w.huge && e.f.k == 0 && 1 <= e.w.k
  }

  lemma SizesOfNursed(e: Nursed)
    requires Nursing(e)
    ensures NursedSizes(e)
  {
  }

  lemma NurseryCopy(e: Nursed, a: int)
    requires Nursing(e) && a in e.c.fwd
    ensures a >= 0 && Chunk(e.w, a) && AgeAt(e.w, a) == 0 && Chunk(e.f, a) && ChunkOk(e.f, a) && InChunk(e.f, a, 0) &&
        KindAt(e.f, a) == NEW_KIND && Dest(e.f, a) == Slot(e.f, a)
    ensures InChunk(e.f, a, Length(e.f, a) - 1) && InChunk(e.f, a, -(NewHeader(e.f, a) as int)) && Live(e.f, a)
  {
    LiveIsChunk1(e, a);
    MinorChunk(e.w, a);
  }

  lemma LiveIsChunk1(e: Nursed, a: int)
    requires Nursing(e) && a in e.c.fwd
    ensures Chunk(e.f, a) && Live(e.f, a)
  {
    assert Live(e.f, a);
    var p :| Path(e.f, p) && p[|p| - 1] == a;
    if |p| == 1 {
      var x :| RootWord(e.f, x, p[0]);
    } else {
      assert PathStep(e.f, p, |p| - 1);
      var x :| StrongWord(e.f, x, p[|p| - 2], p[|p| - 1]);
    }
  }

  lemma NurseryPlaceOf(e: Nursed, a: int, j: int)
    requires Nursing(e) && a in e.c.fwd && InChunk(e.f, a, j)
    ensures var i, p := Dest(e.f, a), e.c.fwd[a] + j;
      && 0 <= i < 4 && i < |e.w.sibs| && i == Slot(e.f, a) && SibOk(e.w, i) && Active(e.w.sibs[i]) && SibRests(e.w, i)
      && e.w.sibs[i].firstFree <= p < e.sibs[i].firstFree <= e.w.sibs[i].limit
  {
    var i := Dest(e.f, a);
    NurseryCopy(e, a);
    assert DestSwept(e.f, 1, a) && SibOk(e.w, i) && SibRests(e.w, i) && Free(e.sibs)[i] == e.sibs[i].firstFree;
    assert InItsSib(e.f, Free(e.sibs), e.c.fwd, a, j);
  }

  lemma NurseryZoneOf(e: Nursed, a: int, j: int)
    requires Nursing(e) && a in e.c.fwd && InChunk(e.f, a, j)
    ensures var p := e.c.fwd[a] + j;
      && 0 <= p < |e.w.zone| && e.f.zone[p] == New(Dest(e.f, a)) && p in e.c.org && e.c.org[p] == a + j
      && 0 <= a + j < |e.f.zone| && e.f.zone[a + j] == Old(a) && e.r.zone[p] == Old(e.c.fwd[a]) &&
          |e.r.zone| == |e.f.zone| == |e.w.zone|
  {
    var p := e.c.fwd[a] + j;
    assert ExtentOk(e.f, a, a + j) && ImageOk(e.f, e.c.fwd, e.c.org, a + j);
    assert OriginOk(e.f, Free(e.sibs), e.c.fwd, p, a + j) && ZoneOk(e.f, p);
    assert NursedZoneAt(e, p);
  }

  lemma NursedFrom(e: Nursed, x: int) returns (a: int, j: int)
    requires Nursing(e) && x in e.c.org && e.c.org[x] >= 0
    ensures InChunk(e.f, a, j) && a in e.c.fwd && x == e.c.fwd[a] + j
  {
    var y := e.c.org[x];
    assert OriginOk(e.f, Free(e.sibs), e.c.fwd, x, y) && ZoneOk(e.f, y);
    a, j := e.f.zone[y].chunk, y - e.f.zone[y].chunk;
    NurseryCopy(e, a);
  }

  lemma SibLabel(e: Nursed, i: nat, x: int)
    requires Nursing(e) && i < |e.w.sibs| && e.w.sibs[i].start <= x < e.w.sibs[i].limit
    ensures 0 <= x && AgeAt(e.r, x) == AgeAt(e.w, x) == AgeAt(e.f, x) == SibAge(i) &&
        KindAt(e.r, x) == KindAt(e.w, x) == SibSlot(i) + 1
  {
    assert AreaLabelOk(e.w, i, x) && SibOk(e.w, i);
  }

  /** The copy of a nursery chunk: a junior of agegroup1. */
  lemma NursedCopy(e: Nursed, a: int)
    requires Nursing(e) && a in e.c.fwd
    ensures a >= 0
    ensures var t := e.c.fwd[a];
      && 0 < t < |e.r.mem| == |e.r.zone| && Chunk(e.r, t) && AgeAt(e.r, t) == 1 && KindAt(e.r, t) == Slot(e.f, a) + 1 &&
          Slot(e.r, t) == Slot(e.f, a)
      && OldHeader(e.r, t) == NewHeader(e.f, a) && Length(e.r, t) == Length(e.f, a) >= 1 &&
          (Weak(e.r, t) ==> Weak(e.f, a))
      && (if KindAt(e.r, t) == RO_CONSCELL_KIND then !e.r.mem[t].Tagword? else GoodTag(KindAt(e.r, t), e.r.mem[t - 1]))
  {
    NurseryCopy(e, a);
    NurseryPlaceOf(e, a, 0);
    NurseryZoneOf(e, a, 0);
    SibLabel(e, Dest(e.f, a), e.c.fwd[a]);
    NursedShape(e, a);
  }

  lemma NursedShape(e: Nursed, a: int)
    requires Nursing(e) && a in e.c.fwd && Chunk(e.f, a) && ChunkOk(e.f, a) && KindAt(e.f, a) == NEW_KIND &&
        0 < e.c.fwd[a] < |e.r.mem|
    requires a >= 0 && KindAt(e.r, e.c.fwd[a]) == Slot(e.f, a) + 1 && InChunk(e.f, a, 0) &&
        InChunk(e.f, a, -(NewHeader(e.f, a) as int))
    ensures var t := e.c.fwd[a];
      && OldHeader(e.r, t) == NewHeader(e.f, a) && Length(e.r, t) == Length(e.f, a) && (Weak(e.r, t) ==> Weak(e.f, a))
      && (if KindAt(e.r, t) == RO_CONSCELL_KIND then !e.r.mem[t].Tagword? else GoodTag(KindAt(e.r, t), e.r.mem[t - 1]))
  {
    assert MovedWord(e.f, e.c.fwd, e.m, a, 0) && MovedWord(e.f, e.c.fwd, e.m, a, -1) && PairValue(e.w, a);
    MinorChunk(e.w, a);
    SlotsAreFour(TagOf(e.f, a));
  }

  // ------------------------------------------------------------------ chunks of agegroups

  /** A word of an agegroup's chunk stays where it is, and changes only as a reference to the nursery must. */
  lemma KeptWord(e: Nursed, a: nat, x: int)
    requires Nursing(e) && Chunk(e.w, a) && AgeAt(e.w, a) > 0 && a - OldHeader(e.w, a) <= x < a + Length(e.w, a)
    ensures 0 <= x < |e.r.zone| == |e.r.mem| == |e.w.mem| == |e.w.zone| == |e.f.zone| &&
        e.r.zone[x] == Old(a) == e.w.zone[x] && e.f.zone[x].Fixed?
    ensures Slot(e.w, a) == NONPTR_DATA_SIB || !e.w.mem[x].Pointer? ==> e.r.mem[x] == e.w.mem[x]
    ensures Slot(e.w, a) != NONPTR_DATA_SIB ==> Relocated(e.f, e.c.fwd, e.w.mem[x], e.r.mem[x])
  {
    assert ChunkOk(e.w, a) && ExtentOk(e.w, a, x) && NursedZoneAt(e, x);
    assert RestKept(e.f, e.m, x) && ExtMoved(e.f, e.c.fwd, e.m, x);
  }

  lemma KeptChunk(e: Nursed, a: nat)
    requires Nursing(e) && Chunk(e.w, a) && AgeAt(e.w, a) > 0
    ensures Chunk(e.r, a) && OldHeader(e.r, a) == OldHeader(e.w, a) && Length(e.r, a) == Length(e.w, a) &&
        Slot(e.r, a) == Slot(e.w, a) == KindAt(e.w, a) - 1
    ensures Weak(e.r, a) == Weak(e.w, a) && ChunkOk(e.w, a) && AgeAt(e.r, a) == AgeAt(e.w, a) &&
        KindAt(e.r, a) == KindAt(e.w, a) && a < |e.r.mem|
    ensures if KindAt(e.w, a) == RO_CONSCELL_KIND then !e.r.mem[a].Tagword? else 0 < a && e.r.mem[a - 1] == TagOf(e.w,
        a)
  {
    assert ChunkOk(e.w, a);
    KeptWord(e, a, a);
    if KindAt(e.w, a) != RO_CONSCELL_KIND { KeptWord(e, a, a - 1); }
  }

  /** A chunk afterwards is a copy of a live nursery chunk, or was there before in an agegroup. */
  lemma NursedChunk(e: Nursed, t: int) returns (copy: bool, a: int)
    requires Nursing(e) && Chunk(e.r, t)
    ensures if copy then a in e.c.fwd && e.c.fwd[a] == t else a == t && Chunk(e.w, t) && AgeAt(e.w, t) > 0
  {
    assert NursedZoneAt(e, t);
    copy, a := false, t;
    if e.f.zone[t].New? {
      assert t in e.c.org;
      var b, j := NursedFrom(e, t);
      NurseryZoneOf(e, b, j);
      copy, a := true, b;
    }
  }

  lemma NursedSib(e: Nursed, i: nat)
    requires Nursing(e) && i < |e.w.sibs|
    ensures i < |e.sibs| && SibOk(e.r, i) && SibRests(e.r, i) && SibOk(e.w, i) &&
        Free(e.sibs)[i] == e.sibs[i].firstFree >= e.w.sibs[i].firstFree
    ensures e.sibs[i] == e.w.sibs[i].(firstFree := e.sibs[i].firstFree, sweptEnd := e.sibs[i].sweptEnd) &&
        e.sibs[i].firstFree <= e.w.sibs[i].limit
    ensures i >= 4 ==> e.sibs[i].firstFree == e.w.sibs[i].firstFree
  {
    assert SameBuffer(e.w.sibs[i], e.sibs[i]) && SibRests(e.w, i) && SibOk(e.w, i) &&
        Free(e.sibs)[i] == e.sibs[i].firstFree;
    if i >= 4 { OlderSibIsFull(e, i); }
  }

  /** Nothing is copied into older agegroups. */
  lemma OlderSibIsFull(e: Nursed, i: nat)
    requires Nursing(e) && 4 <= i < |e.w.sibs|
    ensures Free(e.sibs)[i] <= e.w.sibs[i].firstFree
  {
    var p := e.w.sibs[i].firstFree;
    assert CoverOk(e.f, Free(e.sibs), e.c.org, i, p) && SibOk(e.f, i) && AreaOk(e.f, i, p);
    if p in e.c.org {
      assert OriginOk(e.f, Free(e.sibs), e.c.fwd, p, e.c.org[p]);
      var a := if e.c.org[p] >= 0 then e.f.zone[e.c.org[p]].chunk else -1 - e.c.org[p];
      assert DestSwept(e.f, 1, a);
      if a in e.c.fwd { NurseryCopy(e, a); }
    }
  }

  lemma NursedChunkOk(e: Nursed, lo: nat, hi: nat, t: nat)
    requires Nursing(e) && Chunk(e.r, t) && (forall a {:trigger WorkHome(e.w, lo, hi, a)} :: WorkHome(e.w, lo, hi, a))
    ensures ChunkOk(e.r, t) && HomeOk(e.r, t) && 1 <= AgeAt(e.r, t) <= e.w.k
    ensures 2 <= ChunkPlace(e.r, t)
  {
    var copy, a := NursedChunk(e, t);
    if copy {
      CopyAtHome(e, a);
    } else {
      KeptAtHome(e, lo, hi, t);
    }
  }

  lemma CopyAtHome(e: Nursed, a: int)
    requires Nursing(e) && a in e.c.fwd
    ensures var t := e.c.fwd[a];
      && 0 < t
      && ChunkOk(e.r, t)
      && HomeOk(e.r, t)
      && AgeAt(e.r, t) == 1
      && ChunkPlace(e.r, t) == 2
  {
    hide Nursing;
    SizesOfNursed(e);
    NurseryCopy(e, a);
    NursedCopy(e, a);
    NurseryPlaceOf(e, a, 0);
    NurseryPlaceOf(e, a, Length(e.f, a) - 1);
    NurseryPlaceOf(e, a, -(NewHeader(e.f, a) as int));
    NursedSib(e, Dest(e.f, a));
  }

  lemma KeptAtHome(e: Nursed, lo: nat, hi: nat, a: nat)
    requires Nursing(e) && Chunk(e.w, a) && AgeAt(e.w, a) > 0 && WorkHome(e.w, lo, hi, a)
    ensures ChunkOk(e.r, a) && HomeOk(e.r, a) && AgeAt(e.r, a) == AgeAt(e.w, a) &&
        ChunkPlace(e.r, a) == ChunkPlace(e.w, a) >= 2
  {
    hide Nursing;
    SizesOfNursed(e);
    KeptChunk(e, a);
    NursedSib(e, SibIndex(AgeAt(e.w, a), KindAt(e.w, a)));
  }

  // ------------------------------------------------------------------ well-formedness

  lemma NursedColour(e: Nursed, x: int)
    requires Nursing(e)
    ensures ZoneOk(e.r, x)
  {
    hide Nursing;
    SizesOfNursed(e);
    if 0 <= x < |e.r.zone| {
      NursedZoneIs(e, x);
      if e.r.zone[x].Old? {
        if e.f.zone[x].New? {
          var a, j := NursedFrom(e, x);
          NurseryZoneOf(e, a, j);
          NursedCopy(e, a);
        } else {
          KeptChunk(e, e.w.zone[x].chunk);
        }
      } else if e.r.zone[x].New? {
        NursedSib(e, e.r.zone[x].sib);
      }
    }
  }

  lemma NursedZoneIs(e: Nursed, x: int)
    requires Nursing(e) && 0 <= x < |e.r.zone|
    ensures |e.r.zone| == |e.f.zone| == |e.w.zone| && e.r.zone[x] == NursedZone(e.w, e.f, e.c, x)
    ensures e.r.zone[x].Old? ==>
      if e.f.zone[x].New? then x in e.c.org && e.c.org[x] >= 0
      else e.w.zone[x].Old? && e.r.zone[x] == e.w.zone[x] && var a := e.w.zone[x].chunk;
        a >= 0 && Chunk(e.w, a) && AgeAt(e.w, a) > 0 && a - OldHeader(e.w, a) <= x < a + Length(e.w, a)
    ensures e.r.zone[x].New? ==> e.f.zone[x] == e.r.zone[x] && x !in e.c.org && var i := e.r.zone[x].sib;
      0 <= i < |e.w.sibs| && i < |e.sibs| && e.sibs[i].firstFree <= x < e.w.sibs[i].limit
  {
    assert NursedZoneAt(e, x) && ZoneOk(e.w, x) && ZoneOk(e.f, x);
    if e.r.zone[x].New? {
      var i := e.r.zone[x].sib;
      assert CoverOk(e.f, Free(e.sibs), e.c.org, i, x) && SameBuffer(e.w.sibs[i], e.sibs[i]) &&
          Free(e.sibs)[i] == e.sibs[i].firstFree;
    }
  }

  lemma NursedExtent(e: Nursed, a: int, x: int)
    requires Nursing(e)
    ensures ExtentOk(e.r, a, x)
  {
    hide Nursing;
    SizesOfNursed(e);
    if Chunk(e.r, a) && 0 <= x < |e.r.zone| && a - OldHeader(e.r, a) <= x < a + Length(e.r, a) {
      var copy, b := NursedChunk(e, a);
      if copy {
        NurseryCopy(e, b);
        NursedCopy(e, b);
        NurseryZoneOf(e, b, x - a);
      } else {
        KeptChunk(e, a);
        KeptWord(e, a, x);
      }
    }
  }

  lemma NursedArea(e: Nursed, i: int, x: int)
    requires Nursing(e)
    ensures AreaOk(e.r, i, x) && AreaLabelOk(e.r, i, x)
  {
    if 0 <= i < |e.r.sibs| {
      NursedSib(e, i);
      assert AreaLabelOk(e.w, i, x) && AreaOk(e.f, i, x) && NursedZoneAt(e, x);
      assert x in e.c.org ==> OriginOk(e.f, Free(e.sibs), e.c.fwd, x, e.c.org[x]);
    }
  }

  // ------------------------------------------------------------------ references

  /** What the lemmas about references need besides. */
  ghost predicate NursedReferences(e: Nursed, lists: seq<seq<nat>>, lo: nat, hi: nat) {
    && Nursing(e) && (forall a {:trigger WorkHome(e.w, lo, hi, a)} :: WorkHome(e.w, lo, hi, a)) &&
        HugeListsOk(e.w.huge, lists, 0, e.w.k)
    && (forall x {:trigger CodeLives(e.w, x)} :: CodeLives(e.w, x)) &&
        (forall v: nat {:trigger NurseryLabel(e.w, v)} :: NurseryLabel(e.w, v))
    && (forall x {:trigger OrderedWord(e.w, x)} :: OrderedWord(e.w, x))
  }

  /** A reference afterwards leads to a chunk of an agegroup, to live code, or out of the heap; one that was
      not to the nursery leads where it led. */
  ghost predicate NursedLanded(e: Nursed, v: nat, v1: nat) {
    && (AgeAt(e.r, v1) <= e.w.k ==>
          (if KindAt(e.r, v1) == CODE_KIND then Code(e.r, v1) &&
              LiveHuge(e.r.huge[HugeAt(e.r.b2s, e.r.quires, v1)]) else Chunk(e.r, v1))
          && 2 <= PointeePlace(e.r, v1))
    && PointeeAge(e.r, v1) >= 1 && (KindAt(e.r, v1) == CODE_KIND ==>
        Code(e.r, v1) && AgeAt(e.r, v1) <= PointeeAge(e.r, v1))
    && (KindAt(e.r, v1) == CODE_KIND ==> v1 == v && KindAt(e.w, v) == CODE_KIND)
    && (AgeAt(e.w, v) == 0 || (v1 == v && (AgeAt(e.w, v) <= e.w.k ==> PointeePlace(e.r, v) == PointeePlace(e.w, v))))
  }

  lemma NursedLands(e: Nursed, lists: seq<seq<nat>>, lo: nat, hi: nat, y: int, v: nat, v1: nat)
    requires NursedReferences(e, lists, lo, hi) && ScanWord(e.w, y) && e.w.mem[y] == Pointer(v) &&
        Relocated(e.f, e.c.fwd, Pointer(v), Pointer(v1))
    ensures NursedLanded(e, v, v1)
  {
    assert TargetOk(e.w, y) && LabelOk(e.w, y) && CodeLives(e.w, y) && NurseryLabel(e.w, v) && NurseryLabel(e.w, v1);
    MinorChunk(e.w, v);
    if Chunk(e.f, v) {
      hide Nursing;
      SizesOfNursed(e);
      NursedCopy(e, v);
      CopyAtHome(e, v);
    } else if Chunk(e.w, v) && AgeAt(e.w, v) <= e.w.k {
      SizesOfNursed(e);
      KeptAtHome(e, lo, hi, v);
      KeptChunk(e, v);
    } else if KindAt(e.w, v) == CODE_KIND {
      SizesOfNursed(e);
      LiveAge(e.w.huge, lists, e.w.k, HugeAt(e.w.b2s, e.w.quires, v));
    } else {
      SizesOfNursed(e);
    }
  }

  /** Where a reference of the heap afterwards came from. */
  lemma NursedReference(e: Nursed, lists: seq<seq<nat>>, lo: nat, hi: nat, x: int) returns (y: int, v: nat)
    requires NursedReferences(e, lists, lo, hi) && ScanWord(e.r, x) && e.r.mem[x].Pointer?
    ensures 0 <= y < |e.w.mem| && e.w.mem[y] == Pointer(v) && ScanWord(e.w, y) && NursedLanded(e, v, e.r.mem[x].addr)
    ensures 0 <= x < |e.r.zone| == |e.f.zone| == |e.w.zone|
    ensures if e.f.zone[x].New? then NursedFromWord(e, x,
        y) else y == x && e.r.zone[x] == e.w.zone[x] && e.r.zone[x].Old? == e.w.zone[x].Old?
  {
    hide NursedReferences, NursedLanded, Live;
    NursedParts(e, lists, lo, hi);
    NursedZoneIs(e, x);
    if e.f.zone[x].New? {
      NewIsNotRoot(e, x);
      var a, j := NursedFrom(e, x);
      y := a + j;
      NurseryReference(e, a, j);
    } else {
      y := x;
      KeptReference(e, x);
    }
    v := e.w.mem[y].addr;
    NursedLands(e, lists, lo, hi, y, v, e.r.mem[x].addr);
  }

  lemma NursedParts(e: Nursed, lists: seq<seq<nat>>, lo: nat, hi: nat)
    requires NursedReferences(e, lists, lo, hi)
    ensures Nursing(e) && NursedSizes(e) && (forall a {:trigger WorkHome(e.w, lo, hi, a)} :: WorkHome(e.w, lo, hi, a))
  {
  }

  /** Word x is the copy of word y of a nursery chunk. */
  predicate NursedFromWord(e: Nursed, x: int, y: int) {
    0 <= y < |e.f.zone| && e.f.zone[y].Old? && e.f.zone[y].chunk in e.c.fwd && 0 <= x < |e.r.zone| &&
        e.r.zone[x] == Old(e.c.fwd[e.f.zone[y].chunk])
  }

  lemma NewIsNotRoot(e: Nursed, x: int)
    requires Nursing(e) && 0 <= x < |e.f.zone| && e.f.zone[x].New?
    ensures x !in e.w.ext
  {
    assert ZoneOk(e.f, x);
  }

  lemma NurseryReference(e: Nursed, a: int, j: int)
    requires Nursing(e) && a in e.c.fwd && InChunk(e.f, a, j) && 0 <= e.c.fwd[a] + j < |e.r.mem| &&
        ScanWord(e.r, e.c.fwd[a] + j) && e.r.mem[e.c.fwd[a] + j].Pointer?
    ensures var x, y := e.c.fwd[a] + j, a + j;
      0 <= y < |e.w.mem| && ScanWord(e.w, y) && e.w.mem[y].Pointer? &&
          Relocated(e.f, e.c.fwd, e.w.mem[y], e.r.mem[x]) && NursedFromWord(e, x, y)
  {
    NurseryZoneOf(e, a, j);
    NursedCopy(e, a);
    SlotOfCopy(e, a, j);
    MovedReference(e.f, Free(e.sibs), e.c.fwd, e.m, a, j);
    NurseryScan(e, a, j);
  }

  lemma SlotOfCopy(e: Nursed, a: int, j: int)
    requires Nursing(e) && a in e.c.fwd && a >= 0 && ScanWord(e.r, e.c.fwd[a] + j) && e.c.fwd[a] >= 0 &&
        Slot(e.r, e.c.fwd[a]) == Slot(e.f, a)
    requires 0 <= e.c.fwd[a] + j < |e.r.zone| && e.r.zone[e.c.fwd[a] + j] == Old(e.c.fwd[a])
    ensures Slot(e.f, a) != NONPTR_DATA_SIB
  {
  }

  lemma NurseryScan(e: Nursed, a: int, j: int)
    requires Nursing(e) && a in e.c.fwd && InChunk(e.f, a, j) && 0 <= a + j < |e.f.zone| && e.f.zone[a + j] == Old(a) &&
        Slot(e.f, a) != NONPTR_DATA_SIB
    ensures ScanWord(e.w, a + j)
  {
    MinorChunk(e.w, a);
    assert ScanWord(e.f, a + j);
    MinorScanWord(e.w, a + j);
  }

  lemma KeptReference(e: Nursed, x: int)
    requires Nursing(e) && ScanWord(e.r, x) && 0 <= x < |e.f.zone| && !e.f.zone[x].New? && e.r.mem[x].Pointer?
    ensures 0 <= x < |e.w.mem| && ScanWord(e.w, x) && e.w.mem[x].Pointer? &&
        Relocated(e.f, e.c.fwd, e.w.mem[x], e.r.mem[x]) && e.r.zone[x] == e.w.zone[x]
  {
    NursedZoneIs(e, x);
    if e.r.zone[x].Old? {
      var a := e.w.zone[x].chunk;
      KeptChunk(e, a);
      KeptWord(e, a, x);
    } else {
      assert x in e.w.ext && x in e.f.ext && ExtMoved(e.f, e.c.fwd, e.m, x);
    }
  }

  // ------------------------------------------------------------------ the heap is at rest

  lemma NursedTarget(e: Nursed, lists: seq<seq<nat>>, lo: nat, hi: nat, x: int)
    requires NursedReferences(e, lists, lo, hi)
    ensures TargetOk(e.r, x) && LabelOk(e.r, x) && CodeLives(e.r, x)
  {
    if ScanWord(e.r, x) && e.r.mem[x].Pointer? {
      var y, v := NursedReference(e, lists, lo, hi, x);
      assert CodeLives(e.w, y);
      NursedParts(e, lists, lo, hi);
    }
  }

  lemma NursedWeak(e: Nursed, lists: seq<seq<nat>>, lo: nat, hi: nat, a: int)
    requires NursedReferences(e, lists, lo, hi)
    ensures WeakTargetOk(e.r, a)
  {
    if a >= 0 && Chunk(e.r, a) && Weak(e.r, a) && a < |e.r.mem| && e.r.mem[a].Pointer? &&
        AgeAt(e.r, e.r.mem[a].addr) <= e.r.k {
      NursedParts(e, lists, lo, hi);
      hide NursedReferences, Nursing, Live;
      var y, v := NursedReference(e, lists, lo, hi, a);
      WeakNursed(e, a, y);
      WeakIsPlain(e, lists, lo, hi, a, y, v);
    }
  }

  /** A weakref afterwards was one before. */
  lemma WeakNursed(e: Nursed, a: nat, y: int)
    requires Nursing(e) && Chunk(e.r, a) && Weak(e.r, a) && |e.r.zone| == |e.f.zone| == |e.w.zone|
    requires if e.f.zone[a].New? then NursedFromWord(e, a, y) else y == a && e.r.zone[a] == e.w.zone[a]
    ensures 0 <= y < |e.w.zone| && e.w.zone[y].Old? && e.w.zone[y].chunk >= 0 && Chunk(e.w, e.w.zone[y].chunk) &&
        Weak(e.w, e.w.zone[y].chunk)
  {
    hide Nursing;
    SizesOfNursed(e);
    if e.f.zone[a].New? {
      var b := e.f.zone[y].chunk;
      NurseryCopy(e, b);
      NursedCopy(e, b);
      MinorChunkOf(e, b, y);
    } else {
      NursedZoneIs(e, a);
      KeptChunk(e, a);
    }
  }

  lemma MinorChunkOf(e: Nursed, b: nat, y: int)
    requires Nursing(e) && Chunk(e.f, b) && 0 <= y < |e.f.zone| && e.f.zone[y] == Old(b)
    ensures |e.w.zone| == |e.f.zone| && e.w.zone[y] == Old(b) && Weak(e.w, b) == Weak(e.f, b) &&
        Slot(e.w, b) == Slot(e.f, b)
  {
    MinorChunk(e.w, b);
  }

  lemma WeakIsPlain(e: Nursed, lists: seq<seq<nat>>, lo: nat, hi: nat, x: nat, y: int, v: nat)
    requires NursedReferences(e, lists, lo, hi) && 0 <= y < |e.w.mem| == |e.w.zone| && e.w.mem[y] == Pointer(v) &&
        x < |e.r.mem| && e.r.mem[x].Pointer?
    requires e.w.zone[y].Old? && e.w.zone[y].chunk >= 0 && Chunk(e.w, e.w.zone[y].chunk) &&
        Weak(e.w, e.w.zone[y].chunk) && ScanWord(e.w, y)
    requires NursedLanded(e, v, e.r.mem[x].addr) && AgeAt(e.r, e.r.mem[x].addr) <= e.w.k
    ensures Chunk(e.r, e.r.mem[x].addr)
  {
    var b := e.w.zone[y].chunk;
    assert ZoneOk(e.w, y) && ChunkOk(e.w, b) && WeakTargetOk(e.w, b);
    NursedParts(e, lists, lo, hi);
    if AgeAt(e.w, v) <= e.w.k {
      assert ChunkOk(e.w, v) && WorkHome(e.w, lo, hi, v);
    }
  }

  lemma NursedOrdered(e: Nursed, lists: seq<seq<nat>>, lo: nat, hi: nat, x: int)
    requires NursedReferences(e, lists, lo, hi)
    ensures OrderedWord(e.r, x)
  {
    if 0 <= x < |e.r.mem| && |e.r.zone| == |e.r.mem| && e.r.zone[x].Old? && Immutable(e.r, e.r.zone[x].chunk) &&
        e.r.mem[x].Pointer? && AgeAt(e.r, e.r.mem[x].addr) <= e.r.k {
      NursedParts(e, lists, lo, hi);
      hide NursedReferences, Nursing, Live;
      WeakIsRw(e.r, e.r.zone[x].chunk);
      NursedZoneIs(e, x);
      var y, v := NursedReference(e, lists, lo, hi, x);
      if e.f.zone[x].New? {
        CopyAtHome(e, e.f.zone[y].chunk);
      } else {
        KeptOrder(e, lists, lo, hi, x, v);
      }
    }
  }

  lemma KeptOrder(e: Nursed, lists: seq<seq<nat>>, lo: nat, hi: nat, x: int, v: nat)
    requires NursedReferences(e, lists, lo, hi) && 0 <= x < |e.w.zone| == |e.w.mem| == |e.r.mem| && e.w.zone[x].Old? &&
        e.w.zone[x].chunk >= 0
    requires Chunk(e.w, e.w.zone[x].chunk) && AgeAt(e.w, e.w.zone[x].chunk) > 0 && Immutable(e.r, e.w.zone[x].chunk) &&
        e.w.mem[x] == Pointer(v)
    requires e.r.mem[x].Pointer? && NursedLanded(e, v, e.r.mem[x].addr) && AgeAt(e.r, e.r.mem[x].addr) <= e.w.k
    ensures ChunkPlace(e.r, e.w.zone[x].chunk) <= PointeePlace(e.r, e.r.mem[x].addr)
  {
    var a := e.w.zone[x].chunk;
    KeptChunk(e, a);
    assert OrderedWord(e.w, x) && WorkHome(e.w, lo, hi, a) && NurseryLabel(e.w, v);
    KeptAtHome(e, lo, hi, a);
    NursedParts(e, lists, lo, hi);
    NurseryPlace(e.w, v);
  }

  lemma NursedCovered(e: Nursed, lists: seq<seq<nat>>, lo: nat, hi: nat, i: int, x: int)
    requires NursedReferences(e, lists, lo, hi) && LogLeft(e.f, e.m, e.cards, []) && |e.cards| == |e.w.cards| &&
        4 * |e.w.cards| == |e.w.sibs|
    requires (forall j, y {:trigger UsedOk(e.r, j, y)} :: UsedOk(e.r, j, y))
    ensures CardCovers(e.r, i, x)
  {
    if 0 <= i < |e.r.sibs| && i % 4 == RW_POINTERS_SIB && e.r.sibs[i].start <= x < e.r.sibs[i].firstFree &&
        x < |e.r.mem| && e.r.mem[x].Pointer? {
      NursedParts(e, lists, lo, hi);
      NursedSib(e, i);
      if x < e.w.sibs[i].firstFree {
        assert OldCovered(e.f, e.m, e.cards, [], i, x) && UncleanedWord(e.f, i, x);
      } else {
        assert UsedOk(e.r, i, x);
        NursedUsedScan(e, lists, lo, hi, i, x);
        var y, v := NursedReference(e, lists, lo, hi, x);
      }
    }
  }

  /** A word in use in a pointer sib is scanned. */
  lemma NursedUsedScan(e: Nursed, lists: seq<seq<nat>>, lo: nat, hi: nat, i: nat, x: int)
    requires NursedReferences(e, lists, lo, hi) && i < |e.r.sibs| && i % 4 != NONPTR_DATA_SIB &&
        e.r.sibs[i].start <= x < e.r.sibs[i].firstFree
    requires 0 <= x < |e.r.zone| && e.r.zone[x].Old?
    ensures ScanWord(e.r, x)
  {
    NursedParts(e, lists, lo, hi);
    hide NursedReferences, Nursing, Live;
    NursedColour(e, x);
    var t := e.r.zone[x].chunk;
    NursedChunkOk(e, lo, hi, t);
    var h := SibIndex(AgeAt(e.r, t), KindAt(e.r, t));
    NursedSib(e, i);
    NursedSib(e, h);
    NursedArea(e, i, x);
    NursedArea(e, h, x);
    assert AreaLabelOk(e.r, i, x) && AreaLabelOk(e.r, h, x);
  }

  lemma NursedUsed(e: Nursed, i: int, x: int)
    requires Nursing(e)
    requires 0 <= i < |e.w.sibs| && i % 4 != NONPTR_DATA_SIB && e.w.sibs[i].start <= x < e.w.sibs[i].firstFree ==>
      0 <= x < |e.w.zone| && e.w.zone[x].Old? && e.w.zone[x].chunk >= 0 && AgeAt(e.w, e.w.zone[x].chunk) > 0
    ensures UsedOk(e.r, i, x)
  {
    if 0 <= i < |e.r.sibs| && i % 4 != NONPTR_DATA_SIB && e.r.sibs[i].start <= x < e.r.sibs[i].firstFree {
      NursedSib(e, i);
      assert NursedZoneAt(e, x) && ZoneOk(e.w, x);
      if e.w.sibs[i].firstFree <= x {
        assert CoverOk(e.f, Free(e.sibs), e.c.org, i, x) && AreaOk(e.f, i, x);
        var a, j := NursedFrom(e, x);
        NurseryZoneOf(e, a, j);
      }
    }
  }

  ghost function NursedOf(w: Flip, m: seq<Word>, sibs: seq<Sib>, c: Copy, cards: seq<CardMap>): Nursed {
    Nursed(w, MinorOf(w), NursedHeap(w, m, sibs, c, cards), m, sibs, c, cards)
  }

  lemma NursingHolds(w: Flip, roots: seq<nat>, log: seq<nat>, lists: seq<seq<nat>>, quireList: seq<nat>, lo: nat,
      hi: nat,
                     m: seq<Word>, sibs: seq<Sib>, c: Copy, cards: seq<CardMap>)
    requires AtWork(w, roots, log, lists, quireList, lo, hi) && MinorReady(MinorOf(w), roots, log) &&
        MinorCleanedState(MinorOf(w), m, sibs, c, cards)
    ensures NursedReferences(NursedOf(w, m, sibs, c, cards), lists, lo, hi)
  {
    var e := NursedOf(w, m, sibs, c, cards);
    ExtIsFixed(w, roots, log, lists, quireList, lo, hi);
    assert IsNursed(e);
    assert Nursing(e);
  }

  lemma NursedCardReady(e: Nursed, lists: seq<seq<nat>>, lo: nat, hi: nat)
    requires NursedReferences(e, lists, lo, hi) && CardReady(e.f, e.cards) && |e.cards| == |e.w.cards|
    ensures CardReady(e.r, e.r.cards)
  {
    NursedParts(e, lists, lo, hi);
    forall i, x ensures AreaLabelOk(e.r, i, x) { NursedArea(e, i, x); }
    forall x ensures LabelOk(e.r, x) { NursedTarget(e, lists, lo, hi, x); }
    forall i ensures MapOk(e.r, e.r.cards, i) {
      if 0 <= i < |e.r.sibs| { NursedSib(e, i); }
      assert MapOk(e.f, e.cards, i);
    }
    forall a ensures DestOk(e.r, a) {
      if a >= 0 && Chunk(e.r, a) { NursedChunkOk(e, lo, hi, a); }
    }
  }

  lemma NursedWellFormed(e: Nursed, lists: seq<seq<nat>>, lo: nat, hi: nat)
    requires NursedReferences(e, lists, lo, hi)
    ensures WellFormed(e.r)
  {
    NursedParts(e, lists, lo, hi);
    hide NursedReferences, Nursing, NursedLanded, Live;
    forall x ensures ZoneOk(e.r, x) { NursedColour(e, x); }
    forall a: nat | Chunk(e.r, a) ensures ChunkOk(e.r, a) { NursedChunkOk(e, lo, hi, a); }
    forall a, x ensures ExtentOk(e.r, a, x) { NursedExtent(e, a, x); }
    forall i | 0 <= i < |e.r.sibs| ensures SibOk(e.r, i) { NursedSib(e, i); }
    forall i, x ensures AreaOk(e.r, i, x) { NursedArea(e, i, x); }
    forall x ensures TargetOk(e.r, x) { NursedTarget(e, lists, lo, hi, x); }
    forall a ensures WeakTargetOk(e.r, a) { NursedWeak(e, lists, lo, hi, a); }
  }

  lemma NursedRoots(e: Nursed, roots: seq<nat>)
    requires Nursing(e) && RootsOk(e.w, {}, roots) && (forall x: nat {:trigger x in roots} ::
        x in roots ==> x in e.w.ext)
    ensures RootsOk(e.r, {}, roots)
  {
    forall j | 0 <= j < |roots| ensures RootOk(e.r, roots[j]) {
      assert roots[j] in roots && RootOk(e.w, roots[j]) && NursedZoneAt(e, roots[j]);
      forall i ensures !InBuffer(e.r, i, roots[j]) {
        assert !InBuffer(e.w, i, roots[j]);
        if 0 <= i < |e.r.sibs| { NursedSib(e, i); }
      }
    }
  }

  /** A minor clean of a heap at work leaves a heap at rest. */
  lemma MinorCleanRests(w: Flip, roots: seq<nat>, log: seq<nat>, lists: seq<seq<nat>>, quireList: seq<nat>, lo: nat,
      hi: nat,
                        m: seq<Word>, sibs: seq<Sib>, c: Copy, cards: seq<CardMap>)
    requires AtWork(w, roots, log, lists, quireList, lo, hi) && MinorReady(MinorOf(w), roots, log) &&
        MinorCleanedState(MinorOf(w), m, sibs, c, cards)
    ensures AtRest(NursedHeap(w, m, sibs, c, cards), roots, lists, quireList)
  {
    var e := NursedOf(w, m, sibs, c, cards);
    NursingHolds(w, roots, log, lists, quireList, lo, hi, m, sibs, c, cards);
    NursedParts(e, lists, lo, hi);
    forall i, x ensures UsedOk(e.r, i, x) {
      if 0 <= i < |w.sibs| && i % 4 != NONPTR_DATA_SIB &&
          w.sibs[i].start <= x < w.sibs[i].firstFree { WorkWord(w, roots, log, lists, quireList, lo, hi, i, x); }
      NursedUsed(e, i, x);
    }
    NursedRoots(e, roots);
    forall i ensures SweepStart(e.r, i) { assert SweepDone(sibs, i); }
    NursedRests(e, lists, lo, hi, roots, quireList);
  }

  lemma NursedRests(e: Nursed, lists: seq<seq<nat>>, lo: nat, hi: nat, roots: seq<nat>, quireList: seq<nat>)
    requires NursedReferences(e, lists, lo, hi) && LogLeft(e.f, e.m, e.cards, []) && |e.cards| == |e.w.cards| &&
        4 * |e.w.cards| == |e.w.sibs|
    requires CardReady(e.f, e.cards) && RootsOk(e.r, {}, roots) && e.w.ext == (set x | x in roots :: x as int) &&
        e.w.k <= MAX_AGEGROUPS
    requires (forall i, x {:trigger UsedOk(e.r, i, x)} :: UsedOk(e.r, i, x)) &&
        (forall i {:trigger SweepStart(e.r, i)} :: SweepStart(e.r, i))
    requires |e.w.mem| <= |e.w.b2s| * BOOK && (forall b: nat {:trigger RecordIsCode(e.w.b2s, b)} ::
        RecordIsCode(e.w.b2s, b))
    requires QuiresOk(e.w.b2s, e.w.quires, e.w.huge, quireList) && NoRepeats(quireList)
    ensures AtRest(e.r, roots, lists, quireList)
  {
    NursedParts(e, lists, lo, hi);
    NursedWellFormed(e, lists, lo, hi);
    NursedCardReady(e, lists, lo, hi);
    HugeListsKept(e, lists, lo, hi);
    hide NursedReferences, Nursing, NursedLanded, Live, CardReady, WellFormed, HugeListsOk, QuiresOk;
    forall a: nat | Chunk(e.r, a) ensures AgeAt(e.r, a) >= 1 { NursedChunkOk(e, lo, hi, a); }
    forall a ensures HomeOk(e.r, a) {
      if a >= 0 && Chunk(e.r, a) { NursedChunkOk(e, lo, hi, a); }
    }
    forall i ensures SibRests(e.r, i) {
      if 0 <= i < |e.r.sibs| { NursedSib(e, i); }
    }
    forall i, x ensures CardCovers(e.r, i, x) { NursedCovered(e, lists, lo, hi, i, x); }
    forall x ensures OrderedWord(e.r, x) { NursedOrdered(e, lists, lo, hi, x); }
    forall x ensures CodeLives(e.r, x) { NursedTarget(e, lists, lo, hi, x); }
  }

  lemma HugeListsKept(e: Nursed, lists: seq<seq<nat>>, lo: nat, hi: nat)
    requires NursedReferences(e, lists, lo, hi)
    ensures HugeListsOk(e.r.huge, lists, 0, e.r.k)
  {
  }
}
