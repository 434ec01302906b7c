/** What the program does to the heap between cleans, and that it keeps the heap at work: new chunks in the
    nursery, logged stores, new root values, and large vectors allocated directly in agegroup1
    (src/c/h/make-strings-and-vectors-etc.h, src/c/heapcleaner/make-strings-and-vectors-etc.c). */
module Mutator {
  import opened HeapTags
  import opened HeapModel
  import opened Forwarding
  import opened HeapObject
  import opened MajorCards
  import opened MajorRoots
  import opened MajorClean
  import opened MajorSizing
  import opened MajorHuge
  import opened HeapWorld
  import opened MajorSetup
  import opened MinorForward
  import opened MinorClean
  import opened MinorRest
  import opened NurseryLabels

  /** A value the program can have: no pointer at all, or one to a chunk, to live code or out of the heap. */
  predicate Held(w: Flip, v: Word) {
    v.Pointer? ==> Target(w, v) && (KindAt(w, v.addr) == CODE_KIND ==>
      Code(w, v.addr) && AgeAt(w, v.addr) <= PointeeAge(w, v.addr) && LiveHuge(w.huge[HugeAt(w.b2s, w.quires, v.addr)]))
  }

  /** Whatever is found in a root or in a chunk, and every chunk, can be had. */
  lemma FoundIsHeld(w: Flip, roots: seq<nat>, log: seq<nat>, lists: seq<seq<nat>>, quireList: seq<nat>, lo: nat,
      hi: nat, y: int)
    requires AtWork(w, roots, log, lists, quireList, lo, hi) && ScanWord(w, y)
    ensures Held(w, w.mem[y])
  {
    assert TargetOk(w, y) && LabelOk(w, y) && CodeLives(w, y);
  }

  lemma ChunkIsHeld(w: Flip, a: nat)
    requires WellFormed(w) && Chunk(w, a)
    ensures Held(w, Pointer(a))
  {
    assert ChunkOk(w, a);
  }

  /** What is found in a word can be had. */
  predicate HeldThere(w: Flip, x: int) { ScanWord(w, x) ==> Held(w, w.mem[x]) }

  // ------------------------------------------------------------------ adding a chunk

  /** The heap with a chunk written at p: its tagword, then its values.  i is the sib it lies in, or -1 for
      the nursery. */
  ghost function AddChunk(w: Flip, i: int, p: nat, tag: Word, values: seq<Word>): Flip
    requires p + 1 + |values| <= |w.mem| == |w.zone|
  {
    var q := p + 1 + |values|;
    w.(mem := w.mem[..p] + [tag] + values + w.mem[q..],
       zone := w.zone[..p] + seq(q - p, _ => Old(p + 1)) + w.zone[q..],
       sibs := if 0 <= i < |w.sibs| then w.sibs[i := w.sibs[i].(firstFree := q, sweptEnd := q)] else w.sibs)
  }

  /** Word x of the heap with the new chunk. */
  predicate Added(w: Flip, r: Flip, p: nat, tag: Word, values: seq<Word>, x: int) {
    0 <= x < |r.mem| && |r.mem| == |r.zone| == |w.mem| == |w.zone| ==>
      if x == p then r.mem[x] == tag && r.zone[x] == Old(p + 1)
      else if p < x < p + 1 + |values| then r.mem[x] == values[x - p - 1] && r.zone[x] == Old(p + 1)
      else r.mem[x] == w.mem[x] && r.zone[x] == w.zone[x]
  }

  /** p is the free end of the nursery or of a sib of agegroup1, and there is room. */
  ghost predicate Fits(w: Flip, lo: nat, hi: nat, end: nat, i: int, p: nat, n: nat) {
    if i == -1 then p == hi && p + 1 + n <= end
    else 0 <= i < 4 && i < |w.sibs| && Active(w.sibs[i]) && p == w.sibs[i].firstFree && p + 1 + n <= w.sibs[i].limit
  }

  /** The new chunk makes sense: its tagword suits the place, its values can be had, a pair holds values and
      a weakref refers to a chunk.  A chunk in agegroup1 refers to nothing in the nursery. */
  ghost predicate GoodChunk(w: Flip, i: int, tag: Word, values: seq<Word>) {
    && -1 <= i && GoodTag(if i == -1 then NEW_KIND else i + 1, tag) && |values| == ContentLength(tag) >= 1
    && i != RO_CONSCELL_SIB && (i >= 0 ==> tag.btag != WEAK_OR_SUSPENSION)
    && (i == -1 && PairRecord(tag) ==> !values[0].Tagword?)
    && (tag == WEAKREF_TAGWORD && values[0].Pointer? && AgeAt(w, values[0].addr) <= w.k ==> Chunk(w, values[0].addr))
    && ((if i == -1 then SlotForTag(tag) else i) != NONPTR_DATA_SIB ==> forall j {:trigger values[j]} ::
        0 <= j < |values| ==> GoodValue(w, i, values[j]))
  }

  ghost predicate GoodValue(w: Flip, i: int, v: Word) { Held(w, v) &&
      (i >= 0 && v.Pointer? ==> 2 <= PointeePlace(w, v.addr)) }

  /** One such step: w became r. */
  datatype Growth = Growth(w: Flip, r: Flip, i: int, p: nat, tag: Word, values: seq<Word>, lo: nat, hi: nat, end: nat)

  ghost predicate Grows(g: Growth) {
    && |g.r.mem| == |g.r.zone| == |g.w.mem| == |g.w.zone| &&
        (forall x {:trigger Added(g.w, g.r, g.p, g.tag, g.values, x)} :: Added(g.w, g.r, g.p, g.tag, g.values, x))
    && g.r.b2s == g.w.b2s && g.r.ext == g.w.ext && g.r.quires == g.w.quires && g.r.huge == g.w.huge &&
        g.r.cards == g.w.cards && g.r.k == g.w.k
    && |g.r.sibs| == |g.w.sibs| == 4 * g.w.k && 1 <= g.w.k
    && (forall j {:trigger g.r.sibs[j]} :: 0 <= j < |g.r.sibs| ==>
          g.r.sibs[j] == if j == g.i then g.w.sibs[j].(firstFree := g.p + 1 + |g.values|,
              sweptEnd := g.p + 1 + |g.values|) else g.w.sibs[j])
    && Fits(g.w, g.lo, g.hi, g.end, g.i, g.p, |g.values|) && GoodChunk(g.w, g.i, g.tag, g.values)
    && WellFormed(g.w) && CardReady(g.w, g.w.cards) && Nursery(g.w, g.lo, g.hi, g.end) &&
        (forall j {:trigger SibRests(g.w, j)} :: SibRests(g.w, j))
    && (forall x {:trigger HeldThere(g.w, x)} :: HeldThere(g.w, x))
  }

  predicate InNew(g: Growth, x: int) { g.p <= x < g.p + 1 + |g.values| }

  /** A word of the new chunk was free. */
  lemma WasFree(g: Growth, x: int)
    requires Grows(g) && InNew(g, x)
    ensures 0 <= x < |g.w.zone| && !g.w.zone[x].Old? && (g.w.zone[x].Fixed? ==> x !in g.w.ext) && !ScanWord(g.w, x)
    ensures AgeAt(g.w, x) == (if g.i == -1 then 0 else 1) && KindAt(g.w, x) == if g.i == -1 then NEW_KIND else g.i + 1
    ensures g.r.zone[x] == Old(g.p + 1) && g.r.mem[x] == if x == g.p then g.tag else g.values[x - g.p - 1]
  {
    assert Added(g.w, g.r, g.p, g.tag, g.values, x);
    if g.i == -1 {
      assert IdleWord(g.w, g.lo, g.hi, g.end, x) && NurseryWord(g.w, g.lo, g.end, x) && NurseryLabel(g.w, x);
    } else {
      assert AreaOk(g.w, g.i, x) && SibOk(g.w, g.i) && AreaLabelOk(g.w, g.i, x);
    }
  }

  lemma SameElsewhere(g: Growth, x: int)
    requires Grows(g) && 0 <= x < |g.w.mem| && !InNew(g, x)
    ensures g.r.mem[x] == g.w.mem[x] && g.r.zone[x] == g.w.zone[x]
  {
    assert Added(g.w, g.r, g.p, g.tag, g.values, x);
  }

  /** The new chunk. */
  lemma NewChunk(g: Growth)
    requires Grows(g)
    ensures var a := g.p + 1;
      && 0 < a < |g.r.zone| && Chunk(g.r, a) && ChunkOk(g.r, a) && OldHeader(g.r, a) == 1 &&
          Length(g.r, a) == |g.values| >= 1
      && TagOf(g.r, a) == g.tag && Slot(g.r, a) == (if g.i == -1 then SlotForTag(g.tag) else g.i) &&
          AgeAt(g.r, a) == (if g.i == -1 then 0 else 1)
      && KindAt(g.r, a) == (if g.i == -1 then NEW_KIND else g.i + 1) && Dest(g.r, a) == Slot(g.r, a)
  {
    WasFree(g, g.p);
    WasFree(g, g.p + 1);
    SlotsAreFour(g.tag);
    if g.i >= 0 { assert SibOk(g.w, g.i) && SibRests(g.w, g.i); }
  }

  /** A chunk that was there keeps its place and its shape. */
  lemma OldChunk(g: Growth, a: nat)
    requires Grows(g) && Chunk(g.w, a)
    ensures Chunk(g.r, a) && a != g.p + 1 && ChunkOk(g.w, a) && ChunkOk(g.r, a) && AgeAt(g.r, a) == AgeAt(g.w, a) &&
        KindAt(g.r, a) == KindAt(g.w, a)
    ensures OldHeader(g.r, a) == OldHeader(g.w, a) && Length(g.r, a) == Length(g.w, a) &&
        Slot(g.r, a) == Slot(g.w, a) && Weak(g.r, a) == Weak(g.w, a)
    ensures Dest(g.r, a) == Dest(g.w, a) && a < |g.r.mem| && g.r.mem[a] == g.w.mem[a]
    ensures KindAt(g.w, a) != RO_CONSCELL_KIND ==> TagOf(g.r, a) == TagOf(g.w, a)
  {
    assert ChunkOk(g.w, a) && ExtentOk(g.w, a, a);
    if InNew(g, a) { WasFree(g, a); }
    SameElsewhere(g, a);
    if OldHeader(g.w, a) == 1 {
      assert ExtentOk(g.w, a, a - 1);
      if InNew(g, a - 1) { WasFree(g, a - 1); }
      SameElsewhere(g, a - 1);
    }
    SameShape(g, a);
  }

  lemma SameShape(g: Growth, a: nat)
    requires Grows(g) && Chunk(g.w, a) && ChunkOk(g.w, a) && a < |g.w.mem| && g.r.mem[a] == g.w.mem[a] &&
        g.r.zone[a] == g.w.zone[a]
    requires OldHeader(g.w, a) == 1 ==> 0 < a && g.r.mem[a - 1] == g.w.mem[a - 1]
    ensures ChunkOk(g.r, a) && OldHeader(g.r, a) == OldHeader(g.w, a) && Length(g.r, a) == Length(g.w, a) &&
        Slot(g.r, a) == Slot(g.w, a)
    ensures Weak(g.r, a) == Weak(g.w, a) && Dest(g.r, a) == Dest(g.w, a)
  {
    var h := SibIndex(AgeAt(g.w, a), KindAt(g.w, a));
    assert 0 <= h < |g.r.sibs| ==>
      g.r.sibs[h].seniorEnd == g.w.sibs[h].seniorEnd && g.r.sibs[h].promoted == g.w.sibs[h].promoted;
  }

  lemma ChunksAfter(g: Growth, a: int)
    requires Grows(g) && Chunk(g.r, a) && a != g.p + 1
    ensures Chunk(g.w, a)
  {
    if InNew(g, a) { WasFree(g, a); }
    SameElsewhere(g, a);
  }

  // ------------------------------------------------------------------ references

  lemma SamePlaces(g: Growth, v: nat)
    requires Grows(g)
    ensures PointeePlace(g.r, v) == PointeePlace(g.w, v) && PointeeAge(g.r, v) == PointeeAge(g.w, v) &&
        Code(g.r, v) == Code(g.w, v)
    ensures AgeAt(g.r, v) == AgeAt(g.w, v) && KindAt(g.r, v) == KindAt(g.w, v) && (Chunk(g.w, v) ==> Chunk(g.r, v))
    ensures g.r.k == g.w.k && g.r.quires == g.w.quires && g.r.b2s == g.w.b2s && g.r.huge == g.w.huge &&
        ChunkPlace(g.r, v) == ChunkPlace(g.w, v)
  {
    if Chunk(g.w, v) { OldChunk(g, v); }
    var h := SibIndex(AgeAt(g.w, v), KindAt(g.w, v));
    assert 0 <= h < |g.r.sibs| ==> g.r.sibs[h].seniorEnd == g.w.sibs[h].seniorEnd;
  }

  /** A reference in the new heap could be had in the old. */
  lemma ReferenceBefore(g: Growth, x: int)
    requires Grows(g) && ScanWord(g.r, x) && g.r.mem[x].Pointer?
    ensures Held(g.w, g.r.mem[x])
    ensures if InNew(g, x) then g.r.zone[x] == Old(g.p + 1) && (g.i >= 0 ==> 2 <= PointeePlace(g.w, g.r.mem[x].addr))
            else ScanWord(g.w, x) && g.r.mem[x] == g.w.mem[x] && g.r.zone[x] == g.w.zone[x]
  {
    if InNew(g, x) {
      WasFree(g, x);
      NewChunk(g);
      assert GoodValue(g.w, g.i, g.values[x - g.p - 1]);
    } else {
      SameElsewhere(g, x);
      if g.w.zone[x].Old? {
        assert ZoneOk(g.w, x);
        OldChunk(g, g.w.zone[x].chunk);
      }
      assert HeldThere(g.w, x);
    }
  }

  lemma GrownTarget(g: Growth, x: int)
    requires Grows(g)
    ensures TargetOk(g.r, x) && LabelOk(g.r, x) && CodeLives(g.r, x)
  {
    if ScanWord(g.r, x) && g.r.mem[x].Pointer? {
      ReferenceBefore(g, x);
      SamePlaces(g, g.r.mem[x].addr);
    }
  }

  lemma GrownWeak(g: Growth, a: int)
    requires Grows(g)
    ensures WeakTargetOk(g.r, a)
  {
    if a >= 0 && Chunk(g.r, a) && Weak(g.r, a) && a < |g.r.mem| && g.r.mem[a].Pointer? {
      SamePlaces(g, g.r.mem[a].addr);
      NewChunk(g);
      if a == g.p + 1 {
        WasFree(g, a);
      } else {
        ChunksAfter(g, a);
        OldChunk(g, a);
        assert WeakTargetOk(g.w, a);
      }
    }
  }

  lemma GrownZone(g: Growth, a: int, x: int)
    requires Grows(g)
    ensures ZoneOk(g.r, x) && ExtentOk(g.r, a, x)
  {
    NewChunk(g);
    if 0 <= x < |g.r.zone| {
      if InNew(g, x) { WasFree(g, x); } else { SameElsewhere(g, x); }
      assert ZoneOk(g.w, x);
      if g.w.zone[x].Old? { OldChunk(g, g.w.zone[x].chunk); }
      if Chunk(g.r, a) && a != g.p + 1 {
        ChunksAfter(g, a);
        OldChunk(g, a);
        assert ExtentOk(g.w, a, x);
      }
      if g.w.zone[x].New? && !InNew(g, x) { FreeShrinks(g, g.w.zone[x].sib, x); }
    }
  }

  /** A free word outside the new chunk is still free. */
  lemma FreeShrinks(g: Growth, i: int, x: int)
    requires Grows(g) && 0 <= i < |g.w.sibs| && g.w.sibs[i].firstFree <= x < g.w.sibs[i].limit && !InNew(g, x)
    ensures i < |g.r.sibs| && g.r.sibs[i].firstFree <= x < g.r.sibs[i].limit
  {
  }

  lemma GrownSib(g: Growth, i: nat)
    requires Grows(g) && i < |g.r.sibs|
    ensures SibOk(g.r, i) && SibRests(g.r, i)
  {
    assert SibOk(g.w, i) && SibRests(g.w, i);
  }

  lemma GrownArea(g: Growth, i: int, x: int)
    requires Grows(g)
    ensures AreaOk(g.r, i, x) && AreaLabelOk(g.r, i, x)
  {
    assert AreaOk(g.w, i, x) && AreaLabelOk(g.w, i, x);
    if 0 <= i < |g.r.sibs| && g.r.sibs[i].firstFree <= x < g.r.sibs[i].limit && x < |g.r.zone| {
      assert SibOk(g.w, i);
      assert g.w.sibs[i].firstFree <= g.r.sibs[i].firstFree;
      if InNew(g, x) { WasFree(g, x); } else { SameElsewhere(g, x); }
      NewElsewhere(g, i, x);
    }
  }

  lemma NewElsewhere(g: Growth, i: int, x: int)
    requires Grows(g) && 0 <= i < |g.r.sibs| && g.r.sibs[i].firstFree <= x < g.r.sibs[i].limit && 0 <= x < |g.w.zone|
    ensures !InNew(g, x)
  {
    assert AreaOk(g.w, i, x) && AreaLabelOk(g.w, i, x) && SibOk(g.w, i);
    if InNew(g, x) && i != g.i { WasFree(g, x); }
  }

  lemma GrownWellFormed(g: Growth)
    requires Grows(g)
    ensures WellFormed(g.r) && CardReady(g.r, g.r.cards)
  {
    hide Grows;
    GrownFields(g);
    forall x ensures ZoneOk(g.r, x) { GrownZone(g, 0, x); }
    forall a: nat | Chunk(g.r, a) ensures ChunkOk(g.r, a) { GrownChunk(g, a); }
    forall a, x ensures ExtentOk(g.r, a, x) { GrownZone(g, a, x); }
    forall i | 0 <= i < |g.r.sibs| ensures SibOk(g.r, i) { GrownSib(g, i); }
    forall i, x ensures AreaOk(g.r, i, x) { GrownArea(g, i, x); }
    forall x ensures TargetOk(g.r, x) { GrownTarget(g, x); }
    forall a ensures WeakTargetOk(g.r, a) { GrownWeak(g, a); }
    forall i, x ensures AreaLabelOk(g.r, i, x) { GrownArea(g, i, x); }
    forall x ensures LabelOk(g.r, x) { GrownTarget(g, x); }
    forall i ensures MapOk(g.r, g.r.cards, i) { GrownMap(g, i); }
    forall a ensures DestOk(g.r, a) { if a >= 0 && Chunk(g.r, a) { GrownChunk(g, a); } }
  }

  lemma GrownFields(g: Growth)
    requires Grows(g)
    ensures |g.r.mem| == |g.r.zone|
  {
  }

  lemma GrownMap(g: Growth, i: int)
    requires Grows(g)
    ensures MapOk(g.r, g.r.cards, i)
  {
    assert MapOk(g.w, g.w.cards, i);
  }

  lemma GrownChunk(g: Growth, a: nat)
    requires Grows(g) && Chunk(g.r, a)
    ensures ChunkOk(g.r, a) && DestOk(g.r, a)
  {
    if a == g.p + 1 {
      NewChunk(g);
    } else {
      ChunksAfter(g, a);
      OldChunk(g, a);
      assert DestOk(g.w, a);
    }
  }

  // ------------------------------------------------------------------ still at work

  function HiAfter(g: Growth): nat
    requires g.hi <= g.p + 1 + |g.values| || g.i != -1
  {
    if g.i == -1 then g.p + 1 + |g.values| else g.hi
  }

  lemma GrownHome(g: Growth, a: int)
    requires Grows(g) && (forall b {:trigger WorkHome(g.w, g.lo, g.hi, b)} :: WorkHome(g.w, g.lo, g.hi, b)) &&
        (forall b {:trigger PairValue(g.w, b)} :: PairValue(g.w, b))
    ensures WorkHome(g.r, g.lo, HiAfter(g), a) && PairValue(g.r, a)
  {
    if a >= 0 && Chunk(g.r, a) {
      NewChunk(g);
      if a == g.p + 1 {
        WasFree(g, a);
        if g.i >= 0 { assert SibOk(g.w, g.i) && SibRests(g.w, g.i); }
      } else {
        ChunksAfter(g, a);
        OldChunk(g, a);
        assert WorkHome(g.w, g.lo, g.hi, a) && PairValue(g.w, a);
        if AgeAt(g.w, a) != 0 { KeptHome(g, a); }
      }
    }
  }

  lemma KeptHome(g: Growth, a: nat)
    requires Grows(g) && Chunk(g.w, a) && Chunk(g.r, a) && AgeAt(g.r, a) == AgeAt(g.w, a) &&
        KindAt(g.r, a) == KindAt(g.w, a)
    requires OldHeader(g.r, a) == OldHeader(g.w, a) && Length(g.r, a) == Length(g.w, a) && HomeOk(g.w, a)
    ensures HomeOk(g.r, a)
  {
    var h := SibIndex(AgeAt(g.w, a), KindAt(g.w, a));
    assert g.r.sibs[h].firstFree >= g.w.sibs[h].firstFree && g.r.sibs[h].start == g.w.sibs[h].start &&
        g.r.sibs[h].seniorEnd == g.w.sibs[h].seniorEnd;
  }

  lemma GrownWord(g: Growth, log: seq<nat>, x: int)
    requires Grows(g) && (forall z {:trigger Logged(g.w, log, z)} :: Logged(g.w, log, z)) &&
        (forall z {:trigger OrderedWord(g.w, z)} :: OrderedWord(g.w, z))
    ensures Logged(g.r, log, x) && OrderedWord(g.r, x)
  {
    if 0 <= x < |g.r.mem| && g.r.zone[x].Old? && g.r.zone[x].chunk >= 0 && g.r.mem[x].Pointer? &&
        Slot(g.r, g.r.zone[x].chunk) != NONPTR_DATA_SIB {
      var v := g.r.mem[x].addr;
      ReferenceBefore(g, x);
      SamePlaces(g, v);
      NewChunk(g);
      assert NurseryLabel(g.w, v);
      NurseryPlace(g.w, v);
      if !InNew(g, x) {
        var a := g.w.zone[x].chunk;
        assert ZoneOk(g.w, x) && Logged(g.w, log, x) && OrderedWord(g.w, x);
        OldChunk(g, a);
        SamePlaces(g, a);
      } else if g.i >= 0 {
        assert SibOk(g.w, g.i) && SibRests(g.w, g.i);
      }
    } else {
      ImmutableHoldsPointers(g.r, x);
    }
  }

  /** A word that is in no chunk of pointers is neither logged nor ordered. */
  lemma ImmutableHoldsPointers(w: Flip, x: int)
    ensures 0 <= x < |w.mem| && |w.zone| == |w.mem| && w.zone[x].Old? && Immutable(w, w.zone[x].chunk) ==>
        Slot(w, w.zone[x].chunk) != NONPTR_DATA_SIB
  {
  }

  lemma GrownCovered(g: Growth, log: seq<nat>, i: int, x: int)
    requires Grows(g) && (forall j, z {:trigger WorkCovered(g.w, log, j, z)} :: WorkCovered(g.w, log, j, z)) &&
        4 * |g.w.cards| == |g.w.sibs|
    ensures WorkCovered(g.r, log, i, x)
  {
    assert WorkCovered(g.w, log, i, x);
    if 0 <= i < |g.r.sibs| && i % 4 == RW_POINTERS_SIB && g.r.sibs[i].start <= x < g.r.sibs[i].firstFree &&
        0 <= x < |g.r.mem| {
      if g.r.mem[x].Pointer? { SamePlaces(g, g.r.mem[x].addr); }
      if InNew(g, x) {
        NewIsOwn(g, i, x);
        CoveredAnyway(g, x);
      } else {
        SameElsewhere(g, x);
      }
    }
  }

  /** A buffer holds words of the new chunk only if that lies in it. */
  lemma NewIsOwn(g: Growth, i: nat, x: int)
    requires Grows(g) && i < |g.w.sibs| && g.w.sibs[i].start <= x < g.r.sibs[i].firstFree && InNew(g, x)
    ensures g.i == i
  {
    WasFree(g, x);
    assert AreaLabelOk(g.w, i, x) && SibOk(g.w, i);
  }

  lemma CoveredAnyway(g: Growth, x: int)
    requires Grows(g) && InNew(g, x) && g.i == RW_POINTERS_SIB
    ensures 0 <= x < |g.r.mem| && (g.r.mem[x].Pointer? ==> PointeeAge(g.r, g.r.mem[x].addr) >= 1)
  {
    WasFree(g, x);
    if g.r.mem[x].Pointer? {
      assert GoodValue(g.w, g.i, g.values[x - g.p - 1]);
      SamePlaces(g, g.r.mem[x].addr);
      OlderPlace(g.w, g.r.mem[x].addr);
    }
  }

  lemma OlderPlace(w: Flip, v: nat)
    ensures 2 <= PointeePlace(w, v) ==> PointeeAge(w, v) >= 1
  {
  }

  lemma GrownUsed(g: Growth, i: int, x: int)
    requires Grows(g) && forall j, z {:trigger UsedOk(g.w, j, z)} :: UsedOk(g.w, j, z)
    ensures UsedOk(g.r, i, x)
  {
    if 0 <= i < |g.r.sibs| && i % 4 != NONPTR_DATA_SIB && g.r.sibs[i].start <= x < g.r.sibs[i].firstFree {
      assert UsedOk(g.w, i, x) && SibOk(g.w, i);
      if InNew(g, x) { WasFree(g, x); } else { SameElsewhere(g, x); }
    }
  }

  lemma GrownEntry(g: Growth, x: nat)
    requires Grows(g) && EntryOk(g.w, x)
    ensures EntryOk(g.r, x)
  {
    if !(SibidFor(g.w.b2s, x) == AGEGROUP0_SIBID || SibidFor(g.w.b2s, x) == UNMAPPED_BOOK_SIBID) {
      var i :| InBuffer(g.w, i, x) && i % 4 == RW_POINTERS_SIB && x < g.w.sibs[i].firstFree;
      assert InBuffer(g.r, i, x);
    }
  }

  lemma GrownRoots(g: Growth, roots: seq<nat>)
    requires Grows(g) && RootsOk(g.w, {}, roots)
    ensures RootsOk(g.r, {}, roots)
  {
    forall j | 0 <= j < |roots| ensures RootOk(g.r, roots[j]) {
      assert RootOk(g.w, roots[j]);
      if InNew(g, roots[j]) { WasFree(g, roots[j]); }
      SameElsewhere(g, roots[j]);
      forall i ensures !InBuffer(g.r, i, roots[j]) { assert !InBuffer(g.w, i, roots[j]); }
    }
  }

  lemma GrownNursery(g: Growth)
    requires Grows(g)
    ensures Nursery(g.r, g.lo, HiAfter(g), g.end)
  {
    forall v: nat ensures NurseryLabel(g.r, v) { assert NurseryLabel(g.w, v); }
    forall x: nat ensures NurseryWord(g.r, g.lo, g.end, x) && IdleWord(g.r, g.lo, HiAfter(g), g.end, x) {
      assert NurseryWord(g.w, g.lo, g.end, x) && IdleWord(g.w, g.lo, g.hi, g.end, x);
      if InNew(g, x) { WasFree(g, x); } else if x < |g.w.mem| { SameElsewhere(g, x); }
    }
  }

  /** Adding a chunk keeps the heap at work. */
  lemma GrowthKeepsWork(g: Growth, roots: seq<nat>, log: seq<nat>, lists: seq<seq<nat>>, quireList: seq<nat>)
    requires Grows(g) && AtWork(g.w, roots, log, lists, quireList, g.lo, g.hi)
    ensures AtWork(g.r, roots, log, lists, quireList, g.lo, HiAfter(g)) && Nursery(g.r, g.lo, HiAfter(g), g.end)
  {
    var hi := HiAfter(g);
    GrownWellFormed(g);
    GrownRoots(g, roots);
    GrownNursery(g);
    forall v: nat ensures NurseryLabel(g.r, v) { assert NurseryLabel(g.w, v); }
    forall x: nat ensures NurseryWord(g.r, g.lo, hi, x) { assert NurseryWord(g.r, g.lo, g.end, x); }
    forall i, x ensures UsedOk(g.r, i, x) { GrownUsed(g, i, x); }
    forall a ensures WorkHome(g.r, g.lo, hi, a) && PairValue(g.r, a) { GrownHome(g, a); }
    forall i ensures SibRests(g.r, i) { if 0 <= i < |g.r.sibs| { GrownSib(g, i); } }
    forall i ensures SweepStart(g.r, i) { assert SweepStart(g.w, i); }
    forall x ensures Logged(g.r, log, x) && OrderedWord(g.r, x) { GrownWord(g, log, x); }
    forall i, x ensures WorkCovered(g.r, log, i, x) { GrownCovered(g, log, i, x); }
    forall j | 0 <= j < |log| ensures EntryOk(g.r, log[j]) {
      assert EntryOk(g.w, log[j]);
      GrownEntry(g, log[j]);
    }
    forall x ensures CodeLives(g.r, x) { GrownTarget(g, x); }
    forall b: nat ensures RecordIsCode(g.r.b2s, b) { assert RecordIsCode(g.w.b2s, b); }
  }

  /** A chunk that needs no alignment leaves the heap without gaps. */
  lemma GrownUnpadded(g: Growth)
    requires Grows(g) && Unpadded(g.w) && g.tag.Tagword? && g.tag.btag != EIGHT_BYTE_DATA
    ensures Unpadded(g.r)
  {
    forall a: nat | Chunk(g.r, a) ensures !Aligned(g.r, a) {
      if a == g.p + 1 {
        NewChunk(g);
      } else {
        ChunksAfter(g, a);
        OldChunk(g, a);
        assert !Aligned(g.w, a);
      }
    }
  }

  // ------------------------------------------------------------------ storing a value

  /** A slot of a mutable chunk that is no weakref. */
  predicate MutableSlot(w: Flip, x: int) {
    0 <= x < |w.zone| && w.zone[x].Old? && var a := w.zone[x].chunk;
      0 <= a <= x && Chunk(w, a) && Slot(w, a) == RW_POINTERS_SIB && !Weak(w, a)
  }

  /** One store into a root or a mutable slot: w became r. */
  datatype Change = Change(w: Flip, r: Flip, x: int, v: Word)

  ghost predicate Changes(g: Change) {
    && 0 <= g.x < |g.w.mem| == |g.w.zone| && g.r == g.w.(mem := g.w.mem[g.x := g.v]) && Held(g.w, g.v)
    && ((g.x in g.w.ext && g.w.zone[g.x].Fixed?) || MutableSlot(g.w, g.x))
    && WellFormed(g.w) && CardReady(g.w, g.w.cards) && (forall x {:trigger HeldThere(g.w, x)} :: HeldThere(g.w, x))
  }

  /** No chunk changes its shape. */
  lemma ShapeKept(g: Change, a: nat)
    requires Changes(g) && Chunk(g.w, a)
    ensures Chunk(g.r, a) && ChunkOk(g.w, a) && ChunkOk(g.r, a) && AgeAt(g.r, a) == AgeAt(g.w, a) &&
        KindAt(g.r, a) == KindAt(g.w, a)
    ensures OldHeader(g.r, a) == OldHeader(g.w, a) && Length(g.r, a) == Length(g.w, a) &&
        Slot(g.r, a) == Slot(g.w, a) && Weak(g.r, a) == Weak(g.w, a)
    ensures Dest(g.r, a) == Dest(g.w, a) && (KindAt(g.w, a) != RO_CONSCELL_KIND ==> TagOf(g.r, a) == TagOf(g.w, a))
    ensures g.x == a ==> Slot(g.w, a) == RW_POINTERS_SIB && !Weak(g.w, a)
  {
    assert ChunkOk(g.w, a) && ExtentOk(g.w, a, a) && ExtentOk(g.w, a, a - 1);
  }

  lemma ChangedWord(g: Change, y: int)
    requires Changes(g)
    ensures TargetOk(g.r, y) && LabelOk(g.r, y) && CodeLives(g.r, y)
  {
    if ScanWord(g.r, y) && g.r.mem[y].Pointer? {
      if g.w.zone[y].Old? {
        assert ZoneOk(g.w, y);
        ShapeKept(g, g.w.zone[y].chunk);
      }
      assert HeldThere(g.w, y);
    }
  }

  lemma ChangedWellFormed(g: Change)
    requires Changes(g)
    ensures WellFormed(g.r) && CardReady(g.r, g.r.cards)
  {
    forall y ensures ZoneOk(g.r, y) {
      assert ZoneOk(g.w, y);
      if 0 <= y < |g.w.zone| && g.w.zone[y].Old? { ShapeKept(g, g.w.zone[y].chunk); }
    }
    forall a: nat | Chunk(g.r, a) ensures ChunkOk(g.r, a) { ShapeKept(g, a); }
    forall a, y ensures ExtentOk(g.r, a, y) {
      if Chunk(g.r, a) { ShapeKept(g, a); }
      assert ExtentOk(g.w, a, y);
    }
    forall i | 0 <= i < |g.r.sibs| ensures SibOk(g.r, i) { assert SibOk(g.w, i); }
    forall i, y ensures AreaOk(g.r, i, y) && AreaLabelOk(g.r, i, y) { assert AreaOk(g.w, i, y) &&
        AreaLabelOk(g.w, i, y); }
    forall y ensures TargetOk(g.r, y) && LabelOk(g.r, y) { ChangedWord(g, y); }
    forall a ensures WeakTargetOk(g.r, a) && DestOk(g.r, a) {
      if a >= 0 && Chunk(g.r, a) { ShapeKept(g, a); }
      assert WeakTargetOk(g.w, a) && DestOk(g.w, a);
    }
    forall i ensures MapOk(g.r, g.r.cards, i) { assert MapOk(g.w, g.w.cards, i); }
  }

  lemma ChangedUnpadded(g: Change)
    requires Changes(g) && Unpadded(g.w)
    ensures Unpadded(g.r)
  {
    forall a: nat | Chunk(g.r, a) ensures !Aligned(g.r, a) {
      ShapeKept(g, a);
      assert !Aligned(g.w, a);
    }
  }

  /** The changelog after the store: a store into a root is not logged. */
  function LogAfter(g: Change, log: seq<nat>): seq<nat> { if 0 <= g.x < |g.w.zone| &&
      g.w.zone[g.x].Old? then [g.x] + log else log }

  lemma NewEntry(g: Change, roots: seq<nat>, log: seq<nat>, lists: seq<seq<nat>>, quireList: seq<nat>, lo: nat, hi: nat)
    requires Changes(g) && MutableSlot(g.w, g.x) && AtWork(g.w, roots, log, lists, quireList, lo, hi)
    ensures EntryOk(g.r, g.x)
  {
    var a := g.w.zone[g.x].chunk;
    assert ZoneOk(g.w, g.x) && ChunkOk(g.w, a) && WorkHome(g.w, lo, hi, a);
    if AgeAt(g.w, a) == 0 {
      assert NurseryWord(g.w, lo, hi, g.x) && NurseryLabel(g.w, g.x);
    } else {
      var i := SibIndex(AgeAt(g.w, a), KindAt(g.w, a));
      assert SibOk(g.w, i) && InBuffer(g.r, i, g.x);
    }
  }

  lemma ChangedHome(g: Change, lo: nat, hi: nat, a: int)
    requires Changes(g) && WorkHome(g.w, lo, hi, a) && PairValue(g.w, a)
    ensures WorkHome(g.r, lo, hi, a) && PairValue(g.r, a)
  {
    if a >= 0 && Chunk(g.w, a) { ShapeKept(g, a); }
  }

  lemma ChangedLogged(g: Change, log: seq<nat>, y: int)
    requires Changes(g) && Logged(g.w, log, y) && OrderedWord(g.w, y)
    ensures Logged(g.r, LogAfter(g, log), y) && OrderedWord(g.r, y)
  {
    if 0 <= y < |g.w.zone| && g.w.zone[y].Old? && g.w.zone[y].chunk >= 0 {
      assert ZoneOk(g.w, y);
      ShapeKept(g, g.w.zone[y].chunk);
    }
  }

  lemma ChangedNursery(g: Change, lo: nat, hi: nat, end: nat)
    requires Changes(g) && Nursery(g.w, lo, hi, end)
    ensures Nursery(g.r, lo, hi, end)
  {
    forall v: nat ensures NurseryLabel(g.r, v) { assert NurseryLabel(g.w, v); }
    forall y: nat ensures NurseryWord(g.r, lo, end, y) &&
        IdleWord(g.r, lo, hi, end, y) { assert NurseryWord(g.w, lo, end, y) && IdleWord(g.w, lo, hi, end, y); }
  }

  /** A store, logged unless it is into a root, keeps the heap at work. */
  lemma ChangeKeepsWork(g: Change, roots: seq<nat>, log: seq<nat>, lists: seq<seq<nat>>, quireList: seq<nat>, lo: nat,
      hi: nat)
    requires Changes(g) && AtWork(g.w, roots, log, lists, quireList, lo, hi)
    ensures AtWork(g.r, roots, LogAfter(g, log), lists, quireList, lo, hi)
  {
    var log' := LogAfter(g, log);
    ChangedWellFormed(g);
    forall v: nat ensures NurseryLabel(g.r, v) && NurseryWord(g.r, lo, hi, v) { assert NurseryLabel(g.w, v) &&
        NurseryWord(g.w, lo, hi, v); }
    forall j | 0 <= j < |roots| ensures RootOk(g.r, roots[j]) {
      assert RootOk(g.w, roots[j]);
      forall i ensures !InBuffer(g.r, i, roots[j]) { assert !InBuffer(g.w, i, roots[j]); }
    }
    forall i, y ensures UsedOk(g.r, i, y) && WorkCovered(g.r, log', i, y) { assert UsedOk(g.w, i, y) &&
        WorkCovered(g.w, log, i, y); ChangedCover(g, log, i, y); }
    forall a ensures WorkHome(g.r, lo, hi, a) && PairValue(g.r, a) {
      assert WorkHome(g.w, lo, hi, a) && PairValue(g.w, a);
      ChangedHome(g, lo, hi, a);
    }
    forall i ensures SibRests(g.r, i) && SweepStart(g.r, i) { assert SibRests(g.w, i) && SweepStart(g.w, i); }
    forall y ensures Logged(g.r, log', y) && OrderedWord(g.r, y) {
      assert Logged(g.w, log, y) && OrderedWord(g.w, y);
      ChangedLogged(g, log, y);
    }
    forall j | 0 <= j < |log'| ensures EntryOk(g.r, log'[j]) { ChangedEntry(g, roots, log, lists, quireList, lo, hi,
        j); }
    forall y ensures CodeLives(g.r, y) { ChangedWord(g, y); }
    forall b: nat ensures RecordIsCode(g.r.b2s, b) { assert RecordIsCode(g.w.b2s, b); }
  }

  lemma ChangedCover(g: Change, log: seq<nat>, i: int, y: int)
    requires Changes(g) && WorkCovered(g.w, log, i, y) && UsedOk(g.w, i, y)
    ensures WorkCovered(g.r, LogAfter(g, log), i, y)
  {
  }

  lemma ChangedEntry(g: Change, roots: seq<nat>, log: seq<nat>, lists: seq<seq<nat>>, quireList: seq<nat>, lo: nat,
      hi: nat, j: nat)
    requires Changes(g) && AtWork(g.w, roots, log, lists, quireList, lo, hi) && j < |LogAfter(g, log)|
    ensures EntryOk(g.r, LogAfter(g, log)[j])
  {
    if j == 0 && g.w.zone[g.x].Old? {
      NewEntry(g, roots, log, lists, quireList, lo, hi);
    } else {
      var x := LogAfter(g, log)[j];
      assert x == log[if g.w.zone[g.x].Old? then j - 1 else j];
      assert EntryOk(g.w, x);
      if !(SibidFor(g.w.b2s, x) == AGEGROUP0_SIBID || SibidFor(g.w.b2s, x) == UNMAPPED_BOOK_SIBID) {
        var i :| InBuffer(g.w, i, x) && i % 4 == RW_POINTERS_SIB && x < g.w.sibs[i].firstFree;
        assert InBuffer(g.r, i, x);
      }
    }
  }

  lemma AllIsHeld(w: Flip, roots: seq<nat>, log: seq<nat>, lists: seq<seq<nat>>, quireList: seq<nat>, lo: nat, hi: nat)
    requires AtWork(w, roots, log, lists, quireList, lo, hi)
    ensures forall x {:trigger HeldThere(w, x)} :: HeldThere(w, x)
  {
    forall x ensures HeldThere(w, x) {
      if ScanWord(w, x) { FoundIsHeld(w, roots, log, lists, quireList, lo, hi, x); }
    }
  }
}
