/** A single hostthread: its roots, nursery and changelog, over whole runs.  Every operation, from allocating a
    chunk to a full call of the heapcleaner, keeps `Working`. */
module TaskObject {
  import opened HeapTags
  import opened HeapModel
  import opened Forwarding
  import opened HeapObject
  import opened MajorCards
  import opened MajorRoots
  import opened MajorSizing
  import opened MajorHuge
  import opened HeapWorld
  import opened MajorSetup
  import opened MajorRest
  import opened MajorRisk
  import opened MinorForward
  import opened MinorClean
  import opened MinorRest
  import opened NurseryLabels
  import opened MajorMain
  import opened CallHeapcleaner
  import opened Mutator

  // Chunks of more words than this are allocated in agegroup1.
  const MAX_AGEGROUP0_ALLOCATION_SIZE_IN_WORDS := 512

  class Task {
    const heap: Heap
    const roots: seq<nat>
    const heap_allocation_buffer: nat
    const real_heap_allocation_limit: nat
    const heap_allocation_buffer_words: nat
    var heap_allocation_pointer: nat
    var heap_changelog: seq<nat>
    ghost var world: Flip

    constructor (heap: Heap, roots: seq<nat>, buffer: nat, limit: nat, words: nat)
      ensures this.heap == heap && this.roots == roots && heap_allocation_buffer == buffer &&
          real_heap_allocation_limit == limit
      ensures heap_allocation_buffer_words == words && heap_allocation_pointer == buffer && heap_changelog == []
    {
      this.heap, this.roots, heap_allocation_buffer, real_heap_allocation_limit := heap, roots, buffer, limit;
      heap_allocation_buffer_words, heap_allocation_pointer, heap_changelog := words, buffer, [];
    }
  }

  /** The whole-run invariant: the heap is at work, and each pointer sib of agegroup1 has room for a full nursery. */
  ghost predicate Working(t: Task)
    reads t, t.heap, t.heap.ram
  {
    var lo, hi, end := t.heap_allocation_buffer, t.heap_allocation_pointer, t.real_heap_allocation_limit;
    && HeapIs(t.heap, t.world) && AtWork(t.world, t.roots, t.heap_changelog, t.heap.hugechunks, t.heap.quire_list, lo,
        hi)
    && Nursery(t.world, lo, hi, end) && SizingOk(t.heap) && lo < end &&
        end - lo <= t.heap_allocation_buffer_words <= t.heap.nurseryWords
    && RoomFor(t.heap.sibs, end - lo)
  }

  /** No chunk needs alignment, and the data sib of agegroup1 has room for a full nursery too. */
  ghost predicate Snug(t: Task)
    reads t, t.heap, t.heap.ram
  {
    t.heap_allocation_buffer <= t.real_heap_allocation_limit && Unpadded(t.world) &&
        DataRoomFor(t.heap.sibs, t.real_heap_allocation_limit - t.heap_allocation_buffer)
  }

  // ------------------------------------------------------------------ allocation

  lemma ChunkAdded(w: Flip, i: int, p: nat, tag: Word, values: seq<Word>, roots: seq<nat>, log: seq<nat>,
      lists: seq<seq<nat>>, quireList: seq<nat>,
                   lo: nat, hi: nat, end: nat)
    requires AtWork(w, roots, log, lists, quireList, lo, hi) && Nursery(w, lo, hi, end) &&
        Fits(w, lo, hi, end, i, p, |values|) && GoodChunk(w, i, tag, values)
    ensures p + 1 + |values| <= |w.mem| == |w.zone| && |values| >= 1
    ensures Chunk(AddChunk(w, i, p, tag, values), p + 1) && tag.Tagword?
    ensures Unpadded(w) && tag.btag != EIGHT_BYTE_DATA ==> Unpadded(AddChunk(w, i, p, tag, values))
    ensures var r := AddChunk(w, i, p, tag, values); var hi' := if i == -1 then p + 1 + |values| else hi;
      AtWork(r, roots, log, lists, quireList, lo, hi') && Nursery(r, lo, hi', end) &&
          r.mem == w.mem[..p] + [tag] + values + w.mem[p + 1 + |values|..]
  {
    ChunkGrows(w, i, p, tag, values, roots, log, lists, quireList, lo, hi, end);
    hide Grows, AtWork, Nursery;
    var g := Growth(w, AddChunk(w, i, p, tag, values), i, p, tag, values, lo, hi, end);
    GrowthKeepsWork(g, roots, log, lists, quireList);
    NewChunk(g);
    if Unpadded(w) && tag.btag != EIGHT_BYTE_DATA { GrownUnpadded(g); }
  }

  lemma ChunkGrows(w: Flip, i: int, p: nat, tag: Word, values: seq<Word>, roots: seq<nat>, log: seq<nat>,
      lists: seq<seq<nat>>, quireList: seq<nat>,
                   lo: nat, hi: nat, end: nat)
    requires AtWork(w, roots, log, lists, quireList, lo, hi) && Nursery(w, lo, hi, end) &&
        Fits(w, lo, hi, end, i, p, |values|) && GoodChunk(w, i, tag, values)
    ensures p + 1 + |values| <= |w.mem| == |w.zone| && |values| >= 1 && tag.Tagword?
    ensures Grows(Growth(w, AddChunk(w, i, p, tag, values), i, p, tag, values, lo, hi, end))
  {
    if i >= 0 { assert SibOk(w, i); }
    AllIsHeld(w, roots, log, lists, quireList, lo, hi);
    var r := AddChunk(w, i, p, tag, values);
    forall x ensures Added(w, r, p, tag, values, x) { }
  }

  /** Write a chunk at p. */
  method WriteChunk(h: Heap, p: nat, tag: Word, values: seq<Word>)
    requires p + 1 + |values| <= h.ram.Length
    modifies h.ram
    ensures h.ram[..] == old(h.ram[..])[..p] + [tag] + values + old(h.ram[..])[p + 1 + |values|..]
  {
    h.ram[p] := tag;
    var i := 0;
    while i < |values|
      invariant i <= |values|
      invariant forall x {:trigger h.ram[x]} :: 0 <= x < h.ram.Length ==>
        h.ram[x] == if x == p then tag else if p < x <= p + i then values[x - p - 1] else old(h.ram[x])
    {
      h.ram[p + 1 + i] := values[i];
      i := i + 1;
    }
  }

  lemma WrittenWords(m': seq<Word>, m: seq<Word>, p: nat, tag: Word, values: seq<Word>)
    requires p + 1 + |values| <= |m| && m' == m[..p] + [tag] + values + m[p + 1 + |values|..]
    ensures |m'| == |m| && m'[p] == tag && m'[p + 1..p + 1 + |values|] == values
    ensures forall x {:trigger m'[x]} :: 0 <= x < |m| && !(p <= x < p + 1 + |values|) ==> m'[x] == m[x]
  {
  }

  /** Allocate a chunk in the nursery. */
  method CommitNascentHeapchunk(t: Task, tag: Word, values: seq<Word>) returns (result: nat)
    requires Working(t) && GoodChunk(t.world, -1, tag, values) &&
        t.heap_allocation_pointer + 1 + |values| <= t.real_heap_allocation_limit
    modifies t`heap_allocation_pointer, t`world, t.heap.ram
    ensures Working(t) && result == old(t.heap_allocation_pointer) + 1 && Chunk(t.world, result) &&
        Held(t.world, Pointer(result))
    ensures tag.Tagword? && (old(Snug(t)) && tag.btag != EIGHT_BYTE_DATA ==> Snug(t))
    ensures t.heap_allocation_pointer == old(t.heap_allocation_pointer) + 1 + |values| <= t.heap.ram.Length
    ensures t.heap.ram[..] ==
      old(t.heap.ram[..])[..result - 1] + [tag] + values + old(t.heap.ram[..])[result + |values|..]
  {
    hide AtWork, Nursery, GoodChunk;
    ghost var lo, end := t.heap_allocation_buffer, t.real_heap_allocation_limit;
    var p := t.heap_allocation_pointer;
    ChunkAdded(t.world, -1, p, tag, values, t.roots, t.heap_changelog, t.heap.hugechunks, t.heap.quire_list, lo, p,
        end);
    WriteChunk(t.heap, p, tag, values);
    t.world := AddChunk(t.world, -1, p, tag, values);
    t.heap_allocation_pointer := p + 1 + |values|;
    result := p + 1;
    AddedChunk(t.world, t.roots, t.heap_changelog, t.heap.hugechunks, t.heap.quire_list, lo, t.heap_allocation_pointer,
        result);
  }

  lemma AddedChunk(w: Flip, roots: seq<nat>, log: seq<nat>, lists: seq<seq<nat>>, quireList: seq<nat>, lo: nat, hi: nat,
      a: nat)
    requires AtWork(w, roots, log, lists, quireList, lo, hi) && Chunk(w, a)
    ensures Held(w, Pointer(a))
  {
    ChunkIsHeld(w, a);
  }

  // ------------------------------------------------------------------ stores

  lemma ValueStored(w: Flip, x: int, v: Word, roots: seq<nat>, log: seq<nat>, lists: seq<seq<nat>>, quireList: seq<nat>,
      lo: nat, hi: nat, end: nat)
    requires AtWork(w, roots, log, lists, quireList, lo, hi) && Nursery(w, lo, hi, end) && Held(w, v) &&
        ((x >= 0 && x in roots) || MutableSlot(w, x))
    ensures 0 <= x < |w.mem| == |w.zone|
    ensures var r := w.(mem := w.mem[x := v]);
      && AtWork(r, roots, if MutableSlot(w, x) then [x] + log else log, lists, quireList, lo, hi)
      && Nursery(r, lo, hi, end)
      && (Unpadded(w) ==> Unpadded(r))
  {
    AllIsHeld(w, roots, log, lists, quireList, lo, hi);
    if x in roots {
      var j :| 0 <= j < |roots| && roots[j] == x;
      assert RootOk(w, roots[j]);
    }
    var g := Change(w, w.(mem := w.mem[x := v]), x, v);
    ChangeKeepsWork(g, roots, log, lists, quireList, lo, hi);
    ChangedNursery(g, lo, hi, end);
    if Unpadded(w) { ChangedUnpadded(g); }
  }

  /** Set a root, such as a register. */
  method SetRoot(t: Task, j: nat, v: Word)
    requires Working(t) && j < |t.roots| && Held(t.world, v)
    modifies t`world, t.heap.ram
    ensures Working(t) && (old(Snug(t)) ==> Snug(t))
    ensures t.roots[j] < t.heap.ram.Length && t.heap.ram[..] == old(t.heap.ram[..])[t.roots[j] := v]
  {
    hide AtWork, Nursery, Held;
    ghost var w := t.world;
    ValueStored(w, t.roots[j], v, t.roots, t.heap_changelog, t.heap.hugechunks, t.heap.quire_list,
        t.heap_allocation_buffer, t.heap_allocation_pointer, t.real_heap_allocation_limit);
    RootIsNoSlot(w, t.roots, t.heap_changelog, t.heap.hugechunks, t.heap.quire_list, t.heap_allocation_buffer,
        t.heap_allocation_pointer, j);
    t.heap.ram[t.roots[j]] := v;
    t.world := w.(mem := w.mem[t.roots[j] := v]);
  }

  lemma RootIsNoSlot(w: Flip, roots: seq<nat>, log: seq<nat>, lists: seq<seq<nat>>, quireList: seq<nat>, lo: nat,
      hi: nat, j: nat)
    requires AtWork(w, roots, log, lists, quireList, lo, hi) && j < |roots|
    ensures !MutableSlot(w, roots[j])
  {
    assert RootOk(w, roots[j]);
  }

  /** Store into a slot of a mutable chunk and log the store. */
  method Store(t: Task, x: nat, v: Word)
    requires Working(t) && MutableSlot(t.world, x) && Held(t.world, v)
    modifies t`heap_changelog, t`world, t.heap.ram
    ensures Working(t) && (old(Snug(t)) ==> Snug(t))
    ensures x < t.heap.ram.Length && t.heap.ram[..] == old(t.heap.ram[..])[x := v] &&
        t.heap_changelog == [x] + old(t.heap_changelog)
  {
    hide AtWork, Nursery, Held, MutableSlot;
    ghost var w := t.world;
    ValueStored(w, x, v, t.roots, t.heap_changelog, t.heap.hugechunks, t.heap.quire_list, t.heap_allocation_buffer,
        t.heap_allocation_pointer, t.real_heap_allocation_limit);
    t.heap.ram[x] := v;
    t.heap_changelog := [x] + t.heap_changelog;
    t.world := w.(mem := w.mem[x := v]);
  }

  // ------------------------------------------------------------------ cleaning

  /** What the operating system may grant is in nobody's use, and alignment gaps fit. */
  ghost predicate CleanAllowed(t: Task, bases: seq<nat>, grants: seq<nat>, requested: seq<nat>)
    reads t, t.heap, t.heap.ram
  {
    && GrantsOk(t.world.b2s, |t.world.mem|, bases, grants, t.world.k) && GrantsFresh(t.world, bases, grants)
    && (Snug(t) || GapsFitBoth(t.world, t.roots, t.heap.hugechunks, t.heap.quire_list, requested, t.heap.nurseryWords,
        bases, grants))
  }

  lemma SnugFits(w: Flip, roots: seq<nat>, log: seq<nat>, lists: seq<seq<nat>>, quireList: seq<nat>, lo: nat, hi: nat,
      end: nat,
                 requested: seq<nat>, nursery: nat, bases: seq<nat>, grants: seq<nat>)
    requires AtWork(w, roots, log, lists, quireList, lo, hi) && Nursery(w, lo, hi, end) && RoomFor(w.sibs, end - lo)
    requires Unpadded(w) && DataRoomFor(w.sibs, end - lo)
    ensures GapsFitBoth(w, roots, lists, quireList, requested, nursery, bases, grants)
  {
    FitsMeansRoom(w, end - lo, lo, hi, end);
    UnpaddedFits(w, roots, log, lists, quireList, lo, hi, requested, nursery, bases, grants);
  }

  /** Call the heapcleaner.  Unless some card was at risk, the program can go on with an empty nursery. */
  method Heapclean(t: Task, level: nat, bases: seq<nat>, grants: seq<nat>, unlimited: bool)
      returns (ok: bool, k: nat, ghost u: Flip)
    requires Working(t) && level <= t.heap.active && CleanAllowed(t, bases, grants, t.heap.requested)
    modifies t`heap_allocation_pointer, t`heap_changelog, t`world, t.heap, t.heap.ram
    ensures t.heap.requested == old(t.heap.requested) && t.heap.nurseryWords == old(t.heap.nurseryWords) &&
        t.heap.softMax == old(t.heap.softMax)
    ensures MinorDid(old(t.world), u)
    ensures !ok ==> Starved(u.sibs, t.heap.requested, t.heap.nurseryWords, grants, if level == 0 then 1 else level,
        t.heap.active)
    ensures ok && k == 0 <==> level == 0 && !ShortOfRoom(u.sibs,
        t.real_heap_allocation_limit - t.heap_allocation_buffer)
    ensures ok && k > 0 ==> DidClean(t.heap, u.huge) && CardsFollow(u, k, t.world) && RoomLeft(t.heap.sibs,
        t.heap.requested, t.heap_allocation_buffer_words)
    ensures ok && k == 0 ==> t.world == u
    ensures ok ==> t.heap_allocation_pointer == t.heap_allocation_buffer && t.heap_changelog == []
    ensures ok ==> HeapIs(t.heap, t.world) && AtRestBut(t.world, t.roots, t.heap.hugechunks, t.heap.quire_list)
    ensures ok ==> Nursery(t.world, t.heap_allocation_buffer, t.heap_allocation_buffer, t.real_heap_allocation_limit)
    ensures ok && (k == 0 || Safe(u, k)) ==> Working(t) && AtRest(t.world, t.roots, t.heap.hugechunks,
        t.heap.quire_list)
    ensures ok && (Unmixed(old(t.world)) || Vacant(old(t.world))) ==> Working(t) && AtRest(t.world, t.roots,
        t.heap.hugechunks, t.heap.quire_list)
    ensures Vacant(old(t.world)) ==> Vacant(u) && |u.sibs| == 4 * t.heap.active
    ensures ok && old(Snug(t)) ==> Snug(t)
    ensures ok ==> Spares(old(t.world), t.world, bases, grants)
    ensures ok && k > 0 ==> VectorRoom(t.heap.sibs, t.heap.requested, t.heap.softMax, t.heap_allocation_buffer_words,
        unlimited)
  {
    hide AtWork, AtRest, AtRestBut, AllCovered, Nursery, Unpadded, GapsFitBoth, GrantsOk, GrantsFresh, RoomFor,
         RoomLeft, DataRoomFor, Starved, MinorDid, DidClean, CardsFollow, Safe, ShortOfRoom, Spares, VectorRoom,
         Unmixed;
    ghost var w, lo, hi, end := t.world, t.heap_allocation_buffer, t.heap_allocation_pointer,
        t.real_heap_allocation_limit;
    if Snug(t) { SnugFits(w, t.roots, t.heap_changelog, t.heap.hugechunks, t.heap.quire_list, lo, hi, end,
        t.heap.requested, t.heap.nurseryWords, bases, grants); }
    var agegroup0 := t.real_heap_allocation_limit - t.heap_allocation_buffer;
    ghost var lists0 := t.heap.hugechunks;
    ghost var r;
    ok, k, u, r := CallHeapcleaner.CallHeapcleaner(t.heap, t.roots, t.heap_changelog, level, agegroup0,
        t.heap_allocation_buffer_words, bases, grants, unlimited, w, lo, hi, end);
    SparesKinds(w, u, [], []);
    MinorSize(w, u, t.roots, lists0, t.heap.quire_list);
    if ok {
      SparesKinds(w, r, bases, grants);
      t.heap_allocation_pointer := t.heap_allocation_buffer;
      t.heap_changelog := [];
      t.world := r;
      if (Unmixed(w) || Vacant(w)) && k > 0 { UnmixedIsSafe(w, u, t.roots, lists0, t.heap.quire_list, k); }
      if k == 0 || Safe(u, k) {
        RestAfter(u, k, r, t.roots, lists0, t.heap.hugechunks, t.heap.quire_list);
        RestIsWork(r, t.roots, t.heap.hugechunks, t.heap.quire_list, lo, end);
      }
    }
  }

  /** The minor clean leaves labels, quires and hugechunks alone, so whether quires mix ages can be asked before it;
      and it leaves an empty heap empty. */
  lemma UnmixedIsSafe(w: Flip, u: Flip, roots: seq<nat>, lists: seq<seq<nat>>, quireList: seq<nat>, k: nat)
    requires MinorDid(w, u) && AtRest(u, roots, lists, quireList) && Spares(w, u, [], []) && k >= 1
    requires Unmixed(w) || Vacant(w)
    ensures Safe(u, k)
  {
    hide AtRest, AtRestBut, AllCovered, Safe, MinorDid, Unmixed;
    RestBut(u, roots, lists, quireList);
    if Unmixed(w) {
      UnmixedAfterMinor(w, u);
      SafeUnlessMixed(u, roots, lists, quireList, k);
    } else {
      VacantIsSafe(u, roots, lists, quireList, k);
    }
  }

  lemma MinorSize(w: Flip, u: Flip, roots: seq<nat>, lists: seq<seq<nat>>, quireList: seq<nat>)
    requires MinorDid(w, u) && AtRest(u, roots, lists, quireList)
    ensures u.k == w.k && |u.sibs| == 4 * u.k
  {
  }

  lemma RestBut(u: Flip, roots: seq<nat>, lists: seq<seq<nat>>, quireList: seq<nat>)
    requires AtRest(u, roots, lists, quireList)
    ensures AtRestBut(u, roots, lists, quireList)
  {
  }

  lemma UnmixedAfterMinor(w: Flip, u: Flip)
    requires MinorDid(w, u) && Unmixed(w)
    ensures Unmixed(u)
  {
    forall v: nat ensures NearLabel(u, v) { assert NearLabel(w, v); }
  }

  lemma RestAfter(u: Flip, k: nat, r: Flip, roots: seq<nat>, lists0: seq<seq<nat>>, lists: seq<seq<nat>>,
      quireList: seq<nat>)
    requires AtRest(u, roots, lists0, quireList) && AtRestBut(r, roots, lists, quireList) &&
        if k == 0 then r == u else CardsFollow(u, k, r) && Safe(u, k)
    ensures AtRest(r, roots, lists, quireList)
  {
  }

  // ------------------------------------------------------------------ allocation in agegroup1

  /** Right after a clean what a root refers to is no younger than a junior of agegroup1. */
  lemma RestPlaces(w: Flip, roots: seq<nat>, lists: seq<seq<nat>>, quireList: seq<nat>, lo: nat, end: nat, x: int)
    requires AtRest(w, roots, lists, quireList) && Nursery(w, lo, lo, end) && ScanWord(w, x) && w.mem[x].Pointer?
    ensures 2 <= PointeePlace(w, w.mem[x].addr)
  {
    var v := w.mem[x].addr;
    RestHasNoYoung(w, roots, lists, quireList, x);
    assert CodeLives(w, x);
    if KindAt(w, v) == CODE_KIND { LiveAge(w.huge, lists, w.k, HugeAt(w.b2s, w.quires, v)); }
  }

  /** Filling a new vector with the value of root j makes a good chunk. */
  lemma GoodVector(w: Flip, roots: seq<nat>, log: seq<nat>, lists: seq<seq<nat>>, quireList: seq<nat>, lo: nat, hi: nat,
      j: nat, len: nat)
    requires AtWork(w, roots, log, lists, quireList, lo, hi) && j < |roots| && len >= 1
    ensures 0 <= roots[j] < |w.mem| && ScanWord(w, roots[j])
    ensures w.mem[roots[j]].Pointer? ==> w.mem[roots[j]].addr >= 0
    ensures (w.mem[roots[j]].Pointer? ==> 2 <= PointeePlace(w, w.mem[roots[j]].addr))
      ==> GoodChunk(w, RW_POINTERS_SIB, Tagword(len, RW_VECTOR_DATA), seq(len, _ => w.mem[roots[j]]))
    ensures GoodChunk(w, -1, Tagword(len, RW_VECTOR_DATA), seq(len, _ => w.mem[roots[j]]))
  {
    assert RootOk(w, roots[j]);
    FoundIsHeld(w, roots, log, lists, quireList, lo, hi, roots[j]);
  }

  /** Whether the sib lacks room for that many words more besides a nursery. */
  function Lacks(s: Sib, words: nat, buffer: nat): bool { !Active(s) || s.limit - s.firstFree <= words + buffer }

  predicate NoRoom(t: Task, len: nat)
    reads t, t.heap
  {
    RW_POINTERS_SIB < |t.heap.sibs| && Lacks(t.heap.sibs[RW_POINTERS_SIB], len + 1, t.heap_allocation_buffer_words)
  }

  /** The value cannot refer to the nursery, and there is more room than a vector of it and a nursery need. */
  predicate AtOnce(t: Task, len: nat, j: nat)
    reads t, t.heap, t.heap.ram
  {
    && j < |t.roots| && t.roots[j] < t.heap.ram.Length && !t.heap.ram[t.roots[j]].Pointer?
    && RW_POINTERS_SIB < |t.heap.sibs|
    && t.heap.sibs[RW_POINTERS_SIB].start < t.heap.sibs[RW_POINTERS_SIB].limit
    && t.heap.sibs[RW_POINTERS_SIB].firstFree + len + 1 + t.heap_allocation_buffer_words <
        t.heap.sibs[RW_POINTERS_SIB].limit
  }

  /** Write a vector at the free end of agegroup1's sib of mutable vectors. */
  method WriteVector(h: Heap, len: nat, v: Word) returns (result: nat)
    requires RW_POINTERS_SIB < |h.sibs| && h.sibs[RW_POINTERS_SIB].firstFree + 1 + len <= h.ram.Length
    modifies h`sibs, h.ram
    ensures result == old(h.sibs)[RW_POINTERS_SIB].firstFree + 1 && result + len <= h.ram.Length
    ensures h.sibs == old(h.sibs)[RW_POINTERS_SIB := old(h.sibs)[RW_POINTERS_SIB].(firstFree := result + len,
        sweptEnd := result + len)]
    ensures h.ram[..] == old(h.ram[..])[..result - 1] + [Tagword(len, RW_VECTOR_DATA)] + seq(len,
        _ => v) + old(h.ram[..])[result + len..]
  {
    var sib := h.sibs[RW_POINTERS_SIB];
    WriteChunk(h, sib.firstFree, Tagword(len, RW_VECTOR_DATA), seq(len, _ => v));
    result := sib.firstFree + 1;
    h.sibs := h.sibs[RW_POINTERS_SIB := sib.(firstFree := result + len, sweptEnd := result + len)];
  }

  /** That much of the sib is left over. */
  lemma VectorAdded(w: Flip, len: nat, v: Word, roots: seq<nat>, log: seq<nat>, lists: seq<seq<nat>>,
      quireList: seq<nat>,
                    lo: nat, hi: nat, end: nat, buffer: nat)
    requires AtWork(w, roots, log, lists, quireList, lo, hi) && Nursery(w, lo, hi, end) && RoomFor(w.sibs, end - lo) &&
        end - lo <= buffer && len >= 1
    requires RW_POINTERS_SIB < |w.sibs| && !Lacks(w.sibs[RW_POINTERS_SIB], len + 1, buffer)
    requires GoodChunk(w, RW_POINTERS_SIB, Tagword(len, RW_VECTOR_DATA), seq(len, _ => v))
    ensures var i, p := RW_POINTERS_SIB, w.sibs[RW_POINTERS_SIB].firstFree; var tag, values := Tagword(len,
        RW_VECTOR_DATA), seq(len, _ => v);
      && p + 1 + len <= |w.mem| == |w.zone| && var r := AddChunk(w, i, p, tag, values);
        && AtWork(r, roots, log, lists, quireList, lo, hi) && Nursery(r, lo, hi, end) && Chunk(r, p + 1) &&
            RoomFor(r.sibs, end - lo)
        && r.mem == w.mem[..p] + [tag] + values + w.mem[p + 1 + len..] &&
            r.sibs == w.sibs[i := w.sibs[i].(firstFree := p + 1 + len, sweptEnd := p + 1 + len)]
        && r.b2s == w.b2s && r.cards == w.cards && r.quires == w.quires && r.huge == w.huge && r.k == w.k &&
            (Unpadded(w) ==> Unpadded(r))
  {
    hide AtWork, Nursery, GoodChunk;
    ChunkAdded(w, RW_POINTERS_SIB, w.sibs[RW_POINTERS_SIB].firstFree, Tagword(len, RW_VECTOR_DATA), seq(len, _ => v),
        roots, log, lists, quireList, lo, hi, end);
  }

  /** Put a vector into agegroup1.  If the heap was at work it still is. */
  method PlaceVector(t: Task, len: nat, v: Word) returns (result: nat)
    requires RW_POINTERS_SIB < |t.heap.sibs| && !Lacks(t.heap.sibs[RW_POINTERS_SIB], len + 1,
        t.heap_allocation_buffer_words)
    requires len >= 1 && t.heap.sibs[RW_POINTERS_SIB].limit <= t.heap.ram.Length
    modifies t`world, t.heap`sibs, t.heap.ram
    ensures result == old(t.heap.sibs)[RW_POINTERS_SIB].firstFree + 1 && result + len <= t.heap.ram.Length
    ensures t.heap.ram[..] == old(t.heap.ram[..])[..result - 1] + [Tagword(len, RW_VECTOR_DATA)] + seq(len,
        _ => v) + old(t.heap.ram[..])[result + len..]
    ensures t.heap.sibs == old(t.heap.sibs)[RW_POINTERS_SIB :=
      old(t.heap.sibs)[RW_POINTERS_SIB].(firstFree := result + len, sweptEnd := result + len)]
    ensures old(Working(t)) && old(GoodChunk(t.world, RW_POINTERS_SIB, Tagword(len, RW_VECTOR_DATA),
        seq(len, _ => v))) ==>
        && Working(t)
        && Chunk(t.world, result)
        && (old(Snug(t)) ==> Snug(t))
  {
    hide AtWork, Nursery, GoodChunk, AddChunk, RoomFor, Unpadded;
    ghost var w, good := t.world, Working(t) && GoodChunk(t.world, RW_POINTERS_SIB, Tagword(len, RW_VECTOR_DATA),
        seq(len, _ => v));
    if good {
      VectorAdded(w, len, v, t.roots, t.heap_changelog, t.heap.hugechunks, t.heap.quire_list,
                  t.heap_allocation_buffer, t.heap_allocation_pointer, t.real_heap_allocation_limit,
                      t.heap_allocation_buffer_words);
    }
    result := WriteVector(t.heap, len, v);
    if good { t.world := AddChunk(w, RW_POINTERS_SIB, result - 1, Tagword(len, RW_VECTOR_DATA), seq(len, _ => v)); }
  }

  /** The words of a vector just written, and a word elsewhere. */
  lemma VectorWords(m': seq<Word>, m: seq<Word>, a: nat, len: nat, v: Word, x: nat)
    requires 1 <= a && a + len <= |m| && m' == m[..a - 1] + [Tagword(len, RW_VECTOR_DATA)] + seq(len,
        _ => v) + m[a + len..]
    requires x < |m| && !(a - 1 <= x < a + len)
    ensures |m'| == |m| && m'[a - 1] == Tagword(len, RW_VECTOR_DATA) && m'[x] == m[x] &&
        forall y {:trigger m'[y]} :: a <= y < a + len ==> m'[y] == v
  {
    WrittenWords(m', m, a - 1, Tagword(len, RW_VECTOR_DATA), seq(len, _ => v));
    assert forall y {:trigger m'[y]} :: a <= y < a + len ==> m'[y] == m'[a..a + len][y - a];
  }

  /** Right after a clean a vector of the value of root j makes a good chunk, if cards are right, and the root
      lies outside the sib. */
  lemma VectorFits(w: Flip, roots: seq<nat>, lists: seq<seq<nat>>, quireList: seq<nat>, lo: nat, end: nat, j: nat,
      len: nat, covered: bool)
    requires AtRestBut(w, roots, lists, quireList) && Nursery(w, lo, lo, end) && j < |roots| && len >= 1
    requires covered ==> AtRest(w, roots, lists, quireList)
    ensures |w.sibs| > RW_POINTERS_SIB && w.sibs[RW_POINTERS_SIB].limit <= |w.mem| && 0 <= roots[j] < |w.mem|
    ensures !(w.sibs[RW_POINTERS_SIB].firstFree <= roots[j] < w.sibs[RW_POINTERS_SIB].limit)
    ensures covered ==> GoodChunk(w, RW_POINTERS_SIB, Tagword(len, RW_VECTOR_DATA), seq(len, _ => w.mem[roots[j]]))
  {
    assert SibOk(w, RW_POINTERS_SIB) && RootOk(w, roots[j]);
    assert !InBuffer(w, RW_POINTERS_SIB, roots[j]);
    if covered {
      RestIsWork(w, roots, lists, quireList, lo, end);
      GoodVector(w, roots, [], lists, quireList, lo, lo, j, len);
      if w.mem[roots[j]].Pointer? { RestPlaces(w, roots, lists, quireList, lo, end, roots[j]); }
    }
  }

  /** A root lies neither in the nursery nor in a sib. */
  lemma RootElsewhere(w: Flip, roots: seq<nat>, log: seq<nat>, lists: seq<seq<nat>>, quireList: seq<nat>, lo: nat,
      hi: nat, end: nat, j: nat)
    requires AtWork(w, roots, log, lists, quireList, lo, hi) && Nursery(w, lo, hi, end) && j < |roots|
    ensures |w.sibs| > RW_POINTERS_SIB && !(lo <= roots[j] < end) &&
        !(w.sibs[RW_POINTERS_SIB].firstFree <= roots[j] < w.sibs[RW_POINTERS_SIB].limit)
    ensures w.sibs[RW_POINTERS_SIB].limit <= |w.mem| && lo <= hi <= end
  {
    assert SibOk(w, RW_POINTERS_SIB) && RootOk(w, roots[j]) && !InBuffer(w, RW_POINTERS_SIB, roots[j]);
    assert IdleWord(w, lo, hi, end, roots[j]);
  }

  /** The vector at `result` holds `len` times the value of root j. */
  predicate HoldsVector(t: Task, result: nat, len: nat, j: nat)
    reads t, t.heap, t.heap.ram
  {
    && 0 < result && result + len <= t.heap.ram.Length && j < |t.roots| && t.roots[j] < t.heap.ram.Length
    && t.heap.ram[result - 1] == Tagword(len, RW_VECTOR_DATA)
    && forall x {:trigger t.heap.ram[x]} :: result <= x < result + len ==> t.heap.ram[x] == t.heap.ram[t.roots[j]]
  }

  method MakeSmallVector(t: Task, len: nat, j: nat) returns (result: nat)
    requires Working(t) && len >= 1 && j < |t.roots| &&
        t.heap_allocation_pointer + 1 + len <= t.real_heap_allocation_limit
    modifies t`heap_allocation_pointer, t`world, t.heap.ram
    ensures result > 0 && Working(t) && HoldsVector(t, result, len, j) && Chunk(t.world, result) &&
        (old(Snug(t)) ==> Snug(t))
    ensures result == old(t.heap_allocation_pointer) + 1 && t.heap_allocation_pointer == result + len
  {
    hide AtWork, Nursery, GoodChunk;
    ghost var lo, hi, end, m := t.heap_allocation_buffer, t.heap_allocation_pointer, t.real_heap_allocation_limit,
        t.heap.ram[..];
    GoodVector(t.world, t.roots, t.heap_changelog, t.heap.hugechunks, t.heap.quire_list, lo, hi, j, len);
    RootElsewhere(t.world, t.roots, t.heap_changelog, t.heap.hugechunks, t.heap.quire_list, lo, hi, end, j);
    var init_val := t.heap.ram[t.roots[j]];
    result := CommitNascentHeapchunk(t, Tagword(len, RW_VECTOR_DATA), seq(len, _ => init_val));
    VectorWords(t.heap.ram[..], m, result, len, init_val, t.roots[j]);
  }

  /** Clean with that much more room asked for in agegroup1's sib of mutable vectors. */
  method CleanForVector(t: Task, level: nat, len: nat, ghost j: nat, bases: seq<nat>, grants: seq<nat>, unlimited: bool)
      returns (ok: bool, ghost k: nat, ghost u: Flip)
    requires Working(t) && level <= 1 && j < |t.roots| && len >= 1
    requires |t.heap.requested| > RW_POINTERS_SIB && t.heap.requested[RW_POINTERS_SIB] == 0
    requires CleanAllowed(t, bases, grants, t.heap.requested[RW_POINTERS_SIB := len + 1])
    modifies t`heap_allocation_pointer, t`heap_changelog, t`world, t.heap, t.heap.ram
    ensures t.heap.requested == old(t.heap.requested)
    ensures !ok ==> Starved(u.sibs, t.heap.requested[RW_POINTERS_SIB := len + 1], t.heap.nurseryWords, grants, 1,
        t.heap.active)
    ensures ok && (k == 0 || Safe(u, k)) ==> Working(t)
    ensures ok && old(Snug(t)) ==> Snug(t)
    ensures ok ==>
        && RW_POINTERS_SIB < |t.heap.sibs|
        && t.heap.sibs[RW_POINTERS_SIB].limit <= t.heap.ram.Length
        && t.roots[j] < t.heap.ram.Length
    ensures ok ==> !(t.heap.sibs[RW_POINTERS_SIB].firstFree <= t.roots[j] < t.heap.sibs[RW_POINTERS_SIB].limit)
    ensures ok && (k == 0 || Safe(u, k)) ==> GoodChunk(t.world, RW_POINTERS_SIB, Tagword(len, RW_VECTOR_DATA),
        RootValues(t, j, len))
    ensures ok && k > 0 ==>
        && RW_POINTERS_SIB < |t.heap.softMax|
        && RoomByBooks(t.heap.sibs[RW_POINTERS_SIB], len + 1, t.heap_allocation_buffer_words,
        t.heap.softMax[RW_POINTERS_SIB], unlimited)
    ensures t.heap.softMax == old(t.heap.softMax) && t.heap.nurseryWords == old(t.heap.nurseryWords)
    ensures ok ==> Spares(old(t.world), t.world, bases, grants) && HeapIs(t.heap, t.world)
    ensures ok && level > 0 ==> k > 0
    ensures ok && (Unmixed(old(t.world)) || Vacant(old(t.world))) ==>
        Working(t) && GoodChunk(t.world, RW_POINTERS_SIB, Tagword(len, RW_VECTOR_DATA), RootValues(t, j, len))
    ensures !ok && Vacant(old(t.world)) ==> Vacant(u) && |u.sibs| == 4 * t.heap.active
    ensures ok && Vacant(old(t.world)) ==> t.heap.sibs[RW_POINTERS_SIB].firstFree == t.heap.sibs[RW_POINTERS_SIB].start
  {
    hide Working, Snug, CleanAllowed, GoodChunk, Safe, Starved, AtRest, AtRestBut, Nursery, Spares, Unmixed,
         VectorRoom, Vacant;
    hide RoomByBooks, HeapIs;
    ghost var w, empty, mixed := t.world, Vacant(t.world), !Unmixed(t.world) && !Vacant(t.world);
    var n;
    ok, n, u := CleanWithRequest(t, level, len, bases, grants, unlimited);
    k := n;
    if ok {
      ghost var safe := k == 0 || Safe(u, k) || !mixed;
      SparesKinds(w, t.world, bases, grants);
      HeapFields(t.heap, t.world);
      if empty { VacantVector(t.world, t.roots, t.heap.hugechunks, t.heap.quire_list); }
      if k > 0 {
        VectorRoomIs(t.heap.sibs, t.heap.requested[RW_POINTERS_SIB := len + 1], t.heap.softMax,
            t.heap_allocation_buffer_words, unlimited);
      }
      VectorFits(t.world, t.roots, t.heap.hugechunks, t.heap.quire_list, t.heap_allocation_buffer,
          t.real_heap_allocation_limit, j, len, safe);
    }
  }

  lemma HeapFields(h: Heap, w: Flip)
    requires HeapIs(h, w)
    ensures h.ram[..] == w.mem && h.sibs == w.sibs
  {
  }

  /** Ask for room for a vector, clean, and ask no more. */
  method CleanWithRequest(t: Task, level: nat, len: nat, bases: seq<nat>, grants: seq<nat>, unlimited: bool)
      returns (ok: bool, k: nat, ghost u: Flip)
    requires Working(t) && level <= 1 && len >= 1
    requires |t.heap.requested| > RW_POINTERS_SIB && t.heap.requested[RW_POINTERS_SIB] == 0
    requires CleanAllowed(t, bases, grants, t.heap.requested[RW_POINTERS_SIB := len + 1])
    modifies t`heap_allocation_pointer, t`heap_changelog, t`world, t.heap, t.heap.ram
    ensures t.heap.requested == old(t.heap.requested) && t.heap.softMax == old(t.heap.softMax) &&
        t.heap.nurseryWords == old(t.heap.nurseryWords)
    ensures !ok ==> Starved(u.sibs, t.heap.requested[RW_POINTERS_SIB := len + 1], t.heap.nurseryWords, grants, 1,
        t.heap.active)
    ensures ok ==> HeapIs(t.heap, t.world) && AtRestBut(t.world, t.roots, t.heap.hugechunks, t.heap.quire_list)
    ensures ok ==> Nursery(t.world, t.heap_allocation_buffer, t.heap_allocation_buffer, t.real_heap_allocation_limit)
    ensures ok && (k == 0 || Safe(u, k) || Unmixed(old(t.world)) || Vacant(old(t.world))) ==>
        Working(t) && AtRest(t.world, t.roots, t.heap.hugechunks, t.heap.quire_list)
    ensures Vacant(old(t.world)) ==> Vacant(u) && |u.sibs| == 4 * t.heap.active
    ensures ok && old(Snug(t)) ==> Snug(t)
    ensures ok ==> Spares(old(t.world), t.world, bases, grants) && (level > 0 ==> k > 0)
    ensures ok && k > 0 ==> VectorRoom(t.heap.sibs, t.heap.requested[RW_POINTERS_SIB := len + 1], t.heap.softMax,
        t.heap_allocation_buffer_words, unlimited)
  {
    hide AtWork, AtRest, AtRestBut, Nursery, Safe, Starved, Unpadded, DataRoomFor, GrantsOk, GrantsFresh, GapsFitBoth;
    hide MinorDid, DidClean, CardsFollow, ShortOfRoom, RoomFor, RoomLeft, Spares, Unmixed, VectorRoom, Vacant;
    ghost var requested := t.heap.requested;
    t.heap.requested := t.heap.requested[RW_POINTERS_SIB := t.heap.requested[RW_POINTERS_SIB] + len + 1];
    ok, k, u := Heapclean(t, level, bases, grants, unlimited);
    t.heap.requested := t.heap.requested[RW_POINTERS_SIB := 0];
    assert t.heap.requested == requested;
    assert requested[RW_POINTERS_SIB := len + 1] == requested[RW_POINTERS_SIB := 0 + len + 1];
  }

  lemma VectorRoomIs(sibs: seq<Sib>, requested: seq<nat>, softMax: seq<nat>, buffer: nat, unlimited: bool)
    requires VectorRoom(sibs, requested, softMax, buffer, unlimited)
    ensures RW_POINTERS_SIB < |sibs| == |requested| == |softMax|
    ensures RoomByBooks(sibs[RW_POINTERS_SIB], requested[RW_POINTERS_SIB], buffer, softMax[RW_POINTERS_SIB], unlimited)
  {
  }

  lemma VacantVector(w: Flip, roots: seq<nat>, lists: seq<seq<nat>>, quireList: seq<nat>)
    requires AtRestBut(w, roots, lists, quireList) && Vacant(w)
    ensures RW_POINTERS_SIB < |w.sibs| && w.sibs[RW_POINTERS_SIB].firstFree == w.sibs[RW_POINTERS_SIB].start
  {
    assert SibOk(w, RW_POINTERS_SIB);
  }

  ghost function RootValues(t: Task, j: nat, len: nat): seq<Word>
    requires j < |t.roots| && t.roots[j] < t.heap.ram.Length
    reads t, t.heap, t.heap.ram
  {
    var v := t.heap.ram[t.roots[j]];
    seq(len, _ => v)
  }

  method PlaceRootVector(t: Task, len: nat, j: nat) returns (result: nat)
    requires RW_POINTERS_SIB < |t.heap.sibs| && !Lacks(t.heap.sibs[RW_POINTERS_SIB], len + 1,
        t.heap_allocation_buffer_words)
    requires len >= 1 && t.heap.sibs[RW_POINTERS_SIB].limit <= t.heap.ram.Length && j < |t.roots| &&
        t.roots[j] < t.heap.ram.Length
    requires !(t.heap.sibs[RW_POINTERS_SIB].firstFree <= t.roots[j] < t.heap.sibs[RW_POINTERS_SIB].limit)
    modifies t`world, t.heap`sibs, t.heap.ram
    ensures result > 0 && HoldsVector(t, result, len, j) && result == old(t.heap.sibs)[RW_POINTERS_SIB].firstFree + 1
    ensures t.heap.sibs == old(t.heap.sibs)[RW_POINTERS_SIB :=
      old(t.heap.sibs)[RW_POINTERS_SIB].(firstFree := result + len, sweptEnd := result + len)]
    ensures old(Working(t)) && old(GoodChunk(t.world, RW_POINTERS_SIB, Tagword(len, RW_VECTOR_DATA),
        RootValues(t, j, len))) ==>
        && Working(t)
        && Chunk(t.world, result)
        && (old(Snug(t)) ==> Snug(t))
  {
    hide Working, GoodChunk;
    var init_val := t.heap.ram[t.roots[j]];
    ghost var m := t.heap.ram[..];
    result := PlaceVector(t, len, init_val);
    VectorWords(t.heap.ram[..], m, result, len, init_val, t.roots[j]);
  }

  lemma BeforeVector(t: Task, len: nat, j: nat)
    requires Working(t) && len >= 1 && j < |t.roots|
    ensures RW_POINTERS_SIB < |t.heap.sibs| && t.heap.sibs[RW_POINTERS_SIB].limit <= t.heap.ram.Length &&
        t.roots[j] < t.heap.ram.Length
    ensures !(t.heap.sibs[RW_POINTERS_SIB].firstFree <= t.roots[j] < t.heap.sibs[RW_POINTERS_SIB].limit)
    ensures !t.heap.ram[t.roots[j]].Pointer? ==> GoodChunk(t.world, RW_POINTERS_SIB, Tagword(len, RW_VECTOR_DATA),
        RootValues(t, j, len))
  {
    var lo, hi, end := t.heap_allocation_buffer, t.heap_allocation_pointer, t.real_heap_allocation_limit;
    GoodVector(t.world, t.roots, t.heap_changelog, t.heap.hugechunks, t.heap.quire_list, lo, hi, j, len);
    RootElsewhere(t.world, t.roots, t.heap_changelog, t.heap.hugechunks, t.heap.quire_list, lo, hi, end, j);
  }

  /** Allocate a mutable vector of `len` slots, each holding the value of root j: in the nursery if it is small,
      else in agegroup1, which is cleaned first if it is short of room or the value might refer to the
      nursery.  `result` is 0 when even that left no room; the caller would clean again.  `fit` is the sib as the
      cleaning left it: after a major clean there is no room just if it fits the need exactly. */
  method MakeNonemptyRwVector(t: Task, len: nat, j: nat, bases: seq<nat>, grants: seq<nat>, unlimited: bool)
    returns (ok: bool, result: nat, ghost k: nat, ghost u: Flip, ghost fit: Sib)
    requires Working(t) && len >= 1 && j < |t.roots|
    requires len <= MAX_AGEGROUP0_ALLOCATION_SIZE_IN_WORDS ==>
        t.heap_allocation_pointer + 1 + len <= t.real_heap_allocation_limit
    requires |t.heap.requested| > RW_POINTERS_SIB && t.heap.requested[RW_POINTERS_SIB] == 0
    requires CleanAllowed(t, bases, grants, t.heap.requested[RW_POINTERS_SIB := len + 1])
    modifies t`heap_allocation_pointer, t`heap_changelog, t`world, t.heap, t.heap.ram
    ensures t.heap.requested == old(t.heap.requested) && t.heap.softMax == old(t.heap.softMax) &&
        t.heap.nurseryWords == old(t.heap.nurseryWords)
    ensures !ok ==> Starved(u.sibs, t.heap.requested[RW_POINTERS_SIB := len + 1], t.heap.nurseryWords, grants, 1,
        t.heap.active)
    ensures !ok && Vacant(old(t.world)) ==> Vacant(u) && |u.sibs| == 4 * t.heap.active
    ensures ok && (k == 0 || Safe(u, k)) ==>
        && Working(t)
        && (result != 0 ==> Chunk(t.world, result))
        && (old(Snug(t)) ==> Snug(t))
    ensures ok && (Unmixed(old(t.world)) || Vacant(old(t.world))) ==> Working(t)
    ensures ok && result != 0 ==> HoldsVector(t, result, len, j)
    ensures ok && result == 0 ==> len > MAX_AGEGROUP0_ALLOCATION_SIZE_IN_WORDS && (k > 0 ==> ExactFit(t.heap.sibs,
        len + 1 + t.heap_allocation_buffer_words))
    ensures ok && k > 0 ==> RW_POINTERS_SIB < |t.heap.softMax| && RoomByBooks(fit, len + 1,
        t.heap_allocation_buffer_words, t.heap.softMax[RW_POINTERS_SIB], unlimited)
    ensures ok && k > 0 ==> (result == 0 <==> fit.limit - fit.firstFree == len + 1 + t.heap_allocation_buffer_words)
    ensures ok && k > 0 && Vacant(old(t.world)) ==> fit.firstFree == fit.start
    ensures ok && len > MAX_AGEGROUP0_ALLOCATION_SIZE_IN_WORDS ==>
      (result == 0 <==> fit.limit <= fit.start || fit.limit - fit.firstFree <= len + 1 + t.heap_allocation_buffer_words)
    ensures ok && len > MAX_AGEGROUP0_ALLOCATION_SIZE_IN_WORDS ==>
        && RW_POINTERS_SIB < |t.heap.sibs|
        && (result == 0 ==> t.heap.sibs[RW_POINTERS_SIB] == fit)
        && (result != 0 ==> result == fit.firstFree + 1)
        && (result != 0 ==>
            t.heap.sibs[RW_POINTERS_SIB] == fit.(firstFree := result + len, sweptEnd := result + len))
    ensures len <= MAX_AGEGROUP0_ALLOCATION_SIZE_IN_WORDS ==>
        && ok && k == 0 && t.heap.sibs == old(t.heap.sibs)
        && result == old(t.heap_allocation_pointer) + 1 && t.heap_allocation_pointer == result + len
    ensures len > MAX_AGEGROUP0_ALLOCATION_SIZE_IN_WORDS && old(AtOnce(t, len, j)) ==>
        ok && k == 0 && result > 0 && old(RW_POINTERS_SIB < |t.heap.sibs|) &&
        fit == old(t.heap.sibs)[RW_POINTERS_SIB] &&
        t.heap.sibs == old(t.heap.sibs)[RW_POINTERS_SIB := fit.(firstFree := result + len, sweptEnd := result + len)] &&
        t.heap_allocation_pointer == old(t.heap_allocation_pointer) && t.heap_changelog == old(t.heap_changelog)
    ensures ok && result == 0 ==> Spares(old(t.world), t.world, bases, grants) && (old(Snug(t)) ==> Snug(t))
    ensures ok && len > MAX_AGEGROUP0_ALLOCATION_SIZE_IN_WORDS && old(NoRoom(t, len)) ==> k > 0
  {
    hide Working, Snug, HoldsVector, GoodChunk, Safe, Starved, CleanAllowed, Spares, Vacant, Unmixed, RoomByBooks;
    k, u, ok, result := 0, t.world, true, 0;
    if len <= MAX_AGEGROUP0_ALLOCATION_SIZE_IN_WORDS {
      fit := Sib(0, 0, 0, 0, 0, 0, 0, 0, 0);
      result := MakeSmallVector(t, len, j);
      return;
    }
    BeforeVector(t, len, j);
    fit := t.heap.sibs[RW_POINTERS_SIB];
    var gc_level := if t.heap.ram[t.roots[j]].Pointer? then 0 else -1;
    if Lacks(t.heap.sibs[RW_POINTERS_SIB], len + 1, t.heap_allocation_buffer_words) {
      gc_level := 1;
    }
    if gc_level >= 0 {
      ok, k, u := CleanForVector(t, gc_level, len, j, bases, grants, unlimited);
      if ok {
        fit := t.heap.sibs[RW_POINTERS_SIB];
        if k > 0 { LacksOnExactFit(t.heap.sibs, t.heap_allocation_buffer_words, len, t.heap.softMax[RW_POINTERS_SIB],
            unlimited); }
      }
      if !ok || Lacks(t.heap.sibs[RW_POINTERS_SIB], len + 1, t.heap_allocation_buffer_words) {
        return;
      }
    }
    result := PlaceRootVector(t, len, j);
  }

  /** Once it is known that the room asked for is there, the test for more than that fails just on an exact fit. */
  lemma LacksOnExactFit(sibs: seq<Sib>, buffer: nat, len: nat, soft_max_bytesize: nat, unlimited: bool)
    requires RW_POINTERS_SIB < |sibs| && RoomByBooks(sibs[RW_POINTERS_SIB], len + 1, buffer, soft_max_bytesize,
        unlimited)
    ensures Lacks(sibs[RW_POINTERS_SIB], len + 1, buffer) <==> ExactFit(sibs, len + 1 + buffer)
  {
  }

  predicate ExactFit(sibs: seq<Sib>, words: nat) {
    |sibs| > RW_POINTERS_SIB && sibs[RW_POINTERS_SIB].limit - sibs[RW_POINTERS_SIB].firstFree == words
  }
}
