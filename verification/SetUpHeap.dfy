/** set_up_heap of heapcleaner-initialization.c: a run starts at work. */
module SetUpHeap {
  import opened HeapTags
  import opened HeapModel
  import opened Forwarding
  import opened HeapObject
  import opened MajorSizing
  import opened MajorHuge
  import opened HeapWorld
  import opened MajorSetup
  import opened MajorMain
  import opened MinorRest
  import opened NurseryLabels
  import opened CallHeapcleaner
  import opened TaskObject
  import opened FirstHeap

  lemma Offsets4(size: nat)
    ensures var sizes := [size, size, size, size];
      Offset(sizes, 0) == 0 && Offset(sizes, 1) == size && Offset(sizes, 2) == 2 * size &&
          Offset(sizes, 3) == 3 * size && Offset(sizes, 4) == 4 * size
  {
  }

  lemma BookSide(p: nat, b: nat)
    requires p % BOOK == 0
    ensures p / BOOK <= b <==> p <= b * BOOK
  {
  }

  lemma PartIs(l: Plan, s: nat, b: nat)
    requires Sane(l) && s < 4
    ensures InPart(l.base, [l.size, l.size, l.size, l.size], s, b) <==> SibOfWord(l, b * BOOK) == s
  {
    Offsets4(l.size);
    WholeBooks(l.base, l.size);
    WholeBooks(l.base + l.size, l.size);
    WholeBooks(l.base + 2 * l.size, l.size);
    WholeBooks(l.base + 3 * l.size, l.size);
    BookSide(l.base, b);
    BookSide(l.base + l.size, b);
    BookSide(l.base + 2 * l.size, b);
    BookSide(l.base + 3 * l.size, b);
    BookSide(l.base + 4 * l.size, b);
  }

  /** The label table once the nursery's and agegroup1's books are labelled. */
  lemma BookLabelled(l: Plan, b2s0: seq<Sibid>, b2s: seq<Sibid>, b: nat)
    requires Sane(l) && b < |b2s| == |b2s0| && Labelled(b2s0, b2s, 0, l.base, [l.size, l.size, l.size, l.size], 4, b)
    requires b2s0[b] == if l.lo / BOOK <= b < (l.lo + l.master) / BOOK then AGEGROUP0_SIBID else UNMAPPED_BOOK_SIBID
    ensures b2s[b] == LabelOfBook(l, b)
  {
    var sizes := [l.size, l.size, l.size, l.size];
    forall s: nat | s < 4 ensures InPart(l.base, sizes, s, b) <==> SibOfWord(l, b * BOOK) == s { PartIs(l, s, b); }
    SibBounds(l, b * BOOK);
    WholeBooks(l.lo, l.master);
    BookSide(l.lo, b);
    BookSide(l.lo + l.master, b);
    var i := SibOfWord(l, b * BOOK);
    if i >= 0 { assert InPart(l.base, sizes, i, b); }
  }

  lemma SibPlacedFirst(l: Plan, i: nat, s: Sib)
    requires Sane(l) && i < 4 && s == Placed(Sib(0, 0, 0, 0, 0, 0, 0, 0, if i / 4 + 1 == l.active then i else i + 4),
        l.base, [l.size, l.size, l.size, l.size], i)
    ensures s.(seniorEnd := s.start) == FirstSib(l, i)
  {
    Offsets4(l.size);
  }

  /** A heap none of whose agegroups has a buffer. */
  method EmptyHeap(l: Plan, ratios: seq<nat>, softMax: seq<nat>) returns (h: Heap)
    requires |ratios| == l.active && |softMax| == 4 * l.active
    ensures fresh(h) && fresh(h.ram) && h.active == l.active && h.ram.Length == l.words && |h.b2s| == l.books &&
        |h.sibs| == 4 * l.active
    ensures forall x {:trigger h.ram[x]} :: 0 <= x < h.ram.Length ==> h.ram[x] == HEAP_VOID
    ensures forall b {:trigger h.b2s[b]} :: 0 <= b < |h.b2s| ==> h.b2s[b] == UNMAPPED_BOOK_SIBID
    ensures forall i {:trigger h.sibs[i]} :: 0 <= i < |h.sibs| ==>
        h.sibs[i] == Sib(0, 0, 0, 0, 0, 0, 0, 0, if i / 4 + 1 == l.active then i else i + 4)
    ensures h.cards == seq(l.active, a requires 0 <= a < l.active => FirstCards(l, a))
    ensures h.quires == map[] && h.huge == [] && h.quire_list == [] && h.weakrefs == 0 && h.nurseryWords == l.master
    ensures |h.hugechunks| == l.active && forall a {:trigger h.hugechunks[a]} ::
        0 <= a < l.active ==> h.hugechunks[a] == []
    ensures h.requested == seq(4 * l.active, _ => 0) && h.softMax == softMax && h.ratios == ratios &&
        CountsOk(h.counts, h.youngerCounts, l.active)
  {
    hide FirstCards;
    h := new Heap(l.words, l.active);
    SetTables(h, l);
    SetSizing(h, l, ratios, softMax);
  }

  method SetTables(h: Heap, l: Plan)
    modifies h`b2s, h`sibs, h`cards, h`hugechunks
    ensures |h.b2s| == l.books && forall b {:trigger h.b2s[b]} :: 0 <= b < |h.b2s| ==> h.b2s[b] == UNMAPPED_BOOK_SIBID
    ensures |h.sibs| == 4 * l.active
    ensures forall i {:trigger h.sibs[i]} :: 0 <= i < |h.sibs| ==>
        h.sibs[i] == Sib(0, 0, 0, 0, 0, 0, 0, 0, if i / 4 + 1 == l.active then i else i + 4)
    ensures h.cards == seq(l.active, a requires 0 <= a < l.active => FirstCards(l, a))
    ensures |h.hugechunks| == l.active && forall a {:trigger h.hugechunks[a]} ::
        0 <= a < l.active ==> h.hugechunks[a] == []
  {
    hide FirstCards;
    h.b2s := seq(l.books, _ => UNMAPPED_BOOK_SIBID);
    h.sibs := seq(4 * l.active, i requires 0 <= i < 4 * l.active => Sib(0, 0, 0, 0, 0, 0, 0, 0,
        if i / 4 + 1 == l.active then i else i + 4));
    h.cards := seq(l.active, a requires 0 <= a < l.active => FirstCards(l, a));
    h.hugechunks := seq(l.active, _ => []);
  }

  method SetSizing(h: Heap, l: Plan, ratios: seq<nat>, softMax: seq<nat>)
    modifies h`requested, h`softMax, h`ratios, h`counts, h`youngerCounts, h`nurseryWords
    ensures h.requested == seq(4 * l.active,
        _ => 0) && h.softMax == softMax && h.ratios == ratios && h.nurseryWords == l.master
    ensures CountsOk(h.counts, h.youngerCounts, l.active)
  {
    h.requested, h.softMax, h.ratios := seq(4 * l.active, _ => 0), softMax, ratios;
    h.counts, h.youngerCounts, h.nurseryWords := seq(l.active + 1, _ => 0), seq(l.active, _ => 0), l.master;
  }

  lemma TwiceTheNursery(buffer: nat)
    requires buffer >= 2
    ensures buffer + 2 <= BookRounded(8 * buffer)
  {
  }

  /** Set up a heap with the given number of agegroups, and a hostthread with an empty nursery and changelog. */
  method SetUp(l: Plan, limit: nat, buffer: nat, ratios: seq<nat>, softMax: seq<nat>) returns (t: Task)
    requires Sane(l) && l.lo < limit && limit - l.lo <= buffer && limit <= l.lo + l.master && buffer <= l.master
    requires l.size == BookRounded(8 * buffer) && buffer >= 2
    requires |ratios| == l.active && |softMax| == 4 * l.active
    requires forall i {:trigger softMax[i]} :: 0 <= i < |softMax| ==> softMax[i] >= 4 && softMax[i] % 4 == 0
    ensures fresh(t) && fresh(t.heap) && fresh(t.heap.ram) && t.roots == l.roots && t.heap.active == l.active
    ensures t.heap_allocation_buffer == t.heap_allocation_pointer == l.lo && t.real_heap_allocation_limit == limit &&
        t.heap_allocation_buffer_words == buffer
    ensures Working(t) && Snug(t)
    ensures t.world == FirstWorld(l) && t.heap.requested == seq(4 * l.active, _ => 0) && t.heap.softMax == softMax &&
        t.heap.nurseryWords == l.master
  {
    hide AtWork, Nursery, Unpadded, RoomFor, DataRoomFor, FirstWorld, FirstSib, LabelOfBook, FirstCards;
    var h := EmptyHeap(l, ratios, softMax);
    BuildAgegroup1(h, l);
    t := new Task(h, l.roots, l.lo, limit, buffer);
    t.world := FirstWorld(l);
    WorldBuilt(l, h.ram[..], h.b2s, h.sibs, h.cards);
    TwiceTheNursery(buffer);
    FirstWorks(l, h.hugechunks, limit, buffer);
  }

  /** The first heap is at work with an empty nursery. */
  lemma FirstWorks(l: Plan, lists: seq<seq<nat>>, limit: nat, buffer: nat)
    requires Sane(l) && |lists| == l.active && (forall a {:trigger lists[a]} :: 0 <= a < l.active ==> lists[a] == [])
    requires l.lo < limit <= l.lo + l.master && limit - l.lo <= buffer && buffer + 2 <= l.size
    ensures var w := FirstWorld(l);
      && AtWork(w, l.roots, [], lists, [], l.lo, l.lo) && Nursery(w, l.lo, l.lo, limit) && RoomFor(w.sibs, limit - l.lo)
      && Unpadded(w) && DataRoomFor(w.sibs, limit - l.lo)
  {
    FirstHeapRests(l, lists, limit - l.lo);
    FirstNursery(l, limit);
    RestIsWork(FirstWorld(l), l.roots, lists, [], l.lo, limit);
    FirstIsSnug(l, limit - l.lo);
  }

  lemma FirstIsSnug(l: Plan, buffer: nat)
    requires Sane(l) && buffer + 2 <= l.size
    ensures Unpadded(FirstWorld(l)) && DataRoomFor(FirstWorld(l).sibs, buffer)
  {
    FirstIsWellFormed(l);
    FirstSibOk(l, NONPTR_DATA_SIB);
    assert NONPTR_DATA_SIB * l.size + l.size == (NONPTR_DATA_SIB + 1) * l.size;
  }

  lemma WorldBuilt(l: Plan, m: seq<Word>, b2s: seq<Sibid>, sibs: seq<Sib>, cards: seq<CardMap>)
    requires cards == seq(l.active, a requires 0 <= a < l.active => FirstCards(l, a))
    requires Sane(l) && |m| == l.words && |b2s| == l.books && |sibs| == 4 * l.active
    requires forall x {:trigger m[x]} :: 0 <= x < |m| ==> m[x] == HEAP_VOID
    requires forall b {:trigger b2s[b]} :: 0 <= b < |b2s| ==> b2s[b] == LabelOfBook(l, b)
    requires forall i {:trigger sibs[i]} :: 0 <= i < |sibs| ==> sibs[i] == FirstSib(l, i)
    ensures var w := FirstWorld(l);
      && w.mem == m
      && w.b2s == b2s
      && w.sibs == sibs
      && w.cards == cards
      && w.quires == map[]
      && w.huge == []
      && w.k == l.active
  {
  }

  /** Label the nursery, then lay out and label the buffers of agegroup1. */
  method BuildAgegroup1(h: Heap, l: Plan)
    requires Sane(l) && h.active == l.active && h.ram.Length == l.words && |h.b2s| == l.books &&
        |h.sibs| == 4 * l.active
    requires forall x {:trigger h.ram[x]} :: 0 <= x < h.ram.Length ==> h.ram[x] == HEAP_VOID
    requires forall b {:trigger h.b2s[b]} :: 0 <= b < |h.b2s| ==> h.b2s[b] == UNMAPPED_BOOK_SIBID
    requires forall i {:trigger h.sibs[i]} :: 0 <= i < |h.sibs| ==>
        h.sibs[i] == Sib(0, 0, 0, 0, 0, 0, 0, 0, if i / 4 + 1 == l.active then i else i + 4)
    modifies h`b2s, h`sibs, h.ram
    ensures |h.b2s| == l.books && |h.sibs| == 4 * l.active
    ensures forall x {:trigger h.ram[x]} :: 0 <= x < h.ram.Length ==> h.ram[x] == HEAP_VOID
    ensures forall b {:trigger h.b2s[b]} :: 0 <= b < |h.b2s| ==> h.b2s[b] == LabelOfBook(l, b)
    ensures forall i {:trigger h.sibs[i]} :: 0 <= i < |h.sibs| ==> h.sibs[i] == FirstSib(l, i)
  {
    ghost var sibs0 := h.sibs;
    PartsInTable(l);
    SetBook2sibidEntriesForRange(h, l.lo / BOOK, (l.lo + l.master) / BOOK, AGEGROUP0_SIBID);
    ghost var b2s0 := h.b2s;
    var sizes := [l.size, l.size, l.size, l.size];
    Offsets4(l.size);
    SetUpTospaceSibBuffersForAgegroup(h, 0, sizes, l.base);
    ghost var sibs1 := h.sibs;
    forall b | 0 <= b < |h.b2s| ensures h.b2s[b] == LabelOfBook(l, b) { BookLabelled(l, b2s0, h.b2s, b); }
    var i := 0;
    while i < 4
      invariant i <= 4 && |h.sibs| == 4 * l.active
      invariant forall j {:trigger h.sibs[j]} :: 0 <= j < |h.sibs| ==>
          h.sibs[j] == if j < i then sibs1[j].(seniorEnd := sibs1[j].start) else sibs1[j]
      modifies h`sibs
    {
      h.sibs := h.sibs[i := h.sibs[i].(seniorEnd := h.sibs[i].start)];
      i := i + 1;
    }
    forall j | 0 <= j < |h.sibs| ensures h.sibs[j] == FirstSib(l, j) {
      assert j < 4 ==> sibs1[j] == Placed(sibs0[j], l.base, sizes, j);
      if j < 4 { SibPlacedFirst(l, j, sibs1[j]); }
    }
  }

  lemma PartsInTable(l: Plan)
    requires Sane(l)
    ensures (l.lo + l.master) / BOOK <= l.books && (l.base + 4 * l.size) / BOOK <= l.books
  {
  }
}
