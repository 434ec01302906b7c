/** set_up_heap of heapcleaner-initialization.c: the heap a run starts from.

    Agegroup1 gets one empty buffer per sib, each of twice the nursery's size in whole books; the older
    agegroups have none yet. */
module FirstHeap {
  import opened HeapTags
  import opened HeapModel
  import opened Forwarding
  import opened HeapObject
  import opened MajorForward
  import opened MajorCards
  import opened MajorRoots
  import opened MajorSizing
  import opened MajorHuge
  import opened HeapWorld
  import opened MinorForward
  import opened MinorRest
  import opened NurseryLabels
  import opened CallHeapcleaner

  /** Where things lie: the nursery's words lo to lo + master, then agegroup1's buffers from base on. */
  datatype Plan = Plan(words: nat, books: nat, active: nat, roots: seq<nat>, lo: nat, master: nat, base: nat, size: nat)

  predicate Sane(l: Plan) {
    && 1 <= l.active <= MAX_AGEGROUPS && l.words <= l.books * BOOK
    && l.lo % BOOK == 0 && l.master % BOOK == 0 && l.base % BOOK == 0 && l.size % BOOK == 0 && BOOK <= l.size
    && 0 < l.base && l.lo + l.master <= l.base && l.base + 4 * l.size <= l.words
    && (forall j {:trigger l.roots[j]} :: 0 <= j < |l.roots| ==> l.roots[j] < l.lo)
    && (forall i, j {:trigger l.roots[i], l.roots[j]} :: 0 <= i < j < |l.roots| ==> l.roots[i] != l.roots[j])
  }

  /** The sib of agegroup1 whose buffer a word or book lies in; the first pair of the pair space is set aside. */
  function SibOfWord(l: Plan, x: nat): int {
    if x < l.base || l.base + 4 * l.size <= x then -1
    else if x < l.base + l.size then 0
    else if x < l.base + 2 * l.size then 1
    else if x < l.base + 3 * l.size then 2
    else 3
  }

  function LabelOfBook(l: Plan, b: nat): Sibid {
    var i := SibOfWord(l, b * BOOK);
    if i >= 0 then Sibid(1, i + 1, 0) else if l.lo <= b * BOOK < l.lo + l.master then AGEGROUP0_SIBID
        else UNMAPPED_BOOK_SIBID
  }

  function FirstSib(l: Plan, i: nat): Sib {
    var promoted := if i / 4 + 1 == l.active then i else i + 4;
    if i < 4 then
      var p := l.base + i * l.size + if i == RO_CONSCELL_SIB then 2 else 0;
      Sib(p, p, l.base + (i + 1) * l.size, p, 0, 0, 0, p, promoted)
    else Sib(0, 0, 0, 0, 0, 0, 0, 0, promoted)
  }

  function FirstZone(l: Plan, x: nat): Zone {
    var i := SibOfWord(l, x);
    if 0 <= i < 4 && FirstSib(l, i).start <= x then New(i) else Fixed
  }

  function FirstCards(l: Plan, a: nat): CardMap {
    if a == 0 then CardMap(l.base + 3 * l.size, seq(l.size / CARD, _ => CLEAN_CARD)) else CardMap(0, [])
  }

  ghost function FirstWorld(l: Plan): Flip
    requires Sane(l)
  {
    Flip(seq(l.words, _ => HEAP_VOID), seq(l.books, b requires 0 <= b < l.books => LabelOfBook(l, b)),
         seq(4 * l.active, i requires 0 <= i < 4 * l.active => FirstSib(l, i)),
         seq(l.words, x requires 0 <= x < l.words => FirstZone(l, x)),
         set x | x in l.roots :: x as int, map[], [], seq(l.active,
             a requires 0 <= a < l.active => FirstCards(l, a)), l.active)
  }

  // ------------------------------------------------------------------ words and labels

  lemma SibBounds(l: Plan, x: nat)
    requires Sane(l)
    ensures var i := SibOfWord(l, x);
      if i < 0 then i == -1 && !(l.base <= x < l.base + 4 * l.size)
      else i < 4 && l.base + i * l.size <= x < l.base + (i + 1) * l.size
  {
    var i := SibOfWord(l, x);
    if i == 1 { assert i * l.size == l.size; } else if i == 2 { assert i * l.size == 2 * l.size; }
        else if i == 3 { assert i * l.size == 3 * l.size; }
  }

  /** Whatever lies in a part made of whole books is labelled as that part. */
  lemma SameBookSameSib(l: Plan, x: nat)
    requires Sane(l)
    ensures SibOfWord(l, x / BOOK * BOOK) == SibOfWord(l, x)
    ensures (l.lo <= x < l.lo + l.master) <==> (l.lo <= x / BOOK * BOOK < l.lo + l.master)
  {
    WholeBooks(l.lo, l.master);
    WholeBooks(l.base, l.size);
    WholeBooks(l.base + l.size, l.size);
    WholeBooks(l.base + 2 * l.size, l.size);
    WholeBooks(l.base + 3 * l.size, l.size);
    FloorKeepsSide(x, l.lo);
    FloorKeepsSide(x, l.lo + l.master);
    FloorKeepsSide(x, l.base);
    FloorKeepsSide(x, l.base + l.size);
    FloorKeepsSide(x, l.base + 2 * l.size);
    FloorKeepsSide(x, l.base + 3 * l.size);
    FloorKeepsSide(x, l.base + 4 * l.size);
    SidesDecide(l, x, x / BOOK * BOOK);
  }

  lemma WholeBooks(a: nat, b: nat)
    requires a % BOOK == 0 && b % BOOK == 0
    ensures (a + b) % BOOK == 0
  {
  }

  lemma SidesDecide(l: Plan, x: nat, y: nat)
    requires l.base <= x <==> l.base <= y
    requires l.base + l.size <= x <==> l.base + l.size <= y
    requires l.base + 2 * l.size <= x <==> l.base + 2 * l.size <= y
    requires l.base + 3 * l.size <= x <==> l.base + 3 * l.size <= y
    requires l.base + 4 * l.size <= x <==> l.base + 4 * l.size <= y
    ensures SibOfWord(l, x) == SibOfWord(l, y)
  {
  }

  lemma FloorKeepsSide(x: nat, p: nat)
    requires p % BOOK == 0
    ensures p <= x <==> p <= x / BOOK * BOOK
  {
  }

  lemma QuarterIs(base: nat, size: nat, i: nat, x: nat)
    requires i < 4 && base + i * size <= x < base + (i + 1) * size
    ensures i == if x < base + size then 0 else if x < base + 2 * size then 1 else if x < base + 3 * size then 2 else 3
  {
  }

  /** The label of an address. */
  lemma FirstLabel(l: Plan, x: nat)
    requires Sane(l)
    ensures var w := FirstWorld(l); var i := SibOfWord(l, x);
      SibidFor(w.b2s, x) == if i >= 0 then Sibid(1, i + 1, 0) else if l.lo <= x < l.lo + l.master then AGEGROUP0_SIBID
          else UNMAPPED_BOOK_SIBID
  {
    SameBookSameSib(l, x);
    SibBounds(l, x);
    if x >= l.books * BOOK {
      assert x / BOOK >= l.books;
    } else {
      assert x / BOOK < l.books;
    }
  }

  // ------------------------------------------------------------------ the heap is at rest

  lemma FirstSibOk(l: Plan, i: nat)
    requires Sane(l) && i < 4 * l.active
    ensures var w := FirstWorld(l);
      && SibOk(w, i)
      && SibRests(w, i)
      && SweepStart(w, i)
      && MapOk(w, w.cards, i)
      && Active(w.sibs[i]) == (i < 4)
    ensures var w := FirstWorld(l); i < 4 ==>
        l.base + i * l.size <= w.sibs[i].start < w.sibs[i].limit == l.base + (i + 1) * l.size
  {
    if i < 4 {
      var s := l.size;
      assert s >= BOOK && (i + 1) * s <= 4 * s && i * s + s == (i + 1) * s;
      if i == 3 { CardsOfBooks(l); }
    }
  }

  lemma CardsOfBooks(l: Plan)
    requires Sane(l)
    ensures (l.base + 3 * l.size) % CARD == 0 && l.size / CARD * CARD == l.size
  {
    Multiples(l.base);
    Multiples(l.size);
  }

  lemma Multiples(x: nat)
    requires x % BOOK == 0
    ensures x % CARD == 0
  {
    assert x == x / BOOK * BOOK == x / BOOK * 256 * CARD;
  }

  lemma FirstArea(l: Plan, i: int, x: int)
    requires Sane(l)
    ensures var w := FirstWorld(l); AreaOk(w, i, x) && AreaLabelOk(w, i, x)
  {
    var w := FirstWorld(l);
    if 0 <= i < |w.sibs| && w.sibs[i].start <= x < w.sibs[i].limit {
      FirstSibOk(l, i);
      FirstLabel(l, x);
      SibBounds(l, x);
      QuarterIs(l.base, l.size, i, x);
      QuarterIs(l.base, l.size, SibOfWord(l, x), x);
    }
  }

  lemma FirstZoneOk(l: Plan, x: int)
    requires Sane(l)
    ensures var w := FirstWorld(l); ZoneOk(w, x) && (0 <= x < |w.zone| ==> !w.zone[x].Old?)
  {
    if x >= 0 {
      SibBounds(l, x);
      var i := SibOfWord(l, x);
      if 0 <= i < 4 { FirstSibOk(l, i); }
    }
  }

  lemma FirstIsWellFormed(l: Plan)
    requires Sane(l)
    ensures var w := FirstWorld(l);
      && WellFormed(w)
      && CardReady(w, w.cards)
      && forall a: int {:trigger Chunk(w, a)} :: !Chunk(w, a)
  {
    var w := FirstWorld(l);
    forall a: int ensures !Chunk(w, a) { FirstZoneOk(l, a); }
    forall x ensures ZoneOk(w, x) && TargetOk(w, x) && LabelOk(w, x) { FirstZoneOk(l, x); }
    forall a, x ensures ExtentOk(w, a, x) { assert !Chunk(w, a); }
    forall i | 0 <= i < |w.sibs| ensures SibOk(w, i) { FirstSibOk(l, i); }
    forall i, x ensures AreaOk(w, i, x) && AreaLabelOk(w, i, x) { FirstArea(l, i, x); }
    forall a ensures WeakTargetOk(w, a) && DestOk(w, a) { assert !Chunk(w, a); }
    forall i ensures MapOk(w, w.cards, i) { if 0 <= i < |w.sibs| { FirstSibOk(l, i); } }
  }

  lemma FirstRoots(l: Plan)
    requires Sane(l)
    ensures RootsOk(FirstWorld(l), {}, l.roots)
  {
    var w := FirstWorld(l);
    forall j | 0 <= j < |l.roots| ensures RootOk(w, l.roots[j]) {
      SibBounds(l, l.roots[j]);
      assert l.roots[j] in l.roots;
      forall i ensures !InBuffer(w, i, l.roots[j]) { if 0 <= i < |w.sibs| { FirstSibOk(l, i); } }
    }
  }

  lemma FirstNursery(l: Plan, end: nat)
    requires Sane(l) && l.lo <= end <= l.lo + l.master
    ensures Nursery(FirstWorld(l), l.lo, l.lo, end)
  {
    var w := FirstWorld(l);
    forall v: nat ensures NurseryLabel(w, v) { FirstLabel(l, v); SibBounds(l, v); }
    forall x: nat ensures NurseryWord(w, l.lo, end, x) &&
        IdleWord(w, l.lo, l.lo, end, x) { FirstLabel(l, x); SibBounds(l, x); }
  }

  /** The first heap is at rest, and each pointer sib of agegroup1 has room for a nursery. */
  lemma FirstHeapRests(l: Plan, lists: seq<seq<nat>>, buffer: nat)
    requires Sane(l) && |lists| == l.active && (forall a {:trigger lists[a]} :: 0 <= a < l.active ==> lists[a] == []) &&
        buffer + 2 <= l.size
    ensures AtRest(FirstWorld(l), l.roots, lists, []) && RoomFor(FirstWorld(l).sibs, buffer)
  {
    var w := FirstWorld(l);
    FirstIsWellFormed(l);
    FirstRoots(l);
    forall i, x ensures UsedOk(w, i, x) && CardCovers(w, i, x) { if 0 <= i < |w.sibs| { FirstSibOk(l, i); } }
    forall a ensures HomeOk(w, a) { assert !Chunk(w, a); }
    forall i ensures SibRests(w, i) && SweepStart(w, i) { if 0 <= i < |w.sibs| { FirstSibOk(l, i); } }
    forall x ensures OrderedWord(w, x) && CodeLives(w, x) { FirstZoneOk(l, x); }
    forall b: nat ensures RecordIsCode(w.b2s, b) { if b < l.books { SibBounds(l, b * BOOK); } }
    forall i | 0 <= i < 4 && i != NONPTR_DATA_SIB ensures Active(w.sibs[i]) && w.sibs[i].firstFree <= w.sibs[i].limit &&
        buffer <= w.sibs[i].limit - w.sibs[i].firstFree {
      FirstSibOk(l, i);
      assert i * l.size + l.size == (i + 1) * l.size;
    }
  }
}
