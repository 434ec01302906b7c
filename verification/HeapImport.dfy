/** Importing a heap image: read_heap, repair_heap and repair_word of src/c/heapcleaner/import-heap.c. */
module HeapImport {
  import opened Wrappers
  import opened HeapTags
  import opened HeapModel
  import opened CfunTable
  import opened Pickle
  import opened HeapImage

  // ------------------------------------------------------------------ the old address space

  /** Where a sib lay in the old address space, and how many words of it were used. */
  datatype Header = Header(base: nat, size: nat)

  /** A quire of the old address space: whole books. */
  datatype QuireHeader = QuireHeader(book: nat, books: nat)

  function BookRounded(words: nat): (r: nat)
    ensures words <= r < words + BOOK && r % BOOK == 0
  {
    (words + BOOK - 1) / BOOK * BOOK
  }

  predicate Holds(h: Header, a: nat) { h.base <= a < h.base + h.size }

  /** The books a sib's words lie in. */
  predicate OwnBook(h: Header, b: nat) { h.size > 0 && h.base / BOOK <= b <= (h.base + h.size - 1) / BOOK }

  /** The books that are marked as the sib's: as many as its words fill, from the book of its first word. */
  predicate Marked(h: Header, b: nat) { h.base / BOOK <= b < (h.base + BookRounded(h.size)) / BOOK }

  lemma MarkedIsOwn(h: Header, b: nat)
    requires Marked(h, b)
    ensures OwnBook(h, b)
  {
    var n := (h.size + BOOK - 1) / BOOK;
    assert (h.base + n * BOOK) / BOOK == h.base / BOOK + n;
    assert h.size == 0 ==> n == 0;
    if h.size > 0 {
      assert (n - 1) * BOOK <= h.size - 1;
      assert (h.base + (n - 1) * BOOK) / BOOK == h.base / BOOK + (n - 1);
    }
  }

  /** The words of a sib fit in the books counted for them, given where in its first book it starts. */
  predicate FitsMarks(h: Header) { h.base % BOOK + h.size <= BookRounded(h.size) }

  /** Every word of a sib is in a marked book just when they do. */
  lemma MarksCover(h: Header)
    requires h.size > 0
    ensures FitsMarks(h) <==> forall a: nat :: Holds(h, a) ==> Marked(h, a / BOOK)
  {
    var r, q := h.base % BOOK, h.base / BOOK;
    var n := (h.size + BOOK - 1) / BOOK;
    assert (h.base + n * BOOK) / BOOK == q + n;
    if FitsMarks(h) {
      forall a: nat | Holds(h, a) ensures Marked(h, a / BOOK) {
        assert a < (q + n) * BOOK;
      }
    } else {
      var a := h.base + h.size - 1;
      assert Holds(h, a) && a >= (q + n) * BOOK;
    }
  }

  /** A cons cell sib starts two words into its first book: its last cell is left out just when its size fills whole
      books. */
  lemma CellsAreMarked(h: Header)
    requires h.base % BOOK == 2 && h.size >= 3
    ensures h.size % BOOK != 0 <==> forall a: nat :: h.base < a <= h.base + h.size - 2 ==> Marked(h, a / BOOK)
  {
    var q, k := h.base / BOOK, h.size / BOOK;
    assert h.size == k * BOOK + h.size % BOOK;
    var n := (h.size + BOOK - 1) / BOOK;
    assert (h.base + n * BOOK) / BOOK == q + n;
    if h.size % BOOK == 0 {
      assert n == k;
      var a := h.base + h.size - 2;
      assert a == (q + n) * BOOK;
      assert !Marked(h, a / BOOK);
    } else {
      assert n == k + 1;
      forall a: nat | h.base < a <= h.base + h.size - 2 ensures Marked(h, a / BOOK) {
        assert a < (q + n) * BOOK;
      }
    }
  }

  predicate InQuire(q: QuireHeader, b: int) { q.book <= b < q.book + q.books }

  /** No book belongs to two sibs, two quires or one of each. */
  ghost predicate BooksApart(headers: seq<Header>, quires: seq<QuireHeader>) {
    && (forall i, j, b {:trigger OwnBook(headers[i], b), OwnBook(headers[j], b)} ::
          0 <= i < |headers| && 0 <= j < |headers| && 0 <= b && OwnBook(headers[i], b) && OwnBook(headers[j], b) ==>
              i == j)
    && (forall i, j, b {:trigger InQuire(quires[i], b), InQuire(quires[j], b)} ::
          0 <= i < |quires| && 0 <= j < |quires| && InQuire(quires[i], b) && InQuire(quires[j], b) ==> i == j)
    && (forall i, j, b {:trigger OwnBook(headers[i], b), InQuire(quires[j], b)} ::
          0 <= i < |headers| && 0 <= j < |quires| && 0 <= b && OwnBook(headers[i], b) ==> !InQuire(quires[j], b))
  }

  function QuireLabel(q: QuireHeader, b: int): Sibid {
    if b == q.book then Sibid(MAX_AGEGROUPS, CODE_KIND, HUGECHUNK_RECORD) else Sibid(1, CODE_KIND, HUGECHUNK_DATA)
  }

  function SibLabel(i: nat): Sibid { Sibid(SibAge(i), SibSlot(i) + 1, 0) }

  predicate QuireMarked(quires: seq<QuireHeader>, b2s: seq<Sibid>, j: nat, b: nat) {
    j < |quires| && InQuire(quires[j], b) && b < |b2s| ==> b2s[b] == QuireLabel(quires[j], b)
  }

  predicate SibMarked(headers: seq<Header>, b2s: seq<Sibid>, i: nat, b: nat) {
    i < |headers| && Marked(headers[i], b) && b < |b2s| ==> b2s[b] == SibLabel(i)
  }

  /** Books that no header marks keep what the table had. */
  ghost predicate Unmarked(headers: seq<Header>, quires: seq<QuireHeader>, table: seq<Sibid>, b2s: seq<Sibid>, b: nat) {
    b < |b2s| == |table| && (forall i :: 0 <= i < |headers| ==> !Marked(headers[i], b)) &&
        (forall j :: 0 <= j < |quires| ==> !InQuire(quires[j], b))
    ==> b2s[b] == table[b]
  }

  method MarkRange(table: seq<Sibid>, start: nat, end: nat, sibid: Sibid) returns (b2s: seq<Sibid>)
    requires end <= |table|
    ensures |b2s| == |table| && forall b {:trigger b2s[b]} ::
        0 <= b < |b2s| ==> b2s[b] == if start <= b < end then sibid else table[b]
  {
    b2s := table;
    var b := start;
    while b < end
      invariant start <= b && |b2s| == |table|
      invariant forall a {:trigger b2s[a]} :: 0 <= a < |b2s| ==> b2s[a] == if start <= a < b &&
          a < end then sibid else table[a]
    {
      b2s := b2s[b := sibid];
      b := b + 1;
    }
  }

  /** The table of the old address space; `table` is what its memory happened to hold. */
  method OldBook2sibid(table: seq<Sibid>, quires: seq<QuireHeader>, headers: seq<Header>) returns (b2s: seq<Sibid>)
    requires BooksApart(headers, quires)
    requires forall i {:trigger headers[i]} :: 0 <= i < |headers| ==>
        (headers[i].base + BookRounded(headers[i].size)) / BOOK <= |table|
    requires forall j {:trigger quires[j]} :: 0 <= j < |quires| ==>
        && quires[j].books > 0
        && quires[j].book + quires[j].books <= |table|
    ensures |b2s| == |table|
    ensures forall i: nat, b: nat {:trigger SibMarked(headers, b2s, i, b)} :: SibMarked(headers, b2s, i, b)
    ensures forall j: nat, b: nat {:trigger QuireMarked(quires, b2s, j, b)} :: QuireMarked(quires, b2s, j, b)
    ensures forall b: nat {:trigger Unmarked(headers, quires, table, b2s, b)} ::
        Unmarked(headers, quires, table, b2s, b)
  {
    b2s := table;
    var j := 0;
    while j < |quires|
      invariant j <= |quires| && |b2s| == |table|
      invariant forall a: nat, b: nat {:trigger QuireMarked(quires, b2s, a, b)} ::
          a < j ==> QuireMarked(quires, b2s, a, b)
      invariant forall b: nat {:trigger Unmarked([], quires[..j], table, b2s, b)} ::
          Unmarked([], quires[..j], table, b2s, b)
    {
      ghost var before, next := b2s, j + 1;
      var q := quires[j];
      b2s := MarkRange(b2s, q.book, q.book + q.books, Sibid(1, CODE_KIND, HUGECHUNK_DATA));
      b2s := b2s[q.book := Sibid(MAX_AGEGROUPS, CODE_KIND, HUGECHUNK_RECORD)];
      forall a: nat, b: nat | a < next ensures QuireMarked(quires, b2s, a, b) {
        assert a < j ==> QuireMarked(quires, before, a, b);
        ghost var here := InQuire(q, b);
      }
      forall b: nat ensures Unmarked([], quires[..next], table, b2s, b) {
        assert Unmarked([], quires[..j], table, before, b);
        assert forall a :: 0 <= a < j ==> quires[..next][a] == quires[..j][a];
        assert quires[..next][j] == q;
      }
      j := j + 1;
    }
    assert quires[..j] == quires && headers[..0] == [];
    var i := 0;
    while i < |headers|
      invariant i <= |headers| && |b2s| == |table|
      invariant forall a: nat, b: nat {:trigger QuireMarked(quires, b2s, a, b)} :: QuireMarked(quires, b2s, a, b)
      invariant forall a: nat, b: nat {:trigger SibMarked(headers, b2s, a, b)} ::
          a < i ==> SibMarked(headers, b2s, a, b)
      invariant forall b: nat {:trigger Unmarked(headers[..i], quires, table, b2s, b)} ::
          Unmarked(headers[..i], quires, table, b2s, b)
    {
      ghost var before, next := b2s, i + 1;
      var h := headers[i];
      b2s := MarkRange(b2s, h.base / BOOK, (h.base + BookRounded(h.size)) / BOOK, SibLabel(i));
      MarkedOne(headers, quires, table, before, b2s, i, next);
      i := i + 1;
    }
    assert headers[..i] == headers;
  }

  lemma MarkedOne(headers: seq<Header>, quires: seq<QuireHeader>, table: seq<Sibid>, before: seq<Sibid>,
      b2s: seq<Sibid>, i: nat, n: nat)
    requires BooksApart(headers, quires) && i < |headers| && n == i + 1 && |b2s| == |before| == |table|
    requires forall b {:trigger b2s[b]} :: 0 <= b < |b2s| ==>
        b2s[b] == if Marked(headers[i], b) then SibLabel(i) else before[b]
    requires forall a: nat, b: nat {:trigger QuireMarked(quires, before, a, b)} :: QuireMarked(quires, before, a, b)
    requires forall a: nat, b: nat {:trigger SibMarked(headers, before, a, b)} ::
        a < i ==> SibMarked(headers, before, a, b)
    requires forall b: nat {:trigger Unmarked(headers[..i], quires, table, before, b)} ::
        Unmarked(headers[..i], quires, table, before, b)
    ensures forall a: nat, b: nat {:trigger QuireMarked(quires, b2s, a, b)} :: QuireMarked(quires, b2s, a, b)
    ensures forall a: nat, b: nat {:trigger SibMarked(headers, b2s, a, b)} :: a < n ==> SibMarked(headers, b2s, a, b)
    ensures forall b: nat {:trigger Unmarked(headers[..n], quires, table, b2s, b)} ::
        Unmarked(headers[..n], quires, table, b2s, b)
  {
    hide BookRounded, OwnBook, Marked;
    forall a: nat, b: nat ensures QuireMarked(quires, b2s, a, b) {
      assert QuireMarked(quires, before, a, b);
      if Marked(headers[i], b) { MarkedIsOwn(headers[i], b); }
    }
    forall a: nat, b: nat | a < n ensures SibMarked(headers, b2s, a, b) {
      assert a < i ==> SibMarked(headers, before, a, b);
      if Marked(headers[i], b) && Marked(headers[a], b) { MarkedIsOwn(headers[i], b); MarkedIsOwn(headers[a], b); }
    }
    forall b: nat ensures Unmarked(headers[..n], quires, table, b2s, b) {
      assert Unmarked(headers[..i], quires, table, before, b);
      assert forall a :: 0 <= a < i ==> headers[..n][a] == headers[..i][a];
      assert headers[..n][i] == headers[i];
    }
  }

  // ------------------------------------------------------------------ hugechunks

  datatype Reloc = Reloc(oldAddress: nat, newAddress: nat, age: nat)

  /** A quire of the old address space: its first page and what became of the chunk on each. */
  datatype Region = Region(first: nat, pages: seq<Option<Reloc>>)

  datatype HugeHeader = HugeHeader(base: nat, pages: nat, age: nat)

  /** The region of an old address, by walking down to the book that starts its quire. */
  function RegionOf(b2s: seq<Sibid>, a: nat): int { RecordBook(b2s, a / BOOK) }

  function PageOf(r: Region, a: nat): int { (a - r.first) / PAGE }

  predicate InChunk(h: HugeHeader, a: nat) { h.base <= a < h.base + h.pages * PAGE }

  /** The chunks of one agegroup go one directly behind the other, from the first page of a free quire on. */
  predicate Stacked(free: nat, places: seq<nat>, hs: seq<HugeHeader>) {
    |places| == |hs| && (hs != [] ==> places[0] == free) &&
        forall k {:trigger StandsBehind(places, hs, k)} :: 0 < k < |hs| ==> StandsBehind(places, hs, k)
  }

  predicate StandsBehind(places: seq<nat>, hs: seq<HugeHeader>, k: int)
    requires 0 < k < |hs| == |places|
  {
    places[k] == places[k - 1] + hs[k - 1].pages * PAGE
  }

  /** The size of the quire that is got for the chunks of one agegroup, in pages. */
  function Pages(hs: seq<HugeHeader>): nat {
    if hs == [] then 0 else Pages(hs[..|hs| - 1]) + hs[|hs| - 1].pages
  }

  /** The chunks of all agegroups, or the places of all. */
  function Flat<T>(groups: seq<seq<T>>): seq<T> {
    if groups == [] then [] else Flat(groups[..|groups| - 1]) + groups[|groups| - 1]
  }

  lemma StackedOne(free: nat, places: seq<nat>, hs: seq<HugeHeader>, h: HugeHeader)
    requires Stacked(free, places, hs)
    ensures Stacked(free, places + [free + Pages(hs) * PAGE], hs + [h]) && Pages(hs + [h]) == Pages(hs) + h.pages
  {
    var more, gs := places + [free + Pages(hs) * PAGE], hs + [h];
    if hs != [] { StackedFits(free, places, hs); }
    forall k | 0 < k < |gs| ensures StandsBehind(more, gs, k) { assert k < |hs| ==> StandsBehind(places, hs, k); }
    assert gs[..|hs|] == hs;
  }

  /** Each chunk lies in the quire, behind all of those before it, and the last one ends where the quire does. */
  lemma {:induction false} StackedFits(free: nat, places: seq<nat>, hs: seq<HugeHeader>)
    requires Stacked(free, places, hs)
    ensures forall k {:trigger places[k]} :: 0 <= k < |hs| ==>
        free <= places[k] && places[k] + hs[k].pages * PAGE <= free + Pages(hs) * PAGE
    ensures hs != [] ==> places[|hs| - 1] + hs[|hs| - 1].pages * PAGE == free + Pages(hs) * PAGE
    ensures forall j, k {:trigger places[j], places[k]} :: 0 <= j < k < |hs| ==>
        places[j] + hs[j].pages * PAGE <= places[k]
  {
    if hs != [] {
      var n := |hs| - 1;
      var ps, gs := places[..n], hs[..n];
      forall k | 0 < k < n ensures StandsBehind(ps, gs, k) { assert StandsBehind(places, hs, k); }
      StackedFits(free, ps, gs);
      assert n > 0 ==> StandsBehind(places, hs, n);
      assert forall k :: 0 <= k < n ==> places[k] == ps[k] && hs[k] == gs[k];
    }
  }

  /** The place of a chunk in the list of all is that of its place among those of its agegroup. */
  lemma {:induction false} FlatIndex(groups: seq<seq<HugeHeader>>, places: seq<seq<nat>>, k: nat)
      returns (g: nat, i: nat)
    requires |places| == |groups| && forall g {:trigger groups[g]} :: 0 <= g < |groups| ==> |places[g]| == |groups[g]|
    requires k < |Flat(groups)|
    ensures g < |groups| && i < |groups[g]| && Flat(groups)[k] == groups[g][i] && k == |Flat(groups[..g])| + i
    ensures |Flat(places)| == |Flat(groups)| && Flat(places)[k] == places[g][i]
  {
    var n := |groups| - 1;
    var gs, ps := groups[..n], places[..n];
    FlatLength(gs, ps);
    if k < |Flat(gs)| {
      g, i := FlatIndex(gs, ps, k);
      assert groups[..g] == gs[..g];
    } else {
      g, i := n, k - |Flat(gs)|;
    }
  }

  lemma {:induction false} FlatLength(groups: seq<seq<HugeHeader>>, places: seq<seq<nat>>)
    requires |places| == |groups| && forall g {:trigger groups[g]} :: 0 <= g < |groups| ==> |places[g]| == |groups[g]|
    ensures |Flat(places)| == |Flat(groups)|
  {
    if groups != [] { FlatLength(groups[..|groups| - 1], places[..|groups| - 1]); }
  }

  /** A chunk lies in the pages of its region. */
  predicate Seated(b2s: seq<Sibid>, regions: map<nat, Region>, h: HugeHeader) {
    var r := RegionOf(b2s, h.base);
    r >= 0 && r in regions && regions[r].first <= h.base && (h.base - regions[r].first) % PAGE == 0
    && PageOf(regions[r], h.base) + h.pages <= |regions[r].pages|
  }

  /** Its pages know where it went. */
  predicate PageKnown(b2s: seq<Sibid>, regions: map<nat, Region>, places: seq<nat>, hs: seq<HugeHeader>, k: nat,
      p: nat) {
    k < |hs| && k < |places| && p < hs[k].pages && Seated(b2s, regions, hs[k]) ==>
      var r := regions[RegionOf(b2s, hs[k].base)];
      r.pages[PageOf(r, hs[k].base) + p] == Some(Reloc(hs[k].base, places[k], hs[k].age))
  }

  /** Chunks do not share a page. */
  predicate PagesApart(b2s: seq<Sibid>, regions: map<nat, Region>, h: HugeHeader, g: HugeHeader) {
    Seated(b2s, regions, h) && Seated(b2s, regions, g) && RegionOf(b2s, h.base) == RegionOf(b2s, g.base) ==>
      h.base + h.pages * PAGE <= g.base || g.base + g.pages * PAGE <= h.base
  }

  predicate SameRegions(regions: map<nat, Region>, r: map<nat, Region>) {
    r.Keys == regions.Keys && forall q {:trigger r[q]} :: q in r ==>
        && r[q].first == regions[q].first
        && |r[q].pages| == |regions[q].pages|
  }

  /** All chunks have their pages to themselves. */
  predicate AllSeated(b2s: seq<Sibid>, regions: map<nat, Region>, hs: seq<HugeHeader>) {
    && (forall k {:trigger hs[k]} :: 0 <= k < |hs| ==> Seated(b2s, regions, hs[k]))
    && (forall j, k {:trigger PagesApart(b2s, regions, hs[j], hs[k])} ::
          0 <= j < k < |hs| ==> PagesApart(b2s, regions, hs[j], hs[k]))
  }

  ghost predicate AllKnown(b2s: seq<Sibid>, regions: map<nat, Region>, places: seq<nat>, hs: seq<HugeHeader>) {
    |places| <= |hs| && forall k: nat, p: nat {:trigger PageKnown(b2s, regions, places, hs, k, p)} ::
      k < |places| ==> PageKnown(b2s, regions, places, hs, k, p)
  }

  /** Place the chunks of one agegroup from `free` on; those of the agegroups before it are placed already. */
  method AllocateHugechunks(b2s: seq<Sibid>, regions: map<nat, Region>, free: nat, group: seq<HugeHeader>,
      ghost hs: seq<HugeHeader>, ghost places0: seq<nat>) returns (r: map<nat, Region>, ghost places: seq<nat>)
    requires AllSeated(b2s, regions, hs) && AllKnown(b2s, regions, places0, hs)
    requires |places0| + |group| <= |hs| && group == hs[|places0|..|places0| + |group|]
    ensures SameRegions(regions, r) && AllSeated(b2s, r, hs) && AllKnown(b2s, r, places0 + places, hs)
    ensures Stacked(free, places, group)
  {
    hide PageKnown, Seated, PagesApart, AllKnown, Entered;
    r, places := regions, [];
    var address: nat := free;
    var k := 0;
    assert places0 + places == places0;
    while k < |group|
      invariant k <= |group| && SameRegions(regions, r) && AllSeated(b2s, r, hs)
      invariant AllKnown(b2s, r, places0 + places, hs)
      invariant Stacked(free, places, group[..k]) && address == free + Pages(group[..k]) * PAGE
    {
      ghost var before := r;
      assert group[k] == hs[|places0 + places|] && group[..k + 1] == group[..k] + [group[k]];
      r := AllocateHugechunk(b2s, r, group[k], address);
      OneMoreKnown(b2s, before, r, places0 + places, hs, address);
      StackedOne(free, places, group[..k], group[k]);
      assert places0 + (places + [address]) == places0 + places + [address];
      places := places + [address];
      address := address + group[k].pages * PAGE;
      k := k + 1;
    }
    assert group[..k] == group;
  }

  lemma OneMoreKnown(b2s: seq<Sibid>, before: map<nat, Region>, r: map<nat, Region>, places: seq<nat>,
      hs: seq<HugeHeader>, address: nat)
    requires AllSeated(b2s, before, hs) && AllKnown(b2s, before, places, hs) && |places| < |hs|
    requires Seated(b2s, before, hs[|places|]) && Entered(b2s, before, r, hs[|places|], address)
    ensures AllSeated(b2s, r, hs) && AllKnown(b2s, r, places + [address], hs)
  {
    hide PageKnown, Seated, PagesApart;
    SeatsStay(b2s, before, r, hs);
    forall i, j | 0 <= i < j < |hs| ensures PagesApart(b2s, r, hs[i], hs[j]) {
      assert PagesApart(b2s, before, hs[i], hs[j]);
    }
    var k, more := |places|, places + [address];
    forall j: nat, p: nat | j < |more| ensures PageKnown(b2s, r, more, hs, j, p) {
      if j == k {
        PageEntered(b2s, before, r, more, hs, k, p);
      } else {
        assert PageKnown(b2s, before, places, hs, j, p) && PagesApart(b2s, before, hs[j], hs[k]);
        PageStays(b2s, before, r, places, hs, j, k, p, address);
        SamePlace(b2s, r, places, more, hs, j, p);
      }
    }
  }

  lemma SamePlace(b2s: seq<Sibid>, r: map<nat, Region>, places: seq<nat>, more: seq<nat>, hs: seq<HugeHeader>, j: nat,
      p: nat)
    requires PageKnown(b2s, r, places, hs, j, p) && j < |places| <= |more| && more[j] == places[j]
    ensures PageKnown(b2s, r, more, hs, j, p)
  {
  }

  /** Place the chunks of all agegroups, those of each from the first free page of its quire on. */
  method ReadHugechunks(b2s: seq<Sibid>, regions: map<nat, Region>, frees: seq<nat>, groups: seq<seq<HugeHeader>>)
      returns (r: map<nat, Region>, ghost places: seq<seq<nat>>)
    requires |frees| == |groups| && AllSeated(b2s, regions, Flat(groups))
    ensures SameRegions(regions, r) && AllKnown(b2s, r, Flat(places), Flat(groups)) && |places| == |groups|
    ensures forall g {:trigger places[g]} :: 0 <= g < |groups| ==> Stacked(frees[g], places[g], groups[g])
  {
    hide AllSeated, AllKnown, PageKnown;
    ghost var hs := Flat(groups);
    r, places := regions, [];
    var g := 0;
    NoneKnown(b2s, r, hs);
    while g < |groups|
      invariant g <= |groups| && SameRegions(regions, r) && AllSeated(b2s, r, hs)
      invariant AllKnown(b2s, r, Flat(places), hs) && |places| == g && |Flat(places)| == |Flat(groups[..g])|
      invariant forall i {:trigger places[i]} :: 0 <= i < g ==> Stacked(frees[i], places[i], groups[i])
    {
      FlatPart(groups, g);
      ghost var ps;
      r, ps := AllocateHugechunks(b2s, r, frees[g], groups[g], hs, Flat(places));
      assert (places + [ps])[..g] == places && groups[..g + 1][..g] == groups[..g];
      places := places + [ps];
      g := g + 1;
    }
    assert groups[..g] == groups;
  }

  lemma {:induction false} FlatPart(groups: seq<seq<HugeHeader>>, g: nat)
    requires g < |groups|
    ensures var n, l := |Flat(groups[..g])|, |groups[g]|;
      n + l <= |Flat(groups)| && Flat(groups)[n..n + l] == groups[g] && |Flat(groups[..g + 1])| == n + l
    decreases |groups|
  {
    var last := |groups| - 1;
    var gs := groups[..last];
    assert groups[..g + 1][..g] == groups[..g];
    if g < last {
      FlatPart(gs, g);
      assert gs[..g] == groups[..g] && gs[..g + 1] == groups[..g + 1] && Flat(groups) == Flat(gs) + groups[last];
    } else {
      assert groups[..g + 1] == groups;
    }
  }

  lemma NoneKnown(b2s: seq<Sibid>, regions: map<nat, Region>, hs: seq<HugeHeader>)
    ensures AllKnown(b2s, regions, [], hs)
  {
  }

  lemma SeatsStay(b2s: seq<Sibid>, regions: map<nat, Region>, r: map<nat, Region>, hs: seq<HugeHeader>)
    requires SameRegions(regions, r)
    ensures forall k {:trigger Seated(b2s, r, hs[k])} ::
        0 <= k < |hs| ==> (Seated(b2s, r, hs[k]) <==> Seated(b2s, regions, hs[k]))
    ensures forall j, k {:trigger PagesApart(b2s, regions, hs[j], hs[k])} :: 0 <= j < |hs| && 0 <= k < |hs| ==>
      (PagesApart(b2s, r, hs[j], hs[k]) <==> PagesApart(b2s, regions, hs[j], hs[k]))
  {
  }

  lemma PageEntered(b2s: seq<Sibid>, before: map<nat, Region>, r: map<nat, Region>, places: seq<nat>,
      hs: seq<HugeHeader>, k: nat, p: nat)
    requires k < |hs| && k < |places| && Seated(b2s, before, hs[k]) && Entered(b2s, before, r, hs[k], places[k])
    ensures PageKnown(b2s, r, places, hs, k, p)
  {
  }

  lemma PageStays(b2s: seq<Sibid>, before: map<nat, Region>, r: map<nat, Region>, places: seq<nat>,
      hs: seq<HugeHeader>, j: nat, k: nat, p: nat, address: nat)
    requires j < k < |hs| && j < |places| && Seated(b2s, before, hs[j]) && Seated(b2s, before, hs[k]) &&
        PagesApart(b2s, before, hs[j], hs[k])
    requires PageKnown(b2s, before, places, hs, j, p) && Entered(b2s, before, r, hs[k], address)
    ensures PageKnown(b2s, r, places, hs, j, p)
  {
    var h, g := hs[j], hs[k];
    var q := RegionOf(b2s, h.base);
    if p < h.pages {
      var a, b := PageOf(before[q], h.base), PageOf(before[q], g.base);
      assert h.base == before[q].first + a * PAGE;
      if q == RegionOf(b2s, g.base) { assert g.base == before[q].first + b * PAGE; }
      assert r[q].pages[a + p] == before[q].pages[a + p];
    }
  }

  /** The pages of h, and no others, are entered as gone to `address`. */
  ghost predicate Entered(b2s: seq<Sibid>, regions: map<nat, Region>, r: map<nat, Region>, h: HugeHeader, address: nat)
    requires Seated(b2s, regions, h)
  {
    SameRegions(regions, r) && forall q, i {:trigger r[q].pages[i]} :: q in r && 0 <= i < |r[q].pages| ==>
      r[q].pages[i] == if q == RegionOf(b2s, h.base) &&
          PageOf(regions[q], h.base) <= i < PageOf(regions[q], h.base) + h.pages
                       then Some(Reloc(h.base, address, h.age)) else regions[q].pages[i]
  }

  /** allocate_a_hugechunk, for a chunk that goes to `address`. */
  method AllocateHugechunk(b2s: seq<Sibid>, regions: map<nat, Region>, h: HugeHeader, address: nat)
      returns (r: map<nat, Region>)
    requires Seated(b2s, regions, h)
    ensures SameRegions(regions, r) && Entered(b2s, regions, r, h, address)
  {
    r := regions;
    var q := RegionOf(b2s, h.base);
    var first := PageOf(r[q], h.base);
    var i := 0;
    while i < h.pages
      invariant i <= h.pages && SameRegions(regions, r)
      invariant forall p, j {:trigger r[p].pages[j]} :: p in r && 0 <= j < |r[p].pages| ==>
        r[p].pages[j] == if p == q && first <= j < first + i then Some(Reloc(h.base, address, h.age))
            else regions[p].pages[j]
    {
      r := r[q := r[q].(pages := r[q].pages[first + i := Some(Reloc(h.base, address, h.age))])];
      i := i + 1;
    }
  }

  // ------------------------------------------------------------------ one word

  /** All that is known of the old address space: homes are the new places of its sibs. */
  datatype OldSpace = OldSpace(b2s: seq<Sibid>, headers: seq<Header>, homes: seq<nat>, regions: map<nat, Region>)

  datatype Place = Place(addr: nat, age: nat)

  /** Where an old address is now, and the age of what is there. */
  function Target(o: OldSpace, a: nat): Option<Place> {
    var sibid := SibidFor(o.b2s, a);
    if sibid.kind == CODE_KIND then CodeTarget(o, a)
    else
      var i := SibIndex(sibid.age, sibid.kind);
      if 0 <= i < |o.headers| && i < |o.homes| && o.headers[i].size > 0 &&
          o.headers[i].base <= a then Some(Place(a - o.headers[i].base + o.homes[i], sibid.age)) else None
  }

  function CodeTarget(o: OldSpace, a: nat): Option<Place> {
    var q := RegionOf(o.b2s, a);
    if q >= 0 && q in o.regions && 0 <= PageOf(o.regions[q], a) < |o.regions[q].pages| then
      match o.regions[q].pages[PageOf(o.regions[q], a)]
      case Some(r) => if r.oldAddress <= a then Some(Place(a - r.oldAddress + r.newAddress, r.age)) else None
      case None => None
    else None
  }

  predicate Repairable(o: OldSpace, externs: seq<nat>, p: Word) {
    (p.Pointer? ==> Target(o, p.addr).Some?) && (IsExternalTag(p) ==> p.len < |externs|)
  }

  /** repair_word. */
  function Repaired(o: OldSpace, externs: seq<nat>, p: Word): Word
    requires Repairable(o, externs, p)
  {
    if p.Pointer? then Pointer(Target(o, p.addr).value.addr)
    else if IsExternalTag(p) then Pointer(externs[p.len])
    else p
  }

  // ------------------------------------------------------------------ all words

  /** The age of what a word of the image points to, if that is younger than `age`. */
  predicate Younger(o: OldSpace, p: Word, age: nat, t: nat) {
    p.Pointer? && Target(o, p.addr).Some? && Target(o, p.addr).value.age == t && t < age
  }

  function CardIndex(cm: CardMap, x: nat): int { (x - cm.base) / CARD }

  predicate OnCard(cm: CardMap, x: nat) { cm.base <= x && CardIndex(cm, x) < |cm.minAge| }

  /** Every word that points younger is on a card that says so. */
  ghost predicate CardsKnow(o: OldSpace, m: seq<Word>, at: nat, limit: nat, age: nat, cm: CardMap) {
    forall x: nat, t: nat {:trigger Younger(o, m[x], age, t)} :: at <= x < limit && x < |m| && Younger(o, m[x], age,
        t) ==>
      OnCard(cm, x) && cm.minAge[CardIndex(cm, x)] <= t
  }

  predicate Sets(o: OldSpace, m: seq<Word>, at: nat, limit: nat, age: nat, cm: CardMap, d: nat, x: nat, t: nat) {
    at <= x < limit && x < |m| && OnCard(cm, x) && CardIndex(cm, x) == d && Younger(o, m[x], age, t)
  }

  /** A card says no more than its words give rise to. */
  ghost predicate CardsExact(o: OldSpace, m: seq<Word>, at: nat, limit: nat, age: nat, cm0: CardMap, cm: CardMap) {
    && cm.base == cm0.base && |cm.minAge| == |cm0.minAge|
    && forall d: nat {:trigger cm.minAge[d]} :: d < |cm.minAge| ==>
         cm.minAge[d] == cm0.minAge[d] ||
         exists x: nat {:trigger Sets(o, m, at, limit, age, cm0, d, x, cm.minAge[d])} ::
             Sets(o, m, at, limit, age, cm0, d, x, cm.minAge[d])
  }

  method RepairSib(ram: array<Word>, o: OldSpace, externs: seq<nat>, at: nat, limit: nat, rw: bool, age: nat,
      cm0: CardMap) returns (cm: CardMap)
    requires at <= limit <= ram.Length && forall x {:trigger ram[x]} ::
        at <= x < limit ==> Repairable(o, externs, ram[x])
    requires rw ==> forall x: nat {:trigger OnCard(cm0, x)} :: at <= x < limit ==> OnCard(cm0, x)
    modifies ram
    ensures forall x {:trigger ram[x]} :: 0 <= x < ram.Length ==>
        ram[x] == if at <= x < limit then Repaired(o, externs, old(ram[x])) else old(ram[x])
    ensures if rw then CardsKnow(o, old(ram[..]), at, limit, age, cm) &&
        CardsExact(o, old(ram[..]), at, limit, age, cm0, cm) else cm == cm0
  {
    hide CardsKnow, CardsExact, Target;
    ghost var m := ram[..];
    cm := cm0;
    var p := at;
    CardsNone(o, m, at, age, cm0);
    while p < limit
      invariant at <= p <= limit && cm.base == cm0.base && |cm.minAge| == |cm0.minAge|
      invariant forall x {:trigger ram[x]} :: 0 <= x < ram.Length ==>
          ram[x] == if at <= x < p then Repaired(o, externs, m[x]) else m[x]
      invariant if rw then CardsKnow(o, m, at, p, age, cm) && CardsExact(o, m, at, p, age, cm0, cm) else cm == cm0
    {
      var w := ram[p];
      ghost var before := cm;
      if w.Pointer? {
        var t := Target(o, w.addr).value;
        ram[p] := Pointer(t.addr);
        if rw && t.age < age {
          assert OnCard(cm0, p);
          var d := CardIndex(cm, p);
          if t.age < cm.minAge[d] {
            cm := cm.(minAge := cm.minAge[d := t.age]);
          }
        }
      } else if IsExternalTag(w) {
        ram[p] := Pointer(externs[w.len]);
      }
      if rw { CardsMore(o, m, at, p, age, cm0, before, cm); }
      p := p + 1;
    }
  }

  lemma CardsNone(o: OldSpace, m: seq<Word>, at: nat, age: nat, cm: CardMap)
    ensures CardsKnow(o, m, at, at, age, cm) && CardsExact(o, m, at, at, age, cm, cm)
  {
  }

  lemma CardsMore(o: OldSpace, m: seq<Word>, at: nat, p: nat, age: nat, cm0: CardMap, before: CardMap, cm: CardMap)
    requires at <= p < |m| && CardsKnow(o, m, at, p, age, before) && CardsExact(o, m, at, p, age, cm0, before) &&
        OnCard(cm0, p)
    requires var d := CardIndex(before, p);
      var younger := m[p].Pointer? && Target(o, m[p].addr).Some? && Target(o, m[p].addr).value.age < age;
      cm == if younger && Target(o, m[p].addr).value.age < before.minAge[d]
          then before.(minAge := before.minAge[d := Target(o, m[p].addr).value.age]) else before
    ensures CardsKnow(o, m, at, p + 1, age, cm) && CardsExact(o, m, at, p + 1, age, cm0, cm)
  {
    var q := p + 1;
    forall x: nat, t: nat | at <= x < q && Younger(o, m[x], age, t)
        ensures OnCard(cm, x) && cm.minAge[CardIndex(cm, x)] <= t { }
    forall d: nat | d < |cm.minAge| && cm.minAge[d] != cm0.minAge[d]
        ensures exists x: nat :: Sets(o, m, at, q, age, cm0, d, x, cm.minAge[d]) {
      if cm.minAge[d] == before.minAge[d] {
        var x: nat :| Sets(o, m, at, p, age, cm0, d, x, before.minAge[d]);
        assert Sets(o, m, at, q, age, cm0, d, x, cm.minAge[d]);
      } else {
        assert Sets(o, m, at, q, age, cm0, d, p, cm.minAge[d]);
      }
    }
  }

  // ------------------------------------------------------------------ what a word means in the new heap

  /** What the table of the old address space says, and what it rests on. */
  ghost predicate SpaceOk(s: Source, o: OldSpace, quires: seq<QuireHeader>, hs: seq<HugeHeader>, places: seq<nat>) {
    && SourceOk(s) && |o.headers| == |o.homes| == 4 * s.k
    && (forall i {:trigger o.headers[i]} :: 0 <= i < 4 * s.k ==>
        o.headers[i] == Header(Base(s.sibs[i]), Used(s.sibs[i])))
    && (forall i: nat, b: nat {:trigger SibMarked(o.headers, o.b2s, i, b)} :: SibMarked(o.headers, o.b2s, i, b))
    && (forall j: nat, b: nat {:trigger QuireMarked(quires, o.b2s, j, b)} :: QuireMarked(quires, o.b2s, j, b))
    && |places| == |hs| && AllKnown(o.b2s, o.regions, places, hs)
  }

  /** a is in a chunk that is read, in quire j. */
  predicate InHuge(o: OldSpace, quires: seq<QuireHeader>, hs: seq<HugeHeader>, k: nat, j: nat, a: nat) {
    && k < |hs| && j < |quires| && InChunk(hs[k], a) && Seated(o.b2s, o.regions, hs[k])
    && InQuire(quires[j], hs[k].base / BOOK) && InQuire(quires[j], a / BOOK) &&
        quires[j].book + quires[j].books <= |o.b2s|
  }

  /** a is in a sib, in a book marked as the sib's. */
  predicate InMarkedSib(s: Source, o: OldSpace, i: nat, a: nat) {
    i < |o.headers| && InSib(s, i, a) && Marked(o.headers[i], a / BOOK) && a / BOOK < |o.b2s|
  }

  lemma {:induction false} WalkDown(quires: seq<QuireHeader>, b2s: seq<Sibid>, j: nat, b: nat)
    requires j < |quires| && InQuire(quires[j], b) && quires[j].book + quires[j].books <= |b2s|
    requires forall b: nat {:trigger QuireMarked(quires, b2s, j, b)} :: QuireMarked(quires, b2s, j, b)
    ensures RecordBook(b2s, b) == quires[j].book
    decreases b
  {
    assert QuireMarked(quires, b2s, j, b);
    if b > quires[j].book { WalkDown(quires, b2s, j, b - 1); }
  }

  lemma SibTarget(s: Source, o: OldSpace, quires: seq<QuireHeader>, hs: seq<HugeHeader>, places: seq<nat>, i: nat,
      a: nat)
    requires SpaceOk(s, o, quires, hs, places) && InMarkedSib(s, o, i, a)
    ensures Target(o, a) == Some(Place(a - s.sibs[i].start + o.homes[i], SibAge(i)))
  {
    assert SibMarked(o.headers, o.b2s, i, a / BOOK);
    Labels(i);
  }

  lemma HugeTarget(s: Source, o: OldSpace, quires: seq<QuireHeader>, hs: seq<HugeHeader>, places: seq<nat>, k: nat,
      j: nat,
      a: nat)
    requires SpaceOk(s, o, quires, hs, places) && InHuge(o, quires, hs, k, j, a)
    ensures Target(o, a) == Some(Place(a - hs[k].base + places[k], hs[k].age))
  {
    assert QuireMarked(quires, o.b2s, j, a / BOOK);
    WalkDown(quires, o.b2s, j, a / BOOK);
    WalkDown(quires, o.b2s, j, hs[k].base / BOOK);
    var r := o.regions[RegionOf(o.b2s, a)];
    var p := (a - hs[k].base) / PAGE;
    PagesAdd(hs[k].base - r.first, a - hs[k].base);
    assert PageKnown(o.b2s, o.regions, places, hs, k, p);
  }

  lemma PagesAdd(n: nat, d: nat)
    requires n % PAGE == 0
    ensures (n + d) / PAGE == n / PAGE + d / PAGE
  {
  }

  /** A word of the heap that can be exported and imported: a pointer is to a published resource, a hugechunk that is
      read, or a word of a sib in a marked book. */
  ghost predicate Portable(s: Source, o: OldSpace, quires: seq<QuireHeader>, hs: seq<HugeHeader>, published: set<Cfun>,
      w: Word) {
    && !IsExternalTag(w)
    && (w.Pointer? ==>
          || (IsExtern(s.b2s, w) && Published(published, w.addr))
          || (!IsExtern(s.b2s, w) && exists i: nat :: InMarkedSib(s, o, i, w.addr))
          || (!IsExtern(s.b2s, w) && exists k: nat, j: nat :: InHuge(o, quires, hs, k, j, w.addr)))
  }

  /** The word it should be: the same address if external, and otherwise the same place in the sib or hugechunk. */
  ghost predicate Moved(s: Source, o: OldSpace, quires: seq<QuireHeader>, hs: seq<HugeHeader>, places: seq<nat>,
      w: Word,
      r: Word) {
    && (!w.Pointer? || IsExtern(s.b2s, w) ==> r == w)
    && (w.Pointer? && !IsExtern(s.b2s, w) ==>
          && (forall i: nat {:trigger InMarkedSib(s, o, i, w.addr)} ::
              InMarkedSib(s, o, i, w.addr) && i < |o.homes| ==> r == Pointer(w.addr - s.sibs[i].start + o.homes[i]))
          && (forall k: nat, j: nat {:trigger InHuge(o, quires, hs, k, j, w.addr)} ::
              InHuge(o, quires, hs, k, j, w.addr) && k < |places| ==>
                r == Pointer(w.addr - hs[k].base + places[k])))
  }

  lemma WordRoundTrips(s: Source, o: OldSpace, quires: seq<QuireHeader>, hs: seq<HugeHeader>, places: seq<nat>,
      published: set<Cfun>, entries: seq<Cfun>, externs: seq<nat>, w: Word, p: Word)
    requires SpaceOk(s, o, quires, hs, places) && Portable(s, o, quires, hs, published, w) &&
        SameAddresses(entries, externs)
    requires PatchedAs(s.b2s, published, entries, w, p)
    ensures Repairable(o, externs, p) && Moved(s, o, quires, hs, places, w, Repaired(o, externs, p))
  {
    hide Target, Marked, Seated, InQuire, SibMarked, QuireMarked, PageKnown, LabelOk, SibOk;
    if w.Pointer? && !IsExtern(s.b2s, w) {
      forall i: nat | InMarkedSib(s, o, i, w.addr) ensures Target(o,
          w.addr) == Some(Place(w.addr - s.sibs[i].start + o.homes[i], SibAge(i))) {
        SibTarget(s, o, quires, hs, places, i, w.addr);
      }
      forall k: nat, j: nat | InHuge(o, quires, hs, k, j, w.addr)
          ensures Target(o, w.addr) == Some(Place(w.addr - hs[k].base + places[k], hs[k].age)) {
        HugeTarget(s, o, quires, hs, places, k, j, w.addr);
      }
    }
  }

  // ------------------------------------------------------------------ the heap

  predicate HomeOk(o: OldSpace, ram: nat,
      i: nat) { i < |o.headers| == |o.homes| && o.headers[i].size > 0 ==> o.homes[i] + o.headers[i].size <= ram }

  predicate HomesApart(o: OldSpace, i: nat, j: nat) {
    i < |o.headers| == |o.homes| && j < |o.headers| && i != j ==>
      o.homes[i] + o.headers[i].size <= o.homes[j] || o.homes[j] + o.headers[j].size <= o.homes[i] ||
      o.headers[i].size == 0 || o.headers[j].size == 0
  }

  ghost predicate HomesOk(o: OldSpace, ram: nat) {
    && |o.headers| == |o.homes|
    && (forall i: nat {:trigger HomeOk(o, ram, i)} :: HomeOk(o, ram, i))
    && (forall i: nat, j: nat {:trigger HomesApart(o, i, j)} :: HomesApart(o, i, j))
  }

  /** Each agegroup's hugechunks were read into a quire of their own, apart from all sibs and other quires. */
  ghost predicate QuiresOwn(o: OldSpace, frees: seq<nat>, places: seq<seq<nat>>, groups: seq<seq<HugeHeader>>) {
    && |frees| == |groups| == |places| && |o.headers| == |o.homes|
    && (forall g {:trigger places[g]} :: 0 <= g < |groups| ==> Stacked(frees[g], places[g], groups[g]))
    && (forall g: nat, e: nat {:trigger QuiresApart(frees, groups, g, e)} :: QuiresApart(frees, groups, g, e))
    && (forall g: nat, i: nat {:trigger QuireApart(o, frees, groups, g, i)} :: QuireApart(o, frees, groups, g, i))
    && (forall i: nat, j: nat {:trigger HomesApart(o, i, j)} :: HomesApart(o, i, j))
  }

  predicate QuiresApart(frees: seq<nat>, groups: seq<seq<HugeHeader>>, g: nat, e: nat) {
    g < |frees| == |groups| && e < |frees| && g != e ==>
      frees[g] + Pages(groups[g]) * PAGE <= frees[e] || frees[e] + Pages(groups[e]) * PAGE <= frees[g]
  }

  predicate QuireApart(o: OldSpace, frees: seq<nat>, groups: seq<seq<HugeHeader>>, g: nat, i: nat) {
    g < |frees| == |groups| && i < |o.headers| == |o.homes| ==>
      frees[g] + Pages(groups[g]) * PAGE <= o.homes[i] || o.homes[i] + o.headers[i].size <= frees[g]
  }

  /** No two hugechunks share a word of the new heap. */
  lemma HugechunksApart(o: OldSpace, frees: seq<nat>, places: seq<seq<nat>>, groups: seq<seq<HugeHeader>>, k: nat,
      l: nat)
    requires QuiresOwn(o, frees, places, groups) && k < |Flat(groups)| && l < |Flat(groups)| && k != l
    ensures var hs, ps := Flat(groups), Flat<nat>(places);
      && |ps| == |hs|
      && (ps[k] + hs[k].pages * PAGE <= ps[l] || ps[l] + hs[l].pages * PAGE <= ps[k])
  {
    var g, i := FlatIndex(groups, places, k);
    var e, j := FlatIndex(groups, places, l);
    assert QuiresApart(frees, groups, g, e);
    StackedFits(frees[g], places[g], groups[g]);
    StackedFits(frees[e], places[e], groups[e]);
    var p, q := places[g][i], places[e][j];
    assert g == e ==> i != j;
    assert p + groups[g][i].pages * PAGE <= q || q + groups[e][j].pages * PAGE <= p;
  }

  /** The new address is that of a hugechunk that is read or of a sib. */
  ghost predicate ReadAt(s: Source, o: OldSpace, quires: seq<QuireHeader>, hs: seq<HugeHeader>, a: nat) {
    (exists i: nat :: InMarkedSib(s, o, i, a)) || (exists k: nat, j: nat :: InHuge(o, quires, hs, k, j, a))
  }

  /** Different addresses become different ones: nothing that is read lies over anything else. */
  lemma ImportKeepsApart(s: Source, o: OldSpace, quires: seq<QuireHeader>, frees: seq<nat>, places: seq<seq<nat>>,
      groups: seq<seq<HugeHeader>>, a: nat, b: nat)
    requires SpaceOk(s, o, quires, Flat(groups), Flat(places)) && QuiresOwn(o, frees, places, groups)
    requires ReadAt(s, o, quires, Flat(groups), a) && ReadAt(s, o, quires, Flat(groups), b) && a != b
    ensures Target(o, a).Some? && Target(o, b).Some? && Target(o, a).value.addr != Target(o, b).value.addr
  {
    hide Target, Seated, InQuire, SibMarked, QuireMarked, PageKnown, LabelOk, AllKnown;
    var hs, ps := Flat(groups), Flat(places);
    if i: nat, j: nat :| InMarkedSib(s, o, i, a) && InMarkedSib(s, o, j, b) {
      SibTarget(s, o, quires, hs, ps, i, a);
      SibTarget(s, o, quires, hs, ps, j, b);
      assert HomesApart(o, i, j);
    } else if i: nat :| InMarkedSib(s, o, i, a) {
      var k: nat, j: nat :| InHuge(o, quires, hs, k, j, b);
      SibIsOut(s, o, quires, frees, places, groups, i, a, k, j, b);
    } else if i: nat :| InMarkedSib(s, o, i, b) {
      var k: nat, j: nat :| InHuge(o, quires, hs, k, j, a);
      SibIsOut(s, o, quires, frees, places, groups, i, b, k, j, a);
    } else {
      var k: nat, j: nat :| InHuge(o, quires, hs, k, j, a);
      var l: nat, i: nat :| InHuge(o, quires, hs, l, i, b);
      HugeTarget(s, o, quires, hs, ps, k, j, a);
      HugeTarget(s, o, quires, hs, ps, l, i, b);
      if k != l { HugechunksApart(o, frees, places, groups, k, l); }
    }
  }

  lemma SibIsOut(s: Source, o: OldSpace, quires: seq<QuireHeader>, frees: seq<nat>, places: seq<seq<nat>>,
      groups: seq<seq<HugeHeader>>, i: nat, a: nat, k: nat, j: nat, b: nat)
    requires SpaceOk(s, o, quires, Flat(groups), Flat(places)) && QuiresOwn(o, frees, places, groups)
    requires InMarkedSib(s, o, i, a) && InHuge(o, quires, Flat(groups), k, j, b)
    ensures Target(o, a).Some? && Target(o, b).Some? && Target(o, a).value.addr != Target(o, b).value.addr
  {
    hide Target, Seated, InQuire, SibMarked, QuireMarked, PageKnown, LabelOk, AllKnown;
    SibTarget(s, o, quires, Flat(groups), Flat(places), i, a);
    HugeTarget(s, o, quires, Flat(groups), Flat(places), k, j, b);
    var g, n := FlatIndex(groups, places, k);
    assert QuireApart(o, frees, groups, g, i);
    StackedFits(frees[g], places[g], groups[g]);
  }

  /** Word d of sib i is as in the image. */
  predicate AsRead(o: OldSpace, image: seq<Word>, m: seq<Word>, i: nat, d: nat) {
    i < |o.headers| == |o.homes| && d < o.headers[i].size ==>
      o.headers[i].base + d < |image| && o.homes[i] + d < |m| && m[o.homes[i] + d] == image[o.headers[i].base + d]
  }

  /** And here it is repaired. */
  predicate AsRepaired(o: OldSpace, externs: seq<nat>, image: seq<Word>, m: seq<Word>, i: nat, d: nat) {
    i < |o.headers| == |o.homes| && d < o.headers[i].size ==>
      && o.headers[i].base + d < |image| && o.homes[i] + d < |m| && Repairable(o, externs, image[o.headers[i].base + d])
      && m[o.homes[i] + d] == Repaired(o, externs, image[o.headers[i].base + d])
  }

  ghost predicate HeapIs(o: OldSpace, externs: seq<nat>, image: seq<Word>, m: seq<Word>, done: set<nat>) {
    forall i: nat, d: nat {:trigger AsRead(o, image, m, i, d)} {:trigger AsRepaired(o, externs, image, m, i, d)} ::
      if i in done then AsRepaired(o, externs, image, m, i, d) else AsRead(o, image, m, i, d)
  }

  method ReadSibs(ram: array<Word>, image: seq<Word>, o: OldSpace)
    requires HomesOk(o, ram.Length) && forall i {:trigger o.headers[i]} ::
        0 <= i < |o.headers| ==> o.headers[i].base + o.headers[i].size <= |image|
    modifies ram
    ensures forall i: nat, d: nat {:trigger AsRead(o, image, ram[..], i, d)} :: AsRead(o, image, ram[..], i, d)
  {
    var i := 0;
    while i < |o.headers|
      invariant i <= |o.headers|
      invariant forall j: nat, d: nat {:trigger AsRead(o, image, ram[..], j, d)} ::
          j < i ==> AsRead(o, image, ram[..], j, d)
    {
      ghost var before := ram[..];
      var h := o.headers[i];
      assert HomeOk(o, ram.Length, i);
      if h.size > 0 {
        ReadBlock(ram, o.homes[i], image[h.base..h.base + h.size]);
      }
      i := i + 1;
      forall j: nat, d: nat | j < i ensures AsRead(o, image, ram[..], j, d) {
        if j < i - 1 { assert AsRead(o, image, before, j, d) && HomesApart(o, j, i - 1); }
      }
    }
  }

  /** The words of a pointer sib can be repaired. */
  predicate WordRepairable(o: OldSpace, externs: seq<nat>, image: seq<Word>, i: nat, d: nat) {
    i < |o.headers| && d < o.headers[i].size && o.headers[i].base + d < |image| && SibSlot(i) != NONPTR_DATA_SIB ==>
      Repairable(o, externs, image[o.headers[i].base + d])
  }

  /** The card of word d of sib i knows of a younger referent. */
  predicate CardKnows(o: OldSpace, image: seq<Word>, cards: seq<CardMap>, i: nat, d: nat, t: nat) {
    i / 4 < |cards| ==> CardKnowsWord(o, image, cards[i / 4], i, d, t)
  }

  /** The map of an agegroup covers its RW_POINTERS sib. */
  predicate MapCovers(o: OldSpace, cards: seq<CardMap>, i: nat, d: nat) {
    i / 4 < |cards| && SibSlot(i) == RW_POINTERS_SIB ==> MapCoversWord(o, cards[i / 4], i, d)
  }

  predicate MapCoversWord(o: OldSpace, cm: CardMap, i: nat, d: nat) {
    i < |o.headers| == |o.homes| && d < o.headers[i].size ==> OnCard(cm, o.homes[i] + d)
  }

  lemma RepairedMore(o: OldSpace, externs: seq<nat>, image: seq<Word>, m: seq<Word>, done: set<nat>, i: nat,
      m': seq<Word>)
    requires HomesOk(o, |m|) && HeapIs(o, externs, image, m, done) && i !in done && i < |o.headers| && |m'| == |m|
    requires forall x {:trigger m'[x]} :: 0 <= x < |m| ==>
      if o.homes[i] <= x < o.homes[i] + o.headers[i].size then Repairable(o, externs, m[x]) &&
          m'[x] == Repaired(o, externs, m[x]) else m'[x] == m[x]
    ensures HeapIs(o, externs, image, m', done + {i})
  {
    forall j: nat, d: nat ensures if j in done + {i} then AsRepaired(o, externs, image, m', j, d)
        else AsRead(o, image, m', j, d) {
      assert if j in done then AsRepaired(o, externs, image, m, j, d) else AsRead(o, image, m, j, d);
      if j != i {
        assert HomesApart(o, j, i);
      } else if d < o.headers[i].size {
        var x := o.homes[i] + d;
        assert HomeOk(o, |m|, i) && 0 <= x < |m|;
        ghost var after := m'[x];
        assert m[x] == image[o.headers[i].base + d] && Repairable(o, externs, m[x]) &&
            m'[x] == Repaired(o, externs, m[x]);
      }
    }
  }

  /** Repair the pointer sibs of all agegroups, marking cards of the RW_POINTERS sibs. */
  method RepairImportedHeap(ram: array<Word>, image: seq<Word>, o: OldSpace, active: nat, externs: seq<nat>,
      cards0: seq<CardMap>) returns (cards: seq<CardMap>)
    requires HomesOk(o, ram.Length) && |o.headers| == 4 * active && |cards0| == active
    requires HeapIs(o, externs, image, ram[..], {})
    requires forall i: nat, d: nat {:trigger WordRepairable(o, externs, image, i, d)} ::
        WordRepairable(o, externs, image, i, d)
    requires forall i: nat, d: nat {:trigger MapCovers(o, cards0, i, d)} :: MapCovers(o, cards0, i, d)
    modifies ram
    ensures HeapIs(o, externs, image, ram[..], PointerSibs(active)) && |cards| == active
    ensures forall i: nat, d: nat, t: nat {:trigger CardKnows(o, image, cards, i, d, t)} ::
        SibSlot(i) == RW_POINTERS_SIB ==> CardKnows(o, image, cards, i, d, t)
  {
    cards := cards0;
    ghost var done: set<nat> := {};
    var age := 0;
    while age < active
      invariant age <= active && done == PointerSibs(age) && |cards| == active && cards[age..] == cards0[age..]
      invariant HeapIs(o, externs, image, ram[..], done)
      invariant forall i: nat, d: nat, t: nat {:trigger CardKnows(o, image, cards, i, d, t)} ::
        SibSlot(i) == RW_POINTERS_SIB && i < 4 * age ==> CardKnows(o, image, cards, i, d, t)
    {
      var cm := RepairOneSib(ram, image, o, externs, 4 * age + RO_POINTERS_SIB, cards0[age], done);
      done := done + {4 * age + RO_POINTERS_SIB};
      cm := RepairOneSib(ram, image, o, externs, 4 * age + RO_CONSCELL_SIB, cards0[age], done);
      done := done + {4 * age + RO_CONSCELL_SIB};
      assert cards[age] == cards[age..][0] == cards0[age..][0] == cards0[age];
      ghost var rw := 4 * age + RW_POINTERS_SIB;
      forall d: nat ensures MapCoversWord(o, cards[age], rw, d) {
        assert MapCovers(o, cards0, rw, d);
      }
      cm := RepairOneSib(ram, image, o, externs, 4 * age + RW_POINTERS_SIB, cards[age], done);
      done := done + {4 * age + RW_POINTERS_SIB};
      PointerSibsOfMore(age);
      ghost var before := cards;
      cards := cards[age := cm];
      age := age + 1;
      forall i: nat, d: nat, t: nat | SibSlot(i) == RW_POINTERS_SIB && i < 4 * age
          ensures CardKnows(o, image, cards, i, d, t) {
        assert i < 4 * (age - 1) ==> CardKnows(o, image, before, i, d, t);
        if i >= 4 * (age - 1) { assert i == 4 * (age - 1) + RW_POINTERS_SIB; assert CardKnowsWord(o, image, cm, i, d,
            t); }
      }
    }
  }

  predicate CardKnowsWord(o: OldSpace, image: seq<Word>, cm: CardMap, i: nat, d: nat, t: nat) {
    && i < |o.headers| == |o.homes| && d < o.headers[i].size && o.headers[i].base + d < |image|
    && Younger(o, image[o.headers[i].base + d], SibAge(i), t)
    ==> OnCard(cm, o.homes[i] + d) && cm.minAge[CardIndex(cm, o.homes[i] + d)] <= t
  }

  method RepairOneSib(ram: array<Word>, ghost image: seq<Word>, o: OldSpace, externs: seq<nat>, i: nat, cm0: CardMap,
      ghost done: set<nat>) returns (cm: CardMap)
    requires HomesOk(o, ram.Length) && HeapIs(o, externs, image, ram[..], done) && i !in done && i < |o.headers| &&
        SibSlot(i) != NONPTR_DATA_SIB
    requires forall i: nat, d: nat {:trigger WordRepairable(o, externs, image, i, d)} ::
        WordRepairable(o, externs, image, i, d)
    requires SibSlot(i) == RW_POINTERS_SIB ==> forall d: nat {:trigger MapCoversWord(o, cm0, i, d)} ::
        MapCoversWord(o, cm0, i, d)
    modifies ram
    ensures HeapIs(o, externs, image, ram[..], done + {i})
    ensures SibSlot(i) == RW_POINTERS_SIB ==> forall d: nat, t: nat {:trigger CardKnowsWord(o, image, cm, i, d, t)} ::
        CardKnowsWord(o, image, cm, i, d, t)
  {
    ghost var m := ram[..];
    assert HomeOk(o, ram.Length, i);
    var at, n := o.homes[i], o.headers[i].size;
    forall x: nat | at <= x < at + n ensures x < |m| && Repairable(o, externs, m[x]) {
      assert AsRead(o, image, m, i, x - at) && WordRepairable(o, externs, image, i, x - at);
    }
    if n > 0 {
      forall x: nat | at <= x < at + n && SibSlot(i) == RW_POINTERS_SIB ensures OnCard(cm0, x) {
        ghost var d: nat := x - at;
        assert MapCoversWord(o, cm0, i, d);
      }
      cm := RepairSib(ram, o, externs, at, at + n, SibSlot(i) == RW_POINTERS_SIB, SibAge(i), cm0);
      if SibSlot(i) == RW_POINTERS_SIB {
        forall d: nat, t: nat ensures CardKnowsWord(o, image, cm, i, d, t) {
          assert AsRead(o, image, m, i, d);
          assert d < n ==> m[at + d] == image[o.headers[i].base + d];
          ghost var y := d < n && Younger(o, m[at + d], SibAge(i), t);
        }
      }
    } else {
      cm := cm0;
    }
    RepairedMore(o, externs, image, m, done, i, ram[..]);
  }

  // ------------------------------------------------------------------ there and back

  /** Every word of a heap that is exported and imported arrives at the same place of its sib, and what it refers to
      at the same place of its own. */
  lemma ImageRoundTrip(s: Source, o: OldSpace, quires: seq<QuireHeader>, hs: seq<HugeHeader>, places: seq<nat>,
      published: set<Cfun>, entries: seq<Cfun>,
    externs: seq<nat>, image: seq<Word>, m: seq<Word>, i: nat, x: nat)
    requires SpaceOk(s, o, quires, hs, places) && SameAddresses(entries, externs)
    requires Patched(s, published, entries, image, PointerSibs(s.k)) && HeapIs(o, externs, image, m, PointerSibs(s.k))
    requires InSib(s, i, x) && x < |s.m| && (SibSlot(i) != NONPTR_DATA_SIB ==>
        Portable(s, o, quires, hs, published, s.m[x]))
    ensures x - s.sibs[i].start + o.homes[i] < |m|
    ensures var r := m[x - s.sibs[i].start + o.homes[i]];
      if SibSlot(i) == NONPTR_DATA_SIB then r == s.m[x] else Moved(s, o, quires, hs, places, s.m[x], r)
  {
    var d := x - s.sibs[i].start;
    assert SibOk(s, i);
    if SibSlot(i) == NONPTR_DATA_SIB {
      assert i !in PointerSibs(s.k);
      NotIn(s, PointerSibs(s.k), i, x);
      assert AsRead(o, image, m, i, d);
    } else {
      InPointerSibs(s, s.k, i, x);
      assert i in PointerSibs(s.k) && AsRepaired(o, externs, image, m, i, d);
      WordRoundTrips(s, o, quires, hs, places, published, entries, externs, s.m[x], image[x]);
    }
  }

  /** What makes the repair possible, so that RepairImportedHeap can be called. */
  lemma PortableIsRepairable(s: Source, o: OldSpace, quires: seq<QuireHeader>, hs: seq<HugeHeader>, places: seq<nat>,
      published: set<Cfun>, entries: seq<Cfun>,
    externs: seq<nat>, image: seq<Word>, i: nat, d: nat)
    requires SpaceOk(s, o, quires, hs, places) && SameAddresses(entries, externs) &&
        Patched(s, published, entries, image, PointerSibs(s.k))
    requires forall j: nat, x: nat {:trigger Scanned(s, j, x)} ::
        Scanned(s, j, x) ==> Portable(s, o, quires, hs, published, s.m[x])
    ensures WordRepairable(o, externs, image, i, d)
  {
    if i < |o.headers| && d < o.headers[i].size && o.headers[i].base + d < |image| && SibSlot(i) != NONPTR_DATA_SIB {
      var x := o.headers[i].base + d;
      assert SibOk(s, i) && InSib(s, i, x) && Scanned(s, i, x);
      InPointerSibs(s, s.k, i, x);
      WordRoundTrips(s, o, quires, hs, places, published, entries, externs, s.m[x], image[x]);
    }
  }

  /** The word's card knows the age of what it refers to, if that is younger. */
  ghost predicate OnRightCard(s: Source, o: OldSpace, cards: seq<CardMap>, i: nat, x: nat, age: nat) {
    i < |s.sibs| && i < |o.homes| && i / 4 < |cards| && s.sibs[i].start <= x &&
      var cm, y := cards[i / 4], x - s.sibs[i].start + o.homes[i];
      OnCard(cm, y) && cm.minAge[CardIndex(cm, y)] <= age
  }

  lemma TargetIsCarded(s: Source, o: OldSpace, quires: seq<QuireHeader>, hs: seq<HugeHeader>, places: seq<nat>,
    published: set<Cfun>, entries: seq<Cfun>, image: seq<Word>, cards: seq<CardMap>, i: nat, x: nat)
    requires SpaceOk(s, o, quires, hs, places) && Patched(s, published, entries, image,
        PointerSibs(s.k)) && |cards| == s.k
    requires forall i: nat, d: nat, t: nat {:trigger CardKnows(o, image, cards, i, d, t)} ::
        SibSlot(i) == RW_POINTERS_SIB ==> CardKnows(o, image, cards, i, d, t)
    requires InSib(s, i, x) && x < |s.m| && SibSlot(i) == RW_POINTERS_SIB && s.m[x].Pointer? &&
        !IsExtern(s.b2s, s.m[x])
    requires Target(o, s.m[x].addr).Some? && Target(o, s.m[x].addr).value.age < SibAge(i)
    ensures OnRightCard(s, o, cards, i, x, Target(o, s.m[x].addr).value.age)
  {
    hide Target, Marked, LabelOk, SibOk, OnCard, CardIndex;
    InPointerSibs(s, s.k, i, x);
    assert image[x] == s.m[x];
    ghost var d: nat, t := x - s.sibs[i].start, Target(o, s.m[x].addr).value.age;
    assert Younger(o, image[x], SibAge(i), t);
    assert CardKnows(o, image, cards, i, d, t);
  }

  /** After the import a mutable word that refers to a younger sib or hugechunk is on a card that says so. */
  lemma CardsAgree(s: Source, o: OldSpace, quires: seq<QuireHeader>, hs: seq<HugeHeader>, places: seq<nat>,
    published: set<Cfun>, entries: seq<Cfun>, image: seq<Word>, cards: seq<CardMap>, i: nat, x: nat)
    requires SpaceOk(s, o, quires, hs, places) && Patched(s, published, entries, image,
        PointerSibs(s.k)) && |cards| == s.k
    requires forall i: nat, d: nat, t: nat {:trigger CardKnows(o, image, cards, i, d, t)} ::
        SibSlot(i) == RW_POINTERS_SIB ==> CardKnows(o, image, cards, i, d, t)
    requires InSib(s, i, x) && x < |s.m| && SibSlot(i) == RW_POINTERS_SIB && s.m[x].Pointer? &&
        !IsExtern(s.b2s, s.m[x])
    ensures forall j: nat {:trigger InMarkedSib(s, o, j, s.m[x].addr)} ::
        InMarkedSib(s, o, j, s.m[x].addr) && SibAge(j) < SibAge(i) ==> OnRightCard(s, o, cards, i, x, SibAge(j))
    ensures forall k: nat, j: nat {:trigger InHuge(o, quires, hs, k, j, s.m[x].addr)} ::
        InHuge(o, quires, hs, k, j, s.m[x].addr) && hs[k].age < SibAge(i) ==> OnRightCard(s, o, cards, i, x, hs[k].age)
  {
    hide OnRightCard, Target, InMarkedSib, CardKnows, Patched, SpaceOk;
    var a := s.m[x].addr;
    forall j: nat | InMarkedSib(s, o, j, a) && SibAge(j) < SibAge(i) ensures OnRightCard(s, o, cards, i, x, SibAge(j)) {
      SibAges(s, o, quires, hs, places, j, a);
      TargetIsCarded(s, o, quires, hs, places, published, entries, image, cards, i, x);
    }
    forall k: nat, j: nat | InHuge(o, quires, hs, k, j, a) && hs[k].age < SibAge(i)
      ensures OnRightCard(s, o, cards, i, x, hs[k].age)
    {
      HugeAges(s, o, quires, hs, places, k, j, a);
      TargetIsCarded(s, o, quires, hs, places, published, entries, image, cards, i, x);
    }
  }

  lemma SibAges(s: Source, o: OldSpace, quires: seq<QuireHeader>, hs: seq<HugeHeader>, places: seq<nat>, i: nat, a: nat)
    requires SpaceOk(s, o, quires, hs, places) && InMarkedSib(s, o, i, a)
    ensures Target(o, a).Some? && Target(o, a).value.age == SibAge(i)
  {
    hide Target;
    SibTarget(s, o, quires, hs, places, i, a);
  }

  lemma HugeAges(s: Source, o: OldSpace, quires: seq<QuireHeader>, hs: seq<HugeHeader>, places: seq<nat>, k: nat,
      j: nat, a: nat)
    requires SpaceOk(s, o, quires, hs, places) && InHuge(o, quires, hs, k, j, a)
    ensures Target(o, a).Some? && Target(o, a).value.age == hs[k].age
  {
    hide Target;
    HugeTarget(s, o, quires, hs, places, k, j, a);
  }

  /** A live cons cell the import loses: the sib's words fill three books from the third word of one, so its last cell
      is in a fourth, and the label read for that is what the table's memory happened to hold. */
  lemma LastCellIsLost(table: seq<Sibid>, b2s: seq<Sibid>, h: Header, a: nat)
    requires |table| == |b2s| == 8 && h == Header(BOOK + 2, 3 * BOOK) && a == h.base + h.size - 2
    requires forall b: nat {:trigger Unmarked([h], [], table, b2s, b)} :: Unmarked([h], [], table, b2s, b)
    ensures Holds(h, a) && SibidFor(b2s, a) == table[4]
  {
    assert a == 4 * BOOK;
    CellsAreMarked(h);
    assert !Marked(h, 4);
    assert Unmarked([h], [], table, b2s, 4);
  }
}
