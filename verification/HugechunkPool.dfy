/** The hugechunk allocator of hugechunk.c as a relation between pools: which chunks there are and which pages
    of which quire they cover.

    A chit is the descriptor of a hugechunk; a quire maps each of its pages to the chit that covers it. */
module HugechunkPool {
  import opened HeapModel

  const QUANTUM := 1024

  function Quanta(bytes: nat): (n: nat)
    ensures bytes <= n * QUANTUM < bytes + QUANTUM
  {
    (bytes + QUANTUM - 1) / QUANTUM
  }

  lemma WholeQuanta(n: nat)
    ensures Quanta(n * QUANTUM) == n
  {
  }

  datatype Chit = Chit(quire: nat, page: nat, bytesize: nat, state: nat, age: nat)

  /** A quire: its first book, its size in books, the quanta its record takes, and the map of the pages behind the
      record. */
  datatype Tray = Tray(book: nat, books: nat, record: nat, pages: seq<nat>, free_pages: int, youngest: nat)

  datatype Pool = Pool(chits: map<nat, Chit>, trays: seq<Tray>)

  function Size(d: Chit): nat { Quanta(d.bytesize) }

  function End(d: Chit): nat { d.page + Size(d) }

  predicate Covers(d: Chit, q: nat, i: int) { d.quire == q && d.page <= i < End(d) }

  // ------------------------------------------------------------------ what holds of a pool

  predicate ChitOk(g: Pool, c: nat) {
    c in g.chits ==>
      var d := g.chits[c];
      && d.quire < |g.trays| && d.bytesize >= 1 && End(d) <= |g.trays[d.quire].pages|
      && (d.state == FREE_HUGECHUNK ==> d.bytesize % QUANTUM == 0)
      && (d.state != FREE_HUGECHUNK ==> g.trays[d.quire].youngest <= d.age)
  }

  /** The pages of a chunk are mapped to it. */
  predicate MapsTo(g: Pool, c: nat, i: int) {
    c in g.chits && g.chits[c].quire < |g.trays| && g.chits[c].page <= i < End(g.chits[c]) &&
        i < |g.trays[g.chits[c].quire].pages|
    ==> g.trays[g.chits[c].quire].pages[i] == c
  }

  predicate PageIn(g: Pool, q: nat, i: int) { q < |g.trays| && 0 <= i < |g.trays[q].pages| }

  /** A page is mapped to a chunk that covers it. */
  predicate PageOk(g: Pool, q: nat, i: int) {
    PageIn(g, q, i) ==> g.trays[q].pages[i] in g.chits && Covers(g.chits[g.trays[q].pages[i]], q, i)
  }

  predicate FreePage(g: Pool, q: nat, i: int) {
    PageIn(g, q, i) && g.trays[q].pages[i] in g.chits && g.chits[g.trays[q].pages[i]].state == FREE_HUGECHUNK
  }

  /** Free neighbours are one chunk. */
  predicate Coalesced(g: Pool, q: nat, i: int) {
    FreePage(g, q, i) && FreePage(g, q, i + 1) ==> g.trays[q].pages[i] == g.trays[q].pages[i + 1]
  }

  ghost function FreePages(g: Pool, q: nat): set<int>
    requires q < |g.trays|
  {
    set i: int | 0 <= i < |g.trays[q].pages| && FreePage(g, q, i)
  }

  ghost predicate CountOk(g: Pool, q: nat) { q < |g.trays| ==> g.trays[q].free_pages == |FreePages(g, q)| }

  ghost predicate Inv(g: Pool) {
    && (forall c: nat {:trigger ChitOk(g, c)} :: ChitOk(g, c))
    && (forall c: nat, i {:trigger MapsTo(g, c, i)} :: MapsTo(g, c, i))
    && (forall q: nat, i {:trigger PageOk(g, q, i)} :: PageOk(g, q, i))
    && (forall q: nat, i {:trigger Coalesced(g, q, i)} :: Coalesced(g, q, i))
    && (forall q: nat {:trigger CountOk(g, q)} :: CountOk(g, q))
  }

  /** Chunks partition the pages: every page is covered by exactly one, the one it is mapped to. */
  lemma PagesArePartitioned(g: Pool, q: nat, i: int, c: nat)
    requires Inv(g) && PageIn(g, q, i) && c in g.chits
    ensures g.trays[q].pages[i] in g.chits && (Covers(g.chits[c], q, i) <==> c == g.trays[q].pages[i])
  {
    assert PageOk(g, q, i) && MapsTo(g, c, i) && ChitOk(g, c);
  }

  // ------------------------------------------------------------------ runs of pages

  ghost function Run(lo: int, hi: int): set<int> { set i: int | lo <= i < hi && InRun(lo, i, hi) }

  predicate InRun(lo: int, i: int, hi: int) { lo <= i < hi }

  lemma {:induction false} RunSize(lo: int, hi: int)
    ensures |Run(lo, hi)| == if lo < hi then hi - lo else 0
    decreases hi - lo
  {
    if lo < hi {
      RunSize(lo, hi - 1);
      assert Run(lo, hi) == Run(lo, hi - 1) + {hi - 1};
    } else {
      assert Run(lo, hi) == {};
    }
  }

  /** Pages lo to hi are mapped to c. */
  function Mapped(pages: seq<nat>, lo: nat, hi: nat, c: nat): (r: seq<nat>)
    requires lo <= hi <= |pages|
    ensures |r| == |pages| && forall i {:trigger r[i]} ::
        0 <= i < |pages| ==> r[i] == if lo <= i < hi then c else pages[i]
  {
    pages[..lo] + seq(hi - lo, _ => c) + pages[hi..]
  }

  // ------------------------------------------------------------------ a new quire

  function EmptyTray(c: nat, npages: nat, book: nat, books: nat, record: nat): Tray {
    Tray(book, books, record, seq(npages, _ => c), npages, MAX_AGEGROUPS)
  }

  function WithQuire(g: Pool, c: nat, t: Tray): Pool {
    Pool(g.chits[c := Chit(|g.trays|, 0, |t.pages| * QUANTUM, FREE_HUGECHUNK, 0)], g.trays + [t])
  }

  lemma QuireKeepsInv(g: Pool, c: nat, npages: nat, t: Tray)
    requires Inv(g) && c !in g.chits && npages >= 1
    requires t == EmptyTray(c, npages, t.book, t.books, t.record)
    ensures Inv(WithQuire(g, c, t))
  {
    var r := WithQuire(g, c, t);
    WholeQuanta(npages);
    forall b: nat ensures ChitOk(r, b) { assert ChitOk(g, b); }
    forall b: nat, i ensures MapsTo(r, b, i) { assert MapsTo(g, b, i) && ChitOk(g, b); }
    forall q: nat, i ensures PageOk(r, q, i) { assert PageOk(g, q, i); }
    forall q: nat, i ensures Coalesced(r, q, i) { assert Coalesced(g, q, i) &&
        PageOk(g, q, i); var j := i + 1; assert PageOk(g, q, j); }
    forall q: nat ensures CountOk(r, q) {
      assert CountOk(g, q);
      if q < |g.trays| {
        forall i: int ensures i in FreePages(r, q) <==> i in FreePages(g, q) { assert PageOk(g, q, i); }
        assert FreePages(r, q) == FreePages(g, q);
      } else if q == |g.trays| {
        RunSize(0, npages);
        assert FreePages(r, q) == Run(0, npages);
      }
    }
  }

  // ------------------------------------------------------------------ allocating

  function Younger(y: nat, age: nat): nat { if y > age then age else y }

  /** A free chunk of just the right size is taken whole. */
  function Taken(g: Pool, c: nat, bytes: nat, age: nat): Pool
    requires c in g.chits && g.chits[c].quire < |g.trays|
  {
    var d, t := g.chits[c], g.trays[g.chits[c].quire];
    Pool(g.chits[c := d.(bytesize := bytes, state := JUNIOR_HUGECHUNK, age := age)],
         g.trays[d.quire := t.(free_pages := t.free_pages - Quanta(bytes), youngest := Younger(t.youngest, age))])
  }

  /** The front of a larger free chunk becomes a chunk of its own. */
  function Split(g: Pool, c: nat, b: nat, bytes: nat, age: nat): Pool
    requires c in g.chits && g.chits[c].quire < |g.trays| && Quanta(bytes) * QUANTUM <= g.chits[c].bytesize
    requires g.chits[c].page + Quanta(bytes) <= |g.trays[g.chits[c].quire].pages|
  {
    var d, t, n := g.chits[c], g.trays[g.chits[c].quire], Quanta(bytes);
    Pool(g.chits[b := Chit(d.quire, d.page, bytes, JUNIOR_HUGECHUNK, age)][c := d.(page := d.page + n,
        bytesize := d.bytesize - n * QUANTUM)],
         g.trays[d.quire := t.(pages := Mapped(t.pages, d.page, d.page + n, b), free_pages := t.free_pages - n,
             youngest := Younger(t.youngest, age))])
  }

  lemma TakenKeepsInv(g: Pool, c: nat, bytes: nat, age: nat)
    requires Inv(g) && c in g.chits && g.chits[c].state == FREE_HUGECHUNK && bytes >= 1 &&
        g.chits[c].bytesize == Quanta(bytes) * QUANTUM
    ensures g.chits[c].quire < |g.trays| && Inv(Taken(g, c, bytes, age))
  {
    assert ChitOk(g, c);
    var r, d := Taken(g, c, bytes, age), g.chits[c];
    WholeQuanta(Quanta(bytes));
    forall b: nat ensures ChitOk(r, b) { assert ChitOk(g, b); }
    forall b: nat, i ensures MapsTo(r, b, i) { assert MapsTo(g, b, i); }
    forall q: nat, i ensures PageOk(r, q, i) { assert PageOk(g, q, i); }
    forall q: nat, i ensures Coalesced(r, q, i) { assert Coalesced(g, q, i); }
    forall q: nat ensures CountOk(r, q) {
      assert CountOk(g, q);
      if q < |g.trays| { TakenCount(g, c, bytes, age, q); }
    }
  }

  lemma TakenCount(g: Pool, c: nat, bytes: nat, age: nat, q: nat)
    requires Inv(g) && c in g.chits && g.chits[c].state == FREE_HUGECHUNK && Quanta(bytes) == Size(g.chits[c]) &&
        q < |g.trays| && g.chits[c].quire < |g.trays|
    ensures |FreePages(Taken(g, c, bytes, age), q)| == |FreePages(g, q)| - if q == g.chits[c].quire then Quanta(bytes)
        else 0
  {
    var r, d := Taken(g, c, bytes, age), g.chits[c];
    assert ChitOk(g, c);
    RunSize(d.page, End(d));
    var gone := if q == d.quire then Run(d.page, End(d)) else {};
    forall i: int ensures i in FreePages(r, q) <==> i in FreePages(g, q) - gone {
      assert PageOk(g, q, i) && MapsTo(g, c, i);
    }
    assert FreePages(r, q) == FreePages(g, q) - gone;
    forall i | i in gone ensures i in FreePages(g, q) { assert MapsTo(g, c, i); }
  }

  lemma SplitKeepsInv(g: Pool, c: nat, b: nat, bytes: nat, age: nat)
    requires Inv(g) && c in g.chits && b !in g.chits && g.chits[c].state == FREE_HUGECHUNK && bytes >= 1 &&
        Quanta(bytes) * QUANTUM < g.chits[c].bytesize
    ensures g.chits[c].quire < |g.trays| && g.chits[c].page + Quanta(bytes) <= |g.trays[g.chits[c].quire].pages|
    ensures Inv(Split(g, c, b, bytes, age))
  {
    assert ChitOk(g, c);
    var n, d := Quanta(bytes), g.chits[c];
    SizesAdd(n, d.bytesize);
    var r := Split(g, c, b, bytes, age);
    forall a: nat ensures ChitOk(r, a) { assert ChitOk(g, a); }
    forall a: nat, i ensures MapsTo(r, a, i) { assert MapsTo(g, a, i) && MapsTo(g, c, i) && ChitOk(g, a); }
    forall q: nat, i ensures PageOk(r, q, i) { assert PageOk(g, q, i) && MapsTo(g, c, i); }
    forall q: nat, i ensures Coalesced(r, q, i) {
      var j := i + 1;
      assert Coalesced(g, q, i) && PageOk(g, q, i) && PageOk(g, q, j) && MapsTo(g, c, i) && MapsTo(g, c, j);
    }
    forall q: nat ensures CountOk(r, q) {
      assert CountOk(g, q);
      if q < |g.trays| { SplitCount(g, c, b, bytes, age, q); }
    }
  }

  lemma SizesAdd(n: nat, bytes: nat)
    requires bytes % QUANTUM == 0 && n * QUANTUM < bytes
    ensures Quanta(bytes) == n + Quanta(bytes - n * QUANTUM) && (bytes - n * QUANTUM) % QUANTUM == 0
  {
  }

  lemma SplitCount(g: Pool, c: nat, b: nat, bytes: nat, age: nat, q: nat)
    requires Inv(g) && c in g.chits && b !in g.chits && g.chits[c].state == FREE_HUGECHUNK &&
        Quanta(bytes) < Size(g.chits[c])
    requires q < |g.trays| && g.chits[c].quire < |g.trays| && Quanta(bytes) * QUANTUM <= g.chits[c].bytesize &&
        g.chits[c].page + Quanta(bytes) <= |g.trays[g.chits[c].quire].pages|
    ensures |FreePages(Split(g, c, b, bytes, age), q)| == |FreePages(g, q)| - if q == g.chits[c].quire
        then Quanta(bytes) else 0
  {
    var r, d, n := Split(g, c, b, bytes, age), g.chits[c], Quanta(bytes);
    assert ChitOk(g, c);
    RunSize(d.page, d.page + n);
    var gone := if q == d.quire then Run(d.page, d.page + n) else {};
    forall i: int ensures i in FreePages(r, q) <==> i in FreePages(g, q) - gone {
      assert PageOk(g, q, i) && MapsTo(g, c, i);
    }
    assert FreePages(r, q) == FreePages(g, q) - gone;
    forall i | i in gone ensures i in FreePages(g, q) { assert MapsTo(g, c, i); }
  }

  // ------------------------------------------------------------------ freeing

  /** The page before a chunk, and the page after it, belong to free chunks. */
  predicate FreeBefore(g: Pool, d: Chit) { FreePage(g, d.quire, d.page - 1) }
  predicate FreeAfter(g: Pool, d: Chit) { FreePage(g, d.quire, End(d)) }

  function Before(g: Pool, d: Chit): nat
    requires FreeBefore(g, d)
  {
    g.trays[d.quire].pages[d.page - 1]
  }

  function Behind(g: Pool, d: Chit): nat
    requires FreeAfter(g, d)
  {
    g.trays[d.quire].pages[End(d)]
  }

  /** The free neighbours are merged into the chunk: it then has pages First to Last. */
  function First(g: Pool, d: Chit): nat { if FreeBefore(g, d) then g.chits[Before(g, d)].page else d.page }
  function Last(g: Pool, d: Chit): nat { if FreeAfter(g, d) then End(g.chits[Behind(g, d)]) else End(d) }

  ghost predicate Merged(g: Pool, d: Chit, b: nat) {
    (FreeBefore(g, d) && b == Before(g, d)) || (FreeAfter(g, d) && b == Behind(g, d))
  }

  lemma SpanIsWhole(g: Pool, c: nat)
    requires Inv(g) && c in g.chits
    ensures var d := g.chits[c];
      && d.quire < |g.trays| && d.page < End(d) <= |g.trays[d.quire].pages|
      && First(g, d) <= d.page && End(d) <= Last(g, d) <= |g.trays[d.quire].pages|
      && !PageFree(g, d.quire, First(g, d) - 1, c) && !PageFree(g, d.quire, Last(g, d), c)
  {
    var d := g.chits[c];
    assert ChitOk(g, c);
    if FreeBefore(g, d) { BeforeIsWhole(g, c); }
    if FreeAfter(g, d) { BehindIsWhole(g, c); }
  }

  /** A page of a free chunk other than c. */
  predicate PageFree(g: Pool, q: nat, i: int, c: nat) { FreePage(g, q, i) && g.trays[q].pages[i] != c }

  lemma BeforeIsWhole(g: Pool, c: nat)
    requires Inv(g) && c in g.chits && FreeBefore(g, g.chits[c])
    ensures var d := g.chits[c]; var b := g.chits[Before(g, d)];
      && b.quire == d.quire && b.page < d.page == End(b) && !PageFree(g, d.quire, b.page - 1, c)
  {
    var d := g.chits[c];
    var a := Before(g, d);
    assert ChitOk(g, c) && PageOk(g, d.quire, d.page - 1) && MapsTo(g, c, d.page) && MapsTo(g, a, d.page) &&
        ChitOk(g, a);
    var i := g.chits[a].page - 1;
    assert Coalesced(g, d.quire, i) && MapsTo(g, a, i + 1) && PageOk(g, d.quire, i);
  }

  lemma BehindIsWhole(g: Pool, c: nat)
    requires Inv(g) && c in g.chits && FreeAfter(g, g.chits[c])
    ensures var d := g.chits[c]; var b := g.chits[Behind(g, d)];
      && b.quire == d.quire && b.page == End(d) < End(b) <= |g.trays[d.quire].pages| && !PageFree(g, d.quire, End(b), c)
  {
    var d := g.chits[c];
    var a := Behind(g, d);
    assert ChitOk(g, c) && PageOk(g, d.quire, End(d)) && MapsTo(g, c, End(d) - 1) && MapsTo(g, a, End(d) - 1) &&
        ChitOk(g, a);
    var i := End(g.chits[a]);
    assert Coalesced(g, d.quire, i - 1) && MapsTo(g, a, i - 1) && PageOk(g, d.quire, i);
  }

  ghost function Freed(g: Pool, c: nat): Pool
    requires Inv(g) && c in g.chits
  {
    SpanIsWhole(g, c);
    var d := g.chits[c];
    var t, lo, hi := g.trays[d.quire], First(g, d), Last(g, d);
    Pool(map b | b in g.chits && (b == c || !Merged(g, d, b)) ::
           if b == c then d.(page := lo, bytesize := (hi - lo) * QUANTUM, state := FREE_HUGECHUNK) else g.chits[b],
         g.trays[d.quire := t.(pages := Mapped(t.pages, lo, hi, c), free_pages := t.free_pages + Size(d))])
  }

  /** A chunk covers a page of the merged span only if it is the chunk or one of the merged neighbours, and those cover
      no other page. */
  lemma SpanIsMerged(g: Pool, c: nat, b: nat, q: nat, i: int)
    requires Inv(g) && c in g.chits && b in g.chits && Covers(g.chits[b], q, i)
    ensures q == g.chits[c].quire && First(g, g.chits[c]) <= i < Last(g, g.chits[c]) <==>
        b == c || Merged(g, g.chits[c], b)
  {
    var d := g.chits[c];
    SpanIsWhole(g, c);
    if FreeBefore(g, d) { BeforeIsWhole(g, c); assert MapsTo(g, Before(g, d), i); }
    if FreeAfter(g, d) { BehindIsWhole(g, c); assert MapsTo(g, Behind(g, d), i); }
    assert MapsTo(g, c, i) && MapsTo(g, b, i) && ChitOk(g, b);
  }

  lemma FreedKeepsInv(g: Pool, c: nat)
    requires Inv(g) && c in g.chits && g.chits[c].state != FREE_HUGECHUNK
    ensures Inv(Freed(g, c))
  {
    var r, d := Freed(g, c), g.chits[c];
    SpanIsWhole(g, c);
    WholeQuanta(Last(g, d) - First(g, d));
    forall b: nat ensures ChitOk(r, b) { assert ChitOk(g, b); }
    forall b: nat, i ensures MapsTo(r, b, i) {
      assert MapsTo(g, b, i) && ChitOk(g, b);
      if b in r.chits && b != c && Covers(g.chits[b], d.quire, i) { SpanIsMerged(g, c, b, d.quire, i); }
    }
    forall q: nat, i ensures PageOk(r, q, i) {
      assert PageOk(g, q, i);
      if PageIn(g, q, i) { SpanIsMerged(g, c, g.trays[q].pages[i], q, i); }
    }
    forall q: nat, i ensures Coalesced(r, q, i) { FreedIsCoalesced(g, c, q, i); }
    forall q: nat ensures CountOk(r, q) {
      assert CountOk(g, q);
      if q < |g.trays| { FreedCount(g, c, q); }
    }
  }

  /** Which pages are free afterwards: those of the chunk, and those that were. */
  lemma FreedPage(g: Pool, c: nat, q: nat, i: int)
    requires Inv(g) && c in g.chits && g.chits[c].state != FREE_HUGECHUNK
    ensures FreePage(Freed(g, c), q, i) <==> FreePage(g, q, i) || Covers(g.chits[c], q, i)
  {
    var d := g.chits[c];
    SpanIsWhole(g, c);
    assert PageOk(g, q, i) && ChitOk(g, c) && MapsTo(g, c, i);
    if PageIn(g, q, i) { SpanIsMerged(g, c, g.trays[q].pages[i], q, i); }
  }

  lemma FreedIsCoalesced(g: Pool, c: nat, q: nat, i: int)
    requires Inv(g) && c in g.chits && g.chits[c].state != FREE_HUGECHUNK
    ensures Coalesced(Freed(g, c), q, i)
  {
    var j := i + 1;
    SpanIsWhole(g, c);
    FreedPage(g, c, q, i);
    FreedPage(g, c, q, j);
    assert Coalesced(g, q, i) && PageOk(g, q, i) && PageOk(g, q, j) && MapsTo(g, c, i) && MapsTo(g, c, j);
    if PageIn(g, q, i) { SpanIsMerged(g, c, g.trays[q].pages[i], q, i); }
    if PageIn(g, q, j) { SpanIsMerged(g, c, g.trays[q].pages[j], q, j); }
  }

  lemma FreedCount(g: Pool, c: nat, q: nat)
    requires Inv(g) && c in g.chits && g.chits[c].state != FREE_HUGECHUNK && q < |g.trays|
    ensures q < |Freed(g, c).trays| && |FreePages(Freed(g, c), q)| == |FreePages(g, q)| + if q == g.chits[c].quire
        then Size(g.chits[c]) else 0
  {
    var r, d := Freed(g, c), g.chits[c];
    SpanIsWhole(g, c);
    RunSize(d.page, End(d));
    var more := if q == d.quire then Run(d.page, End(d)) else {};
    forall i: int ensures i in FreePages(r, q) <==> i in FreePages(g, q) || i in more {
      FreedPage(g, c, q, i);
    }
    assert FreePages(r, q) == FreePages(g, q) + more;
    forall i | i in more ensures i !in FreePages(g, q) { assert MapsTo(g, c, i); }
  }

  // ------------------------------------------------------------------ what a caller sees

  predicate Live(g: Pool, c: nat) { c in g.chits && g.chits[c].state != FREE_HUGECHUNK }

  predicate SameLive(g: Pool, r: Pool, c: nat, b: nat) {
    b != c ==> (Live(r, b) <==> Live(g, b)) && (Live(g, b) ==> r.chits[b] == g.chits[b])
  }

  /** r has one more live chunk than g. */
  ghost predicate Handed(g: Pool, r: Pool, c: nat, bytes: nat, age: nat) {
    && !Live(g, c) && Live(r, c)
    && r.chits[c].bytesize == bytes && r.chits[c].state == JUNIOR_HUGECHUNK && r.chits[c].age == age
    && forall b: nat {:trigger SameLive(g, r, c, b)} :: SameLive(g, r, c, b)
  }

  /** Freeing the chunk that was split off restores the free chunk, now under the descriptor of the chunk;
      the quire keeps the mark of its youngest chunk. */
  lemma FreeUndoesSplit(g: Pool, c: nat, b: nat, bytes: nat, age: nat)
    requires Inv(g) && c in g.chits && b !in g.chits && g.chits[c].state == FREE_HUGECHUNK && bytes >= 1
    requires Quanta(bytes) * QUANTUM < g.chits[c].bytesize
    ensures var d := g.chits[c];
      && d.quire < |g.trays| && End(d) <= |g.trays[d.quire].pages|
      && d.page + Quanta(bytes) <= |g.trays[d.quire].pages|
      && Inv(Split(g, c, b, bytes, age)) && b in Split(g, c, b, bytes, age).chits
      && var r := Freed(Split(g, c, b, bytes, age), b);
      && r.chits == (g.chits - {c})[b := d.(age := age)]
      && r.trays == g.trays[d.quire := g.trays[d.quire].(pages := Mapped(g.trays[d.quire].pages, d.page, End(d), b),
                                                        youngest := Younger(g.trays[d.quire].youngest, age))]
  {
    SplitKeepsInv(g, c, b, bytes, age);
    var d, m := g.chits[c], Split(g, c, b, bytes, age);
    assert ChitOk(g, c) && ChitOk(m, b) && ChitOk(m, c);
    SizesAdd(Quanta(bytes), d.bytesize);
    SplitIsRejoined(g, c, b, bytes, age);
    var r, e := Freed(m, b), m.chits[b];
    assert First(m, e) == d.page && Last(m, e) == End(d) && !FreeBefore(m, e) && Behind(m, e) == c;
    assert (End(d) - d.page) * QUANTUM == d.bytesize;
    assert r.chits[b] == d.(age := age);
    assert r.chits == (g.chits - {c})[b := d.(age := age)];
    assert r.trays[d.quire].pages == Mapped(g.trays[d.quire].pages, d.page, End(d), b);
    assert r.trays[d.quire].free_pages == g.trays[d.quire].free_pages;
  }

  lemma SplitIsRejoined(g: Pool, c: nat, b: nat, bytes: nat, age: nat)
    requires Inv(g) && c in g.chits && b !in g.chits && g.chits[c].state == FREE_HUGECHUNK && bytes >= 1
    requires ChitOk(g, c) && Quanta(bytes) * QUANTUM < g.chits[c].bytesize &&
        End(g.chits[c]) == g.chits[c].page + Quanta(bytes) + Quanta(g.chits[c].bytesize - Quanta(bytes) * QUANTUM)
    requires Inv(Split(g, c, b, bytes, age))
    ensures var m, d := Split(g, c, b, bytes, age), g.chits[c];
      && !FreeBefore(m, m.chits[b]) && FreeAfter(m, m.chits[b]) && Behind(m, m.chits[b]) == c
      && First(m, m.chits[b]) == d.page && Last(m, m.chits[b]) == End(d)
  {
    var d, m := g.chits[c], Split(g, c, b, bytes, age);
    var i := d.page - 1;
    assert MapsTo(g, c, d.page) && Coalesced(g, d.quire, i) && PageOk(g, d.quire, i);
    assert MapsTo(m, c, m.chits[c].page);
  }
}
