/** The hugechunk allocator: src/c/heapcleaner/hugechunk.c.

    Descriptors are numbered as they are made.  The operating system is a function from a size to the first of that
    many unused books. */
module HugechunkHeap {
  import opened HeapModel
  import opened HugechunkPool
  import opened HugechunkQuire
  import opened HugechunkFreelist

  // ------------------------------------------------------------------ what holds between calls

  /** The freelist holds just the free chunks. */
  predicate Listed(g: Pool, order: seq<nat>,
      c: nat) { c in order <==> c in g.chits && g.chits[c].state == FREE_HUGECHUNK }

  predicate Numbered(g: Pool, unused: nat, c: nat) { c in g.chits ==> HEADER < c < unused }

  predicate TrayOk(t: Tray) { Exact(|t.pages|, t.books * BOOK_BYTESIZE) && t.record == RecordQuanta(|t.pages|) }

  predicate Within(t: Tray, b: int) { t.book <= b < t.book + t.books }

  /** Once a chunk was allocated in a quire, its first book is labelled as the record's and the others as data,
      with the age of the youngest. */
  predicate Labelled(t: Tray, b2s: map<nat, Sibid>, b: nat) {
    Within(t, b) && t.youngest < MAX_AGEGROUPS ==>
      b in b2s && b2s[b] == Sibid(t.youngest, CODE_KIND, if b == t.book then HUGECHUNK_RECORD else HUGECHUNK_DATA)
  }

  ghost predicate QuireOk(g: Pool, b2s: map<nat, Sibid>, q: nat) {
    q < |g.trays| ==> TrayOk(g.trays[q]) && forall b: nat {:trigger Labelled(g.trays[q], b2s, b)} ::
        Labelled(g.trays[q], b2s, b)
  }

  predicate Apart(g: Pool, p: nat, q: nat, b: nat) {
    p < |g.trays| && q < |g.trays| && Within(g.trays[p], b) && Within(g.trays[q], b) ==> p == q
  }

  ghost predicate Sound(g: Pool, l: Links, order: seq<nat>, b2s: map<nat, Sibid>, unused: nat) {
    && Inv(g) && IsRing(l, order) && unused > HEADER
    && (forall c: nat {:trigger Listed(g, order, c)} :: Listed(g, order, c))
    && (forall c: nat {:trigger Numbered(g, unused, c)} :: Numbered(g, unused, c))
    && QuiresOk(g, b2s)
  }

  ghost predicate QuiresOk(g: Pool, b2s: map<nat, Sibid>) {
    && (forall q: nat {:trigger QuireOk(g, b2s, q)} :: QuireOk(g, b2s, q))
    && (forall p: nat, q: nat, b: nat {:trigger Apart(g, p, q, b)} :: Apart(g, p, q, b))
  }

  /** The n books from `book` are in no quire. */
  predicate Unclaimed(trays: seq<Tray>, book: nat, n: nat, q: nat) {
    q < |trays| ==> book + n <= trays[q].book || trays[q].book + trays[q].books <= book
  }

  ghost predicate Grants(trays: seq<Tray>, os: nat -> nat) {
    forall n: nat, q: nat {:trigger Unclaimed(trays, os(n), n, q)} :: Unclaimed(trays, os(n), n, q)
  }

  predicate TooSmall(g: Pool, c: nat, bytes: nat) { c in g.chits ==> g.chits[c].bytesize < bytes }

  /** The first chunk of the freelist that is large enough; the header when there is none. */
  ghost predicate FirstFit(g: Pool, order: seq<nat>, bytes: nat, d: nat) {
    exists k {:trigger Node(order, k)} ::
      && 1 <= k <= |order| + 1 && d == Node(order, k)
      && (k <= |order| ==> !TooSmall(g, d, bytes))
      && forall j: nat {:trigger TooSmall(g, Node(order, j), bytes)} ::
          1 <= j < k ==> TooSmall(g, Node(order, j), bytes)
  }

  /** The chunk taken from the front of free chunk d, or d itself. */
  ghost predicate Carved(g: Pool, d: nat, r: Pool, c: nat, bytes: nat, age: nat) {
    && d in g.chits && ChitOk(g, d) && Quanta(bytes) * QUANTUM <= g.chits[d].bytesize
    && if g.chits[d].bytesize == Quanta(bytes) * QUANTUM then c == d && r == Taken(g, d, bytes, age)
       else g.chits[d].page + Quanta(bytes) <= |g.trays[g.chits[d].quire].pages| && r == Split(g, d, c, bytes, age)
  }

  /** A new quire with descriptor c, large enough. */
  ghost predicate FreshQuire(g: Pool, r: Pool, c: nat, bytes: nat) {
    |r.trays| > 0 && var t := r.trays[|r.trays| - 1];
      && TrayOk(t) && t == EmptyTray(c, |t.pages|, t.book, t.books, t.record) && |t.pages| * QUANTUM >= bytes
      && r == WithQuire(g, c, t)
  }

  /** The free chunk d that is carved and the pool m it is carved from: the first fit, or a new quire when there is
      none. */
  ghost predicate Source(g: Pool, order: seq<nat>, unused: nat, m: Pool, d: nat, bytes: nat, c: nat, rorder: seq<nat>) {
    if d in order then
      && FirstFit(g, order, bytes, d) && m == g && (c != d ==> c == unused)
      && rorder == if c == d then Without(order, d) else order
    else
      && FirstFit(g, order, bytes, HEADER) && d == unused && FreshQuire(g, m, d, bytes) && (c != d ==> c == unused + 1)
      && rorder == if c == d then order else [d] + order
  }

  ghost predicate Allocated(g: Pool, order: seq<nat>, unused: nat, r: Pool, rorder: seq<nat>, c: nat, bytes: nat,
      age: nat) {
    exists d: nat, m: Pool ::
      Source(g, order, unused, m, d, Quanta(bytes) * QUANTUM, c, rorder) && Carved(m, d, r, c, bytes, age)
  }

  // ------------------------------------------------------------------ labels

  predicate BookSet(b2s0: map<nat, Sibid>, b2s: map<nat, Sibid>, t: Tray, age: nat, b: nat) {
    if Within(t, b) then b in b2s && b2s[b] == Sibid(age, CODE_KIND,
        if b == t.book then HUGECHUNK_RECORD else HUGECHUNK_DATA)
    else (b in b2s <==> b in b2s0) && (b in b2s ==> b2s[b] == b2s0[b])
  }

  ghost predicate AllSet(b2s0: map<nat, Sibid>, b2s: map<nat, Sibid>, t: Tray, age: nat) {
    forall b: nat {:trigger BookSet(b2s0, b2s, t, age, b)} :: BookSet(b2s0, b2s, t, age, b)
  }

  ghost predicate Relabelled(b2s0: map<nat, Sibid>, b2s: map<nat, Sibid>, t: Tray, age: nat) {
    if t.youngest > age then AllSet(b2s0, b2s, t, age) else b2s == b2s0
  }

  /** The quire of chunk d has a new youngest chunk perhaps, and the same books and size. */
  ghost predicate TrayTouched(g: Pool, r: Pool, q: nat, age: nat) {
    && q < |g.trays| == |r.trays| && r.trays == g.trays[q := r.trays[q]]
    && r.trays[q].book == g.trays[q].book && r.trays[q].books == g.trays[q].books &&
        r.trays[q].record == g.trays[q].record
    && |r.trays[q].pages| == |g.trays[q].pages| && r.trays[q].youngest == Younger(g.trays[q].youngest, age)
  }

  lemma TouchedQuires(g: Pool, r: Pool, b2s0: map<nat, Sibid>, b2s: map<nat, Sibid>, q: nat, age: nat)
    requires QuiresOk(g, b2s0) && TrayTouched(g, r, q, age) && Relabelled(b2s0, b2s, g.trays[q], age)
    ensures QuiresOk(r, b2s)
  {
    forall a: nat ensures QuireOk(r, b2s, a) {
      assert QuireOk(g, b2s0, a);
      if a < |r.trays| {
        forall b: nat ensures Labelled(r.trays[a], b2s, b) {
          assert Labelled(g.trays[a], b2s0, b) && Apart(g, a, q, b);
          ghost var x := BookSet(b2s0, b2s, g.trays[q], age, b);
        }
      }
    }
    forall a: nat, p: nat, b: nat ensures Apart(r, a, p, b) { assert Apart(g, a, p, b); }
  }

  lemma FreshQuires(g: Pool, r: Pool, b2s: map<nat, Sibid>, c: nat, bytes: nat)
    requires QuiresOk(g, b2s) && FreshQuire(g, r, c, bytes)
    requires forall q: nat
      {:trigger Unclaimed(g.trays, r.trays[|r.trays| - 1].book, r.trays[|r.trays| - 1].books, q)} ::
      Unclaimed(g.trays, r.trays[|r.trays| - 1].book, r.trays[|r.trays| - 1].books, q)
    ensures QuiresOk(r, b2s)
  {
    forall a: nat ensures QuireOk(r, b2s, a) {
      assert QuireOk(g, b2s, a);
      if a < |r.trays| {
        forall b: nat ensures Labelled(r.trays[a], b2s, b) { assert a < |g.trays| ==> Labelled(g.trays[a], b2s, b); }
      }
    }
    forall a: nat, p: nat, b: nat ensures Apart(r, a, p, b) {
      assert Apart(g, a, p, b);
      assert Unclaimed(g.trays, r.trays[|r.trays| - 1].book, r.trays[|r.trays| - 1].books, a);
      assert Unclaimed(g.trays, r.trays[|r.trays| - 1].book, r.trays[|r.trays| - 1].books, p);
    }
  }

  // ------------------------------------------------------------------ what carving keeps

  /** A free chunk not in the list yet, when a quire is new. */
  predicate ListedBut(g: Pool, order: seq<nat>, d: nat, c: nat) {
    c in order <==> c in g.chits && g.chits[c].state == FREE_HUGECHUNK && c != d
  }

  lemma CarvedIsHanded(g: Pool, d: nat, r: Pool, c: nat, bytes: nat, age: nat)
    requires Inv(g) && Carved(g, d, r, c, bytes, age) && bytes >= 1 && g.chits[d].state == FREE_HUGECHUNK &&
        (c != d ==> c !in g.chits)
    requires g.chits[d].bytesize != Quanta(bytes) * QUANTUM ==> c != d
    ensures Inv(r) && Handed(g, r, c, bytes, age) && TrayTouched(g, r, g.chits[d].quire, age)
    ensures c != d ==> d in r.chits && r.chits[d].state == FREE_HUGECHUNK
    ensures forall b: nat :: b in r.chits <==> b in g.chits || b == c
  {
    if g.chits[d].bytesize == Quanta(bytes) * QUANTUM { TakenKeepsInv(g, c, bytes, age); }
        else { SplitKeepsInv(g, d, c, bytes, age); }
    forall b: nat ensures SameLive(g, r, c, b) { }
  }

  lemma CarvedIsListed(g: Pool, d: nat, r: Pool, c: nat, bytes: nat, age: nat, order: seq<nat>, b: nat)
    requires Carved(g, d, r, c, bytes, age) && (c != d ==> c !in g.chits && c !in order)
    requires g.chits[d].bytesize != Quanta(bytes) * QUANTUM ==> c != d
    requires ListedBut(g, order, d, b) && d !in order && g.chits[d].state == FREE_HUGECHUNK
    ensures b in r.chits && r.chits[b].state == FREE_HUGECHUNK <==> b in order || (c != d && b == d)
  {
  }

  /** The state between carving chunk c out of d and filling it in. */
  ghost predicate Cut(m: Pool, d: nat, n: nat, r: Pool, c: nat) {
    && d in m.chits && ChitOk(m, d) && m.chits[d].state == FREE_HUGECHUNK && n * QUANTUM <= m.chits[d].bytesize
    && var e, t := m.chits[d], m.trays[m.chits[d].quire];
      if e.bytesize == n * QUANTUM then c == d && r == m
      else
        && c !in m.chits && e.page + n <= |t.pages|
        && r.chits == m.chits[c := Chit(e.quire, e.page, 0, 0, 0)][d := e.(page := e.page + n,
            bytesize := e.bytesize - n * QUANTUM)]
        && r.trays == m.trays[e.quire := t.(pages := Mapped(t.pages, e.page, e.page + n, c))]
  }

  lemma CutIsCarved(m: Pool, d: nat, n: nat, s: Pool, c: nat, bytes: nat, age: nat, r: Pool)
    requires Cut(m, d, n, s, c) && n == Quanta(bytes)
    requires r.chits == s.chits[c := s.chits[c].(bytesize := bytes, state := JUNIOR_HUGECHUNK, age := age)]
    requires var q := s.chits[c].quire; var t := s.trays[q];
      r.trays == s.trays[q := t.(free_pages := t.free_pages - n, youngest := Younger(t.youngest, age))]
    ensures Carved(m, d, r, c, bytes, age)
  {
    var e, q := m.chits[d], m.chits[d].quire;
    if e.bytesize == n * QUANTUM {
      assert r.trays == Taken(m, d, bytes, age).trays;
    } else {
      assert r.chits == Split(m, d, c, bytes, age).chits;
      assert r.trays == Split(m, d, c, bytes, age).trays;
    }
  }

  /** The free chunks other than d are listed in rest; order has d too if something of it is left. */
  ghost predicate Rest(m: Pool, d: nat, c: nat, rest: seq<nat>, order: seq<nat>) {
    && d !in rest && (forall b: nat {:trigger ListedBut(m, rest, d, b)} :: ListedBut(m, rest, d, b))
    && forall b: nat {:trigger RestOrD(d, c, rest, order, b)} :: RestOrD(d, c, rest, order, b)
  }

  predicate RestOrD(d: nat, c: nat, rest: seq<nat>, order: seq<nat>, b: nat) {
    b in order <==> b in rest || (c != d && b == d)
  }

  predicate KnownOr(m: Pool, c: nat, unused: nat, b: nat) { b in m.chits || b == c ==> HEADER < b < unused }

  lemma HeaderIsLinked(l: Links, order: seq<nat>)
    requires IsRing(l, order)
    ensures HEADER in l.next && l.next[HEADER] == Node(order, 1)
  {
    assert LinkOk(l, order, 0);
  }

  /** What carving leaves for filling in. */
  ghost predicate Halfway(m: Pool, d: nat, c: nat, rest: seq<nat>, l: Links, order: seq<nat>, b2s: map<nat, Sibid>,
      unused: nat) {
    && Inv(m) && QuiresOk(m, b2s) && IsRing(l, order) && Rest(m, d, c, rest, order)
    && forall b: nat {:trigger KnownOr(m, c, unused, b)} :: KnownOr(m, c, unused, b)
  }

  /** Carving changes neither the books of the quire nor the age of its youngest chunk. */
  lemma CutTray(m: Pool, d: nat, n: nat, s: Pool, c: nat, b2s: map<nat, Sibid>)
    requires QuiresOk(m, b2s) && Cut(m, d, n, s, c)
    ensures c in s.chits && s.chits[c].quire == m.chits[d].quire < |m.trays| == |s.trays|
    ensures s.trays[s.chits[c].quire] == m.trays[m.chits[d].quire].(pages := s.trays[s.chits[c].quire].pages)
    ensures s.trays[s.chits[c].quire].books >= 1
  {
    assert QuireOk(m, b2s, m.chits[d].quire);
  }

  lemma HalfwayIsSound(m: Pool, d: nat, n: nat, s: Pool, c: nat, rest: seq<nat>, l: Links, order: seq<nat>,
      b2s: map<nat, Sibid>, unused: nat,
    r: Pool, bytes: nat, age: nat, b2s1: map<nat, Sibid>)
    requires Halfway(m, d, c, rest, l, order, b2s, unused) && Cut(m, d, n, s, c) && Carved(m, d, r, c, bytes, age) &&
        bytes >= 1 && n == Quanta(bytes)
    requires c in s.chits && s.chits[c].quire < |s.trays| && Relabelled(b2s, b2s1, s.trays[s.chits[c].quire], age)
    ensures Sound(r, l, order, b2s1, unused) && Handed(m, r, c, bytes, age)
  {
    CarvedIsHanded(m, d, r, c, bytes, age);
    CutTray(m, d, n, s, c, b2s);
    var q := m.chits[d].quire;
    if m.trays[q].youngest > age {
      forall b: nat ensures BookSet(b2s, b2s1, m.trays[q], age, b) { assert BookSet(b2s, b2s1, s.trays[q], age, b); }
    }
    TouchedQuires(m, r, b2s, b2s1, m.chits[d].quire, age);
    assert KnownOr(m, c, unused, c);
    forall b: nat ensures Listed(r, order, b) {
      assert ListedBut(m, rest, d, b) && RestOrD(d, c, rest, order, b) && ListedBut(m, rest, d, c);
      CarvedIsListed(m, d, r, c, bytes, age, rest, b);
    }
    forall b: nat ensures Numbered(r, unused, b) { assert KnownOr(m, c, unused, b); }
  }

  lemma FreshIsHanded(g: Pool, m: Pool, r: Pool, d: nat, c: nat, bytes: nat, age: nat)
    requires FreshQuire(g, m, d, Quanta(bytes) * QUANTUM) && d !in g.chits && Handed(m, r, c, bytes, age)
    ensures Handed(g, r, c, bytes, age)
  {
    forall b: nat ensures SameLive(g, r, c, b) { assert SameLive(m, r, c, b); }
  }

  // ------------------------------------------------------------------ what freeing keeps

  /** The freelist without the neighbours that are merged. */
  function FreedOrder(g: Pool, order: seq<nat>, d: Chit): seq<nat> {
    var rest := if FreeBefore(g, d) then Without(order, Before(g, d)) else order;
    if FreeAfter(g, d) then Without(rest, Behind(g, d)) else rest
  }

  ghost predicate Returned(g: Pool, r: Pool, c: nat) {
    Live(g, c) && !Live(r, c) && forall b: nat {:trigger SameLive(g, r, c, b)} :: SameLive(g, r, c, b)
  }

  lemma FreedPages(g: Pool, c: nat)
    requires Inv(g) && c in g.chits
    ensures var d := g.chits[c]; d.quire < |g.trays| && var p := g.trays[d.quire].pages;
      && First(g, d) <= d.page <= End(d) <= Last(g, d) <= |p|
      && Mapped(Mapped(p, First(g, d), d.page, c), End(d), Last(g, d), c) == Mapped(p, First(g, d), Last(g, d), c)
  {
    SpanIsWhole(g, c);
    var d := g.chits[c];
    var p := g.trays[d.quire].pages;
    var r := Mapped(Mapped(p, First(g, d), d.page, c), End(d), Last(g, d), c);
    forall i | 0 <= i < |p| ensures r[i] == Mapped(p, First(g, d), Last(g, d), c)[i] { assert MapsTo(g, c, i); }
  }

  ghost function Eaten(g: Pool, d: Chit): set<nat> {
    (if FreeBefore(g, d) then {Before(g, d)} else {}) + (if FreeAfter(g, d) then {Behind(g, d)} else {})
  }

  /** The chunk before c is merged. */
  ghost predicate MergedBefore(g: Pool, r: Pool, c: nat, o: seq<nat>, order: seq<nat>) {
    c in g.chits && var d := g.chits[c];
      && d.quire < |g.trays| && First(g, d) <= d.page <= |g.trays[d.quire].pages|
      && r.chits == (g.chits - if FreeBefore(g, d) then {Before(g, d)} else {})[c := d.(page := First(g, d))]
      && r.trays == g.trays[d.quire := g.trays[d.quire].(pages := Mapped(g.trays[d.quire].pages, First(g, d), d.page,
          c))]
      && order == if FreeBefore(g, d) then Without(o, Before(g, d)) else o
  }

  /** The chunk behind it as well. */
  ghost predicate MergedBoth(g: Pool, r: Pool, c: nat) {
    c in g.chits && var d := g.chits[c];
      && d.quire < |g.trays| && First(g, d) <= d.page <= End(d) <= Last(g, d) <= |g.trays[d.quire].pages| &&
          c !in Eaten(g, d)
      && r.chits == (g.chits - Eaten(g, d))[c := d.(page := First(g, d))]
      && r.trays == g.trays[d.quire := g.trays[d.quire].(
           pages := Mapped(Mapped(g.trays[d.quire].pages, First(g, d), d.page, c), End(d), Last(g, d), c))]
  }

  /** The pool that merging one neighbour after the other leaves. */
  lemma MergedIsFreed(g: Pool, c: nat, r: Pool)
    requires Inv(g) && Live(g, c) && g.chits[c].quire < |g.trays| && c !in Eaten(g, g.chits[c])
    requires var d := g.chits[c];
      && First(g, d) <= d.page && End(d) <= Last(g, d) <= |g.trays[d.quire].pages|
      && r.chits == (g.chits - Eaten(g, d))[c := d.(page := First(g, d),
          bytesize := (Last(g, d) - First(g, d)) * QUANTUM, state := FREE_HUGECHUNK)]
      && r.trays == g.trays[d.quire := g.trays[d.quire].(
           pages := Mapped(Mapped(g.trays[d.quire].pages, First(g, d), d.page, c), End(d), Last(g, d), c),
           free_pages := g.trays[d.quire].free_pages + Size(d))]
    ensures r == Freed(g, c) && Returned(g, r, c)
  {
    FreedPages(g, c);
    FreedIsReturned(g, c);
    assert r.chits == Freed(g, c).chits;
  }

  lemma FreedIsReturned(g: Pool, c: nat)
    requires Inv(g) && Live(g, c)
    ensures Returned(g, Freed(g, c), c)
  {
    forall b: nat ensures SameLive(g, Freed(g, c), c, b) { }
  }

  lemma MapNone(pages: seq<nat>, i: nat, c: nat)
    requires i <= |pages|
    ensures Mapped(pages, i, i, c) == pages
  {
  }

  /** The neighbours that are merged are other chunks of the freelist. */
  lemma Neighbours(g: Pool, l: Links, order: seq<nat>, b2s: map<nat, Sibid>, unused: nat, c: nat)
    requires Sound(g, l, order, b2s, unused) && Live(g, c)
    ensures c in g.chits && c != HEADER && c !in order && g.chits[c].quire < |g.trays|
    ensures var d := g.chits[c]; var p := g.trays[d.quire].pages;
      && d.page < End(d) <= |p|
      && (d.page > 0 ==> p[d.page - 1] in g.chits && p[d.page - 1] != c)
      && (d.page > 0 ==> (FreeBefore(g, d) <==> g.chits[p[d.page - 1]].state == FREE_HUGECHUNK))
      && (End(d) < |p| ==> p[End(d)] in g.chits && p[End(d)] != c)
      && (End(d) < |p| ==> (FreeAfter(g, d) <==> g.chits[p[End(d)]].state == FREE_HUGECHUNK))
      && (FreeBefore(g, d) ==> d.page > 0 && Before(g, d) in order && g.chits[Before(g, d)].page <= d.page)
      && (FreeBefore(g, d) ==> g.chits[Before(g, d)].bytesize == (d.page - First(g, d)) * QUANTUM)
      && (FreeAfter(g, d) ==> End(d) < |p| && Behind(g, d) in order)
      && (FreeAfter(g, d) ==> g.chits[Behind(g, d)].bytesize == (Last(g, d) - End(d)) * QUANTUM)
      && (FreeBefore(g, d) && FreeAfter(g, d) ==> Before(g, d) != Behind(g, d))
      && (if FreeBefore(g, d) then First(g, d) <= d.page else First(g, d) == d.page)
      && (if FreeAfter(g, d) then End(d) <= Last(g, d) <= |p| else End(d) == Last(g, d))
  {
    SpanIsWhole(g, c);
    var d := g.chits[c];
    assert Listed(g, order, c) && Numbered(g, unused, c);
    assert PageOk(g, d.quire, d.page - 1) && PageOk(g, d.quire, End(d));
    if FreeBefore(g, d) { BeforeIsWhole(g, c); var b := Before(g, d); assert Listed(g, order, b) && ChitOk(g, b); }
    if FreeAfter(g, d) { BehindIsWhole(g, c); var b := Behind(g, d); assert Listed(g, order, b) && ChitOk(g, b); }
  }

  lemma FreedOrderLists(g: Pool, l: Links, order: seq<nat>, b2s: map<nat, Sibid>, unused: nat, c: nat, b: nat)
    requires Sound(g, l, order, b2s, unused) && Live(g, c)
    ensures FreedListed(g, order, g.chits[c], b)
  {
    Neighbours(g, l, order, b2s, unused, c);
    var d := g.chits[c];
    if FreeBefore(g, d) {
      RemoveKeepsRing(l, order, Before(g, d));
      if FreeAfter(g, d) { RemoveKeepsRing(Removed(l, Before(g, d)), Without(order, Before(g, d)), Behind(g, d)); }
    } else if FreeAfter(g, d) {
      RemoveKeepsRing(l, order, Behind(g, d));
    }
  }

  lemma FreedOrderHas(g: Pool, l: Links, order: seq<nat>, b2s: map<nat, Sibid>, unused: nat, c: nat)
    requires Sound(g, l, order, b2s, unused) && Live(g, c)
    ensures var d := g.chits[c];
      FreeAfter(g, d) ==> Behind(g, d) in if FreeBefore(g, d) then Without(order, Before(g, d)) else order
    ensures c !in FreedOrder(g, order, g.chits[c])
  {
    var d := g.chits[c];
    Neighbours(g, l, order, b2s, unused, c);
    FreedOrderLists(g, l, order, b2s, unused, c, c);
    if FreeBefore(g, d) { RemoveKeepsRing(l, order, Before(g, d)); }
  }

  lemma FreedIsSound(g: Pool, l: Links, order: seq<nat>, b2s: map<nat, Sibid>, unused: nat, c: nat, l1: Links)
    requires Sound(g, l, order, b2s, unused) && Live(g, c) && IsRing(l1, [c] + FreedOrder(g, order, g.chits[c]))
    ensures Sound(Freed(g, c), l1, [c] + FreedOrder(g, order, g.chits[c]), b2s, unused)
  {
    var r, q := Freed(g, c), g.chits[c].quire;
    FreedKeepsInv(g, c);
    SpanIsWhole(g, c);
    TouchedQuires(g, r, b2s, b2s, q, g.trays[q].youngest);
    forall b: nat ensures Listed(r, [c] + FreedOrder(g, order, g.chits[c]), b) {
      FreedOrderLists(g, l, order, b2s, unused, c, b);
      assert Listed(g, order, b) && Listed(g, order, c);
    }
    forall b: nat ensures Numbered(r, unused, b) { assert Numbered(g, unused, b); }
  }

  predicate FreedListed(g: Pool, order: seq<nat>, d: Chit, b: nat) {
    b in FreedOrder(g, order, d) <==>
      b in order && !(FreeBefore(g, d) && b == Before(g, d)) && !(FreeAfter(g, d) && b == Behind(g, d))
  }

  // ------------------------------------------------------------------ addresses

  /** The byte address of the first page of a quire, behind the record. */
  function FirstRamQuantum(t: Tray): nat { t.book * BOOK_BYTESIZE + t.record * QUANTUM }

  /** Address addr lies in the pages of chunk d. */
  predicate Holds(g: Pool, d: Chit, addr: nat) {
    d.quire < |g.trays| && var start := FirstRamQuantum(g.trays[d.quire]) + d.page * QUANTUM;
      start <= addr < start + Size(d) * QUANTUM
  }

  /** Such an address is in a book of the quire, and its page is mapped to the chunk. */
  lemma HeldIsMapped(g: Pool, b2s: map<nat, Sibid>, b: nat, addr: nat)
    requires Inv(g) && QuiresOk(g, b2s) && b in g.chits && Holds(g, g.chits[b], addr)
    ensures var t := g.trays[g.chits[b].quire]; var i := (addr - FirstRamQuantum(t)) / QUANTUM;
      && Within(t, addr / BOOK_BYTESIZE) && t.books > 0 && 0 <= i < |t.pages| && t.pages[i] == b
  {
    var d := g.chits[b];
    var t := g.trays[d.quire];
    assert ChitOk(g, b) && QuireOk(g, b2s, d.quire);
    HeldIsInBook(t, addr);
    var i := (addr - FirstRamQuantum(t)) / QUANTUM;
    assert MapsTo(g, b, i);
  }

  lemma HeldIsInBook(t: Tray, addr: nat)
    requires TrayOk(t) && FirstRamQuantum(t) <= addr < FirstRamQuantum(t) + |t.pages| * QUANTUM
    ensures Within(t, addr / BOOK_BYTESIZE)
  {
    hide RecordQuanta;
  }

  class HugechunkHeap {
    var chits: map<nat, Chit>
    var trays: seq<Tray>
    var links: Links
    var b2s: map<nat, Sibid>
    var unused: nat
    ghost var order: seq<nat>

    ghost function G(): Pool reads this { Pool(chits, trays) }

    ghost predicate Valid() reads this { Sound(G(), links, order, b2s, unused) }

    constructor ()
      ensures Valid() && chits == map[] && trays == []
    {
      chits, trays, b2s, unused, order := map[], [], map[], 1, [];
      links := Links(map[HEADER := HEADER], map[HEADER := HEADER]);
    }

    method FindFirstFit(bytes: nat) returns (d: nat)
      requires Valid()
      ensures FirstFit(G(), order, bytes, d) && HEADER !in order && unused !in order && unused !in chits
      ensures d != HEADER ==> d in order && d in chits && chits[d].bytesize >= bytes
    {
      assert LinkOk(links, order, 0) && Listed(G(), order, unused) && Numbered(G(), unused, unused);
      d := links.next[HEADER];
      ghost var k := 1;
      assert d != HEADER ==> Listed(G(), order, d);
      while d != HEADER && chits[d].bytesize < bytes
        invariant 1 <= k <= |order| + 1 && d == Node(order, k)
        invariant forall j: nat {:trigger TooSmall(G(), Node(order, j), bytes)} ::
            1 <= j < k ==> TooSmall(G(), Node(order, j), bytes)
        invariant d != HEADER ==> d in order && d in chits
        decreases |order| - k
      {
        assert LinkOk(links, order, k);
        d := links.next[d];
        k := k + 1;
        assert d != HEADER ==> Listed(G(), order, d);
      }
    }

    /** Map pages lo to hi of a quire to chunk c. */
    method MapPages(q: nat, lo: nat, hi: nat, c: nat)
      requires q < |trays| && lo <= hi <= |trays[q].pages|
      modifies this`trays
      ensures trays == old(trays)[q := old(trays[q]).(pages := Mapped(old(trays[q].pages), lo, hi, c))]
    {
      var i := lo;
      ghost var pages := trays[q].pages;
      assert Mapped(pages, lo, lo, c) == pages;
      while i < hi
        invariant lo <= i <= hi
        invariant trays == old(trays)[q := old(trays[q]).(pages := Mapped(pages, lo, i, c))]
      {
        trays := trays[q := trays[q].(pages := trays[q].pages[i := c])];
        i := i + 1;
        assert trays[q].pages == Mapped(pages, lo, i, c);
      }
    }

    method AllocateHugechunkQuire(os: nat -> nat, bytes: nat) returns (c: nat)
      requires Inv(G()) && bytes >= 1 && unused !in chits && Grants(trays, os)
      modifies this`chits, this`trays, this`unused
      ensures c == old(unused) && unused == c + 1
      ensures FreshQuire(old(G()), G(), c, bytes)
      ensures forall q: nat {:trigger Unclaimed(old(trays), trays[|trays| - 1].book, trays[|trays| - 1].books, q)} ::
        Unclaimed(old(trays), trays[|trays| - 1].book, trays[|trays| - 1].books, q)
    {
      var npages, quireBytes := SizeQuire(bytes);
      var books := quireBytes / BOOK_BYTESIZE;
      var recordBytes := Quanta(RecordBytesize(npages)) * QUANTUM;
      c := unused;
      unused := unused + 1;
      var q := |trays|;
      trays := trays + [Tray(os(books), books, recordBytes / QUANTUM, seq(npages, _ => 0), npages, MAX_AGEGROUPS)];
      MapPages(q, 0, npages, c);
      chits := chits[c := Chit(q, 0, npages * QUANTUM, FREE_HUGECHUNK, 0)];
    }
  
    method RemoveFromFreelist(c: nat)
      requires c in links.next && c in links.prev && links.prev[c] in links.next && links.next[c] in links.prev
      modifies this`links
      ensures links == Removed(old(links), c)
    {
      var prev, next := links.prev[c], links.next[c];
      links := links.(next := links.next[prev := next]);
      links := links.(prev := links.prev[next := prev]);
    }

    method InsertInFreelist(header: nat, c: nat)
      requires header in links.next && c !in {header, links.next[header]}
      modifies this`links
      ensures links == Inserted(old(links), header, c)
    {
      links := links.(prev := links.prev[c := header]);
      links := links.(next := links.next[c := links.next[header]]);
      links := links.(prev := links.prev[links.next[header] := c]);
      links := links.(next := links.next[header := c]);
    }

    /** Split the first n pages off free chunk d, for a chunk still to be filled in. */
    method TakeFront(d: nat, n: nat) returns (c: nat)
      requires d in chits && ChitOk(G(), d) && chits[d].page + n <= |trays[chits[d].quire].pages| &&
          n * QUANTUM <= chits[d].bytesize
      requires unused !in chits
      modifies this`chits, this`trays, this`unused
      ensures c == old(unused) && unused == c + 1
      ensures var e := old(chits[d]);
        && chits == old(chits)[c := Chit(e.quire, e.page, 0, 0, 0)][d := e.(page := e.page + n,
            bytesize := e.bytesize - n * QUANTUM)]
        && trays == old(trays)[e.quire := old(trays)[e.quire].(pages := Mapped(old(trays)[e.quire].pages, e.page,
            e.page + n, c))]
    {
      c := unused;
      unused := unused + 1;
      var e := chits[d];
      chits := chits[c := Chit(e.quire, e.page, 0, 0, 0)];
      chits := chits[d := e.(page := e.page + n, bytesize := e.bytesize - n * QUANTUM)];
      MapPages(e.quire, e.page, e.page + n, c);
    }

    /** Label all books of a quire with an age. */
    method LabelQuire(t: Tray, age: nat)
      requires t.books >= 1
      modifies this`b2s
      ensures AllSet(old(b2s), b2s, t, age)
    {
      var i := 0;
      while i < t.books
        invariant i <= t.books
        invariant forall b: nat :: t.book <= b < t.book + i ==> b in b2s && b2s[b] == Sibid(age, CODE_KIND,
            HUGECHUNK_DATA)
        invariant forall b: nat :: !(t.book <= b < t.book + i) ==>
            && (b in b2s <==> b in old(b2s))
            && (b in b2s ==> b2s[b] == old(b2s)[b])
      {
        b2s := b2s[t.book + i := Sibid(age, CODE_KIND, HUGECHUNK_DATA)];
        i := i + 1;
      }
      b2s := b2s[t.book := Sibid(age, CODE_KIND, HUGECHUNK_RECORD)];
    }

    /** Make chunk c a live one. */
    method FillIn(c: nat, n: nat, bytes: nat, age: nat)
      requires c in chits && chits[c].quire < |trays| && trays[chits[c].quire].books >= 1
      modifies this`chits, this`trays, this`b2s
      ensures chits == old(chits)[c := old(chits[c]).(bytesize := bytes, state := JUNIOR_HUGECHUNK, age := age)]
      ensures var q := old(chits[c]).quire; var t := old(trays)[q];
        && trays == old(trays)[q := t.(free_pages := t.free_pages - n, youngest := Younger(t.youngest, age))]
        && Relabelled(old(b2s), b2s, t, age)
    {
      chits := chits[c := chits[c].(bytesize := bytes)];
      chits := chits[c := chits[c].(state := JUNIOR_HUGECHUNK)];
      chits := chits[c := chits[c].(age := age)];
      var q := chits[c].quire;
      trays := trays[q := trays[q].(free_pages := trays[q].free_pages - n)];
      if trays[q].youngest > age {
        ghost var b2s0, t0 := b2s, old(trays)[q];
        var t := trays[q].(youngest := age);
        trays := trays[q := t];
        LabelQuire(t, age);
        ghost var b2s1 := b2s;
        forall b: nat ensures BookSet(b2s0, b2s1, t0, age, b) { assert BookSet(b2s0, b2s1, t, age, b); }
      }
    }
  
    /** No free chunk fits: carve a new quire. */
    method CarveNewQuire(os: nat -> nat, n: nat) returns (c: nat, ghost m: Pool)
      requires Valid() && n >= 1 && Grants(trays, os)
      modifies this`chits, this`trays, this`unused, this`links, this`order
      ensures FreshQuire(old(G()), m, old(unused), n * QUANTUM) && Cut(m, old(unused), n, G(), c)
      ensures Halfway(m, old(unused), c, old(order), links, order, b2s, unused)
      ensures if c == old(unused) then order == old(order)
              else c == old(unused) + 1 && order == [old(unused)] + old(order)
    {
      hide Inv, QuiresOk, IsRing;
      ghost var g, u := G(), unused + 1;
      assert Numbered(g, unused, unused) && Numbered(g, unused, u) && Listed(g, order, unused);
      var d := AllocateHugechunkQuire(os, n * QUANTUM);
      m := G();
      QuireKeepsInv(g, d, |m.trays[|m.trays| - 1].pages|, m.trays[|m.trays| - 1]);
      FreshQuires(g, m, b2s, d, n * QUANTUM);
      ghost var rest := order;
      forall b: nat ensures ListedBut(m, rest, d, b) { assert Listed(g, rest, b); }
      if chits[d].bytesize == n * QUANTUM {
        c := d;
      } else {
        c := TakeFront(d, n);
        InsertKeepsRing(links, order, d);
        order := [d] + order;
        HeaderIsLinked(links, rest);
        InsertInFreelist(HEADER, d);
      }
      forall b: nat ensures KnownOr(m, c, unused, b) { assert Numbered(g, d, b); }
      forall b: nat ensures RestOrD(d, c, rest, order, b) { }
    }

    /** The free chunk is as large as needed. */
    method TakeWhole(d: nat, n: nat) returns (c: nat, ghost rest: seq<nat>)
      requires Valid() && d in order && d in chits && n * QUANTUM == chits[d].bytesize
      modifies this`links, this`order
      ensures c == d && Cut(G(), d, n, G(), c) && Halfway(G(), d, c, rest, links, order, b2s, unused)
      ensures order == Without(old(order), d)
    {
      ghost var g := G();
      RemoveKeepsRing(links, order, d);
      forall b: nat ensures ListedBut(g, Without(order, d), d, b) { assert Listed(g, order, b); }
      assert Listed(g, order, d) && ChitOk(g, d);
      forall b: nat ensures KnownOr(g, d, unused, b) { assert Numbered(g, unused, b); }
      rest, order := Without(order, d), Without(order, d);
      RemoveFromFreelist(d);
      forall b: nat ensures RestOrD(d, d, rest, order, b) { }
      c := d;
    }

    /** The free chunk is larger than needed, and stays in the list with what is left of it. */
    method TakePart(d: nat, n: nat) returns (c: nat, ghost rest: seq<nat>)
      requires Valid() && d in order && d in chits && n * QUANTUM < chits[d].bytesize && n >= 1
      modifies this`chits, this`trays, this`unused
      ensures c == old(unused) && Cut(old(G()), d, n, G(), c) &&
          Halfway(old(G()), d, c, rest, links, order, b2s, unused)
    {
      ghost var g := G();
      RemoveKeepsRing(links, order, d);
      rest := Without(order, d);
      forall b: nat ensures ListedBut(g, rest, d, b) { assert Listed(g, order, b); }
      assert Numbered(g, unused, unused) && Listed(g, order, d) && ChitOk(g, d);
      c := TakeFront(d, n);
      forall b: nat ensures KnownOr(g, c, unused, b) { assert Numbered(g, c, b); }
      forall b: nat ensures RestOrD(d, c, rest, order, b) { }
    }

    method AllocateHugechunk(os: nat -> nat, age: nat, bytes: nat) returns (c: nat)
      requires Valid() && bytes >= 1 && Grants(trays, os)
      modifies this
      ensures Valid()
      ensures Allocated(old(G()), old(order), old(unused), G(), order, c, bytes, age)
      ensures Handed(old(G()), G(), c, bytes, age)
    {
      hide Sound, Inv, QuiresOk, IsRing, Listed, Numbered, Rest, FirstFit, Carved, Handed;
      var n := Quanta(bytes);
      var total := n * QUANTUM;
      ghost var g := G();
      var d := FindFirstFit(total);
      ghost var m, rest := g, order;
      if d == HEADER {
        d := unused;
        c, m := CarveNewQuire(os, n);
      } else if chits[d].bytesize == total {
        c, rest := TakeWhole(d, n);
      } else {
        c, rest := TakePart(d, n);
      }
      ghost var s := G();
      ghost var b2s0 := b2s;
      CutTray(m, d, n, s, c, b2s);
      FillIn(c, n, bytes, age);
      CutIsCarved(m, d, n, s, c, bytes, age, G());
      HalfwayIsSound(m, d, n, s, c, rest, links, order, b2s0, unused, G(), bytes, age, b2s);
      if m != g { FreshIsHanded(g, m, G(), d, c, bytes, age); }
    }
  
    /** Merge free chunk d, whose pages are lo to hi, into chunk c. */
    method Absorb(q: nat, d: nat, lo: nat, hi: nat, c: nat) returns (bytes: nat)
      requires IsRing(links, order) && d in order && d in chits && q < |trays| && lo <= hi <= |trays[q].pages|
      modifies this`chits, this`trays, this`links, this`order
      ensures IsRing(links, order) && order == Without(old(order), d)
      ensures trays == old(trays)[q := old(trays)[q].(pages := Mapped(old(trays)[q].pages, lo, hi, c))]
      ensures chits == old(chits) - {d} && bytes == old(chits)[d].bytesize
    {
      RemoveKeepsRing(links, order, d);
      order := Without(order, d);
      RemoveFromFreelist(d);
      MapPages(q, lo, hi, c);
      bytes := chits[d].bytesize;
      chits := chits - {d};
    }

    /** Merge the chunk before c into c, if it is free. */
    method MergeBefore(c: nat, q: nat, first: nat) returns (more: nat)
      requires Valid() && Live(G(), c) && q == chits[c].quire && first == chits[c].page
      modifies this`chits, this`trays, this`links, this`order
      ensures IsRing(links, order) && MergedBefore(old(G()), G(), c, old(order), order)
      ensures more == (first - First(old(G()), old(chits)[c])) * QUANTUM
    {
      hide Inv, QuiresOk, IsRing, Listed, Numbered, Last, Without, ChitOk;
      ghost var g, e := G(), chits[c];
      Neighbours(g, links, order, b2s, unused, c);
      more := 0;
      if first > 0 && chits[trays[q].pages[first - 1]].state == FREE_HUGECHUNK {
        var d := trays[q].pages[first - 1];
        var lo := chits[d].page;
        more := Absorb(q, d, lo, first, c);
        chits := chits[c := chits[c].(page := lo)];
      } else {
        MapNone(g.trays[q].pages, first, c);
      }
    }

    /** Merge the chunk behind c into c, if it is free. */
    method MergeBehind(c: nat, q: nat, last: nat, ghost g: Pool, ghost l: Links, ghost o: seq<nat>) returns (more: nat)
      requires Sound(g, l, o, b2s, unused) && Live(g, c) && q == g.chits[c].quire && last == End(g.chits[c])
      requires IsRing(links, order) && MergedBefore(g, G(), c, o, order)
      modifies this`chits, this`trays, this`links, this`order
      ensures IsRing(links, order) && MergedBoth(g, G(), c) && order == FreedOrder(g, o, g.chits[c])
      ensures more == (Last(g, g.chits[c]) - last) * QUANTUM
    {
      hide Inv, QuiresOk, IsRing, Listed, Numbered, First, Last, Without, ChitOk;
      ghost var e, t := g.chits[c], trays[q];
      Neighbours(g, l, o, b2s, unused, c);
      FreedOrderHas(g, l, o, b2s, unused, c);
      more := 0;
      if last < |trays[q].pages| && chits[trays[q].pages[last]].state == FREE_HUGECHUNK {
        var d := trays[q].pages[last];
        var hi := last + chits[d].bytesize / QUANTUM;
        assert hi == Last(g, e);
        more := Absorb(q, d, last, hi, c);
      } else {
        MapNone(t.pages, last, c);
      }
      assert chits == (g.chits - Eaten(g, e))[c := e.(page := First(g, e))];
    }

    method FreeHugechunk(c: nat)
      requires Valid() && Live(G(), c)
      modifies this`chits, this`trays, this`links, this`order
      ensures Valid()
      ensures G() == Freed(old(G()), c) && order == [c] + FreedOrder(old(G()), old(order), old(chits)[c])
      ensures Returned(old(G()), G(), c)
    {
      hide Inv, QuiresOk, IsRing, Listed, Numbered, SameLive, Freed, Returned, FreedOrder;
      ghost var g, e, l, o := G(), chits[c], links, order;
      Neighbours(g, l, o, b2s, unused, c);
      var q := chits[c].quire;
      var total := Quanta(chits[c].bytesize) * QUANTUM;
      WholeQuanta(Quanta(chits[c].bytesize));
      var first := chits[c].page;
      var last := first + total / QUANTUM;
      var more := MergeBefore(c, q, first);
      total := total + more;
      more := MergeBehind(c, q, last, g, l, o);
      total := total + more;
      chits := chits[c := chits[c].(bytesize := total, state := FREE_HUGECHUNK)];
      trays := trays[q := trays[q].(free_pages := trays[q].free_pages + (last - first))];
      FreedOrderHas(g, l, o, b2s, unused, c);
      MergedIsFreed(g, c, G());
      InsertKeepsRing(links, order, c);
      HeaderIsLinked(links, order);
      order := [c] + order;
      InsertInFreelist(HEADER, c);
      FreedIsSound(g, l, o, b2s, unused, c, links);
    }
  
    /** The chunk b that holds an address is found from the address alone, once something was allocated in its quire. */
    method AddressToHugechunk(addr: nat, ghost b: nat) returns (c: nat)
      requires Valid() && b in chits && Holds(G(), chits[b], addr) && trays[chits[b].quire].youngest < MAX_AGEGROUPS
      ensures c == b
    {
      hide Inv, IsRing;
      ghost var p, t := chits[b].quire, trays[chits[b].quire];
      HeldIsMapped(G(), b2s, b, addr);
      assert QuireOk(G(), b2s, p);
      var i := addr / BOOK_BYTESIZE;
      assert Labelled(t, b2s, i);
      while b2s[i].id != HUGECHUNK_RECORD
        invariant Within(t, i) && Labelled(t, b2s, i)
        decreases i
      {
        i := i - 1;
        assert Labelled(t, b2s, i);
      }
      var q: nat :| q < |trays| && trays[q].book == i;
      assert QuireOk(G(), b2s, q) && Apart(G(), p, q, i);
      c := trays[q].pages[(addr - FirstRamQuantum(trays[q])) / QUANTUM];
    }
  }
}
