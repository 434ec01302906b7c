/** The scans of words outside the to-spaces: root locations, and the dirty cards of agegroups that are
    not being cleaned (heapclean-n-agegroups.c, coarse-inter-agegroup-pointers-map.h). */
module MajorRoots {
  import opened HeapTags
  import opened HeapModel
  import opened Forwarding
  import opened HeapObject
  import opened MajorForward
  import opened MajorSweep
  import opened MajorCards

  // ------------------------------------------------------------------ roots

  predicate InBuffer(f: Flip, i: int, x: int) { 0 <= i < |f.sibs| && f.sibs[i].start <= x < f.sibs[i].limit }

  /** A root location: a pointer word outside every sib buffer. */
  ghost predicate RootOk(f: Flip, x: int) {
    0 <= x < |f.zone| && |f.zone| == |f.mem| && f.zone[x].Fixed? && x in f.ext &&
        forall i {:trigger InBuffer(f, i, x)} :: !InBuffer(f, i, x)
  }

  /** The locations are roots, no two the same, and none visited before. */
  ghost predicate RootsOk(f: Flip, seen: set<int>, roots: seq<nat>) {
    && (forall j {:trigger roots[j]} :: 0 <= j < |roots| ==> RootOk(f, roots[j]) && roots[j] !in seen)
    && (forall i, j {:trigger roots[i], roots[j]} :: 0 <= i < j < |roots| ==> roots[i] != roots[j])
  }

  lemma FixedKeepsSwept(f: Flip, seen: set<int>, sibs: seq<Sib>, x: int, sibs': seq<Sib>)
    requires WellFormed(f) && SweptBut(f, seen, sibs, -1, 0) && SameSwept(sibs, sibs')
    requires 0 <= x < |f.zone| && f.zone[x].Fixed?
    ensures SweptBut(f, seen + {x}, sibs', -1, 0)
  {
    var seen', n := seen + {x}, -1;
    forall j, y ensures SweepOk(f, seen', j, SweepPoint(sibs', n, 0, j), y) {
      assert SweepOk(f, seen, j, SweepPoint(sibs, -1, 0, j), y);
      assert AreaOk(f, j, y) && (0 <= j < |f.sibs| ==> SibOk(f, j));
    }
  }

  /** Visits to words the cards need not account for leave every card right. */
  lemma CardsStable(f: Flip, m: seq<Word>, ff: seq<nat>, weakrefs: nat, c: Copy,
                    m': seq<Word>, ff': seq<nat>, weakrefs': nat, c': Copy, cards: seq<CardMap>)
    requires Inv(f, m, ff, weakrefs, c) && Inv(f, m', ff', weakrefs', c') && Extends(f, c, c')
    requires CardsHold(f, m, cards, c)
    requires forall x {:trigger x in c'.seen} :: x in c'.seen && x !in c.seen ==>
        forall j {:trigger Carded(f, c', j, x)} :: !Carded(f, c', j, x)
    ensures CardsHold(f, m', cards, c')
  {
    var n := -1;
    forall j, x ensures !(j == n && 0 <= x < 0) ==> CardOk(f, m', cards, c', j, x) {
      if Carded(f, c', j, x) {
        StableWord(f, m, ff, weakrefs, c, m', ff', weakrefs', c', j, x);
        assert CardOk(f, m, cards, c, j, x);
      }
    }
  }

  /** Forward what the root locations refer to. */
  method ForwardAllRootChunks(h: Heap, k: nat, roots: seq<nat>)
    requires Cleaning(h) && MajorFlip(h.flip) && k == h.flip.k && Swept(h)
    requires CardReady(h.flip, h.cards) && CardsHold(h.flip, h.ram[..], h.cards, h.copy)
    requires RootsOk(h.flip, h.copy.seen, roots)
    modifies h`sibs, h`copy, h`weakrefs, h`huge, h`marked, h.ram
    ensures Cleaning(h) && Swept(h) && SameSwept(old(h.sibs), h.sibs) && Extends(h.flip, old(h.copy), h.copy)
    ensures CardsHold(h.flip, h.ram[..], h.cards, h.copy)
    ensures h.copy.seen == old(h.copy).seen + set j | 0 <= j < |roots| :: roots[j]
  {
    hide Uncopied, Todo;
    ghost var c0, sibs0 := h.copy, h.sibs;
    var j := 0;
    while j < |roots|
      invariant Cleaning(h) && Swept(h) && SameSwept(sibs0, h.sibs) && Extends(h.flip, c0, h.copy) && j <= |roots|
      invariant CardsHold(h.flip, h.ram[..], h.cards, h.copy)
      invariant h.copy.seen == c0.seen + set i | 0 <= i < j :: roots[i]
    {
      ghost var m1, c1, sibs1, weakrefs1 := h.ram[..], h.copy, h.sibs, h.weakrefs;
      assert RootOk(h.flip, roots[j]);
      ForwardPointeeIfInFromspace(h, k, roots[j]);
      FixedKeepsSwept(h.flip, c1.seen, sibs1, roots[j], h.sibs);
      ExtendsTransitive(h.flip, c0, c1, h.copy);
      RootIsNotCarded(h.flip, h.copy, roots[j]);
      CardsStable(h.flip, m1, Free(sibs1), weakrefs1, c1, h.ram[..], Free(h.sibs), h.weakrefs, h.copy, h.cards);
      j := j + 1;
    }
  }

  lemma RootIsNotCarded(f: Flip, c: Copy, x: int)
    requires WellFormed(f) && RootOk(f, x)
    ensures forall j {:trigger Carded(f, c, j, x)} :: !Carded(f, c, j, x)
  {
    forall j ensures !Carded(f, c, j, x) {
      assert !InBuffer(f, j, x);
      if 0 <= j < |f.sibs| { assert SibOk(f, j); }
    }
  }

  /** Why a location may be visited only once: books of the old and the new space carry the same label,
      so a relocated word that stayed in the cleaned agegroups looks like one still to be relocated,
      though what it leads to is no chunk of the old space. */
  lemma SecondVisitMisreads(f: Flip, m: seq<Word>, ff: seq<nat>, weakrefs: nat, c: Copy, cards: seq<CardMap>, x: int)
    requires Inv(f, m, ff, weakrefs, c) && CardReady(f, cards)
    requires x in c.seen && 0 <= x < |f.zone| && f.zone[x].Fixed? && f.mem[x].Pointer? && Chunk(f, f.mem[x].addr)
    ensures m[x].Pointer? && !Chunk(f, m[x].addr)
    ensures AgeAt(f, m[x].addr) <= f.k <==> Dest(f, f.mem[x].addr) < 4 * f.k
  {
    assert FixedOk(f, m, c.fwd, c.seen, x);
    var v := f.mem[x].addr;
    CopyAge(f, m, ff, weakrefs, c, cards, v);
    var t := c.fwd[v];
    assert ExtentOk(f, v, v) && ImageOk(f, c.fwd, c.org, v) && OriginOk(f, ff, c.fwd, t, c.org[t]);
  }

  // ------------------------------------------------------------------ dirty cards

  /** A word of an RW_POINTERS sib that is not being cleaned. */
  predicate UncleanedOk(f: Flip, i: int, x: int) {
    0 <= i < |f.sibs| && i % 4 == RW_POINTERS_SIB && SibAge(i) > f.k && f.sibs[i].start <= x < f.sibs[i].firstFree
    ==> 0 <= x < |f.zone| && f.zone[x].Fixed? && x in f.ext
  }

  ghost predicate Uncleaned(f: Flip) { forall i, x {:trigger UncleanedOk(f, i, x)} :: UncleanedOk(f, i, x) }

  /** The least age, below g, that the words [lo, p) refer to among what is being cleaned; else g. */
  function MinTarget(f: Flip, g: nat, lo: int, p: int): (r: int)
    decreases p - lo
  {
    if p <= lo then g
    else
      var r := MinTarget(f, g, lo, p - 1);
      if FromAt(f, lo, p, p - 1) && AgeAfter(f, f.mem[p - 1]) < r then AgeAfter(f, f.mem[p - 1]) else r
  }

  lemma {:induction false} MinTargetIsLeast(f: Flip, g: nat, lo: int, p: int)
    ensures var r := MinTarget(f, g, lo, p);
      && 0 <= r <= g
      && (forall x {:trigger FromAt(f, lo, p, x)} :: FromAt(f, lo, p, x) ==> r <= AgeAfter(f, f.mem[x]))
      && (r < g ==> exists x {:trigger FromAt(f, lo, p, x)} :: FromAt(f, lo, p, x) && AgeAfter(f, f.mem[x]) == r)
    decreases p - lo
  {
    if p > lo {
      var p1 := p - 1;
      MinTargetIsLeast(f, g, lo, p1);
      var r := MinTarget(f, g, lo, p);
      forall x | FromAt(f, lo, p, x) ensures r <= AgeAfter(f, f.mem[x]) {
        assert x < p1 ==> FromAt(f, lo, p1, x);
      }
      if r < g {
        if r == MinTarget(f, g, lo, p1) {
          var x :| FromAt(f, lo, p1, x) && AgeAfter(f, f.mem[x]) == r;
          assert FromAt(f, lo, p, x);
        } else {
          assert FromAt(f, lo, p, p1);
        }
      }
    }
  }

  /** What a dirty card is marked with after its words have been scanned. */
  function Remark(f: Flip, g: nat, lo: int, q: int, old_mark: nat): int {
    var min_age := MinTarget(f, g, lo, q);
    if min_age < g then min_age else if g == f.k + 1 then CLEAN_CARD else old_mark
  }

  /** What a visited word outside the to-spaces refers to has the age foretold. */
  lemma SeenPointee(f: Flip, m: seq<Word>, ff: seq<nat>, weakrefs: nat, c: Copy, cards: seq<CardMap>, x: int)
    requires Inv(f, m, ff, weakrefs, c) && CardReady(f, cards)
    requires x in c.seen && 0 <= x < |f.zone| && f.zone[x].Fixed?
    ensures m[x].Pointer? <==> f.mem[x].Pointer?
    ensures m[x].Pointer? ==> PointeeAge(f, m[x].addr) == AgeAfter(f, f.mem[x])
  {
    assert FixedOk(f, m, c.fwd, c.seen, x);
    if f.mem[x].Pointer? && Chunk(f, f.mem[x].addr) {
      CopyAge(f, m, ff, weakrefs, c, cards, f.mem[x].addr);
    }
  }

  /** Re-marking a scanned card covers its words, unless it is at risk. */
  lemma CardRemarked(f: Flip, m: seq<Word>, ff: seq<nat>, weakrefs: nat, c: Copy, cards: seq<CardMap>, i: nat, d: nat,
      cards': seq<CardMap>)
    requires Inv(f, m, ff, weakrefs, c) && CardReady(f, cards) && Uncleaned(f)
    requires i < |f.sibs| && i % 4 == RW_POINTERS_SIB && Active(f.sibs[i]) && SibAge(i) > f.k
    requires i / 4 < |cards| && i / 4 < |f.cards| && d < |cards[i / 4].minAge| == |f.cards[i / 4].minAge|
    requires var lo, q := CardStart(f, i, d), CardEnd(f, i, d);
      && CardsBut(f, m, cards, c, i, lo, q)
      && (forall x :: lo <= x < q ==> x in c.seen)
      && (forall x {:trigger Carded(f, c, i, x)} :: q <= x < lo + CARD ==> !Carded(f, c, i, x))
      && f.cards[i / 4].minAge[d] == cards[i / 4].minAge[d] <= f.k
      && var r := Remark(f, SibAge(i), lo, q, cards[i / 4].minAge[d]);
        0 <= r && cards' == cards[i / 4 := cards[i / 4].(minAge := cards[i / 4].minAge[d := r])]
    ensures CardsHold(f, m, cards', c) && CardReady(f, cards')
  {
    var lo, q, g := CardStart(f, i, d), CardEnd(f, i, d), SibAge(i);
    assert MapOk(f, cards, i);
    var n := -1;
    MapsKeepShape(f, cards, i / 4, d, cards'[i / 4].minAge[d]);
    forall j, x ensures !(j == n && 0 <= x < 0) ==> CardOk(f, m, cards', c, j, x) {
      if Carded(f, c, j, x) && x < |m| {
        if j == i && lo <= x < q {
          ScannedWord(f, m, ff, weakrefs, c, cards, i, d, x);
        } else {
          assert CardOk(f, m, cards, c, j, x);
          assert j == i && cards[i / 4].base <= x && CardOf(cards[i / 4], x) == d ==> lo <= x < lo + CARD;
          assert j / 4 == i / 4 && j % 4 == i % 4 ==> j == i;
        }
      }
    }
  }

  lemma CardRemarkedState(f: Flip, m: seq<Word>, sibs: seq<Sib>, weakrefs: nat, huge: seq<Huge>, marked: set<int>,
      c: Copy, cards: seq<CardMap>, i: nat, d: nat, cards': seq<CardMap>)
    requires CleaningState(f, m, sibs, weakrefs, c, huge, marked) && CardReady(f, cards) && Uncleaned(f)
    requires i < |f.sibs| && i % 4 == RW_POINTERS_SIB && Active(f.sibs[i]) && SibAge(i) > f.k
    requires i / 4 < |cards| && i / 4 < |f.cards| && d < |cards[i / 4].minAge| == |f.cards[i / 4].minAge|
    requires var lo, q := CardStart(f, i, d), CardEnd(f, i, d);
      && CardsBut(f, m, cards, c, i, lo, q)
      && (forall x :: lo <= x < q ==> x in c.seen)
      && (forall x {:trigger Carded(f, c, i, x)} :: q <= x < lo + CARD ==> !Carded(f, c, i, x))
      && f.cards[i / 4].minAge[d] == cards[i / 4].minAge[d] <= f.k
      && var r := Remark(f, SibAge(i), lo, q, cards[i / 4].minAge[d]);
        0 <= r && cards' == cards[i / 4 := cards[i / 4].(minAge := cards[i / 4].minAge[d := r])]
    ensures CardsHold(f, m, cards', c) && CardReady(f, cards')
  {
    CardRemarked(f, m, Free(sibs), weakrefs, c, cards, i, d, cards');
  }

  /** A scanned word that refers to nothing being cleaned refers to something older. */
  lemma OlderPointee(f: Flip, cards: seq<CardMap>, x: int)
    requires WellFormed(f) && CardReady(f, cards) && ScanWord(f, x) && f.mem[x].Pointer? && !FromWord(f, f.mem[x])
    ensures !Chunk(f, f.mem[x].addr) && AgeAfter(f, f.mem[x]) == PointeeAge(f, f.mem[x].addr) > f.k
  {
    assert LabelOk(f, x);
    assert Chunk(f, f.mem[x].addr) ==> ChunkOk(f, f.mem[x].addr);
  }

  lemma ScannedWord(f: Flip, m: seq<Word>, ff: seq<nat>, weakrefs: nat, c: Copy, cards: seq<CardMap>, i: nat, d: nat,
      x: int)
    requires Inv(f, m, ff, weakrefs, c) && CardReady(f, cards) && Uncleaned(f)
    requires i < |f.sibs| && i % 4 == RW_POINTERS_SIB && Active(f.sibs[i]) && SibAge(i) > f.k
    requires i / 4 < |cards| && i / 4 < |f.cards| && d < |cards[i / 4].minAge| == |f.cards[i / 4].minAge|
    requires CardStart(f, i, d) <= x < CardEnd(f, i, d) && x in c.seen && x < |m| && Carded(f, c, i, x)
    requires f.cards[i / 4].minAge[d] == cards[i / 4].minAge[d] <= f.k
    ensures var r := Remark(f, SibAge(i), CardStart(f, i, d), CardEnd(f, i, d), cards[i / 4].minAge[d]);
      m[x].Pointer? && PointeeAge(f, m[x].addr) < SibAge(i) ==>
        InMap(cards[i / 4], x) && CardOf(cards[i / 4], x) == d && r <= PointeeAge(f, m[x].addr)
  {
    var lo, q, g := CardStart(f, i, d), CardEnd(f, i, d), SibAge(i);
    assert MapOk(f, cards, i) && UncleanedOk(f, i, x);
    assert CardOf(cards[i / 4], x) == d;
    MinTargetIsLeast(f, g, lo, q);
    SeenPointee(f, m, ff, weakrefs, c, cards, x);
    if m[x].Pointer? && PointeeAge(f, m[x].addr) < g && !FromAt(f, lo, q, x) {
      OlderPointee(f, cards, x);
      hide Inv, CardReady, Uncleaned, MinTarget;
      assert YoungOther(f, g, lo, q, x);
      assert !AtRisk(f, g, lo, q);
    }
  }

  /** Scanning the words [lo, q) of card d of sib i, as far as p. */
  ghost predicate Scanning(h: Heap, k: nat, i: nat, lo: nat, p: nat, q: nat, min_age: nat)
    reads h, h.ram
  {
    && Cleaning(h) && MajorFlip(h.flip) && k == h.flip.k && Swept(h) && CardReady(h.flip, h.cards) && Uncleaned(h.flip)
    && i < |h.flip.sibs| && i % 4 == RW_POINTERS_SIB && SibAge(i) > k
    && h.flip.sibs[i].start <= lo <= p <= q <= h.flip.sibs[i].firstFree
    && CardsBut(h.flip, h.ram[..], h.cards, h.copy, i, lo, p)
    && (forall x {:trigger x in h.copy.seen} :: lo <= x < q ==> (x in h.copy.seen <==> x < p))
    && min_age == MinTarget(h.flip, SibAge(i), lo, p)
  }

  /** Words of different sibs carry different labels. */
  lemma OneBuffer(f: Flip, c: Copy, cards: seq<CardMap>, i: int, x: int)
    requires WellFormed(f) && CardReady(f, cards) && InBuffer(f, i, x) && 0 <= x
    ensures forall j {:trigger Carded(f, c, j, x)} :: j != i ==> !Carded(f, c, j, x)
    ensures forall j {:trigger InBuffer(f, j, x)} :: j != i ==> !InBuffer(f, j, x)
  {
    assert AreaLabelOk(f, i, x);
    forall j | j != i ensures !Carded(f, c, j, x) && !InBuffer(f, j, x) {
      assert AreaLabelOk(f, j, x) && (0 <= j < |f.sibs| ==> SibOk(f, j));
    }
  }

  method ScanDirtyWord(h: Heap, k: nat, i: nat, lo: nat, p: nat, q: nat, min_age: nat) returns (min: nat)
    requires Scanning(h, k, i, lo, p, q, min_age) && p < q
    modifies h`sibs, h`copy, h`weakrefs, h`huge, h`marked, h.ram
    ensures Scanning(h, k, i, lo, p + 1, q, min)
    ensures Extends(h.flip, old(h.copy), h.copy) && SameSwept(old(h.sibs), h.sibs) &&
        h.copy.seen == old(h.copy).seen + {p}
  {
    hide Uncopied, Todo;
    ghost var m0, c0, sibs0, weakrefs0 := h.ram[..], h.copy, h.sibs, h.weakrefs;
    assert UncleanedOk(h.flip, i, p) && SibOk(h.flip, i) && FixedOk(h.flip, m0, c0.fwd, c0.seen, p);
    var w, from, age := ForwardPointeeNotingAge(h, k, p);
    min := if from && min_age > age then age else min_age;
    ghost var c1 := h.copy;
    StoreVisited(h, p, w);
    SeeExtends(h.flip, c0, c1, p);
    FixedKeepsSwept(h.flip, c0.seen, sibs0, p, h.sibs);
    OneBuffer(h.flip, h.copy, h.cards, i, p);
    CardsCarried(h.flip, m0, Free(sibs0), weakrefs0, c0, h.ram[..], Free(h.sibs), h.weakrefs, h.copy, h.cards, i, lo,
        p);
    SeenPointee(h.flip, h.ram[..], Free(h.sibs), h.weakrefs, h.copy, h.cards, p);
  }

  predicate Dirty(f: Flip, i: nat, d: nat) { i / 4 < |f.cards| && d < |f.cards[i / 4].minAge| &&
      f.cards[i / 4].minAge[d] <= f.k }

  /** The mark of card d of sib i once the dirty cards have been scanned. */
  function CardAfter(f: Flip, i: nat, d: nat): int
    requires i < |f.sibs| && i / 4 < |f.cards| && d < |f.cards[i / 4].minAge|
  {
    if Dirty(f, i, d) then Remark(f, SibAge(i), CardStart(f, i, d), CardEnd(f, i, d), f.cards[i / 4].minAge[d])
    else f.cards[i / 4].minAge[d]
  }

  /** Card d of sib i has been dealt with: its words were visited if and only if it was dirty. */
  predicate CardIs(f: Flip, cards: seq<CardMap>, seen: set<int>, i: nat, d: int, done: bool) {
    i < |f.sibs| && i / 4 < |f.cards| && i / 4 < |cards| &&
        0 <= d < |f.cards[i / 4].minAge| == |cards[i / 4].minAge| ==>
      && cards[i / 4].minAge[d] == (if done then CardAfter(f, i, d) else f.cards[i / 4].minAge[d])
      && forall x {:trigger x in seen} :: CardStart(f, i, d) <= x < CardEnd(f, i, d) ==>
          (x in seen <==> done && Dirty(f, i, d))
  }

  /** The first n cards of sib i have been dealt with, and no others. */
  ghost predicate SibCards(f: Flip, cards: seq<CardMap>, seen: set<int>, i: nat, n: int) {
    forall d {:trigger CardStage(f, cards, seen, i, n, d)} :: CardStage(f, cards, seen, i, n, d)
  }

  predicate CardStage(f: Flip, cards: seq<CardMap>, seen: set<int>, i: nat, n: int, d: int) { CardIs(f, cards, seen, i,
      d, d < n) }

  /** The words newly seen lie in [lo, hi). */
  ghost predicate SeenWithin(seen: set<int>, seen': set<int>, lo: int, hi: int) {
    seen <= seen' && forall x {:trigger x in seen'} :: x in seen' && x !in seen ==> lo <= x < hi
  }

  method ScanCardWords(h: Heap, k: nat, i: nat, lo: nat, q: nat) returns (min_age: nat)
    requires Scanning(h, k, i, lo, lo, q, SibAge(i))
    modifies h`sibs, h`copy, h`weakrefs, h`huge, h`marked, h.ram
    ensures Scanning(h, k, i, lo, q, q, min_age)
    ensures Extends(h.flip, old(h.copy), h.copy) && SameSwept(old(h.sibs), h.sibs) &&
        SeenWithin(old(h.copy).seen, h.copy.seen, lo, q)
  {
    ghost var c0, sibs0 := h.copy, h.sibs;
    min_age := SibAge(i);
    var p := lo;
    while p < q
      invariant Scanning(h, k, i, lo, p, q, min_age)
      invariant Extends(h.flip, c0, h.copy) && SameSwept(sibs0, h.sibs) && SeenWithin(c0.seen, h.copy.seen, lo, q)
    {
      ghost var c1 := h.copy;
      min_age := ScanDirtyWord(h, k, i, lo, p, q, min_age);
      ExtendsTransitive(h.flip, c0, c1, h.copy);
      p := p + 1;
    }
  }

  /** The state between cards. */
  ghost predicate Carding(h: Heap, k: nat)
    reads h, h.ram
  {
    && Cleaning(h) && MajorFlip(h.flip) && k == h.flip.k && Swept(h) && CardReady(h.flip, h.cards) && Uncleaned(h.flip)
    && CardsHold(h.flip, h.ram[..], h.cards, h.copy) && |h.cards| == |h.flip.cards|
  }

  /** Scan one dirty card and re-mark it. */
  method ScanCard(h: Heap, k: nat, i: nat, d: nat)
    requires Carding(h, k) && i < |h.sibs| && i % 4 == RW_POINTERS_SIB && SibAge(i) > k && Active(h.sibs[i])
    requires h.sibs[i].sweptEnd == h.flip.sibs[i].firstFree
    requires i / 4 < |h.cards| && d < |h.cards[i / 4].minAge| && h.cards[i / 4].minAge[d] <= k
    requires CardIs(h.flip, h.cards, h.copy.seen, i, d, false)
    modifies h`sibs, h`copy, h`weakrefs, h`huge, h`marked, h`cards, h.ram
    ensures Carding(h, k) && Extends(h.flip, old(h.copy), h.copy) && SameSwept(old(h.sibs), h.sibs)
    ensures CardIs(h.flip, h.cards, h.copy.seen, i, d, true)
    ensures SeenWithin(old(h.copy).seen, h.copy.seen, CardStart(h.flip, i, d), CardEnd(h.flip, i, d))
    ensures OneCardSet(old(h.cards), h.cards, i / 4, d)
  {
    hide CardsBut, CardReady, Uncleaned, SweptBut, CleaningState, MajorFlip, Extends;
    var age := i / 4;
    CardPlace(h.flip, h.sibs, h.weakrefs, h.copy, h.ram[..], h.huge, h.marked, h.cards, i, d);
    var cm := h.cards[age];
    var p := cm.base + d * CARD;
    var q := p + CARD;
    if q > h.sibs[i].sweptEnd {
      q := h.sibs[i].sweptEnd;
    }
    ghost var cards := h.cards;
    var min_age := age + 1;
    ExtendsReflexive(h.flip, h.copy);
    CardsHoldBut(h.flip, h.ram[..], h.cards, h.copy, i, p, if p < q then p else q);
    if p < q {
      min_age := ScanCardWords(h, k, i, p, q);
    }
    NewWordsUnseen(h.flip, h.ram[..], h.weakrefs, h.huge, h.marked, h.copy, h.sibs, i);
    RemarkCard(h, k, age, d, min_age);
    CardRemarkedState(h.flip, h.ram[..], h.sibs, h.weakrefs, h.huge, h.marked, h.copy, cards, i, d, h.cards);
  }

  lemma CardPlace(f: Flip, sibs: seq<Sib>, weakrefs: nat, c: Copy, m: seq<Word>, huge: seq<Huge>, marked: set<int>,
                  cards: seq<CardMap>, i: nat, d: nat)
    requires CleaningState(f, m, sibs, weakrefs, c, huge, marked) && CardReady(f, cards) && |cards| == |f.cards|
    requires i < |sibs| && i % 4 == RW_POINTERS_SIB && Active(sibs[i]) && i / 4 < |cards| && d < |cards[i / 4].minAge|
    ensures |sibs| == |f.sibs| && Active(f.sibs[i]) && |f.cards[i / 4].minAge| == |cards[i / 4].minAge|
    ensures cards[i / 4].base == f.cards[i / 4].base == f.sibs[i].start <= CardStart(f, i, d)
    ensures f.sibs[i].start <= f.sibs[i].firstFree
  {
    assert MapOk(f, cards, i) && SibOk(f, i) && SameBuffer(f.sibs[i], sibs[i]);
  }

  method RemarkCard(h: Heap, k: nat, age: nat, d: nat, min_age: nat)
    requires age < |h.cards| && d < |h.cards[age].minAge|
    modifies h`cards
    ensures h.cards == old(h.cards)[age := old(h.cards)[age].(minAge := old(h.cards)[age].minAge[d :=
      if min_age < age + 1 then min_age else if age == k then CLEAN_CARD else old(h.cards)[age].minAge[d]])]
  {
    var cm := h.cards[age];
    if min_age < age + 1 {
      h.cards := h.cards[age := cm.(minAge := cm.minAge[d := min_age])];
    } else if age == k {
      h.cards := h.cards[age := cm.(minAge := cm.minAge[d := CLEAN_CARD])];
    } else {
      assert cm.minAge[d := cm.minAge[d]] == cm.minAge && h.cards[age := cm] == h.cards;
    }
  }

  predicate OneCardSet(cards: seq<CardMap>, cards': seq<CardMap>, n: nat, d: nat) {
    n < |cards| == |cards'| && d < |cards[n].minAge| == |cards'[n].minAge| &&
    cards' == cards[n := cards[n].(minAge := cards[n].minAge[d := cards'[n].minAge[d]])]
  }

  lemma CardsHoldBut(f: Flip, m: seq<Word>, cards: seq<CardMap>, c: Copy, i: int, lo: int, hi: int)
    requires CardsHold(f, m, cards, c) && hi <= lo
    ensures CardsBut(f, m, cards, c, i, lo, hi)
  {
    forall j, x ensures !(j == i && lo <= x < hi) ==> CardOk(f, m, cards, c, j, x) {
      assert CardOk(f, m, cards, c, j, x);
    }
  }

  /** Words copied behind the old ones have not been visited. */
  lemma NewWordsUnseen(f: Flip, m: seq<Word>, weakrefs: nat, huge: seq<Huge>, marked: set<int>, c: Copy, sibs: seq<Sib>,
      i: nat)
    requires CleaningState(f, m, sibs, weakrefs, c, huge, marked) && SweptBut(f, c.seen, sibs, -1, 0) && i < |sibs| &&
        sibs[i].sweptEnd == f.sibs[i].firstFree
    ensures forall x {:trigger Carded(f, c, i, x)} :: f.sibs[i].firstFree <= x ==> !Carded(f, c, i, x)
  {
    forall x | f.sibs[i].firstFree <= x ensures !Carded(f, c, i, x) {
      assert SweepOk(f, c.seen, i, SweepPoint(sibs, -1, 0, i), x);
    }
  }

  lemma ExtendsReflexive(f: Flip, c: Copy)
    ensures Extends(f, c, c)
  {
  }

  /** Dealing with one card leaves every other card, and its words, as they were. */
  lemma OtherCards(f: Flip, cards: seq<CardMap>, seen: set<int>, cards': seq<CardMap>, seen': set<int>, i: nat, d: nat,
      j: nat, n: int)
    requires WellFormed(f) && CardReady(f, cards) && SibCards(f, cards, seen, j, n)
    requires i < |f.sibs| && i % 4 == RW_POINTERS_SIB && Active(f.sibs[i])
    requires j < |f.sibs| && j % 4 == RW_POINTERS_SIB && Active(f.sibs[j])
    requires OneCardSet(cards, cards', i / 4, d) && SeenWithin(seen, seen', CardStart(f, i, d), CardEnd(f, i, d))
    requires i == j ==> n == d && CardIs(f, cards', seen', i, d, true)
    ensures SibCards(f, cards', seen', j, if i == j then n + 1 else n)
  {
    var n' := if i == j then n + 1 else n;
    assert MapOk(f, cards, i) && MapOk(f, cards, j);
    forall e ensures CardStage(f, cards', seen', j, n', e) {
      assert CardStage(f, cards, seen, j, n, e);
      if !(i == j && e == d) && 0 <= e < |f.cards[j / 4].minAge| {
        assert cards'[j / 4].minAge[e] == cards[j / 4].minAge[e];
        forall x | CardStart(f, j, e) <= x < CardEnd(f, j, e) ensures x in seen <==> x in seen' {
          if i != j { TwoSibs(f, cards, i, j, x); }
        }
      }
    }
  }

  lemma TwoSibs(f: Flip, cards: seq<CardMap>, i: nat, j: nat, x: int)
    requires WellFormed(f) && CardReady(f, cards) && i != j && i < |f.sibs| && j < |f.sibs|
    requires f.sibs[j].start <= x < f.sibs[j].firstFree
    ensures !(f.sibs[i].start <= x < f.sibs[i].firstFree)
  {
    assert SibOk(f, i) && SibOk(f, j) && AreaLabelOk(f, i, x) && AreaLabelOk(f, j, x);
  }

  /** Every RW_POINTERS sib not being cleaned that comes before sib n has been scanned, and all other cards are as they
      were. */
  ghost predicate Scanned(f: Flip, cards: seq<CardMap>, seen: set<int>, n: int) {
    forall j: nat {:trigger ScannedSib(f, cards, seen, j, n)} :: ScannedSib(f, cards, seen, j, n)
  }

  ghost predicate ScannedSib(f: Flip, cards: seq<CardMap>, seen: set<int>, j: nat, n: int) {
    j < |f.sibs| && j % 4 == RW_POINTERS_SIB && Active(f.sibs[j]) && j / 4 < |f.cards| ==>
      SibCards(f, cards, seen, j, if SibAge(j) > f.k && j < n then |f.cards[j / 4].minAge| else 0)
  }

  ghost predicate ScannedBut(f: Flip, cards: seq<CardMap>, seen: set<int>, i: nat) {
    forall j: nat {:trigger ScannedSib(f, cards, seen, j, i)} :: j != i ==> ScannedSib(f, cards, seen, j, i)
  }

  /** The sweep pointer of a pointer sib starts at its allocation pointer. */
  predicate SweepStart(f: Flip,
      i: int) { 0 <= i < |f.sibs| && i % 4 != NONPTR_DATA_SIB ==> f.sibs[i].sweptEnd == f.sibs[i].firstFree }

  lemma OtherSibs(f: Flip, cards: seq<CardMap>, seen: set<int>, cards': seq<CardMap>, seen': set<int>, i: nat, d: nat)
    requires WellFormed(f) && CardReady(f, cards) && ScannedBut(f, cards, seen, i)
    requires i < |f.sibs| && i % 4 == RW_POINTERS_SIB && Active(f.sibs[i])
    requires OneCardSet(cards, cards', i / 4, d) && SeenWithin(seen, seen', CardStart(f, i, d), CardEnd(f, i, d))
    ensures ScannedBut(f, cards', seen', i)
  {
    forall j: nat | j != i ensures ScannedSib(f, cards', seen', j, i) {
      assert ScannedSib(f, cards, seen, j, i);
      if j < |f.sibs| && j % 4 == RW_POINTERS_SIB && Active(f.sibs[j]) && j / 4 < |f.cards| {
        OtherCards(f, cards, seen, cards', seen', i, d, j,
            if SibAge(j) > f.k && j < i then |f.cards[j / 4].minAge| else 0);
      }
    }
  }

  /** The words newly seen lie in some sib buffer of an agegroup not being cleaned. */
  ghost predicate SeenInCards(f: Flip, seen: set<int>, seen': set<int>) {
    seen <= seen' && forall x {:trigger x in seen'} :: x in seen' && x !in seen ==>
        exists i {:trigger InBuffer(f, i, x)} :: InBuffer(f, i, x)
  }

  lemma SibScanStarts(f: Flip, cards: seq<CardMap>, seen: set<int>, i: nat)
    requires Scanned(f, cards, seen, i) && i < |f.sibs| && i % 4 == RW_POINTERS_SIB && SibAge(i) > f.k &&
        Active(f.sibs[i]) && i / 4 < |f.cards|
    ensures SibCards(f, cards, seen, i, 0) && ScannedBut(f, cards, seen, i)
  {
    assert ScannedSib(f, cards, seen, i, i);
    forall j: nat | j != i ensures ScannedSib(f, cards, seen, j, i) { assert ScannedSib(f, cards, seen, j, i); }
  }

  lemma SibScanEnds(f: Flip, cards: seq<CardMap>, seen: set<int>, i: nat, n: nat)
    requires i < |f.sibs| && i % 4 == RW_POINTERS_SIB && i / 4 < |f.cards| && n == |f.cards[i / 4].minAge|
    requires SibCards(f, cards, seen, i, n) && ScannedBut(f, cards, seen, i) && SibAge(i) > f.k
    ensures Scanned(f, cards, seen, i + 4)
  {
    var i' := i + 4;
    forall j: nat ensures ScannedSib(f, cards, seen, j, i') { if j != i { assert ScannedSib(f, cards, seen, j, i); } }
  }

  /** A card that is not dirty is skipped. */
  lemma CleanCard(f: Flip, cards: seq<CardMap>, seen: set<int>, i: nat, d: nat)
    requires SibCards(f, cards, seen, i, d) && i / 4 < |f.cards| && i / 4 < |cards|
    requires d < |cards[i / 4].minAge| == |f.cards[i / 4].minAge| && cards[i / 4].minAge[d] > f.k
    ensures SibCards(f, cards, seen, i, d + 1)
  {
    var d' := d + 1;
    assert CardStage(f, cards, seen, i, d, d);
    forall e ensures CardStage(f, cards, seen, i, d', e) { assert CardStage(f, cards, seen, i, d, e); }
  }

  lemma CardInBuffer(f: Flip, cards: seq<CardMap>, seen: set<int>, seen': set<int>, i: nat, d: nat)
    requires WellFormed(f) && CardReady(f, cards) && i < |f.sibs| && i % 4 == RW_POINTERS_SIB && Active(f.sibs[i])
    requires SeenWithin(seen, seen', CardStart(f, i, d), CardEnd(f, i, d))
    ensures SeenInCards(f, seen, seen')
  {
    assert MapOk(f, cards, i) && SibOk(f, i);
    forall x | x in seen' && x !in seen ensures exists j {:trigger InBuffer(f, j, x)} :: InBuffer(f, j, x) {
      assert InBuffer(f, i, x);
    }
  }

  method CardStep(h: Heap, k: nat, i: nat, d: nat)
    requires Carding(h, k) && i < |h.sibs| && i % 4 == RW_POINTERS_SIB && SibAge(i) > k && Active(h.sibs[i])
    requires h.sibs[i].sweptEnd == h.flip.sibs[i].firstFree && i / 4 < |h.cards| && d < |h.cards[i / 4].minAge|
    requires SibCards(h.flip, h.cards, h.copy.seen, i, d) && ScannedBut(h.flip, h.cards, h.copy.seen, i)
    modifies h`sibs, h`copy, h`weakrefs, h`huge, h`marked, h`cards, h.ram
    ensures Carding(h, k) && Extends(h.flip, old(h.copy), h.copy) && SameSwept(old(h.sibs), h.sibs)
    ensures |h.cards| == |old(h.cards)| && |h.cards[i / 4].minAge| == |old(h.cards[i / 4].minAge)|
    ensures SibCards(h.flip, h.cards, h.copy.seen, i, d + 1) && ScannedBut(h.flip, h.cards, h.copy.seen, i)
    ensures SeenInCards(h.flip, old(h.copy).seen, h.copy.seen)
  {
    ghost var c0, cards0 := h.copy, h.cards;
    ReadyCard(h.flip, h.ram[..], h.sibs, h.weakrefs, h.copy, h.huge, h.marked, h.cards, i, d);
    if h.cards[i / 4].minAge[d] <= k {
      ScanCard(h, k, i, d);
      hide CardReady, CardsHold, Uncleaned, CardIs, SweptBut, Extends, MajorFlip;
      OtherCards(h.flip, cards0, c0.seen, h.cards, h.copy.seen, i, d, i, d);
      OtherSibs(h.flip, cards0, c0.seen, h.cards, h.copy.seen, i, d);
      CardInBuffer(h.flip, cards0, c0.seen, h.copy.seen, i, d);
    } else {
      CleanCard(h.flip, h.cards, h.copy.seen, i, d);
      ExtendsReflexive(h.flip, h.copy);
    }
  }

  lemma ReadyCard(f: Flip, m: seq<Word>, sibs: seq<Sib>, weakrefs: nat, c: Copy, huge: seq<Huge>, marked: set<int>,
                  cards: seq<CardMap>, i: nat, d: nat)
    requires CleaningState(f, m, sibs, weakrefs, c, huge, marked) && CardReady(f, cards) && |cards| == |f.cards|
    requires i < |sibs| && i % 4 == RW_POINTERS_SIB && Active(sibs[i]) && SibCards(f, cards, c.seen, i, d)
    ensures i < |f.sibs| && Active(f.sibs[i]) && i / 4 < |cards| && |cards[i / 4].minAge| == |f.cards[i / 4].minAge|
    ensures CardIs(f, cards, c.seen, i, d, false)
  {
    assert SameBuffer(f.sibs[i], sibs[i]) && MapOk(f, cards, i) && CardStage(f, cards, c.seen, i, d, d);
  }

  /** Scan the dirty cards of one sib. */
  method ScanDirtyCards(h: Heap, k: nat, i: nat)
    requires Carding(h, k) && i < |h.sibs| && i % 4 == RW_POINTERS_SIB && SibAge(i) > k && Active(h.sibs[i])
    requires h.sibs[i].sweptEnd == h.flip.sibs[i].firstFree && i / 4 < |h.cards|
    requires Scanned(h.flip, h.cards, h.copy.seen, i)
    modifies h`sibs, h`copy, h`weakrefs, h`huge, h`marked, h`cards, h.ram
    ensures Carding(h, k) && Extends(h.flip, old(h.copy), h.copy) && SameSwept(old(h.sibs), h.sibs)
    ensures Scanned(h.flip, h.cards, h.copy.seen, i + 4) && SeenInCards(h.flip, old(h.copy).seen, h.copy.seen)
  {
    ghost var c0, sibs0 := h.copy, h.sibs;
    var d, n := 0, |h.cards[i / 4].minAge|;
    SameBuffersAt(h.flip, h.ram[..], h.sibs, h.weakrefs, h.copy, h.huge, h.marked, h.cards, i);
    SibScanStarts(h.flip, h.cards, h.copy.seen, i);
    ExtendsReflexive(h.flip, h.copy);
    while d < n
      invariant Carding(h, k) && Extends(h.flip, c0, h.copy) && SameSwept(sibs0, h.sibs) && d <= n
      invariant SibCards(h.flip, h.cards, h.copy.seen, i, d) && ScannedBut(h.flip, h.cards, h.copy.seen, i)
      invariant |h.cards[i / 4].minAge| == n && Active(h.flip.sibs[i]) && SeenInCards(h.flip, c0.seen, h.copy.seen)
    {
      hide CardReady, CardsHold, Uncleaned, CardIs, SibCards, ScannedBut, SweptBut, Extends, MajorFlip;
      ghost var c1 := h.copy;
      assert SameBuffer(h.flip.sibs[i], h.sibs[i]);
      CardStep(h, k, i, d);
      ExtendsTransitive(h.flip, c0, c1, h.copy);
      d := d + 1;
    }
    SibScanEnds(h.flip, h.cards, h.copy.seen, i, n);
  }

  lemma SameBuffersAt(f: Flip, m: seq<Word>, sibs: seq<Sib>, weakrefs: nat, c: Copy, huge: seq<Huge>, marked: set<int>,
                      cards: seq<CardMap>, i: nat)
    requires CleaningState(f, m, sibs, weakrefs, c, huge, marked) && CardReady(f, cards) && |cards| == |f.cards|
    requires i < |sibs|
    ensures |sibs| == |f.sibs| && SameBuffer(f.sibs[i], sibs[i]) && Active(f.sibs[i]) == Active(sibs[i])
    ensures i % 4 == RW_POINTERS_SIB && Active(sibs[i]) ==>
        && i / 4 < |cards|
        && |cards[i / 4].minAge| == |f.cards[i / 4].minAge|
  {
    assert SameBuffer(f.sibs[i], sibs[i]) && MapOk(f, cards, i);
  }

  /** Forward what the agegroups not being cleaned refer to, and re-mark their dirty cards. */
  method ForwardAllChunksReferencedByUncleanedAgegroups(h: Heap, k: nat)
    requires Carding(h, k) && k <= h.active && |h.sibs| == 4 * h.active == 4 * |h.cards|
    requires forall i {:trigger SweepStart(h.flip, i)} :: SweepStart(h.flip, i)
    requires SameSwept(h.flip.sibs, h.sibs) && Scanned(h.flip, h.cards, h.copy.seen, 4 * k)
    modifies h`sibs, h`copy, h`weakrefs, h`huge, h`marked, h`cards, h.ram
    ensures Carding(h, k) && Extends(h.flip, old(h.copy), h.copy) && SameSwept(old(h.sibs), h.sibs)
    ensures Scanned(h.flip, h.cards, h.copy.seen, |h.sibs|) && SeenInCards(h.flip, old(h.copy).seen, h.copy.seen)
  {
    ghost var c0, sibs0 := h.copy, h.sibs;
    ExtendsReflexive(h.flip, h.copy);
    var age := k;
    while age < h.active
      invariant Carding(h, k) && Extends(h.flip, c0, h.copy) && SameSwept(sibs0, h.sibs) && age <= h.active
      invariant Scanned(h.flip, h.cards, h.copy.seen, 4 * age) && SeenInCards(h.flip, c0.seen, h.copy.seen)
    {
      hide CardReady, CardsHold, Uncleaned, Scanned, SweptBut, Extends, MajorFlip;
      ghost var c1 := h.copy;
      var i := SibIndex(age + 1, RW_POINTERS_KIND);
      SameBuffersAt(h.flip, h.ram[..], h.sibs, h.weakrefs, h.copy, h.huge, h.marked, h.cards, i);
      assert SweepStart(h.flip, i);
      ScannedFrom(h.flip, h.cards, h.copy.seen, age);
      if Active(h.sibs[i]) {
        ScanDirtyCards(h, k, i);
        ExtendsTransitive(h.flip, c0, c1, h.copy);
      }
      ScannedTo(h.flip, h.cards, h.copy.seen, age);
      age := age + 1;
    }
  }

  lemma ScannedFrom(f: Flip, cards: seq<CardMap>, seen: set<int>, age: nat)
    requires Scanned(f, cards, seen, 4 * age)
    ensures Scanned(f, cards, seen, SibIndex(age + 1, RW_POINTERS_KIND))
  {
    var n := SibIndex(age + 1, RW_POINTERS_KIND);
    forall j: nat ensures ScannedSib(f, cards, seen, j, n) { assert ScannedSib(f, cards, seen, j, 4 * age); }
  }

  lemma ScannedTo(f: Flip, cards: seq<CardMap>, seen: set<int>, age: nat)
    requires var i := SibIndex(age + 1, RW_POINTERS_KIND);
      if 0 <= i < |f.sibs| && Active(f.sibs[i]) then Scanned(f, cards, seen, i + 4) else Scanned(f, cards, seen, i)
    ensures Scanned(f, cards, seen, 4 * (age + 1))
  {
    var i := SibIndex(age + 1, RW_POINTERS_KIND);
    var n, e := 4 * (age + 1), if 0 <= i < |f.sibs| && Active(f.sibs[i]) then i + 4 else i;
    forall j: nat ensures ScannedSib(f, cards, seen, j, n) { assert ScannedSib(f, cards, seen, j, e); }
  }
}
