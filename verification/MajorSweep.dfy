/** The scans of heapclean-n-agegroups.c: roots, to-space queues, and what they leave unseen. */
module MajorSweep {
  import opened HeapTags
  import opened HeapModel
  import opened Forwarding
  import opened HeapObject
  import opened MajorForward

  // ------------------------------------------------------------------ progress

  ghost function Chunks(f: Flip): set<int> { set a: int | 0 <= a < |f.zone| && Chunk(f, a) }

  ghost function Uncopied(f: Flip, c: Copy): nat { |Chunks(f) - c.fwd.Keys| }

  ghost function Todo(c: Copy): nat { |c.org.Keys - c.seen| }

  lemma CopyMeasure(f: Flip, c: Copy, c': Copy, v: int)
    requires Chunk(f, v) && v !in c.fwd && c'.fwd.Keys == c.fwd.Keys + {v}
    ensures Uncopied(f, c') < Uncopied(f, c)
  {
    var s, s' := Chunks(f) - c.fwd.Keys, Chunks(f) - c'.fwd.Keys;
    assert s == s' + {v};
  }

  lemma SeeMeasure(c: Copy, x: int)
    requires x in c.org && x !in c.seen
    ensures Todo(c.(seen := c.seen + {x})) < Todo(c)
  {
    assert c.org.Keys - c.seen == (c.org.Keys - (c.seen + {x})) + {x};
  }

  /** Either a chunk was copied, or nothing was and the queues have not grown. */
  ghost predicate Nearer(f: Flip, c: Copy, sibs: seq<Sib>, c': Copy, sibs': seq<Sib>) {
    Uncopied(f, c') < Uncopied(f, c) ||
    (Uncopied(f, c') == Uncopied(f, c) && c'.org == c.org && Free(sibs') == Free(sibs) && Todo(c') <= Todo(c))
  }

  // ------------------------------------------------------------------ one word

  /** How a word about to be visited was dealt with. */
  ghost predicate Handled(f: Flip, m: seq<Word>, c: Copy, marked: set<int>, x: int, w: Word) {
    |m| == |f.mem| == |f.zone| && Scannable(f, c, x) && x !in c.seen &&
    if !(m[x].Pointer? && AgeAt(f, m[x].addr) <= f.k) then w == m[x]
    else
      m[x] == Original(f, c.org, x) && !Link(f, c.org, c.chain, x) &&
      if Chunk(f, m[x].addr) then m[x].addr in c.fwd && 0 < c.fwd[m[x].addr] && w == Pointer(c.fwd[m[x].addr])
      else w == m[x] && HugeAt(f.b2s, f.quires, m[x].addr) in marked
  }

  lemma VisitState(f: Flip, m: seq<Word>, sibs: seq<Sib>, weakrefs: nat, c: Copy, huge: seq<Huge>, marked: set<int>,
                   x: int, w: Word, m': seq<Word>, c': Copy)
    requires CleaningState(f, m, sibs, weakrefs, c, huge, marked)
    requires Handled(f, m, c, marked, x, w) && m' == m[x := w] && c' == c.(seen := c.seen + {x})
    ensures CleaningState(f, m', sibs, weakrefs, c', huge, marked)
  {
    VisitIsRelocation(f, m, Free(sibs), weakrefs, c, huge, marked, x, w);
    VisitKeepsInv(f, m, Free(sibs), weakrefs, c, x, w);
    forall y ensures SeenCode(f, c', marked, y) {
      assert SeenCode(f, c, marked, y);
    }
  }

  lemma VisitIsRelocation(f: Flip, m: seq<Word>, ff: seq<nat>, weakrefs: nat, c: Copy, huge: seq<Huge>,
      marked: set<int>, x: int, w: Word)
    requires Inv(f, m, ff, weakrefs, c) && Handled(f, m, c, marked, x, w)
    ensures if Link(f, c.org, c.chain, x) then w == m[x] else Relocated(f, c.fwd, Original(f, c.org, x), w)
    ensures SeenCode(f, c.(seen := c.seen + {x}), marked, x)
  {
    if Link(f, c.org, c.chain, x) {
      LinkOriginal(f, m, ff, weakrefs, c, x);
    } else {
      UnseenWord(f, m, ff, weakrefs, c, x);
      var o := Original(f, c.org, x);
      assert o.Pointer? && Chunk(f, o.addr) ==> ChunkOk(f, o.addr);
    }
  }

  /** What a link stands in for: a weakref's tagword, or a reference to a chunk. */
  lemma LinkOriginal(f: Flip, m: seq<Word>, ff: seq<nat>, weakrefs: nat, c: Copy, x: int)
    requires Inv(f, m, ff, weakrefs, c) && Link(f, c.org, c.chain, x)
    ensures 0 <= x < |m| && m[x].TaggedInt? && Visitable(f, c.org, x)
    ensures var o := Original(f, c.org, x); o.Pointer? ==> Chunk(f, o.addr)
  {
    LinkIsNoPointer(f, m, ff, weakrefs, c, x);
    assert OriginOk(f, ff, c.fwd, x, c.org[x]);
    var a := f.zone[c.org[x]].chunk;
    var j :| 0 <= j < |c.chain| && c.chain[j] == a;
    assert LinkOk(f, m, c.fwd, c.chain, j);
    assert ZoneOk(f, c.org[x]) && ChunkOk(f, a);
  }

  /** The value a word is to have: what it points to is forwarded first, if it is being cleaned. */
  method ForwardPointee(h: Heap, k: nat, x: nat) returns (w: Word)
    requires Cleaning(h) && MajorFlip(h.flip) && k == h.flip.k
    requires Scannable(h.flip, h.copy, x) && x !in h.copy.seen
    modifies h`sibs, h`copy, h`weakrefs, h`huge, h`marked, h.ram
    ensures Cleaning(h) && SameSwept(old(h.sibs), h.sibs) && Handled(h.flip, h.ram[..], h.copy, h.marked, x, w)
    ensures h.copy.seen == old(h.copy.seen) && Extends(h.flip, old(h.copy), h.copy)
    ensures Uncopied(h.flip, h.copy) < Uncopied(h.flip, old(h.copy)) || (h.copy == old(h.copy) && h.sibs == old(h.sibs))
  {
    w := h.ram[x];
    if w.Pointer? {
      var sibid := SibidFor(h.b2s, w.addr);
      if sibid.age <= k {
        ghost var c0 := h.copy;
        UnseenTarget(h.flip, h.ram[..], Free(h.sibs), h.weakrefs, h.copy, x);
        FixedHasNoOrigin(h.flip, Free(h.sibs), h.copy, x);
        var t := ForwardChunk(h, k, w.addr, sibid);
        StillUnseen(h.flip, h.ram[..], Free(h.sibs), h.weakrefs, c0, h.copy, x);
        if Chunk(h.flip, w.addr) && w.addr !in c0.fwd { CopyMeasure(h.flip, c0, h.copy, w.addr); }
        CopyIsSomewhere(h.flip, h.ram[..], h.copy.fwd, w.addr);
        w := Pointer(t);
      }
    }
  }

  lemma FixedHasNoOrigin(f: Flip, ff: seq<nat>, c: Copy, x: int)
    requires InvOrg(f, ff, c.fwd, c.org) && Visitable(f, c.org, x)
    ensures f.zone[x].Fixed? ==> x !in c.org
  {
    assert x in c.org ==> OriginOk(f, ff, c.fwd, x, c.org[x]);
  }

  lemma CopyIsSomewhere(f: Flip, m: seq<Word>, fwd: map<int, int>, v: int)
    requires InvFwd(f, m, fwd)
    ensures v in fwd ==> 0 < fwd[v]
  {
    assert v in fwd ==> Forwarded(f, m, v, fwd[v]);
  }

  /** Store the new value of a word: it has now been visited. */
  method StoreVisited(h: Heap, x: nat, w: Word)
    requires Cleaning(h) && Handled(h.flip, h.ram[..], h.copy, h.marked, x, w)
    modifies h`copy, h.ram
    ensures Cleaning(h) && h.copy == old(h.copy).(seen := old(h.copy).seen + {x}) && h.ram[..] == old(h.ram[..])[x := w]
  {
    ghost var m, c := h.ram[..], h.copy;
    h.ram[x] := w;
    h.copy := h.copy.(seen := h.copy.seen + {x});
    VisitState(h.flip, m, h.sibs, h.weakrefs, c, h.huge, h.marked, x, w, h.ram[..], h.copy);
  }

  /** Relocate one word. */
  method ForwardPointeeIfInFromspace(h: Heap, k: nat, x: nat)
    requires Cleaning(h) && MajorFlip(h.flip) && k == h.flip.k
    requires Scannable(h.flip, h.copy, x) && x !in h.copy.seen
    modifies h`sibs, h`copy, h`weakrefs, h`huge, h`marked, h.ram
    ensures Cleaning(h) && SameSwept(old(h.sibs), h.sibs)
    ensures h.copy.seen == old(h.copy.seen) + {x} && Extends(h.flip, old(h.copy), h.copy)
    ensures Nearer(h.flip, old(h.copy), old(h.sibs), h.copy, h.sibs)
    ensures x in old(h.copy.org) ==>
        Uncopied(h.flip, h.copy) < Uncopied(h.flip, old(h.copy)) || Todo(h.copy) < Todo(old(h.copy))
  {
    hide Uncopied, Todo;
    ghost var c0 := h.copy;
    var w := ForwardPointee(h, k, x);
    ghost var c1 := h.copy;
    StoreVisited(h, x, w);
    SeeExtends(h.flip, c0, c1, x);
  }

  lemma SeeExtends(f: Flip, c0: Copy, c1: Copy, x: int)
    requires Extends(f, c0, c1) && c1.seen == c0.seen && x !in c0.seen
    ensures Extends(f, c0, c1.(seen := c1.seen + {x})) && Uncopied(f, c1.(seen := c1.seen + {x})) == Uncopied(f, c1)
    ensures Todo(c1.(seen := c1.seen + {x})) <= Todo(c1) &&
        (x in c1.org ==> Todo(c1.(seen := c1.seen + {x})) < Todo(c1))
  {
    var c2 := c1.(seen := c1.seen + {x});
    forall p ensures OriginKept(f, c0, c2, p) { assert OriginKept(f, c0, c1, p); }
    forall a | a in c0.fwd ensures a in c2.fwd && c2.fwd[a] == c0.fwd[a] { assert a in c1.fwd; }
    if x in c1.org { SeeMeasure(c1, x); } else { assert c1.org.Keys - c1.seen == c2.org.Keys - c2.seen; }
  }

  /** A word not yet visited is not disturbed by the copying its pointee needs. */
  lemma StillUnseen(f: Flip, m: seq<Word>, ff: seq<nat>, weakrefs: nat, c0: Copy, c: Copy, x: int)
    requires Inv(f, m, ff, weakrefs, c) && Extends(f, c0, c) && c.seen == c0.seen
    requires Scannable(f, c0, x) && x !in c0.seen && !Link(f, c0.org, c0.chain, x)
    requires f.zone[x].Fixed? ==> x !in c0.org
    ensures Scannable(f, c, x) && !Link(f, c.org, c.chain, x) && m[x] == Original(f, c0.org, x) == Original(f, c.org, x)
  {
    assert OriginKept(f, c0, c, x);
    assert x in c.org ==> OriginOk(f, ff, c.fwd, x, c.org[x]);
    UnseenWord(f, m, ff, weakrefs, c, x);
  }

  // ------------------------------------------------------------------ the work queues

  /** In the free area of a pointer sib the words below p, and no others, have been visited. */
  predicate SweepOk(f: Flip, seen: set<int>, i: int, p: int, x: int) {
    0 <= i < |f.sibs| && f.sibs[i].firstFree <= x < f.sibs[i].limit ==>
        (x in seen <==> x < p && i % 4 != NONPTR_DATA_SIB)
  }

  /** Every sib is visited up to its sweep pointer, except sib i, which is visited up to p. */
  ghost predicate SweptBut(f: Flip, seen: set<int>, sibs: seq<Sib>, i: int, p: int) {
    |sibs| == |f.sibs| &&
    forall j, x {:trigger SweepOk(f, seen, j, SweepPoint(sibs, i, p, j), x)} ::
        SweepOk(f, seen, j, SweepPoint(sibs, i, p, j), x)
  }

  function SweepPoint(sibs: seq<Sib>, i: int, p: int, j: int): int {
    if j == i then p else if 0 <= j < |sibs| then sibs[j].sweptEnd else 0
  }

  ghost predicate Swept(h: Heap)
    reads h
  {
    SweptBut(h.flip, h.copy.seen, h.sibs, -1, 0)
  }

  lemma SweepStep(f: Flip, seen: set<int>, sibs: seq<Sib>, i: int, p: int, sibs': seq<Sib>)
    requires WellFormed(f) && SweptBut(f, seen, sibs, i, p) && SameSwept(sibs, sibs')
    requires 0 <= i < |f.sibs| && f.sibs[i].firstFree <= p < f.sibs[i].limit && i % 4 != NONPTR_DATA_SIB
    ensures SweptBut(f, seen + {p}, sibs', i, p + 1)
  {
    var seen' := seen + {p};
    var p' := p + 1;
    assert SibOk(f, i) && AreaOk(f, i, p);
    forall j, x ensures SweepOk(f, seen', j, SweepPoint(sibs', i, p', j), x) {
      assert SweepOk(f, seen, j, SweepPoint(sibs, i, p, j), x);
      assert AreaOk(f, j, x);
    }
  }

  /** The next word of a queue is a copied word that has not been visited. */
  lemma QueueHead(f: Flip, m: seq<Word>, sibs: seq<Sib>, weakrefs: nat, c: Copy, i: int, p: int)
    requires Inv(f, m, Free(sibs), weakrefs, c) && SweptBut(f, c.seen, sibs, i, p)
    requires 0 <= i < |sibs| && i % 4 != NONPTR_DATA_SIB && f.sibs[i].firstFree <= p < sibs[i].firstFree
    ensures Scannable(f, c, p) && p !in c.seen && p in c.org && f.zone[p] == New(i) && p < f.sibs[i].limit
  {
    var ff := Free(sibs);
    assert SibOk(f, i) && AreaOk(f, i, p) && CoverOk(f, ff, c.org, i, p) && OriginOk(f, ff, c.fwd, p, c.org[p]);
    assert ff[i] == sibs[i].firstFree;
    assert SweepOk(f, c.seen, i, SweepPoint(sibs, i, p, i), p);
  }

  /** Parking the sweep pointer of sib i at p. */
  lemma ParkSweep(f: Flip, seen: set<int>, sibs: seq<Sib>, i: int, p: nat)
    requires SweptBut(f, seen, sibs, i, p) && 0 <= i < |sibs|
    ensures SweptBut(f, seen, sibs[i := sibs[i].(sweptEnd := p)], -1, 0)
  {
    var sibs' := sibs[i := sibs[i].(sweptEnd := p)];
    forall j, x ensures SweepOk(f, seen, j, SweepPoint(sibs', -1, 0, j), x) {
      assert SweepOk(f, seen, j, SweepPoint(sibs, i, p, j), x);
    }
  }

  lemma UnparkSweep(f: Flip, seen: set<int>, sibs: seq<Sib>, i: int)
    requires SweptBut(f, seen, sibs, -1, 0) && 0 <= i < |sibs|
    ensures SweptBut(f, seen, sibs, i, sibs[i].sweptEnd)
  {
    forall j, x ensures SweepOk(f, seen, j, SweepPoint(sibs, i, sibs[i].sweptEnd, j), x) {
      assert SweepOk(f, seen, j, SweepPoint(sibs, -1, 0, j), x);
    }
  }

  /** Storing a sweep pointer touches nothing the cleaning invariant speaks of. */
  lemma SweepPointerIsFree(f: Flip, m: seq<Word>, sibs: seq<Sib>, weakrefs: nat, c: Copy, huge: seq<Huge>,
      marked: set<int>, i: nat, p: nat)
    requires CleaningState(f, m, sibs, weakrefs, c, huge, marked) && i < |sibs|
    ensures CleaningState(f, m, sibs[i := sibs[i].(sweptEnd := p)], weakrefs, c, huge, marked)
  {
    var sibs' := sibs[i := sibs[i].(sweptEnd := p)];
    assert Free(sibs') == Free(sibs);
    assert SameBuffer(f.sibs[i], sibs[i]);
  }

  /** What a stretch of sweeping does to the progress so far. */
  ghost predicate Further(f: Flip, c: Copy, sibs: seq<Sib>, c': Copy, sibs': seq<Sib>) {
    Extends(f, c, c') && Nearer(f, c, sibs, c', sibs') && SameSwept(sibs, sibs')
  }

  /** Some chunk was copied or some copied word was visited. */
  ghost predicate Strictly(f: Flip, c: Copy, c': Copy) {
    Uncopied(f, c') < Uncopied(f, c) || (Uncopied(f, c') == Uncopied(f, c) && Todo(c') < Todo(c))
  }

  lemma FurtherTransitive(f: Flip, c0: Copy, s0: seq<Sib>, c1: Copy, s1: seq<Sib>, c2: Copy, s2: seq<Sib>)
    requires Further(f, c0, s0, c1, s1) && Further(f, c1, s1, c2, s2)
    ensures Further(f, c0, s0, c2, s2)
  {
    ExtendsTransitive(f, c0, c1, c2);
    forall i | 0 <= i < |s0| ensures s2[i].sweptEnd == s0[i].sweptEnd { assert s1[i].sweptEnd == s0[i].sweptEnd; }
  }

  lemma FurtherReflexive(f: Flip, c: Copy, s: seq<Sib>)
    ensures Further(f, c, s, c, s)
  {
  }

  /** Only words of the free area of sib i were newly visited. */
  ghost predicate SeenOnly(f: Flip, seen: set<int>, seen': set<int>, i: int) {
    forall x {:trigger x in seen'} :: x in seen' && x !in seen ==> 0 <= x < |f.zone| && f.zone[x] == New(i)
  }

  ghost predicate Sweeping(h: Heap, k: nat, i: nat, p: nat)
    reads h, h.ram
  {
    && Cleaning(h) && MajorFlip(h.flip) && k == h.flip.k && SweptBut(h.flip, h.copy.seen, h.sibs, i, p)
    && i < |h.sibs| && i % 4 != NONPTR_DATA_SIB && h.flip.sibs[i].firstFree <= p <= h.sibs[i].firstFree
  }

  method SweepWord(h: Heap, k: nat, i: nat, p: nat)
    requires Sweeping(h, k, i, p) && p < h.sibs[i].firstFree
    modifies h`sibs, h`copy, h`weakrefs, h`huge, h`marked, h.ram
    ensures Sweeping(h, k, i, p + 1) && old(h.sibs[i].firstFree) <= h.sibs[i].firstFree
    ensures Further(h.flip, old(h.copy), old(h.sibs), h.copy, h.sibs) && Strictly(h.flip, old(h.copy), h.copy)
    ensures SeenOnly(h.flip, old(h.copy).seen, h.copy.seen, i)
  {
    hide Uncopied, Todo;
    ghost var c, sibs := h.copy, h.sibs;
    QueueHead(h.flip, h.ram[..], h.sibs, h.weakrefs, h.copy, i, p);
    LastOrigin(h.flip, h.ram[..], h.sibs, h.weakrefs, h.copy, i);
    ForwardPointeeIfInFromspace(h, k, p);
    SweepStep(h.flip, c.seen, sibs, i, p, h.sibs);
    FreeGrows(h.flip, c, h.ram[..], h.sibs, h.weakrefs, h.copy, i, sibs[i].firstFree - 1);
  }

  lemma LastOrigin(f: Flip, m: seq<Word>, sibs: seq<Sib>, weakrefs: nat, c: Copy, i: nat)
    requires Inv(f, m, Free(sibs), weakrefs, c) && i < |sibs| && f.sibs[i].firstFree < sibs[i].firstFree
    ensures var p := sibs[i].firstFree - 1; p in c.org && 0 <= p < |f.zone| && f.zone[p] == New(i)
  {
    var p := sibs[i].firstFree - 1;
    assert Free(sibs)[i] == sibs[i].firstFree;
    assert SibOk(f, i) && AreaOk(f, i, p) && CoverOk(f, Free(sibs), c.org, i, p);
  }

  /** Copied words stay below the allocation pointer of their sib. */
  lemma FreeGrows(f: Flip, c0: Copy, m: seq<Word>, sibs: seq<Sib>, weakrefs: nat, c: Copy, i: nat, p: int)
    requires Inv(f, m, Free(sibs), weakrefs, c) && Extends(f, c0, c)
    requires p in c0.org && 0 <= p < |f.zone| && f.zone[p] == New(i) && i < |sibs|
    ensures p < sibs[i].firstFree
  {
    assert OriginKept(f, c0, c, p);
    assert OriginOk(f, Free(sibs), c.fwd, p, c.org[p]);
  }

  method SweepUpTo(h: Heap, k: nat, i: nat, start: nat, q: nat)
    requires Sweeping(h, k, i, start) && start < q <= h.sibs[i].firstFree
    modifies h`sibs, h`copy, h`weakrefs, h`huge, h`marked, h.ram
    ensures Sweeping(h, k, i, q)
    ensures Further(h.flip, old(h.copy), old(h.sibs), h.copy, h.sibs) && Strictly(h.flip, old(h.copy), h.copy)
    ensures SeenOnly(h.flip, old(h.copy).seen, h.copy.seen, i)
  {
    hide Uncopied, Todo;
    ghost var c0, sibs0 := h.copy, h.sibs;
    var p := start;
    FurtherReflexive(h.flip, c0, sibs0);
    while p < q
      invariant Sweeping(h, k, i, p) && p <= q <= h.sibs[i].firstFree
      invariant Further(h.flip, c0, sibs0, h.copy, h.sibs) && (start < p ==> Strictly(h.flip, c0, h.copy))
      invariant SeenOnly(h.flip, c0.seen, h.copy.seen, i)
    {
      ghost var c1, sibs1 := h.copy, h.sibs;
      SweepWord(h, k, i, p);
      FurtherTransitive(h.flip, c0, sibs0, c1, sibs1, h.copy, h.sibs);
      p := p + 1;
    }
  }

  /** Sweep one RO_POINTERS or RO_CONSCELL queue until it is empty.  Returns whether it was not. */
  method ForwardRestOfRoPointersSib(h: Heap, k: nat, i: nat) returns (made_progress: bool)
    requires Cleaning(h) && MajorFlip(h.flip) && k == h.flip.k && Swept(h)
    requires i < |h.sibs| && i % 4 <= RO_CONSCELL_SIB &&
        h.flip.sibs[i].firstFree <= h.sibs[i].sweptEnd <= h.sibs[i].firstFree
    modifies h`sibs, h`copy, h`weakrefs, h`huge, h`marked, h.ram
    ensures Cleaning(h) && Swept(h) && Extends(h.flip, old(h.copy), h.copy) && SweptOnly(old(h.sibs), h.sibs, i)
    ensures Active(h.sibs[i]) || made_progress ==> h.sibs[i].sweptEnd == h.sibs[i].firstFree
    ensures SeenOnly(h.flip, old(h.copy).seen, h.copy.seen, i)
    ensures if made_progress then Strictly(h.flip, old(h.copy), h.copy)
            else h.sibs == old(h.sibs) && h.copy == old(h.copy) && h.ram[..] == old(h.ram[..])
  {
    hide Uncopied, Todo;
    ghost var c0, sibs0 := h.copy, h.sibs;
    var p := h.sibs[i].sweptEnd;
    if !Active(h.sibs[i]) || p == h.sibs[i].firstFree {
      return false;
    }
    UnparkSweep(h.flip, h.copy.seen, h.sibs, i);
    FurtherReflexive(h.flip, c0, sibs0);
    var q: nat := p;
    while q != h.sibs[i].firstFree
      invariant Sweeping(h, k, i, q) && Further(h.flip, c0, sibs0, h.copy, h.sibs)
      invariant q == p < h.sibs[i].firstFree || Strictly(h.flip, c0, h.copy)
      invariant SeenOnly(h.flip, c0.seen, h.copy.seen, i)
      decreases Uncopied(h.flip, h.copy), h.sibs[i].firstFree - q
    {
      ghost var c1, sibs1 := h.copy, h.sibs;
      var end := h.sibs[i].firstFree;
      SweepUpTo(h, k, i, q, end);
      FurtherTransitive(h.flip, c0, sibs0, c1, sibs1, h.copy, h.sibs);
      SameFree(h.flip, c1, sibs1, h.copy, h.sibs, i);
      q := end;
    }
    SweepPointerIsFree(h.flip, h.ram[..], h.sibs, h.weakrefs, h.copy, h.huge, h.marked, i, q);
    ParkSweep(h.flip, h.copy.seen, h.sibs, i, q);
    h.sibs := h.sibs[i := h.sibs[i].(sweptEnd := q)];
    return true;
  }

  lemma SameFree(f: Flip, c: Copy, s: seq<Sib>, c': Copy, s': seq<Sib>, i: nat)
    requires Further(f, c, s, c', s') && i < |s|
    ensures Uncopied(f, c') < Uncopied(f, c) || (Uncopied(f, c') == Uncopied(f, c) && s'[i].firstFree == s[i].firstFree)
  {
    assert Free(s')[i] == s'[i].firstFree && Free(s)[i] == s[i].firstFree;
  }

  /** Only the sweep pointer of sib i moved. */
  predicate SweptOnly(s: seq<Sib>, s': seq<Sib>, i: nat) {
    |s| == |s'| && forall j {:trigger s'[j]} :: 0 <= j < |s| && j != i ==> s'[j].sweptEnd == s[j].sweptEnd
  }
}
