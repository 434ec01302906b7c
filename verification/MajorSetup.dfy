/** Flipping the spaces of agegroups 1 to k of a heap at rest gives a heap that a major clean can start from:
    in particular every to-space has room for all that can be copied into it. */
module MajorSetup {
  import opened HeapTags
  import opened HeapModel
  import opened Forwarding
  import opened HeapObject
  import opened MajorForward
  import opened MajorSweep
  import opened MajorCards
  import opened MajorRoots
  import opened MajorClean
  import opened MajorSizing
  import opened MajorHuge
  import opened HeapWorld

  /** The memory, labels, sibs and cards after the flip. */
  datatype After = After(m: seq<Word>, b2s: seq<Sibid>, sibs: seq<Sib>, cards: seq<CardMap>)

  /** What the sizing and the flip leave. */
  ghost predicate Flipping(w: Flip, k: nat, roots: seq<nat>, lists: seq<seq<nat>>, quireList: seq<nat>,
      requested: seq<nat>, nursery: nat,
                           bases: seq<nat>, grants: seq<nat>, n: After) {
    && AtRest(w, roots, lists, quireList) && 1 <= k <= w.k
    && GrantsOk(w.b2s, |w.mem|, bases, grants, w.k) && GrantsFresh(w, bases, grants)
    && FlippedBelow(k, w.sibs, w.b2s, w.mem, w.cards, requested, nursery, bases, grants, n.sibs, n.b2s, n.m, n.cards)
    && (k < w.k ==> Absorbs(w.sibs, k))
  }

  ghost function Flips(w: Flip, k: nat, n: After): Flip { FlipOf(w, k, n.m, n.b2s, n.sibs, n.cards) }

  /** The flip as far as it concerns labels and memory. */
  ghost predicate Relabel(w: Flip, k: nat, bases: seq<nat>, grants: seq<nat>, n: After) {
    && WellFormed(w) && CardReady(w, w.cards) && w.k <= MAX_AGEGROUPS && 1 <= k <= w.k
    && GrantsOk(w.b2s, |w.mem|, bases, grants, w.k) && GrantsFresh(w, bases, grants)
    && |n.b2s| == |w.b2s| && |n.m| == |w.mem| && |n.sibs| == |w.sibs| == 4 * w.k
    && (forall b {:trigger BookAfter(w.b2s, n.b2s, bases, grants, k, b)} ::
        BookAfter(w.b2s, n.b2s, bases, grants, k, b))
    && (forall x {:trigger WordAfter(w.mem, n.m, bases, grants, k, x)} :: WordAfter(w.mem, n.m, bases, grants, k, x))
    && (forall a {:trigger HomeOk(w, a)} :: HomeOk(w, a))
  }

  /** A grant is made of whole books. */
  lemma GrantIsBooks(b2s: seq<Sibid>, words: nat, bases: seq<nat>, grants: seq<nat>, active: nat, a: int, x: nat)
    requires GrantsOk(b2s, words, bases, grants, active)
    ensures InWords(bases, grants, a, x) <==> InGrant(bases, grants, a, x / BOOK)
    ensures InWords(bases, grants, a, x) ==> x < words
  {
    if 0 <= a < active {
      assert GrantOk(b2s, words, bases[a], grants[a]);
      if InWords(bases, grants, a, x) { BookOf(bases[a], grants[a], x); }
      if InGrant(bases, grants, a, x / BOOK) { WordOfBook(bases[a], grants[a], x); }
    }
  }

  /** A word that no grant contains keeps its label. */
  lemma NotGranted(w: Flip, k: nat, bases: seq<nat>, grants: seq<nat>, n: After, x: nat)
    requires Relabel(w, k, bases, grants, n) && forall a {:trigger InWords(bases, grants, a, x)} ::
        !InWords(bases, grants, a, x)
    ensures SibidFor(n.b2s, x) == SibidFor(w.b2s, x) && (x < |w.mem| ==> n.m[x] == w.mem[x])
  {
    forall a ensures !InGrant(bases, grants, a, x / BOOK) {
      GrantIsBooks(w.b2s, |w.mem|, bases, grants, w.k, a, x);
      assert !InWords(bases, grants, a, x);
    }
    assert BookAfter(w.b2s, n.b2s, bases, grants, k, x / BOOK) && WordAfter(w.mem, n.m, bases, grants, k, x);
  }

  lemma WordOfBook(o: nat, size: nat, x: nat)
    requires o % BOOK == 0 && size % BOOK == 0 && o / BOOK <= x / BOOK < (o + size) / BOOK
    ensures o <= x < o + size
  {
    assert o == o / BOOK * BOOK && o + size == (o + size) / BOOK * BOOK;
  }

  /** Every word of a sib buffer keeps its label and value. */
  lemma InOldBuffer(w: Flip, k: nat, bases: seq<nat>, grants: seq<nat>, n: After, i: int, x: int)
    requires Relabel(w, k, bases, grants, n) && InBuffer(w, i, x)
    ensures 0 <= x < |w.mem| && SibidFor(n.b2s, x) == SibidFor(w.b2s, x) && n.m[x] == w.mem[x]
    ensures AgeAt(w, x) == SibAge(i) && KindAt(w, x) == SibSlot(i) + 1
    ensures forall a {:trigger InWords(bases, grants, a, x)} :: !InWords(bases, grants, a, x)
  {
    assert SibOk(w, i) && AreaLabelOk(w, i, x);
    forall a ensures !InWords(bases, grants, a, x) {
      assert InWords(bases, grants, a, x) ==> !InBuffer(w, i, x);
    }
    NotGranted(w, k, bases, grants, n, x);
  }

  /** A chunk and all its words are as before. */
  lemma ChunkKept(w: Flip, k: nat, bases: seq<nat>, grants: seq<nat>, n: After, a: nat)
    requires Relabel(w, k, bases, grants, n) && Chunk(w, a)
    ensures var f := Flips(w, k, n);
      && AgeAt(f, a) == AgeAt(w, a) && KindAt(f, a) == KindAt(w, a) &&
          (KindAt(w, a) != RO_CONSCELL_KIND ==> TagOf(f, a) == TagOf(w, a)) && f.mem[a] == w.mem[a]
      && OldHeader(f, a) == OldHeader(w, a) && Length(f, a) == Length(w, a) && Slot(f, a) == Slot(w, a) &&
          Weak(f, a) == Weak(w, a)
      && NewHeader(f, a) == OldHeader(w, a) && 1 <= AgeAt(w, a) <= w.k && 1 <= KindAt(w, a) <= 4 &&
          Slot(w, a) == KindAt(w, a) - 1
      && ChunkOk(w, a) && (Chunk(f, a) <==> AgeAt(w, a) <= k)
  {
    ChunkWordsKept(w, k, bases, grants, n, a);
    ShapeKept(Flips(w, k, n), w, a);
    FlippedZone(w, k, n, a);
  }

  /** The label of a chunk's address, its tagword and its first word are as before. */
  lemma ChunkWordsKept(w: Flip, k: nat, bases: seq<nat>, grants: seq<nat>, n: After, a: nat)
    requires Relabel(w, k, bases, grants, n) && Chunk(w, a)
    ensures var f := Flips(w, k, n); SameWords(f, w, a)
    ensures ChunkOk(w, a) && 1 <= AgeAt(w, a) <= w.k && 1 <= KindAt(w, a) <= 4
  {
    assert HomeOk(w, a) && ChunkOk(w, a);
    var i := SibIndex(AgeAt(w, a), KindAt(w, a));
    assert SibOk(w, i);
    InOldBuffer(w, k, bases, grants, n, i, a);
    if KindAt(w, a) != RO_CONSCELL_KIND {
      InOldBuffer(w, k, bases, grants, n, i, a - 1);
    }
  }

  predicate SameWords(f: Flip, w: Flip, a: nat) {
    && a < |f.mem| == |w.mem| && SibidFor(f.b2s, a) == SibidFor(w.b2s, a) && f.mem[a] == w.mem[a]
    && (KindAt(w, a) != RO_CONSCELL_KIND ==> TagOf(f, a) == TagOf(w, a))
  }

  lemma ShapeKept(f: Flip, w: Flip, a: nat)
    requires SameWords(f, w, a) && 1 <= KindAt(w, a) <= 4
    ensures AgeAt(f, a) == AgeAt(w, a) && KindAt(f, a) == KindAt(w, a) && OldHeader(f, a) == OldHeader(w, a)
    ensures Length(f, a) == Length(w, a) && Slot(f, a) == Slot(w, a) == KindAt(w, a) - 1 && Weak(f, a) == Weak(w, a)
    ensures NewHeader(f, a) == OldHeader(w, a)
  {
  }

  lemma FlippedZone(w: Flip, k: nat, n: After, a: nat)
    requires |n.m| == |w.zone| && Chunk(w, a) && AgeAt(w, a) >= 1
    ensures Chunk(Flips(w, k, n), a) <==> AgeAt(w, a) <= k
  {
  }

  lemma WordKeptIn(w: Flip, k: nat, bases: seq<nat>, grants: seq<nat>, n: After, a: nat, x: int)
    requires Relabel(w, k, bases, grants, n) && Chunk(w, a) && a - OldHeader(w, a) <= x < a + Length(w, a)
    ensures 0 <= x < |w.mem| && n.m[x] == w.mem[x] && w.zone[x] == Old(a)
  {
    assert HomeOk(w, a) && ChunkOk(w, a) && ExtentOk(w, a, x);
    var i := SibIndex(AgeAt(w, a), KindAt(w, a));
    assert SibOk(w, i);
    InOldBuffer(w, k, bases, grants, n, i, x);
  }

  // ------------------------------------------------------------------ well-formedness

  lemma FlipZones(w: Flip, k: nat, bases: seq<nat>, grants: seq<nat>, n: After, x: int)
    requires Relabel(w, k, bases, grants, n)
    ensures ZoneOk(Flips(w, k, n), x)
  {
    var f := Flips(w, k, n);
    if 0 <= x < |f.zone| {
      assert ZoneOk(w, x);
      if f.zone[x].Old? {
        ChunkKept(w, k, bases, grants, n, f.zone[x].chunk);
      }
    }
  }

  lemma FlipExtents(w: Flip, k: nat, bases: seq<nat>, grants: seq<nat>, n: After, a: int, x: int)
    requires Relabel(w, k, bases, grants, n)
    ensures ExtentOk(Flips(w, k, n), a, x)
  {
    var f := Flips(w, k, n);
    assert ExtentOk(w, a, x);
    if Chunk(f, a) {
      ChunkKept(w, k, bases, grants, n, a);
    }
  }

  /** The sibs after the flip. */
  ghost predicate SibsFlipped(w: Flip, k: nat, requested: seq<nat>, nursery: nat, bases: seq<nat>, grants: seq<nat>,
      n: After) {
    && |n.sibs| == |w.sibs| == |requested| == 4 * w.k && |bases| == |grants| == w.k && k <= w.k
    && (forall i {:trigger n.sibs[i]} :: 0 <= i < |n.sibs| ==>
          if i < 4 * k then Flipped(w.sibs, n.sibs, requested, nursery, i, bases[i / 4], grants[i / 4])
              else n.sibs[i] == w.sibs[i])
    && (forall i: nat, x: nat {:trigger LabelAt(n.b2s, n.sibs, i, x)} :: i < 4 * k ==> LabelAt(n.b2s, n.sibs, i, x))
    && (forall i {:trigger SibRests(w, i)} :: SibRests(w, i))
  }

  /** Where a chunk goes is decided by boundaries the flip leaves alone. */
  lemma DestKept(w: Flip, k: nat, requested: seq<nat>, nursery: nat, bases: seq<nat>, grants: seq<nat>, n: After,
      a: nat)
    requires Relabel(w, k, bases, grants, n) && SibsFlipped(w, k, requested, nursery, bases, grants, n) && Chunk(w, a)
    ensures var f := Flips(w, k, n);
      && Dest(f, a) == Dest(w, a) && (AgeAt(w, a) <= k ==> ChunkOk(f, a)) && Aligned(f, a) == Aligned(w, a)
      && var h := SibIndex(AgeAt(w, a), KindAt(w, a));
        && 0 <= h < |w.sibs| && h % 4 == Slot(w, a) && h / 4 + 1 == AgeAt(w, a) && Active(w.sibs[h])
        && Dest(w, a) == (if a < w.sibs[h].seniorEnd then h + 4 else h) && (a < w.sibs[h].seniorEnd ==> h / 4 + 1 < w.k)
  {
    ChunkKept(w, k, bases, grants, n, a);
    assert HomeOk(w, a);
    var h := SibIndex(AgeAt(w, a), KindAt(w, a));
    assert SibRests(w, h) && SibOk(w, h);
    assert h < 4 * k ==> Flipped(w.sibs, n.sibs, requested, nursery, h, bases[h / 4], grants[h / 4]);
  }

  lemma FlipSibs(w: Flip, k: nat, requested: seq<nat>, nursery: nat, bases: seq<nat>, grants: seq<nat>, n: After,
      i: int)
    requires Relabel(w, k, bases, grants, n) && SibsFlipped(w, k, requested, nursery, bases, grants, n) &&
        0 <= i < |w.sibs|
    ensures SibOk(Flips(w, k, n), i)
    ensures forall x {:trigger AreaLabelOk(Flips(w, k, n), i, x)} :: AreaLabelOk(Flips(w, k, n), i, x)
    ensures forall x {:trigger AreaOk(Flips(w, k, n), i, x)} :: AreaOk(Flips(w, k, n), i, x)
  {
    var f := Flips(w, k, n);
    assert SibOk(w, i);
    if i < 4 * k {
      assert Flipped(w.sibs, n.sibs, requested, nursery, i, bases[i / 4], grants[i / 4]);
      assert GrantOk(w.b2s, |w.mem|, bases[i / 4], grants[i / 4]);
    }
    forall x ensures AreaLabelOk(f, i, x) && AreaOk(f, i, x) {
      if n.sibs[i].start <= x < n.sibs[i].limit {
        FlipArea(w, k, requested, nursery, bases, grants, n, i, x);
      }
    }
  }

  lemma FlipArea(w: Flip, k: nat, requested: seq<nat>, nursery: nat, bases: seq<nat>, grants: seq<nat>, n: After,
      i: nat, x: int)
    requires Relabel(w, k, bases, grants, n) && SibsFlipped(w, k, requested, nursery, bases, grants, n) && i < |w.sibs|
    requires n.sibs[i].start <= x < n.sibs[i].limit
    ensures AreaLabelOk(Flips(w, k, n), i, x) && AreaOk(Flips(w, k, n), i, x)
  {
    var f := Flips(w, k, n);
    if i < 4 * k {
      assert Flipped(w.sibs, n.sibs, requested, nursery, i, bases[i / 4], grants[i / 4]);
      assert LabelAt(n.b2s, n.sibs, i, x);
      GrantedWord(w, k, bases, grants, n, i / 4, x);
    } else {
      InOldBuffer(w, k, bases, grants, n, i, x);
      assert AreaOk(w, i, x) && AreaLabelOk(w, i, x);
    }
  }

  /** Nothing lives in a granted word. */
  lemma GrantedWord(w: Flip, k: nat, bases: seq<nat>, grants: seq<nat>, n: After, a: nat, x: nat)
    requires Relabel(w, k, bases, grants, n) && InWords(bases, grants, a, x) && x < |w.zone|
    ensures w.zone[x].Fixed?
  {
    HeapWordInBuffer(w, x);
  }

  lemma HeapWordInBuffer(w: Flip, x: nat)
    requires WellFormed(w) && x < |w.zone| && forall a {:trigger HomeOk(w, a)} :: HomeOk(w, a)
    ensures !w.zone[x].Fixed? ==> exists i {:trigger InBuffer(w, i, x)} :: InBuffer(w, i, x)
  {
    assert ZoneOk(w, x);
    if w.zone[x].Old? {
      var a := w.zone[x].chunk;
      assert HomeOk(w, a) && ChunkOk(w, a);
      var i := SibIndex(AgeAt(w, a), KindAt(w, a));
      assert SibOk(w, i) && InBuffer(w, i, x);
    } else if w.zone[x].New? {
      assert SibOk(w, w.zone[x].sib) && InBuffer(w, w.zone[x].sib, x);
    }
  }

  lemma OldWordLabel(w: Flip, k: nat, bases: seq<nat>, grants: seq<nat>, n: After, a: nat, x: int)
    requires Relabel(w, k, bases, grants, n) && Chunk(w, a) && a - OldHeader(w, a) <= x < a + Length(w, a)
    ensures 0 <= x && AgeAt(w, x) == AgeAt(w, a) <= w.k &&
        forall b {:trigger InWords(bases, grants, b, x)} :: !InWords(bases, grants, b, x)
  {
    assert HomeOk(w, a) && ChunkOk(w, a);
    var i := SibIndex(AgeAt(w, a), KindAt(w, a));
    assert SibOk(w, i) && AreaLabelOk(w, i, a) && AreaLabelOk(w, i, x);
    InOldBuffer(w, k, bases, grants, n, i, x);
  }

  /** A word scanned during the clean held the same value and was scanned by the heap at rest. */
  lemma FlipScanWord(w: Flip, k: nat, bases: seq<nat>, grants: seq<nat>, n: After, x: int)
    requires Relabel(w, k, bases, grants, n) && ScanWord(Flips(w, k, n), x) && ZoneOk(w, x)
    requires forall y {:trigger y in w.ext} :: y in w.ext ==> 0 <= y < |w.zone| && w.zone[y].Fixed?
    ensures ScanWord(w, x) && n.m[x] == w.mem[x]
    ensures w.mem[x].Pointer? ==> SibidFor(n.b2s, w.mem[x].addr) == SibidFor(w.b2s, w.mem[x].addr)
  {
    var f := Flips(w, k, n);
    if w.zone[x].Old? {
      var a := w.zone[x].chunk;
      ChunkKept(w, k, bases, grants, n, a);
      WordKeptIn(w, k, bases, grants, n, a, x);
    } else {
      assert x in w.ext;
      NotGranted(w, k, bases, grants, n, x);
    }
    assert ScanWord(w, x);
    if w.mem[x].Pointer? {
      NotGranted(w, k, bases, grants, n, w.mem[x].addr);
    }
  }

  /** Two label tables agree on which books hold quire records. */
  predicate SameRecordAt(b2s: seq<Sibid>, b2s': seq<Sibid>, b: nat) {
    b < |b2s| && |b2s'| == |b2s| ==> (b2s[b].id == HUGECHUNK_RECORD <==> b2s'[b].id == HUGECHUNK_RECORD)
  }

  lemma {:induction false} RecordBookKept(b2s: seq<Sibid>, b2s': seq<Sibid>, book: nat)
    requires |b2s'| == |b2s| && forall b {:trigger SameRecordAt(b2s, b2s', b)} :: SameRecordAt(b2s, b2s', b)
    ensures RecordBook(b2s', book) == RecordBook(b2s, book)
  {
    assert SameRecordAt(b2s, b2s', book);
    if !(book < |b2s| && b2s[book].id == HUGECHUNK_RECORD) && book > 0 {
      RecordBookKept(b2s, b2s', book - 1);
    }
  }

  /** Every address keeps its hugechunk. */
  lemma FlipKeepsCode(w: Flip, k: nat, bases: seq<nat>, grants: seq<nat>, n: After, addr: nat)
    requires Relabel(w, k, bases, grants, n)
    ensures HugeAt(n.b2s, w.quires, addr) == HugeAt(w.b2s, w.quires, addr)
  {
    forall b: nat ensures SameRecordAt(w.b2s, n.b2s, b) {
      assert BookAfter(w.b2s, n.b2s, bases, grants, k, b);
      if b < |w.b2s| && exists a :: 0 <= a < k && InGrant(bases, grants, a, b) {
        var a :| 0 <= a < k && InGrant(bases, grants, a, b);
        assert GrantOk(w.b2s, |w.mem|, bases[a], grants[a]);
      }
    }
    RecordBookKept(w.b2s, n.b2s, addr / BOOK);
  }

  /** What a scanned word refers to is what it referred to. */
  lemma FlipTargets(w: Flip, k: nat, bases: seq<nat>, grants: seq<nat>, n: After, x: int)
    requires Relabel(w, k, bases, grants, n)
    requires forall y {:trigger y in w.ext} :: y in w.ext ==> 0 <= y < |w.zone| && w.zone[y].Fixed?
    ensures var f := Flips(w, k, n); TargetOk(f, x) && LabelOk(f, x)
    ensures var f := Flips(w, k, n); ScanWord(f, x) ==>
      ScanWord(w, x) && f.mem[x] == w.mem[x] && (w.mem[x].Pointer? ==>
        AgeAt(f, w.mem[x].addr) == AgeAt(w, w.mem[x].addr) &&
            PointeeAge(f, w.mem[x].addr) == PointeeAge(w, w.mem[x].addr)
        && (Chunk(f, w.mem[x].addr) <==> Chunk(w, w.mem[x].addr) && AgeAt(w, w.mem[x].addr) <= k))
  {
    var f := Flips(w, k, n);
    if ScanWord(f, x) {
      assert ZoneOk(w, x) && TargetOk(w, x) && LabelOk(w, x);
      FlipScanWord(w, k, bases, grants, n, x);
      if w.mem[x].Pointer? {
        var v := w.mem[x].addr;
        FlipKeepsCode(w, k, bases, grants, n, v);
        if Chunk(w, v) { ChunkKept(w, k, bases, grants, n, v); }
      }
    }
  }

  lemma FlipWeakTargets(w: Flip, k: nat, bases: seq<nat>, grants: seq<nat>, n: After, a: int)
    requires Relabel(w, k, bases, grants, n)
    requires forall y {:trigger y in w.ext} :: y in w.ext ==> 0 <= y < |w.zone| && w.zone[y].Fixed?
    ensures WeakTargetOk(Flips(w, k, n), a)
  {
    var f := Flips(w, k, n);
    if a >= 0 && Chunk(f, a) && Weak(f, a) && a < |f.mem| && f.mem[a].Pointer? && AgeAt(f, f.mem[a].addr) <= k {
      ChunkKept(w, k, bases, grants, n, a);
      assert WeakTargetOk(w, a);
      FlipTargets(w, k, bases, grants, n, a);
      FlipScanWord(w, k, bases, grants, n, a);
    }
  }

  lemma FlipIsWellFormed(w: Flip, k: nat, requested: seq<nat>, nursery: nat, bases: seq<nat>, grants: seq<nat>,
      n: After)
    requires Relabel(w, k, bases, grants, n) && SibsFlipped(w, k, requested, nursery, bases, grants, n)
    requires forall y {:trigger y in w.ext} :: y in w.ext ==> 0 <= y < |w.zone| && w.zone[y].Fixed?
    ensures WellFormed(Flips(w, k, n))
  {
    var f := Flips(w, k, n);
    forall x ensures ZoneOk(f, x) { FlipZones(w, k, bases, grants, n, x); }
    forall a, x ensures ExtentOk(f, a, x) { FlipExtents(w, k, bases, grants, n, a, x); }
    forall a: nat | Chunk(f, a) ensures ChunkOk(f, a) {
      ChunkKept(w, k, bases, grants, n, a);
      DestKept(w, k, requested, nursery, bases, grants, n, a);
    }
    forall i | 0 <= i < |f.sibs| ensures SibOk(f, i) { FlipSibs(w, k, requested, nursery, bases, grants, n, i); }
    forall i, x ensures AreaOk(f, i, x) {
      if 0 <= i < |f.sibs| { FlipSibs(w, k, requested, nursery, bases, grants, n, i); }
    }
    forall x ensures TargetOk(f, x) { FlipTargets(w, k, bases, grants, n, x); }
    forall a ensures WeakTargetOk(f, a) { FlipWeakTargets(w, k, bases, grants, n, a); }
  }

  // ------------------------------------------------------------------ room

  /** A run of words. */
  ghost function Run(lo: int, hi: int): set<int> { set x: int | lo <= x < hi && Within(lo, x, hi) }

  predicate Within(lo: int, x: int, hi: int) { lo <= x < hi }

  lemma {:induction false} RunSize(lo: int, hi: int)
    ensures |Run(lo, hi)| == if lo < hi then hi - lo else 0
    decreases hi - lo
  {
    if lo < hi {
      RunSize(lo, hi - 1);
      assert Run(lo, hi) == Run(lo, hi - 1) + {hi - 1};
    } else {
      assert Run(lo, hi) == {};
    }
  }

  lemma SubsetSize(s: set<int>, t: set<int>)
    requires s <= t
    ensures |s| <= |t|
  {
    assert t == s + (t - s);
  }

  /** The words of a sib's juniors, which stay, and of the next younger sib's seniors, which move up. */
  ghost function Arrivals(w: Flip, k: nat, i: nat): set<int>
    requires i < |w.sibs|
  {
    (if i < 4 * k && Active(w.sibs[i]) then Run(w.sibs[i].seniorEnd, w.sibs[i].firstFree) else {}) +
    (if 4 <= i < 4 * k + 4 && Active(w.sibs[i - 4]) then Run(w.sibs[i - 4].start, w.sibs[i - 4].seniorEnd) else {})
  }

  /** No chunk needs eight-byte alignment, so that copying leaves no gaps. */
  ghost predicate Unpadded(w: Flip) { forall a: nat {:trigger Aligned(w, a)} :: Chunk(w, a) ==> !Aligned(w, a) }

  predicate EmptySib(s: Sib) { s.firstFree <= s.start && s.firstFree <= s.seniorEnd }

  /** There are no chunks at all, and no word of any sib is in use. */
  ghost predicate Vacant(w: Flip) {
    && (forall a: nat {:trigger Chunk(w, a)} :: !Chunk(w, a))
    && (forall i {:trigger w.sibs[i]} :: 0 <= i < |w.sibs| ==> EmptySib(w.sibs[i]))
  }

  ghost predicate GrantsApart(bases: seq<nat>, grants: seq<nat>, others: seq<nat>, sizes: seq<nat>) {
    forall a, c, x {:trigger InWords(bases, grants, a, x), InWords(others, sizes, c, x)} ::
      InWords(bases, grants, a, x) ==> !InWords(others, sizes, c, x)
  }

  /** What is bound for a sib is bound for it with some chunk. */
  lemma IncomingChunk(f: Flip, i: int, x: int) returns (a: int)
    requires WellFormed(f) && IsIncoming(f, i, x)
    ensures Chunk(f, a)
  {
    assert ZoneOk(f, x);
    a := if x >= 0 then f.zone[x].chunk else -1 - x;
  }

  /** A clean that makes r of w brings in neither gaps nor chunks, and uses up no memory but what it is granted. */
  ghost predicate Spares(w: Flip, r: Flip, bases: seq<nat>, grants: seq<nat>) {
    && (Unpadded(w) ==> Unpadded(r)) && (Vacant(w) ==> Vacant(r))
    && forall others: seq<nat>, sizes: seq<nat> {:trigger GrantsFresh(r, others, sizes)} ::
         GrantsFresh(w, others, sizes) && GrantsApart(bases, grants, others, sizes) ==> GrantsFresh(r, others, sizes)
  }

  lemma SparesKinds(w: Flip, r: Flip, bases: seq<nat>, grants: seq<nat>)
    requires Spares(w, r, bases, grants)
    ensures (Unpadded(w) ==> Unpadded(r)) && (Vacant(w) ==> Vacant(r))
  {
  }

  lemma SparesNothing(w: Flip, r: Flip, bases: seq<nat>, grants: seq<nat>)
    requires Spares(w, r, [], [])
    ensures Spares(w, r, bases, grants)
  {
    forall others: seq<nat>, sizes: seq<nat> | GrantsFresh(w, others, sizes) ensures GrantsFresh(r, others, sizes) {
      assert GrantsApart([], [], others, sizes);
    }
  }

  lemma SparesBoth(w: Flip, u: Flip, r: Flip, bases: seq<nat>, grants: seq<nat>)
    requires Spares(w, u, [], []) && Spares(u, r, bases, grants)
    ensures Spares(w, r, bases, grants)
  {
    forall others: seq<nat>, sizes: seq<nat> | GrantsFresh(w, others, sizes) && GrantsApart(bases, grants, others,
        sizes)
      ensures GrantsFresh(r, others, sizes)
    {
      assert GrantsApart([], [], others, sizes);
      assert GrantsFresh(u, others, sizes);
    }
  }

  /** Whatever may be copied into a pointer sib, or into any sib if there are no gaps, comes from there. */
  lemma IncomingArrives(w: Flip, k: nat, requested: seq<nat>, nursery: nat, bases: seq<nat>, grants: seq<nat>, n: After,
      i: nat, x: int)
    requires Relabel(w, k, bases, grants, n) && SibsFlipped(w, k, requested, nursery, bases, grants, n)
    requires i < |w.sibs| && (i % 4 != NONPTR_DATA_SIB || Unpadded(w)) && x in Incoming(Flips(w, k, n), i)
    ensures x in Arrivals(w, k, i)
  {
    var f := Flips(w, k, n);
    var a := if x >= 0 then f.zone[x].chunk else -1 - x;
    if x >= 0 { FlipZones(w, k, bases, grants, n, x); }
    ChunkKept(w, k, bases, grants, n, a);
    DestKept(w, k, requested, nursery, bases, grants, n, a);
    assert HomeOk(w, a);
    var h := SibIndex(AgeAt(w, a), KindAt(w, a));
    assert SibRests(w, h);
  }

  /** Every to-space of a pointer sib, or of any sib if there are no gaps, is at least as large as all that may
      arrive in it. */
  lemma FlipHasRoom(w: Flip, k: nat, requested: seq<nat>, nursery: nat, bases: seq<nat>, grants: seq<nat>, n: After,
      i: nat)
    requires Relabel(w, k, bases, grants, n) && SibsFlipped(w, k, requested, nursery, bases, grants, n)
    requires k < w.k ==> Absorbs(w.sibs, k)
    requires i < |w.sibs| && (i % 4 != NONPTR_DATA_SIB || Unpadded(w))
    ensures RoomIn(Flips(w, k, n), i)
  {
    var f := Flips(w, k, n);
    forall x | x in Incoming(f, i) ensures x in Arrivals(w, k, i) {
      IncomingArrives(w, k, requested, nursery, bases, grants, n, i, x);
    }
    SubsetSize(Incoming(f, i), Arrivals(w, k, i));
    ArrivalsSize(w, k, i);
    assert SibRests(w, i) && SibOk(w, i) && (i >= 4 ==> SibRests(w, i - 4));
    if i < 4 * k {
      assert Flipped(w.sibs, n.sibs, requested, nursery, i, bases[i / 4], grants[i / 4]);
    }
  }

  lemma ArrivalsSize(w: Flip, k: nat, i: nat)
    requires i < |w.sibs| && forall j {:trigger SibRests(w, j)} :: SibRests(w, j)
    ensures |Arrivals(w, k, i)| <= (if i < 4 * k then Juniors(w.sibs[i]) else 0) + if 4 <= i < 4 * k + 4
        then Seniors(w.sibs[i - 4]) else 0
  {
    assert SibRests(w, i) && (i >= 4 ==> SibRests(w, i - 4));
    RunSize(w.sibs[i].seniorEnd, w.sibs[i].firstFree);
    if i >= 4 { RunSize(w.sibs[i - 4].start, w.sibs[i - 4].seniorEnd); }
  }

  // ------------------------------------------------------------------ ready to clean

  lemma FlippingParts(w: Flip, k: nat, roots: seq<nat>, lists: seq<seq<nat>>, quireList: seq<nat>, requested: seq<nat>,
      nursery: nat,
                      bases: seq<nat>, grants: seq<nat>, n: After)
    requires Flipping(w, k, roots, lists, quireList, requested, nursery, bases, grants, n)
    ensures Relabel(w, k, bases, grants, n) && SibsFlipped(w, k, requested, nursery, bases, grants, n)
    ensures forall y {:trigger y in w.ext} :: y in w.ext ==> 0 <= y < |w.zone| && w.zone[y].Fixed?
  {
    forall i | 0 <= i < |n.sibs| ensures
      if i < 4 * k then Flipped(w.sibs, n.sibs, requested, nursery, i, bases[i / 4], grants[i / 4])
          else n.sibs[i] == w.sibs[i] {
      assert i < 4 * k ==> SibPlaced(n.sibs[i], bases[i / 4], grants[i / 4]);
    }
    forall y | y in w.ext ensures 0 <= y < |w.zone| && w.zone[y].Fixed? {
      var j :| 0 <= j < |roots| && roots[j] == y;
      assert RootOk(w, roots[j]);
    }
  }

  /** Data buffers need room for alignment gaps as well, whose number depends on the order of copying. */
  ghost predicate DataHasRoom(f: Flip) { forall i {:trigger RoomIn(f, i)} :: i % 4 == NONPTR_DATA_SIB ==> RoomIn(f, i) }

  lemma FlipCardMaps(w: Flip, k: nat, roots: seq<nat>, lists: seq<seq<nat>>, quireList: seq<nat>, requested: seq<nat>,
      nursery: nat,
                     bases: seq<nat>, grants: seq<nat>, n: After, i: int)
    requires Flipping(w, k, roots, lists, quireList, requested, nursery, bases, grants, n)
    ensures MapOk(Flips(w, k, n), n.cards, i)
  {
    assert MapOk(w, w.cards, i);
    if 0 <= i < |n.sibs| && i % 4 == RW_POINTERS_SIB && Active(n.sibs[i]) {
      assert n.sibs[4 * (i / 4) + 3] == n.sibs[i];
      if i < 4 * k {
        assert Flipped(w.sibs, n.sibs, requested, nursery, i, bases[i / 4], grants[i / 4]) &&
            FreshMap(n.sibs[i], n.cards[i / 4]);
        FreshMapFits(n.sibs[i], n.cards[i / 4]);
      }
    }
  }

  lemma FreshMapFits(s: Sib, cm: CardMap)
    requires s.start % BOOK == 0 && s.limit % BOOK == 0 && s.start <= s.limit && FreshMap(s, cm)
    ensures cm.base == s.start && cm.base % CARD == 0 && s.limit <= cm.base + CARD * |cm.minAge|
  {
    BookIsCards(s.start);
    BookIsCards(s.limit);
  }

  lemma BookIsCards(x: nat)
    requires x % BOOK == 0
    ensures x % CARD == 0
  {
    assert x == x / BOOK * 256 * CARD;
  }

  lemma FlipCardReady(w: Flip, k: nat, roots: seq<nat>, lists: seq<seq<nat>>, quireList: seq<nat>, requested: seq<nat>,
      nursery: nat,
                      bases: seq<nat>, grants: seq<nat>, n: After)
    requires Flipping(w, k, roots, lists, quireList, requested, nursery, bases, grants, n)
    ensures CardReady(Flips(w, k, n), n.cards)
  {
    FlippingParts(w, k, roots, lists, quireList, requested, nursery, bases, grants, n);
    var f := Flips(w, k, n);
    forall i, x ensures AreaLabelOk(f, i, x) {
      if 0 <= i < |f.sibs| { FlipSibs(w, k, requested, nursery, bases, grants, n, i); }
    }
    forall x ensures LabelOk(f, x) { FlipTargets(w, k, bases, grants, n, x); }
    forall i ensures MapOk(f, n.cards, i) { FlipCardMaps(w, k, roots, lists, quireList, requested, nursery, bases,
        grants, n, i); }
    forall a ensures DestOk(f, a) {
      if a >= 0 && Chunk(f, a) { FlipDest(w, k, roots, lists, quireList, requested, nursery, bases, grants, n, a); }
    }
  }

  lemma FlipDest(w: Flip, k: nat, roots: seq<nat>, lists: seq<seq<nat>>, quireList: seq<nat>, requested: seq<nat>,
      nursery: nat,
                 bases: seq<nat>, grants: seq<nat>, n: After, a: nat)
    requires Flipping(w, k, roots, lists, quireList, requested, nursery, bases, grants, n) && Chunk(Flips(w, k, n), a)
    ensures Dest(Flips(w, k, n), a) < 4 * MaxSwept(k, w.k) <= 4 * (k + 1) && 1 <= AgeAt(Flips(w, k, n), a)
  {
    FlippingParts(w, k, roots, lists, quireList, requested, nursery, bases, grants, n);
    ChunkKept(w, k, bases, grants, n, a);
    DestKept(w, k, requested, nursery, bases, grants, n, a);
  }

  /** Words outside from-space are roots, lie in uncleaned mutable chunks, or refer to nothing being cleaned. */
  lemma FlipExt(w: Flip, k: nat, roots: seq<nat>, lists: seq<seq<nat>>, quireList: seq<nat>, requested: seq<nat>,
      nursery: nat,
                bases: seq<nat>, grants: seq<nat>, n: After, x: int)
    requires Flipping(w, k, roots, lists, quireList, requested, nursery, bases, grants, n)
    ensures ExtWordOk(Flips(w, k, n), roots, x)
  {
    FlippingParts(w, k, roots, lists, quireList, requested, nursery, bases, grants, n);
    var f := Flips(w, k, n);
    if x in f.ext && x !in w.ext {
      var a := w.zone[x].chunk;
      assert ZoneOk(w, x) && HomeOk(w, a);
      ChunkKept(w, k, bases, grants, n, a);
      if Slot(w, a) == RW_POINTERS_SIB {
        var i := SibIndex(AgeAt(w, a), KindAt(w, a));
        assert SibRests(w, i) && UncleanedWord(f, i, x);
      } else {
        OlderImmutable(w, k, roots, lists, quireList, requested, nursery, bases, grants, n, x);
      }
    } else if x in w.ext {
      RootOf(w, roots, lists, quireList, x);
      FlipRoot(w, k, requested, nursery, bases, grants, n, x);
    }
  }

  /** A root location is still one: no new to-space has been put around it. */
  lemma FlipRoot(w: Flip, k: nat, requested: seq<nat>, nursery: nat, bases: seq<nat>, grants: seq<nat>, n: After,
      x: nat)
    requires Relabel(w, k, bases, grants, n) && SibsFlipped(w, k, requested, nursery, bases, grants, n) && x in w.ext &&
        RootOk(w, x)
    ensures RootOk(Flips(w, k, n), x)
  {
    var f := Flips(w, k, n);
    forall i ensures !InBuffer(f, i, x) {
      if 0 <= i < |f.sibs| {
        assert !InBuffer(w, i, x);
        if i < 4 * k {
          assert Flipped(w.sibs, n.sibs, requested, nursery, i, bases[i / 4], grants[i / 4]);
          assert !InWords(bases, grants, i / 4, x);
        }
      }
    }
    assert f.zone[x].New? ==> InBuffer(f, f.zone[x].sib, x) by {
      if f.zone[x].New? { FlipSibs(w, k, requested, nursery, bases, grants, n, f.zone[x].sib); }
    }
  }

  lemma OlderImmutable(w: Flip, k: nat, roots: seq<nat>, lists: seq<seq<nat>>, quireList: seq<nat>, requested: seq<nat>,
      nursery: nat,
                       bases: seq<nat>, grants: seq<nat>, n: After, x: int)
    requires Flipping(w, k, roots, lists, quireList, requested, nursery, bases, grants, n)
    requires OlderPart(w, k, x) && Slot(w, w.zone[x].chunk) != RW_POINTERS_SIB
    ensures OlderWord(Flips(w, k, n), n.m[x])
  {
    FlippingParts(w, k, roots, lists, quireList, requested, nursery, bases, grants, n);
    var f := Flips(w, k, n);
    var a := w.zone[x].chunk;
    assert ZoneOk(w, x) && HomeOk(w, a) && OrderedWord(w, x) && TargetOk(w, x) && LabelOk(w, x) && ScanWord(w, x);
    ChunkKept(w, k, bases, grants, n, a);
    WordKeptIn(w, k, bases, grants, n, a, x);
    FlipTargets(w, k, bases, grants, n, x);
    assert CodeLives(w, x);
    if w.mem[x].Pointer? && Chunk(w, w.mem[x].addr) { ChunkKept(w, k, bases, grants, n, w.mem[x].addr); }
  }

  lemma RootOf(w: Flip, roots: seq<nat>, lists: seq<seq<nat>>, quireList: seq<nat>, x: int)
    requires AtRest(w, roots, lists, quireList) && x in w.ext
    ensures x in roots && RootOk(w, x)
  {
    var j :| 0 <= j < |roots| && roots[j] == x;
  }

  lemma FlipRoots(w: Flip, k: nat, roots: seq<nat>, lists: seq<seq<nat>>, quireList: seq<nat>, requested: seq<nat>,
      nursery: nat,
                  bases: seq<nat>, grants: seq<nat>, n: After)
    requires Flipping(w, k, roots, lists, quireList, requested, nursery, bases, grants, n)
    ensures RootsOk(Flips(w, k, n), {}, roots)
  {
    FlippingParts(w, k, roots, lists, quireList, requested, nursery, bases, grants, n);
    forall j | 0 <= j < |roots| ensures RootOk(Flips(w, k, n), roots[j]) {
      assert roots[j] in roots;
      FlipRoot(w, k, requested, nursery, bases, grants, n, roots[j]);
    }
  }

  /** The mutable words of uncleaned agegroups, and their cards, are as they were. */
  lemma FlipUncleaned(w: Flip, k: nat, roots: seq<nat>, lists: seq<seq<nat>>, quireList: seq<nat>, requested: seq<nat>,
      nursery: nat,
                      bases: seq<nat>, grants: seq<nat>, n: After, i: int, x: int)
    requires Flipping(w, k, roots, lists, quireList, requested, nursery, bases, grants, n)
    ensures UncleanedOk(Flips(w, k, n), i, x) && FlipCardOk(Flips(w, k, n), i, x)
  {
    FlippingParts(w, k, roots, lists, quireList, requested, nursery, bases, grants, n);
    var f := Flips(w, k, n);
    if UncleanedWord(f, i, x) {
      assert UsedOk(w, i, x) && ZoneOk(w, x) && CardCovers(w, i, x) && SibOk(w, i);
      var a := w.zone[x].chunk;
      assert HomeOk(w, a) && SibRests(w, i);
      InOldBuffer(w, k, bases, grants, n, i, x);
      OldWordLabel(w, k, bases, grants, n, a, x);
      ChunkKept(w, k, bases, grants, n, a);
      OldWordKind(w, a, x, i);
      FlipTargets(w, k, bases, grants, n, x);
      assert n.cards[i / 4] == w.cards[i / 4];
    }
  }

  /** The chunk a word of a sib belongs to is at home in that sib. */
  lemma OldWordKind(w: Flip, a: int, x: int, i: int)
    requires WellFormed(w) && CardReady(w, w.cards) && HomeOk(w, a) && Chunk(w, a) && InBuffer(w, i, x) &&
        a - OldHeader(w, a) <= x < a + Length(w, a)
    ensures SibIndex(AgeAt(w, a), KindAt(w, a)) == i && Slot(w, a) == i % 4
  {
    var h := SibIndex(AgeAt(w, a), KindAt(w, a));
    assert SibOk(w, h) && AreaLabelOk(w, h, x) && AreaLabelOk(w, i, x) && ChunkOk(w, a);
  }

  /** Flipping a heap at rest gives a heap that a major clean can start from. */
  lemma FlipIsReady(w: Flip, k: nat, roots: seq<nat>, lists: seq<seq<nat>>, quireList: seq<nat>, requested: seq<nat>,
      nursery: nat,
                    bases: seq<nat>, grants: seq<nat>, n: After)
    requires Flipping(w, k, roots, lists, quireList, requested, nursery, bases, grants, n)
    requires DataHasRoom(Flips(w, k, n))
    ensures MajorReady(Flips(w, k, n), roots, w.k)
  {
    FlippingParts(w, k, roots, lists, quireList, requested, nursery, bases, grants, n);
    var f := Flips(w, k, n);
    FlipIsWellFormed(w, k, requested, nursery, bases, grants, n);
    forall i ensures RoomIn(f, i) {
      if 0 <= i < |f.sibs| && i % 4 != NONPTR_DATA_SIB { FlipHasRoom(w, k, requested, nursery, bases, grants, n, i); }
    }
    FlipCardReady(w, k, roots, lists, quireList, requested, nursery, bases, grants, n);
    FlipRoots(w, k, roots, lists, quireList, requested, nursery, bases, grants, n);
    forall i, x ensures UncleanedOk(f, i, x) && FlipCardOk(f, i, x) {
      FlipUncleaned(w, k, roots, lists, quireList, requested, nursery, bases, grants, n, i, x);
    }
    forall i ensures SweepStart(f, i) && EmptyToSpace(f, i) {
      assert SweepStart(w, i);
      if 0 <= i < 4 * k { assert Flipped(w.sibs, n.sibs, requested, nursery, i, bases[i / 4], grants[i / 4]); }
    }
    forall x ensures ExtWordOk(f, roots, x) { FlipExt(w, k, roots, lists, quireList, requested, nursery, bases, grants,
        n, x); }
    forall a: int ensures DestSwept(f, MaxSwept(f.k, w.k), a) && (a >= 0 && Chunk(f, a) ==> AgeAt(f, a) >= 1) {
      if a >= 0 && Chunk(f, a) { FlipDest(w, k, roots, lists, quireList, requested, nursery, bases, grants, n, a); }
    }
  }
}
