/** The card maps during a major clean: what a card promises, and the sweep that keeps the promise for
    words copied into RW_POINTERS sibs (coarse-inter-agegroup-pointers-map.h, heapclean-n-agegroups.c). */
module MajorCards {
  import opened HeapTags
  import opened HeapModel
  import opened Forwarding
  import opened HeapObject
  import opened MajorForward
  import opened MajorSweep

  /** The age of what an address points to: that of its book, or of the very hugechunk for code. */
  function PointeeAge(f: Flip, addr: nat): nat {
    var d := HugeAt(f.b2s, f.quires, addr);
    if KindAt(f, addr) == CODE_KIND && 0 <= d < |f.huge| then f.huge[d].age else AgeAt(f, addr)
  }

  predicate InMap(cm: CardMap, x: int) { cm.base <= x && (x - cm.base) / CARD < |cm.minAge| }

  function CardOf(cm: CardMap, x: int): int { (x - cm.base) / CARD }

  /** If w is a pointer into an agegroup younger than g, the card of word x admits pointees that young. */
  predicate Covers(f: Flip, cm: CardMap, g: nat, x: int, w: Word) {
    w.Pointer? && PointeeAge(f, w.addr) < g ==> InMap(cm, x) && cm.minAge[CardOf(cm, x)] <= PointeeAge(f, w.addr)
  }

  /** A pointer into an agegroup being cleaned. */
  predicate FromWord(f: Flip, w: Word) { w.Pointer? && AgeAt(f, w.addr) <= f.k }

  /** The age of what w refers to once cleaning has moved it. */
  function AgeAfter(f: Flip, w: Word): int {
    if !w.Pointer? then -1 else if Chunk(f, w.addr) then SibAge(if Dest(f, w.addr) < 0 then 0 else Dest(f, w.addr))
        else PointeeAge(f, w.addr)
  }

  predicate FromAt(f: Flip, lo: int, q: int, x: int) { lo <= x < q && 0 <= x < |f.mem| && FromWord(f, f.mem[x]) }

  predicate YoungOther(f: Flip, g: nat, lo: int, q: int, y: int) {
    lo <= y < q && 0 <= y < |f.mem| && f.mem[y].Pointer? && !FromWord(f, f.mem[y]) && PointeeAge(f, f.mem[y].addr) < g
  }

  /** The words [lo, q) of a card of agegroup g are at risk: some refer to agegroups being cleaned, and
      all of those lead to places older than another younger referent, which only old code in a
      quire with a young label can be. */
  ghost predicate AtRisk(f: Flip, g: nat, lo: int, q: int) {
    SomeYoungFrom(f, g, lo, q) && exists y {:trigger YoungOther(f, g, lo, q, y)} ::
        YoungOther(f, g, lo, q, y) && AllFromOlder(f, lo, q, y)
  }

  ghost predicate SomeYoungFrom(f: Flip, g: nat, lo: int, q: int) {
    exists x {:trigger FromAt(f, lo, q, x)} :: FromAt(f, lo, q, x) && AgeAfter(f, f.mem[x]) < g
  }

  ghost predicate AllFromOlder(f: Flip, lo: int, q: int, y: int) {
    0 <= y < |f.mem| && f.mem[y].Pointer? &&
    forall x {:trigger FromAt(f, lo, q, x)} :: FromAt(f, lo, q, x) ==>
        AgeAfter(f, f.mem[x]) > PointeeAge(f, f.mem[y].addr)
  }

  function CardStart(f: Flip, i: nat, d: nat): nat {
    if i / 4 < |f.cards| then f.cards[i / 4].base + d * CARD else 0
  }

  function CardEnd(f: Flip, i: nat, d: nat): nat
    requires i < |f.sibs|
  {
    if CardStart(f, i, d) + CARD > f.sibs[i].firstFree then f.sibs[i].firstFree else CardStart(f, i, d) + CARD
  }

  /** Card d of sib i was dirty when cleaning began, and is at risk. */
  ghost predicate Risky(f: Flip, i: nat, d: int) {
    i < |f.sibs| && i / 4 < |f.cards| && 0 <= d < |f.cards[i / 4].minAge| && f.cards[i / 4].minAge[d] <= f.k
    && AtRisk(f, SibAge(i), CardStart(f, i, d), CardEnd(f, i, d))
  }

  ghost predicate OnRiskyCard(f: Flip, i: nat, x: int) { i / 4 < |f.cards| && Risky(f, i, CardOf(f.cards[i / 4], x)) }

  /** A word of an RW_POINTERS sib that the cards must account for: one that was there before cleaning
      and is on no card at risk, or one copied and swept.  Words of chained weakrefs are excepted. */
  ghost predicate Carded(f: Flip, c: Copy, i: int, x: int) {
    0 <= i < |f.sibs| && i % 4 == RW_POINTERS_SIB && 0 <= x < |f.zone| &&
    if x < f.sibs[i].firstFree then f.sibs[i].start <= x && f.zone[x].Fixed? && !OnRiskyCard(f, i, x)
    else x < f.sibs[i].limit && x in c.seen && !Link(f, c.org, c.chain, x) && f.zone[x] == New(i)
  }

  ghost predicate CardOk(f: Flip, m: seq<Word>, cards: seq<CardMap>, c: Copy, i: int, x: int) {
    Carded(f, c, i, x) && x < |m| ==> i / 4 < |cards| && Covers(f, cards[i / 4], SibAge(i), x, m[x])
  }

  /** Every accounted-for word is covered, but for those of sib i in [lo, hi). */
  ghost predicate CardsBut(f: Flip, m: seq<Word>, cards: seq<CardMap>, c: Copy, i: int, lo: int, hi: int) {
    forall j, x {:trigger CardOk(f, m, cards, c, j, x)} :: !(j == i && lo <= x < hi) ==> CardOk(f, m, cards, c, j, x)
  }

  // What the geometry and the labels of the heap must be for the sweep below.
  predicate AreaLabelOk(f: Flip, i: int, x: int) {
    0 <= i < |f.sibs| && f.sibs[i].start <= x < f.sibs[i].limit && 0 <= x ==>
        && AgeAt(f, x) == SibAge(i)
        && KindAt(f, x) == SibSlot(i) + 1
  }

  /** A quire is labelled with an age no greater than that of any live chunk in it. */
  predicate LabelOk(f: Flip, x: int) {
    ScanWord(f, x) && f.mem[x].Pointer? && KindAt(f, f.mem[x].addr) == CODE_KIND
    ==> Code(f, f.mem[x].addr) && AgeAt(f, f.mem[x].addr) <= PointeeAge(f, f.mem[x].addr)
  }

  predicate MapOk(f: Flip, cards: seq<CardMap>, i: int) {
    0 <= i < |f.sibs| && i % 4 == RW_POINTERS_SIB && Active(f.sibs[i]) ==>
      i / 4 < |cards| &&
      var cm := cards[i / 4];
      i / 4 < |f.cards| && cm.base == f.cards[i / 4].base && |cm.minAge| == |f.cards[i / 4].minAge| &&
      cm.base == f.sibs[i].start && cm.base % CARD == 0 && f.sibs[i].limit <= cm.base + CARD * |cm.minAge|
  }

  predicate DestOk(f: Flip, a: int) { a >= 0 && Chunk(f, a) ==> Dest(f, a) < 4 * (f.k + 1) }

  ghost predicate CardReady(f: Flip, cards: seq<CardMap>) {
    && (forall i, x {:trigger AreaLabelOk(f, i, x)} :: AreaLabelOk(f, i, x))
    && (forall x {:trigger LabelOk(f, x)} :: LabelOk(f, x))
    && (forall i {:trigger MapOk(f, cards, i)} :: MapOk(f, cards, i))
    && (forall a {:trigger DestOk(f, a)} :: DestOk(f, a))
  }

  // ------------------------------------------------------------------ words do not change behind us

  /** A word that was accounted for and is not being visited keeps its value through a visit. */
  lemma StableWord(f: Flip, m: seq<Word>, ff: seq<nat>, weakrefs: nat, c: Copy,
                   m': seq<Word>, ff': seq<nat>, weakrefs': nat, c': Copy, i: int, x: int)
    requires Inv(f, m, ff, weakrefs, c) && Inv(f, m', ff', weakrefs', c') && Extends(f, c, c')
    requires Carded(f, c', i, x) && (x in c'.seen ==> x in c.seen)
    ensures Carded(f, c, i, x) && m'[x] == m[x]
  {
    assert OriginKept(f, c, c', x);
    if f.zone[x].Fixed? {
      assert FixedOk(f, m, c.fwd, c.seen, x) && FixedOk(f, m', c'.fwd, c'.seen, x);
    } else {
      assert Visitable(f, c.org, x);
      assert ContentOk(f, m, c, x) && ContentOk(f, m', c', x);
    }
  }

  /** Visiting word p of sib i leaves every other word covered. */
  lemma CardsCarried(f: Flip, m: seq<Word>, ff: seq<nat>, weakrefs: nat, c: Copy,
                     m': seq<Word>, ff': seq<nat>, weakrefs': nat, c': Copy, cards: seq<CardMap>, i: int, lo: int,
                         p: int)
    requires Inv(f, m, ff, weakrefs, c) && Inv(f, m', ff', weakrefs', c') && Extends(f, c, c') &&
        c'.seen == c.seen + {p}
    requires CardsBut(f, m, cards, c, i, lo, p) && lo <= p
    requires forall j :: j != i ==> !Carded(f, c', j, p)
    ensures CardsBut(f, m', cards, c', i, lo, p + 1)
  {
    var hi := p + 1;
    forall j, x ensures !(j == i && lo <= x < hi) ==> CardOk(f, m', cards, c', j, x) {
      if !(j == i && lo <= x < hi) && Carded(f, c', j, x) {
        StableWord(f, m, ff, weakrefs, c, m', ff', weakrefs', c', j, x);
        assert CardOk(f, m, cards, c, j, x);
      }
    }
  }

  /** mark is at most the age of any younger pointee of the words of sib i in [lo, hi). */
  ghost predicate MarkWord(f: Flip, m: seq<Word>, c: Copy, i: int, mark: nat, x: int) {
    0 <= i && 0 <= x < |m| && Carded(f, c, i, x) && m[x].Pointer? && PointeeAge(f, m[x].addr) < SibAge(i) ==>
        mark <= PointeeAge(f, m[x].addr)
  }

  ghost predicate MarkOk(f: Flip, m: seq<Word>, c: Copy, i: int, lo: int, hi: int, mark: nat) {
    forall x {:trigger MarkWord(f, m, c, i, mark, x)} :: lo <= x < hi ==> MarkWord(f, m, c, i, mark, x)
  }

  lemma MarkCarried(f: Flip, m: seq<Word>, ff: seq<nat>, weakrefs: nat, c: Copy,
                    m': seq<Word>, ff': seq<nat>, weakrefs': nat, c': Copy, i: int, lo: int, p: int, mark: nat,
                        mark': nat)
    requires Inv(f, m, ff, weakrefs, c) && Inv(f, m', ff', weakrefs', c') && Extends(f, c, c') &&
        c'.seen == c.seen + {p}
    requires MarkOk(f, m, c, i, lo, p, mark) && mark' <= mark && MarkWord(f, m', c', i, mark', p)
    ensures MarkOk(f, m', c', i, lo, p + 1, mark')
  {
    forall x | lo <= x < p + 1 ensures MarkWord(f, m', c', i, mark', x) {
      if x < p && Carded(f, c', i, x) {
        StableWord(f, m, ff, weakrefs, c, m', ff', weakrefs', c', i, x);
        assert MarkWord(f, m, c, i, mark, x);
      }
    }
  }

  /** Lowering one card to the mark of its words covers them. */
  lemma CardLowered(f: Flip, m: seq<Word>, cards: seq<CardMap>, c: Copy, i: int, lo: int, hi: int, mark: nat, d: int,
      cards': seq<CardMap>)
    requires 0 <= i < |f.sibs| && i % 4 == RW_POINTERS_SIB && i / 4 < |cards|
    requires CardsBut(f, m, cards, c, i, lo, hi) && MarkOk(f, m, c, i, lo, hi, mark)
    requires var cm := cards[i / 4];
      && 0 <= d < |cm.minAge| && cm.base <= lo && (forall x :: lo <= x < hi ==> CardOf(cm, x) == d)
      && cards' == if mark < SibAge(i) && mark < cm.minAge[d] then cards[i / 4 := cm.(minAge := cm.minAge[d := mark])]
          else cards
    ensures CardsBut(f, m, cards', c, -1, 0, 0)
  {
    var n := -1;
    forall j, x ensures !(j == n && 0 <= x < 0) ==> CardOk(f, m, cards', c, j, x) {
      if j == i && lo <= x < hi {
        assert MarkWord(f, m, c, i, mark, x);
      } else {
        assert CardOk(f, m, cards, c, j, x);
      }
    }
  }

  // ------------------------------------------------------------------ no card is marked without a cause

  /** x is a swept word of sib i that refers to something of that age. */
  predicate RefersToAge(f: Flip, m: seq<Word>, c: Copy, i: int, x: int, age: nat) {
    x in c.seen && 0 <= x < |m| && |m| == |f.zone| && f.zone[x] == New(i) && m[x].Pointer? &&
        PointeeAge(f, m[x].addr) == age
  }

  /** The mark of card d is the age of what a word on the card refers to. */
  ghost predicate Caused(f: Flip, m: seq<Word>, cm: CardMap, c: Copy, i: int, d: int) {
    0 <= d < |cm.minAge| && exists x {:trigger RefersToAge(f, m, c, i, x, cm.minAge[d])} ::
      InMap(cm, x) && CardOf(cm, x) == d && RefersToAge(f, m, c, i, x, cm.minAge[d])
  }

  ghost predicate MarkCaused(f: Flip, m: seq<Word>, base: CardMap, cm: CardMap, c: Copy, i: int, d: int) {
    0 <= d < |base.minAge| && |cm.minAge| == |base.minAge| && cm.base == base.base &&
        (cm.minAge[d] == base.minAge[d] || Caused(f, m, cm, c, i, d))
  }

  predicate SameShape(base: seq<CardMap>, cards: seq<CardMap>, n: int) {
    0 <= n < |base| == |cards| ==> cards[n].base == base[n].base && |cards[n].minAge| == |base[n].minAge|
  }

  /** Every mark that is not as it was has a cause. */
  ghost predicate MarksCaused(f: Flip, m: seq<Word>, base: seq<CardMap>, cards: seq<CardMap>, c: Copy) {
    && |base| == |cards| && (forall n {:trigger SameShape(base, cards, n)} :: SameShape(base, cards, n))
    && forall i: nat, d {:trigger MarkCaused(f, m, base[i / 4], cards[i / 4], c, i, d)} ::
      i % 4 == RW_POINTERS_SIB && i / 4 < |cards| && 0 <= d < |base[i / 4].minAge| ==>
        MarkCaused(f, m, base[i / 4], cards[i / 4], c, i, d)
  }

  lemma MarksAsBefore(f: Flip, m: seq<Word>, cards: seq<CardMap>, c: Copy)
    ensures MarksCaused(f, m, cards, cards, c)
  {
  }

  /** What a swept word refers to stays. */
  lemma ReferenceStays(f: Flip, m: seq<Word>, ff: seq<nat>, weakrefs: nat, c: Copy, m': seq<Word>, ff': seq<nat>,
      weakrefs': nat, c': Copy, i: int, x: int, age: nat)
    requires Inv(f, m, ff, weakrefs, c) && Inv(f, m', ff', weakrefs', c') && Extends(f, c, c')
    requires RefersToAge(f, m, c, i, x, age)
    ensures RefersToAge(f, m', c', i, x, age)
  {
    assert OriginKept(f, c, c', x) && Visitable(f, c.org, x);
    if Link(f, c.org, c.chain, x) { LinkIsNoPointer(f, m, ff, weakrefs, c, x); }
    assert ContentOk(f, m, c, x) && ContentOk(f, m', c', x);
  }

  lemma CauseStays(f: Flip, m: seq<Word>, ff: seq<nat>, weakrefs: nat, c: Copy, m': seq<Word>, ff': seq<nat>,
      weakrefs': nat, c': Copy, cm: CardMap, cm': CardMap, i: int, d: int)
    requires Inv(f, m, ff, weakrefs, c) && Inv(f, m', ff', weakrefs', c') && Extends(f, c, c')
    requires Caused(f, m, cm, c, i, d) && cm'.base == cm.base && |cm'.minAge| == |cm.minAge|
    requires cm'.minAge[d] == cm.minAge[d]
    ensures Caused(f, m', cm', c', i, d)
  {
    hide Inv, Extends, RefersToAge;
    var x :| InMap(cm, x) && CardOf(cm, x) == d && RefersToAge(f, m, c, i, x, cm.minAge[d]);
    ReferenceStays(f, m, ff, weakrefs, c, m', ff', weakrefs', c', i, x, cm.minAge[d]);
  }

  /** Sweeping on adds causes and takes none away. */
  lemma MarksCompose(f: Flip, m: seq<Word>, ff: seq<nat>, weakrefs: nat, c: Copy, m': seq<Word>, ff': seq<nat>,
      weakrefs': nat, c': Copy, base: seq<CardMap>, cards: seq<CardMap>, cards': seq<CardMap>)
    requires Inv(f, m, ff, weakrefs, c) && Inv(f, m', ff', weakrefs', c') && Extends(f, c, c')
    requires MarksCaused(f, m, base, cards, c) && MarksCaused(f, m', cards, cards', c')
    ensures MarksCaused(f, m', base, cards', c')
  {
    hide Inv, Extends, Caused;
    forall n ensures SameShape(base, cards', n) {
      assert SameShape(base, cards, n) && SameShape(cards, cards', n);
    }
    forall i: nat, d | i % 4 == RW_POINTERS_SIB && i / 4 < |cards| && 0 <= d < |base[i / 4].minAge|
      ensures MarkCaused(f, m', base[i / 4], cards'[i / 4], c', i, d)
    {
      var b, cm, cm' := base[i / 4], cards[i / 4], cards'[i / 4];
      assert MarkCaused(f, m, b, cm, c, i, d) && MarkCaused(f, m', cm, cm', c', i, d);
      if cm'.minAge[d] == cm.minAge[d] && Caused(f, m, cm, c, i, d) {
        CauseStays(f, m, ff, weakrefs, c, m', ff', weakrefs', c', cm, cm', i, d);
      }
    }
  }

  /** One mark is lowered for a word on its card. */
  lemma OneMarkCaused(f: Flip, m: seq<Word>, c: Copy, cards: seq<CardMap>, cards': seq<CardMap>, i: nat, d: nat,
      mark: nat, x: int)
    requires i % 4 == RW_POINTERS_SIB && i / 4 < |cards| && d < |cards[i / 4].minAge|
    requires cards' == cards[i / 4 := cards[i / 4].(minAge := cards[i / 4].minAge[d := mark])]
    requires InMap(cards[i / 4], x) && CardOf(cards[i / 4], x) == d && RefersToAge(f, m, c, i, x, mark)
    ensures MarksCaused(f, m, cards, cards', c)
  {
    hide RefersToAge;
    forall j: nat, e | j % 4 == RW_POINTERS_SIB && j / 4 < |cards| && 0 <= e < |cards[j / 4].minAge|
      ensures MarkCaused(f, m, cards[j / 4], cards'[j / 4], c, j, e)
    {
      if j / 4 == i / 4 {
        assert j == i;
        var cm' := cards'[i / 4];
        assert e == d ==> InMap(cm', x) && CardOf(cm', x) == d && RefersToAge(f, m, c, i, x, cm'.minAge[d]);
      }
    }
  }

  // ------------------------------------------------------------------ one word of an RW_POINTERS sib

  /** The age of a copy is that of the sib it was copied to. */
  lemma CopyAge(f: Flip, m: seq<Word>, ff: seq<nat>, weakrefs: nat, c: Copy, cards: seq<CardMap>, v: nat)
    requires Inv(f, m, ff, weakrefs, c) && CardReady(f, cards) && v in c.fwd
    ensures 0 <= Dest(f, v) && 0 < c.fwd[v]
    ensures PointeeAge(f, c.fwd[v]) == AgeAt(f, c.fwd[v]) == SibAge(Dest(f, v)) <= f.k + 1
  {
    assert Forwarded(f, m, v, c.fwd[v]);
    var t := c.fwd[v];
    assert ExtentOk(f, v, v) && ImageOk(f, c.fwd, c.org, v);
    assert OriginOk(f, ff, c.fwd, t, c.org[t]) && ZoneOk(f, t);
    assert SibOk(f, f.zone[t].sib) && AreaLabelOk(f, f.zone[t].sib, t) && DestOk(f, v);
  }

  /** A pointer in an unseen word that does not lead into a cleaned agegroup leads to an older one. */
  lemma UnforwardedAge(f: Flip, m: seq<Word>, ff: seq<nat>, weakrefs: nat, c: Copy, cards: seq<CardMap>, x: int)
    requires Inv(f, m, ff, weakrefs, c) && CardReady(f, cards) && Scannable(f, c, x) && x !in c.seen
    requires m[x].Pointer? && AgeAt(f, m[x].addr) > f.k
    ensures PointeeAge(f, m[x].addr) > f.k
  {
    if Link(f, c.org, c.chain, x) {
      LinkIsNoPointer(f, m, ff, weakrefs, c, x);
    } else {
      UnseenWord(f, m, ff, weakrefs, c, x);
      if f.zone[x].Fixed? {
        assert LabelOk(f, x) && ScanWord(f, x);
      } else {
        var y := c.org[x];
        assert OriginOk(f, ff, c.fwd, x, y) && ZoneOk(f, y);
        var a := f.zone[y].chunk;
        assert ChunkOk(f, a) && Forwarded(f, m, a, c.fwd[a]);
        assert ScanWord(f, y) && LabelOk(f, y);
      }
    }
  }

  /** As ForwardPointee, but also report the age of what the word now points to, if that was being cleaned. */
  method ForwardPointeeNotingAge(h: Heap, k: nat, x: nat) returns (w: Word, from: bool, age: nat)
    requires Cleaning(h) && MajorFlip(h.flip) && CardReady(h.flip, h.cards) && k == h.flip.k
    requires Scannable(h.flip, h.copy, x) && x !in h.copy.seen
    modifies h`sibs, h`copy, h`weakrefs, h`huge, h`marked, h.ram
    ensures Cleaning(h) && SameSwept(old(h.sibs), h.sibs) && Handled(h.flip, h.ram[..], h.copy, h.marked, x, w)
    ensures h.copy.seen == old(h.copy.seen) && Extends(h.flip, old(h.copy), h.copy)
    ensures Uncopied(h.flip, h.copy) < Uncopied(h.flip, old(h.copy)) || (h.copy == old(h.copy) && h.sibs == old(h.sibs))
    ensures from == (old(h.ram[x]).Pointer? && AgeAt(h.flip, old(h.ram[x]).addr) <= k)
    ensures if from then w.Pointer? && age == PointeeAge(h.flip, w.addr) else
              w == old(h.ram[x]) && (w.Pointer? ==> PointeeAge(h.flip, w.addr) > k)
    ensures from && Chunk(h.flip, old(h.ram[x]).addr) ==> age <= k + 1
  {
    hide Uncopied, Todo;
    w := h.ram[x];
    from, age := false, 0;
    if w.Pointer? {
      var sibid := SibidFor(h.b2s, w.addr);
      if sibid.age <= k {
        from := true;
        ghost var c0, v := h.copy, w.addr;
        UnseenTarget(h.flip, h.ram[..], Free(h.sibs), h.weakrefs, h.copy, x);
        FixedHasNoOrigin(h.flip, Free(h.sibs), h.copy, x);
        if sibid.kind == CODE_KIND {
          CodeIsNoChunk(h.flip, w.addr);
          var d := MarkHugechunkAsLive(h, k, w.addr);
          age := h.huge[d].age;
        } else {
          var t := ForwardChunk(h, k, w.addr, sibid);
          StillUnseen(h.flip, h.ram[..], Free(h.sibs), h.weakrefs, c0, h.copy, x);
          if v !in c0.fwd { CopyMeasure(h.flip, c0, h.copy, v); }
          CopyAge(h.flip, h.ram[..], Free(h.sibs), h.weakrefs, h.copy, h.cards, v);
          w := Pointer(t);
          age := SibidFor(h.b2s, t).age;
        }
      } else {
        UnforwardedAge(h.flip, h.ram[..], Free(h.sibs), h.weakrefs, h.copy, h.cards, x);
      }
    }
  }

  // ------------------------------------------------------------------ sweeping an RW_POINTERS queue

  ghost predicate CardsSweeping(h: Heap, k: nat, i: nat, lo: nat, p: nat, mark: nat)
    reads h, h.ram
  {
    && Sweeping(h, k, i, p) && CardReady(h.flip, h.cards) && i % 4 == RW_POINTERS_SIB && SibAge(i) <= k + 1
    && CardsBut(h.flip, h.ram[..], h.cards, h.copy, i, lo, p) && lo <= p
    && MarkOk(h.flip, h.ram[..], h.copy, i, lo, p, mark)
  }

  method SweepRwWord(h: Heap, k: nat, i: nat, lo: nat, p: nat, card_mark: nat) returns (mark: nat)
    requires CardsSweeping(h, k, i, lo, p, card_mark) && p < h.sibs[i].firstFree
    modifies h`sibs, h`copy, h`weakrefs, h`huge, h`marked, h.ram
    ensures CardsSweeping(h, k, i, lo, p + 1, mark) && mark <= card_mark &&
        old(h.sibs[i].firstFree) <= h.sibs[i].firstFree
    ensures mark == card_mark || RefersToAge(h.flip, h.ram[..], h.copy, i, p, mark)
    ensures Further(h.flip, old(h.copy), old(h.sibs), h.copy, h.sibs) && Strictly(h.flip, old(h.copy), h.copy)
    ensures SeenOnly(h.flip, old(h.copy).seen, h.copy.seen, i)
  {
    hide Uncopied, Todo;
    ghost var m0, c0, sibs0, weakrefs0 := h.ram[..], h.copy, h.sibs, h.weakrefs;
    QueueHead(h.flip, m0, h.sibs, h.weakrefs, h.copy, i, p);
    LastOrigin(h.flip, m0, h.sibs, h.weakrefs, h.copy, i);
    var w, from, age := ForwardPointeeNotingAge(h, k, p);
    mark := if from && card_mark > age then age else card_mark;
    ghost var c1 := h.copy;
    StoreVisited(h, p, w);
    SeeExtends(h.flip, c0, c1, p);
    SweepStep(h.flip, c0.seen, sibs0, i, p, h.sibs);
    FreeGrows(h.flip, c0, h.ram[..], h.sibs, h.weakrefs, h.copy, i, sibs0[i].firstFree - 1);
    CardsCarried(h.flip, m0, Free(sibs0), weakrefs0, c0, h.ram[..], Free(h.sibs), h.weakrefs, h.copy, h.cards, i, lo,
        p);
    MarkCarried(h.flip, m0, Free(sibs0), weakrefs0, c0, h.ram[..], Free(h.sibs), h.weakrefs, h.copy, i, lo, p,
        card_mark, mark);
  }

  /** Every word the cards must account for is covered. */
  ghost predicate CardsHold(f: Flip, m: seq<Word>, cards: seq<CardMap>, c: Copy) { CardsBut(f, m, cards, c, -1, 0, 0) }

  method SweepCard(h: Heap, k: nat, i: nat, start: nat, stop: nat, mark: nat)
      returns (card_mark: nat, ghost cause: int)
    requires CardsSweeping(h, k, i, start, start, mark) && start < stop <= h.sibs[i].firstFree
    modifies h`sibs, h`copy, h`weakrefs, h`huge, h`marked, h.ram
    ensures CardsSweeping(h, k, i, start, stop, card_mark) && card_mark <= mark
    ensures card_mark == mark || (start <= cause < stop && RefersToAge(h.flip, h.ram[..], h.copy, i, cause, card_mark))
    ensures Further(h.flip, old(h.copy), old(h.sibs), h.copy, h.sibs) && Strictly(h.flip, old(h.copy), h.copy)
    ensures SeenOnly(h.flip, old(h.copy).seen, h.copy.seen, i)
  {
    hide Uncopied, Todo;
    ghost var c0, sibs0 := h.copy, h.sibs;
    var p := start;
    card_mark, cause := mark, -1;
    FurtherReflexive(h.flip, c0, sibs0);
    while p < stop
      invariant CardsSweeping(h, k, i, start, p, card_mark) && p <= stop <= h.sibs[i].firstFree && card_mark <= mark
      invariant Further(h.flip, c0, sibs0, h.copy, h.sibs) && (start < p ==> Strictly(h.flip, c0, h.copy))
      invariant SeenOnly(h.flip, c0.seen, h.copy.seen, i)
      invariant card_mark == mark || (start <= cause < p && RefersToAge(h.flip, h.ram[..], h.copy, i, cause, card_mark))
    {
      ghost var c1, sibs1, m1, weakrefs1, mark1 := h.copy, h.sibs, h.ram[..], h.weakrefs, card_mark;
      card_mark := SweepRwWord(h, k, i, start, p, card_mark);
      if card_mark != mark1 {
        cause := p;
      } else if card_mark != mark {
        ReferenceStays(h.flip, m1, Free(sibs1), weakrefs1, c1, h.ram[..], Free(h.sibs), h.weakrefs, h.copy, i, cause,
            card_mark);
      }
      FurtherTransitive(h.flip, c0, sibs0, c1, sibs1, h.copy, h.sibs);
      p := p + 1;
    }
  }

  /** Sweep the queue of an RW_POINTERS sib, one card at a time, lowering cards as needed. */
  method ForwardRestOfRwPointersSib(h: Heap, k: nat, i: nat) returns (made_progress: bool)
    requires Cleaning(h) && MajorFlip(h.flip) && k == h.flip.k && Swept(h)
    requires CardReady(h.flip, h.cards) && CardsHold(h.flip, h.ram[..], h.cards, h.copy)
    requires i < |h.sibs| && i % 4 == RW_POINTERS_SIB && SibAge(i) <= k + 1
    requires h.flip.sibs[i].firstFree <= h.sibs[i].sweptEnd <= h.sibs[i].firstFree
    modifies h`sibs, h`copy, h`weakrefs, h`huge, h`marked, h`cards, h.ram
    ensures Cleaning(h) && Swept(h) && Extends(h.flip, old(h.copy), h.copy) && SweptOnly(old(h.sibs), h.sibs, i)
    ensures CardReady(h.flip, h.cards) && CardsHold(h.flip, h.ram[..], h.cards, h.copy)
    ensures Active(h.sibs[i]) || made_progress ==> h.sibs[i].sweptEnd == h.sibs[i].firstFree
    ensures if made_progress then Strictly(h.flip, old(h.copy), h.copy)
            else (h.sibs == old(h.sibs) && h.copy == old(h.copy) &&
                  h.ram[..] == old(h.ram[..]) && h.cards == old(h.cards))
    ensures OneMap(old(h.cards), h.cards, i / 4) && SeenOnly(h.flip, old(h.copy).seen, h.copy.seen, i)
    ensures MarksCaused(h.flip, h.ram[..], old(h.cards), h.cards, h.copy)
  {
    hide Uncopied, Todo, MarksCaused;
    MarksAsBefore(h.flip, h.ram[..], h.cards, h.copy);
    ghost var c0, sibs0 := h.copy, h.sibs;
    var p: nat := h.sibs[i].sweptEnd;
    if !Active(h.sibs[i]) || p == h.sibs[i].firstFree {
      return false;
    }
    var this_age := SibAge(i);
    UnparkSweep(h.flip, h.copy.seen, h.sibs, i);
    FurtherReflexive(h.flip, c0, sibs0);
    ghost var start, cards0 := p, h.cards;
    while p < h.sibs[i].firstFree
      invariant Sweeping(h, k, i, p) && Further(h.flip, c0, sibs0, h.copy, h.sibs)
      invariant CardReady(h.flip, h.cards) && CardsHold(h.flip, h.ram[..], h.cards, h.copy)
      invariant p == start < h.sibs[i].firstFree || Strictly(h.flip, c0, h.copy)
      invariant OneMap(cards0, h.cards, i / 4) && SeenOnly(h.flip, c0.seen, h.copy.seen, i)
      invariant MarksCaused(h.flip, h.ram[..], cards0, h.cards, h.copy)
      decreases Uncopied(h.flip, h.copy), h.sibs[i].firstFree - p
    {
      ghost var c1, sibs1, m1, weakrefs1, cards1 := h.copy, h.sibs, h.ram[..], h.weakrefs, h.cards;
      p := SweepToCardEnd(h, k, i, p, this_age);
      MarksCompose(h.flip, m1, Free(sibs1), weakrefs1, c1, h.ram[..], Free(h.sibs), h.weakrefs, h.copy, cards0, cards1,
          h.cards);
      FurtherTransitive(h.flip, c0, sibs0, c1, sibs1, h.copy, h.sibs);
      SameFree(h.flip, c1, sibs1, h.copy, h.sibs, i);
    }
    SweepPointerIsFree(h.flip, h.ram[..], h.sibs, h.weakrefs, h.copy, h.huge, h.marked, i, p);
    ParkSweep(h.flip, h.copy.seen, h.sibs, i, p);
    h.sibs := h.sibs[i := h.sibs[i].(sweptEnd := p)];
    return true;
  }

  /** Only map n has changed. */
  predicate OneMap(cards: seq<CardMap>, cards': seq<CardMap>, n: nat) {
    |cards'| == |cards| && forall j {:trigger cards'[j]} :: 0 <= j < |cards| && j != n ==> cards'[j] == cards[j]
  }

  method SweepToCardEnd(h: Heap, k: nat, i: nat, p: nat, this_age: nat) returns (stop: nat)
    requires Sweeping(h, k, i, p) && p < h.sibs[i].firstFree && Active(h.sibs[i])
    requires CardReady(h.flip, h.cards) && CardsHold(h.flip, h.ram[..], h.cards, h.copy)
    requires i % 4 == RW_POINTERS_SIB && this_age == SibAge(i) <= k + 1
    modifies h`sibs, h`copy, h`weakrefs, h`huge, h`marked, h`cards, h.ram
    ensures Sweeping(h, k, i, stop) && p < stop
    ensures CardReady(h.flip, h.cards) && CardsHold(h.flip, h.ram[..], h.cards, h.copy)
    ensures Further(h.flip, old(h.copy), old(h.sibs), h.copy, h.sibs) && Strictly(h.flip, old(h.copy), h.copy)
    ensures OneMap(old(h.cards), h.cards, i / 4) && SeenOnly(h.flip, old(h.copy).seen, h.copy.seen, i)
    ensures MarksCaused(h.flip, h.ram[..], old(h.cards), h.cards, h.copy)
  {
    hide Uncopied, Todo, MarksCaused, RefersToAge;
    stop := (p / CARD + 1) * CARD;
    if stop > h.sibs[i].firstFree {
      stop := h.sibs[i].firstFree;
    }
    CardGeometry(h.flip, h.ram[..], h.sibs, h.weakrefs, h.copy, h.cards, i, p, stop);
    var cm := h.cards[i / 4];
    var d := CardOf(cm, p);
    var card_mark, cause := SweepCard(h, k, i, p, stop, cm.minAge[d]);
    ghost var cards := h.cards;
    if card_mark < this_age {
      if h.cards[i / 4].minAge[d] > card_mark {
        h.cards := h.cards[i / 4 := cm.(minAge := cm.minAge[d := card_mark])];
      }
    }
    MarksAsBefore(h.flip, h.ram[..], cards, h.copy);
    assert p <= cause < stop ==> cm.base <= cause && CardOf(cm, cause) == d < |cm.minAge|;
    if h.cards != cards { OneMarkCaused(h.flip, h.ram[..], h.copy, cards, h.cards, i, d, card_mark, cause); }
    CardLowered(h.flip, h.ram[..], cards, h.copy, i, p, stop, card_mark, d, h.cards);
    MapsKeepShape(h.flip, cards, i / 4, d, card_mark);
  }

  /** The words up to the next card boundary share a card of the map. */
  lemma CardGeometry(f: Flip, m: seq<Word>, sibs: seq<Sib>, weakrefs: nat, c: Copy, cards: seq<CardMap>, i: nat, p: nat,
      stop: nat)
    requires Inv(f, m, Free(sibs), weakrefs, c) && CardReady(f, cards) && SameBuffers(f.sibs, sibs)
    requires i < |sibs| && i % 4 == RW_POINTERS_SIB && Active(sibs[i]) &&
        f.sibs[i].firstFree <= p < stop <= sibs[i].firstFree
    requires stop <= (p / CARD + 1) * CARD
    ensures i / 4 < |cards| && cards[i / 4].base <= p &&
      forall x :: p <= x < stop ==> 0 <= CardOf(cards[i / 4], x) == CardOf(cards[i / 4], p) < |cards[i / 4].minAge|
  {
    assert MapOk(f, cards, i) && SibOk(f, i) && SameBuffer(f.sibs[i], sibs[i]);
    assert Free(sibs)[i] == sibs[i].firstFree;
    var b := cards[i / 4].base;
    assert (p - b) / CARD == p / CARD - b / CARD;
  }

  /** Setting one card changes no map's place or size. */
  lemma MapsKeepShape(f: Flip, cards: seq<CardMap>, n: nat, d: nat, mark: nat)
    requires CardReady(f, cards) && n < |cards| && d < |cards[n].minAge|
    ensures CardReady(f, cards[n := cards[n].(minAge := cards[n].minAge[d := mark])])
  {
    var cards' := cards[n := cards[n].(minAge := cards[n].minAge[d := mark])];
    forall i ensures MapOk(f, cards', i) { assert MapOk(f, cards, i); }
  }
}
