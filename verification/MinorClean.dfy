/** heapclean_agegroup0 of heapclean-agegroup0.c: roots, changelog, work queues and weakrefs. */
module MinorClean {
  import opened HeapTags
  import opened HeapModel
  import opened Forwarding
  import opened HeapObject
  import opened MajorForward
  import opened MajorSweep
  import opened MajorCards
  import opened MajorRoots
  import opened MajorClean
  import opened Weakrefs
  import opened CleanResult
  import opened MinorForward

  // ------------------------------------------------------------------ one word

  /** In a visited word no reference to the nursery is left. */
  lemma SeenIsNotYoung(f: Flip, m: seq<Word>, ff: seq<nat>, weakrefs: nat, c: Copy, x: int)
    requires Inv(f, m, ff, weakrefs, c) && MinorFlip(f) && Scannable(f, c, x) && x in c.seen &&
        (forall i, y {:trigger AreaLabelOk(f, i, y)} :: AreaLabelOk(f, i, y))
    ensures m[x].Pointer? ==> AgeAt(f, m[x].addr) != 0
  {
    if Link(f, c.org, c.chain, x) {
      LinkIsNoPointer(f, m, ff, weakrefs, c, x);
    } else {
      assert FixedOk(f, m, c.fwd, c.seen, x) && ContentOk(f, m, c, x);
      var o := Original(f, c.org, x);
      assert Relocated(f, c.fwd, o, m[x]);
      if o.Pointer? && Chunk(f, o.addr) {
        CopyIsOlder(f, m, ff, c, o.addr);
      } else if o.Pointer? {
        UnmovedIsOlder(f, ff, c, x);
      }
    }
  }

  lemma CopyIsOlder(f: Flip, m: seq<Word>, ff: seq<nat>, c: Copy, v: nat)
    requires WellFormed(f) && InvFwd(f, m, c.fwd) && InvImage(f, c.fwd, c.org) && InvOrg(f, ff, c.fwd, c.org) &&
        v in c.fwd
    requires forall i, y {:trigger AreaLabelOk(f, i, y)} :: AreaLabelOk(f, i, y)
    ensures 0 < c.fwd[v] && AgeAt(f, c.fwd[v]) == SibAge(if Dest(f, v) < 0 then 0 else Dest(f, v)) >= 1 &&
        Dest(f, v) >= 0
    ensures KindAt(f, c.fwd[v]) != CODE_KIND
  {
    assert Forwarded(f, m, v, c.fwd[v]);
    var t := c.fwd[v];
    assert ExtentOk(f, v, v) && ImageOk(f, c.fwd, c.org, v) && OriginOk(f, ff, c.fwd, t, c.org[t]) && ZoneOk(f, t);
    assert SibOk(f, f.zone[t].sib) && AreaLabelOk(f, f.zone[t].sib, t);
  }

  /** A reference that is not to a chunk of the nursery is to nothing in it. */
  lemma UnmovedIsOlder(f: Flip, ff: seq<nat>, c: Copy, x: int)
    requires WellFormed(f) && MinorFlip(f) && Scannable(f, c, x) && InvOrg(f, ff, c.fwd, c.org)
    ensures var o := Original(f, c.org, x); o.Pointer? && !Chunk(f, o.addr) ==> AgeAt(f, o.addr) != 0
  {
    var o := Original(f, c.org, x);
    if f.zone[x].Fixed? {
      assert TargetOk(f, x) && ScanWord(f, x);
    } else {
      var y := c.org[x];
      assert OriginOk(f, ff, c.fwd, x, y) && ZoneOk(f, y);
      assert ChunkOk(f, f.zone[y].chunk) && TargetOk(f, y) && ScanWord(f, y);
    }
    assert o.Pointer? ==> NurseryLabel(f, o.addr);
  }

  /** Note that a word holds no reference to the nursery. */
  ghost method NoteVisited(h: Heap, x: nat)
    requires Cleaning(h) && MinorFlip(h.flip) && Scannable(h.flip, h.copy, x) &&
        (forall i, y {:trigger AreaLabelOk(h.flip, i, y)} :: AreaLabelOk(h.flip, i, y))
    requires h.ram[x].Pointer? ==> AgeAt(h.flip, h.ram[x].addr) != 0
    modifies h`copy
    ensures Cleaning(h) && h.copy == old(h.copy).(seen := old(h.copy).seen + {x})
  {
    if x in h.copy.seen {
      assert h.copy.seen + {x} == h.copy.seen;
    } else {
      ghost var m := h.ram[..];
      assert m[x := m[x]] == m;
      ghost var c := h.copy.(seen := h.copy.seen + {x});
      VisitState(h.flip, m, h.sibs, h.weakrefs, h.copy, h.huge, h.marked, x, m[x], m, c);
      h.copy := c;
    }
  }

  /** Forward what a word refers to, if that is in the nursery.  Unlike in a major clean the word may have
      been visited before: the copies carry the label of another agegroup. */
  method ForwardToAgegroup1IfInAgegroup0(h: Heap, x: nat)
    requires Cleaning(h) && MinorFlip(h.flip) && Scannable(h.flip, h.copy, x) &&
        (forall i, y {:trigger AreaLabelOk(h.flip, i, y)} :: AreaLabelOk(h.flip, i, y))
    modifies h`sibs, h`copy, h`weakrefs, h.ram
    ensures Cleaning(h) && SameSwept(old(h.sibs), h.sibs)
    ensures h.copy.seen == old(h.copy).seen + {x} && Extends(h.flip, old(h.copy), h.copy)
    ensures Nearer(h.flip, old(h.copy), old(h.sibs), h.copy, h.sibs)
    ensures x in old(h.copy).org && x !in old(h.copy).seen ==>
        Uncopied(h.flip, h.copy) < Uncopied(h.flip, old(h.copy)) || Todo(h.copy) < Todo(old(h.copy))
  {
    hide Uncopied, Todo;
    ghost var c0 := h.copy;
    var w := h.ram[x];
    if w.Pointer? && SibidFor(h.b2s, w.addr) == AGEGROUP0_SIBID {
      NotSeenYet(h.flip, h.ram[..], Free(h.sibs), h.weakrefs, h.copy, x);
      UnseenTarget(h.flip, h.ram[..], Free(h.sibs), h.weakrefs, h.copy, x);
      FixedHasNoOrigin(h.flip, Free(h.sibs), h.copy, x);
      NurseryTarget(h.flip, w.addr);
      var t := ForwardAgegroup0ChunkToAgegroup1(h, w.addr);
      ghost var c1 := h.copy;
      StillUnseen(h.flip, h.ram[..], Free(h.sibs), h.weakrefs, c0, h.copy, x);
      if w.addr !in c0.fwd { CopyMeasure(h.flip, c0, h.copy, w.addr); }
      CopyIsSomewhere(h.flip, h.ram[..], h.copy.fwd, w.addr);
      StoreVisited(h, x, Pointer(t));
      SeeExtends(h.flip, c0, c1, x);
    } else {
      LabelIsAge(h.flip, w);
      NoteVisited(h, x);
      VisitedExtends(h.flip, c0, x);
    }
  }

  lemma NotSeenYet(f: Flip, m: seq<Word>, ff: seq<nat>, weakrefs: nat, c: Copy, x: int)
    requires Inv(f, m, ff, weakrefs, c) && MinorFlip(f) && Scannable(f, c, x) &&
        (forall i, y {:trigger AreaLabelOk(f, i, y)} :: AreaLabelOk(f, i, y))
    requires m[x].Pointer? && AgeAt(f, m[x].addr) == 0
    ensures x !in c.seen
  {
    if x in c.seen { SeenIsNotYoung(f, m, ff, weakrefs, c, x); }
  }

  lemma NurseryTarget(f: Flip, v: nat)
    requires MinorFlip(f) && GoodTarget(f, v) && AgeAt(f, v) == 0
    ensures Chunk(f, v) && Live(f, v)
  {
    assert NurseryLabel(f, v);
  }

  lemma LabelIsAge(f: Flip, w: Word)
    requires MinorFlip(f)
    ensures w.Pointer? ==> (SibidFor(f.b2s, w.addr) == AGEGROUP0_SIBID <==> AgeAt(f, w.addr) == 0)
  {
    assert w.Pointer? ==> NurseryLabel(f, w.addr);
  }

  lemma VisitedExtends(f: Flip, c: Copy, x: int)
    ensures var c' := c.(seen := c.seen + {x});
      && Extends(f, c, c')
      && Uncopied(f, c') == Uncopied(f, c)
      && Todo(c') <= Todo(c)
    ensures x in c.org && x !in c.seen ==> Todo(c.(seen := c.seen + {x})) < Todo(c)
  {
    if x in c.seen {
      assert c.seen + {x} == c.seen;
    } else {
      SeeExtends(f, c, c, x);
    }
  }

  // ------------------------------------------------------------------ roots

  /** The state between visits. */
  ghost predicate Minor(h: Heap)
    reads h, h.ram
  {
    && Cleaning(h) && MinorFlip(h.flip) && Swept(h) && CardReady(h.flip, h.cards) && |h.cards| == |h.flip.cards|
  }

  /** The words of older agegroups are covered by their cards, except those still in the changelog. */
  ghost predicate OldCovered(f: Flip, m: seq<Word>, cards: seq<CardMap>, log: seq<nat>, i: int, x: int) {
    UncleanedWord(f, i, x) && 0 <= x < |m| ==> x in log || (i / 4 < |cards| && Covers(f, cards[i / 4], SibAge(i), x,
        m[x]))
  }

  ghost predicate LogLeft(f: Flip, m: seq<Word>, cards: seq<CardMap>, log: seq<nat>) {
    forall i, x {:trigger OldCovered(f, m, cards, log, i, x)} :: OldCovered(f, m, cards, log, i, x)
  }

  lemma FixedStable(f: Flip, m: seq<Word>, ff: seq<nat>, weakrefs: nat, c: Copy, m': seq<Word>, ff': seq<nat>,
      weakrefs': nat, c': Copy, x: int)
    requires Inv(f, m, ff, weakrefs, c) && Inv(f, m', ff', weakrefs', c') && Extends(f, c, c')
    requires 0 <= x < |m| && f.zone[x].Fixed? && (x in c'.seen ==> x in c.seen)
    ensures m'[x] == m[x]
  {
    assert FixedOk(f, m, c.fwd, c.seen, x) && FixedOk(f, m', c'.fwd, c'.seen, x);
  }

  /** Visits outside the older agegroups' mutable words leave those as they are. */
  lemma LogStable(f: Flip, m: seq<Word>, ff: seq<nat>, weakrefs: nat, c: Copy, m': seq<Word>, ff': seq<nat>,
      weakrefs': nat, c': Copy,
                  cards: seq<CardMap>, log: seq<nat>)
    requires Inv(f, m, ff, weakrefs, c) && Inv(f, m', ff', weakrefs', c') && Extends(f, c, c') &&
        LogLeft(f, m, cards, log) && Uncleaned(f)
    requires forall x {:trigger x in c'.seen} :: x in c'.seen && x !in c.seen ==>
        x in log || forall i {:trigger UncleanedWord(f, i, x)} :: !UncleanedWord(f, i, x)
    ensures LogLeft(f, m', cards, log)
  {
    forall i, x ensures OldCovered(f, m', cards, log, i, x) {
      assert OldCovered(f, m, cards, log, i, x);
      if UncleanedWord(f, i, x) && 0 <= x < |m| && x !in log {
        assert UncleanedOk(f, i, x);
        FixedStable(f, m, ff, weakrefs, c, m', ff', weakrefs', c', x);
      }
    }
  }

  method ForwardMinorRoots(h: Heap, roots: seq<nat>, ghost log: seq<nat>)
    requires Minor(h) && Uncleaned(h.flip) && LogLeft(h.flip, h.ram[..], h.cards, log)
    requires forall j {:trigger roots[j]} :: 0 <= j < |roots| ==> RootOk(h.flip, roots[j])
    modifies h`sibs, h`copy, h`weakrefs, h.ram
    ensures Minor(h) && SameSwept(old(h.sibs), h.sibs) && Extends(h.flip, old(h.copy), h.copy) &&
        LogLeft(h.flip, h.ram[..], h.cards, log)
    ensures h.copy.seen == old(h.copy).seen + set j | 0 <= j < |roots| :: roots[j]
  {
    hide Uncopied, Todo;
    ghost var c0, sibs0 := h.copy, h.sibs;
    ExtendsReflexive(h.flip, h.copy);
    var j := 0;
    while j < |roots|
      invariant Minor(h) && SameSwept(sibs0, h.sibs) && Extends(h.flip, c0, h.copy) && j <= |roots| &&
          LogLeft(h.flip, h.ram[..], h.cards, log)
      invariant h.copy.seen == c0.seen + set i | 0 <= i < j :: roots[i]
    {
      ghost var m1, c1, sibs1, weakrefs1 := h.ram[..], h.copy, h.sibs, h.weakrefs;
      assert RootOk(h.flip, roots[j]);
      ForwardToAgegroup1IfInAgegroup0(h, roots[j]);
      FixedKeepsSwept(h.flip, c1.seen, sibs1, roots[j], h.sibs);
      ExtendsTransitive(h.flip, c0, c1, h.copy);
      RootIsNotUncleaned(h.flip, roots[j]);
      LogStable(h.flip, m1, Free(sibs1), weakrefs1, c1, h.ram[..], Free(h.sibs), h.weakrefs, h.copy, h.cards, log);
      j := j + 1;
    }
  }

  lemma RootIsNotUncleaned(f: Flip, x: int)
    requires WellFormed(f) && RootOk(f, x)
    ensures forall i {:trigger UncleanedWord(f, i, x)} :: !UncleanedWord(f, i, x)
  {
    forall i ensures !UncleanedWord(f, i, x) {
      assert !InBuffer(f, i, x);
      if 0 <= i < |f.sibs| { assert SibOk(f, i); }
    }
  }

  // ------------------------------------------------------------------ the changelog

  /** A location that was stored into: in the nursery, outside the heap, or a mutable word of an older agegroup. */
  ghost predicate LogEntryOk(f: Flip, x: nat) {
    x < |f.mem| && (SibidFor(f.b2s, x) == AGEGROUP0_SIBID || SibidFor(f.b2s, x) == UNMAPPED_BOOK_SIBID || InUncleaned(f,
        x))
  }

  /** Marks only went down. */
  predicate Lowered(cm: CardMap, cm': CardMap) {
    cm'.base == cm.base && |cm'.minAge| == |cm.minAge| &&
        forall d {:trigger cm'.minAge[d]} :: 0 <= d < |cm.minAge| ==> cm'.minAge[d] <= cm.minAge[d]
  }

  predicate AllLowered(cards: seq<CardMap>, cards': seq<CardMap>) {
    |cards'| == |cards| && forall n {:trigger cards'[n]} :: 0 <= n < |cards| ==> Lowered(cards[n], cards'[n])
  }

  /** An entry that has been dealt with need not be kept. */
  lemma EntryDone(f: Flip, m: seq<Word>, cards: seq<CardMap>, x: nat, rest: seq<nat>, cards': seq<CardMap>)
    requires LogLeft(f, m, cards, [x] + rest) && AllLowered(cards, cards')
    requires forall i {:trigger UncleanedWord(f, i, x)} :: UncleanedWord(f, i, x) && x < |m| ==>
        && i / 4 < |cards'|
        && Covers(f, cards'[i / 4], SibAge(i), x, m[x])
    ensures LogLeft(f, m, cards', rest)
  {
    forall i, y ensures OldCovered(f, m, cards', rest, i, y) {
      assert OldCovered(f, m, cards, [x] + rest, i, y);
      if UncleanedWord(f, i, y) && y != x && i / 4 < |cards| {
        assert Lowered(cards[i / 4], cards'[i / 4]);
      }
    }
  }

  lemma SameCards(cards: seq<CardMap>)
    ensures AllLowered(cards, cards)
  {
  }

  /** The sib a logged word belongs to is found from its label. */
  lemma LoggedWord(f: Flip, cards: seq<CardMap>, x: nat) returns (i: nat)
    requires WellFormed(f) && CardReady(f, cards) && MinorFlip(f) && Uncleaned(f) && LogEntryOk(f, x) && x < |f.mem| &&
        |cards| == |f.cards|
    requires SibidFor(f.b2s, x) != AGEGROUP0_SIBID && SibidFor(f.b2s, x) != UNMAPPED_BOOK_SIBID
    ensures UncleanedWord(f, i, x) && AgeAt(f, x) == SibAge(i) && i / 4 < |cards| && InMap(cards[i / 4], x) &&
        f.zone[x].Fixed? && x in f.ext
    ensures forall j {:trigger UncleanedWord(f, j, x)} :: UncleanedWord(f, j, x) ==> j == i
  {
    i :| UncleanedWord(f, i, x);
    assert SibOk(f, i) && MapOk(f, cards, i) && UncleanedOk(f, i, x) && AreaLabelOk(f, i, x);
    var cm, s := cards[i / 4], f.sibs[i];
    assert x < cm.base + CARD * |cm.minAge|;
    forall j | UncleanedWord(f, j, x) ensures j == i {
      assert AreaLabelOk(f, j, x) && SibOk(f, j);
    }
  }

  lemma EntryOutside(f: Flip, cards: seq<CardMap>, x: nat)
    requires WellFormed(f) && CardReady(f, cards)
    requires SibidFor(f.b2s, x) == AGEGROUP0_SIBID || SibidFor(f.b2s, x) == UNMAPPED_BOOK_SIBID
    requires |f.sibs| <= 4 * MAX_AGEGROUPS
    ensures forall i {:trigger UncleanedWord(f, i, x)} :: !UncleanedWord(f, i, x)
  {
    forall i ensures !UncleanedWord(f, i, x) {
      if 0 <= i < |f.sibs| { assert SibOk(f, i) && AreaLabelOk(f, i, x); }
    }
  }

  /** The value of a mutable word outside the nursery, if it is not a reference that has been followed. */
  lemma LoggedPointee(f: Flip, m: seq<Word>, ff: seq<nat>, weakrefs: nat, c: Copy, cards: seq<CardMap>, x: nat)
    requires Inv(f, m, ff, weakrefs, c) && CardReady(f, cards) && MinorFlip(f) && x < |m| && f.zone[x].Fixed? &&
        x in f.ext && m[x].Pointer?
    ensures KindAt(f, m[x].addr) == CODE_KIND ==> Code(f, m[x].addr) && AgeAt(f, m[x].addr) <= PointeeAge(f, m[x].addr)
    ensures KindAt(f, m[x].addr) != CODE_KIND ==> PointeeAge(f, m[x].addr) == AgeAt(f, m[x].addr)
  {
    assert FixedOk(f, m, c.fwd, c.seen, x) && LabelOk(f, x) && ScanWord(f, x);
    if f.mem[x].Pointer? && Chunk(f, f.mem[x].addr) {
      assert ChunkOk(f, f.mem[x].addr);
      if x in c.seen { CopyIsOlder(f, m, ff, c, f.mem[x].addr); }
    }
  }

  /** Note the age of a pointee in the card of a word, if that is younger than the word. */
  method MaybeUpdateCard(h: Heap, x: nat, src_age: nat, dst_age: nat)
    requires 1 <= src_age <= |h.cards| && InMap(h.cards[src_age - 1], x)
    modifies h`cards
    ensures AllLowered(old(h.cards), h.cards)
    ensures dst_age < src_age ==>
        && InMap(h.cards[src_age - 1], x)
        && h.cards[src_age - 1].minAge[CardOf(h.cards[src_age - 1], x)] <= dst_age
    ensures h.cards == old(h.cards) ||
      OneMarkSet(old(h.cards), h.cards, src_age - 1, CardOf(old(h.cards)[src_age - 1], x), dst_age)
  {
    SameCards(h.cards);
    if src_age > dst_age {
      var cm := h.cards[src_age - 1];
      var i := CardOf(cm, x);
      if dst_age < cm.minAge[i] {
        ghost var cards := h.cards;
        h.cards := h.cards[src_age - 1 := cm.(minAge := cm.minAge[i := dst_age])];
        assert OneMarkSet(cards, h.cards, src_age - 1, i, dst_age);
      }
    }
  }

  predicate OneMarkSet(cards: seq<CardMap>, cards': seq<CardMap>, n: nat, d: int, v: nat) {
    n < |cards| && 0 <= d < |cards[n].minAge| && cards' == cards[n := cards[n].(minAge := cards[n].minAge[d := v])]
  }

  lemma ReadyAfterMark(f: Flip, cards: seq<CardMap>, cards': seq<CardMap>, n: nat, d: int, v: nat)
    requires CardReady(f, cards)
    requires cards' == cards || OneMarkSet(cards, cards', n, d, v)
    ensures CardReady(f, cards') && |cards'| == |cards|
  {
    if cards' != cards { MapsKeepShape(f, cards, n, d, v); }
  }

  // ------------------------------------------------------------------ no card is lowered without a cause

  /** x was logged, and refers to something of that age outside the nursery. */
  predicate LoggedRefers(f: Flip, m: seq<Word>, log: seq<nat>, x: nat, age: nat) {
    x in log && x < |m| && |m| == |f.zone| && f.zone[x].Fixed? && m[x].Pointer? && AgeAt(f, m[x].addr) != 0 &&
        PointeeAge(f, m[x].addr) == age
  }

  /** The mark of card d is as it was, or the age of what a logged word on the card refers to. */
  ghost predicate LogMark(f: Flip, m: seq<Word>, base: CardMap, cm: CardMap, log: seq<nat>, d: int) {
    0 <= d < |base.minAge| && |cm.minAge| == |base.minAge| && cm.base == base.base &&
        (cm.minAge[d] == base.minAge[d] || exists x: nat {:trigger LoggedRefers(f, m, log, x, cm.minAge[d])} ::
          InMap(cm, x) && CardOf(cm, x) == d && LoggedRefers(f, m, log, x, cm.minAge[d]))
  }

  ghost predicate LogMarks(f: Flip, m: seq<Word>, base: seq<CardMap>, cards: seq<CardMap>, log: seq<nat>) {
    |base| == |cards| && forall n, d {:trigger LogMark(f, m, base[n], cards[n], log, d)} ::
      0 <= n < |cards| && 0 <= d < |base[n].minAge| ==> LogMark(f, m, base[n], cards[n], log, d)
  }

  /** The entry for x lowered the mark of the card of x to the age of what x refers to, or did nothing. */
  ghost predicate EntryMarked(f: Flip, m: seq<Word>, cards: seq<CardMap>, cards': seq<CardMap>, x: nat) {
    cards' == cards || exists n: nat, d, v: nat {:trigger OneMarkSet(cards, cards', n, d, v)} ::
      OneMarkSet(cards, cards', n, d, v) && InMap(cards[n], x) && CardOf(cards[n], x) == d &&
          LoggedRefers(f, m, [x], x, v)
  }

  lemma NothingLogged(f: Flip, m: seq<Word>, cards: seq<CardMap>, log: seq<nat>)
    ensures LogMarks(f, m, cards, cards, log)
  {
  }

  lemma NothingMarked(f: Flip, m: seq<Word>, cards: seq<CardMap>, x: nat)
    ensures EntryMarked(f, m, cards, cards, x)
  {
  }

  lemma OneMarked(f: Flip, m: seq<Word>, cards: seq<CardMap>, cards': seq<CardMap>, n: nat, x: nat, age: nat)
    requires n < |cards| && InMap(cards[n], x) && x < |m| && |m| == |f.zone| && f.zone[x].Fixed? && m[x].Pointer?
    requires AgeAt(f, m[x].addr) != 0 && PointeeAge(f, m[x].addr) == age
    requires cards' == cards || OneMarkSet(cards, cards', n, CardOf(cards[n], x), age)
    ensures EntryMarked(f, m, cards, cards', x)
  {
    assert LoggedRefers(f, m, [x], x, age);
  }

  lemma LoggedReferenceStays(f: Flip, m: seq<Word>, ff: seq<nat>, weakrefs: nat, c: Copy, m': seq<Word>, ff': seq<nat>,
      weakrefs': nat, c': Copy, log: seq<nat>, x: nat, age: nat)
    requires Inv(f, m, ff, weakrefs, c) && Inv(f, m', ff', weakrefs', c') && Extends(f, c, c') && MinorFlip(f)
    requires LoggedRefers(f, m, log, x, age)
    ensures LoggedRefers(f, m', log, x, age)
  {
    assert FixedOk(f, m, c.fwd, c.seen, x) && FixedOk(f, m', c'.fwd, c'.seen, x);
    assert x !in c.seen ==> !Chunk(f, m[x].addr);
  }

  lemma MarksStay(f: Flip, m: seq<Word>, ff: seq<nat>, weakrefs: nat, c: Copy, m': seq<Word>, ff': seq<nat>,
      weakrefs': nat, c': Copy, base: seq<CardMap>, cards: seq<CardMap>, log: seq<nat>)
    requires Inv(f, m, ff, weakrefs, c) && Inv(f, m', ff', weakrefs', c') && Extends(f, c, c') && MinorFlip(f)
    requires LogMarks(f, m, base, cards, log)
    ensures LogMarks(f, m', base, cards, log)
  {
    hide Inv, Extends, MinorFlip, LoggedRefers;
    forall n, d | 0 <= n < |cards| && 0 <= d < |base[n].minAge| ensures LogMark(f, m', base[n], cards[n], log, d) {
      assert LogMark(f, m, base[n], cards[n], log, d);
      var cm := cards[n];
      if cm.minAge[d] != base[n].minAge[d] {
        var x: nat :| InMap(cm, x) && CardOf(cm, x) == d && LoggedRefers(f, m, log, x, cm.minAge[d]);
        LoggedReferenceStays(f, m, ff, weakrefs, c, m', ff', weakrefs', c', log, x, cm.minAge[d]);
      }
    }
  }

  lemma MarksMore(f: Flip, m: seq<Word>, base: seq<CardMap>, cards: seq<CardMap>, cards': seq<CardMap>, log: seq<nat>,
      x: nat)
    requires LogMarks(f, m, base, cards, log) && EntryMarked(f, m, cards, cards', x) && x in log
    ensures LogMarks(f, m, base, cards', log)
  {
    if cards' != cards {
      var n: nat, d, v: nat :| OneMarkSet(cards, cards', n, d, v) && InMap(cards[n], x) && CardOf(cards[n], x) == d &&
          LoggedRefers(f, m, [x], x, v);
      assert LoggedRefers(f, m, log, x, v);
      hide LoggedRefers, EntryMarked;
      forall j, e | 0 <= j < |cards| && 0 <= e < |base[j].minAge| ensures LogMark(f, m, base[j], cards'[j], log, e) {
        assert LogMark(f, m, base[j], cards[j], log, e);
        var cm := cards'[j];
        if j == n && e == d {
          assert InMap(cm, x) && CardOf(cm, x) == d && LoggedRefers(f, m, log, x, cm.minAge[d]);
        } else if cm.minAge[e] != base[j].minAge[e] {
          var y: nat :| InMap(cards[j], y) && CardOf(cards[j], y) == e && LoggedRefers(f, m, log, y, cm.minAge[e]);
          assert InMap(cm, y) && CardOf(cm, y) == e;
        }
      }
    }
  }

  lemma MarksSettled(f: Flip, m: seq<Word>, ff: seq<nat>, weakrefs: nat, c: Copy, m': seq<Word>, base: seq<CardMap>,
      cards: seq<CardMap>, log: seq<nat>)
    requires Inv(f, m, ff, weakrefs, c) && SettledFrom(f, m, c, m', 0) && LogMarks(f, m, base, cards, log)
    ensures LogMarks(f, m', base, cards, log)
  {
    forall n, d | 0 <= n < |cards| && 0 <= d < |base[n].minAge| ensures LogMark(f, m', base[n], cards[n], log, d) {
      assert LogMark(f, m, base[n], cards[n], log, d);
      var cm := cards[n];
      if cm.minAge[d] != base[n].minAge[d] {
        var x: nat :| InMap(cm, x) && CardOf(cm, x) == d && LoggedRefers(f, m, log, x, cm.minAge[d]);
        assert SettledWord(f, m, c, m', 0, x);
        if Link(f, c.org, c.chain, x) { LinkIsNoPointer(f, m, ff, weakrefs, c, x); }
        assert LoggedRefers(f, m', log, x, cm.minAge[d]);
      }
    }
  }

  /** The state while the changelog is processed. */
  ghost predicate Logging(h: Heap, log: seq<nat>)
    reads h, h.ram
  {
    && Minor(h) && Uncleaned(h.flip) && LogLeft(h.flip, h.ram[..], h.cards, log)
    && |h.flip.sibs| == 4 * |h.cards| && |h.cards| <= MAX_AGEGROUPS
  }

  /** get_age_of_codechunk: the age of the very hugechunk. */
  method GetAgeOfCodechunk(h: Heap, v: nat) returns (age: nat)
    requires Cleaning(h) && Code(h.flip, v)
    ensures age == PointeeAge(h.flip, v)
  {
    var d := FindHugechunk(h, v);
    age := h.huge[d].age;
  }

  /** Forward a logged word's referent, if it is in the nursery. */
  method ForwardLogged(h: Heap, x: nat, ghost rest: seq<nat>)
    requires Logging(h, [x] + rest) && x < h.ram.Length && h.flip.zone[x].Fixed? && x in h.flip.ext
    modifies h`sibs, h`copy, h`weakrefs, h.ram
    ensures Logging(h, [x] + rest) && SameSwept(old(h.sibs), h.sibs) && Extends(h.flip, old(h.copy), h.copy)
    ensures old(h.ram[x]).Pointer? && AgeAt(h.flip, old(h.ram[x]).addr) == 0 ==>
      h.ram[x].Pointer? && AgeAt(h.flip, h.ram[x].addr) == 1 && KindAt(h.flip, h.ram[x].addr) != CODE_KIND
    ensures h.copy.seen == old(h.copy).seen + {x}
  {
    hide Uncopied, Todo;
    ghost var m1, c1, sibs1, weakrefs1 := h.ram[..], h.copy, h.sibs, h.weakrefs;
    ForwardToAgegroup1IfInAgegroup0(h, x);
    FixedKeepsSwept(h.flip, c1.seen, sibs1, x, h.sibs);
    LogStable(h.flip, m1, Free(sibs1), weakrefs1, c1, h.ram[..], Free(h.sibs), h.weakrefs, h.copy, h.cards, [x] + rest);
    LoggedLands(h.flip, m1, Free(sibs1), weakrefs1, c1, h.ram[..], Free(h.sibs), h.weakrefs, h.copy, h.cards, x);
  }

  lemma LoggedLands(f: Flip, m: seq<Word>, ff: seq<nat>, weakrefs: nat, c: Copy, m': seq<Word>, ff': seq<nat>,
      weakrefs': nat, c': Copy, cards: seq<CardMap>, x: nat)
    requires Inv(f, m, ff, weakrefs, c) && Inv(f, m', ff', weakrefs', c') && CardReady(f, cards) && MinorFlip(f)
    requires x < |m| && f.zone[x].Fixed? && x in f.ext && x in c'.seen
    ensures m[x].Pointer? && AgeAt(f, m[x].addr) == 0 ==>
        && m'[x].Pointer?
        && AgeAt(f, m'[x].addr) == 1
        && KindAt(f, m'[x].addr) != CODE_KIND
  {
    if m[x].Pointer? && AgeAt(f, m[x].addr) == 0 {
      if x in c.seen { SeenIsNotYoung(f, m, ff, weakrefs, c, x); } else {
        assert FixedOk(f, m, c.fwd, c.seen, x) && FixedOk(f, m', c'.fwd, c'.seen, x) && TargetOk(f, x) &&
            ScanWord(f, x) && NurseryLabel(f, m[x].addr);
        CopyIsOlder(f, m', ff', c', m[x].addr);
        NurseryChunk(f, m', c'.fwd, m[x].addr);
      }
    }
  }

  method ProcessLogEntry(h: Heap, x: nat, ghost rest: seq<nat>)
    requires Logging(h, [x] + rest) && LogEntryOk(h.flip, x)
    modifies h`sibs, h`copy, h`weakrefs, h`cards, h.ram
    ensures Logging(h, rest) && SameSwept(old(h.sibs), h.sibs) && Extends(h.flip, old(h.copy), h.copy)
    ensures SeenMore(old(h.copy).seen, h.copy.seen, x) && AllLowered(old(h.cards), h.cards)
    ensures EntryMarked(h.flip, h.ram[..], old(h.cards), h.cards, x)
    ensures forall i {:trigger UncleanedWord(h.flip, i, x)} :: UncleanedWord(h.flip, i, x) && h.ram[x].Pointer? ==>
        AgeAt(h.flip, h.ram[x].addr) != 0
  {
    hide Uncopied, Todo;
    ExtendsReflexive(h.flip, h.copy);
    SameCards(h.cards);
    var pointee := h.ram[x];
    if !pointee.Pointer? {
      EntryDone(h.flip, h.ram[..], h.cards, x, rest, h.cards);
      return;
    }
    var src_sibid := SibidFor(h.b2s, x);
    if src_sibid == AGEGROUP0_SIBID || src_sibid == UNMAPPED_BOOK_SIBID {
      EntryOutside(h.flip, h.cards, x);
      EntryDone(h.flip, h.ram[..], h.cards, x, rest, h.cards);
      return;
    }
    ghost var i := LoggedWord(h.flip, h.cards, x);
    ProcessOldEntry(h, x, src_sibid.age, rest, i);
  }

  predicate SeenMore(seen: set<int>, seen': set<int>, x: int) { seen' == seen || seen' == seen + {x} }

  method ProcessOldEntry(h: Heap, x: nat, src_age: nat, ghost rest: seq<nat>, ghost i: nat)
    requires Logging(h, [x] + rest) && x < h.ram.Length && h.ram[x].Pointer? && h.flip.zone[x].Fixed? && x in h.flip.ext
    requires UncleanedWord(h.flip, i, x) && src_age == SibAge(i) && i / 4 < |h.cards| && InMap(h.cards[i / 4], x)
    requires forall j {:trigger UncleanedWord(h.flip, j, x)} :: UncleanedWord(h.flip, j, x) ==> j == i
    modifies h`sibs, h`copy, h`weakrefs, h`cards, h.ram
    ensures Logging(h, rest) && SameSwept(old(h.sibs), h.sibs) && Extends(h.flip, old(h.copy), h.copy)
    ensures SeenMore(old(h.copy).seen, h.copy.seen, x) && AllLowered(old(h.cards), h.cards)
    ensures EntryMarked(h.flip, h.ram[..], old(h.cards), h.cards, x)
    ensures h.ram[x].Pointer? ==> AgeAt(h.flip, h.ram[x].addr) != 0
  {
    hide Uncopied, Todo, EntryMarked, OneMarkSet, LogEntryOk;
    NothingMarked(h.flip, h.ram[..], h.cards, x);
    ExtendsReflexive(h.flip, h.copy);
    SameCards(h.cards);
    LoggedPointee(h.flip, h.ram[..], Free(h.sibs), h.weakrefs, h.copy, h.cards, x);
    var pointee := h.ram[x].addr;
    var dst_sibid := SibidFor(h.b2s, pointee);
    var dst_age := dst_sibid.age;
    if dst_sibid.kind != CODE_KIND {
      if dst_age == 0 {
        ForwardLogged(h, x, rest);
        dst_age := 1;
        LoggedPointee(h.flip, h.ram[..], Free(h.sibs), h.weakrefs, h.copy, h.cards, x);
      }
    } else {
      CodeIsNotNursery(h.flip, pointee);
      if dst_age >= src_age {
        EntryDone(h.flip, h.ram[..], h.cards, x, rest, h.cards);
        return;
      }
      dst_age := GetAgeOfCodechunk(h, pointee);
    }
    MarkEntry(h, x, src_age, dst_age, rest, i);
  }

  /** Lower the mark of the card of a word whose referent is outside the nursery. */
  method MarkEntry(h: Heap, x: nat, src_age: nat, dst_age: nat, ghost rest: seq<nat>, ghost i: nat)
    requires Logging(h, [x] + rest) && x < h.ram.Length && h.ram[x].Pointer? && h.flip.zone[x].Fixed?
    requires UncleanedWord(h.flip, i, x) && src_age == SibAge(i) && i / 4 < |h.cards| && InMap(h.cards[i / 4], x)
    requires forall j {:trigger UncleanedWord(h.flip, j, x)} :: UncleanedWord(h.flip, j, x) ==> j == i
    requires AgeAt(h.flip, h.ram[x].addr) != 0 && PointeeAge(h.flip, h.ram[x].addr) == dst_age
    modifies h`cards
    ensures Logging(h, rest) && AllLowered(old(h.cards), h.cards)
    ensures EntryMarked(h.flip, h.ram[..], old(h.cards), h.cards, x)
  {
    hide EntryMarked, OneMarkSet;
    ghost var cards := h.cards;
    MaybeUpdateCard(h, x, src_age, dst_age);
    OneMarked(h.flip, h.ram[..], cards, h.cards, src_age - 1, x, dst_age);
    ReadyAfterMark(h.flip, cards, h.cards, src_age - 1, CardOf(cards[src_age - 1], x), dst_age);
    EntryDone(h.flip, h.ram[..], cards, x, rest, h.cards);
  }

  lemma CodeIsNotNursery(f: Flip, v: nat)
    requires MinorFlip(f) && KindAt(f, v) == CODE_KIND
    ensures AgeAt(f, v) != 0
  {
    assert NurseryLabel(f, v);
  }

  /** A logged word that referred to the nursery has been visited. */
  predicate EntrySeen(f: Flip, seen: set<int>, x: nat) {
    x < |f.mem| && |f.zone| == |f.mem| && f.zone[x].Fixed? && f.mem[x].Pointer? && AgeAt(f, f.mem[x].addr) == 0 ==>
        x in seen
  }

  ghost predicate EntriesSeen(f: Flip, seen: set<int>, log: seq<nat>) {
    forall j {:trigger log[j]} :: 0 <= j < |log| && InUncleaned(f, log[j]) ==> EntrySeen(f, seen, log[j])
  }

  lemma EntryIsSeen(f: Flip, m: seq<Word>, ff: seq<nat>, weakrefs: nat, c: Copy, x: nat)
    requires Inv(f, m, ff, weakrefs, c) && x < |m|
    requires m[x].Pointer? ==> AgeAt(f, m[x].addr) != 0
    ensures EntrySeen(f, c.seen, x)
  {
    assert FixedOk(f, m, c.fwd, c.seen, x);
  }

  method ProcessTaskHeapChangelog(h: Heap, log: seq<nat>)
    requires Logging(h, log) && forall j {:trigger log[j]} :: 0 <= j < |log| ==> LogEntryOk(h.flip, log[j])
    modifies h`sibs, h`copy, h`weakrefs, h`cards, h.ram
    ensures Logging(h, []) && SameSwept(old(h.sibs), h.sibs) && Extends(h.flip, old(h.copy), h.copy) &&
        EntriesSeen(h.flip, h.copy.seen, log)
    ensures AllLowered(old(h.cards), h.cards) && LogMarks(h.flip, h.ram[..], old(h.cards), h.cards, log)
  {
    hide Uncopied, Todo, LogMarks, EntryMarked, LoggedRefers;
    NothingLogged(h.flip, h.ram[..], h.cards, log);
    ghost var c0, sibs0, cards0 := h.copy, h.sibs, h.cards;
    ExtendsReflexive(h.flip, h.copy);
    SameCards(h.cards);
    var j := 0;
    assert log[j..] == log;
    while j < |log|
      invariant j <= |log| && Logging(h, log[j..]) && SameSwept(sibs0, h.sibs) && Extends(h.flip, c0, h.copy)
      invariant AllLowered(cards0, h.cards) && EntriesSeen(h.flip, h.copy.seen, log[..j])
      invariant LogMarks(h.flip, h.ram[..], cards0, h.cards, log)
    {
      hide LogLeft, Extends, EntrySeen;
      ghost var c1, cards1, rest := h.copy, h.cards, log[j + 1..];
      ghost var m1, sibs1, weakrefs1 := h.ram[..], h.sibs, h.weakrefs;
      assert log[j..] == [log[j]] + rest;
      ProcessLogEntry(h, log[j], rest);
      ExtendsTransitive(h.flip, c0, c1, h.copy);
      LoweredFurther(cards0, cards1, h.cards);
      MarksStay(h.flip, m1, Free(sibs1), weakrefs1, c1, h.ram[..], Free(h.sibs), h.weakrefs, h.copy, cards0, cards1,
          log);
      MarksMore(h.flip, h.ram[..], cards0, cards1, h.cards, log, log[j]);
      NextEntrySeen(h.flip, h.ram[..], Free(h.sibs), h.weakrefs, c1, h.copy, log, j);
      j := j + 1;
    }
    assert log[j..] == [] && log[..j] == log;
  }

  lemma LoweredFurther(cards0: seq<CardMap>, cards1: seq<CardMap>, cards: seq<CardMap>)
    requires AllLowered(cards0, cards1) && AllLowered(cards1, cards)
    ensures AllLowered(cards0, cards)
  {
    forall n | 0 <= n < |cards| ensures Lowered(cards0[n], cards[n]) {
      assert Lowered(cards0[n], cards1[n]) && Lowered(cards1[n], cards[n]);
      forall d | 0 <= d < |cards0[n].minAge| ensures cards[n].minAge[d] <= cards0[n].minAge[d] {
        assert cards1[n].minAge[d] <= cards0[n].minAge[d];
      }
    }
  }

  lemma NextEntrySeen(f: Flip, m: seq<Word>, ff: seq<nat>, weakrefs: nat, c0: Copy, c: Copy, log: seq<nat>, j: nat)
    requires Inv(f, m, ff, weakrefs, c) && j < |log| && EntriesSeen(f, c0.seen, log[..j]) && c0.seen <= c.seen &&
        log[j] < |m|
    requires forall i {:trigger UncleanedWord(f, i, log[j])} :: UncleanedWord(f, i, log[j]) && m[log[j]].Pointer? ==>
        AgeAt(f, m[log[j]].addr) != 0
    ensures EntriesSeen(f, c.seen, log[..j + 1])
  {
    var log1, log0 := log[..j + 1], log[..j];
    forall i | 0 <= i < |log1| && InUncleaned(f, log1[i]) ensures EntrySeen(f, c.seen, log1[i]) {
      if i < j {
        assert log0[i] == log1[i];
      } else {
        var s :| UncleanedWord(f, s, log[j]);
        EntryIsSeen(f, m, ff, weakrefs, c, log[j]);
      }
    }
  }

  // ------------------------------------------------------------------ the work queues of agegroup1

  ghost predicate MinorSweeping(h: Heap, i: nat, p: nat)
    reads h, h.ram
  {
    && Cleaning(h) && MinorFlip(h.flip) && CardReady(h.flip, h.cards) && SweptBut(h.flip, h.copy.seen, h.sibs, i, p)
    && i < |h.sibs| && i % 4 != NONPTR_DATA_SIB && h.flip.sibs[i].firstFree <= p <= h.sibs[i].firstFree
  }

  method SweepNurseryWord(h: Heap, i: nat, p: nat)
    requires MinorSweeping(h, i, p) && p < h.sibs[i].firstFree
    modifies h`sibs, h`copy, h`weakrefs, h.ram
    ensures MinorSweeping(h, i, p + 1) && old(h.sibs[i].firstFree) <= h.sibs[i].firstFree
    ensures Further(h.flip, old(h.copy), old(h.sibs), h.copy, h.sibs) && Strictly(h.flip, old(h.copy), h.copy)
    ensures SeenOnly(h.flip, old(h.copy).seen, h.copy.seen, i)
  {
    hide Uncopied, Todo;
    ghost var c, sibs := h.copy, h.sibs;
    QueueHead(h.flip, h.ram[..], h.sibs, h.weakrefs, h.copy, i, p);
    LastOrigin(h.flip, h.ram[..], h.sibs, h.weakrefs, h.copy, i);
    ForwardToAgegroup1IfInAgegroup0(h, p);
    SweepStep(h.flip, c.seen, sibs, i, p, h.sibs);
    FreeGrows(h.flip, c, h.ram[..], h.sibs, h.weakrefs, h.copy, i, sibs[i].firstFree - 1);
  }

  method SweepNurseryUpTo(h: Heap, i: nat, start: nat, q: nat)
    requires MinorSweeping(h, i, start) && start < q <= h.sibs[i].firstFree
    modifies h`sibs, h`copy, h`weakrefs, h.ram
    ensures MinorSweeping(h, i, q)
    ensures Further(h.flip, old(h.copy), old(h.sibs), h.copy, h.sibs) && Strictly(h.flip, old(h.copy), h.copy)
    ensures SeenOnly(h.flip, old(h.copy).seen, h.copy.seen, i)
  {
    hide Uncopied, Todo;
    ghost var c0, sibs0 := h.copy, h.sibs;
    var p := start;
    FurtherReflexive(h.flip, c0, sibs0);
    while p < q
      invariant MinorSweeping(h, i, p) && p <= q <= h.sibs[i].firstFree
      invariant Further(h.flip, c0, sibs0, h.copy, h.sibs) && (start < p ==> Strictly(h.flip, c0, h.copy))
      invariant SeenOnly(h.flip, c0.seen, h.copy.seen, i)
    {
      ghost var c1, sibs1 := h.copy, h.sibs;
      SweepNurseryWord(h, i, p);
      FurtherTransitive(h.flip, c0, sibs0, c1, sibs1, h.copy, h.sibs);
      p := p + 1;
    }
  }

  /** The state between sweeps. */
  ghost predicate MinorRemaining(h: Heap, log: seq<nat>, roots: seq<nat>)
    reads h, h.ram
  {
    && Logging(h, []) && EntriesSeen(h.flip, h.copy.seen, log)
    && (forall j {:trigger roots[j]} :: 0 <= j < |roots| ==> roots[j] in h.copy.seen)
    && LogMarks(h.flip, h.ram[..], h.flip.cards, h.cards, log)
    && forall i {:trigger SweepRange(h.flip, h.sibs, i)} :: SweepRange(h.flip, h.sibs, i)
  }

  /** Sweep one queue of agegroup1 until it is empty.  Returns whether it was not. */
  method SweepAgegroup1SibTospace(h: Heap, i: nat, ghost log: seq<nat>, ghost roots: seq<nat>) returns (progress: bool)
    requires MinorRemaining(h, log, roots) && i < |h.sibs| && i % 4 != NONPTR_DATA_SIB
    modifies h`sibs, h`copy, h`weakrefs, h.ram
    ensures MinorRemaining(h, log, roots) && |h.sibs| == |old(h.sibs)| && Extends(h.flip, old(h.copy), h.copy)
    ensures SweptOut(h.sibs[i])
    ensures if progress then Strictly(h.flip, old(h.copy), h.copy) else h.sibs == old(h.sibs) && h.copy == old(h.copy)
  {
    hide Uncopied, Todo, LogMarks;
    ghost var m0, c0, sibs0, weakrefs0 := h.ram[..], h.copy, h.sibs, h.weakrefs;
    SweepBelowFree(h.flip, h.ram[..], h.sibs, h.weakrefs, h.copy, i);
    progress := SweepQueue(h, i);
    if progress {
      NewAreaIsNotUncleaned(h.flip, c0.seen, h.copy.seen, i);
      LogStable(h.flip, m0, Free(sibs0), weakrefs0, c0, h.ram[..], Free(h.sibs), h.weakrefs, h.copy, h.cards, []);
      RangesKept(h.flip, h.ram[..], h.sibs, h.weakrefs, h.copy, sibs0, i);
      EntriesStaySeen(h.flip, c0.seen, h.copy.seen, log);
      MarksStay(h.flip, m0, Free(sibs0), weakrefs0, c0, h.ram[..], Free(h.sibs), h.weakrefs, h.copy, h.flip.cards,
          h.cards, log);
    }
  }

  lemma EntriesStaySeen(f: Flip, seen: set<int>, seen': set<int>, log: seq<nat>)
    requires EntriesSeen(f, seen, log) && seen <= seen'
    ensures EntriesSeen(f, seen', log)
  {
    forall j | 0 <= j < |log| && InUncleaned(f, log[j])
        ensures EntrySeen(f, seen', log[j]) { assert EntrySeen(f, seen, log[j]); }
  }

  lemma NewAreaIsNotUncleaned(f: Flip, seen: set<int>, seen': set<int>, i: nat)
    requires WellFormed(f) && Uncleaned(f) && SeenOnly(f, seen, seen', i)
    ensures forall x {:trigger x in seen'} :: x in seen' && x !in seen ==>
        forall j {:trigger UncleanedWord(f, j, x)} :: !UncleanedWord(f, j, x)
  {
    forall x, j | x in seen' && x !in seen ensures !UncleanedWord(f, j, x) {
      assert UncleanedOk(f, j, x);
    }
  }

  method SweepQueue(h: Heap, i: nat) returns (progress: bool)
    requires Minor(h) && i < |h.sibs| && i % 4 != NONPTR_DATA_SIB &&
        h.flip.sibs[i].firstFree <= h.sibs[i].sweptEnd <= h.sibs[i].firstFree
    modifies h`sibs, h`copy, h`weakrefs, h.ram
    ensures Minor(h) && Extends(h.flip, old(h.copy), h.copy) && SweptOnly(old(h.sibs), h.sibs, i) &&
        SeenOnly(h.flip, old(h.copy).seen, h.copy.seen, i)
    ensures h.sibs[i].sweptEnd == h.sibs[i].firstFree
    ensures if progress then Strictly(h.flip, old(h.copy), h.copy)
            else (h.sibs == old(h.sibs) && h.copy == old(h.copy) &&
                  h.ram[..] == old(h.ram[..]) && h.weakrefs == old(h.weakrefs))
  {
    hide Uncopied, Todo;
    ghost var c0, sibs0 := h.copy, h.sibs;
    var p := h.sibs[i].sweptEnd;
    progress := false;
    ExtendsReflexive(h.flip, h.copy);
    if p < h.sibs[i].firstFree {
      progress := true;
      UnparkSweep(h.flip, h.copy.seen, h.sibs, i);
      FurtherReflexive(h.flip, c0, sibs0);
      var q: nat := p;
      while q != h.sibs[i].firstFree
        invariant MinorSweeping(h, i, q) && Further(h.flip, c0, sibs0, h.copy, h.sibs)
        invariant q == p < h.sibs[i].firstFree || Strictly(h.flip, c0, h.copy)
        invariant SeenOnly(h.flip, c0.seen, h.copy.seen, i)
        decreases Uncopied(h.flip, h.copy), h.sibs[i].firstFree - q
      {
        ghost var c1, sibs1 := h.copy, h.sibs;
        var end := h.sibs[i].firstFree;
        SweepNurseryUpTo(h, i, q, end);
        FurtherTransitive(h.flip, c0, sibs0, c1, sibs1, h.copy, h.sibs);
        SameFree(h.flip, c1, sibs1, h.copy, h.sibs, i);
        q := end;
      }
      SweepPointerIsFree(h.flip, h.ram[..], h.sibs, h.weakrefs, h.copy, h.huge, h.marked, i, q);
      ParkSweep(h.flip, h.copy.seen, h.sibs, i, q);
      h.sibs := h.sibs[i := h.sibs[i].(sweptEnd := q)];
    }
  }

  method SweepThreeQueues(h: Heap, ghost log: seq<nat>, ghost roots: seq<nat>) returns (making_progress: bool)
    requires MinorRemaining(h, log, roots) && |h.sibs| >= 4
    modifies h`sibs, h`copy, h`weakrefs, h.ram
    ensures MinorRemaining(h, log, roots) && |h.sibs| == |old(h.sibs)|
    ensures if making_progress then Strictly(h.flip, old(h.copy), h.copy) else AllSweptOut(h.sibs, 1)
  {
    hide Uncopied, Todo, MinorRemaining, SweptOut, Extends;
    var p0 := SweepAgegroup1SibTospace(h, RO_POINTERS_SIB, log, roots);
    var p1 := SweepAgegroup1SibTospace(h, RO_CONSCELL_SIB, log, roots);
    var p2 := SweepAgegroup1SibTospace(h, RW_POINTERS_SIB, log, roots);
    making_progress := p0 || p1 || p2;
    if !making_progress {
      assert AllSweptOut(h.sibs, 0);
      SweptOutThrough(h.sibs, 0);
    }
  }

  /** Sweep the three queues of agegroup1, over and over, until all are empty. */
  method CopyAllRemainingReachableValuesInAgegroup0ToAgegroup1(h: Heap, ghost log: seq<nat>, ghost roots: seq<nat>)
    requires MinorRemaining(h, log, roots) && |h.sibs| >= 4
    modifies h`sibs, h`copy, h`weakrefs, h.ram
    ensures MinorRemaining(h, log, roots) && |h.sibs| == |old(h.sibs)| && AllSweptOut(h.sibs, 1)
  {
    hide Uncopied, Todo, MinorRemaining, SweptOut;
    ghost var n := |h.sibs|;
    var making_progress := true;
    while making_progress
      invariant MinorRemaining(h, log, roots) && |h.sibs| == n && (making_progress || AllSweptOut(h.sibs, 1))
      decreases making_progress, Uncopied(h.flip, h.copy), Todo(h.copy)
    {
      making_progress := SweepThreeQueues(h, log, roots);
    }
  }

  // ------------------------------------------------------------------ the whole minor clean

  /** A pointer word outside the nursery is a root, or was logged, or refers to nothing in the nursery. */
  ghost predicate MinorExtOk(f: Flip, roots: seq<nat>, log: seq<nat>, x: int) {
    x in f.ext ==>
      (0 <= x < |f.zone| && |f.zone| == |f.mem| && f.zone[x].Fixed?
       && (x in roots || (x in log && InUncleaned(f, x)) || (f.mem[x].Pointer? ==> AgeAt(f, f.mem[x].addr) != 0)))
  }

  ghost predicate MinorReady(f: Flip, roots: seq<nat>, log: seq<nat>) {
    && WellFormed(f) && Room(f) && MinorFlip(f) && CardReady(f, f.cards) && Uncleaned(f)
    && 4 <= |f.sibs| == 4 * |f.cards| && |f.cards| <= MAX_AGEGROUPS
    && (forall j {:trigger roots[j]} :: 0 <= j < |roots| ==> RootOk(f, roots[j]))
    && (forall j {:trigger log[j]} :: 0 <= j < |log| ==> LogEntryOk(f, log[j]))
    && (forall i {:trigger SweepStart(f, i)} :: SweepStart(f, i))
    && (forall x {:trigger MinorExtOk(f, roots, log, x)} :: MinorExtOk(f, roots, log, x))
    && (forall a {:trigger DestSwept(f, 1, a)} :: DestSwept(f, 1, a))
    && LogLeft(f, f.mem, f.cards, log)
  }

  /** What a minor clean leaves: the live part of the nursery has moved to agegroup1, no word outside refers
      to the nursery any more, and every word of the older agegroups is covered by its card. */
  ghost predicate MinorCleanedState(f: Flip, m: seq<Word>, sibs: seq<Sib>, c: Copy, cards: seq<CardMap>) {
    && SameBuffers(f.sibs, sibs) && |m| == |f.mem| && Layout(f, Free(sibs), c) &&
        (forall i {:trigger SweepDone(sibs, i)} :: SweepDone(sibs, i))
    && LiveGraphCopied(f, Free(sibs), c.fwd, m)
    && (forall x {:trigger ExtMoved(f, c.fwd, m, x)} :: ExtMoved(f, c.fwd, m, x))
    && (forall x {:trigger RestKept(f, m, x)} :: RestKept(f, m, x))
    && CardReady(f, cards) && |cards| == |f.cards| && LogLeft(f, m, cards, []) && AllLowered(f.cards, cards)
    && (forall a {:trigger a in c.chain} :: a in c.chain ==> Chunk(f, a) && Weak(f, a))
  }

  lemma MinorScans(f: Flip, roots: seq<nat>, log: seq<nat>)
    requires MinorReady(f, roots, log)
    ensures SweptBut(f, {}, f.sibs, -1, 0) && forall i {:trigger SweepRange(f, f.sibs, i)} :: SweepRange(f, f.sibs, i)
  {
    var n, s := -1, {};
    forall j, x ensures SweepOk(f, s, j, SweepPoint(f.sibs, n, 0, j), x) { assert SweepStart(f, j); }
    forall i ensures SweepRange(f, f.sibs, i) { assert SweepStart(f, i) && (0 <= i < |f.sibs| ==> SibOk(f, i)); }
  }

  /** Copy what is live in the nursery. */
  method CopyNursery(h: Heap, roots: seq<nat>, log: seq<nat>)
    requires MinorReady(h.flip, roots, log) && AtFlip(h)
    modifies h`sibs, h`copy, h`weakrefs, h`cards, h.ram
    ensures MinorRemaining(h, log, roots) && AllSweptOut(h.sibs, 1) && AllLowered(h.flip.cards, h.cards)
  {
    FlipState(h.flip);
    MinorScans(h.flip, roots, log);
    ForwardMinorRoots(h, roots, log);
    ghost var c1 := h.copy;
    ProcessTaskHeapChangelog(h, log);
    forall i ensures SweepRange(h.flip, h.sibs, i) { assert SweepRange(h.flip, h.flip.sibs, i); }
    forall j | 0 <= j < |roots| ensures roots[j] in h.copy.seen { assert roots[j] in c1.seen; }
    CopyAllRemainingReachableValuesInAgegroup0ToAgegroup1(h, log, roots);
  }

  method HeapcleanAgegroup0(h: Heap, roots: seq<nat>, log: seq<nat>)
    requires MinorReady(h.flip, roots, log) && AtFlip(h) && 1 <= |h.counts|
    modifies h`sibs, h`copy, h`weakrefs, h`cards, h`counts, h.ram
    ensures MinorCleanedState(h.flip, h.ram[..], h.sibs, h.copy, h.cards) && h.weakrefs == 0
    ensures h.counts == old(h.counts)[0 := old(h.counts)[0] + 1]
    ensures LogMarks(h.flip, h.ram[..], h.flip.cards, h.cards, log)
  {
    hide LogMarks;
    CopyNursery(h, roots, log);
    h.counts := h.counts[0 := h.counts[0] + 1];
    ghost var m, w := h.ram[..], h.weakrefs;
    NullOutNewlyDeadWeakrefs(h);
    MarksSettled(h.flip, m, Free(h.sibs), w, h.copy, h.ram[..], h.flip.cards, h.cards, log);
    MinorConclude(h.flip, roots, log, m, h.sibs, w, h.copy, h.huge, h.marked, h.cards, h.ram[..]);
  }

  lemma MinorConclude(f: Flip, roots: seq<nat>, log: seq<nat>, m: seq<Word>, sibs: seq<Sib>, w: nat, c: Copy,
      huge: seq<Huge>, marked: set<int>,
                      cards: seq<CardMap>, m': seq<Word>)
    requires MinorReady(f, roots, log) && CleaningState(f, m, sibs, w, c, huge, marked) &&
        SweptBut(f, c.seen, sibs, -1, 0) && AllSweptOut(sibs, 1)
    requires EntriesSeen(f, c.seen, log) && forall j {:trigger roots[j]} :: 0 <= j < |roots| ==> roots[j] in c.seen
    requires forall i {:trigger SweepRange(f, sibs, i)} :: SweepRange(f, sibs, i)
    requires CardReady(f, cards) && |cards| == |f.cards| && AllLowered(f.cards, cards) && LogLeft(f, m, cards, []) &&
        SettledFrom(f, m, c, m', 0)
    ensures MinorCleanedState(f, m', sibs, c, cards)
  {
    var ff := Free(sibs);
    SweptMeansVisited(f, m, sibs, w, c, 1);
    forall x, b | RootWord(f, x, b) ensures b in c.fwd { MinorRootClosed(f, roots, log, m, ff, w, c, x, b); }
    GraphIsCopied(f, m, ff, w, c, m');
    forall i ensures SweepDone(sibs, i) { MinorQueueEmpty(f, roots, log, m, sibs, w, c, i); }
    forall x ensures ExtMoved(f, c.fwd, m', x) && RestKept(f, m', x) { MinorOuter(f, roots, log, m, ff, w, c, m', x); }
    forall i, x ensures OldCovered(f, m', cards, [], i, x) {
      assert OldCovered(f, m, cards, [], i, x) && UncleanedOk(f, i, x) && SettledWord(f, m, c, m', 0, x);
      assert x in c.org ==> OriginOk(f, ff, c.fwd, x, c.org[x]);
    }
    forall a | a in c.chain ensures Chunk(f, a) && Weak(f, a) {
      var j :| 0 <= j < |c.chain| && c.chain[j] == a;
      assert LinkOk(f, m, c.fwd, c.chain, j);
    }
  }

  /** A word outside the nursery that refers to it has been visited. */
  lemma MinorReferringIsSeen(f: Flip, roots: seq<nat>, log: seq<nat>, seen: set<int>, x: int)
    requires MinorReady(f, roots, log) && EntriesSeen(f, seen, log) &&
        forall j {:trigger roots[j]} :: 0 <= j < |roots| ==> roots[j] in seen
    requires ScanWord(f, x) && f.zone[x].Fixed? && f.mem[x].Pointer? && AgeAt(f, f.mem[x].addr) == 0
    ensures x in seen
  {
    assert MinorExtOk(f, roots, log, x);
    if x !in roots {
      var j :| 0 <= j < |log| && log[j] == x;
      assert EntrySeen(f, seen, log[j]);
    }
  }

  lemma MinorRootClosed(f: Flip, roots: seq<nat>, log: seq<nat>, m: seq<Word>, ff: seq<nat>, w: nat, c: Copy, x: int,
      b: int)
    requires MinorReady(f, roots, log) && EntriesSeen(f, c.seen, log) && Inv(f, m, ff, w, c) && RootWord(f, x, b)
    requires forall j {:trigger roots[j]} :: 0 <= j < |roots| ==> roots[j] in c.seen
    ensures b in c.fwd
  {
    assert Chunk(f, b) ==> AgeAt(f, b) == 0;
    MinorReferringIsSeen(f, roots, log, c.seen, x);
    assert FixedOk(f, m, c.fwd, c.seen, x);
  }

  lemma MinorOuter(f: Flip, roots: seq<nat>, log: seq<nat>, m: seq<Word>, ff: seq<nat>, w: nat, c: Copy, m': seq<Word>,
      x: int)
    requires MinorReady(f, roots, log) && EntriesSeen(f, c.seen, log) && Inv(f, m, ff, w, c) &&
        SettledFrom(f, m, c, m', 0)
    requires forall j {:trigger roots[j]} :: 0 <= j < |roots| ==> roots[j] in c.seen
    ensures ExtMoved(f, c.fwd, m', x) && RestKept(f, m', x)
  {
    assert FixedOk(f, m, c.fwd, c.seen, x) && SettledWord(f, m, c, m', 0, x);
    assert x in c.org ==> OriginOk(f, ff, c.fwd, x, c.org[x]);
    if 0 <= x < |m| && x in f.ext && f.zone[x].Fixed? && f.mem[x].Pointer? && Chunk(f, f.mem[x].addr) {
      assert AgeAt(f, f.mem[x].addr) == 0;
      MinorReferringIsSeen(f, roots, log, c.seen, x);
    }
  }

  lemma MinorQueueEmpty(f: Flip, roots: seq<nat>, log: seq<nat>, m: seq<Word>, sibs: seq<Sib>, w: nat, c: Copy, i: int)
    requires MinorReady(f, roots, log) && Inv(f, m, Free(sibs), w, c) && SameBuffers(f.sibs, sibs) &&
        SweptBut(f, c.seen, sibs, -1, 0)
    requires AllSweptOut(sibs, 1) && forall j {:trigger SweepRange(f, sibs, j)} :: SweepRange(f, sibs, j)
    ensures SweepDone(sibs, i)
  {
    if 0 <= i < |sibs| && i % 4 != NONPTR_DATA_SIB {
      SweepBelowFree(f, m, sibs, w, c, i);
      assert SweepStart(f, i) && SibOk(f, i) && Free(sibs)[i] == sibs[i].firstFree && SameBuffer(f.sibs[i], sibs[i]);
      if i < 4 {
        assert SweptOut(sibs[i]);
      } else {
        NothingInOlder(f, m, sibs, w, c, i);
      }
    }
  }

  lemma NothingInOlder(f: Flip, m: seq<Word>, sibs: seq<Sib>, w: nat, c: Copy, i: nat)
    requires Inv(f, m, Free(sibs), w, c) && 4 <= i < |sibs| &&
        forall a {:trigger DestSwept(f, 1, a)} :: DestSwept(f, 1, a)
    ensures sibs[i].firstFree == f.sibs[i].firstFree
  {
    assert Free(sibs)[i] == sibs[i].firstFree;
    var p := f.sibs[i].firstFree;
    assert CoverOk(f, Free(sibs), c.org, i, p) && SibOk(f, i) && AreaOk(f, i, p);
    if p in c.org {
      assert OriginOk(f, Free(sibs), c.fwd, p, c.org[p]);
      var a := if c.org[p] >= 0 then f.zone[c.org[p]].chunk else -1 - c.org[p];
      assert a in c.fwd ==> Forwarded(f, m, a, c.fwd[a]);
      assert DestSwept(f, 1, a);
    }
  }
}
