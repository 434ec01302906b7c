/** The heap between cleans: what holds of it, and that flipping the spaces of agegroups 1 to k gives a heap
    that a major clean can start from.

    A heap at rest is described by a `Flip` whose `k` is the number of agegroups: every chunk of every
    agegroup is `Old`, the free area of every sib is `New`, and `ext` holds the root locations. */
module HeapWorld {
  import opened HeapTags
  import opened HeapModel
  import opened Forwarding
  import opened HeapObject
  import opened MajorForward
  import opened MajorSweep
  import opened MajorCards
  import opened MajorRoots
  import opened MajorClean
  import opened MajorSizing
  import opened MajorHuge

  // ------------------------------------------------------------------ places and their order

  /** A junior of age g is at 2g, a senior at 2g + 1. */
  function ChunkPlace(w: Flip, a: nat): int {
    var i := SibIndex(AgeAt(w, a), KindAt(w, a));
    2 * AgeAt(w, a) + if 0 <= i < |w.sibs| && a < w.sibs[i].seniorEnd then 1 else 0
  }

  function HugePlace(d: Huge): int { 2 * d.age + if d.state == SENIOR_HUGECHUNK then 1 else 0 }

  function PointeePlace(w: Flip, addr: nat): int {
    var d := HugeAt(w.b2s, w.quires, addr);
    if KindAt(w, addr) == CODE_KIND && 0 <= d < |w.huge| then HugePlace(w.huge[d]) else ChunkPlace(w, addr)
  }

  /** Chunks the mutator never changes: records, pairs and weakrefs. */
  predicate Immutable(w: Flip, a: int) { a >= 0 && (Slot(w, a) == RO_POINTERS_SIB || Slot(w,
      a) == RO_CONSCELL_SIB || Weak(w, a)) }

  /** An immutable chunk points to no younger place than its own. */
  predicate OrderedWord(w: Flip, x: int) {
    0 <= x < |w.mem| && |w.zone| == |w.mem| && w.zone[x].Old? && Immutable(w, w.zone[x].chunk) && w.mem[x].Pointer? &&
        AgeAt(w, w.mem[x].addr) <= w.k
    ==> ChunkPlace(w, w.zone[x].chunk) <= PointeePlace(w, w.mem[x].addr)
  }

  // ------------------------------------------------------------------ the heap at rest

  /** Every word in use in a pointer sib belongs to a chunk. */
  predicate UsedOk(w: Flip, i: int, x: int) {
    0 <= i < |w.sibs| && i % 4 != NONPTR_DATA_SIB && w.sibs[i].start <= x < w.sibs[i].firstFree ==>
        && 0 <= x < |w.zone|
        && w.zone[x].Old?
  }

  /** A chunk lies in the used part of its sib and not across the boundary between seniors and juniors. */
  predicate HomeOk(w: Flip, a: int) {
    a >= 0 && Chunk(w, a) ==>
      var i := SibIndex(AgeAt(w, a), KindAt(w, a));
      && 0 <= i < |w.sibs| && 1 <= AgeAt(w, a) <= w.k && 1 <= KindAt(w, a) <= 4
      && var s := w.sibs[i];
        && s.start <= a - OldHeader(w, a) && a + Length(w, a) <= s.firstFree
        && (if a < s.seniorEnd then a + Length(w, a) <= s.seniorEnd else s.seniorEnd <= a - OldHeader(w, a))
  }

  predicate SibRests(w: Flip, i: int) {
    0 <= i < |w.sibs| ==>
      var s := w.sibs[i];
      && s.promoted == (if i / 4 + 1 == w.k then i else i + 4)
      && (if Active(s) then s.start <= s.seniorEnd <= s.firstFree
          else s.start == s.firstFree == s.limit == s.seniorEnd == 0)
      && (i / 4 + 1 == w.k ==> s.seniorEnd == s.start) && s.fromStart == s.fromFirstFree == s.fromLimit == 0
  }

  predicate CardCovers(w: Flip, i: int, x: int) {
    0 <= i < |w.sibs| && i % 4 == RW_POINTERS_SIB && w.sibs[i].start <= x < w.sibs[i].firstFree && x < |w.mem|
    ==> i / 4 < |w.cards| && Covers(w, w.cards[i / 4], SibAge(i), x, w.mem[x])
  }

  /** Code that is referred to is live. */
  predicate CodeLives(w: Flip, x: int) {
    ScanWord(w, x) && w.mem[x].Pointer? && KindAt(w, w.mem[x].addr) == CODE_KIND
    ==> var d := HugeAt(w.b2s, w.quires, w.mem[x].addr); 0 <= d < |w.huge| && LiveHuge(w.huge[d])
  }

  /** Only quires have record books. */
  predicate RecordIsCode(b2s: seq<Sibid>,
      b: nat) { b < |b2s| && b2s[b].id == HUGECHUNK_RECORD ==> b2s[b].kind == CODE_KIND }

  /** Every reference from a mutable word to something younger is on a card that says so. */
  ghost predicate AllCovered(w: Flip) { forall i, x {:trigger CardCovers(w, i, x)} :: CardCovers(w, i, x) }

  ghost predicate AtRest(w: Flip, roots: seq<nat>, lists: seq<seq<nat>>, quireList: seq<nat>) {
    AtRestBut(w, roots, lists, quireList) && AllCovered(w)
  }

  /** The heap is at rest except that cards may be wrong. */
  ghost predicate AtRestBut(w: Flip, roots: seq<nat>, lists: seq<seq<nat>>, quireList: seq<nat>) {
    && WellFormed(w) && MajorFlip(w) && w.k <= MAX_AGEGROUPS && |w.mem| <= |w.b2s| * BOOK &&
        |w.sibs| == 4 * w.k == 4 * |w.cards|
    && CardReady(w, w.cards) && RootsOk(w, {}, roots) && w.ext == (set x | x in roots :: x as int)
    && (forall i, x {:trigger UsedOk(w, i, x)} :: UsedOk(w, i, x))
    && (forall a {:trigger HomeOk(w, a)} :: HomeOk(w, a))
    && (forall i {:trigger SibRests(w, i)} :: SibRests(w, i))
    && (forall i {:trigger SweepStart(w, i)} :: SweepStart(w, i))
    && (forall x {:trigger OrderedWord(w, x)} :: OrderedWord(w, x))
    && (forall x {:trigger CodeLives(w, x)} :: CodeLives(w, x))
    && (forall b: nat {:trigger RecordIsCode(w.b2s, b)} :: RecordIsCode(w.b2s, b))
    && HugeListsOk(w.huge, lists, 0, w.k) && QuiresOk(w.b2s, w.quires, w.huge, quireList) && NoRepeats(quireList)
  }

  // ------------------------------------------------------------------ the flip

  function LabelSib(b2s: seq<Sibid>, x: nat): int { SibIndex(SibidFor(b2s, x).age, SibidFor(b2s, x).kind) }

  function FlipZone(w: Flip, k: nat, b2s: seq<Sibid>, sibs: seq<Sib>, x: nat): Zone
    requires x < |w.zone|
  {
    if w.zone[x].Old? then (if w.zone[x].chunk >= 0 && AgeAt(w, w.zone[x].chunk) <= k then w.zone[x] else Fixed)
    else
      var i := LabelSib(b2s, x);
      if 0 <= i < |sibs| && sibs[i].firstFree <= x < sibs[i].limit then New(i) else Fixed
  }

  /** A word of an agegroup that is not being cleaned, in a sib of pointers. */
  predicate OlderPart(w: Flip, k: nat, x: int) {
    0 <= x < |w.zone| && w.zone[x].Old? && w.zone[x].chunk >= 0 && AgeAt(w, w.zone[x].chunk) > k &&
        Slot(w, w.zone[x].chunk) != NONPTR_DATA_SIB
  }

  ghost function FlipOf(w: Flip, k: nat, m: seq<Word>, b2s: seq<Sibid>, sibs: seq<Sib>, cards: seq<CardMap>): Flip {
    Flip(m, b2s, sibs, seq(|w.zone|, x requires 0 <= x < |w.zone| => FlipZone(w, k, b2s, sibs, x)),
         w.ext + (set x: int | 0 <= x < |w.zone| && OlderPart(w, k, x)), w.quires, w.huge, cards, k)
  }

  /** What the operating system grants is in nobody's use. */
  ghost predicate GrantsFresh(w: Flip, bases: seq<nat>, grants: seq<nat>) {
    && (forall a, x {:trigger InWords(bases, grants, a, x)} :: InWords(bases, grants, a, x) ==>
          0 <= x && x !in w.ext && KindAt(w, x) != CODE_KIND && AgeAt(w, x) != 0 &&
              forall i {:trigger InBuffer(w, i, x)} :: !InBuffer(w, i, x))
    && (forall x {:trigger ScanWord(w, x)} :: ScanWord(w, x) && w.mem[x].Pointer? ==>
        forall a {:trigger InWords(bases, grants, a, w.mem[x].addr)} :: !InWords(bases, grants, a, w.mem[x].addr))
  }
}
