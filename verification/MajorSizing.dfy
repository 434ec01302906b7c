/** establish_all_required_empty_tospace_sib_buffers of heapclean-n-agegroups.c and
    set_up_tospace_sib_buffers_for_agegroup of heapcleaner-stuff.c: how many agegroups to clean, how large
    their new to-spaces are, and where they lie. */
module MajorSizing {
  import opened HeapTags
  import opened HeapModel
  import opened HeapObject

  /** Words of chunks that stay in a sib, and of those promoted out of it, if all of them are live. */
  function Juniors(s: Sib): nat { if Active(s) && s.seniorEnd <= s.firstFree then s.firstFree - s.seniorEnd else 0 }
  function Seniors(s: Sib): nat { if Active(s) && s.start <= s.seniorEnd then s.seniorEnd - s.start else 0 }

  predicate SibShape(s: Sib) { s.start <= s.seniorEnd <= s.firstFree <= s.limit || !Active(s) }

  /** Bytes rounded up to whole books, in words. */
  function BookRounded(bytes: nat): (words: nat)
    ensures words % BOOK == 0 && bytes <= 4 * words < bytes + 4 * BOOK
  {
    (bytes + 4 * BOOK - 1) / (4 * BOOK) * BOOK
  }

  /** The smallest to-space that serves: the space asked for, what may be promoted into it and what may
      stay; the first pair of a pair space is never used. */
  function MinWords(requested: nat, incoming: nat, juniors: nat, s: nat): nat {
    requested + incoming + juniors + if s == RO_CONSCELL_SIB then 2 else 0
  }

  /** The smallest size noted for a sib.  A sib that is not in use and needs nothing is passed over, so that
      what was noted for its younger sibling stands. */
  function MinNext(noted: nat, s: Sib, requested: nat, incoming: nat, slot: nat): nat {
    if !Active(s) && requested == 0 && incoming == 0 then noted else MinWords(requested, incoming, Juniors(s), slot)
  }

  /** A size in words is the whole number of books, 64KB each, that just holds what is preferred: room for what is
      asked for, what may be promoted and the ratio aimed at, or the minimum if that is more; and when that is above
      the soft limit, the soft limit or the minimum, whichever is more.  All but `words` is counted in bytes, and `n`
      is how often the next younger agegroup was cleaned since. */
  predicate WellSized(requested: int, incoming: int, juniors: int, s: nat, n: int, ratio: nat, soft_max: nat,
      words: int) {
    n >= 1 && words % BOOK == 0 &&
    var least := requested + incoming + juniors + if s == RO_CONSCELL_SIB then 8 else 0;
    var preferred := requested + incoming + juniors / n * ratio;
    && (least <= preferred <= soft_max ==> preferred <= 4 * words < preferred + 4 * BOOK)
    && (preferred < least ==> least <= 4 * words < least + 4 * BOOK)
    && (least <= soft_max < preferred ==> soft_max <= 4 * words < soft_max + 4 * BOOK)
    && (soft_max < least <= preferred ==> least <= 4 * words < least + 4 * BOOK)
  }

  /** The size of a to-space: room for the ratio aimed at, cut to the soft limit, but never below the minimum.
      `n` is how often the next younger agegroup was cleaned since. */
  method SizeSib(requested: nat, incoming: nat, juniors: nat, s: nat, n: nat, ratio: nat, soft_max_bytesize: nat)
      returns (words: nat)
    requires n >= 1
    ensures words % BOOK == 0 && words >= MinWords(requested, incoming, juniors, s)
    ensures WellSized(4 * requested, 4 * incoming, 4 * juniors, s, n, ratio, soft_max_bytesize, words)
  {
    var min_bytes_for_sib := 4 * MinWords(requested, incoming, juniors, s);
    var preferred_bytesize_for_sib := 4 * requested + 4 * incoming + 4 * juniors / n * ratio;
    if preferred_bytesize_for_sib < min_bytes_for_sib {
      preferred_bytesize_for_sib := min_bytes_for_sib;
    }
    if preferred_bytesize_for_sib > soft_max_bytesize {
      preferred_bytesize_for_sib := if soft_max_bytesize > min_bytes_for_sib then soft_max_bytesize
          else min_bytes_for_sib;
    }
    if preferred_bytesize_for_sib == 0 {
      words := 0;
    } else {
      words := BookRounded(preferred_bytesize_for_sib);
    }
  }

  /** Sib i before and after it is flipped: the new to-space is empty and large enough; what was to-space
      is remembered as from-space. */
  predicate SibFlipped(s: Sib, s': Sib, room: nat) {
    && s' == Sib(s'.start, s'.start, s'.limit, s'.start, if Active(s) then s.start else 0,
        if Active(s) then s.firstFree else 0,
               if Active(s) then s.limit else 0, s.seniorEnd, s.promoted)
    && s'.start + room <= s'.limit
  }

  /** What may be promoted into sib i. */
  function Promotable(sibs: seq<Sib>, nursery: nat, i: nat): nat {
    if i < 4 then nursery else if i < |sibs| + 4 then Seniors(sibs[i - 4]) else 0
  }

  function RoomNeeded(sibs: seq<Sib>, requested: seq<nat>, nursery: nat, i: nat): nat
    requires i < |sibs| == |requested|
  {
    requested[i] + Promotable(sibs, nursery, i) + Juniors(sibs[i])
  }

  // ------------------------------------------------------------------ planning one agegroup

  predicate SizeOk(s: Sib, requested: nat, incoming: nat, slot: nat, size: nat) {
    && size % BOOK == 0
    && (size >= MinWords(requested, incoming, Juniors(s), slot) || (size == 0 &&
        requested + incoming + Juniors(s) == 0))
  }

  /** The size chosen first for a sib: none if it is not in use and needs nothing. */
  predicate FirstChoice(s: Sib, requested: nat, incoming: int, slot: nat, n: int, ratio: nat, soft_max: nat,
      size: int) {
    if s.limit <= s.start && requested == 0 && incoming == 0 then size == 0
    else WellSized(4 * requested, 4 * incoming, if s.limit <= s.start then 0 else 4 * (s.firstFree - s.seniorEnd), slot,
        n, ratio, soft_max, size)
  }

  /** It serves. */
  lemma FirstChoiceServes(s: Sib, requested: nat, incoming: nat, slot: nat, n: int, ratio: nat, soft_max: nat,
      size: nat)
    requires FirstChoice(s, requested, incoming, slot, n, ratio, soft_max, size) && SibShape(s)
    ensures SizeOk(s, requested, incoming, slot, size)
  {
  }

  /** Sib i with its to-space remembered as from-space. */
  function FromSib(s: Sib): Sib {
    s.(fromStart := if Active(s) then s.start else 0, fromFirstFree := if Active(s) then s.firstFree else 0,
       fromLimit := if Active(s) then s.limit else 0)
  }

  /** Turn the to-spaces of an agegroup into from-spaces and choose sizes for the new ones.  `incoming` is
      what the next younger agegroup may promote, `seniors` what this one may, `minima` the sizes to fall
      back on. */
  method PlanAgegroup(h: Heap, age: nat, incoming: seq<nat>, noted: seq<nat>, n: nat)
      returns (sizes: seq<nat>, minima: seq<nat>, seniors: seq<nat>)
    requires 4 * age + 4 <= |h.sibs| == |h.requested| == |h.softMax| && |incoming| == |noted| == 4 && n >= 1 &&
        age < |h.ratios|
    requires forall i {:trigger h.sibs[i]} :: 4 * age <= i < 4 * age + 4 ==> SibShape(h.sibs[i])
    modifies h`sibs
    ensures |sizes| == |seniors| == |minima| == 4 && |h.sibs| == |old(h.sibs)|
    ensures forall s {:trigger minima[s]} :: 0 <= s < 4 ==>
        minima[s] == MinNext(noted[s], old(h.sibs)[4 * age + s], h.requested[4 * age + s], incoming[s], s)
    ensures forall i {:trigger h.sibs[i]} :: 0 <= i < |h.sibs| ==>
        h.sibs[i] == if i / 4 == age then FromSib(old(h.sibs)[i]) else old(h.sibs)[i]
    ensures forall s {:trigger sizes[s]} :: 0 <= s < 4 ==> FirstChoice(old(h.sibs)[4 * age + s],
        h.requested[4 * age + s], incoming[s], s, n, h.ratios[age], h.softMax[4 * age + s], sizes[s])
    ensures forall s {:trigger seniors[s]} :: 0 <= s < 4 ==> seniors[s] == Seniors(old(h.sibs)[4 * age + s])
  {
    ghost var sibs0 := h.sibs;
    sizes, minima, seniors := [], noted, incoming;
    var s := 0;
    while s < 4
      invariant s <= 4 && |sizes| == s && |seniors| == |minima| == 4 && |h.sibs| == |sibs0|
      invariant forall i {:trigger h.sibs[i]} :: 0 <= i < |h.sibs| ==>
          h.sibs[i] == if 4 * age <= i < 4 * age + s then FromSib(sibs0[i]) else sibs0[i]
      invariant forall j {:trigger sizes[j]} {:trigger minima[j]} {:trigger seniors[j]} :: 0 <= j < s ==>
          SibPlanned(sibs0[4 * age + j], h.requested[4 * age + j], incoming[j], j, n, h.ratios[age],
            h.softMax[4 * age + j], noted[j], sizes[j], minima[j], seniors[j])
    {
      hide FromSib, SibPlanned;
      var size, minimum, senior := PlanSib(h, 4 * age + s, s, incoming[s], noted[s], n, h.ratios[age]);
      minima := minima[s := minimum];
      seniors := seniors[s := senior];
      sizes := sizes + [size];
      s := s + 1;
    }
  }

  predicate SibPlanned(s: Sib, requested: nat, incoming: nat, slot: nat, n: nat, ratio: nat, soft_max: nat, noted: nat,
      size: nat, minimum: nat, senior: nat) {
    && FirstChoice(s, requested, incoming, slot, n, ratio, soft_max, size) && senior == Seniors(s)
    && minimum == MinNext(noted, s, requested, incoming, slot)
  }

  /** The same for one sib. */
  method PlanSib(h: Heap, i: nat, slot: nat, incoming: nat, noted: nat, n: nat, ratio: nat)
      returns (size: nat, minimum: nat, senior: nat)
    requires i < |h.sibs| == |h.requested| == |h.softMax| && n >= 1 && SibShape(h.sibs[i])
    modifies h`sibs
    ensures h.sibs == old(h.sibs)[i := FromSib(old(h.sibs)[i])]
    ensures SibPlanned(old(h.sibs)[i], h.requested[i], incoming, slot, n, ratio, h.softMax[i], noted, size, minimum,
        senior)
  {
    hide WellSized;
    var sib := h.sibs[i];
    size, minimum, senior := 0, noted, 0;
    if Active(sib) {
      h.sibs := h.sibs[i := sib.(fromStart := sib.start, fromFirstFree := sib.firstFree, fromLimit := sib.limit)];
      var juniors := sib.firstFree - sib.seniorEnd;
      minimum := MinWords(h.requested[i], incoming, juniors, slot);
      size := SizeSib(h.requested[i], incoming, juniors, slot, n, ratio, h.softMax[i]);
      senior := sib.seniorEnd - sib.start;
    } else {
      h.sibs := h.sibs[i := sib.(fromStart := 0, fromFirstFree := 0, fromLimit := 0)];
      if h.requested[i] != 0 || incoming != 0 {
        minimum := MinWords(h.requested[i], incoming, 0, slot);
        size := SizeSib(h.requested[i], incoming, 0, slot, n, ratio, h.softMax[i]);
      }
    }
  }

  // ------------------------------------------------------------------ placing one agegroup

  /** Where the s-th to-space of an agegroup starts within its quire. */
  function Offset(sizes: seq<nat>, s: nat): (o: nat)
    requires s <= |sizes|
  {
    if s == 0 then 0 else Offset(sizes, s - 1) + sizes[s - 1]
  }

  lemma {:induction false} OffsetsGrow(sizes: seq<nat>, s: nat, t: nat)
    requires s <= t <= |sizes|
    ensures Offset(sizes, s) <= Offset(sizes, t)
    ensures s < t ==> Offset(sizes, s) + sizes[s] <= Offset(sizes, t)
    decreases t - s
  {
    if s < t {
      OffsetsGrow(sizes, s, t - 1);
    }
  }

  lemma {:induction false} OffsetsAreBooks(sizes: seq<nat>, s: nat)
    requires s <= |sizes| && forall j {:trigger sizes[j]} :: 0 <= j < |sizes| ==> sizes[j] % BOOK == 0
    ensures Offset(sizes, s) % BOOK == 0
  {
    if s > 0 {
      OffsetsAreBooks(sizes, s - 1);
    }
  }

  /** The s-th to-space of a quire at base; the first pair of a pair space is never used. */
  function Placed(sib: Sib, base: nat, sizes: seq<nat>, s: nat): Sib
    requires s < |sizes|
  {
    if sizes[s] == 0 then sib.(start := 0, firstFree := 0, sweptEnd := 0, limit := 0)
    else
      var p := base + Offset(sizes, s) + if s == RO_CONSCELL_SIB then 2 else 0;
      sib.(start := p, firstFree := p, sweptEnd := p, limit := base + Offset(sizes, s) + sizes[s])
  }

  predicate InPart(base: nat, sizes: seq<nat>, s: nat, book: int) {
    s < |sizes| && (base + Offset(sizes, s)) / BOOK <= book < (base + Offset(sizes, s) + sizes[s]) / BOOK
  }

  /** Book `book` after the first n to-spaces of an agegroup have been labelled. */
  predicate Labelled(b2s0: seq<Sibid>, b2s: seq<Sibid>, age: nat, base: nat, sizes: seq<nat>, n: nat, book: int) {
    0 <= book < |b2s| && |b2s| == |b2s0| && n <= |sizes| ==>
      && (forall s {:trigger InPart(base, sizes, s, book)} ::
          0 <= s < n && InPart(base, sizes, s, book) ==> b2s[book] == Sibid(age + 1, s + 1, 0))
      && ((forall s {:trigger InPart(base, sizes, s, book)} :: 0 <= s < n ==> !InPart(base, sizes, s, book)) ==>
          b2s[book] == b2s0[book])
  }

  method PlaceSib(h: Heap, age: nat, s: nat, p: nat, size: nat)
    requires 4 * age + s < |h.sibs| && (p + size) / BOOK <= |h.b2s|
    modifies h`sibs, h`b2s
    ensures |h.b2s| == |old(h.b2s)|
    ensures var i := 4 * age + s; h.sibs == old(h.sibs)[i :=
      if size == 0 then old(h.sibs)[i].(start := 0, firstFree := 0, sweptEnd := 0, limit := 0)
      else old(h.sibs)[i].(start := p, firstFree := p, sweptEnd := p, limit := p + size)]
    ensures forall b {:trigger h.b2s[b]} :: 0 <= b < |h.b2s| ==>
      h.b2s[b] == if p / BOOK <= b < (p + size) / BOOK then Sibid(age + 1, s + 1, 0) else old(h.b2s)[b]
  {
    var i := 4 * age + s;
    if size == 0 {
      h.sibs := h.sibs[i := h.sibs[i].(start := 0, firstFree := 0, sweptEnd := 0, limit := 0)];
    } else {
      h.sibs := h.sibs[i := h.sibs[i].(start := p, firstFree := p, sweptEnd := p, limit := p + size)];
      SetBook2sibidEntriesForRange(h, p / BOOK, (p + size) / BOOK, Sibid(age + 1, s + 1, 0));
    }
  }

  method PlaceSibs(h: Heap, age: nat, sizes: seq<nat>, base: nat)
    requires 4 * age + 4 <= |h.sibs| && |sizes| == 4 && base % BOOK == 0
    requires forall j {:trigger sizes[j]} :: 0 <= j < 4 ==> sizes[j] % BOOK == 0
    requires (base + Offset(sizes, 4)) / BOOK <= |h.b2s|
    modifies h`sibs, h`b2s
    ensures |h.sibs| == |old(h.sibs)| && |h.b2s| == |old(h.b2s)|
    ensures forall i {:trigger h.sibs[i]} :: 0 <= i < |h.sibs| ==>
      h.sibs[i] == if 4 * age <= i < 4 * age + 4 then Whole(old(h.sibs)[i], base, sizes, i - 4 * age)
          else old(h.sibs)[i]
    ensures forall b {:trigger Labelled(old(h.b2s), h.b2s, age, base, sizes, 4, b)} ::
        Labelled(old(h.b2s), h.b2s, age, base, sizes, 4, b)
  {
    ghost var sibs0, b2s0 := h.sibs, h.b2s;
    var p, s := base, 0;
    while s < 4
      invariant s <= 4 && p == base + Offset(sizes, s) && |h.sibs| == |sibs0| && |h.b2s| == |b2s0|
      invariant forall i {:trigger h.sibs[i]} :: 0 <= i < |h.sibs| ==>
        h.sibs[i] == if 4 * age <= i < 4 * age + s then Whole(sibs0[i], base, sizes, i - 4 * age) else sibs0[i]
      invariant forall b {:trigger Labelled(b2s0, h.b2s, age, base, sizes, s, b)} ::
          Labelled(b2s0, h.b2s, age, base, sizes, s, b)
    {
      hide Labelled;
      ghost var b2s1 := h.b2s;
      OffsetsGrow(sizes, s, 4);
      OffsetsAreBooks(sizes, s);
      PlaceSib(h, age, s, p, sizes[s]);
      LabelledOne(b2s0, b2s1, h.b2s, age, base, sizes, s);
      p := p + sizes[s];
      s := s + 1;
    }
  }

  /** Lay the new to-spaces out in the agegroup's quire and label their books. */
  method SetUpTospaceSibBuffersForAgegroup(h: Heap, age: nat, sizes: seq<nat>, base: nat)
    requires 4 * age + 4 <= |h.sibs| && |sizes| == 4 && 0 < base && base % BOOK == 0
    requires forall j {:trigger sizes[j]} :: 0 <= j < 4 ==> sizes[j] % BOOK == 0
    requires base + Offset(sizes, 4) <= h.ram.Length && (base + Offset(sizes, 4)) / BOOK <= |h.b2s|
    modifies h`sibs, h`b2s, h.ram
    ensures |h.sibs| == |old(h.sibs)| && |h.b2s| == |old(h.b2s)|
    ensures forall i {:trigger h.sibs[i]} :: 0 <= i < |h.sibs| ==>
      h.sibs[i] == if 4 * age <= i < 4 * age + 4 then Placed(old(h.sibs)[i], base, sizes, i - 4 * age)
          else old(h.sibs)[i]
    ensures forall b {:trigger Labelled(old(h.b2s), h.b2s, age, base, sizes, 4, b)} ::
        Labelled(old(h.b2s), h.b2s, age, base, sizes, 4, b)
    ensures forall x {:trigger h.ram[x]} :: 0 <= x < h.ram.Length ==>
        h.ram[x] == old(h.ram[x]) || (base <= x < base + Offset(sizes, 4) && h.ram[x] == HEAP_VOID)
  {
    hide Labelled;
    PlaceSibs(h, age, sizes, base);
    var c := 4 * age + RO_CONSCELL_SIB;
    OffsetsGrow(sizes, 1, 4);
    if Active(h.sibs[c]) {
      var q := h.sibs[c].firstFree;
      h.ram[q] := HEAP_VOID;
      h.ram[q + 1] := HEAP_VOID;
      h.sibs := h.sibs[c := h.sibs[c].(firstFree := q + 2, start := q + 2, sweptEnd := q + 2)];
    }
  }

  /** A placed to-space before its first pair is set aside. */
  function Whole(sib: Sib, base: nat, sizes: seq<nat>, s: nat): Sib
    requires s < |sizes|
  {
    if sizes[s] == 0 then sib.(start := 0, firstFree := 0, sweptEnd := 0, limit := 0)
    else
      var p := base + Offset(sizes, s);
      sib.(start := p, firstFree := p, sweptEnd := p, limit := p + sizes[s])
  }

  lemma LabelledOne(b2s0: seq<Sibid>, b2s1: seq<Sibid>, b2s: seq<Sibid>, age: nat, base: nat, sizes: seq<nat>, s: nat)
    requires s < |sizes| && |b2s| == |b2s1| == |b2s0| && base % BOOK == 0
    requires forall j {:trigger sizes[j]} :: 0 <= j < |sizes| ==> sizes[j] % BOOK == 0
    requires forall b {:trigger Labelled(b2s0, b2s1, age, base, sizes, s, b)} ::
        Labelled(b2s0, b2s1, age, base, sizes, s, b)
    requires forall b {:trigger b2s[b]} :: 0 <= b < |b2s| ==>
        b2s[b] == if InPart(base, sizes, s, b) then Sibid(age + 1, s + 1, 0) else b2s1[b]
    ensures forall b {:trigger Labelled(b2s0, b2s, age, base, sizes, s + 1, b)} ::
        Labelled(b2s0, b2s, age, base, sizes, s + 1, b)
  {
    var n := s + 1;
    forall b ensures Labelled(b2s0, b2s, age, base, sizes, n, b) {
      assert Labelled(b2s0, b2s1, age, base, sizes, s, b);
      forall t | 0 <= t < n && InPart(base, sizes, t, b) && 0 <= b < |b2s| ensures b2s[b] == Sibid(age + 1, t + 1, 0) {
        if t < s {
          OffsetsGrow(sizes, t, s);
          OffsetsAreBooks(sizes, t);
          OffsetsAreBooks(sizes, s);
        }
      }
    }
  }

  // ------------------------------------------------------------------ flipping one agegroup

  /** The memory the operating system would grant each agegroup: whole books without a quire record. */
  predicate GrantOk(b2s: seq<Sibid>, words: nat, base: nat, grant: nat) {
    && 0 < base && base % BOOK == 0 && grant % BOOK == 0 && base + grant <= words && (base + grant) / BOOK <= |b2s|
    && forall b {:trigger b2s[b]} :: base / BOOK <= b < (base + grant) / BOOK ==> b2s[b].id != HUGECHUNK_RECORD
  }

  predicate SibPlaced(s: Sib, base: nat, grant: nat) {
    if Active(s) then base <= s.start && s.limit <= base + grant else s.start == s.limit == 0
  }

  /** Every address of a to-space is labelled with its sib. */
  predicate LabelAt(b2s: seq<Sibid>, sibs: seq<Sib>, i: nat, x: nat) {
    i < |sibs| && sibs[i].start <= x < sibs[i].limit ==> SibidFor(b2s, x) == Sibid(SibAge(i), SibSlot(i) + 1, 0)
  }

  /** Outside the grant no label changes; within it no book becomes a quire record or part of the nursery. */
  predicate BookKept(b2s0: seq<Sibid>, b2s: seq<Sibid>, base: nat, grant: nat, b: int) {
    0 <= b < |b2s| && |b2s| == |b2s0| ==>
      if base / BOOK <= b < (base + grant) / BOOK then b2s[b].id != HUGECHUNK_RECORD &&
          (b2s[b] == b2s0[b] || b2s[b].age >= 1) else b2s[b] == b2s0[b]
  }

  predicate WordKept(m0: seq<Word>, m: seq<Word>, base: nat, grant: nat, x: int) {
    0 <= x < |m| && |m| == |m0| ==> m[x] == m0[x] || base <= x < base + grant
  }

  /** A card map for a new RW_POINTERS to-space is clean throughout. */
  predicate FreshMap(s: Sib, cm: CardMap) {
    cm.base == s.start && |cm.minAge| == (s.limit - s.start) / CARD &&
        forall d {:trigger cm.minAge[d]} :: 0 <= d < |cm.minAge| ==> cm.minAge[d] == CLEAN_CARD
  }

  predicate Flipped(sibs0: seq<Sib>, sibs: seq<Sib>, requested: seq<nat>, nursery: nat, i: nat, base: nat, grant: nat)
    requires i < |sibs0| == |sibs| == |requested|
  {
    SibFlipped(sibs0[i], sibs[i], RoomNeeded(sibs0, requested, nursery, i)) && SibPlaced(sibs[i], base, grant)
    && (i % 4 == RW_POINTERS_SIB ==> sibs[i].start % BOOK == 0 && sibs[i].limit % BOOK == 0)
  }

  method MakeNewCoarseInterAgegroupPointersMap(h: Heap, age: nat)
    requires 4 * age + 4 <= |h.sibs| && age < |h.cards| && Active(h.sibs[4 * age + RW_POINTERS_SIB])
    modifies h`cards
    ensures |h.cards| == |old(h.cards)| && FreshMap(h.sibs[4 * age + RW_POINTERS_SIB], h.cards[age])
    ensures forall a {:trigger h.cards[a]} :: 0 <= a < |h.cards| && a != age ==> h.cards[a] == old(h.cards)[a]
  {
    var ap := h.sibs[4 * age + RW_POINTERS_SIB];
    var map_size_in_slots: nat := (ap.limit - ap.start) / CARD;
    h.cards := h.cards[age := CardMap(ap.start, seq(map_size_in_slots, _ => CLEAN_CARD))];
  }

  /** The smallest sizes of the sibs of an agegroup, in whole books, and their sum. */
  function Fallback(minima: seq<nat>): (sizes: seq<nat>)
    ensures |sizes| == |minima| && forall s {:trigger sizes[s]} :: 0 <= s < |minima| ==>
        && sizes[s] % BOOK == 0
        && minima[s] <= sizes[s]
  {
    seq(|minima|, s requires 0 <= s < |minima| => BookRounded(4 * minima[s]))
  }

  /** The smallest size of the to-space of sib i. */
  function MinAt(sibs: seq<Sib>, requested: seq<nat>, nursery: nat, i: nat): (words: nat)
    requires i < |sibs| == |requested|
  {
    MinNext(if i < 4 then 0 else MinAt(sibs, requested, nursery, i - 4), sibs[i], requested[i],
        Promotable(sibs, nursery, i), i % 4)
  }

  function Minima(sibs: seq<Sib>, requested: seq<nat>, nursery: nat, age: nat): (r: seq<nat>)
    requires 4 * age + 4 <= |sibs| == |requested|
    ensures |r| == 4 && forall s {:trigger r[s]} :: 0 <= s < 4 ==> r[s] == MinAt(sibs, requested, nursery, 4 * age + s)
  {
    [MinAt(sibs, requested, nursery, 4 * age), MinAt(sibs, requested, nursery, 4 * age + 1),
     MinAt(sibs, requested, nursery, 4 * age + 2), MinAt(sibs, requested, nursery, 4 * age + 3)]
  }

  /** The least that agegroup `age` + 1 can be flipped with. */
  function NeededWords(sibs: seq<Sib>, requested: seq<nat>, nursery: nat, age: nat): nat
    requires 4 * age + 4 <= |sibs| == |requested|
  {
    Offset(Fallback(Minima(sibs, requested, nursery, age)), 4)
  }

  /** The smallest size serves. */
  lemma {:induction false} MinAtServes(sibs: seq<Sib>, requested: seq<nat>, nursery: nat, i: nat)
    requires i < |sibs| == |requested| && nursery >= 1
    ensures MinAt(sibs, requested, nursery, i) >= MinWords(requested[i], Promotable(sibs, nursery, i), Juniors(sibs[i]),
        i % 4)
  {
    if i >= 4 { MinAtServes(sibs, requested, nursery, i - 4); }
  }

  /** Where noted sizes come from. */
  predicate Noted(sibs: seq<Sib>, requested: seq<nat>, nursery: nat, age: nat, noted: seq<nat>) {
    |noted| == 4 && |sibs| == |requested| && 4 * age <= |sibs| &&
    forall s {:trigger noted[s]} :: 0 <= s < 4 ==> noted[s] == if age == 0 then 0
        else MinAt(sibs, requested, nursery, 4 * age + s - 4)
  }

  lemma NotedNext(sibs: seq<Sib>, requested: seq<nat>, nursery: nat, age: nat, incoming: seq<nat>, noted: seq<nat>,
      minima: seq<nat>)
    requires Noted(sibs, requested, nursery, age, noted) && 4 * age + 4 <= |sibs| && |incoming| == |minima| == 4 &&
        nursery >= 1
    requires forall s {:trigger incoming[s]} :: 0 <= s < 4 ==> incoming[s] == Promotable(sibs, nursery, 4 * age + s)
    requires forall s {:trigger minima[s]} :: 0 <= s < 4 ==>
        minima[s] == MinNext(noted[s], sibs[4 * age + s], requested[4 * age + s], incoming[s], s)
    ensures Noted(sibs, requested, nursery, age + 1, minima) &&
        Offset(Fallback(minima), 4) == NeededWords(sibs, requested, nursery, age)
    ensures forall s {:trigger minima[s]} :: 0 <= s < 4 ==>
      SizeOk(sibs[4 * age + s], requested[4 * age + s], incoming[s], s, Fallback(minima)[s])
  {
    forall s | 0 <= s < 4
      ensures minima[s] == MinAt(sibs, requested, nursery, 4 * age + s)
      ensures SizeOk(sibs[4 * age + s], requested[4 * age + s], incoming[s], s, Fallback(minima)[s])
    {
      MinAtServes(sibs, requested, nursery, 4 * age + s);
    }
    assert minima == Minima(sibs, requested, nursery, age);
  }

  /** These are the sizes chosen first for an agegroup whose sibs were sibs0. */
  predicate Preferred(sibs0: seq<Sib>, requested: seq<nat>, softMax: seq<nat>, nursery: nat, age: nat, n: int,
      ratio: nat, sizes: seq<nat>) {
    |sizes| == 4 && 4 * age + 4 <= |sibs0| == |requested| == |softMax| &&
    forall s {:trigger sizes[s]} :: 0 <= s < 4 ==> FirstChoice(sibs0[4 * age + s], requested[4 * age + s],
        Older(sibs0, nursery, 4 * age + s), s, n, ratio, softMax[4 * age + s], sizes[s])
  }

  /** The words that may be promoted into sib i: what lies below the boundary in its younger sibling, a nursery for
      agegroup1. */
  function Older(sibs: seq<Sib>, nursery: nat, i: nat): int
    requires i < |sibs|
  {
    if i < 4 then nursery
    else if sibs[i - 4].limit <= sibs[i - 4].start then 0
    else sibs[i - 4].seniorEnd - sibs[i - 4].start
  }

  /** The to-space has this size; the first pair of a pair space is never used. */
  predicate HasSize(s: Sib, slot: nat, size: nat) {
    s.limit - s.start + (if slot == RO_CONSCELL_SIB && size > 0 then 2 else 0) == size
  }

  predicate HasSizes(sibs: seq<Sib>, age: nat, sizes: seq<nat>) {
    |sizes| == 4 && 4 * age + 4 <= |sibs| &&
    forall s {:trigger sizes[s]} :: 0 <= s < 4 ==> HasSize(sibs[4 * age + s], s, sizes[s])
  }

  /** An agegroup has the sizes chosen first if they are granted together, and otherwise the smallest that serve. */
  ghost predicate Sized(sibs0: seq<Sib>, sibs: seq<Sib>, requested: seq<nat>, softMax: seq<nat>, nursery: nat, age: nat,
      n: int, ratio: nat, grant: nat) {
    4 * age + 4 <= |sibs0| == |requested| && exists sizes: seq<nat> ::
      && |sizes| == 4
      && Preferred(sibs0, requested, softMax, nursery, age, n, ratio, sizes)
      && HasSizes(sibs, age, if sizes[0] + sizes[1] + sizes[2] + sizes[3] <= grant then sizes
          else Fallback(Minima(sibs0, requested, nursery, age)))
  }

  /** How often the next younger agegroup will have been cleaned since agegroup a + 1 was: agegroup1 on counts the
      clean that is about to be made. */
  function Since(counts: seq<nat>, youngerCounts: seq<nat>, a: nat): int
    requires a < |counts| && a < |youngerCounts|
  {
    var younger: int := counts[a] + if a > 0 then 1 else 0;
    younger - youngerCounts[a]
  }

  /** The agegroups below n have the sizes that were chosen from the heap and its counts before they were flipped. */
  ghost predicate SizedBelow(n: nat, sibs0: seq<Sib>, sibs: seq<Sib>, requested: seq<nat>, softMax: seq<nat>,
      nursery: nat, counts: seq<nat>, youngerCounts: seq<nat>, ratios: seq<nat>, grants: seq<nat>) {
    && n <= |counts| && n <= |youngerCounts| && n <= |ratios| && n <= |grants|
    && forall a {:trigger ratios[a]} :: 0 <= a < n ==>
        Sized(sibs0, sibs, requested, softMax, nursery, a, Since(counts, youngerCounts, a), ratios[a], grants[a])
  }

  lemma SizedMore(n: nat, sibs0: seq<Sib>, sibs: seq<Sib>, sibs': seq<Sib>, requested: seq<nat>, softMax: seq<nat>,
      nursery: nat, counts: seq<nat>, youngerCounts: seq<nat>, ratios: seq<nat>, grants: seq<nat>, m: nat)
    requires SizedBelow(n, sibs0, sibs, requested, softMax, nursery, counts, youngerCounts, ratios, grants)
    requires m == n + 1
    requires n < |counts| && n < |youngerCounts| && n < |ratios| && n < |grants|
    requires |sibs'| == |sibs| && 4 * n <= |sibs| && sibs'[..4 * n] == sibs[..4 * n]
    requires Sized(sibs0, sibs', requested, softMax, nursery, n, Since(counts, youngerCounts, n), ratios[n], grants[n])
    ensures SizedBelow(m, sibs0, sibs', requested, softMax, nursery, counts, youngerCounts, ratios, grants)
  {
    hide Sized, Since;
    forall a | 0 <= a < n
      ensures Sized(sibs0, sibs', requested, softMax, nursery, a, Since(counts, youngerCounts, a), ratios[a], grants[a])
    {
      var since, ratio := Since(counts, youngerCounts, a), ratios[a];
      SizedKept(sibs0, sibs, sibs', requested, softMax, nursery, a, since, ratio, grants[a], n);
    }
  }

  lemma SizedKept(sibs0: seq<Sib>, sibs: seq<Sib>, sibs': seq<Sib>, requested: seq<nat>, softMax: seq<nat>,
      nursery: nat, a: nat, since: int, ratio: nat, grant: nat, n: nat)
    requires Sized(sibs0, sibs, requested, softMax, nursery, a, since, ratio, grant) && a < n && |sibs'| == |sibs|
    requires 4 * n <= |sibs| && sibs'[..4 * n] == sibs[..4 * n]
    ensures Sized(sibs0, sibs', requested, softMax, nursery, a, since, ratio, grant)
  {
    hide Preferred, HasSizes, Fallback, Minima;
    var sizes: seq<nat> :| |sizes| == 4 && Preferred(sibs0, requested, softMax, nursery, a, since, ratio, sizes) &&
        HasSizes(sibs, a, if sizes[0] + sizes[1] + sizes[2] + sizes[3] <= grant then sizes
          else Fallback(Minima(sibs0, requested, nursery, a)));
    HasSizesKept(sibs, sibs', a, if sizes[0] + sizes[1] + sizes[2] + sizes[3] <= grant then sizes
          else Fallback(Minima(sibs0, requested, nursery, a)), n);
  }

  lemma HasSizesKept(sibs: seq<Sib>, sibs': seq<Sib>, a: nat, sizes: seq<nat>, n: nat)
    requires HasSizes(sibs, a, sizes) && a < n && |sibs'| == |sibs|
    requires 4 * n <= |sibs| && sibs'[..4 * n] == sibs[..4 * n]
    ensures HasSizes(sibs', a, sizes)
  {
    forall s | 0 <= s < 4 ensures HasSize(sibs'[4 * a + s], s, sizes[s]) {
      assert sibs'[..4 * n][4 * a + s] == sibs[..4 * n][4 * a + s];
    }
  }

  lemma IsSized(sibs0: seq<Sib>, sibs1: seq<Sib>, sibs: seq<Sib>, requested: seq<nat>, softMax: seq<nat>, nursery: nat,
      age: nat, n: nat, ratio: nat, base: nat, grant: nat, incoming: seq<nat>, chosen: seq<nat>, minima: seq<nat>,
      sizes: seq<nat>)
    requires |chosen| == |minima| == |incoming| == 4
    requires 4 * age + 4 <= |sibs0| == |sibs1| == |sibs| == |requested| == |softMax|
    requires forall s {:trigger incoming[s]} :: 0 <= s < 4 ==> incoming[s] == Promotable(sibs0, nursery, 4 * age + s)
    requires forall i {:trigger sibs0[i]} :: 0 <= i < |sibs0| ==> SibShape(sibs0[i])
    requires forall s {:trigger chosen[s]} :: 0 <= s < 4 ==> FirstChoice(sibs0[4 * age + s], requested[4 * age + s],
        incoming[s], s, n, ratio, softMax[4 * age + s], chosen[s])
    requires Noted(sibs0, requested, nursery, age + 1, minima)
    requires sizes == if Offset(chosen, 4) > grant then Fallback(minima) else chosen
    requires forall i {:trigger sibs[i]} :: 4 * age <= i < 4 * age + 4 ==>
        sibs[i] == Placed(sibs1[i], base, sizes, i - 4 * age)
    ensures Sized(sibs0, sibs, requested, softMax, nursery, age, n, ratio, grant)
  {
    hide FirstChoice, Noted, Fallback, Placed, HasSize, Promotable, Older, SibShape, Offset;
    OffsetOfFour(chosen);
    MinimaNoted(sibs0, requested, nursery, age, minima);
    forall s | 0 <= s < 4 ensures incoming[s] == Older(sibs0, nursery, 4 * age + s) {
      PromotableIsOlder(sibs0, nursery, 4 * age + s);
    }
    assert Preferred(sibs0, requested, softMax, nursery, age, n, ratio, chosen);
    forall s | 0 <= s < 4 ensures HasSize(sibs[4 * age + s], s, sizes[s]) {
      PlacedHasSize(sibs1[4 * age + s], base, sizes, s);
    }
    assert HasSizes(sibs, age, sizes);
  }

  lemma PromotableIsOlder(sibs: seq<Sib>, nursery: nat, i: nat)
    requires i < |sibs| && forall i {:trigger sibs[i]} :: 0 <= i < |sibs| ==> SibShape(sibs[i])
    ensures Promotable(sibs, nursery, i) == Older(sibs, nursery, i)
  {
    assert i >= 4 ==> SibShape(sibs[i - 4]);
  }

  lemma PlacedHasSize(sib: Sib, base: nat, sizes: seq<nat>, s: nat)
    requires s < |sizes|
    ensures HasSize(Placed(sib, base, sizes, s), s, sizes[s])
  {
  }

  lemma OffsetOfFour(sizes: seq<nat>)
    requires |sizes| == 4
    ensures Offset(sizes, 4) == sizes[0] + sizes[1] + sizes[2] + sizes[3]
  {
    assert Offset(sizes, 1) == sizes[0];
    assert Offset(sizes, 2) == sizes[0] + sizes[1];
  }

  lemma MinimaNoted(sibs0: seq<Sib>, requested: seq<nat>, nursery: nat, age: nat, minima: seq<nat>)
    requires 4 * age + 4 <= |sibs0| == |requested| && Noted(sibs0, requested, nursery, age + 1, minima)
    ensures minima == Minima(sibs0, requested, nursery, age)
  {
  }

  /** Flip one agegroup, with smaller to-spaces if the operating system does not grant the preferred ones.  It
      fails only if not even the smallest can be had. */
  method FlipAgegroup(h: Heap, age: nat, incoming: seq<nat>, noted: seq<nat>, n: nat, base: nat, grant: nat,
      ghost sibs0: seq<Sib>)
    returns (ok: bool, seniors: seq<nat>, minima: seq<nat>)
    requires 4 * age + 4 <= |h.sibs| == |h.requested| == |h.softMax| && |incoming| == 4 && n >= 1 && age < |h.ratios| &&
        age < |h.cards|
    requires forall i {:trigger h.sibs[i]} :: 4 * age <= i < 4 * age + 4 ==> SibShape(h.sibs[i])
    requires GrantOk(h.b2s, h.ram.Length, base, grant)
    requires |sibs0| == |h.sibs| && forall i {:trigger sibs0[i]} :: 4 * age <= i < 4 * age + 4 ==> sibs0[i] == h.sibs[i]
    requires forall i {:trigger sibs0[i]} :: 0 <= i < |sibs0| ==> SibShape(sibs0[i])
    requires forall s {:trigger incoming[s]} :: 0 <= s < 4 ==>
        incoming[s] == Promotable(sibs0, h.nurseryWords, 4 * age + s)
    requires Noted(sibs0, h.requested, h.nurseryWords, age, noted) && h.nurseryWords >= 1
    modifies h`sibs, h`b2s, h`cards, h.ram
    ensures Noted(sibs0, h.requested, h.nurseryWords, age + 1, minima) &&
        (!ok ==> NeededWords(sibs0, h.requested, h.nurseryWords, age) > grant)
    ensures ok ==> |h.sibs| == |old(h.sibs)| && |h.b2s| == |old(h.b2s)| && |h.cards| == |old(h.cards)| && |seniors| == 4
    ensures ok ==> forall i {:trigger h.sibs[i]} :: 0 <= i < |h.sibs| ==>
      if 4 * age <= i < 4 * age + 4 then Flipped(sibs0, h.sibs, h.requested, h.nurseryWords, i, base, grant)
          else h.sibs[i] == old(h.sibs)[i]
    ensures ok ==> forall i: nat, x: nat {:trigger LabelAt(h.b2s, h.sibs, i, x)} ::
        4 * age <= i < 4 * age + 4 ==> LabelAt(h.b2s, h.sibs, i, x)
    ensures ok ==> forall b {:trigger BookKept(old(h.b2s), h.b2s, base, grant, b)} ::
        BookKept(old(h.b2s), h.b2s, base, grant, b)
    ensures ok ==> forall x {:trigger WordKept(old(h.ram[..]), h.ram[..], base, grant, x)} ::
        WordKept(old(h.ram[..]), h.ram[..], base, grant, x)
    ensures ok ==> Active(h.sibs[4 * age + RW_POINTERS_SIB]) ==>
        FreshMap(h.sibs[4 * age + RW_POINTERS_SIB], h.cards[age])
    ensures ok ==> forall a {:trigger h.cards[a]} :: 0 <= a < |h.cards| && a != age ==> h.cards[a] == old(h.cards)[a]
    ensures ok ==> forall s {:trigger seniors[s]} :: 0 <= s < 4 ==> seniors[s] == Seniors(sibs0[4 * age + s])
    ensures ok ==> Sized(sibs0, h.sibs, h.requested, h.softMax, h.nurseryWords, age, n, h.ratios[age], grant)
  {
    hide Flipped, LabelAt, BookKept, Labelled, SibShape, FreshMap, Promotable, FirstChoice, Sized;
    ghost var b2s1 := h.b2s;
    var sizes;
    sizes, minima, seniors := PlanAgegroup(h, age, incoming, noted, n);
    NotedNext(sibs0, h.requested, h.nurseryWords, age, incoming, noted, minima);
    ghost var sibs1, chosen := h.sibs, sizes;
    forall s {:trigger sizes[s]} | 0 <= s < 4
      ensures SizeOk(sibs0[4 * age + s], h.requested[4 * age + s], incoming[s], s, sizes[s]) {
      FirstChoiceServes(sibs0[4 * age + s], h.requested[4 * age + s], incoming[s], s, n, h.ratios[age],
          h.softMax[4 * age + s], sizes[s]);
    }
    if Offset(sizes, 4) > grant {
      sizes := Fallback(minima);
      if Offset(sizes, 4) > grant {
        return false, seniors, minima;
      }
    }
    SetUpTospaceSibBuffersForAgegroup(h, age, sizes, base);
    AgegroupIsFlipped(sibs0, sibs1, h.sibs, h.requested, h.nurseryWords, age, incoming, sizes, b2s1, h.b2s, base,
        grant);
    IsSized(sibs0, sibs1, h.sibs, h.requested, h.softMax, h.nurseryWords, age, n, h.ratios[age], base, grant, incoming,
        chosen, minima, sizes);
    forall i | 0 <= i < |h.sibs| && !(4 * age <= i < 4 * age + 4) ensures h.sibs[i] == old(h.sibs)[i] {
      assert i / 4 != age;
    }
    forall i: nat | 4 * age <= i < 4 * age + 4 ensures Flipped(sibs0, h.sibs, h.requested, h.nurseryWords, i, base,
        grant) {
      ghost var flipped := h.sibs[i];
    }
    if Active(h.sibs[4 * age + RW_POINTERS_SIB]) {
      MakeNewCoarseInterAgegroupPointersMap(h, age);
    }
    return true, seniors, minima;
  }

  lemma AgegroupIsFlipped(sibs0: seq<Sib>, sibs1: seq<Sib>, sibs: seq<Sib>, requested: seq<nat>, nursery: nat, age: nat,
                          incoming: seq<nat>, sizes: seq<nat>, b2s0: seq<Sibid>, b2s: seq<Sibid>, base: nat, grant: nat)
    requires |sizes| == |incoming| == 4 && 4 * age + 4 <= |sibs0| == |sibs1| == |sibs| == |requested|
    requires 0 < base && base % BOOK == 0 && grant % BOOK == 0 && Offset(sizes, 4) <= grant &&
        (base + grant) / BOOK <= |b2s| == |b2s0|
    requires forall b {:trigger b2s0[b]} :: base / BOOK <= b < (base + grant) / BOOK ==> b2s0[b].id != HUGECHUNK_RECORD
    requires forall s {:trigger incoming[s]} :: 0 <= s < 4 ==> incoming[s] == Promotable(sibs0, nursery, 4 * age + s)
    requires forall s {:trigger sizes[s]} :: 0 <= s < 4 ==>
        SizeOk(sibs0[4 * age + s], requested[4 * age + s], incoming[s], s, sizes[s])
    requires forall i {:trigger sibs1[i]} :: 4 * age <= i < 4 * age + 4 ==> sibs1[i] == FromSib(sibs0[i])
    requires forall i {:trigger sibs[i]} :: 4 * age <= i < 4 * age + 4 ==>
        sibs[i] == Placed(sibs1[i], base, sizes, i - 4 * age)
    requires forall b {:trigger Labelled(b2s0, b2s, age, base, sizes, 4, b)} ::
        Labelled(b2s0, b2s, age, base, sizes, 4, b)
    ensures forall i: nat {:trigger sibs[i]} :: 4 * age <= i < 4 * age + 4 ==>
        Flipped(sibs0, sibs, requested, nursery, i, base, grant)
    ensures forall i: nat, x: nat {:trigger LabelAt(b2s, sibs, i, x)} ::
        4 * age <= i < 4 * age + 4 ==> LabelAt(b2s, sibs, i, x)
    ensures forall b {:trigger BookKept(b2s0, b2s, base, grant, b)} :: BookKept(b2s0, b2s, base, grant, b)
  {
    hide Flipped, LabelAt, BookKept, Promotable, Offset, Placed, FromSib, Labelled;
    forall i: nat | 4 * age <= i < 4 * age + 4 ensures Flipped(sibs0, sibs, requested, nursery, i, base, grant) {
      OneFlipped(sibs0, sibs, requested, nursery, age, incoming, sizes, base, grant, i - 4 * age);
    }
    forall i: nat, x: nat | 4 * age <= i < 4 * age + 4 ensures LabelAt(b2s, sibs, i, x) {
      OneLabelled(sibs1, sibs, age, sizes, b2s0, b2s, base, grant, i - 4 * age, x);
    }
    forall b ensures BookKept(b2s0, b2s, base, grant, b) {
      OneBook(age, sizes, b2s0, b2s, base, grant, b);
    }
  }

  lemma OneBook(age: nat, sizes: seq<nat>, b2s0: seq<Sibid>, b2s: seq<Sibid>, base: nat, grant: nat, b: int)
    requires |sizes| == 4 && Offset(sizes, 4) <= grant && |b2s| == |b2s0|
    requires base / BOOK <= b < (base + grant) / BOOK && 0 <= b < |b2s0| ==> b2s0[b].id != HUGECHUNK_RECORD
    requires Labelled(b2s0, b2s, age, base, sizes, 4, b)
    ensures BookKept(b2s0, b2s, base, grant, b)
  {
    forall s | 0 <= s < 4 && InPart(base, sizes, s, b) ensures base / BOOK <= b < (base + grant) / BOOK {
      OffsetsGrow(sizes, s, 4);
    }
  }

  lemma OneFlipped(sibs0: seq<Sib>, sibs: seq<Sib>, requested: seq<nat>, nursery: nat, age: nat, incoming: seq<nat>,
      sizes: seq<nat>,
                   base: nat, grant: nat, s: nat)
    requires s < 4 && |sizes| == |incoming| == 4 && 4 * age + 4 <= |sibs0| == |sibs| == |requested|
    requires 0 < base && base % BOOK == 0 && Offset(sizes, 4) <= grant
    requires incoming[s] == Promotable(sibs0, nursery, 4 * age + s)
    requires forall t {:trigger sizes[t]} :: 0 <= t < 4 ==> sizes[t] % BOOK == 0
    requires SizeOk(sibs0[4 * age + s], requested[4 * age + s], incoming[s], s, sizes[s])
    requires sibs[4 * age + s] == Placed(FromSib(sibs0[4 * age + s]), base, sizes, s)
    ensures Flipped(sibs0, sibs, requested, nursery, 4 * age + s, base, grant)
  {
    OffsetsGrow(sizes, 0, s);
    OffsetsGrow(sizes, s, 4);
    OffsetsAreBooks(sizes, s);
  }

  lemma OneLabelled(sibs1: seq<Sib>, sibs: seq<Sib>, age: nat, sizes: seq<nat>, b2s0: seq<Sibid>, b2s: seq<Sibid>,
      base: nat, grant: nat, s: nat, x: nat)
    requires s < 4 && |sizes| == 4 && 4 * age + 4 <= |sibs| == |sibs1| && base % BOOK == 0 && Offset(sizes, 4) <= grant
    requires (base + grant) / BOOK <= |b2s| == |b2s0|
    requires forall t {:trigger sizes[t]} :: 0 <= t < 4 ==> sizes[t] % BOOK == 0
    requires sibs[4 * age + s] == Placed(sibs1[4 * age + s], base, sizes, s)
    requires forall b {:trigger Labelled(b2s0, b2s, age, base, sizes, 4, b)} ::
        Labelled(b2s0, b2s, age, base, sizes, 4, b)
    ensures LabelAt(b2s, sibs, 4 * age + s, x)
  {
    hide Offset;
    OffsetsGrow(sizes, s, 4);
    OffsetsAreBooks(sizes, s);
    var o := base + Offset(sizes, s);
    if sibs[4 * age + s].start <= x < sibs[4 * age + s].limit {
      BookOf(o, sizes[s], x);
      assert InPart(base, sizes, s, x / BOOK);
      assert Labelled(b2s0, b2s, age, base, sizes, 4, x / BOOK);
    }
  }

  lemma BookOf(o: nat, size: nat, x: nat)
    requires o % BOOK == 0 && size % BOOK == 0 && o <= x < o + size
    ensures o / BOOK <= x / BOOK < (o + size) / BOOK
  {
    assert o == o / BOOK * BOOK && o + size == (o + size) / BOOK * BOOK;
  }

  // ------------------------------------------------------------------ how many agegroups to clean

  predicate InGrant(bases: seq<nat>, grants: seq<nat>, a: int, b: int) {
    0 <= a < |bases| == |grants| && bases[a] / BOOK <= b < (bases[a] + grants[a]) / BOOK
  }

  /** Grants are whole books and do not overlap. */
  ghost predicate GrantsOk(b2s: seq<Sibid>, words: nat, bases: seq<nat>, grants: seq<nat>, active: nat) {
    && |bases| == |grants| == active
    && (forall a {:trigger bases[a]} :: 0 <= a < active ==> GrantOk(b2s, words, bases[a], grants[a]))
    && (forall a, c, b {:trigger InGrant(bases, grants, a, b), InGrant(bases, grants, c, b)} ::
        InGrant(bases, grants, a, b) && InGrant(bases, grants, c, b) ==> a == c)
  }

  /** A book after the agegroups below n have been flipped. */
  predicate BookAfter(b2s0: seq<Sibid>, b2s: seq<Sibid>, bases: seq<nat>, grants: seq<nat>, n: nat, b: int) {
    0 <= b < |b2s| && |b2s| == |b2s0| ==>
      if exists a :: 0 <= a < n && InGrant(bases, grants, a, b) then b2s[b].id != HUGECHUNK_RECORD &&
          (b2s[b] == b2s0[b] || b2s[b].age >= 1)
      else b2s[b] == b2s0[b]
  }

  predicate InWords(bases: seq<nat>, grants: seq<nat>, a: int, x: int) {
    0 <= a < |bases| == |grants| && bases[a] <= x < bases[a] + grants[a]
  }

  predicate WordAfter(m0: seq<Word>, m: seq<Word>, bases: seq<nat>, grants: seq<nat>, n: nat, x: int) {
    0 <= x < |m| && |m| == |m0| ==> m[x] == m0[x] || exists a :: 0 <= a < n && InWords(bases, grants, a, x)
  }

  /** The heap after the agegroups below n have been flipped. */
  ghost predicate FlippedBelow(n: nat, sibs0: seq<Sib>, b2s0: seq<Sibid>, m0: seq<Word>, cards0: seq<CardMap>,
      requested: seq<nat>, nursery: nat,
                               bases: seq<nat>, grants: seq<nat>, sibs: seq<Sib>, b2s: seq<Sibid>, m: seq<Word>,
                                   cards: seq<CardMap>) {
    && |sibs| == |sibs0| == |requested| == 4 * |cards| && |cards| == |cards0| == |bases| == |grants| &&
        |b2s| == |b2s0| && |m| == |m0| && n <= |bases|
    && (forall i {:trigger sibs[i]} :: 0 <= i < |sibs| ==>
          if i < 4 * n then Flipped(sibs0, sibs, requested, nursery, i, bases[i / 4], grants[i / 4])
              else sibs[i] == sibs0[i])
    && (forall i: nat, x: nat {:trigger LabelAt(b2s, sibs, i, x)} :: i < 4 * n ==> LabelAt(b2s, sibs, i, x))
    && (forall b {:trigger BookAfter(b2s0, b2s, bases, grants, n, b)} :: BookAfter(b2s0, b2s, bases, grants, n, b))
    && (forall x {:trigger WordAfter(m0, m, bases, grants, n, x)} :: WordAfter(m0, m, bases, grants, n, x))
    && (forall a {:trigger cards[a]} :: 0 <= a < |cards| ==>
          if a < n && Active(sibs[4 * a + RW_POINTERS_SIB]) then FreshMap(sibs[4 * a + RW_POINTERS_SIB], cards[a])
              else a >= n ==> cards[a] == cards0[a])
  }

  /** How often each agegroup was cleaned is not less than it was when the next older one was last cleaned. */
  predicate CountsOk(counts: seq<nat>, youngerCounts: seq<nat>, active: nat) {
    |counts| == active + 1 && |youngerCounts| == active &&
        forall a {:trigger youngerCounts[a]} :: 0 <= a < active ==> youngerCounts[a] <= counts[a]
  }

  /** The counts after the agegroups below n were flipped. */
  predicate Counted(n: nat, counts0: seq<nat>, youngers0: seq<nat>, counts: seq<nat>, youngers: seq<nat>) {
    && |counts| == |counts0| == |youngers| + 1 && |youngers| == |youngers0|
    && (forall j {:trigger counts[j]} :: 0 <= j < |counts| ==> counts[j] == counts0[j] + if 1 <= j <= n then 1 else 0)
    && (forall a {:trigger youngers[a]} :: 0 <= a < |youngers| ==>
        youngers[a] == if a < n then counts0[a] + (if a > 0 then 1 else 0) else youngers0[a])
  }

  /** The first agegroup not flipped has room for everything that may be promoted into it. */
  predicate Absorbs(sibs: seq<Sib>, k: nat) {
    forall i {:trigger sibs[i]} :: 4 * k <= i < 4 * k + 4 && 4 <= i < |sibs| ==>
        Seniors(sibs[i - 4]) <= if Active(sibs[i]) then sibs[i].limit - sibs[i].firstFree else 0
  }

  /** The operating system does not grant an agegroup the least it can be flipped with. */
  predicate TooLittle(sibs: seq<Sib>, requested: seq<nat>, nursery: nat, grants: seq<nat>, age: nat) {
    4 * age + 4 <= |sibs| == |requested| && age < |grants| && NeededWords(sibs, requested, nursery, age) > grants[age]
  }

  /** Every agegroup from `level` on that is flipped has to be: it could not absorb what may be promoted into it. */
  predicate NoneForNothing(sibs: seq<Sib>, level: nat, k: nat) { forall j {:trigger Absorbs(sibs, j)} ::
      level <= j < k ==> !Absorbs(sibs, j) }

  /** Cleaning stops at an agegroup that has to be flipped and cannot. */
  predicate Starved(sibs: seq<Sib>, requested: seq<nat>, nursery: nat, grants: seq<nat>, level: nat, active: nat) {
    exists a {:trigger TooLittle(sibs, requested, nursery, grants, a)} ::
      0 <= a < active && TooLittle(sibs, requested, nursery, grants, a) && NoneForNothing(sibs, level, a + 1)
  }

  /** Whether some sib of an agegroup lacks the room for what may be promoted into it. */
  method WantToHeapcleanThisAgegroup(h: Heap, age: nat, incoming: seq<nat>) returns (want: bool)
    requires 4 * age + 4 <= |h.sibs| && |incoming| == 4
    requires forall i {:trigger h.sibs[i]} :: 4 * age <= i < 4 * age + 4 ==> SibShape(h.sibs[i])
    ensures !want <==> forall s {:trigger incoming[s]} :: 0 <= s < 4 ==>
      incoming[s] <= if Active(h.sibs[4 * age + s]) then h.sibs[4 * age + s].limit - h.sibs[4 * age + s].firstFree
          else 0
  {
    want := false;
    var s := 0;
    while s < 4
      invariant s <= 4 && !want
      invariant forall t {:trigger incoming[t]} :: 0 <= t < s ==>
        incoming[t] <= if Active(h.sibs[4 * age + t]) then h.sibs[4 * age + t].limit - h.sibs[4 * age + t].firstFree
            else 0
    {
      var sib := h.sibs[4 * age + s];
      var free_bytes_in_sib := if Active(sib) then sib.limit - sib.firstFree else 0;
      if free_bytes_in_sib < incoming[s] {
        return true;
      }
      s := s + 1;
    }
  }

  /** Flip the agegroups that have to be cleaned: those asked for, and every next older one that could not
      absorb what may be promoted into it.  Returns how many. */
  method EstablishAllRequiredEmptyTospaceSibBuffers(h: Heap, level: nat, bases: seq<nat>, grants: seq<nat>)
      returns (ok: bool, k: nat)
    requires 1 <= level <= h.active && |h.sibs| == |h.requested| == |h.softMax| == 4 * h.active &&
        |h.cards| == |h.ratios| == h.active
    requires forall i {:trigger h.sibs[i]} :: 0 <= i < |h.sibs| ==> SibShape(h.sibs[i])
    requires GrantsOk(h.b2s, h.ram.Length, bases, grants, h.active)
    requires CountsOk(h.counts, h.youngerCounts, h.active) && h.youngerCounts[0] < h.counts[0] && h.nurseryWords >= 1
    modifies h`sibs, h`b2s, h`cards, h`counts, h`youngerCounts, h.ram
    ensures ok ==>
        && level <= k <= h.active
        && CountsOk(h.counts, h.youngerCounts, h.active)
        && h.counts[0] == old(h.counts)[0]
    ensures ok ==> FlippedBelow(k, old(h.sibs), old(h.b2s), old(h.ram[..]), old(h.cards), h.requested, h.nurseryWords,
        bases, grants,
                                h.sibs, h.b2s, h.ram[..], h.cards)
    ensures ok ==> Counted(k, old(h.counts), old(h.youngerCounts), h.counts, h.youngerCounts)
    ensures ok ==> SizedBelow(k, old(h.sibs), h.sibs, h.requested, h.softMax, h.nurseryWords, old(h.counts),
        old(h.youngerCounts), h.ratios, grants)
    ensures ok && k < h.active ==> Absorbs(old(h.sibs), k)
    ensures ok ==> NoneForNothing(old(h.sibs), level, k)
    ensures !ok ==> Starved(old(h.sibs), h.requested, h.nurseryWords, grants, level, h.active)
  {
    ghost var sibs0, b2s0, m0, cards0 := h.sibs, h.b2s, h.ram[..], h.cards;
    ghost var counts0, youngers0 := h.counts, h.youngerCounts;
    var nursery := h.nurseryWords;
    var incoming := [nursery, nursery, nursery, nursery];
    var minima := [0, 0, 0, 0];
    var younger_agegroup_heapcleanings_count := h.counts[0];
    var age := 0;
    while age < h.active
      invariant age <= h.active && |incoming| == 4
      invariant forall s {:trigger incoming[s]} :: 0 <= s < 4 ==>
          incoming[s] == Promotable(sibs0, h.nurseryWords, 4 * age + s)
      invariant FlippedBelow(age, sibs0, b2s0, m0, cards0, h.requested, h.nurseryWords, bases, grants, h.sibs, h.b2s,
          h.ram[..], h.cards)
      invariant |h.counts| == h.active + 1 && |h.youngerCounts| == h.active
      invariant Counted(age, counts0, youngers0, h.counts, h.youngerCounts)
      invariant SizedBelow(age, sibs0, h.sibs, h.requested, h.softMax, h.nurseryWords, counts0, youngers0, h.ratios,
          grants)
      invariant CountsOk(h.counts, h.youngerCounts, h.active) && h.counts[0] == old(h.counts)[0]
      invariant Noted(sibs0, h.requested, h.nurseryWords, age, minima) && NoneForNothing(sibs0, level, age)
      invariant younger_agegroup_heapcleanings_count == h.counts[age] &&
          (age < h.active ==> h.youngerCounts[age] < h.counts[age])
    {
      hide GrantsOk, FlippedBelow, Promotable, Noted, Absorbs, NeededWords, CountsOk, SibShape, NoneForNothing, Starved;
      hide Sized, SizedBelow, Counted, Since;
      if age >= level {
        var want := WantHere(h, age, incoming, sibs0, b2s0, m0, cards0, bases, grants);
        if !want {
          return true, age;
        }
      }
      var flipped;
      flipped, incoming, minima, younger_agegroup_heapcleanings_count := FlipCounted(h, age, incoming, minima,
          younger_agegroup_heapcleanings_count, bases, grants, sibs0, b2s0, m0, cards0, counts0, youngers0);
      OneMoreForSomething(sibs0, level, age);
      if !flipped {
        StarvedHere(sibs0, h.requested, h.nurseryWords, grants, level, h.active, age);
        return false, 0;
      }
      age := age + 1;
    }
    return true, h.active;
  }

  lemma SinceIs(n: nat, counts0: seq<nat>, youngers0: seq<nat>, counts: seq<nat>, youngers: seq<nat>)
    requires Counted(n, counts0, youngers0, counts, youngers) && n < |youngers|
    ensures |counts0| == |counts| && |youngers0| == |youngers| &&
        (counts[n] as int) - youngers[n] == Since(counts0, youngers0, n)
  {
  }

  lemma CountedMore(n: nat, counts0: seq<nat>, youngers0: seq<nat>, counts: seq<nat>, youngers: seq<nat>)
    requires Counted(n, counts0, youngers0, counts, youngers) && n < |youngers|
    ensures Counted(n + 1, counts0, youngers0, counts[n + 1 := counts[n + 1] + 1], youngers[n := counts[n]])
  {
  }

  lemma OneMoreForSomething(sibs: seq<Sib>, level: nat, age: nat)
    requires NoneForNothing(sibs, level, age) && (age >= level ==> !Absorbs(sibs, age))
    ensures NoneForNothing(sibs, level, age + 1)
  {
  }

  lemma StarvedHere(sibs: seq<Sib>, requested: seq<nat>, nursery: nat, grants: seq<nat>, level: nat, active: nat,
      age: nat)
    requires age < active && TooLittle(sibs, requested, nursery, grants, age) && NoneForNothing(sibs, level, age + 1)
    ensures Starved(sibs, requested, nursery, grants, level, active)
  {
  }

  /** Count the cleaning of an agegroup. */
  method CountHeapcleaning(h: Heap, age: nat, younger: nat) returns (count: nat)
    requires age < h.active && CountsOk(h.counts, h.youngerCounts, h.active) && younger == h.counts[age]
    modifies h`counts, h`youngerCounts
    ensures CountsOk(h.counts, h.youngerCounts, h.active) && h.counts[0] == old(h.counts)[0]
    ensures |h.counts| == |old(h.counts)| && |h.youngerCounts| == |old(h.youngerCounts)|
    ensures h.counts == old(h.counts)[age + 1 := old(h.counts)[age + 1] + 1] &&
        h.youngerCounts == old(h.youngerCounts)[age := old(h.counts)[age]]
    ensures count == h.counts[age + 1] && (age + 1 < h.active ==> h.youngerCounts[age + 1] < count)
  {
    h.youngerCounts := h.youngerCounts[age := younger];
    h.counts := h.counts[age + 1 := h.counts[age + 1] + 1];
    count := h.counts[age + 1];
  }

  method WantHere(h: Heap, age: nat, incoming: seq<nat>, ghost sibs0: seq<Sib>, ghost b2s0: seq<Sibid>,
      ghost m0: seq<Word>,
                  ghost cards0: seq<CardMap>, ghost bases: seq<nat>, ghost grants: seq<nat>) returns (want: bool)
    requires FlippedBelow(age, sibs0, b2s0, m0, cards0, h.requested, h.nurseryWords, bases, grants, h.sibs, h.b2s,
        h.ram[..], h.cards)
    requires age < |h.cards| && |incoming| == 4 && forall i {:trigger sibs0[i]} ::
        0 <= i < |sibs0| ==> SibShape(sibs0[i])
    requires forall s {:trigger incoming[s]} :: 0 <= s < 4 ==>
        incoming[s] == Promotable(sibs0, h.nurseryWords, 4 * age + s)
    ensures age >= 1 ==> (want <==> !Absorbs(sibs0, age))
  {
    ShapesKept(age, sibs0, b2s0, m0, cards0, h.requested, h.nurseryWords, bases, grants, h.sibs, h.b2s, h.ram[..],
        h.cards);
    want := WantToHeapcleanThisAgegroup(h, age, incoming);
    if age >= 1 {
      forall s | 0 <= s < 4 ensures incoming[s] == Seniors(sibs0[4 * age + s - 4]) &&
          h.sibs[4 * age + s] == sibs0[4 * age + s] {
        assert incoming[s] == Promotable(sibs0, h.nurseryWords, 4 * age + s);
      }
      if !want {
        forall i | 4 * age <= i < 4 * age + 4 ensures Seniors(sibs0[i - 4]) <= if Active(sibs0[i])
            then sibs0[i].limit - sibs0[i].firstFree else 0 {
          assert incoming[i - 4 * age] == Seniors(sibs0[i - 4]);
        }
      } else {
        var s :| 0 <= s < 4 && incoming[s] > if Active(h.sibs[4 * age + s])
            then h.sibs[4 * age + s].limit - h.sibs[4 * age + s].firstFree else 0;
        ghost var short := sibs0[4 * age + s];
      }
    }
  }

  lemma ShapesKept(n: nat, sibs0: seq<Sib>, b2s0: seq<Sibid>, m0: seq<Word>, cards0: seq<CardMap>, requested: seq<nat>,
      nursery: nat,
                   bases: seq<nat>, grants: seq<nat>, sibs: seq<Sib>, b2s: seq<Sibid>, m: seq<Word>,
                       cards: seq<CardMap>)
    requires FlippedBelow(n, sibs0, b2s0, m0, cards0, requested, nursery, bases, grants, sibs, b2s, m, cards)
    requires forall i {:trigger sibs0[i]} :: 0 <= i < |sibs0| ==> SibShape(sibs0[i])
    ensures forall i {:trigger sibs[i]} :: 4 * n <= i < |sibs| ==> SibShape(sibs[i])
  {
  }

  method FlipNext(h: Heap, age: nat, incoming: seq<nat>, noted: seq<nat>, n: nat, bases: seq<nat>, grants: seq<nat>,
                  ghost sibs0: seq<Sib>, ghost b2s0: seq<Sibid>, ghost m0: seq<Word>, ghost cards0: seq<CardMap>)
    returns (ok: bool, seniors: seq<nat>, minima: seq<nat>)
    requires FlippedBelow(age, sibs0, b2s0, m0, cards0, h.requested, h.nurseryWords, bases, grants, h.sibs, h.b2s,
        h.ram[..], h.cards)
    requires age < |h.cards| == |h.ratios| && |h.requested| == |h.softMax| && |incoming| == 4 && n >= 1
    requires forall i {:trigger sibs0[i]} :: 0 <= i < |sibs0| ==> SibShape(sibs0[i])
    requires forall s {:trigger incoming[s]} :: 0 <= s < 4 ==>
        incoming[s] == Promotable(sibs0, h.nurseryWords, 4 * age + s)
    requires GrantsOk(b2s0, |m0|, bases, grants, |cards0|) && Noted(sibs0, h.requested, h.nurseryWords, age, noted) &&
        h.nurseryWords >= 1
    modifies h`sibs, h`b2s, h`cards, h.ram
    ensures Noted(sibs0, h.requested, h.nurseryWords, age + 1, minima) &&
        (!ok ==> TooLittle(sibs0, h.requested, h.nurseryWords, grants, age))
    ensures ok ==> FlippedBelow(age + 1, sibs0, b2s0, m0, cards0, h.requested, h.nurseryWords, bases, grants, h.sibs,
        h.b2s, h.ram[..], h.cards)
    ensures ok ==> |seniors| == 4 && forall s {:trigger seniors[s]} ::
        0 <= s < 4 ==> seniors[s] == Promotable(sibs0, h.nurseryWords, 4 * (age + 1) + s)
    ensures ok ==> |h.sibs| == |old(h.sibs)| && 4 * age + 4 <= |h.sibs| && h.sibs[..4 * age] == old(h.sibs)[..4 * age]
    ensures ok ==> Sized(sibs0, h.sibs, h.requested, h.softMax, h.nurseryWords, age, n, h.ratios[age], grants[age])
  {
    hide Sized;
    ghost var sibs1, b2s1, m1, cards1 := h.sibs, h.b2s, h.ram[..], h.cards;
    ShapesKept(age, sibs0, b2s0, m0, cards0, h.requested, h.nurseryWords, bases, grants, h.sibs, h.b2s, h.ram[..],
        h.cards);
    GrantStillOk(age, sibs0, b2s0, m0, cards0, h.requested, h.nurseryWords, bases, grants, h.sibs, h.b2s, h.ram[..],
        h.cards);
    ok, seniors, minima := FlipAgegroup(h, age, incoming, noted, n, bases[age], grants[age], sibs0);
    if ok {
      forall i | 4 * age <= i < 4 * age + 4 ensures Flipped(sibs0, h.sibs, h.requested, h.nurseryWords, i, bases[age],
          grants[age]) {
        assert SibPlaced(h.sibs[i], bases[age], grants[age]);
      }
      hide FlippedBelow, GrantsOk, LabelAt, BookKept, WordKept, FreshMap, SibShape, GrantOk;
      FlippedOneMore(age, sibs0, b2s0, m0, cards0, h.requested, h.nurseryWords, bases, grants, sibs1, b2s1, m1, cards1,
          h.sibs, h.b2s, h.ram[..], h.cards);
    }
  }

  /** FlipNext, by the counts, and count it. */
  method FlipCounted(h: Heap, age: nat, incoming: seq<nat>, noted: seq<nat>, younger: nat, bases: seq<nat>,
      grants: seq<nat>, ghost sibs0: seq<Sib>, ghost b2s0: seq<Sibid>, ghost m0: seq<Word>, ghost cards0: seq<CardMap>,
      ghost counts0: seq<nat>, ghost youngers0: seq<nat>)
    returns (ok: bool, seniors: seq<nat>, minima: seq<nat>, count: nat)
    requires FlippedBelow(age, sibs0, b2s0, m0, cards0, h.requested, h.nurseryWords, bases, grants, h.sibs, h.b2s,
        h.ram[..], h.cards)
    requires age < |h.cards| == |h.ratios| == h.active && |h.requested| == |h.softMax| && |incoming| == 4
    requires CountsOk(h.counts, h.youngerCounts, h.active)
    requires forall i {:trigger sibs0[i]} :: 0 <= i < |sibs0| ==> SibShape(sibs0[i])
    requires forall s {:trigger incoming[s]} :: 0 <= s < 4 ==>
        incoming[s] == Promotable(sibs0, h.nurseryWords, 4 * age + s)
    requires GrantsOk(b2s0, |m0|, bases, grants, |cards0|) && Noted(sibs0, h.requested, h.nurseryWords, age, noted) &&
        h.nurseryWords >= 1
    requires |h.counts| == |h.cards| + 1 && |h.youngerCounts| == |h.cards| && younger == h.counts[age] &&
        h.youngerCounts[age] < younger
    requires Counted(age, counts0, youngers0, h.counts, h.youngerCounts) && SizedBelow(age, sibs0, h.sibs, h.requested,
        h.softMax, h.nurseryWords, counts0, youngers0, h.ratios, grants)
    modifies h`sibs, h`b2s, h`cards, h`counts, h`youngerCounts, h.ram
    ensures ok ==>
        && Counted(age + 1, counts0, youngers0, h.counts, h.youngerCounts)
        && |h.counts| == |old(h.counts)| && |h.youngerCounts| == |old(h.youngerCounts)|
    ensures ok ==>
        && CountsOk(h.counts, h.youngerCounts, h.active) && h.counts[0] == old(h.counts)[0]
        && count == h.counts[age + 1] && (age + 1 < h.active ==> h.youngerCounts[age + 1] < count)
    ensures Noted(sibs0, h.requested, h.nurseryWords, age + 1, minima) &&
        (!ok ==> TooLittle(sibs0, h.requested, h.nurseryWords, grants, age))
    ensures ok ==> FlippedBelow(age + 1, sibs0, b2s0, m0, cards0, h.requested, h.nurseryWords, bases, grants, h.sibs,
        h.b2s, h.ram[..], h.cards)
    ensures ok ==> |seniors| == 4 && forall s {:trigger seniors[s]} ::
        0 <= s < 4 ==> seniors[s] == Promotable(sibs0, h.nurseryWords, 4 * (age + 1) + s)
    ensures ok ==> SizedBelow(age + 1, sibs0, h.sibs, h.requested, h.softMax, h.nurseryWords, counts0, youngers0,
        h.ratios, grants)
  {
    hide FlippedBelow, GrantsOk, Sized, SizedBelow, Counted, CountsOk, Since, Noted, Promotable, TooLittle, SibShape;
    count := younger;
    ghost var sibs1 := h.sibs;
    FlippedSizes(age, sibs0, b2s0, m0, cards0, h.requested, h.nurseryWords, bases, grants, h.sibs, h.b2s, h.ram[..],
        h.cards);
    SinceIs(age, counts0, youngers0, h.counts, h.youngerCounts);
    ok, seniors, minima := FlipNext(h, age, incoming, noted, younger - h.youngerCounts[age], bases, grants, sibs0, b2s0,
        m0, cards0);
    if ok {
      SizedMore(age, sibs0, sibs1, h.sibs, h.requested, h.softMax, h.nurseryWords, counts0, youngers0, h.ratios, grants,
          age + 1);
      CountedMore(age, counts0, youngers0, h.counts, h.youngerCounts);
      count := CountHeapcleaning(h, age, younger);
    }
  }

  lemma FlippedSizes(n: nat, sibs0: seq<Sib>, b2s0: seq<Sibid>, m0: seq<Word>, cards0: seq<CardMap>,
      requested: seq<nat>, nursery: nat, bases: seq<nat>, grants: seq<nat>, sibs: seq<Sib>, b2s: seq<Sibid>,
      m: seq<Word>, cards: seq<CardMap>)
    requires FlippedBelow(n, sibs0, b2s0, m0, cards0, requested, nursery, bases, grants, sibs, b2s, m, cards)
    ensures |sibs| == |sibs0| == 4 * |cards| && |bases| == |grants| == |cards|
  {
  }

  /** A grant is untouched until its agegroup is flipped. */
  lemma GrantStillOk(n: nat, sibs0: seq<Sib>, b2s0: seq<Sibid>, m0: seq<Word>, cards0: seq<CardMap>,
      requested: seq<nat>, nursery: nat,
                     bases: seq<nat>, grants: seq<nat>, sibs: seq<Sib>, b2s: seq<Sibid>, m: seq<Word>,
                         cards: seq<CardMap>)
    requires FlippedBelow(n, sibs0, b2s0, m0, cards0, requested, nursery, bases, grants, sibs, b2s, m, cards)
    requires GrantsOk(b2s0, |m0|, bases, grants, |cards0|) && n < |bases|
    ensures GrantOk(b2s, |m|, bases[n], grants[n])
  {
    assert GrantOk(b2s0, |m0|, bases[n], grants[n]);
    forall b | bases[n] / BOOK <= b < (bases[n] + grants[n]) / BOOK ensures b2s[b].id != HUGECHUNK_RECORD {
      assert InGrant(bases, grants, n, b) && BookAfter(b2s0, b2s, bases, grants, n, b);
    }
  }

  lemma FlippedOneMore(n: nat, sibs0: seq<Sib>, b2s0: seq<Sibid>, m0: seq<Word>, cards0: seq<CardMap>,
      requested: seq<nat>, nursery: nat,
                       bases: seq<nat>, grants: seq<nat>, sibs1: seq<Sib>, b2s1: seq<Sibid>, m1: seq<Word>,
                           cards1: seq<CardMap>,
                       sibs: seq<Sib>, b2s: seq<Sibid>, m: seq<Word>, cards: seq<CardMap>)
    requires FlippedBelow(n, sibs0, b2s0, m0, cards0, requested, nursery, bases, grants, sibs1, b2s1, m1, cards1)
    requires GrantsOk(b2s0, |m0|, bases, grants, |cards0|) && n < |bases|
    requires |sibs| == |sibs1| && |b2s| == |b2s1| && |cards| == |cards1| && |m| == |m1|
    requires forall i {:trigger sibs[i]} :: 0 <= i < |sibs| ==>
      if 4 * n <= i < 4 * n + 4 then Flipped(sibs0, sibs, requested, nursery, i, bases[n], grants[n])
          else sibs[i] == sibs1[i]
    requires forall i: nat, x: nat {:trigger LabelAt(b2s, sibs, i, x)} ::
        4 * n <= i < 4 * n + 4 ==> LabelAt(b2s, sibs, i, x)
    requires forall b {:trigger BookKept(b2s1, b2s, bases[n], grants[n], b)} ::
        BookKept(b2s1, b2s, bases[n], grants[n], b)
    requires forall x {:trigger WordKept(m1, m, bases[n], grants[n], x)} :: WordKept(m1, m, bases[n], grants[n], x)
    requires Active(sibs[4 * n + RW_POINTERS_SIB]) ==> FreshMap(sibs[4 * n + RW_POINTERS_SIB], cards[n])
    requires forall a {:trigger cards[a]} :: 0 <= a < |cards| && a != n ==> cards[a] == cards1[a]
    ensures FlippedBelow(n + 1, sibs0, b2s0, m0, cards0, requested, nursery, bases, grants, sibs, b2s, m, cards)
  {
    var n' := n + 1;
    forall b ensures BookAfter(b2s0, b2s, bases, grants, n', b) {
      assert BookAfter(b2s0, b2s1, bases, grants, n, b) && BookKept(b2s1, b2s, bases[n], grants[n], b);
      if exists a :: 0 <= a < n' && InGrant(bases, grants, a, b) {
        var a :| 0 <= a < n' && InGrant(bases, grants, a, b);
        assert a == n || (0 <= a < n && InGrant(bases, grants, a, b));
      } else {
        assert !InGrant(bases, grants, n, b);
      }
    }
    forall x ensures WordAfter(m0, m, bases, grants, n', x) {
      assert WordAfter(m0, m1, bases, grants, n, x) && WordKept(m1, m, bases[n], grants[n], x);
      if 0 <= x < |m| && m[x] != m1[x] { assert InWords(bases, grants, n, x); }
    }
    forall i: nat, x: nat | i < 4 * n' ensures LabelAt(b2s, sibs, i, x) {
      if i < 4 * n && i < |sibs| && sibs[i].start <= x < sibs[i].limit {
        assert LabelAt(b2s1, sibs1, i, x);
        OtherGrant(bases, grants, b2s0, |m0|, i / 4, n, sibs[i], x);
        assert BookKept(b2s1, b2s, bases[n], grants[n], x / BOOK);
      }
    }
    forall i | 0 <= i < |sibs| ensures if i < 4 * n' then Flipped(sibs0, sibs, requested, nursery, i, bases[i / 4],
        grants[i / 4]) else sibs[i] == sibs0[i] {
      assert i < 4 * n ==> Flipped(sibs0, sibs1, requested, nursery, i, bases[i / 4], grants[i / 4]);
    }
  }

  lemma OtherGrant(bases: seq<nat>, grants: seq<nat>, b2s: seq<Sibid>, words: nat, a: nat, n: nat, s: Sib, x: nat)
    requires a < n < |bases| && GrantsOk(b2s, words, bases, grants, |bases|) && SibPlaced(s, bases[a], grants[a]) &&
        s.start <= x < s.limit
    ensures !(bases[n] / BOOK <= x / BOOK < (bases[n] + grants[n]) / BOOK)
    ensures bases[a] / BOOK <= x / BOOK < (bases[a] + grants[a]) / BOOK
  {
    assert GrantOk(b2s, words, bases[a], grants[a]);
    BookOf(bases[a], grants[a], x);
    assert InGrant(bases, grants, a, x / BOOK);
    assert InGrant(bases, grants, n, x / BOOK) ==> a == n;
  }
}
