/** A request that is never met.

    Direct allocation in agegroup1 asks for strictly more room than it needs, a clean may leave exactly what is
    needed, and then the same is tried again.  In this heap nothing is ever in use, so every try ends like the first,
    however often memory for another is granted. */
module ExactFit {
  import opened HeapTags
  import opened HeapModel
  import opened Forwarding
  import opened HeapObject
  import opened MajorForward
  import opened MajorRoots
  import opened MajorSizing
  import opened HeapWorld
  import opened MajorSetup
  import opened MajorMain
  import opened MinorRest
  import opened NurseryLabels
  import opened CallHeapcleaner
  import opened TaskObject
  import opened FirstHeap
  import opened SetUpHeap

  // The vector's words, its tagword and a nursery make four books.
  const LEN := 3 * BOOK - 1
  const SUPPLY_BASE := 10 * BOOK
  const SUPPLY := 8 * BOOK

  /** A nursery of one book, agegroup1 with two books for each sib, and memory for n cleans. */
  function TightPlan(n: nat): Plan {
    Plan(SUPPLY_BASE + n * SUPPLY, 10 + 8 * n, 1, [1], BOOK, BOOK, 2 * BOOK, 2 * BOOK)
  }

  lemma TightPlanIsSane(n: nat)
    ensures Sane(TightPlan(n))
  {
  }

  function SupplyAt(m: nat): nat { SUPPLY_BASE + m * SUPPLY }

  /** The memory for cleans m to n. */
  function Bases(m: nat, n: nat): (r: seq<nat>)
    requires m <= n
    ensures |r| == n - m && forall i {:trigger r[i]} :: 0 <= i < n - m ==> r[i] == SupplyAt(m + i)
    decreases n - m
  {
    if m == n then [] else [SupplyAt(m)] + Bases(m + 1, n)
  }

  function Sizes(m: nat, n: nat): (r: seq<nat>)
    requires m <= n
    ensures |r| == n - m
  {
    seq(n - m, _ => SUPPLY)
  }

  lemma SupplyIs(m: nat, n: nat, a: int, x: int)
    requires m <= n
    ensures InWords(Bases(m, n), Sizes(m, n), a, x) <==> 0 <= a < n - m && SupplyAt(m + a) <= x < SupplyAt(m + a + 1)
  {
  }

  lemma SupplyGrows(m: nat, n: nat)
    requires m <= n
    ensures SUPPLY_BASE <= SupplyAt(m) <= SupplyAt(n)
  {
    assert n * SUPPLY == m * SUPPLY + (n - m) * SUPPLY;
  }

  /** The memory is in nobody's use at first. */
  lemma SupplyIsFresh(n: nat)
    ensures Sane(TightPlan(n)) && GrantsFresh(FirstWorld(TightPlan(n)), Bases(0, n), Sizes(0, n))
  {
    var l := TightPlan(n);
    TightPlanIsSane(n);
    var w := FirstWorld(l);
    forall a, x | InWords(Bases(0, n), Sizes(0, n), a, x)
      ensures 0 <= x && x !in w.ext && KindAt(w, x) != CODE_KIND && AgeAt(w, x) != 0 &&
          forall i {:trigger InBuffer(w, i, x)} :: !InBuffer(w, i, x)
    {
      SupplyIs(0, n, a, x);
      SupplyGrows(0, a);
      FirstLabel(l, x);
      forall i ensures !InBuffer(w, i, x) { if 0 <= i < |w.sibs| { FirstSibOk(l, i); } }
    }
  }

  /** Memory for one clean, and for the ones after it. */
  lemma SupplyParts(w: Flip, m: nat, n: nat)
    requires m < n && GrantsFresh(w, Bases(m, n), Sizes(m, n))
    ensures GrantsFresh(w, [SupplyAt(m)], [SUPPLY]) && GrantsFresh(w, Bases(m + 1, n), Sizes(m + 1, n))
    ensures GrantsApart([SupplyAt(m)], [SUPPLY], Bases(m + 1, n), Sizes(m + 1, n))
  {
    var k := m + 1;
    forall a, x | InWords([SupplyAt(m)], [SUPPLY], a, x) ensures InWords(Bases(m, n), Sizes(m, n), 0, x) {
      SupplyIs(m, n, 0, x);
    }
    forall a, x | InWords(Bases(k, n), Sizes(k, n), a, x)
      ensures InWords(Bases(m, n), Sizes(m, n), a + 1, x) && x >= SupplyAt(k)
    {
      SupplyIs(k, n, a, x);
      SupplyIs(m, n, a + 1, x);
      SupplyGrows(k, k + a);
    }
    hide Bases, Sizes;
    FreshParts(w, Bases(m, n), Sizes(m, n), [SupplyAt(m)], [SUPPLY], 0);
    FreshParts(w, Bases(m, n), Sizes(m, n), Bases(k, n), Sizes(k, n), 1);
  }

  /** Part of fresh memory is fresh. */
  lemma FreshParts(w: Flip, bases: seq<nat>, grants: seq<nat>, others: seq<nat>, sizes: seq<nat>, shift: nat)
    requires GrantsFresh(w, bases, grants)
    requires forall a, x {:trigger InWords(others, sizes, a, x)} ::
        InWords(others, sizes, a, x) ==> InWords(bases, grants, a + shift, x)
    ensures GrantsFresh(w, others, sizes)
  {
  }

  /** A region of whole books in nobody's use can be granted. */
  lemma SupplyIsGrantable(w: Flip, base: nat)
    requires GrantsFresh(w, [base], [SUPPLY]) &&
        forall b: nat {:trigger RecordIsCode(w.b2s, b)} :: RecordIsCode(w.b2s, b)
    requires 0 < base && base % BOOK == 0 && base + SUPPLY <= |w.mem| <= |w.b2s| * BOOK
    ensures GrantsOk(w.b2s, |w.mem|, [base], [SUPPLY], 1)
  {
    forall b: nat | base / BOOK <= b < (base + SUPPLY) / BOOK ensures b < |w.b2s| && w.b2s[b].id != HUGECHUNK_RECORD {
      assert b * BOOK / BOOK == b && InWords([base], [SUPPLY], 0, b * BOOK);
      assert RecordIsCode(w.b2s, b) && KindAt(w, b * BOOK) != CODE_KIND;
    }
  }

  // ------------------------------------------------------------------ one try

  /** Nothing is in use, nothing else is asked for, and there is no room for the vector. */
  ghost predicate Stuck(t: Task)
    reads t, t.heap, t.heap.ram
  {
    && Working(t) && Snug(t) && Vacant(t.world) && NoRoom(t, LEN) && |t.roots| == 1
    && t.heap.active == 1 && t.heap_allocation_buffer_words == BOOK == t.heap.nurseryWords
    && t.heap.requested == [0, 0, 0, 0] && t.heap.softMax == [4, 4, 4, 4]
  }

  /** What a clean of agegroup1 with room for the vector takes. */
  lemma SupplySuffices(sibs: seq<Sib>)
    requires |sibs| == 4 && forall i {:trigger sibs[i]} :: 0 <= i < 4 ==> EmptySib(sibs[i])
    ensures NeededWords(sibs, [0, 0, 0, LEN + 1], BOOK, 0) == SUPPLY
  {
    assert Minima(sibs, [0, 0, 0, LEN + 1], BOOK, 0) == [BOOK, BOOK + 2, BOOK, 4 * BOOK];
    var sizes := Fallback([BOOK, BOOK + 2, BOOK, 4 * BOOK]);
    assert sizes == [BOOK, 2 * BOOK, BOOK, 4 * BOOK];
    assert Offset(sizes, 1) == BOOK && Offset(sizes, 2) == 3 * BOOK && Offset(sizes, 3) == 4 * BOOK;
  }

  lemma SupplyIsEnough(sibs: seq<Sib>)
    requires |sibs| == 4 && forall i {:trigger sibs[i]} :: 0 <= i < 4 ==> EmptySib(sibs[i])
    ensures !Starved(sibs, [0, 0, 0, LEN + 1], BOOK, [SUPPLY], 1, 1)
  {
    SupplySuffices(sibs);
  }

  lemma VacantSibs(w: Flip)
    requires Vacant(w)
    ensures forall i {:trigger w.sibs[i]} :: 0 <= i < |w.sibs| ==> EmptySib(w.sibs[i])
  {
  }

  lemma MayBeGranted(t: Task, base: nat)
    requires Stuck(t) && 0 < base && base % BOOK == 0 && base + SUPPLY <= |t.world.mem|
    requires GrantsFresh(t.world, [base], [SUPPLY])
    ensures t.world.k == 1 && |t.world.mem| == t.heap.ram.Length
    ensures GrantsOk(t.world.b2s, |t.world.mem|, [base], [SUPPLY], 1)
  {
    SupplyIsGrantable(t.world, base);
  }

  /** A fit of whole books beyond the soft limit is exact. */
  lemma FitIsExact(fit: Sib)
    requires RoomByBooks(fit, LEN + 1, BOOK, 4, false) && fit.firstFree == fit.start
    ensures fit.limit - fit.firstFree == LEN + 1 + BOOK
  {
  }

  /** A try fails for no lack of memory, and leaves things as they were. */
  method TryOnce(t: Task, base: nat) returns (result: nat)
    requires Stuck(t) && 0 < base && base % BOOK == 0 && base + SUPPLY <= |t.world.mem| && GrantsFresh(t.world, [base],
        [SUPPLY])
    modifies t`heap_allocation_pointer, t`heap_changelog, t`world, t.heap, t.heap.ram
    ensures result == 0 && Stuck(t) && Spares(old(t.world), t.world, [base],
        [SUPPLY]) && |t.world.mem| == |old(t.world.mem)|
  {
    hide Snug, Vacant, Spares, GrantsFresh, Starved, RoomByBooks, GapsFitBoth, GrantsOk, AtWork, Nursery;
    MayBeGranted(t, base);
    ghost var w, requested := t.world, t.heap.requested;
    assert requested[RW_POINTERS_SIB := LEN + 1] == [0, 0, 0, LEN + 1];
    var ok;
    ghost var k, u, fit;
    ok, result, k, u, fit := MakeNonemptyRwVector(t, LEN, 0, [base], [SUPPLY], false);
    if ok {
      FitIsExact(fit);
      SparesKinds(w, t.world, [base], [SUPPLY]);
    } else {
      VacantSibs(u);
      SupplyIsEnough(u.sibs);
    }
  }

  // ------------------------------------------------------------------ any number of tries

  /** However many tries memory is granted for, all fail. */
  method TryForever(n: nat) returns (t: Task, failures: nat)
    ensures fresh(t) && Stuck(t) && failures == n
  {
    hide Stuck, Sane, FirstWorld, Spares, GrantsFresh, Bases, Sizes;
    SupplyIsFresh(n);
    t := StartTight(n);
    failures := 0;
    while failures < n
      invariant failures <= n && fresh(t) && fresh(t.heap) && fresh(t.heap.ram) && Stuck(t)
      invariant |t.world.mem| == SupplyAt(n) && GrantsFresh(t.world, Bases(failures, n), Sizes(failures, n))
      modifies t, t.heap, t.heap.ram
    {
      ghost var w, next := t.world, failures + 1;
      SupplyParts(w, failures, n);
      SupplyGrows(failures + 1, n);
      SupplyGrows(0, failures);
      SupplyIsBooks(failures);
      var result := TryOnce(t, SupplyAt(failures));
      StaysFresh(w, t.world, [SupplyAt(failures)], [SUPPLY], Bases(next, n), Sizes(next, n));
      if result == 0 {
        failures := failures + 1;
      }
    }
  }

  lemma SupplyIsBooks(m: nat)
    ensures SupplyAt(m) % BOOK == 0 && SupplyAt(m + 1) == SupplyAt(m) + SUPPLY
  {
  }

  lemma StaysFresh(w: Flip, r: Flip, bases: seq<nat>, grants: seq<nat>, others: seq<nat>, sizes: seq<nat>)
    requires Spares(w, r, bases, grants) && GrantsFresh(w, others, sizes) && GrantsApart(bases, grants, others, sizes)
    ensures GrantsFresh(r, others, sizes)
  {
  }

  method StartTight(n: nat) returns (t: Task)
    requires Sane(TightPlan(n))
    ensures fresh(t) && fresh(t.heap) && fresh(t.heap.ram) && Stuck(t) && t.world == FirstWorld(TightPlan(n)) &&
        |t.world.mem| == SupplyAt(n)
  {
    hide Working, Snug, Vacant;
    assert BookRounded(8 * BOOK) == 2 * BOOK;
    t := SetUp(TightPlan(n), 2 * BOOK, BOOK, [1], [4, 4, 4, 4]);
    FirstIsVacant(TightPlan(n));
    WorkingSibs(t);
  }

  lemma WorkingSibs(t: Task)
    requires Working(t)
    ensures t.heap.sibs == t.world.sibs
  {
  }

  lemma FirstIsVacant(l: Plan)
    requires Sane(l)
    ensures Vacant(FirstWorld(l))
  {
    FirstIsWellFormed(l);
    forall i | 0 <= i < |FirstWorld(l).sibs| ensures EmptySib(FirstWorld(l).sibs[i]) { }
  }
}
