/** The end of a major clean: update_fromspace_seniorchunks_end_pointers and trim_heap of
    heapclean-n-agegroups.c. */
module MajorFinish {
  import opened HeapTags
  import opened HeapModel
  import opened HeapObject
  import opened MajorSizing

  /** Everything in a cleaned sib is senior now, except that the oldest agegroup has only juniors. */
  function SeniorEnd(s: Sib, i: nat, active: nat): nat {
    if !Active(s) then 0 else if i / 4 + 1 == active then s.start else s.firstFree
  }

  method UpdateFromspaceSeniorchunksEndPointers(h: Heap, k: nat)
    requires k <= h.active && |h.sibs| == 4 * h.active
    modifies h`sibs
    ensures |h.sibs| == |old(h.sibs)|
    ensures forall i {:trigger h.sibs[i]} :: 0 <= i < |h.sibs| ==>
      h.sibs[i] == if i < 4 * k then old(h.sibs)[i].(seniorEnd := SeniorEnd(old(h.sibs)[i], i, h.active))
          else old(h.sibs)[i]
  {
    ghost var sibs0 := h.sibs;
    var a := 0;
    while a < k
      invariant a <= k && |h.sibs| == |sibs0|
      invariant forall i {:trigger h.sibs[i]} :: 0 <= i < |h.sibs| ==>
        h.sibs[i] == if i < 4 * a then sibs0[i].(seniorEnd := SeniorEnd(sibs0[i], i, h.active)) else sibs0[i]
    {
      var s := 0;
      while s < 4
        invariant s <= 4 && |h.sibs| == |sibs0|
        invariant forall i {:trigger h.sibs[i]} :: 0 <= i < |h.sibs| ==>
          h.sibs[i] == if i < 4 * a + s then sibs0[i].(seniorEnd := SeniorEnd(sibs0[i], i, h.active)) else sibs0[i]
      {
        var sib := h.sibs[4 * a + s];
        if a == h.active - 1 {
          h.sibs := h.sibs[4 * a + s := sib.(seniorEnd := if Active(sib) then sib.start else 0)];
        } else {
          h.sibs := h.sibs[4 * a + s := sib.(seniorEnd := if Active(sib) then sib.firstFree else 0)];
        }
        s := s + 1;
      }
      a := a + 1;
    }
  }

  /** The least a sib may be trimmed to, in bytes: what it holds, what was asked for, and room for the next
      younger agegroup. */
  function Used(s: Sib): nat { if s.start <= s.firstFree then s.firstFree - s.start else 0 }

  function LeastBytes(sibs: seq<Sib>, requested: seq<nat>, buffer: nat, i: nat): nat
    requires i < |sibs| == |requested|
  {
    var s := sibs[i];
    (if i < 4 then 4 * buffer
     else if sibs[i - 4].start <= sibs[i - 4].limit then 4 * (sibs[i - 4].limit - sibs[i - 4].start) else 0)
    + 4 * Used(s) + 4 * requested[i]
  }

  /** Trimming only lowers the limit, never below what is in use, and leaves the least that may be left if
      it was there. */
  predicate Trimmed(s0: Sib, s: Sib, least: nat) {
    && s == s0.(limit := s.limit) && s.limit <= s0.limit &&
        (s0.start <= s0.firstFree <= s0.limit ==> s.firstFree <= s.limit)
    && (Active(s0) ==> Active(s)) && (s.limit == s0.limit || (s.start <= s.limit && 4 * (s.limit - s.start) >= least))
  }

  /** The size of a to-space of agegroup1 after trimming, in bytes. */
  function TrimmedBytes(bytesize: nat, min_bytesize: nat, soft_max_bytesize: nat): nat {
    if bytesize <= soft_max_bytesize then bytesize
    else if min_bytesize < soft_max_bytesize then soft_max_bytesize
    else if 4 * BookRounded(min_bytesize) > bytesize then bytesize
    else 4 * BookRounded(min_bytesize)
  }

  predicate TrimmedTo(s0: Sib, s: Sib, min_bytesize: nat, soft_max_bytesize: nat) {
    Active(s0) ==> (s.start <= s.limit &&
        4 * (s.limit - s.start) == TrimmedBytes(4 * (s0.limit - s0.start), min_bytesize, soft_max_bytesize))
  }

  /** A to-space is cut back to its soft limit if that is more than the least it needs, and else to the whole books
      that just hold the least, if it is larger than those; it never grows. */
  lemma TrimmedIsLeast(bytesize: nat, min_bytesize: nat, soft_max_bytesize: nat)
    ensures var b := TrimmedBytes(bytesize, min_bytesize, soft_max_bytesize);
      && (bytesize <= soft_max_bytesize ==> b == bytesize)
      && (min_bytesize < soft_max_bytesize < bytesize ==> b == soft_max_bytesize)
      && (soft_max_bytesize < bytesize && soft_max_bytesize <= min_bytesize ==>
          (b == bytesize < min_bytesize + 0x10000) || (b % 0x10000 == 0 && min_bytesize <= b < min_bytesize + 0x10000))
      && (b != bytesize ==> b < bytesize && b >= min_bytesize && b >= soft_max_bytesize)
  {
  }

  method TrimmedSize(bytesize: nat, min_bytesize: nat, soft_max_bytesize: nat) returns (new_bytesize: nat)
    requires bytesize > soft_max_bytesize >= 4 && bytesize % 4 == 0 && soft_max_bytesize % 4 == 0
    ensures new_bytesize % 4 == 0 && 4 <= new_bytesize <= bytesize &&
        (new_bytesize >= min_bytesize || new_bytesize == bytesize)
    ensures new_bytesize == TrimmedBytes(bytesize, min_bytesize, soft_max_bytesize)
  {
    if min_bytesize < soft_max_bytesize {
      new_bytesize := soft_max_bytesize;
    } else {
      new_bytesize := 4 * BookRounded(min_bytesize);
      if new_bytesize > bytesize {
        new_bytesize := bytesize;
      }
    }
  }

  method TrimSib(h: Heap, a: nat, s: nat, buffer: nat)
    requires 4 * a + s < |h.sibs| == |h.requested| == |h.softMax| && s < 4
    requires h.sibs[4 * a + s].start <= h.sibs[4 * a + s].firstFree <= h.sibs[4 * a + s].limit &&
        h.softMax[4 * a + s] >= 4 && h.softMax[4 * a + s] % 4 == 0
    requires a > 0 ==> h.sibs[4 * (a - 1) + s].start <= h.sibs[4 * (a - 1) + s].limit
    modifies h`sibs
    ensures |h.sibs| == |old(h.sibs)|
    ensures forall i {:trigger h.sibs[i]} :: 0 <= i < |h.sibs| && i != 4 * a + s ==> h.sibs[i] == old(h.sibs)[i]
    ensures Trimmed(old(h.sibs)[4 * a + s], h.sibs[4 * a + s], LeastBytes(old(h.sibs), h.requested, buffer, 4 * a + s))
    ensures TrimmedTo(old(h.sibs)[4 * a + s], h.sibs[4 * a + s], LeastBytes(old(h.sibs), h.requested, buffer,
        4 * a + s), h.softMax[4 * a + s])
  {
    var i := 4 * a + s;
    var sib := h.sibs[i];
    var bytesize := 4 * (sib.limit - sib.start);
    if Active(sib) && bytesize > h.softMax[i] {
      var min_bytesize := if a == 0 then 4 * buffer else 4 * (h.sibs[i - 4].limit - h.sibs[i - 4].start);
      min_bytesize := min_bytesize + 4 * (sib.firstFree - sib.start) + 4 * h.requested[i];
      var new_bytesize := TrimmedSize(bytesize, min_bytesize, h.softMax[i]);
      h.sibs := h.sibs[i := sib.(limit := sib.start + new_bytesize / 4)];
    }
  }

  predicate TrimReady(s: Sib) { s.start <= s.firstFree <= s.limit }

  /** Cut the to-spaces of the cleaned agegroups back to their soft limits, youngest first. */
  method TrimHeap(h: Heap, k: nat, buffer: nat, unlimited_heap_is_enabled: bool)
    requires k <= h.active && |h.sibs| == |h.requested| == |h.softMax| == 4 * h.active
    requires forall i {:trigger h.sibs[i]} :: 0 <= i < |h.sibs| ==> TrimReady(h.sibs[i])
    requires forall i {:trigger h.softMax[i]} :: 0 <= i < |h.softMax| ==> h.softMax[i] >= 4 && h.softMax[i] % 4 == 0
    modifies h`sibs
    ensures |h.sibs| == |old(h.sibs)|
    ensures forall i {:trigger h.sibs[i]} :: 0 <= i < |h.sibs| ==>
      if i < 4 * k then Trimmed(old(h.sibs)[i], h.sibs[i],
          (if i < 4 then 4 * buffer else 0) + 4 * Used(old(h.sibs)[i]) + 4 * h.requested[i])
      else h.sibs[i] == old(h.sibs)[i]
    ensures unlimited_heap_is_enabled ==> h.sibs == old(h.sibs)
    ensures !unlimited_heap_is_enabled ==> AllTrimmed(old(h.sibs), h.sibs, h.requested, h.softMax, buffer, 4 * k)
  {
    ghost var sibs0 := h.sibs;
    if unlimited_heap_is_enabled {
      return;
    }
    var a := 0;
    while a < k
      invariant a <= k && TrimmedBelow(sibs0, h.sibs, h.requested, buffer, 4 * a)
      invariant AllTrimmed(sibs0, h.sibs, h.requested, h.softMax, buffer, 4 * a)
    {
      var s := 0;
      while s < 4
        invariant s <= 4 && TrimmedBelow(sibs0, h.sibs, h.requested, buffer, 4 * a + s)
        invariant AllTrimmed(sibs0, h.sibs, h.requested, h.softMax, buffer, 4 * a + s)
      {
        hide TrimmedTo, Trimmed, AllTrimmed, LeastBytes;
        ghost var sibs1 := h.sibs;
        assert h.sibs[4 * a + s] == sibs0[4 * a + s];
        assert a > 0 ==> TrimReady(h.sibs[4 * (a - 1) + s]);
        TrimSib(h, a, s, buffer);
        OneMoreTrimmed(sibs0, sibs1, h.sibs, h.requested, h.softMax, buffer, 4 * a + s);
        s := s + 1;
      }
      a := a + 1;
    }
  }

  lemma OneMoreTrimmed(sibs0: seq<Sib>, sibs1: seq<Sib>, sibs: seq<Sib>, requested: seq<nat>, softMax: seq<nat>,
      buffer: nat, n: nat)
    requires |requested| == |sibs0| == |sibs1| == |sibs| == |softMax| && n < |sibs|
    requires TrimmedBelow(sibs0, sibs1, requested, buffer, n) && AllTrimmed(sibs0, sibs1, requested, softMax, buffer, n)
    requires forall i {:trigger sibs[i]} :: 0 <= i < |sibs| && i != n ==> sibs[i] == sibs1[i]
    requires Trimmed(sibs1[n], sibs[n], LeastBytes(sibs1, requested, buffer, n))
    requires TrimmedTo(sibs1[n], sibs[n], LeastBytes(sibs1, requested, buffer, n), softMax[n])
    ensures TrimmedBelow(sibs0, sibs, requested, buffer, n + 1)
    ensures AllTrimmed(sibs0, sibs, requested, softMax, buffer, n + 1)
  {
    hide TrimmedTo;
    assert sibs1[n] == sibs0[n];
    assert n >= 4 ==> TrimReady(sibs1[n - 4]);
    ghost var m := n + 1;
    forall i | 0 <= i < |sibs| ensures TrimReady(sibs0[i]) && TrimReady(sibs[i]) &&
      if i < m then Trimmed(sibs0[i], sibs[i],
          (if i < 4 then 4 * buffer else 0) + 4 * Used(sibs0[i]) + 4 * requested[i])
      else sibs[i] == sibs0[i] {
      ghost var s := sibs1[i];
    }
    forall i: nat | i < m ensures SibTrimmed(sibs0, sibs, requested, softMax, buffer, i) {
      assert i < n ==> SibTrimmed(sibs0, sibs1, requested, softMax, buffer, i);
    }
  }

  /** A sib is trimmed by its own need: what it holds, what was asked for, and a nursery for agegroup1 or else the
      trimmed sib of the next younger agegroup. */
  predicate SibTrimmed(sibs0: seq<Sib>, sibs: seq<Sib>, requested: seq<nat>, softMax: seq<nat>, buffer: nat, i: nat) {
    i < |sibs0| == |sibs| == |requested| == |softMax| && (i >= 4 ==> sibs[i - 4].start <= sibs[i - 4].limit) &&
    TrimmedTo(sibs0[i], sibs[i], (if i < 4 then 4 * buffer else 4 * (sibs[i - 4].limit - sibs[i - 4].start)) +
        4 * Used(sibs0[i]) + 4 * requested[i], softMax[i])
  }

  predicate AllTrimmed(sibs0: seq<Sib>, sibs: seq<Sib>, requested: seq<nat>, softMax: seq<nat>, buffer: nat, n: nat) {
    forall i: nat {:trigger SibTrimmed(sibs0, sibs, requested, softMax, buffer, i)} ::
        i < n ==> SibTrimmed(sibs0, sibs, requested, softMax, buffer, i)
  }

  lemma YoungestTrimmed(sibs0: seq<Sib>, sibs: seq<Sib>, requested: seq<nat>, softMax: seq<nat>, buffer: nat, n: nat,
      unlimited: bool)
    requires |requested| == |sibs0| == |sibs| == |softMax| && n <= |sibs|
    requires if unlimited then sibs == sibs0 else AllTrimmed(sibs0, sibs, requested, softMax, buffer, n)
    ensures forall i {:trigger sibs[i]} :: 0 <= i < 4 && i < n ==>
      if unlimited then sibs[i] == sibs0[i]
      else TrimmedTo(sibs0[i], sibs[i], 4 * buffer + 4 * Used(sibs0[i]) + 4 * requested[i], softMax[i])
  {
    forall i | 0 <= i < 4 && i < n && !unlimited
      ensures TrimmedTo(sibs0[i], sibs[i], 4 * buffer + 4 * Used(sibs0[i]) + 4 * requested[i], softMax[i])
    {
      assert SibTrimmed(sibs0, sibs, requested, softMax, buffer, i);
    }
  }

  predicate TrimmedBelow(sibs0: seq<Sib>, sibs: seq<Sib>, requested: seq<nat>, buffer: nat, n: nat)
    requires |requested| == |sibs0|
  {
    |sibs| == |sibs0| && forall i {:trigger sibs[i]} :: 0 <= i < |sibs| ==>
      TrimReady(sibs0[i]) && TrimReady(sibs[i]) &&
      if i < n then Trimmed(sibs0[i], sibs[i],
          (if i < 4 then 4 * buffer else 0) + 4 * Used(sibs0[i]) + 4 * requested[i]) else sibs[i] == sibs0[i]
  }

  // ------------------------------------------------------------------ exact fits

  /** A to-space of whole books with room for what it holds and for more is left no word besides, if that is whole books
      and either the to-space was no larger or trimming cuts it back to just that; and only then. */
  lemma WhenTrimLeavesNothing(size: nat, needed: nat, soft_max_bytesize: nat)
    requires size % BOOK == 0 && needed <= size
    ensures TrimmedBytes(4 * size, 4 * needed, soft_max_bytesize) == 4 * needed <==>
      needed % BOOK == 0 && (needed == size || soft_max_bytesize <= 4 * needed)
  {
    RoundedIsLeast(needed, size);
  }

  lemma RoundedIsLeast(needed: nat, size: nat)
    requires size % BOOK == 0 && needed <= size
    ensures needed <= BookRounded(4 * needed) <= size && (BookRounded(4 * needed) == needed <==> needed % BOOK == 0)
  {
  }
}
