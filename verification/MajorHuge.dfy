/** forward_promote_or_reclaim_all_hugechunks of heapclean-n-agegroups.c: what becomes of code, which is
    never copied, once the chunks that live pointers reach have been marked. */
module MajorHuge {
  import opened HeapTags
  import opened HeapModel
  import opened Forwarding
  import opened HeapObject

  // ------------------------------------------------------------------ one hugechunk

  /** What the pass makes of a hugechunk. */
  function HugeAfter(d: Huge, k: nat, active: nat): Huge {
    if d.age > k then d
    else if d.state == JUNIOR_WAITING_TO_BE_FORWARDED then
      d.(state := if d.age == active then JUNIOR_HUGECHUNK else SENIOR_HUGECHUNK)
    else if d.state == SENIOR_WAITING_TO_BE_PROMOTED then
      d.(state := if d.age == k || d.age + 1 >= active then JUNIOR_HUGECHUNK else SENIOR_HUGECHUNK, age := d.age + 1)
    else d.(state := FREE_HUGECHUNK)
  }

  predicate LiveHuge(d: Huge) { d.state != FREE_HUGECHUNK }

  /** The states and ages that occur: while cleaning ages 1 to k, chunks of those ages may be waiting. */
  predicate HugeStateOk(d: Huge, k: nat, active: nat) {
    && d.state <= SENIOR_WAITING_TO_BE_PROMOTED
    && (LiveHuge(d) ==> 1 <= d.age <= active)
    && (d.state == JUNIOR_WAITING_TO_BE_FORWARDED || d.state == SENIOR_WAITING_TO_BE_PROMOTED ==> d.age <= k)
    && (d.age == active ==> d.state < SENIOR_HUGECHUNK)
  }

  /** List a holds each live hugechunk of age a + 1, and nothing else. */
  predicate ListHolds(huge: seq<Huge>, lists: seq<seq<nat>>, a: int, d: int) {
    0 <= a < |lists| && 0 <= d ==> (d in lists[a] <==> d < |huge| && LiveHuge(huge[d]) && huge[d].age == a + 1)
  }

  predicate NoRepeats(list: seq<nat>) { forall i, j {:trigger list[i], list[j]} ::
      0 <= i < j < |list| ==> list[i] != list[j] }

  /** Between cleans k is 0: no chunk is waiting.  The oldest agegroup holds only junior chunks. */
  ghost predicate HugeListsOk(huge: seq<Huge>, lists: seq<seq<nat>>, k: nat, active: nat) {
    && |lists| == active
    && (forall a, d {:trigger ListHolds(huge, lists, a, d)} :: ListHolds(huge, lists, a, d))
    && (forall a {:trigger lists[a]} :: 0 <= a < |lists| ==> NoRepeats(lists[a]))
    && (forall d {:trigger huge[d]} :: 0 <= d < |huge| ==> HugeStateOk(huge[d], k, active))
  }

  // ------------------------------------------------------------------ the pass over one list

  /** Hugechunk d after the first i of the list have been dealt with. */
  predicate DealtWith(huge0: seq<Huge>, huge: seq<Huge>, list: seq<nat>, i: nat, k: nat, active: nat, d: int) {
    0 <= d < |huge| && |huge| == |huge0| && i <= |list| ==>
      huge[d] == if d in list[..i] then HugeAfter(huge0[d], k, active) else huge0[d]
  }

  /** A list holds the old members and those of the first i dealt with that then have a given age. */
  predicate Collects(huge0: seq<Huge>, list: seq<nat>, i: nat, k: nat, active: nat, age: nat, before: seq<nat>,
      now: seq<nat>, d: int) {
    0 <= d && i <= |list| ==>
      (d in now <==> (d in before ||
          (d in list[..i] && d < |huge0| &&
           LiveHuge(HugeAfter(huge0[d], k, active)) && HugeAfter(huge0[d], k, active).age == age)))
  }

  ghost predicate Collected(huge0: seq<Huge>, list: seq<nat>, i: nat, k: nat, active: nat, age: nat, before: seq<nat>,
      now: seq<nat>) {
    NoRepeats(now) && forall d {:trigger Collects(huge0, list, i, k, active, age, before, now, d)} ::
        Collects(huge0, list, i, k, active, age, before, now, d)
  }

  /** How far the pass over the list of one age has come. */
  ghost predicate Dealing(huge0: seq<Huge>, list: seq<nat>, i: nat, k: nat, active: nat, age: nat, huge: seq<Huge>,
                          before: seq<nat>, promote: seq<nat>, forward: seq<nat>) {
    && |huge| == |huge0| && i <= |list|
    && (forall d {:trigger DealtWith(huge0, huge, list, i, k, active, d)} ::
        DealtWith(huge0, huge, list, i, k, active, d))
    && Collected(huge0, list, i, k, active, age, [], forward)
    && (if age < active then Collected(huge0, list, i, k, active, age + 1, before, promote) else promote == before)
  }

  /** The list of an age being cleaned, before the pass. */
  ghost predicate AgeList(huge0: seq<Huge>, list: seq<nat>, k: nat, active: nat, age: nat) {
    && 1 <= age <= k <= active && NoRepeats(list)
    && forall j {:trigger list[j]} :: 0 <= j < |list| ==>
      list[j] < |huge0| && LiveHuge(huge0[list[j]]) && huge0[list[j]].age == age &&
          HugeStateOk(huge0[list[j]], k, active)
  }

  lemma CollectOne(huge0: seq<Huge>, list: seq<nat>, i: nat, k: nat, active: nat, age: nat, before: seq<nat>,
      now: seq<nat>, now': seq<nat>)
    requires i < |list| && NoRepeats(list) && list[i] < |huge0| &&
        Collected(huge0, list, i, k, active, age, before, now)
    requires var d := HugeAfter(huge0[list[i]], k, active);
      if LiveHuge(d) && d.age == age then now' == [list[i]] + now && list[i] !in before else now' == now
    ensures Collected(huge0, list, i + 1, k, active, age, before, now')
  {
    var i' := i + 1;
    assert list[..i'] == list[..i] + [list[i]];
    assert Collects(huge0, list, i, k, active, age, before, now, list[i]);
    forall d ensures Collects(huge0, list, i', k, active, age, before, now', d) {
      assert Collects(huge0, list, i, k, active, age, before, now, d);
    }
  }

  method DealWithOne(h: Heap, k: nat, age: nat, p: nat, promote: seq<nat>, forward: seq<nat>, ghost huge0: seq<Huge>,
                     ghost list: seq<nat>, ghost i: nat, ghost before: seq<nat>) returns (promote': seq<nat>,
                         forward': seq<nat>)
    requires AgeList(huge0, list, k, h.active, age) &&
        Dealing(huge0, list, i, k, h.active, age, h.huge, before, promote, forward)
    requires i < |list| && p == list[i] && (age < h.active ==> p !in before)
    modifies h`huge
    ensures Dealing(huge0, list, i + 1, k, h.active, age, h.huge, before, promote', forward')
  {
    ghost var huge := h.huge;
    assert DealtWith(huge0, h.huge, list, i, k, h.active, p);
    promote', forward' := promote, forward;
    var d := h.huge[p];
    if d.state == JUNIOR_HUGECHUNK || d.state == SENIOR_HUGECHUNK {
      h.huge := h.huge[p := d.(state := FREE_HUGECHUNK)];
    } else if d.state == JUNIOR_WAITING_TO_BE_FORWARDED {
      h.huge := h.huge[p := d.(state := if age == h.active then JUNIOR_HUGECHUNK else SENIOR_HUGECHUNK)];
      forward' := [p] + forward;
    } else {
      h.huge := h.huge[p := d.(
        state := if age == h.active || age == k || age == h.active - 1 then JUNIOR_HUGECHUNK else SENIOR_HUGECHUNK,
        age := d.age + 1)];
      promote' := [p] + promote;
    }
    CollectOne(huge0, list, i, k, h.active, age, [], forward, forward');
    if age < h.active { CollectOne(huge0, list, i, k, h.active, age + 1, before, promote, promote'); }
    ghost var i' := i + 1;
    assert list[..i'] == list[..i] + [p];
    forall e ensures DealtWith(huge0, h.huge, list, i', k, h.active, e) {
      assert DealtWith(huge0, huge, list, i, k, h.active, e);
    }
  }

  /** Deal with the hugechunks of one age: free those not reached, keep or promote the others. */
  method ForwardPromoteOrReclaimList(h: Heap, k: nat, age: nat)
    requires HugeListsOk(h.huge, h.hugechunks, k, h.active) && 1 <= age <= k <= h.active
    modifies h`huge, h`hugechunks
    ensures HugeListsOk(h.huge, h.hugechunks, k, h.active) && Passed(old(h.huge), h.huge, k, h.active, age, age)
  {
    ghost var huge0, lists0 := h.huge, h.hugechunks;
    var target := if age == h.active then age - 1 else age;
    var list := h.hugechunks[age - 1];
    var promote: seq<nat>, forward: seq<nat> := h.hugechunks[target], [];
    ListOfAge(huge0, lists0, k, h.active, age);
    var i := 0;
    while i < |list|
      invariant i <= |list| && h.hugechunks == lists0
      invariant Dealing(huge0, list, i, k, h.active, age, h.huge, lists0[target], promote, forward)
    {
      assert ListHolds(huge0, lists0, target, list[i]);
      promote, forward := DealWithOne(h, k, age, list[i], promote, forward, huge0, list, i, lists0[target]);
      i := i + 1;
    }
    h.hugechunks := h.hugechunks[target := promote];
    h.hugechunks := h.hugechunks[age - 1 := forward];
    ListsAfter(huge0, lists0, k, h.active, age, h.huge, promote, forward, h.hugechunks);
  }

  lemma ListOfAge(huge0: seq<Huge>, lists0: seq<seq<nat>>, k: nat, active: nat, age: nat)
    requires HugeListsOk(huge0, lists0, k, active) && 1 <= age <= k <= active
    ensures AgeList(huge0, lists0[age - 1], k, active, age)
    ensures Dealing(huge0, lists0[age - 1], 0, k, active, age, huge0, lists0[if age == active then age - 1 else age],
                    lists0[if age == active then age - 1 else age], [])
  {
    var list := lists0[age - 1];
    forall j | 0 <= j < |list| ensures list[j] < |huge0| && LiveHuge(huge0[list[j]]) && huge0[list[j]].age == age &&
        HugeStateOk(huge0[list[j]], k, active) {
      assert ListHolds(huge0, lists0, age - 1, list[j]);
    }
  }

  /** The hugechunks of ages lo to hi have been through the pass. */
  predicate PassedOne(huge0: seq<Huge>, huge: seq<Huge>, k: nat, active: nat, lo: nat, hi: nat, d: int) {
    0 <= d < |huge| && |huge| == |huge0| ==>
      huge[d] == if LiveHuge(huge0[d]) && lo <= huge0[d].age <= hi then HugeAfter(huge0[d], k, active) else huge0[d]
  }

  ghost predicate Passed(huge0: seq<Huge>, huge: seq<Huge>, k: nat, active: nat, lo: nat, hi: nat) {
    |huge| == |huge0| && forall d {:trigger PassedOne(huge0, huge, k, active, lo, hi, d)} ::
        PassedOne(huge0, huge, k, active, lo, hi, d)
  }

  lemma ListsAfter(huge0: seq<Huge>, lists0: seq<seq<nat>>, k: nat, active: nat, age: nat, huge: seq<Huge>,
                   promote: seq<nat>, forward: seq<nat>, lists: seq<seq<nat>>)
    requires HugeListsOk(huge0, lists0, k, active) && 1 <= age <= k <= active
    requires var target := if age == active then age - 1 else age;
      && Dealing(huge0, lists0[age - 1], |lists0[age - 1]|, k, active, age, huge, lists0[target], promote, forward)
      && lists == lists0[target := promote][age - 1 := forward]
    ensures HugeListsOk(huge, lists, k, active) && Passed(huge0, huge, k, active, age, age)
  {
    var list, n := lists0[age - 1], |lists0[age - 1]|;
    assert list[..n] == list;
    forall d ensures PassedOne(huge0, huge, k, active, age, age, d) {
      assert DealtWith(huge0, huge, list, n, k, active, d) && ListHolds(huge0, lists0, age - 1, d);
    }
    forall a, d ensures ListHolds(huge, lists, a, d) {
      assert ListHolds(huge0, lists0, a, d) && ListHolds(huge0, lists0, age - 1, d) &&
          PassedOne(huge0, huge, k, active, age, age, d);
      assert Collects(huge0, list, n, k, active, age, [], forward, d);
      if age < active { assert Collects(huge0, list, n, k, active, age + 1, lists0[age], promote, d); }
    }
    forall d | 0 <= d < |huge| ensures HugeStateOk(huge[d], k, active) {
      assert PassedOne(huge0, huge, k, active, age, age, d) && HugeStateOk(huge0[d], k, active);
    }
  }

  // ------------------------------------------------------------------ giving from-spaces back

  predicate FromBook(s: Sib, b: int) { s.fromStart != 0 && s.fromStart / BOOK <= b < s.fromLimit / BOOK }

  predicate FromBookOf(sibs: seq<Sib>, i: int, b: int) { 0 <= i < |sibs| && FromBook(sibs[i], b) }

  /** Book b after the from-spaces of sibs lo to hi have been given back. */
  predicate FreedBook(sibs0: seq<Sib>, b2s0: seq<Sibid>, b2s: seq<Sibid>, lo: int, hi: int, b: int) {
    0 <= b < |b2s| && |b2s| == |b2s0| ==>
      b2s[b] == if exists i :: lo <= i < hi && FromBookOf(sibs0, i, b) then UNMAPPED_BOOK_SIBID else b2s0[b]
  }

  function NoFromSpace(s: Sib): Sib { s.(fromStart := 0, fromFirstFree := 0, fromLimit := 0) }

  ghost predicate Freed(sibs0: seq<Sib>, b2s0: seq<Sibid>, sibs: seq<Sib>, b2s: seq<Sibid>, lo: int, hi: int) {
    && |sibs| == |sibs0| && |b2s| == |b2s0|
    && (forall b {:trigger FreedBook(sibs0, b2s0, b2s, lo, hi, b)} :: FreedBook(sibs0, b2s0, b2s, lo, hi, b))
    && (forall i {:trigger sibs[i]} :: 0 <= i < |sibs| ==>
        sibs[i] == if lo <= i < hi && sibs0[i].fromStart != 0 then NoFromSpace(sibs0[i]) else sibs0[i])
  }

  /** Unmap the books of one from-space. */
  method FreeSib(h: Heap, i: nat)
    requires i < |h.sibs| && h.sibs[i].fromLimit / BOOK <= |h.b2s|
    modifies h`sibs, h`b2s
    ensures Freed(old(h.sibs), old(h.b2s), h.sibs, h.b2s, i, i + 1)
  {
    var ap := h.sibs[i];
    ghost var sibs0, b2s0 := h.sibs, h.b2s;
    if ap.fromStart != 0 {
      SetBook2sibidEntriesForRange(h, ap.fromStart / BOOK, ap.fromLimit / BOOK, UNMAPPED_BOOK_SIBID);
      h.sibs := h.sibs[i := ap.(fromStart := 0, fromFirstFree := 0, fromLimit := 0)];
    }
    ghost var j := i + 1;
    forall b ensures FreedBook(sibs0, b2s0, h.b2s, i, j, b) {
      assert FromBookOf(sibs0, i, b) <==> FromBook(ap, b);
    }
  }

  lemma FreedMore(sibs0: seq<Sib>, b2s0: seq<Sibid>, sibs1: seq<Sib>, b2s1: seq<Sibid>, sibs: seq<Sib>, b2s: seq<Sibid>,
      lo: int, mid: int, hi: int)
    requires Freed(sibs0, b2s0, sibs1, b2s1, mid, hi) && Freed(sibs1, b2s1, sibs, b2s, lo, mid) && lo <= mid <= hi
    ensures Freed(sibs0, b2s0, sibs, b2s, lo, hi)
  {
    forall b ensures FreedBook(sibs0, b2s0, b2s, lo, hi, b) {
      assert FreedBook(sibs0, b2s0, b2s1, mid, hi, b) && FreedBook(sibs1, b2s1, b2s, lo, mid, b);
      forall i | lo <= i < mid ensures FromBookOf(sibs1, i, b) <==> FromBookOf(sibs0, i, b) {
        assert 0 <= i < |sibs1| ==> sibs1[i] == sibs0[i];
      }
    }
  }

  lemma FreedSwapped(sibs0: seq<Sib>, b2s0: seq<Sibid>, sibs1: seq<Sib>, b2s1: seq<Sibid>, sibs: seq<Sib>,
      b2s: seq<Sibid>, lo: int, mid: int, hi: int)
    requires Freed(sibs0, b2s0, sibs1, b2s1, lo, mid) && Freed(sibs1, b2s1, sibs, b2s, mid, hi) && lo <= mid <= hi
    ensures Freed(sibs0, b2s0, sibs, b2s, lo, hi)
  {
    forall b ensures FreedBook(sibs0, b2s0, b2s, lo, hi, b) {
      assert FreedBook(sibs0, b2s0, b2s1, lo, mid, b) && FreedBook(sibs1, b2s1, b2s, mid, hi, b);
      forall i | mid <= i < hi ensures FromBookOf(sibs1, i, b) <==> FromBookOf(sibs0, i, b) {
        assert 0 <= i < |sibs1| ==> sibs1[i] == sibs0[i];
      }
    }
  }

  predicate FromFits(s: Sib, books: nat) { s.fromLimit / BOOK <= books }

  method FreeAgegroup(h: Heap, g: nat)
    requires 4 * g + 4 <= |h.sibs| && forall i {:trigger h.sibs[i]} ::
        0 <= i < |h.sibs| ==> FromFits(h.sibs[i], |h.b2s|)
    modifies h`sibs, h`b2s
    ensures Freed(old(h.sibs), old(h.b2s), h.sibs, h.b2s, 4 * g, 4 * g + 4)
  {
    ghost var sibs0, b2s0 := h.sibs, h.b2s;
    var i := 0;
    while i < 4
      invariant i <= 4 && Freed(sibs0, b2s0, h.sibs, h.b2s, 4 * g, 4 * g + i)
      invariant forall j {:trigger h.sibs[j]} :: 0 <= j < |h.sibs| ==> FromFits(h.sibs[j], |h.b2s|)
    {
      ghost var sibs1, b2s1 := h.sibs, h.b2s;
      FreeSib(h, 4 * g + i);
      FreedSwapped(sibs0, b2s0, sibs1, b2s1, h.sibs, h.b2s, 4 * g, 4 * g + i, 4 * g + i + 1);
      i := i + 1;
    }
  }

  /** Oldest first, so that what is promoted is not met again; each agegroup's from-space goes first. */
  method ForwardPromoteOrReclaimLists(h: Heap, k: nat)
    requires HugeListsOk(h.huge, h.hugechunks, k, h.active) && k <= h.active && |h.sibs| == 4 * h.active
    requires forall i {:trigger h.sibs[i]} :: 0 <= i < |h.sibs| ==> FromFits(h.sibs[i], |h.b2s|)
    modifies h`huge, h`hugechunks, h`sibs, h`b2s
    ensures HugeListsOk(h.huge, h.hugechunks, 0, h.active) && Passed(old(h.huge), h.huge, k, h.active, 1, k)
    ensures Freed(old(h.sibs), old(h.b2s), h.sibs, h.b2s, 0, 4 * k)
  {
    ghost var huge0, sibs0, b2s0 := h.huge, h.sibs, h.b2s;
    var age := k;
    while age > 0
      invariant 0 <= age <= k && HugeListsOk(h.huge, h.hugechunks, k, h.active) &&
          Passed(huge0, h.huge, k, h.active, age + 1, k)
      invariant Freed(sibs0, b2s0, h.sibs, h.b2s, 4 * age, 4 * k)
      invariant forall i {:trigger h.sibs[i]} :: 0 <= i < |h.sibs| ==> FromFits(h.sibs[i], |h.b2s|)
    {
      hide HugeListsOk, Freed;
      ghost var huge1, sibs1, b2s1 := h.huge, h.sibs, h.b2s;
      FreedLength(sibs0, b2s0, h.sibs, h.b2s, 4 * age, 4 * k);
      FreeAgegroup(h, age - 1);
      FreedMore(sibs0, b2s0, sibs1, b2s1, h.sibs, h.b2s, 4 * (age - 1), 4 * age, 4 * k);
      FreedFits(sibs1, b2s1, h.sibs, h.b2s, 4 * (age - 1), 4 * age);
      ForwardPromoteOrReclaimList(h, k, age);
      PassOn(huge0, huge1, h.huge, k, h.active, age);
      age := age - 1;
    }
    NoneWaits(huge0, h.huge, h.hugechunks, k, h.active);
  }

  lemma FreedLength(sibs0: seq<Sib>, b2s0: seq<Sibid>, sibs: seq<Sib>, b2s: seq<Sibid>, lo: int, hi: int)
    requires Freed(sibs0, b2s0, sibs, b2s, lo, hi)
    ensures |sibs| == |sibs0| && |b2s| == |b2s0|
  {
  }

  lemma FreedFits(sibs0: seq<Sib>, b2s0: seq<Sibid>, sibs: seq<Sib>, b2s: seq<Sibid>, lo: int, hi: int)
    requires Freed(sibs0, b2s0, sibs, b2s, lo, hi)
    requires forall i {:trigger sibs0[i]} :: 0 <= i < |sibs0| ==> FromFits(sibs0[i], |b2s0|)
    ensures forall i {:trigger sibs[i]} :: 0 <= i < |sibs| ==> FromFits(sibs[i], |b2s|)
  {
  }

  lemma PassOn(huge0: seq<Huge>, huge1: seq<Huge>, huge: seq<Huge>, k: nat, active: nat, age: nat)
    requires Passed(huge0, huge1, k, active, age + 1, k) && Passed(huge1, huge, k, active, age, age)
    ensures Passed(huge0, huge, k, active, age, k)
  {
    forall d ensures PassedOne(huge0, huge, k, active, age, k, d) {
      assert PassedOne(huge0, huge1, k, active, age + 1, k, d) && PassedOne(huge1, huge, k, active, age, age, d);
    }
  }

  lemma NoneWaits(huge0: seq<Huge>, huge: seq<Huge>, lists: seq<seq<nat>>, k: nat, active: nat)
    requires Passed(huge0, huge, k, active, 1, k) && HugeListsOk(huge, lists, k, active)
    requires forall d {:trigger huge0[d]} :: 0 <= d < |huge0| ==> HugeStateOk(huge0[d], k, active)
    ensures HugeListsOk(huge, lists, 0, active)
  {
    forall d | 0 <= d < |huge| ensures HugeStateOk(huge[d], 0, active) {
      assert PassedOne(huge0, huge, k, active, 1, k, d) && HugeStateOk(huge[d], k, active) &&
          HugeStateOk(huge0[d], k, active);
    }
  }

  /** Marking keeps the lists in order; the chunks it leaves waiting are of cleaned ages. */
  lemma MarkingKeepsLists(f: Flip, lists: seq<seq<nat>>, active: nat, huge: seq<Huge>, c: Copy, marked: set<int>)
    requires HugeListsOk(f.huge, lists, 0, active) && InvHuge(f, huge, c, marked)
    ensures HugeListsOk(huge, lists, f.k, active)
  {
    forall d | 0 <= d < |huge| ensures HugeStateOk(huge[d], f.k, active) {
      assert HugeStateOk(f.huge[d], 0, active);
    }
    forall a, d ensures ListHolds(huge, lists, a, d) {
      assert ListHolds(f.huge, lists, a, d);
    }
  }

  /** A hugechunk of a cleaned age survives if and only if it was marked; those of older ages are kept as
      they were, and none grows younger. */
  lemma SurvivesIfMarked(f: Flip, lists: seq<seq<nat>>, active: nat, huge: seq<Huge>, c: Copy, marked: set<int>,
      huge': seq<Huge>, d: nat)
    requires HugeListsOk(f.huge, lists, 0, active) && InvHuge(f, huge, c, marked)
    requires Passed(huge, huge', f.k, active, 1, f.k) && d < |f.huge|
    ensures LiveHuge(huge'[d]) <==> LiveHuge(f.huge[d]) && (f.huge[d].age > f.k || d in marked)
    ensures f.huge[d].age > f.k ==> huge'[d] == f.huge[d]
    ensures LiveHuge(huge'[d]) ==> f.huge[d].age <= huge'[d].age <= f.huge[d].age + 1
  {
    assert HugeStateOk(f.huge[d], 0, active) && PassedOne(huge, huge', f.k, active, 1, f.k, d);
    assert huge[d] == MarkedState(f.huge[d], d in marked, f.k);
  }

  // ------------------------------------------------------------------ the labels of the quires

  /** The descriptors from page i on, each covering as many pages as it says. */
  ghost predicate Tiled(huge: seq<Huge>, pages: seq<nat>, i: nat)
    decreases |pages| - i
  {
    i == |pages| ||
    (i < |pages| && pages[i] < |huge| && huge[pages[i]].pages >= 1 && i + huge[pages[i]].pages <= |pages|
     && (forall j {:trigger pages[j]} :: i <= j < i + huge[pages[i]].pages ==> pages[j] == pages[i])
     && Tiled(huge, pages, i + huge[pages[i]].pages))
  }

  /** min is at most the age of every live chunk in the first i pages, and is one of those ages if it is
      below MAX_AGEGROUPS. */
  predicate AtMost(huge: seq<Huge>, pages: seq<nat>, min: nat, j: int) {
    0 <= j < |pages| && pages[j] < |huge| && LiveHuge(huge[pages[j]]) ==> min <= huge[pages[j]].age
  }

  ghost predicate LeastAge(huge: seq<Huge>, pages: seq<nat>, i: nat, min: nat) {
    && (forall j {:trigger AtMost(huge, pages, min, j)} :: j < i ==> AtMost(huge, pages, min, j))
    && (min < MAX_AGEGROUPS ==>
          exists j :: 0 <= j < i && j < |pages| && pages[j] < |huge| &&
            LiveHuge(huge[pages[j]]) && huge[pages[j]].age == min)
    && min <= MAX_AGEGROUPS
  }

  method YoungestLiveAge(huge: seq<Huge>, pages: seq<nat>) returns (min: nat)
    requires Tiled(huge, pages, 0)
    ensures LeastAge(huge, pages, |pages|, min)
  {
    min := MAX_AGEGROUPS;
    var i := 0;
    while i < |pages|
      invariant i <= |pages| && Tiled(huge, pages, i) && LeastAge(huge, pages, i, min)
      decreases |pages| - i
    {
      var p := huge[pages[i]];
      ghost var min0, i0 := min, i;
      if LiveHuge(p) && p.age < min {
        min := p.age;
      }
      i := i + p.pages;
      forall j | j < i ensures AtMost(huge, pages, min, j) {
        assert AtMost(huge, pages, min0, j) || i0 <= j;
      }
      assert i0 < i && pages[i0] < |huge|;
    }
  }

  /** Book i carries the label of the quire whose record is in book r. */
  predicate BookOk(b2s: seq<Sibid>, q: Quire, r: nat, i: int) {
    r <= i < r + q.books && i < |b2s| ==> b2s[i] == Sibid(q.youngest, CODE_KIND,
        if i == r then HUGECHUNK_RECORD else HUGECHUNK_DATA)
  }

  /** The books of the quire are labelled with its age, which no live chunk in it is younger than. */
  ghost predicate QuireOk(b2s: seq<Sibid>, q: Quire, huge: seq<Huge>, r: nat) {
    && 1 <= q.books && r + q.books <= |b2s| && Tiled(huge, q.pages, 0)
    && r * BOOK <= q.firstPage && q.firstPage + |q.pages| * PAGE <= (r + q.books) * BOOK
    && (forall i {:trigger BookOk(b2s, q, r, i)} :: BookOk(b2s, q, r, i))
    && (forall j {:trigger AtMost(huge, q.pages, q.youngest, j)} :: AtMost(huge, q.pages, q.youngest, j))
  }

  /** Quires do not share books. */
  predicate Disjoint(quires: map<nat, Quire>, r: nat, s: nat) {
    r in quires && s in quires && r < s ==> r + quires[r].books <= s
  }

  ghost predicate QuiresOk(b2s: seq<Sibid>, quires: map<nat, Quire>, huge: seq<Huge>, list: seq<nat>) {
    && (forall r {:trigger QuireOk(b2s, quires[r], huge, r)} :: r in quires ==> QuireOk(b2s, quires[r], huge, r))
    && (forall r, s {:trigger Disjoint(quires, r, s)} :: Disjoint(quires, r, s))
    && (forall j {:trigger list[j]} :: 0 <= j < |list| ==> list[j] in quires)
    && (forall r {:trigger r in quires} :: r in quires ==> r in list)
  }

  /** The pass frees or ages chunks, so labels that were right stay right. */
  lemma PassKeepsQuires(b2s: seq<Sibid>, quires: map<nat, Quire>, huge0: seq<Huge>, huge: seq<Huge>, list: seq<nat>,
      k: nat, active: nat)
    requires QuiresOk(b2s, quires, huge0, list) && Passed(huge0, huge, k, active, 1, k)
    ensures QuiresOk(b2s, quires, huge, list)
  {
    forall r | r in quires ensures QuireOk(b2s, quires[r], huge, r) {
      assert QuireOk(b2s, quires[r], huge0, r);
      SameTiles(huge0, huge, quires[r].pages, 0, k, active);
      forall j ensures AtMost(huge, quires[r].pages, quires[r].youngest, j) {
        assert AtMost(huge0, quires[r].pages, quires[r].youngest, j);
        if 0 <= j < |quires[r].pages| { assert PassedOne(huge0, huge, k, active, 1, k, quires[r].pages[j]); }
      }
    }
  }

  lemma {:induction false} SameTiles(huge0: seq<Huge>, huge: seq<Huge>, pages: seq<nat>, i: nat, k: nat, active: nat)
    requires Tiled(huge0, pages, i) && Passed(huge0, huge, k, active, 1, k)
    ensures Tiled(huge, pages, i)
    decreases |pages| - i
  {
    if i < |pages| {
      assert PassedOne(huge0, huge, k, active, 1, k, pages[i]);
      SameTiles(huge0, huge, pages, i + huge0[pages[i]].pages, k, active);
    }
  }

  /** A quire that may have lost its youngest chunks now carries the least age of those that live. */
  ghost predicate Relabelled(huge: seq<Huge>, k: nat, q0: Quire, q: Quire) {
    && q == q0.(youngest := q.youngest)
    && if q0.youngest > k then q == q0 else LeastAge(huge, q.pages, |q.pages|, q.youngest)
  }

  predicate SameIds(b2s: seq<Sibid>, b2s': seq<Sibid>) {
    |b2s'| == |b2s| && forall i {:trigger b2s'[i]} :: 0 <= i < |b2s| ==>
        && b2s'[i].id == b2s[i].id
        && b2s'[i].kind == b2s[i].kind
  }

  predicate NoneAgeless(huge: seq<Huge>) {
    forall d {:trigger huge[d]} :: 0 <= d < |huge| && LiveHuge(huge[d]) ==> huge[d].age >= 1
  }

  method RelabelQuire(h: Heap, k: nat, r: nat)
    requires QuiresOk(h.b2s, h.quires, h.huge, h.quire_list) && r in h.quires && NoneAgeless(h.huge)
    modifies h`b2s, h`quires
    ensures QuiresOk(h.b2s, h.quires, h.huge, h.quire_list) && h.quires.Keys == old(h.quires).Keys
    ensures Relabelled(h.huge, k, old(h.quires)[r], h.quires[r]) && SameIds(old(h.b2s), h.b2s)
    ensures forall s {:trigger h.quires[s]} :: s in h.quires && s != r ==> h.quires[s] == old(h.quires)[s]
    ensures if h.quires[r].youngest == old(h.quires)[r].youngest then h.b2s == old(h.b2s) else h.quires[r].youngest >= 1
    ensures forall i {:trigger h.b2s[i]} :: 0 <= i < |h.b2s| && !(r <= i < r + h.quires[r].books) ==>
        h.b2s[i] == old(h.b2s)[i]
  {
    ghost var b2s0, quires0 := h.b2s, h.quires;
    assert QuireOk(h.b2s, h.quires[r], h.huge, r);
    var hq := h.quires[r];
    if hq.youngest <= k {
      var min := YoungestLiveAge(h.huge, hq.pages);
      if hq.youngest != min {
        h.quires := h.quires[r := hq.(youngest := min)];
        SetBook2sibidEntriesForRange(h, r, r + hq.books, Sibid(min, CODE_KIND, HUGECHUNK_DATA));
        h.b2s := h.b2s[r := Sibid(min, CODE_KIND, HUGECHUNK_RECORD)];
        QuiresRelabelled(b2s0, quires0, h.huge, h.quire_list, r, min, h.b2s, h.quires);
      }
    }
  }

  lemma QuiresRelabelled(b2s0: seq<Sibid>, quires0: map<nat, Quire>, huge: seq<Huge>, list: seq<nat>, r: nat, min: nat,
                         b2s: seq<Sibid>, quires: map<nat, Quire>)
    requires QuiresOk(b2s0, quires0, huge, list) && r in quires0 &&
        LeastAge(huge, quires0[r].pages, |quires0[r].pages|, min)
    requires quires == quires0[r := quires0[r].(youngest := min)] && |b2s| == |b2s0|
    requires forall i {:trigger b2s[i]} :: 0 <= i < |b2s| ==>
      (b2s[i] ==
       if i == r then Sibid(min, CODE_KIND, HUGECHUNK_RECORD)
       else if r <= i < r + quires0[r].books then Sibid(min, CODE_KIND, HUGECHUNK_DATA) else b2s0[i])
    ensures QuiresOk(b2s, quires, huge, list) && SameIds(b2s0, b2s)
  {
    assert QuireOk(b2s0, quires0[r], huge, r);
    forall i | 0 <= i < |b2s| ensures b2s[i].id == b2s0[i].id &&
        b2s[i].kind == b2s0[i].kind { assert BookOk(b2s0, quires0[r], r, i); }
    forall s, t ensures Disjoint(quires, s, t) { assert Disjoint(quires0, s, t); }
    forall s | s in quires ensures QuireOk(b2s, quires[s], huge, s) {
      assert QuireOk(b2s0, quires0[s], huge, s) && Disjoint(quires0, s, r) && Disjoint(quires0, r, s);
      forall i ensures BookOk(b2s, quires[s], s, i) { assert BookOk(b2s0, quires0[s], s, i); }
      if s == r {
        forall j ensures AtMost(huge, quires[s].pages, min, j) {
          assert j < |quires[s].pages| ==> AtMost(huge, quires[s].pages, min, j);
        }
      }
    }
  }

  /** From-spaces and quires share no book. */
  predicate ApartFrom(sibs: seq<Sib>, quires: map<nat, Quire>, i: int, r: nat, b: int) {
    r in quires && r <= b < r + quires[r].books ==> !FromBookOf(sibs, i, b)
  }

  lemma FreeingKeepsQuires(sibs0: seq<Sib>, b2s0: seq<Sibid>, sibs: seq<Sib>, b2s: seq<Sibid>, hi: int, quires: map<nat,
      Quire>, huge: seq<Huge>, list: seq<nat>)
    requires QuiresOk(b2s0, quires, huge, list) && Freed(sibs0, b2s0, sibs, b2s, 0, hi)
    requires forall i, r, b {:trigger ApartFrom(sibs0, quires, i, r, b)} ::
        0 <= i < hi ==> ApartFrom(sibs0, quires, i, r, b)
    ensures QuiresOk(b2s, quires, huge, list)
  {
    forall r | r in quires ensures QuireOk(b2s, quires[r], huge, r) {
      assert QuireOk(b2s0, quires[r], huge, r);
      forall b ensures BookOk(b2s, quires[r], r, b) {
        assert BookOk(b2s0, quires[r], r, b) && FreedBook(sibs0, b2s0, b2s, 0, hi, b);
        if r <= b < r + quires[r].books {
          forall i | 0 <= i < hi ensures !FromBookOf(sibs0, i, b) { assert ApartFrom(sibs0, quires, i, r, b); }
        }
      }
    }
  }

  /** Bring the labels of all quires up to date. */
  method RelabelQuires(h: Heap, k: nat)
    requires QuiresOk(h.b2s, h.quires, h.huge, h.quire_list) && NoRepeats(h.quire_list) && NoneAgeless(h.huge)
    modifies h`b2s, h`quires
    ensures QuiresOk(h.b2s, h.quires, h.huge, h.quire_list) && SameIds(old(h.b2s), h.b2s) &&
        h.quires.Keys == old(h.quires).Keys
    ensures forall r {:trigger h.quires[r]} :: r in h.quires ==> Relabelled(h.huge, k, old(h.quires)[r], h.quires[r])
    ensures forall i {:trigger h.b2s[i]} :: 0 <= i < |h.b2s| && h.b2s[i] != old(h.b2s)[i] ==>
        && h.b2s[i].kind == CODE_KIND
        && h.b2s[i].age >= 1
  {
    ghost var b2s0, quires0 := h.b2s, h.quires;
    var j := 0;
    while j < |h.quire_list|
      invariant j <= |h.quire_list| && QuiresOk(h.b2s, h.quires, h.huge, h.quire_list)
      invariant SameIds(b2s0, h.b2s) && h.quires.Keys == quires0.Keys
      invariant forall i {:trigger h.quire_list[i]} :: 0 <= i < |h.quire_list| ==>
        h.quire_list[i] in quires0 && if i < j then Relabelled(h.huge, k, quires0[h.quire_list[i]],
            h.quires[h.quire_list[i]])
        else h.quires[h.quire_list[i]] == quires0[h.quire_list[i]]
      invariant forall i {:trigger h.b2s[i]} :: 0 <= i < |h.b2s| && h.b2s[i] != b2s0[i] ==>
          && h.b2s[i].kind == CODE_KIND
          && h.b2s[i].age >= 1
    {
      ghost var b2s1 := h.b2s;
      var r := h.quire_list[j];
      RelabelQuire(h, k, r);
      assert QuireOk(h.b2s, h.quires[r], h.huge, r);
      forall i | 0 <= i < |h.b2s| && h.b2s[i] != b2s0[i] ensures h.b2s[i].kind == CODE_KIND && h.b2s[i].age >= 1 {
        assert BookOk(h.b2s, h.quires[r], r, i) && h.b2s[i].kind == b2s1[i].kind;
      }
      j := j + 1;
    }
    forall r | r in h.quires ensures Relabelled(h.huge, k, quires0[r], h.quires[r]) {
      var i :| 0 <= i < |h.quire_list| && h.quire_list[i] == r;
    }
  }

  /** The whole pass: from-spaces and lists first, then labels.  `unmapped` is the label table in between. */
  method ForwardPromoteOrReclaimAllHugechunks(h: Heap, k: nat) returns (ghost unmapped: seq<Sibid>)
    requires HugeListsOk(h.huge, h.hugechunks, k, h.active) && k <= h.active && |h.sibs| == 4 * h.active
    requires forall i {:trigger h.sibs[i]} :: 0 <= i < |h.sibs| ==> FromFits(h.sibs[i], |h.b2s|)
    requires QuiresOk(h.b2s, h.quires, h.huge, h.quire_list) && NoRepeats(h.quire_list)
    requires forall i, r, b {:trigger ApartFrom(h.sibs, h.quires, i, r, b)} ::
        0 <= i < 4 * k ==> ApartFrom(h.sibs, h.quires, i, r, b)
    modifies h`huge, h`hugechunks, h`b2s, h`sibs, h`quires
    ensures HugeListsOk(h.huge, h.hugechunks, 0, h.active) && Passed(old(h.huge), h.huge, k, h.active, 1, k)
    ensures Freed(old(h.sibs), old(h.b2s), h.sibs, unmapped, 0, 4 * k)
    ensures QuiresOk(h.b2s, h.quires, h.huge, h.quire_list) && SameIds(unmapped, h.b2s) &&
        h.quires.Keys == old(h.quires).Keys
    ensures forall r {:trigger h.quires[r]} :: r in h.quires ==> Relabelled(h.huge, k, old(h.quires)[r], h.quires[r])
    ensures forall i {:trigger h.b2s[i]} :: 0 <= i < |h.b2s| && h.b2s[i] != unmapped[i] ==>
        && h.b2s[i].kind == CODE_KIND
        && h.b2s[i].age >= 1
  {
    ghost var huge0, sibs0, b2s0 := h.huge, h.sibs, h.b2s;
    ForwardPromoteOrReclaimLists(h, k);
    unmapped := h.b2s;
    FreeingKeepsQuires(sibs0, b2s0, h.sibs, h.b2s, 4 * k, h.quires, huge0, h.quire_list);
    PassKeepsQuires(h.b2s, h.quires, huge0, h.huge, h.quire_list, k, h.active);
    LivesHaveAges(h.huge, h.hugechunks, h.active);
    RelabelQuires(h, k);
  }

  lemma LiveAge(huge: seq<Huge>, lists: seq<seq<nat>>, active: nat, d: int)
    requires HugeListsOk(huge, lists, 0, active) && 0 <= d < |huge| && LiveHuge(huge[d])
    ensures 1 <= huge[d].age <= active
  {
    assert HugeStateOk(huge[d], 0, active);
  }

  lemma LivesHaveAges(huge: seq<Huge>, lists: seq<seq<nat>>, active: nat)
    requires HugeListsOk(huge, lists, 0, active)
    ensures NoneAgeless(huge)
  {
    forall d | 0 <= d < |huge| && LiveHuge(huge[d]) ensures huge[d].age >= 1 { assert HugeStateOk(huge[d], 0, active); }
  }

  /** The label of a code address is at most the age of the chunk there, if that is live. */
  lemma QuireLabel(b2s: seq<Sibid>, quires: map<nat, Quire>, huge: seq<Huge>, list: seq<nat>, v: nat)
    requires QuiresOk(b2s, quires, huge, list)
    ensures var d := HugeAt(b2s, quires, v); 0 <= d < |huge| && LiveHuge(huge[d]) ==>
        && SibidFor(b2s, v).age <= huge[d].age
        && SibidFor(b2s, v).kind == CODE_KIND
  {
    var d, r := HugeAt(b2s, quires, v), RecordBook(b2s, v / BOOK);
    if 0 <= d < |huge| && r >= 0 && r in quires && quires[r].firstPage <= v &&
        (v - quires[r].firstPage) / PAGE < |quires[r].pages| {
      var q := quires[r];
      assert QuireOk(b2s, q, huge, r);
      PageInBooks(q, r, v);
      assert BookOk(b2s, q, r, v / BOOK) && AtMost(huge, q.pages, q.youngest, (v - q.firstPage) / PAGE);
    }
  }

  lemma PageInBooks(q: Quire, r: nat, v: nat)
    requires r * BOOK <= q.firstPage && q.firstPage + |q.pages| * PAGE <= (r + q.books) * BOOK
    requires q.firstPage <= v && (v - q.firstPage) / PAGE < |q.pages|
    ensures r <= v / BOOK < r + q.books
  {
    var j := (v - q.firstPage) / PAGE;
    assert v - q.firstPage < (j + 1) * PAGE <= |q.pages| * PAGE;
  }
}
