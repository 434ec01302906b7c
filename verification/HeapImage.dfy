/** Heap images: src/c/heapcleaner/export-heap.c and import-heap.c.

    Exporting replaces external pointers by tags that index the table of names, writes the sibs and undoes the
    replacement.  Importing finds for every pointer the sib or hugechunk it pointed into, by a table of the old
    address space that it rebuilds from the headers, and moves it along.  That table starts as memory nobody cleared,
    so nothing is known of books that no header marks. */
module HeapImage {
  import opened HeapTags
  import opened HeapModel
  import opened CfunTable
  import opened Pickle

  // ------------------------------------------------------------------ exporting: one word

  ghost predicate Published(s: set<Cfun>, addr: nat) { exists e :: e in s && e.addr == addr }

  ghost predicate PatchedAs(b2s: seq<Sibid>, published: set<Cfun>, entries: seq<Cfun>, w: Word, p: Word) {
    if !IsExtern(b2s, w) then p == w
    else if Published(published, w.addr) then p.Tagword? && p.btag == EXTERNAL_REFERENCE &&
        Indexed(entries, w.addr, p.len)
    else p == HEAP_VOID
  }

  predicate Restorable(entries: seq<Cfun>, p: Word) { IsExternalTag(p) ==> p.len < |entries| }

  function Restored(entries: seq<Cfun>, p: Word): Word
    requires Restorable(entries, p)
  {
    if IsExternalTag(p) then Pointer(entries[p.len].addr) else p
  }

  /** Undoing the replacement gives the word back just when it was not a pointer to something unpublished. */
  lemma PatchIsUndone(b2s: seq<Sibid>, published: set<Cfun>, entries: seq<Cfun>, w: Word, p: Word)
    requires PatchedAs(b2s, published, entries, w, p) && !IsExternalTag(w)
    ensures Restorable(entries, p)
    ensures Restored(entries, p) == w <==> IsExtern(b2s, w) ==> Published(published, w.addr)
  {
  }

  /** A word that is lost: a pointer outside the heap, where nothing is published. */
  lemma UnpublishedIsLost(w: Word, p: Word)
    requires w == Pointer(8) && PatchedAs([UNMAPPED_BOOK_SIBID], {}, [], w, p)
    ensures p == HEAP_VOID && Restorable([], p) && Restored([], p) != w
  {
  }

  // ------------------------------------------------------------------ exporting: the heap

  method PatchSib(ram: array<Word>, b2s: seq<Sibid>, table: HeapfileCfunTable, at: nat, limit: nat)
      returns (needs_repair: bool)
    requires table.Valid() && |table.symbols.by_addr| > 0 && at <= limit <= ram.Length
    modifies ram, table
    ensures table.Valid() && old(table.entries) <= table.entries
    ensures forall x {:trigger ram[x]} :: 0 <= x < ram.Length ==>
      if at <= x < limit then PatchedAs(b2s, table.symbols.published, table.entries, old(ram[x]), ram[x])
          else ram[x] == old(ram[x])
    ensures !needs_repair ==> ram[..] == old(ram[..])
  {
    needs_repair := false;
    var p := at;
    while p < limit
      invariant at <= p <= limit && table.Valid() && old(table.entries) <= table.entries
      invariant forall x {:trigger ram[x]} :: 0 <= x < ram.Length ==>
        if at <= x < p then PatchedAs(b2s, table.symbols.published, table.entries, old(ram[x]), ram[x])
            else ram[x] == old(ram[x])
      invariant !needs_repair ==> ram[..] == old(ram[..])
    {
      var w := ram[p];
      if w.Pointer? && SibidFor(b2s, w.addr) == UNMAPPED_BOOK_SIBID {
        ghost var before := table.entries;
        w := table.AddCfun(w.addr);
        forall x | 0 <= x < ram.Length && at <= x < p ensures PatchedAs(b2s, table.symbols.published, table.entries,
            old(ram[x]), ram[x]) {
          IndexesLast(b2s, table.symbols.published, before, table.entries, old(ram[x]), ram[x]);
        }
        ram[p] := w;
        needs_repair := true;
      }
      p := p + 1;
    }
  }

  lemma IndexesLast(b2s: seq<Sibid>, published: set<Cfun>, entries: seq<Cfun>, more: seq<Cfun>, w: Word, p: Word)
    requires PatchedAs(b2s, published, entries, w, p) && entries <= more
    ensures PatchedAs(b2s, published, more, w, p)
  {
  }

  method RestoreSib(ram: array<Word>, table: HeapfileCfunTable, at: nat, limit: nat)
    requires table.Valid() && at <= limit <= ram.Length
    requires forall x {:trigger ram[x]} :: at <= x < limit ==> Restorable(table.entries, ram[x])
    modifies ram
    ensures forall x {:trigger ram[x]} :: 0 <= x < ram.Length ==>
      ram[x] == if at <= x < limit then Restored(table.entries, old(ram[x])) else old(ram[x])
  {
    var p := at;
    while p < limit
      invariant at <= p <= limit && table.Valid() && table.entries == old(table.entries)
      invariant forall x {:trigger ram[x]} :: 0 <= x < ram.Length ==>
        ram[x] == if at <= x < p then Restored(table.entries, old(ram[x])) else old(ram[x])
    {
      var w := ram[p];
      if IsExternalTag(w) {
        var a := table.GetCfunAddress(w);
        ram[p] := Pointer(a.value);
      }
      p := p + 1;
    }
  }

  ghost predicate In(s: Source, done: set<nat>,
      x: nat) { exists i: nat {:trigger InSib(s, i, x)} :: i in done && InSib(s, i, x) }

  /** The sibs of `done` are patched, and nothing else differs from the heap. */
  ghost predicate Patched(s: Source, published: set<Cfun>, entries: seq<Cfun>, m: seq<Word>, done: set<nat>) {
    |m| == |s.m| && forall x: nat {:trigger m[x]} :: x < |m| ==>
      if In(s, done, x) then PatchedAs(s.b2s, published, entries, s.m[x], m[x]) else m[x] == s.m[x]
  }

  lemma PatchedMore(s: Source, published: set<Cfun>, entries: seq<Cfun>, m: seq<Word>, done: set<nat>, i: nat,
      more: seq<Cfun>, m': seq<Word>)
    requires SourceOk(s) && i < 4 * s.k && i !in done && Patched(s, published, entries, m, done) && entries <= more &&
        |m'| == |m|
    requires forall x: nat {:trigger m'[x]} :: x < |m| ==>
      if InSib(s, i, x) then PatchedAs(s.b2s, published, more, m[x], m'[x]) else m'[x] == m[x]
    ensures Patched(s, published, more, m', done + {i})
  {
    forall x: nat | x < |m'| ensures
      if In(s, done + {i}, x) then PatchedAs(s.b2s, published, more, s.m[x], m'[x]) else m'[x] == s.m[x]
    {
      if In(s, done, x) {
        var j: nat :| j in done && InSib(s, j, x);
        OneSib(s, i, j, x);
        IndexesLast(s.b2s, published, entries, more, s.m[x], m[x]);
        assert InSib(s, j, x);
      } else if InSib(s, i, x) {
        assert m[x] == s.m[x];
      }
    }
  }

  lemma OneSib(s: Source, i: nat, j: nat, x: nat)
    requires SourceOk(s) && InSib(s, j, x) && i != j
    ensures !InSib(s, i, x)
  {
    assert LabelOk(s, i, x) && LabelOk(s, j, x);
    Labels(i);
    Labels(j);
  }

  /** No word of sib i was replaced. */
  ghost predicate Quiet(s: Source, m: seq<Word>, i: nat) {
    |m| == |s.m| && forall x: nat {:trigger InSib(s, i, x)} :: InSib(s, i, x) && x < |m| ==> m[x] == s.m[x]
  }

  lemma QuietOthers(s: Source, m: seq<Word>, m': seq<Word>, i: nat)
    requires SourceOk(s) && |m'| == |m| == |s.m| && forall x: nat {:trigger m'[x]} :: x < |m| && !InSib(s, i, x) ==>
        m'[x] == m[x]
    ensures forall j: nat {:trigger Quiet(s, m', j)} :: j != i && Quiet(s, m, j) ==> Quiet(s, m', j)
  {
    forall j: nat | j != i && Quiet(s, m, j) ensures Quiet(s, m', j) {
      forall x: nat | InSib(s, j, x) && x < |m'| ensures m'[x] == s.m[x] { OneSib(s, i, j, x); }
    }
  }

  /** The sibs that may hold pointers. */
  ghost function PointerSibs(k: nat): set<nat> { set i: nat | i < 4 * k && SibSlot(i) != NONPTR_DATA_SIB }

  lemma PointerSibsOfMore(k: nat)
    ensures PointerSibs(k + 1) == PointerSibs(k) + {4 * k + RO_POINTERS_SIB, 4 * k + RO_CONSCELL_SIB,
        4 * k + RW_POINTERS_SIB}
  {
  }

  method PatchOneSib(ram: array<Word>, ghost s: Source, b2s: seq<Sibid>, sibs: seq<Sib>, i: nat,
      table: HeapfileCfunTable, ghost done: set<nat>)
    returns (needs_repair: bool)
    requires SourceOk(s) && s.b2s == b2s && s.sibs == sibs && i < 4 * s.k && i !in done && table.Valid() &&
        |table.symbols.by_addr| > 0
    requires Patched(s, table.symbols.published, table.entries, ram[..], done) && Quiet(s, ram[..], i)
    modifies ram, table
    ensures table.Valid() && old(table.entries) <= table.entries
    ensures Patched(s, table.symbols.published, table.entries, ram[..], done + {i}) &&
        (!needs_repair ==> Quiet(s, ram[..], i))
    ensures forall j: nat {:trigger Quiet(s, ram[..], j)} :: j != i && Quiet(s, old(ram[..]), j) ==> Quiet(s, ram[..],
        j)
  {
    ghost var entries, m := table.entries, ram[..];
    assert SibOk(s, i);
    needs_repair := false;
    if Active(sibs[i]) {
      needs_repair := PatchSib(ram, b2s, table, sibs[i].start, sibs[i].firstFree);
    }
    PatchedMore(s, table.symbols.published, entries, m, done, i, table.entries, ram[..]);
    QuietOthers(s, m, ram[..], i);
  }

  predicate Noted(needs: seq<bool>, i: nat) { i < |needs| && needs[i] }

  method BuildExportTable(ram: array<Word>, b2s: seq<Sibid>, sibs: seq<Sib>, active: nat, table: HeapfileCfunTable)
      returns (needs: seq<bool>)
    requires SourceOk(Source(ram[..], b2s, sibs, active)) && table.Valid() && |table.symbols.by_addr| > 0
    modifies ram, table
    ensures table.Valid() && old(table.entries) <= table.entries && |needs| == 4 * active
    ensures Patched(Source(old(ram[..]), b2s, sibs, active), table.symbols.published, table.entries, ram[..],
        PointerSibs(active))
    ensures forall i: nat {:trigger Noted(needs, i)} :: i < 4 * active && !Noted(needs, i) ==>
        Quiet(Source(old(ram[..]), b2s, sibs, active), ram[..], i)
  {
    ghost var s, entries0 := Source(ram[..], b2s, sibs, active), table.entries;
    ghost var done: set<nat> := {};
    needs := [];
    var age := 0;
    while age < active
      invariant age <= active && done == PointerSibs(age) && |needs| == 4 * age
      invariant table.Valid() && entries0 <= table.entries && ram.Length == |s.m|
      invariant Patched(s, table.symbols.published, table.entries, ram[..], done)
      invariant forall i: nat {:trigger Noted(needs, i)} :: !Noted(needs, i) ==> Quiet(s, ram[..], i)
    {
      hide Patched, Quiet, SourceOk;
      ghost var needs0 := needs;
      var i := 4 * age;
      assert !Noted(needs, i) && !Noted(needs, i + 1) && !Noted(needs, i + 3);
      var n1 := PatchOneSib(ram, s, b2s, sibs, i + RO_CONSCELL_SIB, table, done);
      done := done + {i + RO_CONSCELL_SIB};
      var n0 := PatchOneSib(ram, s, b2s, sibs, i + RO_POINTERS_SIB, table, done);
      done := done + {i + RO_POINTERS_SIB};
      var n3 := PatchOneSib(ram, s, b2s, sibs, i + RW_POINTERS_SIB, table, done);
      done := done + {i + RW_POINTERS_SIB};
      PointerSibsOfMore(age);
      needs := needs + [n0, n1, false, n3];
      forall j: nat | !Noted(needs, j) ensures Quiet(s, ram[..], j) {
        if j < i || j == i + 2 || j >= i + 4 { assert !Noted(needs0, j); }
      }
      age := age + 1;
    }
  }

  /** The sibs of `done` have their words back. */
  ghost predicate Unpatched(s: Source, entries: seq<Cfun>, m: seq<Word>, m': seq<Word>, done: set<nat>) {
    |m'| == |m| && forall x: nat {:trigger m'[x]} :: x < |m| ==>
      if In(s, done, x) then Restorable(entries, m[x]) && m'[x] == Restored(entries, m[x]) else m'[x] == m[x]
  }

  lemma UnpatchedMore(s: Source, entries: seq<Cfun>, m: seq<Word>, m1: seq<Word>, done: set<nat>, i: nat, m2: seq<Word>)
    requires SourceOk(s) && i < 4 * s.k && i !in done && Unpatched(s, entries, m, m1, done) && |m2| == |m1|
    requires forall x: nat {:trigger m2[x]} :: x < |m1| ==>
      if InSib(s, i, x) then Restorable(entries, m1[x]) && m2[x] == Restored(entries, m1[x]) else m2[x] == m1[x]
    ensures Unpatched(s, entries, m, m2, done + {i})
  {
    forall x: nat | x < |m2| ensures
      if In(s, done + {i}, x) then Restorable(entries, m[x]) && m2[x] == Restored(entries, m[x]) else m2[x] == m[x]
    {
      InMore(s, done, i, x);
      if In(s, done, x) {
        var j: nat :| j in done && InSib(s, j, x);
        OneSib(s, i, j, x);
        assert m2[x] == m1[x] && Restorable(entries, m[x]);
      } else {
        assert m1[x] == m[x];
        assert InSib(s, i, x) ==> Restorable(entries, m1[x]) && m2[x] == Restored(entries, m1[x]);
      }
    }
  }

  lemma InMore(s: Source, done: set<nat>, i: nat, x: nat)
    ensures In(s, done + {i}, x) <==> In(s, done, x) || InSib(s, i, x)
  {
    if In(s, done, x) {
      var j: nat :| j in done && InSib(s, j, x);
      assert j in done + {i};
    }
  }

  ghost predicate NoTags(s: Source) {
    forall i: nat, x: nat {:trigger InSib(s, i, x)} :: InSib(s, i, x) && SibSlot(i) != NONPTR_DATA_SIB && x < |s.m| ==>
        !IsExternalTag(s.m[x])
  }

  /** Go back over the sibs in which words were replaced. */
  method RepairHeap(ram: array<Word>, ghost s: Source, sibs: seq<Sib>, active: nat, table: HeapfileCfunTable,
      needs: seq<bool>)
    requires SourceOk(s) && NoTags(s) && s.sibs == sibs && s.k == active && table.Valid() && |needs| == 4 * active
    requires Patched(s, table.symbols.published, table.entries, ram[..], PointerSibs(active))
    requires forall i: nat {:trigger Noted(needs, i)} :: i < 4 * active && !Noted(needs, i) ==> Quiet(s, ram[..], i)
    modifies ram
    ensures Unpatched(s, table.entries, old(ram[..]), ram[..], PointerSibs(active))
  {
    ghost var m := ram[..];
    ghost var done: set<nat> := {};
    var age := 0;
    while age < active
      invariant age <= active && done == PointerSibs(age) && ram.Length == |m| && table.Valid() &&
          table.entries == old(table.entries)
      invariant Unpatched(s, table.entries, m, ram[..], done)
    {
      hide Unpatched, Patched, Quiet, SourceOk, NoTags;
      var i := 4 * age;
      assert (Noted(needs, i) <==> needs[i]) && (Noted(needs, i + 1) <==> needs[i + 1]) &&
          (Noted(needs, i + 3) <==> needs[i + 3]);
      RepairSib(ram, s, sibs, i + RO_POINTERS_SIB, table, needs[i + RO_POINTERS_SIB], m, done);
      done := done + {i + RO_POINTERS_SIB};
      RepairSib(ram, s, sibs, i + RO_CONSCELL_SIB, table, needs[i + RO_CONSCELL_SIB], m, done);
      done := done + {i + RO_CONSCELL_SIB};
      RepairSib(ram, s, sibs, i + RW_POINTERS_SIB, table, needs[i + RW_POINTERS_SIB], m, done);
      done := done + {i + RW_POINTERS_SIB};
      PointerSibsOfMore(age);
      age := age + 1;
    }
  }

  method RepairSib(ram: array<Word>, ghost s: Source, sibs: seq<Sib>, i: nat, table: HeapfileCfunTable,
      needs_repair: bool, ghost m: seq<Word>, ghost done: set<nat>)
    requires SourceOk(s) && NoTags(s) && s.sibs == sibs && i < 4 * s.k && i !in done && SibSlot(i) != NONPTR_DATA_SIB &&
        table.Valid()
    requires Patched(s, table.symbols.published, table.entries, m, PointerSibs(s.k)) &&
        (!needs_repair ==> Quiet(s, m, i))
    requires ram.Length == |m| && Unpatched(s, table.entries, m, ram[..], done)
    modifies ram
    ensures Unpatched(s, table.entries, m, ram[..], done + {i})
  {
    ghost var m1 := ram[..];
    assert SibOk(s, i);
    forall x: nat | InSib(s, i, x) && x < |m|
      ensures m1[x] == m[x] && Restorable(table.entries, m[x]) &&
          (!needs_repair ==> Restored(table.entries, m[x]) == m[x])
    {
      InPointerSibs(s, s.k, i, x);
      NotIn(s, done, i, x);
      assert m1[x] == m[x];
      PatchIsUndone(s.b2s, table.symbols.published, table.entries, s.m[x], m[x]);
    }
    if Active(sibs[i]) && needs_repair {
      RestoreSib(ram, table, sibs[i].start, sibs[i].firstFree);
    }
    UnpatchedMore(s, table.entries, m, m1, done, i, ram[..]);
  }

  lemma InPointerSibs(s: Source, k: nat, i: nat, x: nat)
    requires i < 4 * k && SibSlot(i) != NONPTR_DATA_SIB && InSib(s, i, x)
    ensures In(s, PointerSibs(k), x)
  {
    assert i in PointerSibs(k);
  }

  lemma NotIn(s: Source, done: set<nat>, i: nat, x: nat)
    requires SourceOk(s) && i !in done && InSib(s, i, x)
    ensures !In(s, done, x)
  {
    forall j: nat | j in done ensures !InSib(s, j, x) { OneSib(s, j, i, x); }
  }

  /** What the heap is after an export: as it was but for pointers to something unpublished, which are lost. */
  ghost predicate Survives(s: Source, published: set<Cfun>, m: seq<Word>, x: nat) {
    x < |m| == |s.m| ==>
      m[x] == if In(s, PointerSibs(s.k), x) && IsExtern(s.b2s, s.m[x]) &&
          !Published(published, s.m[x].addr) then HEAP_VOID else s.m[x]
  }

  /** The image is the patched heap; the heap in memory gets its words back. */
  method ExportHeapImage(ram: array<Word>, b2s: seq<Sibid>, sibs: seq<Sib>, active: nat, table: HeapfileCfunTable)
    returns (image: seq<Word>, count: nat, names: string)
    requires SourceOk(Source(ram[..], b2s, sibs, active)) && NoTags(Source(ram[..], b2s, sibs, active))
    requires table.Valid() && |table.symbols.by_addr| > 0 && table.entries == []
    modifies ram, table
    ensures Patched(Source(old(ram[..]), b2s, sibs, active), table.symbols.published, table.entries, image,
        PointerSibs(active))
    ensures table.Valid() && count == |table.entries| && Strings(Names(table.entries)) <= names
    ensures forall x: nat
      {:trigger Survives(Source(old(ram[..]), b2s, sibs, active), table.symbols.published, ram[..], x)} ::
      Survives(Source(old(ram[..]), b2s, sibs, active), table.symbols.published, ram[..], x)
  {
    ghost var s := Source(ram[..], b2s, sibs, active);
    var needs := BuildExportTable(ram, b2s, sibs, active, table);
    count, names := WriteCfunTable(table);
    image := ram[..];
    RepairHeap(ram, s, sibs, active, table, needs);
    forall x: nat ensures Survives(s, table.symbols.published, ram[..], x) {
      if x < |s.m| && In(s, PointerSibs(active), x) {
        var i: nat :| i in PointerSibs(active) && InSib(s, i, x);
        assert !IsExternalTag(s.m[x]);
        PatchIsUndone(b2s, table.symbols.published, table.entries, s.m[x], image[x]);
      }
    }
  }
}
