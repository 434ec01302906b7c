/** Pickling a heap datastructure and reading it back: pickle_heap_datastructure in
    src/c/heapcleaner/datastructure-pickler.c and read_image in datastructure-unpickler.c.

    The sibs of agegroups 1 to k are merged kind by kind; a pointer is written as the kind and the offset of its
    referent and becomes an address of agegroup 1 when the pickle is read. */
module Pickle {
  import opened Wrappers
  import opened HeapTags
  import opened HeapModel
  import opened CfunTable

  // ------------------------------------------------------------------ kind and offset in one word

  // An offset has 24 bits in bytes, so 22 in words.
  const OFFSETS := 0x40_0000

  /** The bitwise or of a two-bit kind and a number. */
  function OrBits(kind: nat, n: nat): (r: nat)
    requires kind < 4
    ensures n == 0 ==> r == kind
    ensures r >= n
  {
    n / 4 * 4 + (if kind / 2 == 1 || n / 2 % 2 == 1 then 2 else 0) + (if kind % 2 == 1 || n % 2 == 1 then 1 else 0)
  }

  /** HIO_TAG_PTR: the kind above the offset's 24 bits, or-ed together. */
  function HioTagPtr(kind: nat, offset: nat): nat
    requires kind < 4
  {
    OrBits(kind, offset / OFFSETS) * OFFSETS + offset % OFFSETS
  }

  function HioGetId(a: nat): nat { a / OFFSETS }
  function HioGetOffset(a: nat): nat { a % OFFSETS }

  /** Kind and offset are read back just when the offset has at most 24 bits. */
  lemma HioRoundTrip(kind: nat, offset: nat)
    requires kind < 4
    ensures HioGetId(HioTagPtr(kind, offset)) == kind && HioGetOffset(HioTagPtr(kind, offset)) == offset <==>
        offset < OFFSETS
  {
    var b := OrBits(kind, offset / OFFSETS);
    assert (b * OFFSETS + offset % OFFSETS) / OFFSETS == b;
  }

  // ------------------------------------------------------------------ what is pickled

  /** The sibs of the k youngest agegroups, in a heap. */
  datatype Source = Source(m: seq<Word>, b2s: seq<Sibid>, sibs: seq<Sib>, k: nat)

  function Used(s: Sib): nat { if Active(s) && s.start <= s.firstFree then s.firstFree - s.start else 0 }

  function Base(s: Sib): nat { if Active(s) then s.start else 0 }

  /** Where sib i begins in the merged buffer of its kind. */
  function OffsetOf(sibs: seq<Sib>, i: nat): nat {
    if i < 4 || i - 4 >= |sibs| then 0 else OffsetOf(sibs, i - 4) + Used(sibs[i - 4])
  }

  predicate InSib(s: Source, i: nat, a: nat) {
    i < 4 * s.k && i < |s.sibs| && Active(s.sibs[i]) && s.sibs[i].start <= a < s.sibs[i].firstFree
  }

  predicate SibOk(s: Source, i: nat) {
    i < |s.sibs| && Active(s.sibs[i]) ==> s.sibs[i].start <= s.sibs[i].firstFree <= |s.m|
  }

  predicate LabelOk(s: Source, i: nat, a: nat) { InSib(s, i, a) ==>
      SibidFor(s.b2s, a) == Sibid(SibAge(i), SibSlot(i) + 1, 0) }

  ghost predicate SourceOk(s: Source) {
    && 4 * s.k <= |s.sibs|
    && (forall i: nat {:trigger SibOk(s, i)} :: SibOk(s, i))
    && (forall i: nat, a: nat {:trigger LabelOk(s, i, a)} :: LabelOk(s, i, a))
  }

  /** A word of a closed set of sibs: it points into one of them or to a resource of the table. */
  ghost predicate WordOk(s: Source, entries: seq<Cfun>, w: Word) {
    match w
    case TaggedInt(_) => true
    case Tagword(len, _) => IsExternalTag(w) ==> len < |entries|
    case Pointer(a) => (IsExtern(s.b2s, w) && exists j: nat :: Indexed(entries, a, j)) || exists i: nat ::
        InSib(s, i, a)
  }

  ghost predicate Scanned(s: Source, i: nat, x: nat) { InSib(s, i, x) && SibSlot(i) != NONPTR_DATA_SIB && x < |s.m| }

  ghost predicate Closed(s: Source, entries: seq<Cfun>) {
    forall i: nat, x: nat {:trigger Scanned(s, i, x)} :: Scanned(s, i, x) ==> WordOk(s, entries, s.m[x])
  }

  // ------------------------------------------------------------------ one word

  function SibOf(b2s: seq<Sibid>, a: nat): int { SibIndex(SibidFor(b2s, a).age, SibidFor(b2s, a).kind) }

  /** How a word is written. */
  ghost predicate PickledAs(s: Source, entries: seq<Cfun>, w: Word, p: Word) {
    if IsExtern(s.b2s, w) then p.Tagword? && p.btag == EXTERNAL_REFERENCE && Indexed(entries, w.addr, p.len)
    else if w.Pointer? then
      var i := SibOf(s.b2s, w.addr);
      0 <= i < |s.sibs| && w.addr >= Base(s.sibs[i]) &&
          p == Pointer(HioTagPtr(SibSlot(i), w.addr - Base(s.sibs[i]) + OffsetOf(s.sibs, i)))
    else p == w
  }

  predicate Readable(externs: seq<nat>, bases: seq<nat>, p: Word) {
    (IsExternalTag(p) ==> p.len < |externs|) && (p.Pointer? ==> HioGetId(p.addr) < |bases|)
  }

  /** What a written word becomes when it is read. */
  function Read(externs: seq<nat>, bases: seq<nat>, p: Word): Word
    requires Readable(externs, bases, p)
  {
    if p.Pointer? then Pointer(bases[HioGetId(p.addr)] + HioGetOffset(p.addr))
    else if IsExternalTag(p) then Pointer(externs[p.len])
    else p
  }

  /** Where the words of sib i go. */
  function Home(s: Source, bases: seq<nat>, i: nat): nat
    requires |bases| == 4
  {
    bases[SibSlot(i)] + OffsetOf(s.sibs, i)
  }

  /** The word as it should be: a pointer into sib i follows its referent, and an external reference is the address. */
  ghost predicate Follows(s: Source, entries: seq<Cfun>, bases: seq<nat>, w: Word, r: Word)
    requires |bases| == 4
  {
    match w
    case TaggedInt(_) => r == w
    case Tagword(len, _) => if IsExternalTag(w) then len < |entries| && r == Pointer(entries[len].addr) else r == w
    case Pointer(a) =>
      && (IsExtern(s.b2s, w) ==> r == w)
      && forall i: nat {:trigger InSib(s, i, a)} :: InSib(s, i, a) ==>
          r == Pointer(a - s.sibs[i].start + Home(s, bases, i))
  }

  /** The merged buffers are small enough for 24-bit offsets. */
  predicate Fits(s: Source) {
    forall i {:trigger s.sibs[i]} :: 0 <= i < 4 * s.k && i < |s.sibs| ==>
      OffsetOf(s.sibs, i) + Used(s.sibs[i]) <= OFFSETS
  }

  lemma SibIsLabelled(s: Source, i: nat, a: nat)
    requires SourceOk(s) && InSib(s, i, a)
    ensures i == SibOf(s.b2s, a) && !IsExtern(s.b2s, Pointer(a))
  {
    assert LabelOk(s, i, a);
    Labels(i);
  }

  lemma OffsetRoundTrip(s: Source, bases: seq<nat>, i: nat, a: nat)
    requires SourceOk(s) && InSib(s, i, a) && Fits(s) && |bases| == 4
    ensures var t := HioTagPtr(SibSlot(i), a - Base(s.sibs[i]) + OffsetOf(s.sibs, i));
      HioGetId(t) < 4 && bases[HioGetId(t)] + HioGetOffset(t) == a - s.sibs[i].start + Home(s, bases, i)
  {
    assert s.sibs[i] == s.sibs[i];
    HioRoundTrip(SibSlot(i), a - s.sibs[i].start + OffsetOf(s.sibs, i));
  }

  lemma WordRoundTrip(s: Source, entries: seq<Cfun>, externs: seq<nat>, bases: seq<nat>, w: Word, p: Word)
    requires SourceOk(s) && WordOk(s, entries, w) && Fits(s) && |bases| == 4 && SameAddresses(entries, externs)
    requires PickledAs(s, entries, w, p)
    ensures Readable(externs, bases, p) && Follows(s, entries, bases, w, Read(externs, bases, p))
  {
    hide SourceOk, Fits, HioTagPtr, HioGetId, HioGetOffset, OffsetOf, SibOf, Home, InSib;
    if w.Pointer? {
      forall i: nat | InSib(s, i, w.addr) ensures i == SibOf(s.b2s, w.addr) && !IsExtern(s.b2s, w) {
        SibIsLabelled(s, i, w.addr);
      }
      if !IsExtern(s.b2s, w) {
        var i: nat :| InSib(s, i, w.addr);
        OffsetRoundTrip(s, bases, i, w.addr);
      }
    }
  }

  lemma Labels(i: nat)
    ensures SibIndex(SibAge(i), SibSlot(i) + 1) == i
  {
  }

  // ------------------------------------------------------------------ all words

  /** The merged buffers as written. */
  datatype Image = Image(bodies: seq<seq<Word>>, root: Word, count: nat, names: string)

  ghost predicate Written(s: Source, entries: seq<Cfun>, body: seq<Word>, i: nat, x: nat) {
    InSib(s, i, x) && x < |s.m| ==>
      var o := x - s.sibs[i].start + OffsetOf(s.sibs, i);
      o < |body| && if SibSlot(i) == NONPTR_DATA_SIB then body[o] == s.m[x] else PickledAs(s, entries, s.m[x], body[o])
  }

  lemma {:induction false} OffsetsGrow(sibs: seq<Sib>, i: nat, j: nat)
    requires i % 4 == j % 4 && i < j && j - 4 < |sibs|
    ensures OffsetOf(sibs, i) + Used(sibs[i]) <= OffsetOf(sibs, j)
    decreases j
  {
    if i < j - 4 { OffsetsGrow(sibs, i, j - 4); }
  }

  /** Different words go to different places, so sharing is neither lost nor made. */
  lemma HomesAreApart(s: Source, bases: seq<nat>, i: nat, x: nat, j: nat, y: nat)
    requires SourceOk(s) && |bases| == 4 && InSib(s, i, x) && InSib(s, j, y) && x != y
    requires forall a, b :: 0 <= a < 4 && 0 <= b < 4 && a != b ==>
      bases[a] + OffsetOf(s.sibs, 4 * s.k + a) <= bases[b] || bases[b] + OffsetOf(s.sibs, 4 * s.k + b) <= bases[a]
    ensures x - s.sibs[i].start + Home(s, bases, i) != y - s.sibs[j].start + Home(s, bases, j)
  {
    OffsetsGrow(s.sibs, i, 4 * s.k + SibSlot(i));
    OffsetsGrow(s.sibs, j, 4 * s.k + SibSlot(j));
    if SibSlot(i) == SibSlot(j) {
      if i < j { OffsetsGrow(s.sibs, i, j); }
      if j < i { OffsetsGrow(s.sibs, j, i); }
    }
  }

  // ------------------------------------------------------------------ the pickler

  predicate CodePointer(b2s: seq<Sibid>, w: Word) { w.Pointer? && !IsExtern(b2s, w) &&
      SibidFor(b2s, w.addr).kind == CODE_KIND }

  /** As closed, but for pointers to code, which the pickler refuses. */
  ghost predicate ClosedButForCode(s: Source, entries: seq<Cfun>) {
    forall i: nat, x: nat {:trigger Scanned(s, i, x)} ::
        Scanned(s, i, x) ==> WordOk(s, entries, s.m[x]) || CodePointer(s.b2s, s.m[x])
  }

  ghost predicate HasCode(s: Source, i: nat, x: nat) { Scanned(s, i, x) && CodePointer(s.b2s, s.m[x]) }

  method AdjustmentOf(s: Source) returns (offsets: seq<nat>)
    requires SourceOk(s)
    ensures |offsets| == 4 * s.k && forall i {:trigger offsets[i]} ::
        0 <= i < 4 * s.k ==> offsets[i] == OffsetOf(s.sibs, i)
  {
    offsets := [];
    var totals := [0, 0, 0, 0];
    var age := 0;
    while age < s.k
      invariant age <= s.k && |offsets| == 4 * age && |totals| == 4
      invariant forall i {:trigger offsets[i]} :: 0 <= i < 4 * age ==> offsets[i] == OffsetOf(s.sibs, i)
      invariant forall j {:trigger totals[j]} :: 0 <= j < 4 ==> totals[j] == OffsetOf(s.sibs, 4 * age + j)
    {
      var ilk := 0;
      while ilk < 4
        invariant ilk <= 4 && |offsets| == 4 * age + ilk && |totals| == 4
        invariant forall i {:trigger offsets[i]} :: 0 <= i < 4 * age + ilk ==> offsets[i] == OffsetOf(s.sibs, i)
        invariant forall j {:trigger totals[j]} :: 0 <= j < 4 ==>
            totals[j] == OffsetOf(s.sibs, if j < ilk then 4 * age + 4 + j else 4 * age + j)
      {
        var sib := s.sibs[4 * age + ilk];
        offsets := offsets + [totals[ilk]];
        assert SibOk(s, 4 * age + ilk);
        if Active(sib) {
          totals := totals[ilk := totals[ilk] + (sib.firstFree - sib.start)];
        }
        ilk := ilk + 1;
      }
      age := age + 1;
    }
  }

  /** Write one word; a pointer to code is refused. */
  method PickleWord(s: Source, offsets: seq<nat>, table: HeapfileCfunTable, w: Word) returns (ok: bool, p: Word)
    requires SourceOk(s) && table.Valid() && |table.symbols.by_addr| > 0 &&
        (WordOk(s, table.entries, w) || CodePointer(s.b2s, w))
    requires |offsets| == 4 * s.k && forall i {:trigger offsets[i]} ::
        0 <= i < 4 * s.k ==> offsets[i] == OffsetOf(s.sibs, i)
    modifies table
    ensures table.Valid() && table.entries == old(table.entries)
    ensures ok <==> !CodePointer(s.b2s, w)
    ensures ok ==> PickledAs(s, table.entries, w, p)
  {
    ok, p := true, w;
    if w.Pointer? {
      var sibid := SibidFor(s.b2s, w.addr);
      if sibid == UNMAPPED_BOOK_SIBID {
        forall i: nat ensures !InSib(s, i, w.addr) { assert LabelOk(s, i, w.addr); }
        ghost var j: nat :| Indexed(table.entries, w.addr, j);
        p := table.AddCfun(w.addr);
      } else if sibid.kind == CODE_KIND {
        ok := false;
      } else {
        ghost var j: nat :| InSib(s, j, w.addr);
        assert LabelOk(s, j, w.addr);
        Labels(j);
        var i := SibIndex(sibid.age, sibid.kind);
        p := Pointer(HioTagPtr(sibid.kind - 1, w.addr - Base(s.sibs[i]) + offsets[i]));
      }
    }
  }

  /** Every word of kind `slot` in the first n agegroups is written where it belongs. */
  ghost predicate BodyUpTo(s: Source, entries: seq<Cfun>, slot: nat, n: nat, body: seq<Word>) {
    && |body| == OffsetOf(s.sibs, 4 * n + slot)
    && forall i: nat, x: nat {:trigger Written(s, entries, body, i, x)} :: SibSlot(i) == slot && i < 4 * n ==>
        Written(s, entries, body, i, x)
  }

  lemma BodyGrows(s: Source, entries: seq<Cfun>, slot: nat, n: nat, body: seq<Word>, more: seq<Word>)
    requires SourceOk(s) && slot < 4 && n < s.k && BodyUpTo(s, entries, slot, n, body)
    requires |more| == Used(s.sibs[4 * n + slot])
    requires forall d {:trigger more[d]} :: 0 <= d < |more| && s.sibs[4 * n + slot].start + d < |s.m| ==>
      var w := s.m[s.sibs[4 * n + slot].start + d];
      if slot == NONPTR_DATA_SIB then more[d] == w else PickledAs(s, entries, w, more[d])
    ensures BodyUpTo(s, entries, slot, n + 1, body + more)
  {
    var r := body + more;
    forall i: nat, x: nat | SibSlot(i) == slot && i < 4 * n + 4 ensures Written(s, entries, r, i, x) {
      if i < 4 * n {
        assert Written(s, entries, body, i, x);
        ghost var o := x - (if i < |s.sibs| then s.sibs[i].start else 0) + OffsetOf(s.sibs, i);
        assert 0 <= o < |body| ==> r[o] == body[o];
      } else {
        assert i == 4 * n + slot;
        if InSib(s, i, x) {
          var d := x - s.sibs[i].start;
          assert r[d + |body|] == more[d];
        }
      }
    }
  }

  /** Write the words of one sib; data words are written as they are. */
  method PickleSib(s: Source, offsets: seq<nat>, table: HeapfileCfunTable, i: nat) returns (ok: bool, more: seq<Word>)
    requires SourceOk(s) && table.Valid() && |table.symbols.by_addr| > 0 && ClosedButForCode(s, table.entries) &&
        i < 4 * s.k
    requires |offsets| == 4 * s.k && forall j {:trigger offsets[j]} ::
        0 <= j < 4 * s.k ==> offsets[j] == OffsetOf(s.sibs, j)
    modifies table
    ensures table.Valid() && table.entries == old(table.entries)
    ensures ok <==> forall x: nat {:trigger HasCode(s, i, x)} :: !HasCode(s, i, x)
    ensures ok ==> |more| == Used(s.sibs[i])
    ensures ok ==> forall d {:trigger more[d]} :: 0 <= d < |more| && s.sibs[i].start + d < |s.m| ==>
      var w := s.m[s.sibs[i].start + d];
      if SibSlot(i) == NONPTR_DATA_SIB then more[d] == w else PickledAs(s, table.entries, w, more[d])
  {
    more := [];
    var sib := s.sibs[i];
    assert SibOk(s, i);
    if !Active(sib) {
      return true, [];
    }
    if SibSlot(i) == NONPTR_DATA_SIB {
      return true, s.m[sib.start..sib.firstFree];
    }
    var p := sib.start;
    while p < sib.firstFree
      invariant sib.start <= p <= sib.firstFree && |more| == p - sib.start
      invariant table.Valid() && table.entries == old(table.entries)
      invariant forall x: nat {:trigger HasCode(s, i, x)} :: x < p ==> !HasCode(s, i, x)
      invariant forall d {:trigger more[d]} :: 0 <= d < |more| ==>
          PickledAs(s, table.entries, s.m[sib.start + d], more[d])
    {
      assert Scanned(s, i, p);
      var w;
      ok, w := PickleWord(s, offsets, table, s.m[p]);
      if !ok {
        assert HasCode(s, i, p);
        return;
      }
      more := more + [w];
      p := p + 1;
    }
    ok := true;
  }

  method PickleKind(s: Source, offsets: seq<nat>, table: HeapfileCfunTable, slot: nat)
      returns (ok: bool, body: seq<Word>)
    requires SourceOk(s) && table.Valid() && |table.symbols.by_addr| > 0 && ClosedButForCode(s, table.entries) &&
        slot < 4
    requires |offsets| == 4 * s.k && forall j {:trigger offsets[j]} ::
        0 <= j < 4 * s.k ==> offsets[j] == OffsetOf(s.sibs, j)
    modifies table
    ensures table.Valid() && table.entries == old(table.entries)
    ensures ok <==> forall i: nat, x: nat {:trigger HasCode(s, i, x)} :: SibSlot(i) == slot ==> !HasCode(s, i, x)
    ensures ok ==> BodyUpTo(s, table.entries, slot, s.k, body)
  {
    body := [];
    var age := 0;
    while age < s.k
      invariant age <= s.k && BodyUpTo(s, table.entries, slot, age, body)
      invariant table.Valid() && table.entries == old(table.entries)
      invariant forall i: nat, x: nat {:trigger HasCode(s, i, x)} :: SibSlot(i) == slot && i < 4 * age ==> !HasCode(s,
          i, x)
    {
      var more;
      var i := 4 * age + slot;
      ok, more := PickleSib(s, offsets, table, i);
      if !ok {
        return;
      }
      BodyGrows(s, table.entries, slot, age, body, more);
      body := body + more;
      age := age + 1;
      forall j: nat, x: nat | SibSlot(j) == slot && j < 4 * age ensures !HasCode(s, j, x) {
        assert j < 4 * age - 4 || j == i;
      }
    }
    ok := true;
  }

  ghost predicate IsImage(s: Source, entries: seq<Cfun>, root: Word, image: Image) {
    && |image.bodies| == 4 && PickledAs(s, entries, root, image.root)
    && (forall slot {:trigger image.bodies[slot]} :: 0 <= slot < 4 ==>
        BodyUpTo(s, entries, slot, s.k, image.bodies[slot]))
    && image.count == |entries| && Strings(Names(entries)) <= image.names
  }

  /** Refused just when the datastructure holds code. */
  method PickleHeapDatastructure(s: Source, table: HeapfileCfunTable, root: Word) returns (r: Option<Image>)
    requires SourceOk(s) && table.Valid() && |table.symbols.by_addr| > 0 && ClosedButForCode(s, table.entries)
    requires IsExternalTag(root) || root.Pointer?
    requires (WordOk(s, table.entries, root) && !IsExtern(s.b2s, root)) || CodePointer(s.b2s, root)
    modifies table
    ensures table.Valid() && table.entries == old(table.entries)
    ensures r.None? <==> CodePointer(s.b2s, root) || exists i: nat, x: nat {:trigger HasCode(s, i, x)} ::
        HasCode(s, i, x)
    ensures r.Some? ==> IsImage(s, table.entries, root, r.value)
  {
    var offsets := AdjustmentOf(s);
    var ok, root1 := true, root;
    if !IsExternalTag(root) {
      ok, root1 := PickleWord(s, offsets, table, root);
      if !ok {
        return None;
      }
    }
    var count, names := WriteCfunTable(table);
    var bodies := [];
    var slot := 0;
    while slot < 4
      invariant slot <= 4 && |bodies| == slot && table.Valid() && table.entries == old(table.entries)
      invariant forall j {:trigger bodies[j]} :: 0 <= j < slot ==> BodyUpTo(s, table.entries, j, s.k, bodies[j])
      invariant forall i: nat, x: nat {:trigger HasCode(s, i, x)} :: SibSlot(i) < slot ==> !HasCode(s, i, x)
    {
      var body;
      ok, body := PickleKind(s, offsets, table, slot);
      if !ok {
        return None;
      }
      bodies := bodies + [body];
      slot := slot + 1;
    }
    r := Some(Image(bodies, root1, count, names));
  }

  // ------------------------------------------------------------------ the unpickler

  /** Sib `slot` of agegroup 1 takes n words more. */
  predicate HasRoom(sibs: seq<Sib>, slot: nat, n: nat, ram: nat) {
    && slot < |sibs|
    && (n > 0 ==> Active(sibs[slot]) && sibs[slot].start <= sibs[slot].firstFree)
    && (n > 0 ==> sibs[slot].firstFree + n <= sibs[slot].limit <= ram)
  }

  predicate SibsApart(sibs: seq<Sib>, i: nat, j: nat) {
    i < |sibs| && j < |sibs| && i != j && Active(sibs[i]) && Active(sibs[j]) ==>
        sibs[i].limit <= sibs[j].start || sibs[j].limit <= sibs[i].start
  }

  function Bases(sibs: seq<Sib>): (r: seq<nat>)
    ensures |r| == |sibs|
  {
    seq(|sibs|, i requires 0 <= i < |sibs| => sibs[i].firstFree)
  }

  ghost predicate RoomForAll(sibs: seq<Sib>, bodies: seq<seq<Word>>, ram: nat) {
    && |sibs| == |bodies| == 4
    && (forall slot: nat {:trigger HasRoom(sibs, slot, |bodies[slot]|, ram)} ::
        slot < 4 ==> HasRoom(sibs, slot, |bodies[slot]|, ram))
    && (forall i: nat, j: nat {:trigger SibsApart(sibs, i, j)} :: SibsApart(sibs, i, j))
  }

  predicate AllReadable(externs: seq<nat>, bases: seq<nat>, body: seq<Word>) {
    forall d {:trigger body[d]} :: 0 <= d < |body| ==> Readable(externs, bases, body[d])
  }

  predicate ReadBack(externs: seq<nat>, bases: seq<nat>, bodies: seq<seq<Word>>, m: seq<Word>, slot: nat, d: nat) {
    slot < |bodies| == |bases| && d < |bodies[slot]| ==>
      && bases[slot] + d < |m|
      && (slot != NONPTR_DATA_SIB ==> Readable(externs, bases, bodies[slot][d]))
      && m[bases[slot] + d] == if slot == NONPTR_DATA_SIB then bodies[slot][d]
          else Read(externs, bases, bodies[slot][d])
  }

  predicate Copied(bases: seq<nat>, bodies: seq<seq<Word>>, m: seq<Word>, slot: nat, d: nat) {
    slot < |bodies| == |bases| && d < |bodies[slot]| ==> bases[slot] + d < |m| && m[bases[slot] + d] == bodies[slot][d]
  }

  predicate Filled(bases: seq<nat>, bodies: seq<seq<Word>>, x: nat) {
    |bases| == |bodies| && exists slot :: 0 <= slot < |bases| && bases[slot] <= x < bases[slot] + |bodies[slot]|
  }

  method ReadBlock(ram: array<Word>, at: nat, body: seq<Word>)
    requires at + |body| <= ram.Length
    modifies ram
    ensures forall x {:trigger ram[x]} :: 0 <= x < ram.Length ==>
        ram[x] == if at <= x < at + |body| then body[x - at] else old(ram[x])
  {
    var i := 0;
    while i < |body|
      invariant i <= |body|
      invariant forall x {:trigger ram[x]} :: 0 <= x < ram.Length ==>
          ram[x] == if at <= x < at + i then body[x - at] else old(ram[x])
    {
      ram[at + i] := body[i];
      i := i + 1;
    }
  }

  method AdjustSib(ram: array<Word>, at: nat, n: nat, externs: seq<nat>, bases: seq<nat>)
    requires at + n <= ram.Length && forall x {:trigger ram[x]} :: at <= x < at + n ==> Readable(externs, bases, ram[x])
    modifies ram
    ensures forall x {:trigger ram[x]} :: 0 <= x < ram.Length ==>
      ram[x] == if at <= x < at + n then Read(externs, bases, old(ram[x])) else old(ram[x])
  {
    var p := at;
    while p < at + n
      invariant at <= p <= at + n
      invariant forall x {:trigger ram[x]} :: 0 <= x < ram.Length ==>
        ram[x] == if at <= x < p then Read(externs, bases, old(ram[x])) else old(ram[x])
    {
      var w := ram[p];
      if !w.TaggedInt? {
        if IsExternalTag(w) {
          w := Pointer(externs[w.len]);
        } else if !w.Tagword? {
          w := Pointer(bases[HioGetId(w.addr)] + HioGetOffset(w.addr));
        }
        ram[p] := w;
      }
      p := p + 1;
    }
  }

  lemma RegionsApart(sibs: seq<Sib>, bodies: seq<seq<Word>>, ram: nat, i: nat, j: nat)
    requires RoomForAll(sibs, bodies, ram) && i < 4 && j < 4 && i != j
    ensures |bodies[i]| == 0 || |bodies[j]| == 0 || sibs[i].firstFree + |bodies[i]| <= sibs[j].firstFree ||
      sibs[j].firstFree + |bodies[j]| <= sibs[i].firstFree
  {
    assert SibsApart(sibs, i, j) && HasRoom(sibs, i, |bodies[i]|, ram) && HasRoom(sibs, j, |bodies[j]|, ram);
  }

  ghost predicate CopiedBelow(bases: seq<nat>, bodies: seq<seq<Word>>, m0: seq<Word>, m: seq<Word>, n: nat) {
    && |m| == |m0|
    && (forall slot: nat, d: nat {:trigger Copied(bases, bodies, m, slot, d)} ::
        slot < n ==> Copied(bases, bodies, m, slot, d))
    && forall x: nat {:trigger Filled(bases, bodies, x)} :: x < |m| && !Filled(bases, bodies, x) ==> m[x] == m0[x]
  }

  ghost predicate AdjustedBelow(externs: seq<nat>, bases: seq<nat>, bodies: seq<seq<Word>>, m0: seq<Word>, m: seq<Word>,
      n: nat) {
    && |m| == |m0|
    && (forall slot: nat, d: nat {:trigger ReadBack(externs, bases, bodies, m, slot, d)} ::
        slot < n ==> ReadBack(externs, bases, bodies, m, slot, d))
    && (forall slot: nat, d: nat {:trigger Copied(bases, bodies, m, slot, d)} ::
        n <= slot ==> Copied(bases, bodies, m, slot, d))
    && forall x: nat {:trigger Filled(bases, bodies, x)} :: x < |m| && !Filled(bases, bodies, x) ==> m[x] == m0[x]
  }

  lemma CopiedOneMore(sibs: seq<Sib>, bodies: seq<seq<Word>>, m0: seq<Word>, m: seq<Word>, m': seq<Word>, n: nat)
    requires RoomForAll(sibs, bodies, |m0|) && CopiedBelow(Bases(sibs), bodies, m0, m, n) && n < 4 && |m'| == |m|
    requires var at := sibs[n].firstFree;
      forall x {:trigger m'[x]} :: 0 <= x < |m| ==> m'[x] == if at <= x < at + |bodies[n]| then bodies[n][x - at]
          else m[x]
    ensures CopiedBelow(Bases(sibs), bodies, m0, m', n + 1)
  {
    var bases := Bases(sibs);
    assert HasRoom(sibs, n, |bodies[n]|, |m0|);
    forall slot: nat, d: nat | slot < n + 1 ensures Copied(bases, bodies, m', slot, d) {
      if slot < n {
        assert Copied(bases, bodies, m, slot, d);
        RegionsApart(sibs, bodies, |m0|, slot, n);
      }
    }
    forall x: nat | x < |m'| && !Filled(bases, bodies, x) ensures m'[x] == m0[x] {
      assert bases[n] <= x < bases[n] + |bodies[n]| ==> Filled(bases, bodies, x);
    }
  }

  lemma AdjustedOneMore(sibs: seq<Sib>, externs: seq<nat>, bodies: seq<seq<Word>>, m0: seq<Word>, m: seq<Word>,
      m': seq<Word>, n: nat)
    requires RoomForAll(sibs, bodies, |m0|) && AdjustedBelow(externs, Bases(sibs), bodies, m0, m, n) && n < 4 &&
        |m'| == |m|
    requires n != NONPTR_DATA_SIB ==> AllReadable(externs, Bases(sibs), bodies[n])
    requires var at := sibs[n].firstFree;
      forall x {:trigger m'[x]} :: 0 <= x < |m| ==>
        m'[x] == if at <= x < at + |bodies[n]| && n != NONPTR_DATA_SIB
            then Read(externs, Bases(sibs), bodies[n][x - at]) else m[x]
    ensures AdjustedBelow(externs, Bases(sibs), bodies, m0, m', n + 1)
  {
    var bases := Bases(sibs);
    assert HasRoom(sibs, n, |bodies[n]|, |m0|);
    forall slot: nat, d: nat | slot < n + 1 ensures ReadBack(externs, bases, bodies, m', slot, d) {
      if slot < n {
        assert ReadBack(externs, bases, bodies, m, slot, d);
        RegionsApart(sibs, bodies, |m0|, slot, n);
      } else {
        assert Copied(bases, bodies, m, slot, d);
      }
    }
    forall slot: nat, d: nat | n + 1 <= slot ensures Copied(bases, bodies, m', slot, d) {
      assert Copied(bases, bodies, m, slot, d);
      if slot < 4 { RegionsApart(sibs, bodies, |m0|, slot, n); }
    }
    forall x: nat | x < |m'| && !Filled(bases, bodies, x) ensures m'[x] == m0[x] {
      assert bases[n] <= x < bases[n] + |bodies[n]| ==> Filled(bases, bodies, x);
    }
  }

  /** Append the buffers to the sibs of agegroup 1 and adjust their words. */
  method ReadImage(ram: array<Word>, sibs: seq<Sib>, bodies: seq<seq<Word>>, root: Word, externs: seq<nat>)
      returns (sibs1: seq<Sib>, root1: Word)
    requires RoomForAll(sibs, bodies, ram.Length) && Readable(externs, Bases(sibs), root)
    requires forall slot {:trigger bodies[slot]} :: 0 <= slot < 4 && slot != NONPTR_DATA_SIB ==> AllReadable(externs,
        Bases(sibs), bodies[slot])
    modifies ram
    ensures AdjustedBelow(externs, Bases(sibs), bodies, old(ram[..]), ram[..], 4)
    ensures |sibs1| == 4 && forall i {:trigger sibs1[i]} :: 0 <= i < 4 ==>
      var end := sibs[i].firstFree + |bodies[i]|;
      sibs1[i] == if |bodies[i]| == 0 then sibs[i] else if i == NONPTR_DATA_SIB then sibs[i].(firstFree := end)
          else sibs[i].(firstFree := end, sweptEnd := end)
    ensures root1 == Read(externs, Bases(sibs), root)
  {
    ghost var m0 := ram[..];
    var bases := Bases(sibs);
    var slot := 0;
    while slot < 4
      invariant slot <= 4 && CopiedBelow(bases, bodies, m0, ram[..], slot)
    {
      ghost var m := ram[..];
      assert HasRoom(sibs, slot, |bodies[slot]|, ram.Length);
      if |bodies[slot]| > 0 {
        ReadBlock(ram, sibs[slot].firstFree, bodies[slot]);
      }
      CopiedOneMore(sibs, bodies, m0, m, ram[..], slot);
      slot := slot + 1;
    }
    sibs1 := sibs;
    slot := 0;
    while slot < 4
      invariant slot <= 4 && AdjustedBelow(externs, bases, bodies, m0, ram[..], slot) && |sibs1| == 4
      invariant forall i {:trigger sibs1[i]} :: 0 <= i < 4 ==>
        var end := sibs[i].firstFree + |bodies[i]|;
        sibs1[i] == if |bodies[i]| == 0 || i >= slot then sibs[i] else if i == NONPTR_DATA_SIB
            then sibs[i].(firstFree := end) else sibs[i].(firstFree := end, sweptEnd := end)
    {
      ghost var m := ram[..];
      var at := sibs[slot].firstFree;
      assert HasRoom(sibs, slot, |bodies[slot]|, ram.Length);
      if |bodies[slot]| > 0 {
        if slot == NONPTR_DATA_SIB {
          sibs1 := sibs1[slot := sibs[slot].(firstFree := at + |bodies[slot]|)];
        } else {
          forall x | at <= x < at + |bodies[slot]| ensures ram[x] == bodies[slot][x - at] {
            assert Copied(bases, bodies, m, slot, x - at);
          }
          AdjustSib(ram, at, |bodies[slot]|, externs, bases);
          sibs1 := sibs1[slot := sibs[slot].(firstFree := at + |bodies[slot]|, sweptEnd := at + |bodies[slot]|)];
        }
      }
      AdjustedOneMore(sibs, externs, bodies, m0, m, ram[..], slot);
      slot := slot + 1;
    }
    root1 := if IsExternalTag(root) then Pointer(externs[root.len]) else if root.Pointer?
        then Pointer(bases[HioGetId(root.addr)] + HioGetOffset(root.addr)) else root;
  }

  // ------------------------------------------------------------------ there and back

  /** A pickle of a closed datastructure can be read. */
  lemma ImageIsReadable(s: Source, entries: seq<Cfun>, root: Word, image: Image, externs: seq<nat>, bases: seq<nat>,
      slot: nat)
    requires SourceOk(s) && Closed(s, entries) && Fits(s) && IsImage(s, entries, root, image) &&
        SameAddresses(entries, externs)
    requires |bases| == 4 && slot < 4 && slot != NONPTR_DATA_SIB
    ensures AllReadable(externs, bases, image.bodies[slot])
  {
    var body := image.bodies[slot];
    forall d | 0 <= d < |body| ensures Readable(externs, bases, body[d]) {
      var i := Origin(s, s.k, slot, d);
      var x := s.sibs[i].start + (d - OffsetOf(s.sibs, i));
      assert SibOk(s, i);
      assert Written(s, entries, body, i, x) && Scanned(s, i, x);
      WordRoundTrip(s, entries, externs, bases, s.m[x], body[d]);
    }
  }

  /** The sib a word of a merged buffer comes from. */
  lemma {:induction false} Origin(s: Source, n: nat, slot: nat, d: nat) returns (i: nat)
    requires SourceOk(s) && n <= s.k && slot < 4 && d < OffsetOf(s.sibs, 4 * n + slot)
    ensures i < 4 * n && SibSlot(i) == slot && Active(s.sibs[i]) &&
        OffsetOf(s.sibs, i) <= d < OffsetOf(s.sibs, i) + Used(s.sibs[i])
  {
    i := 4 * (n - 1) + slot;
    if d < OffsetOf(s.sibs, i) {
      i := Origin(s, n - 1, slot, d);
    }
  }

  /** Every word of the datastructure arrives at the place of its sib, data as it was, and every other word follows what
      it refers to.  With HomesAreApart: the graph read is the graph pickled. */
  lemma PickleRoundTrip(s: Source, entries: seq<Cfun>, root: Word, image: Image, externs: seq<nat>, bases: seq<nat>,
      m0: seq<Word>, m1: seq<Word>, i: nat, x: nat)
    requires SourceOk(s) && Closed(s, entries) && Fits(s) && IsImage(s, entries, root, image) &&
        SameAddresses(entries, externs)
    requires |bases| == 4 && AdjustedBelow(externs, bases, image.bodies, m0, m1, 4) && InSib(s, i, x)
    ensures x < |s.m| && var y := x - s.sibs[i].start + Home(s, bases, i);
      y < |m1| && if SibSlot(i) == NONPTR_DATA_SIB then m1[y] == s.m[x] else Follows(s, entries, bases, s.m[x], m1[y])
  {
    assert SibOk(s, i);
    var slot := SibSlot(i);
    var d := x - s.sibs[i].start + OffsetOf(s.sibs, i);
    OffsetsGrow(s.sibs, i, 4 * s.k + slot);
    assert Written(s, entries, image.bodies[slot], i, x);
    assert ReadBack(externs, bases, image.bodies, m1, slot, d);
    if slot != NONPTR_DATA_SIB {
      assert Scanned(s, i, x);
      WordRoundTrip(s, entries, externs, bases, s.m[x], image.bodies[slot][d]);
    }
  }

  lemma RootRoundTrip(s: Source, entries: seq<Cfun>, root: Word, image: Image, externs: seq<nat>, bases: seq<nat>)
    requires SourceOk(s) && WordOk(s, entries, root) && Fits(s) && IsImage(s, entries, root, image) &&
        SameAddresses(entries, externs) && |bases| == 4
    ensures Readable(externs, bases, image.root) && Follows(s, entries, bases, root, Read(externs, bases, image.root))
  {
    WordRoundTrip(s, entries, externs, bases, root, image.root);
  }
}
