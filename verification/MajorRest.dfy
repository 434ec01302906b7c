/** A major clean of a heap at rest leaves a heap at rest. */
module MajorRest {
  import opened HeapTags
  import opened HeapModel
  import opened Forwarding
  import opened HeapObject
  import opened MajorForward
  import opened MajorSweep
  import opened MajorCards
  import opened MajorRoots
  import opened MajorClean
  import opened MajorSizing
  import opened MajorHuge
  import opened MajorFinish
  import opened CleanResult
  import opened HeapWorld
  import opened MajorSetup

  /** What the clean leaves: memory, sibs when copying ended, progress, marks and cards; then labels once the
      from-spaces are unmapped and once the quires are relabelled, hugechunks and their lists, final sibs. */
  datatype Outcome = Outcome(
    m: seq<Word>, copied: seq<Sib>, c: Copy, marked: set<int>, hugeMarked: seq<Huge>, cards: seq<CardMap>,
    unmapped: seq<Sibid>, b2s: seq<Sibid>, quires: map<nat, Quire>, huge: seq<Huge>, lists: seq<seq<nat>>,
        sibs: seq<Sib>)

  /** A sib after its boundary has been moved and its space trimmed. */
  predicate SibFinal(s: Sib, s': Sib, i: nat, k: nat, active: nat) {
    if i < 4 * k then
      && s' == s.(limit := s'.limit, seniorEnd := SeniorEnd(s, i, active), fromStart := 0, fromFirstFree := 0,
          fromLimit := 0)
      && s'.firstFree <= s'.limit <= s.limit && Active(s') == Active(s)
    else s' == s
  }

  /** Everything known when the clean is over. */
  ghost predicate Ended(w: Flip, k: nat, roots: seq<nat>, lists: seq<seq<nat>>, quireList: seq<nat>,
      requested: seq<nat>, nursery: nat,
                       bases: seq<nat>, grants: seq<nat>, n: After, o: Outcome) {
    var f := Flips(w, k, n);
    && Flipping(w, k, roots, lists, quireList, requested, nursery, bases, grants, n) && MajorReady(f, roots, w.k)
    && CleanedState(f, o.m, o.copied, o.c, o.hugeMarked, o.marked, o.cards) && |o.cards| == w.k
    && HugeListsOk(o.huge, o.lists, 0, w.k) && Passed(o.hugeMarked, o.huge, k, w.k, 1, k)
    && |o.unmapped| == |n.b2s| && (forall b {:trigger FreedBook(o.copied, n.b2s, o.unmapped, 0, 4 * k, b)} ::
        FreedBook(o.copied, n.b2s, o.unmapped, 0, 4 * k, b))
    && SameIds(o.unmapped, o.b2s) && o.quires.Keys == w.quires.Keys
    && (forall i {:trigger o.b2s[i]} :: 0 <= i < |o.b2s| && o.b2s[i] != o.unmapped[i] ==>
        o.b2s[i].kind == CODE_KIND && o.b2s[i].age >= 1)
    && (forall r {:trigger o.quires[r]} :: r in o.quires ==> Relabelled(o.huge, k, w.quires[r], o.quires[r]))
    && QuiresOk(o.b2s, o.quires, o.huge, quireList)
    && |o.sibs| == |o.copied| && (forall i {:trigger o.sibs[i]} ::
        0 <= i < |o.sibs| ==> SibFinal(o.copied[i], o.sibs[i], i, k, w.k))
  }

  function RestZone(w: Flip, f: Flip, o: Outcome, x: nat): Zone
    requires x < |f.zone| == |w.zone|
  {
    match f.zone[x]
    case Old(_) => Fixed
    case New(i) =>
      if x in o.c.org then
        var y := o.c.org[x];
        if 0 <= y < |f.zone| && f.zone[y].Old? && f.zone[y].chunk in o.c.fwd then Old(o.c.fwd[f.zone[y].chunk])
            else Fixed
      else if 0 <= i < |o.sibs| && o.sibs[i].firstFree <= x < o.sibs[i].limit then New(i) else Fixed
    case Fixed => if w.zone[x].Old? && w.zone[x].chunk >= 0 && AgeAt(w, w.zone[x].chunk) > f.k then w.zone[x] else Fixed
  }

  /** One clean: the heap at rest before it, the flip, the heap at rest after it, and what led there. */
  datatype Clean = Clean(w: Flip, f: Flip, r: Flip, k: nat, requested: seq<nat>, nursery: nat, bases: seq<nat>,
      grants: seq<nat>, n: After, o: Outcome)

  predicate RestZoneAt(e: Clean, x: int) {
    0 <= x < |e.r.zone| && |e.r.zone| == |e.f.zone| == |e.w.zone| ==> e.r.zone[x] == RestZone(e.w, e.f, e.o, x)
  }

  ghost predicate IsFlip(e: Clean) { e.f == Flips(e.w, e.k, e.n) }

  /** f is the flip of w, and r the heap at rest that the outcome amounts to. */
  ghost predicate IsClean(e: Clean) {
    && IsFlip(e) && e.f.mem == e.n.m && e.f.b2s == e.n.b2s && e.f.sibs == e.n.sibs && e.f.quires == e.w.quires &&
        e.f.huge == e.w.huge && e.f.k == e.k
    && e.r.mem == e.o.m && e.r.b2s == e.o.b2s && e.r.sibs == e.o.sibs && e.r.ext == e.w.ext &&
        e.r.quires == e.o.quires && e.r.huge == e.o.huge
    && e.r.cards == e.o.cards && e.r.k == e.w.k
    && |e.w.mem| == |e.w.zone| == |e.f.mem| == |e.f.zone| == |e.r.zone| == |e.r.mem|
    && forall x {:trigger RestZoneAt(e, x)} :: RestZoneAt(e, x)
  }

  ghost function Rest(w: Flip, k: nat, n: After, o: Outcome): Flip
    requires |n.m| == |w.zone|
  {
    var f := Flips(w, k, n);
    Flip(o.m, o.b2s, o.sibs, seq(|w.zone|, x requires 0 <= x < |w.zone| => RestZone(w, f, o, x)), w.ext, o.quires,
        o.huge, o.cards, w.k)
  }

  // ------------------------------------------------------------------ labels

  /** What the lemmas about labels need. */
  ghost predicate Labels(e: Clean) {
    && IsClean(e) && Relabel(e.w, e.k, e.bases, e.grants, e.n) &&
        SibsFlipped(e.w, e.k, e.requested, e.nursery, e.bases, e.grants, e.n)
    && CardReady(e.f, e.n.cards) && |e.o.copied| == |e.n.sibs| && SameBuffers(e.n.sibs, e.o.copied)
    && (forall y {:trigger y in e.w.ext} :: y in e.w.ext ==> 0 <= y < |e.w.zone| && e.w.zone[y].Fixed?) &&
        |e.w.mem| <= |e.w.b2s| * BOOK
    && |e.o.unmapped| == |e.n.b2s|
    && (forall b {:trigger FreedBook(e.o.copied, e.n.b2s, e.o.unmapped, 0, 4 * e.k, b)} ::
        FreedBook(e.o.copied, e.n.b2s, e.o.unmapped, 0, 4 * e.k, b))
    && SameIds(e.o.unmapped, e.o.b2s)
    && (forall i {:trigger e.o.b2s[i]} :: 0 <= i < |e.o.b2s| && e.o.b2s[i] != e.o.unmapped[i] ==>
        e.o.b2s[i].kind == CODE_KIND && e.o.b2s[i].age >= 1)
    && (forall b: nat {:trigger RecordIsCode(e.w.b2s, b)} :: RecordIsCode(e.w.b2s, b))
    && e.o.quires.Keys == e.w.quires.Keys && (forall r {:trigger e.o.quires[r]} ::
        r in e.o.quires ==> Relabelled(e.o.huge, e.k, e.w.quires[r], e.o.quires[r]))
  }

  /** An unmapped book held part of an old buffer. */
  lemma FromBookHeld(e: Clean, i: nat, b: nat) returns (y: nat)
    requires Labels(e) && i < 4 * e.k && FromBookOf(e.o.copied, i, b)
    ensures y / BOOK == b && InBuffer(e.w, i, y) && SibidFor(e.n.b2s, y).age == SibAge(i) &&
        SibidFor(e.n.b2s, y).kind == SibSlot(i) + 1
  {
    y := OldBook(e.w, e.k, e.requested, e.nursery, e.bases, e.grants, e.n, e.o.copied, i, b);
  }

  lemma OldBook(w: Flip, k: nat, requested: seq<nat>, nursery: nat, bases: seq<nat>, grants: seq<nat>, n: After,
      copied: seq<Sib>, i: nat, b: nat) returns (y: nat)
    requires Relabel(w, k, bases, grants, n) && SibsFlipped(w, k, requested, nursery, bases, grants, n) &&
        SameBuffers(n.sibs, copied)
    requires i < 4 * k && FromBookOf(copied, i, b)
    ensures y / BOOK == b && InBuffer(w, i, y) && SibidFor(n.b2s, y).age == SibAge(i) &&
        SibidFor(n.b2s, y).kind == SibSlot(i) + 1
  {
    assert Flipped(w.sibs, n.sibs, requested, nursery, i, bases[i / 4], grants[i / 4]) &&
        SameBuffer(n.sibs[i], copied[i]);
    var s := w.sibs[i];
    y := if s.start <= b * BOOK then b * BOOK else s.start;
    FirstOfBook(s.start, s.limit, b);
    InOldBuffer(w, k, bases, grants, n, i, y);
  }

  lemma FirstOfBook(lo: nat, hi: nat, b: nat)
    requires lo / BOOK <= b < hi / BOOK
    ensures var y := if lo <= b * BOOK then b * BOOK else lo; lo <= y < hi && y / BOOK == b
  {
    assert hi >= hi / BOOK * BOOK >= (b + 1) * BOOK;
  }

  /** Only books of old buffers lose their label; code keeps its kind. */
  lemma LabelKept(e: Clean, x: nat)
    requires Labels(e)
    requires forall i: nat {:trigger FromBookOf(e.o.copied, i, x / BOOK)} ::
        i < 4 * e.k ==> !FromBookOf(e.o.copied, i, x / BOOK)
    ensures KindAt(e.r, x) == KindAt(e.f, x)
    ensures KindAt(e.f, x) != CODE_KIND ==> AgeAt(e.r, x) == AgeAt(e.f, x)
  {
    assert FreedBook(e.o.copied, e.n.b2s, e.o.unmapped, 0, 4 * e.k, x / BOOK);
    forall i | 0 <= i < 4 * e.k ensures !FromBookOf(e.o.copied, i, x / BOOK) { var j: nat := i; }
  }

  /** Buffers in use carry the labels they were given. */
  lemma BufferLabel(e: Clean, i: nat, x: nat)
    requires Labels(e) && i < |e.n.sibs| && e.n.sibs[i].start <= x < e.n.sibs[i].limit
    ensures AgeAt(e.r, x) == SibAge(i) && KindAt(e.r, x) == SibSlot(i) + 1
  {
    assert AreaLabelOk(e.f, i, x);
    forall j: nat | j < 4 * e.k ensures !FromBookOf(e.o.copied, j, x / BOOK) {
      if FromBookOf(e.o.copied, j, x / BOOK) {
        var y := FromBookHeld(e, j, x / BOOK);
        NotItsOwnGrant(e, i, x, y);
      }
    }
    LabelKept(e, x);
  }

  /** A new to-space shares no book with an old one. */
  lemma NotItsOwnGrant(e: Clean, i: nat, x: nat, y: nat)
    requires Labels(e) && i < 4 * e.k && i < |e.n.sibs| && e.n.sibs[i].start <= x < e.n.sibs[i].limit &&
        x / BOOK == y / BOOK
    ensures !InBuffer(e.w, i, y)
  {
    assert Flipped(e.w.sibs, e.n.sibs, e.requested, e.nursery, i, e.bases[i / 4], e.grants[i / 4]);
    assert InWords(e.bases, e.grants, i / 4, x);
    GrantIsBooks(e.w.b2s, |e.w.mem|, e.bases, e.grants, e.w.k, i / 4, x);
    GrantIsBooks(e.w.b2s, |e.w.mem|, e.bases, e.grants, e.w.k, i / 4, y);
  }

  /** Code keeps its kind and every address its hugechunk. */
  lemma CodeKept(e: Clean, v: nat)
    requires Labels(e)
    ensures HugeAt(e.r.b2s, e.r.quires, v) == HugeAt(e.f.b2s, e.f.quires, v) == HugeAt(e.w.b2s, e.w.quires, v)
    ensures KindAt(e.f, v) == CODE_KIND ==> KindAt(e.r, v) == CODE_KIND
  {
    FlipKeepsCode(e.w, e.k, e.bases, e.grants, e.n, v);
    forall b: nat ensures SameRecordAt(e.n.b2s, e.o.b2s, b) {
      RecordKept(e, b);
    }
    RecordBookKept(e.n.b2s, e.o.b2s, v / BOOK);
    var r := RecordBook(e.n.b2s, v / BOOK);
    if r >= 0 && r in e.o.quires { assert Relabelled(e.o.huge, e.k, e.w.quires[r], e.o.quires[r]); }
    if KindAt(e.f, v) == CODE_KIND {
      forall j: nat | j < 4 * e.k ensures !FromBookOf(e.o.copied, j, v / BOOK) {
        if FromBookOf(e.o.copied, j, v / BOOK) {
          var y := FromBookHeld(e, j, v / BOOK);
        }
      }
      LabelKept(e, v);
    }
  }

  /** No quire record is unmapped and none is made. */
  lemma RecordKept(e: Clean, b: nat)
    requires Labels(e)
    ensures SameRecordAt(e.n.b2s, e.o.b2s, b)
  {
    assert FreedBook(e.o.copied, e.n.b2s, e.o.unmapped, 0, 4 * e.k, b);
    if b < |e.n.b2s| && e.n.b2s[b].id == HUGECHUNK_RECORD {
      assert BookAfter(e.w.b2s, e.n.b2s, e.bases, e.grants, e.k, b) && RecordIsCode(e.w.b2s, b);
      forall j | 0 <= j < 4 * e.k ensures !FromBookOf(e.o.copied, j, b) {
        if FromBookOf(e.o.copied, j, b) {
          var y := FromBookHeld(e, j, b);
        }
      }
    }
  }

  /** An address outside the heap stays outside. */
  lemma ForeignKept(e: Clean, v: nat)
    requires Labels(e) && SibidFor(e.n.b2s, v) == SibidFor(e.w.b2s, v) && AgeAt(e.w, v) > e.w.k &&
        KindAt(e.w, v) != CODE_KIND
    ensures AgeAt(e.r, v) > e.w.k && KindAt(e.r, v) != CODE_KIND
  {
    assert FreedBook(e.o.copied, e.n.b2s, e.o.unmapped, 0, 4 * e.k, v / BOOK);
    if SibidFor(e.o.unmapped, v) == SibidFor(e.n.b2s, v) {
      assert v / BOOK < |e.o.b2s| ==> e.o.b2s[v / BOOK].kind == e.o.unmapped[v / BOOK].kind;
    }
  }

  // ------------------------------------------------------------------ chunks that were not cleaned

  /** What MajorSetup.ChunkKept says, of the flip at hand. */
  lemma FlippedChunk(e: Clean, a: nat)
    requires Labels(e) && Chunk(e.w, a)
    ensures a < |e.f.mem| && ChunkOk(e.w, a) && HomeOk(e.w, a)
    ensures AgeAt(e.f, a) == AgeAt(e.w, a) && KindAt(e.f, a) == KindAt(e.w, a) && 1 <= AgeAt(e.w, a) <= e.w.k &&
        1 <= KindAt(e.w, a) <= 4
    ensures OldHeader(e.f, a) == OldHeader(e.w, a) == NewHeader(e.f, a) && Length(e.f, a) == Length(e.w, a)
    ensures Slot(e.f, a) == Slot(e.w, a) == KindAt(e.w, a) - 1 && Weak(e.f, a) == Weak(e.w, a)
    ensures KindAt(e.w, a) != RO_CONSCELL_KIND ==> TagOf(e.f, a) == TagOf(e.w, a)
    ensures Chunk(e.f, a) <==> AgeAt(e.w, a) <= e.k
    ensures Dest(e.f, a) == Dest(e.w, a) && var h := SibIndex(AgeAt(e.w, a), KindAt(e.w, a));
      && 0 <= h < |e.w.sibs| && h / 4 + 1 == AgeAt(e.w, a) && h % 4 == Slot(e.w, a)
      && Dest(e.w, a) == (if a < e.w.sibs[h].seniorEnd then h + 4 else h) &&
          (a < e.w.sibs[h].seniorEnd ==> h / 4 + 1 < e.w.k)
  {
    ChunkKept(e.w, e.k, e.bases, e.grants, e.n, a);
    DestKept(e.w, e.k, e.requested, e.nursery, e.bases, e.grants, e.n, a);
    assert HomeOk(e.w, a);
  }

  lemma OlderWordAt(e: Clean, a: nat, x: int)
    requires Labels(e) && Chunk(e.w, a) && AgeAt(e.w, a) > e.k && a - OldHeader(e.w, a) <= x < a + Length(e.w, a)
    ensures 0 <= x < |e.w.zone| && e.r.zone[x] == Old(a) == e.w.zone[x] && e.f.zone[x].Fixed? &&
        e.f.mem[x] == e.w.mem[x]
    ensures Slot(e.w, a) != NONPTR_DATA_SIB ==> x in e.f.ext
  {
    ChunkKept(e.w, e.k, e.bases, e.grants, e.n, a);
    WordKeptIn(e.w, e.k, e.bases, e.grants, e.n, a, x);
    assert RestZoneAt(e, x);
  }

  /** A chunk that was not being cleaned is where it was. */
  lemma OlderChunk(e: Clean, a: nat)
    requires Labels(e) && Chunk(e.w, a) && AgeAt(e.w, a) > e.k
    ensures Chunk(e.r, a) && AgeAt(e.r, a) == AgeAt(e.w, a) && KindAt(e.r, a) == KindAt(e.w, a) &&
        Slot(e.r, a) == Slot(e.w, a)
  {
    FlippedChunk(e, a);
    OlderWordAt(e, a, a);
    var i := SibIndex(AgeAt(e.w, a), KindAt(e.w, a));
    assert SibOk(e.w, i);
    BufferLabel(e, i, a);
  }

  /** What copying has done to words outside from-space. */
  ghost predicate Outer(e: Clean) {
    && (forall x {:trigger RestKept(e.f, e.o.m, x)} :: RestKept(e.f, e.o.m, x))
    && (forall x {:trigger ExtMoved(e.f, e.o.c.fwd, e.o.m, x)} :: ExtMoved(e.f, e.o.c.fwd, e.o.m, x))
  }

  /** Its words are unchanged but for references to what has moved; its tagword is no reference. */
  lemma OlderWordMoved(e: Clean, a: nat, x: int)
    requires Labels(e) && Outer(e) && Chunk(e.w, a) && AgeAt(e.w, a) > e.k &&
        a - OldHeader(e.w, a) <= x < a + Length(e.w, a)
    ensures 0 <= x < |e.w.mem| && (Slot(e.w, a) == NONPTR_DATA_SIB || !e.w.mem[x].Pointer? ==> e.o.m[x] == e.w.mem[x])
    ensures Slot(e.w, a) != NONPTR_DATA_SIB ==> Relocated(e.f, e.o.c.fwd, e.w.mem[x], e.o.m[x])
  {
    OlderWordAt(e, a, x);
    FlippedChunk(e, a);
    assert RestKept(e.f, e.o.m, x) && ExtMoved(e.f, e.o.c.fwd, e.o.m, x);
    if Slot(e.w, a) == NONPTR_DATA_SIB { OlderDataIsNotScanned(e, a, x); }
  }

  lemma OlderDataIsNotScanned(e: Clean, a: nat, x: int)
    requires Labels(e) && Chunk(e.w, a) && AgeAt(e.w, a) > e.k && Slot(e.w, a) == NONPTR_DATA_SIB &&
        a - OldHeader(e.w, a) <= x < a + Length(e.w, a)
    ensures x !in e.f.ext
  {
    WordKeptIn(e.w, e.k, e.bases, e.grants, e.n, a, x);
  }

  lemma OlderShape(e: Clean, a: nat)
    requires Labels(e) && Outer(e) && Chunk(e.w, a) && AgeAt(e.w, a) > e.k
    ensures Chunk(e.r, a) && OldHeader(e.r, a) == OldHeader(e.w, a) && Length(e.r, a) == Length(e.w, a) &&
        Weak(e.r, a) == Weak(e.w, a)
    ensures KindAt(e.w, a) != RO_CONSCELL_KIND ==> TagOf(e.r, a) == TagOf(e.w, a)
    ensures KindAt(e.w, a) == RO_CONSCELL_KIND ==> !e.r.mem[a].Tagword?
  {
    FlippedChunk(e, a);
    OlderChunk(e, a);
    OlderWordMoved(e, a, a);
    if KindAt(e.w, a) != RO_CONSCELL_KIND { OlderWordMoved(e, a, a - 1); }
  }

  // ------------------------------------------------------------------ copies

  /** Where the copies lie and what they hold. */
  ghost predicate Copies(e: Clean) {
    && IsClean(e) && WellFormed(e.f) && |e.o.copied| == |e.n.sibs| && SameBuffers(e.n.sibs, e.o.copied)
    && InvFree(e.f, Free(e.o.copied)) && InvOrg(e.f, Free(e.o.copied), e.o.c.fwd, e.o.c.org)
    && InvCover(e.f, Free(e.o.copied), e.o.c.org) && InvImage(e.f, e.o.c.fwd, e.o.c.org)
    && LiveGraphCopied(e.f, Free(e.o.copied), e.o.c.fwd, e.o.m)
    && |e.o.sibs| == |e.o.copied| && (forall i {:trigger e.o.sibs[i]} ::
        0 <= i < |e.o.sibs| ==> SibFinal(e.o.copied[i], e.o.sibs[i], i, e.k, e.w.k))
    && (forall a {:trigger DestSwept(e.f, MaxSwept(e.k, e.w.k), a)} :: DestSwept(e.f, MaxSwept(e.k, e.w.k), a))
  }

  /** Word j of the copy of a live chunk lies in the new part of its sib. */
  lemma CopyPlace(e: Clean, a: int, j: int)
    requires Copies(e) && a in e.o.c.fwd && InChunk(e.f, a, j)
    ensures var i, p := Dest(e.f, a), e.o.c.fwd[a] + j;
      && 0 <= i < |e.n.sibs| && i < 4 * MaxSwept(e.k, e.w.k) && i % 4 == Slot(e.f, a) && SibOk(e.f, i)
      && e.n.sibs[i].firstFree <= p < e.o.copied[i].firstFree <= e.n.sibs[i].limit
  {
    var i := Dest(e.f, a);
    assert DestSwept(e.f, MaxSwept(e.k, e.w.k), a) && SibOk(e.f, i) && Free(e.o.copied)[i] == e.o.copied[i].firstFree;
    assert InItsSib(e.f, Free(e.o.copied), e.o.c.fwd, a, j);
  }

  /** It is coloured as part of the copy. */
  lemma CopyZone(e: Clean, a: int, j: int)
    requires Copies(e) && a in e.o.c.fwd && InChunk(e.f, a, j)
    ensures var p := e.o.c.fwd[a] + j;
      && 0 <= p < |e.w.zone| && e.f.zone[p] == New(Dest(e.f, a)) && p in e.o.c.org && e.o.c.org[p] == a + j
      && 0 <= a + j < |e.f.zone| && e.f.zone[a + j] == Old(a) && e.r.zone[p] == Old(e.o.c.fwd[a])
  {
    var p := e.o.c.fwd[a] + j;
    assert ExtentOk(e.f, a, a + j) && ImageOk(e.f, e.o.c.fwd, e.o.c.org, a + j);
    assert OriginOk(e.f, Free(e.o.copied), e.o.c.fwd, p, a + j) && ZoneOk(e.f, p);
    assert RestZoneAt(e, p);
  }

  /** Every copied word is a word of the copy of a live chunk. */
  lemma CopiedFrom(e: Clean, x: int) returns (a: int, j: int)
    requires Copies(e) && x in e.o.c.org && e.o.c.org[x] >= 0
    ensures InChunk(e.f, a, j) && a in e.o.c.fwd && x == e.o.c.fwd[a] + j
  {
    var y := e.o.c.org[x];
    assert OriginOk(e.f, Free(e.o.copied), e.o.c.fwd, x, y) && ZoneOk(e.f, y);
    a, j := e.f.zone[y].chunk, y - e.f.zone[y].chunk;
    assert ChunkOk(e.f, a);
  }

  lemma CopyOf(e: Clean, a: int)
    requires Labels(e) && Copies(e) && a in e.o.c.fwd && Chunk(e.f, a)
    ensures var t := e.o.c.fwd[a];
      && InChunk(e.f, a, 0) && 0 < t < |e.w.zone| && Chunk(e.r, t) && 0 <= Dest(e.f, a)
      && AgeAt(e.r, t) == SibAge(Dest(e.f, a)) && KindAt(e.r, t) == KindAt(e.f, a) == KindAt(e.w, a) && Chunk(e.w, a) &&
          AgeAt(e.w, a) <= e.k
  {
    hide Labels, Copies;
    FlipChunkOk(e, a);
    CopyPlace(e, a, 0);
    CopyZone(e, a, 0);
    FlipChunkIsOld(e, a);
    FlippedChunk(e, a);
    BufferLabel(e, Dest(e.f, a), e.o.c.fwd[a]);
  }

  lemma FlipChunkIsOld(e: Clean, a: int)
    requires Labels(e) && Chunk(e.f, a)
    ensures Chunk(e.w, a) && AgeAt(e.w, a) <= e.k
  {
  }

  lemma FlipChunkOk(e: Clean, a: int)
    requires Copies(e) && Chunk(e.f, a)
    ensures ChunkOk(e.f, a) && InChunk(e.f, a, 0) && InChunk(e.f, a, Length(e.f, a) - 1) &&
        InChunk(e.f, a, -(NewHeader(e.f, a) as int))
    ensures |e.w.mem| == |e.w.zone| == |e.f.mem| == |e.f.zone| == |e.r.zone| == |e.r.mem| && Sizes(e)
  {
    assert ChunkOk(e.f, a);
  }

  predicate Sizes(e: Clean) {
    && |e.w.mem| == |e.w.zone| == |e.f.mem| == |e.f.zone| == |e.r.zone| == |e.r.mem| && e.r.mem == e.o.m &&
        e.r.sibs == e.o.sibs && e.f.sibs == e.n.sibs
    && |e.o.sibs| == |e.n.sibs| == |e.o.copied| && e.f.k == e.k && e.r.k == e.w.k && e.f.b2s == e.n.b2s &&
        e.r.b2s == e.o.b2s && e.r.ext == e.w.ext
    && e.r.cards == e.o.cards && e.r.huge == e.o.huge && e.r.quires == e.o.quires && e.f.mem == e.n.m &&
        e.f.huge == e.w.huge && e.f.quires == e.w.quires
  }

  lemma SizesOf(e: Clean)
    requires Copies(e)
    ensures Sizes(e)
  {
  }

  lemma ColourOf(e: Clean, x: int)
    requires Copies(e) && 0 <= x < |e.r.zone|
    ensures Sizes(e) && e.r.zone[x] == RestZone(e.w, e.f, e.o, x)
    ensures e.r.zone[x].Old? && e.f.zone[x].New? ==> x in e.o.c.org && e.o.c.org[x] >= 0
  {
    assert RestZoneAt(e, x);
  }

  /** A copy has the shape of its original; only a weakref's tagword may have changed, to a nulled one. */
  lemma CopyShape(e: Clean, a: int)
    requires Labels(e) && Copies(e) && a in e.o.c.fwd && Chunk(e.f, a)
    ensures var t := e.o.c.fwd[a];
      && Chunk(e.r, t) && OldHeader(e.r, t) == NewHeader(e.f, a) == OldHeader(e.f, a) &&
          Length(e.r, t) == Length(e.f, a) >= 1
      && Slot(e.r, t) == Slot(e.f, a) == KindAt(e.w, a) - 1 && KindAt(e.r, t) == KindAt(e.w, a) && t < |e.r.mem|
      && (if KindAt(e.w, a) == RO_CONSCELL_KIND then !e.r.mem[t].Tagword? else 0 < t && GoodTag(KindAt(e.w, a),
          e.r.mem[t - 1]))
      && (Weak(e.r, t) ==> Weak(e.f, a)) && (Aligned(e.r, t) ==> Aligned(e.f, a))
  {
    var t := e.o.c.fwd[a];
    CopyOf(e, a);
    FlippedChunk(e, a);
    assert ChunkOk(e.f, a) && MovedWord(e.f, e.o.c.fwd, e.o.m, a, 0) && MovedWord(e.f, e.o.c.fwd, e.o.m, a, -1);
  }

  // ------------------------------------------------------------------ the new heap is well formed

  lemma RestZones(e: Clean, x: int)
    requires Labels(e) && Copies(e) && Outer(e)
    ensures ZoneOk(e.r, x)
  {
    hide Labels, Copies, Outer;
    SizesOf(e);
    if 0 <= x < |e.r.zone| {
      ColourOf(e, x);
      if e.r.zone[x].Old? {
        if e.f.zone[x].New? {
          var a, j := CopiedFrom(e, x);
          CopyZone(e, a, j);
          CopyShape(e, a);
        } else {
          OldZone(e, x);
          OlderShape(e, e.w.zone[x].chunk);
        }
      }
    }
  }

  lemma OldZone(e: Clean, x: int)
    requires Labels(e)
    ensures ZoneOk(e.w, x)
  {
  }

  lemma RestExtents(e: Clean, a: int, x: int)
    requires Labels(e) && Copies(e) && Outer(e)
    ensures ExtentOk(e.r, a, x)
  {
    hide Labels, Copies, Outer;
    if Chunk(e.r, a) && 0 <= x < |e.r.zone| && a - OldHeader(e.r, a) <= x < a + Length(e.r, a) {
      var kind, b := RestChunk(e, a);
      if kind {
        FlipChunkOk(e, b);
        CopyShape(e, b);
        CopyZone(e, b, x - a);
      } else {
        OlderShape(e, a);
        OlderWordAt(e, a, x);
      }
    }
  }

  /** A chunk of the new heap is a copy of a live chunk or a chunk that was not cleaned. */
  lemma RestChunk(e: Clean, t: int) returns (copy: bool, a: int)
    requires Labels(e) && Copies(e) && Chunk(e.r, t)
    ensures if copy then Chunk(e.f, a) && a in e.o.c.fwd && e.o.c.fwd[a] == t
            else a == t && Chunk(e.w, t) && AgeAt(e.w, t) > e.k
  {
    assert RestZoneAt(e, t);
    copy, a := false, t;
    if e.f.zone[t].New? {
      var b, j := CopiedFrom(e, t);
      CopyZone(e, b, j);
      copy, a := true, b;
    }
  }

  lemma RestChunkOk(e: Clean, t: nat)
    requires Labels(e) && Copies(e) && Outer(e) && Chunk(e.r, t)
    ensures ChunkOk(e.r, t) && HomeOk(e.r, t) && AgeAt(e.r, t) >= 1
  {
    var copy, a := RestChunk(e, t);
    if copy {
      CopyIsOk(e, a);
    } else {
      OlderIsOk(e, t);
    }
  }

  lemma CopyIsOk(e: Clean, a: int)
    requires Labels(e) && Copies(e) && a in e.o.c.fwd && Chunk(e.f, a)
    ensures var t := e.o.c.fwd[a]; 0 < t && ChunkOk(e.r, t) && HomeOk(e.r, t) && AgeAt(e.r, t) >= 1
    ensures var t, i := e.o.c.fwd[a], Dest(e.f,
        a); 0 <= i < |e.r.sibs| && (t < e.r.sibs[i].seniorEnd <==> i < 4 * e.k && i / 4 + 1 < e.w.k)
  {
    hide Labels, Copies, ChunkOk, HomeOk, InChunk, SibOk, GoodTag;
    FlipChunkOk(e, a);
    CopyOf(e, a);
    CopyShape(e, a);
    FlippedChunk(e, a);
    CopyPlace(e, a, 0);
    CopyPlace(e, a, Length(e.f, a) - 1);
    CopyPlace(e, a, -(NewHeader(e.f, a) as int));
    CopyHome(e, a);
    RestDest(e, Dest(e.f, a));
    HomeIsOk(e, a);
  }

  /** Shape and home together make the copy a chunk. */
  lemma HomeIsOk(e: Clean, a: int)
    requires a in e.o.c.fwd && Chunk(e.f, a) && Sizes(e) && 0 <= Dest(e.f, a) < |e.r.sibs| && Dest(e.f, a) < 4 * e.w.k
    requires var t, i := e.o.c.fwd[a], Dest(e.f, a); var s := e.r.sibs[i];
      && 0 < t < |e.r.mem| && Chunk(e.r, t) && AgeAt(e.r, t) == SibAge(i) && KindAt(e.r, t) == i % 4 + 1 &&
          Slot(e.r, t) == i % 4
      && OldHeader(e.r, t) == NewHeader(e.f, a) && Length(e.r, t) == Length(e.f, a) >= 1
      && (if KindAt(e.r, t) == RO_CONSCELL_KIND then !e.r.mem[t].Tagword? else GoodTag(KindAt(e.r, t), e.r.mem[t - 1]))
      && s.start <= t - NewHeader(e.f, a) && t + Length(e.f, a) <= s.firstFree <= |e.r.mem|
      && (if t < s.seniorEnd then t + Length(e.f, a) <= s.seniorEnd else s.seniorEnd <= t - NewHeader(e.f, a))
      && (t < s.seniorEnd ==> i / 4 + 1 < e.w.k) && s.promoted == (if i / 4 + 1 == e.w.k then i else i + 4) &&
          |e.r.sibs| == 4 * e.w.k
    ensures var t := e.o.c.fwd[a]; ChunkOk(e.r, t) && HomeOk(e.r, t) && AgeAt(e.r, t) >= 1
  {
  }

  /** The copy lies in its sib, all on one side of the new boundary. */
  lemma CopyHome(e: Clean, a: int)
    requires Labels(e) && Copies(e) && a in e.o.c.fwd && InChunk(e.f, a, 0) && Dest(e.f, a) >= 0
    requires Dest(e.f, a) < |e.n.sibs| && InChunk(e.f, a, Length(e.f, a) - 1) &&
        InChunk(e.f, a, -(NewHeader(e.f, a) as int))
    requires var t, i := e.o.c.fwd[a], Dest(e.f, a);
      && e.n.sibs[i].firstFree <= t - NewHeader(e.f, a) &&
          t + Length(e.f, a) <= e.o.copied[i].firstFree <= e.n.sibs[i].limit && SibOk(e.f, i)
    ensures var t, i := e.o.c.fwd[a], Dest(e.f, a); i < |e.r.sibs| && var s := e.r.sibs[i];
      && s.firstFree <= |e.r.mem| && s.start <= t - NewHeader(e.f, a) && t + Length(e.f, a) <= s.firstFree && Active(s)
      && (t < s.seniorEnd <==> i < 4 * e.k && i / 4 + 1 < e.w.k)
      && (if t < s.seniorEnd then t + Length(e.f, a) <= s.seniorEnd else s.seniorEnd <= t - NewHeader(e.f, a))
  {
    var i := Dest(e.f, a);
    assert SameBuffer(e.n.sibs[i], e.o.copied[i]) && SibFinal(e.o.copied[i], e.o.sibs[i], i, e.k, e.w.k);
    assert SibRests(e.w, i);
    assert i < 4 * e.k ==> Flipped(e.w.sibs, e.n.sibs, e.requested, e.nursery, i, e.bases[i / 4], e.grants[i / 4]);
  }

  lemma OlderIsOk(e: Clean, a: nat)
    requires Labels(e) && Copies(e) && Outer(e) && Chunk(e.w, a) && AgeAt(e.w, a) > e.k
    ensures ChunkOk(e.r, a) && HomeOk(e.r, a) && AgeAt(e.r, a) >= 1 && ChunkPlace(e.r, a) == ChunkPlace(e.w, a)
  {
    FlippedChunk(e, a);
    OlderChunk(e, a);
    OlderShape(e, a);
    var h := SibIndex(AgeAt(e.w, a), KindAt(e.w, a));
    SibUnchanged(e, h);
  }

  /** A sib that is not being cleaned may have grown, no more. */
  lemma SibUnchanged(e: Clean, i: nat)
    requires Labels(e) && Copies(e) && 4 * e.k <= i < |e.n.sibs|
    ensures |e.r.sibs| == |e.w.sibs| && SibRests(e.w, i) &&
        Free(e.o.copied)[i] == e.r.sibs[i].firstFree >= e.w.sibs[i].firstFree
    ensures e.r.sibs[i] == e.w.sibs[i].(firstFree := e.r.sibs[i].firstFree, sweptEnd := e.r.sibs[i].sweptEnd)
  {
    assert SameBuffer(e.n.sibs[i], e.o.copied[i]) && SibFinal(e.o.copied[i], e.o.sibs[i], i, e.k, e.w.k) &&
        SibRests(e.w, i);
    assert e.n.sibs[i] == e.w.sibs[i] && Free(e.o.copied)[i] == e.o.copied[i].firstFree;
  }

  lemma RestDest(e: Clean, i: int)
    requires Labels(e) && Copies(e) && 0 <= i < |e.n.sibs|
    ensures i < |e.r.sibs| == 4 * e.w.k && e.r.sibs[i].promoted == if i / 4 + 1 == e.w.k then i else i + 4
  {
    assert SameBuffer(e.n.sibs[i], e.o.copied[i]) && SibFinal(e.o.copied[i], e.o.sibs[i], i, e.k, e.w.k) &&
        SibRests(e.w, i);
    assert i < 4 * e.k ==> Flipped(e.w.sibs, e.n.sibs, e.requested, e.nursery, i, e.bases[i / 4], e.grants[i / 4]);
  }

  // ------------------------------------------------------------------ sibs

  lemma RestSib(e: Clean, i: nat)
    requires Labels(e) && Copies(e) && i < |e.r.sibs|
    ensures SibOk(e.r, i) && SibRests(e.r, i) && i < |e.n.sibs| && e.r.sibs[i].limit <= e.n.sibs[i].limit &&
        e.r.sibs[i].start == e.n.sibs[i].start
    ensures e.r.sibs[i].firstFree == Free(e.o.copied)[i] && e.n.sibs[i].firstFree <= e.r.sibs[i].firstFree &&
        SibOk(e.f, i)
    ensures e.r.sibs[i].sweptEnd == e.o.copied[i].sweptEnd && e.o.copied[i].firstFree == e.r.sibs[i].firstFree
  {
    assert SameBuffer(e.n.sibs[i], e.o.copied[i]) && SibFinal(e.o.copied[i], e.o.sibs[i], i, e.k, e.w.k) &&
        SibRests(e.w, i);
    assert SibOk(e.f, i) && SibOk(e.w, i) && Free(e.o.copied)[i] == e.o.copied[i].firstFree;
    assert i < 4 * e.k ==> Flipped(e.w.sibs, e.n.sibs, e.requested, e.nursery, i, e.bases[i / 4], e.grants[i / 4]);
  }

  lemma RestAreas(e: Clean, i: int, x: int)
    requires Labels(e) && Copies(e)
    ensures AreaOk(e.r, i, x) && AreaLabelOk(e.r, i, x)
  {
    hide Labels, Copies;
    SizesOf(e);
    if 0 <= i < |e.r.sibs| {
      RestSib(e, i);
      if e.r.sibs[i].start <= x < e.r.sibs[i].limit {
        BufferLabel(e, i, x);
        if e.r.sibs[i].firstFree <= x { FreeColour(e, i, x); }
      }
    }
  }

  lemma FreeColour(e: Clean, i: nat, x: int)
    requires Labels(e) && Copies(e) && i < |e.r.sibs| && e.r.sibs[i].firstFree <= x < e.r.sibs[i].limit
    ensures 0 <= x < |e.r.zone| && e.r.zone[x] == New(i)
  {
    RestSib(e, i);
    assert AreaOk(e.f, i, x) && RestZoneAt(e, x);
    assert x in e.o.c.org ==> OriginOk(e.f, Free(e.o.copied), e.o.c.fwd, x, e.o.c.org[x]);
  }

  lemma NewIsCopied(e: Clean, i: nat, x: int)
    requires Labels(e) && Copies(e) && i < |e.r.sibs| && i % 4 != NONPTR_DATA_SIB &&
        e.n.sibs[i].firstFree <= x < e.r.sibs[i].firstFree
    ensures x in e.o.c.org && e.o.c.org[x] >= 0
  {
    RestSib(e, i);
    assert CoverOk(e.f, Free(e.o.copied), e.o.c.org, i, x);
  }

  lemma RestUsed(e: Clean, i: int, x: int)
    requires Labels(e) && Copies(e) && forall j, y {:trigger UsedOk(e.w, j, y)} :: UsedOk(e.w, j, y)
    ensures UsedOk(e.r, i, x)
  {
    hide Labels, Copies;
    SizesOf(e);
    if 0 <= i < |e.r.sibs| && i % 4 != NONPTR_DATA_SIB && e.r.sibs[i].start <= x < e.r.sibs[i].firstFree {
      RestSib(e, i);
      if e.n.sibs[i].firstFree <= x {
        NewIsCopied(e, i, x);
        var a, j := CopiedFrom(e, x);
        CopyZone(e, a, j);
      } else {
        FlippedSib(e, i);
        assert UsedOk(e.w, i, x);
        UsedIsOlder(e, i, x);
        OlderWordAt(e, e.w.zone[x].chunk, x);
      }
    }
  }

  lemma FlippedSib(e: Clean, i: nat)
    requires Labels(e) && i < |e.n.sibs|
    ensures |e.w.sibs| == |e.n.sibs| && if i < 4 * e.k then e.n.sibs[i].firstFree == e.n.sibs[i].start
        else e.n.sibs[i] == e.w.sibs[i]
  {
    if i < 4 * e.k { assert Flipped(e.w.sibs, e.n.sibs, e.requested, e.nursery, i, e.bases[i / 4], e.grants[i / 4]); }
  }

  /** Words in use before the clean, in a sib that still has them, are of uncleaned chunks. */
  lemma UsedIsOlder(e: Clean, i: nat, x: int)
    requires Labels(e) && i < |e.n.sibs| && e.n.sibs[i].start <= x < e.n.sibs[i].firstFree && 0 <= x < |e.w.zone| &&
        e.w.zone[x].Old?
    ensures 4 * e.k <= i && e.w.sibs[i] == e.n.sibs[i] && ZoneOk(e.w, x) && Chunk(e.w, e.w.zone[x].chunk)
    ensures AgeAt(e.w, e.w.zone[x].chunk) > e.k && SibIndex(AgeAt(e.w, e.w.zone[x].chunk),
        KindAt(e.w, e.w.zone[x].chunk)) == i
  {
    FlippedSib(e, i);
    var a := e.w.zone[x].chunk;
    assert ZoneOk(e.w, x) && HomeOk(e.w, a) && SibOk(e.w, i) && InBuffer(e.w, i, x);
    OldWordKind(e.w, a, x, i);
  }

  // ------------------------------------------------------------------ references

  /** Where a junior or senior of age p / 2 is after a clean of ages 1 to k. */
  function PlaceAfter(k: nat, active: nat, p: int): int {
    if p / 2 > k then p
    else if p % 2 == 0 then (if p / 2 == active then p else p + 1)
    else if p / 2 == k || p / 2 + 1 >= active then p + 1 else p + 2
  }

  /** A clean never reverses the order of two places. */
  lemma PlacesKeepOrder(k: nat, active: nat, p: int, q: int)
    requires 2 <= p <= q <= 2 * active && k <= active
    ensures PlaceAfter(k, active, p) <= PlaceAfter(k, active, q)
  {
  }

  /** A copy is where its place says it goes. */
  lemma CopyPlaceAfter(e: Clean, a: int)
    requires Labels(e) && Copies(e) && a in e.o.c.fwd && Chunk(e.f, a)
    ensures Chunk(e.w, a) && e.o.c.fwd[a] > 0 && ChunkPlace(e.r, e.o.c.fwd[a]) == PlaceAfter(e.k, e.w.k,
        ChunkPlace(e.w, a)) && 2 <= ChunkPlace(e.w, a) <= 2 * e.w.k
  {
    hide Labels, Copies;
    SizesOf(e);
    CopyOf(e, a);
    CopyIsOk(e, a);
    FlippedChunk(e, a);
    RestDest(e, Dest(e.f, a));
  }

  lemma OlderPlaceAfter(e: Clean, a: nat)
    requires Labels(e) && Copies(e) && Outer(e) && Chunk(e.w, a) && AgeAt(e.w, a) > e.k
    ensures ChunkPlace(e.r, a) == ChunkPlace(e.w, a) == PlaceAfter(e.k, e.w.k, ChunkPlace(e.w, a)) &&
        2 <= ChunkPlace(e.w, a) <= 2 * e.w.k
  {
    OlderIsOk(e, a);
    FlippedChunk(e, a);
    var h := SibIndex(AgeAt(e.w, a), KindAt(e.w, a));
    assert SibRests(e.w, h);
  }

  /** What happened to the hugechunks. */
  ghost predicate Huges(e: Clean, lists: seq<seq<nat>>) {
    && HugeListsOk(e.w.huge, lists, 0, e.w.k) && InvHuge(e.f, e.o.hugeMarked, e.o.c, e.o.marked) &&
        Passed(e.o.hugeMarked, e.o.huge, e.k, e.w.k, 1, e.k)
    && (forall d {:trigger MarkIsExact(e.f, e.o.marked, d, HugeLive(e.f, d))} ::
        MarkIsExact(e.f, e.o.marked, d, HugeLive(e.f, d)))
  }

  /** A live hugechunk survives, and moves as a chunk of its place would. */
  lemma HugePlaceAfter(e: Clean, lists: seq<seq<nat>>, d: nat)
    requires IsClean(e) && Huges(e, lists) && d < |e.w.huge| && LiveHuge(e.w.huge[d]) &&
        (e.w.huge[d].age <= e.k ==> HugeLive(e.f, d)) && e.k <= e.w.k
    ensures d < |e.r.huge| && LiveHuge(e.r.huge[d]) &&
        HugePlace(e.r.huge[d]) == PlaceAfter(e.k, e.w.k, HugePlace(e.w.huge[d]))
    ensures e.w.huge[d].age <= e.r.huge[d].age && 2 <= HugePlace(e.w.huge[d]) <= 2 * e.w.k
  {
    assert HugeStateOk(e.w.huge[d], 0, e.w.k) && PassedOne(e.o.hugeMarked, e.o.huge, e.k, e.w.k, 1, e.k, d);
    assert e.o.hugeMarked[d] == MarkedState(e.f.huge[d], d in e.o.marked, e.f.k);
    assert MarkIsExact(e.f, e.o.marked, d, HugeLive(e.f, d));
  }

  /** A word of the new heap that holds a reference got it from a word the clean scanned: a word of a live
      chunk, whose copy it is part of, or the same word outside from-space. */
  lemma ReferenceSource(e: Clean, x: int) returns (y: int)
    requires Labels(e) && Copies(e) && Outer(e) && ScanWord(e.r, x) && e.r.mem[x].Pointer?
    ensures ScanWord(e.f, y) && e.f.mem[y].Pointer? && Relocated(e.f, e.o.c.fwd, e.f.mem[y], e.r.mem[x])
    ensures ScanWord(e.w, y) && e.w.mem[y] == e.f.mem[y]
    ensures if e.f.zone[y].Old? then CopiedWordOf(e, x,
        y) else y == x && e.f.zone[x].Fixed? && e.r.zone[x] == e.w.zone[x] && (e.w.zone[x].Old? || e.w.zone[x].Fixed?)
  {
    hide Labels, Copies, Outer;
    SizesOf(e);
    ColourOf(e, x);
    if x in e.w.ext { RootColour(e, x); }
    if e.f.zone[x].New? {
      var a, j := CopiedFrom(e, x);
      CopyZone(e, a, j);
      CopyShape(e, a);
      y := a + j;
      CopiedReference(e, a, j);
      OldWordScanned(e, y);
    } else {
      y := x;
      OuterReference(e, x);
    }
  }

  /** Word x is the copy of word y of a live chunk. */
  ghost predicate CopiedWordOf(e: Clean, x: int, y: int) {
    && 0 <= y < |e.f.zone| && e.f.zone[y].Old? && 0 <= x < |e.r.zone| && |e.w.zone| == |e.f.zone|
    && var a := e.f.zone[y].chunk;
      a in e.o.c.fwd && Chunk(e.f, a) && e.r.zone[x] == Old(e.o.c.fwd[a]) && e.w.zone[y] == Old(a) && Live(e.f, a) &&
          x == e.o.c.fwd[a] + y - a
  }

  lemma CopiedReference(e: Clean, a: int, j: int)
    requires Copies(e) && a in e.o.c.fwd && InChunk(e.f, a, j) && Slot(e.f, a) != NONPTR_DATA_SIB
    requires 0 <= e.o.c.fwd[a] + j < |e.o.m| && e.o.m[e.o.c.fwd[a] + j].Pointer? && 0 <= a + j < |e.f.mem|
    ensures Relocated(e.f, e.o.c.fwd, e.f.mem[a + j], e.o.m[e.o.c.fwd[a] + j]) && e.f.mem[a + j].Pointer? &&
        Live(e.f, a)
  {
    hide LiveGraphCopied, Live;
    MovedReference(e.f, Free(e.o.copied), e.o.c.fwd, e.o.m, a, j);
  }

  lemma OldWordScanned(e: Clean, y: int)
    requires Labels(e) && 0 <= y < |e.f.zone| && e.f.zone[y].Old? && ScanWord(e.f, y)
    ensures ScanWord(e.w, y) && e.w.mem[y] == e.f.mem[y] && e.w.zone[y] == e.f.zone[y]
  {
    OldZone(e, y);
    FlipScanWord(e.w, e.k, e.bases, e.grants, e.n, y);
  }

  lemma OuterReference(e: Clean, x: int)
    requires Labels(e) && Copies(e) && Outer(e) && ScanWord(e.r, x) && e.f.zone[x].Fixed? && e.r.mem[x].Pointer?
    ensures ScanWord(e.f, x) && ScanWord(e.w, x) && e.w.mem[x] == e.f.mem[x] && e.f.mem[x].Pointer?
    ensures Relocated(e.f, e.o.c.fwd, e.f.mem[x], e.r.mem[x]) && e.r.zone[x] == e.w.zone[x]
  {
    OldZone(e, x);
    assert RestZoneAt(e, x);
    if e.r.zone[x].Old? {
      var a := e.w.zone[x].chunk;
      OlderChunk(e, a);
      OlderWordAt(e, a, x);
    } else {
      RootColour(e, x);
    }
    assert ExtMoved(e.f, e.o.c.fwd, e.o.m, x);
    FlipScanWord(e.w, e.k, e.bases, e.grants, e.n, x);
  }

  /** No to-space has been put around a root. */
  lemma NewWordIsNoRoot(e: Clean, x: int)
    requires Labels(e) && Copies(e) && 0 <= x < |e.f.zone| && e.f.zone[x].New?
    ensures x !in e.w.ext
  {
    assert ZoneOk(e.f, x);
    var i := e.f.zone[x].sib;
    FlippedSib(e, i);
    assert SibOk(e.f, i);
    if i < 4 * e.k {
      assert Flipped(e.w.sibs, e.n.sibs, e.requested, e.nursery, i, e.bases[i / 4], e.grants[i / 4]);
      assert InWords(e.bases, e.grants, i / 4, x);
    } else {
      assert AreaOk(e.w, i, x);
    }
  }

  /** Root locations are outside everything. */
  lemma RootColour(e: Clean, x: int)
    requires Labels(e) && Copies(e) && x in e.w.ext
    ensures x in e.f.ext && 0 <= x < |e.f.zone| && e.w.zone[x].Fixed? && e.f.zone[x].Fixed? && e.r.zone[x].Fixed?
  {
    assert RestZoneAt(e, x);
    if e.f.zone[x].New? { NewWordIsNoRoot(e, x); }
  }

  /** What a scanned word of the heap at rest may rely on. */
  ghost predicate Scanned0(e: Clean, y: int, v: nat) {
    && ScanWord(e.w, y) && ScanWord(e.f, y) && e.w.mem[y] == e.f.mem[y] == Pointer(v)
    && TargetOk(e.w, y) && LabelOk(e.w, y) && CodeLives(e.w, y)
    && (e.f.zone[y].Old? ==> Live(e.f, e.f.zone[y].chunk))
  }

  /** What a reference to v has become when it is now one to v1. */
  ghost predicate Landed(e: Clean, v: nat, v1: nat) {
    if AgeAt(e.w, v) <= e.w.k then
      && (if KindAt(e.r, v1) == CODE_KIND then Code(e.r, v1) &&
          LiveHuge(e.r.huge[HugeAt(e.r.b2s, e.r.quires, v1)]) else Chunk(e.r, v1))
      && PointeePlace(e.r, v1) == PlaceAfter(e.k, e.w.k, PointeePlace(e.w, v)) && 2 <= PointeePlace(e.w, v) <= 2 * e.w.k
      && PointeeAge(e.r, v1) >= PointeeAge(e.f, v1) && (KindAt(e.w, v) != CODE_KIND ==> KindAt(e.r, v1) != CODE_KIND)
    else v1 == v && AgeAt(e.r, v) > e.w.k && KindAt(e.r, v) != CODE_KIND && PointeeAge(e.r, v) > e.w.k
  }

  lemma LandsOnCopy(e: Clean, v: nat)
    requires Labels(e) && Copies(e) && v in e.o.c.fwd && Chunk(e.f, v)
    ensures e.o.c.fwd[v] >= 0 && Landed(e, v, e.o.c.fwd[v]) && KindAt(e.r, e.o.c.fwd[v]) != CODE_KIND
  {
    hide Labels, Copies;
    SizesOf(e);
    CopyOf(e, v);
    CopyPlaceAfter(e, v);
    FlippedChunk(e, v);
    FlipChunkOk(e, v);
    CopyPlace(e, v, 0);
    NewLabel(e, Dest(e.f, v), e.o.c.fwd[v]);
  }

  lemma NewLabel(e: Clean, i: nat, x: nat)
    requires Labels(e) && i < |e.n.sibs| && e.n.sibs[i].start <= x < e.n.sibs[i].limit
    ensures AgeAt(e.f, x) == SibAge(i) && KindAt(e.f, x) == SibSlot(i) + 1
  {
    assert AreaLabelOk(e.f, i, x);
  }

  lemma LandsOnOlder(e: Clean, v: nat)
    requires Labels(e) && Copies(e) && Outer(e) && Chunk(e.w, v) && AgeAt(e.w, v) > e.k
    ensures Landed(e, v, v) && KindAt(e.r, v) != CODE_KIND
  {
    hide Labels, Copies, Outer;
    SizesOf(e);
    FlippedChunk(e, v);
    OlderChunk(e, v);
    OlderPlaceAfter(e, v);
  }

  lemma LandsOnCode(e: Clean, lists: seq<seq<nat>>, y: int, v: nat)
    requires Labels(e) && Copies(e) && Huges(e, lists) && Scanned0(e, y, v) && KindAt(e.w, v) == CODE_KIND &&
        KindAt(e.f, v) == CODE_KIND && AgeAt(e.f, v) == AgeAt(e.w, v)
    ensures Landed(e, v, v) && AgeAt(e.w, v) <= e.w.k
  {
    hide Huges, Live;
    var d := HugeAt(e.w.b2s, e.w.quires, v);
    CodeKept(e, v);
    HugeInRange(e, lists, d);
    hide Labels, Copies;
    SizesOf(e);
    if e.w.huge[d].age <= e.k {
      CodeIsNotChunk(e, v);
      assert HugeWord(e.f, y, d);
    }
    HugePlaceAfter(e, lists, d);
  }

  lemma HugeInRange(e: Clean, lists: seq<seq<nat>>, d: int)
    requires IsClean(e) && Labels(e) && Huges(e, lists) && 0 <= d < |e.w.huge| && LiveHuge(e.w.huge[d])
    ensures 1 <= e.w.huge[d].age <= e.w.k && |e.r.huge| == |e.w.huge| && e.k <= e.w.k && IsClean(e)
  {
    assert HugeStateOk(e.w.huge[d], 0, e.w.k);
  }

  lemma CodeIsNotChunk(e: Clean, v: nat)
    requires Copies(e) && KindAt(e.f, v) == CODE_KIND
    ensures !Chunk(e.f, v)
  {
    CodeIsNoChunk(e.f, v);
  }

  lemma Lands(e: Clean, lists: seq<seq<nat>>, y: int, v: nat, v1: nat)
    requires Labels(e) && Copies(e) && Outer(e) && Huges(e, lists) && Scanned0(e, y, v) &&
        Relocated(e.f, e.o.c.fwd, Pointer(v), Pointer(v1))
    ensures Landed(e, v, v1)
  {
    hide Labels, Copies, Outer, Huges, Landed, Live;
    ScannedLabels(e, y, v);
    if Chunk(e.f, v) {
      LandsOnCopy(e, v);
    } else if KindAt(e.w, v) == CODE_KIND {
      LandsOnCode(e, lists, y, v);
    } else if AgeAt(e.w, v) <= e.w.k {
      LandsOnOlder(e, v);
    } else {
      LandsOutside(e, v);
    }
  }

  lemma LandsOutside(e: Clean, v: nat)
    requires Labels(e) && SibidFor(e.n.b2s, v) == SibidFor(e.w.b2s, v) && AgeAt(e.w, v) > e.w.k &&
        KindAt(e.w, v) != CODE_KIND
    ensures Landed(e, v, v)
  {
    ForeignKept(e, v);
  }

  /** The flip has not changed the label of what a scanned word refers to. */
  lemma ScannedLabels(e: Clean, y: int, v: nat)
    requires Labels(e) && Copies(e) && Scanned0(e, y, v)
    ensures SibidFor(e.n.b2s, v) == SibidFor(e.w.b2s, v) && AgeAt(e.f, v) == AgeAt(e.w, v) &&
        KindAt(e.f, v) == KindAt(e.w, v)
    ensures AgeAt(e.w, v) <= e.w.k ==> Chunk(e.w, v) || Code(e.w, v)
    ensures Chunk(e.w, v) && !Chunk(e.f, v) ==> AgeAt(e.w, v) > e.k
    ensures KindAt(e.w, v) == CODE_KIND ==> Code(e.w, v)
  {
    OldZoneIfInside(e, y);
    FlipScanWord(e.w, e.k, e.bases, e.grants, e.n, y);
    if Chunk(e.w, v) { FlippedChunk(e, v); }
  }

  lemma OldZoneIfInside(e: Clean, y: int)
    requires Labels(e)
    ensures ZoneOk(e.w, y)
  {
    if 0 <= y < |e.w.zone| { OldZone(e, y); }
  }

  // ------------------------------------------------------------------ the new heap's references

  ghost predicate References(e: Clean, lists: seq<seq<nat>>) {
    && Labels(e) && Copies(e) && Outer(e) && Huges(e, lists)
    && (forall y {:trigger CodeLives(e.w, y)} :: CodeLives(e.w, y)) &&
        (forall y {:trigger OrderedWord(e.w, y)} :: OrderedWord(e.w, y))
  }

  /** A reference of the new heap: where it came from and where it leads. */
  lemma Reference(e: Clean, lists: seq<seq<nat>>, x: int) returns (y: int, v: nat)
    requires References(e, lists) && ScanWord(e.r, x) && e.r.mem[x].Pointer?
    ensures 0 <= y < |e.w.mem| == |e.f.mem| == |e.w.zone| == |e.f.zone| == |e.r.zone| &&
        e.w.mem[y] == e.f.mem[y] == Pointer(v)
    ensures ScanWord(e.w, y) && Landed(e, v, e.r.mem[x].addr)
    ensures if e.f.zone[y].Old? then CopiedWordOf(e, x,
        y) else y == x && e.f.zone[x].Fixed? && e.r.zone[x] == e.w.zone[x] && (e.w.zone[x].Old? || e.w.zone[x].Fixed?)
  {
    hide Labels, Copies, Outer, Huges, Landed, Live;
    y := ReferenceSource(e, x);
    v := e.w.mem[y].addr;
    SizesOf(e);
    SourceIsScanned(e, lists, y, v);
    Lands(e, lists, y, v, e.r.mem[x].addr);
  }

  lemma SourceIsScanned(e: Clean, lists: seq<seq<nat>>, y: int, v: nat)
    requires References(e, lists) && ScanWord(e.w, y) && ScanWord(e.f, y) && e.w.mem[y] == e.f.mem[y] == Pointer(v)
    requires e.f.zone[y].Old? ==> Live(e.f, e.f.zone[y].chunk)
    ensures Scanned0(e, y, v)
  {
    assert TargetOk(e.w, y) && LabelOk(e.w, y) && CodeLives(e.w, y);
  }

  lemma RestTarget(e: Clean, lists: seq<seq<nat>>, quireList: seq<nat>, x: int)
    requires References(e, lists) && QuiresOk(e.o.b2s, e.o.quires, e.o.huge, quireList)
    ensures TargetOk(e.r, x) && LabelOk(e.r, x) && CodeLives(e.r, x)
  {
    if ScanWord(e.r, x) && e.r.mem[x].Pointer? {
      hide References;
      var y, v := Reference(e, lists, x);
      var v1 := e.r.mem[x].addr;
      CleanFields(e, lists);
      QuireLabel(e.r.b2s, e.r.quires, e.r.huge, quireList, v1);
    }
  }

  lemma CleanFields(e: Clean, lists: seq<seq<nat>>)
    requires References(e, lists)
    ensures Sizes(e)
  {
  }

  /** A word of an immutable chunk leads to no younger place than the chunk's. */
  lemma PlacesFollow(e: Clean, lists: seq<seq<nat>>, x: int, y: int, v: nat)
    requires References(e, lists) && 0 <= x < |e.r.mem| == |e.r.zone| && e.r.mem[x].Pointer? &&
        Landed(e, v, e.r.mem[x].addr)
    requires 0 <= y < |e.w.mem| == |e.w.zone| && e.w.mem[y] == Pointer(v) && e.w.zone[y].Old? &&
        Immutable(e.w, e.w.zone[y].chunk) && ScanWord(e.w, y)
    requires if e.f.zone[y].Old? then CopiedWordOf(e, x, y) else y == x && e.r.zone[x] == e.w.zone[x]
    requires AgeAt(e.w, v) <= e.w.k
    ensures e.r.zone[x].Old? && e.r.zone[x].chunk >= 0 &&
        ChunkPlace(e.r, e.r.zone[x].chunk) <= PointeePlace(e.r, e.r.mem[x].addr)
  {
    assert OrderedWord(e.w, y);
    OldZoneIfInside(e, y);
    var a := e.w.zone[y].chunk;
    FlippedChunk(e, a);
    hide Labels, Copies, Outer, Huges, Live;
    if e.f.zone[y].Old? {
      CopyPlaceAfter(e, a);
    } else {
      NotCopiedIsOlder(e, x);
      OlderPlaceAfter(e, a);
    }
    PlacesKeepOrder(e.k, e.w.k, ChunkPlace(e.w, a), PointeePlace(e.w, v));
  }

  /** A word that is part of the same chunk as before is part of a chunk that was not cleaned. */
  lemma NotCopiedIsOlder(e: Clean, x: int)
    requires Labels(e) && Copies(e) && 0 <= x < |e.r.zone| && e.r.zone[x] == e.w.zone[x] && e.w.zone[x].Old? &&
        !e.f.zone[x].Old?
    ensures Chunk(e.w, e.w.zone[x].chunk) && AgeAt(e.w, e.w.zone[x].chunk) > e.k
  {
    OldZone(e, x);
    FlippedChunk(e, e.w.zone[x].chunk);
  }

  lemma RestOrdered(e: Clean, lists: seq<seq<nat>>, x: int)
    requires References(e, lists)
    ensures OrderedWord(e.r, x)
  {
    if 0 <= x < |e.r.mem| && |e.r.zone| == |e.r.mem| && e.r.zone[x].Old? && Immutable(e.r, e.r.zone[x].chunk) &&
        e.r.mem[x].Pointer? && AgeAt(e.r, e.r.mem[x].addr) <= e.r.k {
      hide References, Landed;
      CleanFields(e, lists);
      WeakIsRw(e.r, e.r.zone[x].chunk);
      var y, v := Reference(e, lists, x);
      SourceIsImmutable(e, lists, x, y);
      LandedInside(e, v, e.r.mem[x].addr);
      PlacesFollow(e, lists, x, y, v);
    }
  }

  lemma LandedInside(e: Clean, v: nat, v1: nat)
    requires Landed(e, v, v1) && AgeAt(e.r, v1) <= e.w.k
    ensures AgeAt(e.w, v) <= e.w.k
  {
  }

  lemma WeakIsRw(w: Flip, a: int)
    requires Immutable(w, a)
    ensures a >= 0 && Slot(w, a) != NONPTR_DATA_SIB
  {
  }

  lemma SourceIsImmutable(e: Clean, lists: seq<seq<nat>>, x: int, y: int)
    requires References(e, lists) && 0 <= x < |e.r.zone| == |e.w.zone| == |e.f.zone| && 0 <= y < |e.w.zone|
    requires e.r.zone[x].Old? && Immutable(e.r, e.r.zone[x].chunk)
    requires if e.f.zone[y].Old? then CopiedWordOf(e, x, y) else y == x && e.r.zone[x] == e.w.zone[x]
    ensures e.w.zone[y].Old? && Immutable(e.w, e.w.zone[y].chunk)
  {
    if e.f.zone[y].Old? {
      var a := e.f.zone[y].chunk;
      FlipChunkIsOld(e, a);
      FlippedChunk(e, a);
      hide Labels, Copies, Outer, Huges, Live;
      CopyShape(e, a);
    } else {
      NotCopiedIsOlder(e, x);
      OlderShape(e, e.w.zone[x].chunk);
      OlderChunk(e, e.w.zone[x].chunk);
    }
  }

  lemma RestWeakTarget(e: Clean, lists: seq<seq<nat>>, a: int)
    requires References(e, lists)
    ensures WeakTargetOk(e.r, a)
  {
    if a >= 0 && Chunk(e.r, a) && Weak(e.r, a) && a < |e.r.mem| && e.r.mem[a].Pointer? &&
        AgeAt(e.r, e.r.mem[a].addr) <= e.r.k {
      CleanFields(e, lists);
      var y, v := Reference(e, lists, a);
      WeakSource(e, lists, a, y, v);
    }
  }

  lemma WeakSource(e: Clean, lists: seq<seq<nat>>, a: int, y: int, v: nat)
    requires References(e, lists) && a >= 0 && Chunk(e.r, a) && Weak(e.r, a) && Sizes(e) && a < |e.r.mem| &&
        0 <= y < |e.w.mem| && e.w.mem[y] == Pointer(v)
    requires if e.f.zone[y].Old? then CopiedWordOf(e, a, y) else y == a && e.r.zone[a] == e.w.zone[a]
    ensures AgeAt(e.w, v) <= e.w.k ==> KindAt(e.w, v) != CODE_KIND
  {
    hide Labels, Copies, Outer, Huges, Live;
    if e.f.zone[y].Old? {
      CopyShape(e, y);
      FlippedChunk(e, y);
    } else {
      NotCopiedIsOlder(e, a);
      OlderShape(e, a);
    }
    WeakLeadsToChunk(e, y, v);
  }

  lemma WeakLeadsToChunk(e: Clean, y: nat, v: nat)
    requires Labels(e) && Chunk(e.w, y) && Weak(e.w, y) && y < |e.w.mem| && e.w.mem[y] == Pointer(v)
    ensures AgeAt(e.w, v) <= e.w.k ==> KindAt(e.w, v) != CODE_KIND
  {
    assert WeakTargetOk(e.w, y);
    if AgeAt(e.w, v) <= e.w.k { PlainChunk(e, v); }
  }

  lemma PlainChunk(e: Clean, v: nat)
    requires Labels(e) && Chunk(e.w, v)
    ensures KindAt(e.w, v) != CODE_KIND
  {
    FlippedChunk(e, v);
  }

  // ------------------------------------------------------------------ the new heap's cards

  ghost predicate CardsAfter(e: Clean) {
    && CardReady(e.f, e.o.cards) && CardsHold(e.f, e.o.m, e.o.cards, e.o.c) && AllVisited(e.f, e.o.c)
    && |e.o.cards| == e.w.k && (forall a {:trigger a in e.o.c.chain} ::
        a in e.o.c.chain ==> Chunk(e.f, a) && Weak(e.f, a))
  }

  /** A word of the new heap that the cards account for. */
  lemma CoveredWord(e: Clean, lists: seq<seq<nat>>, i: nat, x: int)
    requires References(e, lists) && CardsAfter(e) && i < |e.r.sibs| && i % 4 == RW_POINTERS_SIB && 0 <= x < |e.r.mem|
    requires Carded(e.f, e.o.c, i, x) && e.r.mem[x].Pointer? &&
        PointeeAge(e.r, e.r.mem[x].addr) >= PointeeAge(e.f, e.r.mem[x].addr)
    ensures i / 4 < |e.r.cards| && Covers(e.r, e.r.cards[i / 4], SibAge(i), x, e.r.mem[x])
  {
    assert CardOk(e.f, e.o.m, e.o.cards, e.o.c, i, x);
  }

  lemma NewWordIsCarded(e: Clean, i: nat, x: int)
    requires Labels(e) && Copies(e) && CardsAfter(e) && i < |e.r.sibs| && i % 4 == RW_POINTERS_SIB &&
        e.n.sibs[i].firstFree <= x < e.r.sibs[i].firstFree
    requires !Link(e.f, e.o.c.org, e.o.c.chain, x)
    ensures Carded(e.f, e.o.c, i, x)
  {
    RestSib(e, i);
    NewIsCopied(e, i, x);
    assert AreaOk(e.f, i, x) && VisitedIfPointer(e.f, e.o.c, x);
  }

  lemma OldWordIsCarded(e: Clean, i: nat, x: int)
    requires Labels(e) && Copies(e) && CardsAfter(e) && i < |e.r.sibs| && i % 4 == RW_POINTERS_SIB &&
        e.r.sibs[i].start <= x < e.n.sibs[i].firstFree
    requires UsedOk(e.w, i, x) && !OnRiskyCard(e.f, i, x)
    ensures Carded(e.f, e.o.c, i, x) && i >= 4 * e.k && 0 <= x < |e.f.zone|
  {
    RestSib(e, i);
    FlippedSib(e, i);
    UsedIsOlder(e, i, x);
    OlderWordAt(e, e.w.zone[x].chunk, x);
  }

  /** A weakref's slot leads to nothing younger, so that its card need not say so. */
  lemma WeakSlotIsCovered(e: Clean, lists: seq<seq<nat>>, i: nat, x: int, y: int, v: nat)
    requires References(e, lists) && i < |e.r.sibs| && 0 <= x < |e.r.mem| && Sizes(e) && 0 <= y < |e.w.mem| &&
        e.w.mem[y] == Pointer(v) && ScanWord(e.w, y)
    requires e.r.mem[x].Pointer? && Landed(e, v, e.r.mem[x].addr) && CopiedWordOf(e, x, y) &&
        Weak(e.w, e.w.zone[y].chunk)
    requires e.f.zone[x] == New(i) && SibAge(i) <= e.w.k
    ensures PointeeAge(e.r, e.r.mem[x].addr) >= SibAge(i)
  {
    if AgeAt(e.w, v) <= e.w.k {
      PlacesFollow(e, lists, x, y, v);
      var a := e.f.zone[y].chunk;
      CopyOf(e, a);
      CopyZoneOf(e, a, x, y);
      PlaceIsAge(e.r, e.r.mem[x].addr);
    }
  }

  lemma CopyZoneOf(e: Clean, a: int, x: int, y: int)
    requires Labels(e) && Copies(e) && CopiedWordOf(e, x, y) && a == e.f.zone[y].chunk && e.f.zone[x].New?
    ensures e.f.zone[x] == New(Dest(e.f, a))
  {
    FlipZones(e.w, e.k, e.bases, e.grants, e.n, y);
    assert ExtentOk(e.f, a, y);
    assert ChunkOk(e.f, a);
    FlippedChunk(e, a);
    CopyZone(e, a, y - a);
  }

  lemma PlaceIsAge(w: Flip, v: nat)
    ensures PointeePlace(w, v) <= 2 * PointeeAge(w, v) + 1
  {
  }

  /** Word x of sib i was not on a card at risk: it is new, or its card was not. */
  ghost predicate OffRisk(e: Clean, i: int, x: int) {
    i < 0 || i >= |e.n.sibs| || x >= e.n.sibs[i].firstFree || !OnRiskyCard(e.f, i, x)
  }

  lemma RestCovered(e: Clean, lists: seq<seq<nat>>, i: int, x: int)
    requires References(e, lists) && CardsAfter(e) && (forall j, y {:trigger UsedOk(e.w, j, y)} :: UsedOk(e.w, j, y))
    ensures OffRisk(e, i, x) ==> CardCovers(e.r, i, x)
  {
    if OffRisk(e, i, x) && 0 <= i < |e.r.sibs| && i % 4 == RW_POINTERS_SIB &&
        e.r.sibs[i].start <= x < e.r.sibs[i].firstFree && x < |e.r.mem| {
      hide References, CardsAfter, Landed;
      CleanFields(e, lists);
      UsedAndSized(e, lists, i, x);
      if e.r.mem[x].Pointer? {
        var y, v := Reference(e, lists, x);
        CoveredReference(e, lists, i, x, y, v);
      }
    }
  }

  lemma UsedAndSized(e: Clean, lists: seq<seq<nat>>, i: nat, x: int)
    requires References(e, lists) && CardsAfter(e) && i < |e.r.sibs| && i % 4 == RW_POINTERS_SIB &&
        e.r.sibs[i].start <= x < e.r.sibs[i].firstFree
    requires forall j, y {:trigger UsedOk(e.w, j, y)} :: UsedOk(e.w, j, y)
    ensures UsedOk(e.w, i, x) && i / 4 < |e.r.cards| && SibAge(i) <= e.w.k && 0 <= x < |e.r.zone| && e.r.zone[x].Old? &&
        e.r.zone[x].chunk >= 0
    ensures ScanWord(e.r, x)
  {
    RestSib(e, i);
    RestUsed(e, i, x);
    RestZones(e, x);
    RestScanned(e, i, x);
  }

  /** A word in use in a pointer sib belongs to a chunk of pointers. */
  lemma RestScanned(e: Clean, i: nat, x: int)
    requires Labels(e) && Copies(e) && Outer(e) && i < |e.r.sibs| && i % 4 != NONPTR_DATA_SIB &&
        e.r.sibs[i].start <= x < e.r.sibs[i].firstFree
    requires 0 <= x < |e.r.zone| && e.r.zone[x].Old? && e.r.zone[x].chunk >= 0 && ZoneOk(e.r, x)
    ensures ScanWord(e.r, x)
  {
    hide Labels, Copies, Outer;
    SizesOf(e);
    var t := e.r.zone[x].chunk;
    RestChunkOk(e, t);
    RestSib(e, i);
    RestAreas(e, i, x);
    var h := SibIndex(AgeAt(e.r, t), KindAt(e.r, t));
    RestSib(e, h);
    RestAreas(e, h, x);
    assert AreaLabelOk(e.r, i, x) && AreaLabelOk(e.r, h, x);
  }

  /** A settled link is the copy of a word of a weakref. */
  lemma LinkSource(e: Clean, i: nat, x: int, y: int)
    requires Labels(e) && Copies(e) && CardsAfter(e) && i < |e.r.sibs| &&
        e.n.sibs[i].firstFree <= x < e.r.sibs[i].firstFree && 0 <= x < |e.f.zone| == |e.w.zone|
    requires Link(e.f, e.o.c.org, e.o.c.chain, x) && 0 <= y < |e.f.zone|
    requires if e.f.zone[y].Old? then CopiedWordOf(e, x, y) else y == x && e.f.zone[x].Fixed?
    ensures e.f.zone[x] == New(i) && CopiedWordOf(e, x, y) && Weak(e.w, e.w.zone[y].chunk)
  {
    hide Labels, Copies, CardsAfter, Live;
    NewZoneOf(e, i, x);
    CopiedOrigin(e, x, y);
    var a := e.f.zone[y].chunk;
    ChainIsWeak(e, a);
    FlippedChunk(e, a);
  }

  lemma NewZoneOf(e: Clean, i: nat, x: int)
    requires Labels(e) && Copies(e) && i < |e.r.sibs| && e.n.sibs[i].firstFree <= x < e.r.sibs[i].firstFree
    ensures 0 <= x < |e.f.zone| && e.f.zone[x] == New(i)
  {
    RestSib(e, i);
    assert AreaOk(e.f, i, x);
  }

  lemma CopiedOrigin(e: Clean, x: int, y: int)
    requires Labels(e) && Copies(e) && CopiedWordOf(e, x, y)
    ensures x in e.o.c.org && e.o.c.org[x] == y && Chunk(e.w, e.f.zone[y].chunk)
  {
    var a := e.f.zone[y].chunk;
    assert ZoneOk(e.f, y) && ChunkOk(e.f, a);
    FlippedChunk(e, a);
    CopyZone(e, a, y - a);
  }

  lemma ChainIsWeak(e: Clean, a: int)
    requires CardsAfter(e)
    ensures a in e.o.c.chain ==> Weak(e.f, a)
  {
  }

  lemma CoveredReference(e: Clean, lists: seq<seq<nat>>, i: nat, x: int, y: int, v: nat)
    requires References(e, lists) && CardsAfter(e) && Sizes(e) && i < |e.r.sibs| && i % 4 == RW_POINTERS_SIB &&
        e.r.sibs[i].start <= x < e.r.sibs[i].firstFree
    requires UsedOk(e.w, i, x) && i / 4 < |e.r.cards| && SibAge(i) <= e.w.k && 0 <= x < |e.r.mem| && e.r.mem[x].Pointer?
    requires 0 <= y < |e.w.mem| && e.w.mem[y] == Pointer(v) && ScanWord(e.w, y) && Landed(e, v, e.r.mem[x].addr)
    requires if e.f.zone[y].Old? then CopiedWordOf(e, x,
        y) else y == x && e.f.zone[x].Fixed? && e.r.zone[x] == e.w.zone[x]
    requires OffRisk(e, i, x)
    ensures Covers(e.r, e.r.cards[i / 4], SibAge(i), x, e.r.mem[x])
  {
    hide CardsAfter, Live;
    if AgeAt(e.w, v) <= e.w.k {
      RestSib(e, i);
      if x < e.n.sibs[i].firstFree {
        OldWordIsCarded(e, i, x);
        CoveredWord(e, lists, i, x);
      } else if Link(e.f, e.o.c.org, e.o.c.chain, x) {
        LinkSource(e, i, x, y);
        WeakSlotIsCovered(e, lists, i, x, y, v);
      } else {
        NewWordIsCarded(e, i, x);
        CoveredWord(e, lists, i, x);
      }
    }
  }

  // ------------------------------------------------------------------ the new heap is at rest

  ghost function CleanOf(w: Flip, k: nat, requested: seq<nat>, nursery: nat, bases: seq<nat>, grants: seq<nat>,
      n: After, o: Outcome): Clean
    requires |n.m| == |w.zone|
  {
    Clean(w, Flips(w, k, n), Rest(w, k, n, o), k, requested, nursery, bases, grants, n, o)
  }

  lemma CleanParts(w: Flip, k: nat, roots: seq<nat>, lists: seq<seq<nat>>, quireList: seq<nat>, requested: seq<nat>,
      nursery: nat,
                   bases: seq<nat>, grants: seq<nat>, n: After, o: Outcome)
    requires Ended(w, k, roots, lists, quireList, requested, nursery, bases, grants, n, o)
    ensures |n.m| == |w.zone|
    ensures var e := CleanOf(w, k, requested, nursery, bases, grants, n, o); References(e, lists) && CardsAfter(e)
  {
    var e := CleanOf(w, k, requested, nursery, bases, grants, n, o);
    FlippingParts(w, k, roots, lists, quireList, requested, nursery, bases, grants, n);
    assert IsClean(e);
    assert Labels(e);
    assert Copies(e);
  }

  lemma RestWellFormed(e: Clean, lists: seq<seq<nat>>, quireList: seq<nat>)
    requires References(e, lists) && QuiresOk(e.o.b2s, e.o.quires, e.o.huge, quireList)
    ensures WellFormed(e.r)
  {
    hide References, Landed;
    CleanFields(e, lists);
    forall x ensures ZoneOk(e.r, x) { RestZone1(e, lists, x); }
    forall a: nat | Chunk(e.r, a) ensures ChunkOk(e.r, a) { RestChunk1(e, lists, a); }
    forall a, x ensures ExtentOk(e.r, a, x) { RestExtent1(e, lists, a, x); }
    forall i | 0 <= i < |e.r.sibs| ensures SibOk(e.r, i) { RestSib1(e, lists, i); }
    forall i, x ensures AreaOk(e.r, i, x) { RestArea1(e, lists, i, x); }
    forall x ensures TargetOk(e.r, x) { RestTarget(e, lists, quireList, x); }
    forall a ensures WeakTargetOk(e.r, a) { RestWeakTarget(e, lists, a); }
  }

  lemma RestZone1(e: Clean, lists: seq<seq<nat>>, x: int)
    requires References(e, lists)
    ensures ZoneOk(e.r, x)
  {
    RestZones(e, x);
  }

  lemma RestChunk1(e: Clean, lists: seq<seq<nat>>, a: int)
    requires References(e, lists)
    ensures a >= 0 && Chunk(e.r, a) ==> ChunkOk(e.r, a) && AgeAt(e.r, a) >= 1
    ensures HomeOk(e.r, a)
  {
    if a >= 0 && Chunk(e.r, a) { RestChunkOk(e, a); }
  }

  lemma RestExtent1(e: Clean, lists: seq<seq<nat>>, a: int, x: int)
    requires References(e, lists)
    ensures ExtentOk(e.r, a, x)
  {
    RestExtents(e, a, x);
  }

  lemma RestSib1(e: Clean, lists: seq<seq<nat>>, i: int)
    requires References(e, lists)
    ensures 0 <= i < |e.r.sibs| ==> SibOk(e.r, i)
    ensures SibRests(e.r, i)
  {
    if 0 <= i < |e.r.sibs| { RestSib(e, i); }
  }

  lemma RestArea1(e: Clean, lists: seq<seq<nat>>, i: int, x: int)
    requires References(e, lists)
    ensures AreaOk(e.r, i, x) && AreaLabelOk(e.r, i, x)
  {
    RestAreas(e, i, x);
  }

  lemma RestMap(e: Clean, lists: seq<seq<nat>>, i: int)
    requires References(e, lists) && CardsAfter(e)
    ensures MapOk(e.r, e.r.cards, i)
  {
    CleanFields(e, lists);
    if 0 <= i < |e.r.sibs| && i % 4 == RW_POINTERS_SIB && Active(e.r.sibs[i]) {
      RestSib(e, i);
      assert MapOk(e.f, e.o.cards, i);
    }
  }

  lemma RestCardReady(e: Clean, lists: seq<seq<nat>>, quireList: seq<nat>)
    requires References(e, lists) && CardsAfter(e) && QuiresOk(e.o.b2s, e.o.quires, e.o.huge, quireList)
    ensures CardReady(e.r, e.r.cards)
  {
    hide References, Landed, CardsAfter;
    CleanFields(e, lists);
    forall i, x ensures AreaLabelOk(e.r, i, x) { RestArea1(e, lists, i, x); }
    forall x ensures LabelOk(e.r, x) { RestTarget(e, lists, quireList, x); }
    forall i ensures MapOk(e.r, e.r.cards, i) { RestMap(e, lists, i); }
    forall a ensures DestOk(e.r, a) {
      RestChunk1(e, lists, a);
      SibCount(e, lists);
    }
  }

  lemma SibCount(e: Clean, lists: seq<seq<nat>>)
    requires References(e, lists)
    ensures |e.r.sibs| == 4 * e.w.k && e.r.k == e.w.k >= 1 && |e.r.mem| <= |e.r.b2s| * BOOK
  {
  }

  lemma RestRoots(e: Clean, lists: seq<seq<nat>>, roots: seq<nat>)
    requires References(e, lists) && RootsOk(e.w, {}, roots) && e.w.ext == (set x | x in roots :: x as int)
    ensures RootsOk(e.r, {}, roots)
  {
    CleanFields(e, lists);
    forall j | 0 <= j < |roots| ensures RootOk(e.r, roots[j]) {
      assert roots[j] in roots;
      RestRoot(e, lists, roots[j]);
    }
  }

  lemma RestRoot(e: Clean, lists: seq<seq<nat>>, x: nat)
    requires References(e, lists) && RootOk(e.w, x) && x in e.w.ext
    ensures RootOk(e.r, x)
  {
    RootColour(e, x);
    forall i ensures !InBuffer(e.r, i, x) {
      assert !InBuffer(e.w, i, x);
      if 0 <= i < |e.r.sibs| {
        RestSib(e, i);
        RootApart(e, i, x);
      }
    }
  }

  lemma RootApart(e: Clean, i: nat, x: nat)
    requires Labels(e) && i < |e.n.sibs| && x in e.w.ext && !InBuffer(e.w, i, x)
    ensures !(e.n.sibs[i].start <= x < e.n.sibs[i].limit)
  {
    FlippedSib(e, i);
    if i < 4 * e.k && e.n.sibs[i].start <= x < e.n.sibs[i].limit { GrantPlace(e, i, x); }
  }

  /** A new to-space lies in what the operating system granted, where no root is. */
  lemma GrantPlace(e: Clean, i: nat, x: nat)
    requires Labels(e) && i < 4 * e.k && i < |e.n.sibs| && e.n.sibs[i].start <= x < e.n.sibs[i].limit
    ensures x !in e.w.ext
  {
    assert Flipped(e.w.sibs, e.n.sibs, e.requested, e.nursery, i, e.bases[i / 4], e.grants[i / 4]);
    assert InWords(e.bases, e.grants, i / 4, x);
  }

  lemma RestSweep(e: Clean, lists: seq<seq<nat>>, i: int)
    requires References(e, lists) && SweepDone(e.o.copied, i)
    ensures SweepStart(e.r, i)
  {
    if 0 <= i < |e.r.sibs| { RestSib(e, i); }
  }

  lemma OverParts(w: Flip, k: nat, roots: seq<nat>, lists: seq<seq<nat>>, quireList: seq<nat>, requested: seq<nat>,
      nursery: nat,
                  bases: seq<nat>, grants: seq<nat>, n: After, o: Outcome)
    requires Ended(w, k, roots, lists, quireList, requested, nursery, bases, grants, n, o)
    ensures HugeListsOk(o.huge, o.lists, 0, w.k) && QuiresOk(o.b2s, o.quires, o.huge, quireList) && NoRepeats(quireList)
    ensures RootsOk(w, {}, roots) && w.ext == (set x | x in roots :: x as int) && w.k <= MAX_AGEGROUPS &&
        |o.cards| == w.k
    ensures (forall i, x {:trigger UsedOk(w, i, x)} :: UsedOk(w, i, x)) &&
        (forall i {:trigger SweepDone(o.copied, i)} :: SweepDone(o.copied, i))
  {
  }

  lemma RestIsAtRest(e: Clean, lists: seq<seq<nat>>, roots: seq<nat>, quireList: seq<nat>)
    requires References(e, lists) && CardsAfter(e)
    requires HugeListsOk(e.o.huge, e.o.lists, 0, e.w.k) && QuiresOk(e.o.b2s, e.o.quires, e.o.huge, quireList) &&
        NoRepeats(quireList)
    requires RootsOk(e.w, {}, roots) && e.w.ext == (set x | x in roots :: x as int) && e.w.k <= MAX_AGEGROUPS &&
        |e.o.cards| == e.w.k
    requires (forall i, x {:trigger UsedOk(e.w, i, x)} :: UsedOk(e.w, i, x)) &&
        (forall i {:trigger SweepDone(e.o.copied, i)} :: SweepDone(e.o.copied, i))
    ensures AtRestBut(e.r, roots, e.o.lists, quireList)
  {
    hide References, CardsAfter, HugeListsOk, QuiresOk, RootsOk, WellFormed, CardReady;
    RestWellFormed(e, lists, quireList);
    RestCardReady(e, lists, quireList);
    RestRoots(e, lists, roots);
    RestRecords(e, lists);
    SibCount(e, lists);
    CleanFields(e, lists);
    forall i, x ensures UsedOk(e.r, i, x) { RestUsed1(e, lists, i, x); }
    forall a: nat | Chunk(e.r, a) ensures AgeAt(e.r, a) >= 1 { RestChunk1(e, lists, a); }
    forall a ensures HomeOk(e.r, a) { RestChunk1(e, lists, a); }
    forall i ensures SibRests(e.r, i) { RestSib1(e, lists, i); }
    forall i ensures SweepStart(e.r, i) { RestSweep(e, lists, i); }
    forall x ensures OrderedWord(e.r, x) { RestOrdered(e, lists, x); }
    forall x ensures CodeLives(e.r, x) { RestTarget(e, lists, quireList, x); }
  }

  lemma RestUsed1(e: Clean, lists: seq<seq<nat>>, i: int, x: int)
    requires References(e, lists) && forall j, y {:trigger UsedOk(e.w, j, y)} :: UsedOk(e.w, j, y)
    ensures UsedOk(e.r, i, x)
  {
    RestUsed(e, i, x);
  }

  /** A major clean keeps everything that holds of a heap at rest, but for its cards. */
  lemma CleanRests(w: Flip, k: nat, roots: seq<nat>, lists: seq<seq<nat>>, quireList: seq<nat>, requested: seq<nat>,
      nursery: nat,
                   bases: seq<nat>, grants: seq<nat>, n: After, o: Outcome)
    requires Ended(w, k, roots, lists, quireList, requested, nursery, bases, grants, n, o)
    ensures |n.m| == |w.zone| && AtRestBut(Rest(w, k, n, o), roots, o.lists, quireList)
  {
    CleanParts(w, k, roots, lists, quireList, requested, nursery, bases, grants, n, o);
    OverParts(w, k, roots, lists, quireList, requested, nursery, bases, grants, n, o);
    RestIsAtRest(CleanOf(w, k, requested, nursery, bases, grants, n, o), lists, roots, quireList);
  }

  lemma RestRecords(e: Clean, lists: seq<seq<nat>>)
    requires References(e, lists)
    ensures forall b: nat {:trigger RecordIsCode(e.r.b2s, b)} :: RecordIsCode(e.r.b2s, b)
  {
    forall b: nat ensures RecordIsCode(e.r.b2s, b) {
      RecordKept(e, b);
      RestRecord(e, b);
    }
  }

  lemma RestRecord(e: Clean, b: nat)
    requires Labels(e) && SameRecordAt(e.n.b2s, e.o.b2s, b)
    ensures RecordIsCode(e.r.b2s, b)
  {
    assert FreedBook(e.o.copied, e.n.b2s, e.o.unmapped, 0, 4 * e.k, b);
    assert BookAfter(e.w.b2s, e.n.b2s, e.bases, e.grants, e.k, b) && RecordIsCode(e.w.b2s, b);
    assert b < |e.o.b2s| ==> e.o.b2s[b].kind == e.o.unmapped[b].kind && e.o.b2s[b].id == e.o.unmapped[b].id;
  }
}
