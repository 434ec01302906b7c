/** Copying from from-space to to-space, as a relation between memories.

    A `Flip` is the heap at the moment copying starts; `k` is the oldest agegroup being cleaned (0 for a
    minor clean).  A `Copy` is the progress made so far.  `Inv` relates the two to the memory and the
    allocation pointers.  The lemmas say that each atomic step of the sweepers keeps it. */
module Forwarding {
  import opened HeapTags
  import opened HeapModel

  /** Which part of the address space a word lies in.  One zone per word, so that "disjoint" needs no
      pairwise statement: the chunk a from-space word belongs to, the to-space area of a sib, or a word
      that copying never allocates over. */
  datatype Zone = Old(chunk: int) | New(sib: int) | Fixed

  datatype Flip = Flip(
    mem: seq<Word>, b2s: seq<Sibid>, sibs: seq<Sib>,
    zone: seq<Zone>,
    ext: set<int>,   // pointer words outside from-space: root locations and uncleaned agegroups
    quires: map<nat, Quire>, huge: seq<Huge>,
    cards: seq<CardMap>,
    k: nat)

  /** fwd: from-chunk to its copy.  org: to-space word to the from-space word it copies (or, for an
      alignment gap before the copy of chunk a, -1 - a).  seen: words already relocated.  chain: the
      weakrefs whose referents had not been copied, in the order they were met. */
  datatype Copy = Copy(fwd: map<int, int>, org: map<int, int>, seen: set<int>, chain: seq<int>)

  // ------------------------------------------------------------------ the static view

  function AgeAt(f: Flip, a: nat): nat { SibidFor(f.b2s, a).age }
  function KindAt(f: Flip, a: nat): nat { SibidFor(f.b2s, a).kind }

  predicate Chunk(f: Flip, a: int) { 0 <= a < |f.zone| && f.zone[a] == Old(a) }

  function TagOf(f: Flip, a: int): Word {
    if 0 < a <= |f.mem| then f.mem[a - 1] else HEAP_VOID
  }

  /** A cons cell outside agegroup0 has no tagword. */
  function OldHeader(f: Flip, a: nat): nat {
    if KindAt(f, a) == RO_CONSCELL_KIND then 0 else 1
  }

  function Length(f: Flip, a: nat): nat {
    if KindAt(f, a) == RO_CONSCELL_KIND then 2 else ContentLength(TagOf(f, a))
  }

  predicate PairRecord(tag: Word) { tag == Tagword(2, PAIRS_AND_RECORDS) }

  /** Agegroup0 pairs shed their tagword when they are copied. */
  function NewHeader(f: Flip, a: nat): nat {
    if KindAt(f, a) == RO_CONSCELL_KIND || (KindAt(f, a) == NEW_KIND && PairRecord(TagOf(f, a))) then 0 else 1
  }

  /** The sib slot of a chunk, from its book in agegroups 1.. and from its tagword in agegroup0. */
  function Slot(f: Flip, a: nat): int {
    if KindAt(f, a) != NEW_KIND then KindAt(f, a) - 1
    else SlotForTag(TagOf(f, a))
  }

  function SlotForTag(tag: Word): int {
    if !tag.Tagword? then RO_POINTERS_SIB
    else if PairRecord(tag) then RO_CONSCELL_SIB
    else if tag.btag == FOUR_BYTE_DATA || tag.btag == EIGHT_BYTE_DATA then NONPTR_DATA_SIB
    else if tag.btag == RW_VECTOR_DATA || tag.btag == WEAK_OR_SUSPENSION then RW_POINTERS_SIB
    else RO_POINTERS_SIB
  }

  /** Where a chunk is copied to: a senior goes to the sib for promoted chunks, a junior stays. */
  function Dest(f: Flip, a: nat): int {
    if KindAt(f, a) == NEW_KIND then Slot(f, a)
    else
      var h := SibIndex(AgeAt(f, a), KindAt(f, a));
      if 0 <= h < |f.sibs| && a < f.sibs[h].seniorEnd then f.sibs[h].promoted else h
  }

  predicate Weak(f: Flip, a: nat) {
    TagOf(f, a) == WEAKREF_TAGWORD && Slot(f, a) == RW_POINTERS_SIB
  }

  /** Data that must start on an eight-byte boundary. */
  predicate Aligned(f: Flip, a: nat) {
    Slot(f, a) == NONPTR_DATA_SIB && TagOf(f, a).Tagword? && TagOf(f, a).btag == EIGHT_BYTE_DATA
  }

  predicate GoodTag(kind: nat, tag: Word) {
    tag.Tagword? && (
      (kind == NEW_KIND && tag.btag <= WEAK_OR_SUSPENSION) ||
      (kind == RO_POINTERS_KIND && tag.btag <= RW_VECTOR_HEADER) ||
      (kind == NONPTR_DATA_KIND && (tag.btag == FOUR_BYTE_DATA || tag.btag == EIGHT_BYTE_DATA)) ||
      (kind == RW_POINTERS_KIND && (tag.btag == RW_VECTOR_DATA || tag.btag == WEAK_OR_SUSPENSION)))
    && (tag.btag == WEAK_OR_SUSPENSION ==> tag.len <= if kind == NEW_KIND then WEAK_POINTER else NULLED_WEAK_POINTER)
  }

  predicate ChunkOk(f: Flip, a: nat) {
    && 0 <= a - OldHeader(f, a) && a + Length(f, a) <= |f.mem|
    && Length(f, a) >= 1
    && AgeAt(f, a) <= f.k
    && (KindAt(f, a) == NEW_KIND <==> AgeAt(f, a) == 0)
    && (if KindAt(f, a) == RO_CONSCELL_KIND then !f.mem[a].Tagword? else GoodTag(KindAt(f, a), f.mem[a - 1]))
    && 0 <= Dest(f, a) < |f.sibs| && Dest(f, a) % 4 == Slot(f, a)
  }

  /** The address is in a book of hugechunks and a descriptor covers it. */
  predicate Code(f: Flip, addr: nat) {
    KindAt(f, addr) == CODE_KIND && 0 <= HugeAt(f.b2s, f.quires, addr) < |f.huge|
  }

  /** A pointer into an agegroup being cleaned leads to a chunk or to code. */
  predicate Target(f: Flip, w: Word) {
    w.Pointer? && AgeAt(f, w.addr) <= f.k ==> Chunk(f, w.addr) || Code(f, w.addr)
  }

  predicate ScanWord(f: Flip, x: int) {
    0 <= x < |f.mem| && |f.zone| == |f.mem| &&
    ((f.zone[x].Fixed? && x in f.ext) ||
     (f.zone[x].Old? && 0 <= f.zone[x].chunk && Slot(f, f.zone[x].chunk) != NONPTR_DATA_SIB))
  }

  predicate SibOk(f: Flip, i: int)
    requires 0 <= i < |f.sibs|
  {
    f.sibs[i].start <= f.sibs[i].firstFree <= f.sibs[i].limit <= |f.mem| && (Active(f.sibs[i]) ==> 0 < f.sibs[i].start)
  }

  /** A word in zone Old lies in the extent of its chunk, one in zone New in the free area of its sib. */
  predicate ZoneOk(f: Flip, x: int) {
    0 <= x < |f.zone| && |f.zone| == |f.mem| ==>
      match f.zone[x]
      case Old(a) => Chunk(f, a) && a - OldHeader(f, a) <= x < a + Length(f, a)
      case New(i) => 0 <= i < |f.sibs| && f.sibs[i].firstFree <= x < f.sibs[i].limit
      case Fixed => true
  }

  predicate ExtentOk(f: Flip, a: int, x: int) {
    Chunk(f, a) && 0 <= x < |f.zone| && |f.zone| == |f.mem| && a - OldHeader(f, a) <= x < a + Length(f, a)
    ==> f.zone[x] == Old(a)
  }

  predicate AreaOk(f: Flip, i: int, x: int) {
    0 <= i < |f.sibs| && f.sibs[i].firstFree <= x < f.sibs[i].limit && x < |f.zone| ==> f.zone[x] == New(i)
  }

  predicate TargetOk(f: Flip, x: int) {
    ScanWord(f, x) ==> Target(f, f.mem[x])
  }

  predicate WeakTargetOk(f: Flip, a: int) {
    Chunk(f, a) && Weak(f, a) && a < |f.mem| && f.mem[a].Pointer? && AgeAt(f, f.mem[a].addr) <= f.k
    ==> Chunk(f, f.mem[a].addr)
  }

  ghost predicate WellFormed(f: Flip) {
    && |f.zone| == |f.mem|
    && (forall x {:trigger ZoneOk(f, x)} :: ZoneOk(f, x))
    && (forall a {:trigger ChunkOk(f, a)} :: Chunk(f, a) ==> ChunkOk(f, a))
    && (forall a, x {:trigger ExtentOk(f, a, x)} :: ExtentOk(f, a, x))
    && (forall i {:trigger SibOk(f, i)} :: 0 <= i < |f.sibs| ==> SibOk(f, i))
    && (forall i, x {:trigger AreaOk(f, i, x)} :: AreaOk(f, i, x))
    && (forall x {:trigger TargetOk(f, x)} :: TargetOk(f, x))
    && (forall a {:trigger WeakTargetOk(f, a)} :: WeakTargetOk(f, a))
  }

  // ------------------------------------------------------------------ the moving view

  /** The forwarding mark left in a copied chunk: in the tagword, or in word 0 of a cons cell. */
  predicate Forwarded(f: Flip, m: seq<Word>, a: int, t: int) {
    && Chunk(f, a) && ChunkOk(f, a) && |m| == |f.mem| && 0 < t
    && if KindAt(f, a) == RO_CONSCELL_KIND then m[a] == PairForward(t)
       else m[a - 1] == FORWARDED_CHUNK_TAGWORD && m[a] == Pointer(t)
  }

  /** What a word becomes: pointers to chunks being cleaned lead to their copies, all else is kept. */
  predicate Relocated(f: Flip, fwd: map<int, int>, w: Word, w': Word) {
    if w.Pointer? && Chunk(f, w.addr) then
      w.addr in fwd && 0 < fwd[w.addr] && w' == Pointer(fwd[w.addr])
    else w' == w
  }

  ghost predicate InvFwd(f: Flip, m: seq<Word>, fwd: map<int, int>) {
    forall a {:trigger Forwarded(f, m, a, fwd[a])} :: a in fwd ==> Forwarded(f, m, a, fwd[a])
  }

  predicate UntouchedOk(f: Flip, m: seq<Word>, fwd: map<int, int>, x: int) {
    0 <= x < |m| && |m| == |f.mem| == |f.zone| && f.zone[x].Old? && f.zone[x].chunk !in fwd ==> m[x] == f.mem[x]
  }

  ghost predicate InvUntouched(f: Flip, m: seq<Word>, fwd: map<int, int>) {
    forall x {:trigger UntouchedOk(f, m, fwd, x)} :: UntouchedOk(f, m, fwd, x)
  }

  predicate FixedOk(f: Flip, m: seq<Word>, fwd: map<int, int>, seen: set<int>, x: int) {
    0 <= x < |m| && |m| == |f.mem| == |f.zone| && f.zone[x].Fixed? ==>
      if x in seen then Relocated(f, fwd, f.mem[x], m[x]) else m[x] == f.mem[x]
  }

  ghost predicate InvFixed(f: Flip, m: seq<Word>, fwd: map<int, int>, seen: set<int>) {
    forall x {:trigger FixedOk(f, m, fwd, seen, x)} :: FixedOk(f, m, fwd, seen, x)
  }

  predicate InvFree(f: Flip, ff: seq<nat>) {
    |ff| == |f.sibs| &&
    forall i {:trigger ff[i]} :: 0 <= i < |ff| ==> f.sibs[i].firstFree <= ff[i] <= f.sibs[i].limit
  }

  /** Word p of a to-space is the copy of word x, at the same offset within the chunk. */
  predicate OriginOk(f: Flip, ff: seq<nat>, fwd: map<int, int>, p: int, x: int) {
    && 0 <= p < |f.zone| && |f.zone| == |f.mem| && f.zone[p].New?
    && 0 <= f.zone[p].sib < |ff| && p < ff[f.zone[p].sib]
    && if x >= 0 then
         x < |f.zone| && f.zone[x].Old? && f.zone[x].chunk >= 0 &&
         var a := f.zone[x].chunk;
         a in fwd && a - NewHeader(f, a) <= x && p == fwd[a] + x - a && Dest(f, a) == f.zone[p].sib
       else
         var a := -1 - x;
         Chunk(f, a) && a in fwd && Aligned(f, a) && p == fwd[a] - 2 && Dest(f, a) == f.zone[p].sib
  }

  ghost predicate InvOrg(f: Flip, ff: seq<nat>, fwd: map<int, int>, org: map<int, int>) {
    forall p {:trigger OriginOk(f, ff, fwd, p, org[p])} :: p in org ==> OriginOk(f, ff, fwd, p, org[p])
  }

  /** Every allocated word has an origin; alignment gaps occur only in NONPTR_DATA. */
  predicate CoverOk(f: Flip, ff: seq<nat>, org: map<int, int>, i: int, p: int) {
    0 <= i < |ff| && |ff| == |f.sibs| && f.sibs[i].firstFree <= p < ff[i]
    ==> p in org && (i % 4 != NONPTR_DATA_SIB ==> org[p] >= 0)
  }

  ghost predicate InvCover(f: Flip, ff: seq<nat>, org: map<int, int>) {
    forall i, p {:trigger CoverOk(f, ff, org, i, p)} :: CoverOk(f, ff, org, i, p)
  }

  /** Every word of a copied chunk has a copy. */
  predicate ImageOk(f: Flip, fwd: map<int, int>, org: map<int, int>, x: int) {
    0 <= x < |f.zone| && |f.zone| == |f.mem| && f.zone[x].Old? && f.zone[x].chunk >= 0 && f.zone[x].chunk in fwd
    && f.zone[x].chunk - NewHeader(f, f.zone[x].chunk) <= x
    ==> var p := fwd[f.zone[x].chunk] + x - f.zone[x].chunk; p in org && org[p] == x
  }

  ghost predicate InvImage(f: Flip, fwd: map<int, int>, org: map<int, int>) {
    forall x {:trigger ImageOk(f, fwd, org, x)} :: ImageOk(f, fwd, org, x)
  }

  /** The copy of a word that belongs to a chained weakref; those two words hold chain links instead. */
  predicate Link(f: Flip, org: map<int, int>, chain: seq<int>, p: int) {
    p in org && 0 <= org[p] < |f.zone| && f.zone[org[p]].Old? && f.zone[org[p]].chunk in chain
  }

  predicate ContentOk(f: Flip, m: seq<Word>, c: Copy, p: int) {
    p in c.org && 0 <= p < |m| && |m| == |f.mem| && 0 <= c.org[p] < |m| && !Link(f, c.org, c.chain, p) ==>
      if p in c.seen then Relocated(f, c.fwd, f.mem[c.org[p]], m[p]) else m[p] == f.mem[c.org[p]]
  }

  ghost predicate InvContent(f: Flip, m: seq<Word>, c: Copy) {
    forall p {:trigger ContentOk(f, m, c, p)} :: ContentOk(f, m, c, p)
  }

  predicate Visitable(f: Flip, org: map<int, int>, x: int) {
    0 <= x < |f.zone| && (f.zone[x].Fixed? || (f.zone[x].New? && x in org && 0 <= org[x] < |f.mem|))
  }

  ghost predicate InvSeen(f: Flip, org: map<int, int>, seen: set<int>) {
    forall x {:trigger x in seen} :: x in seen ==> Visitable(f, org, x) && (f.zone[x].Fixed? ==> x in f.ext)
  }

  /** A copied weakref that is not chained had no chance to dangle: its referent was copied already. */
  predicate WeakOk(f: Flip, fwd: map<int, int>, chain: seq<int>, a: int) {
    a in fwd && Chunk(f, a) && a < |f.mem| && Weak(f, a) && a !in chain && f.mem[a].Pointer? && Chunk(f, f.mem[a].addr)
    ==> f.mem[a].addr in fwd
  }

  ghost predicate InvWeak(f: Flip, fwd: map<int, int>, chain: seq<int>) {
    forall a {:trigger WeakOk(f, fwd, chain, a)} :: WeakOk(f, fwd, chain, a)
  }

  // The chain pointer to the j oldest links: the header of the newest of them, or the null pointer.
  function LinkAddress(fwd: map<int, int>, chain: seq<int>, j: nat): int {
    if j == 0 || j > |chain| then 0 else if chain[j - 1] in fwd then fwd[chain[j - 1]] - 1 else 0
  }

  predicate LinkOk(f: Flip, m: seq<Word>, fwd: map<int, int>, chain: seq<int>, j: int) {
    0 <= j < |chain| && |f.mem| == |m| ==>
      var a := chain[j];
      && a in fwd && Chunk(f, a) && a < |m| && Weak(f, a) && f.mem[a].Pointer? && Chunk(f, f.mem[a].addr)
      && 1 < fwd[a] < |m|
      && 0 <= LinkAddress(fwd, chain, j)
      && m[fwd[a] - 1] == MarkPointer(LinkAddress(fwd, chain, j)) && m[fwd[a]] == MarkPointer(f.mem[a].addr)
  }

  ghost predicate InvChain(f: Flip, m: seq<Word>, fwd: map<int, int>, chain: seq<int>, weakrefs: nat) {
    && weakrefs == LinkAddress(fwd, chain, |chain|)
    && (forall j {:trigger LinkOk(f, m, fwd, chain, j)} :: LinkOk(f, m, fwd, chain, j))
    && (forall i, j {:trigger chain[i], chain[j]} :: 0 <= i < j < |chain| ==> chain[i] != chain[j])
  }

  ghost predicate Inv(f: Flip, m: seq<Word>, ff: seq<nat>, weakrefs: nat, c: Copy) {
    && WellFormed(f) && |m| == |f.mem| && InvFree(f, ff)
    && InvFwd(f, m, c.fwd) && InvUntouched(f, m, c.fwd) && InvFixed(f, m, c.fwd, c.seen)
    && InvOrg(f, ff, c.fwd, c.org) && InvCover(f, ff, c.org) && InvImage(f, c.fwd, c.org)
    && InvContent(f, m, c)
    && InvSeen(f, c.org, c.seen) && InvWeak(f, c.fwd, c.chain) && InvChain(f, m, c.fwd, c.chain, weakrefs)
  }

  // ------------------------------------------------------------------ relocating one word

  /** The word that stood at a visitable place when copying began. */
  function Original(f: Flip, org: map<int, int>, x: int): Word
    requires |f.zone| == |f.mem| && Visitable(f, org, x)
  {
    if f.zone[x].Fixed? then f.mem[x] else f.mem[org[x]]
  }

  /** Writing the relocated word over a word not seen before keeps the invariant. */
  lemma VisitKeepsInv(f: Flip, m: seq<Word>, ff: seq<nat>, weakrefs: nat, c: Copy, x: int, w: Word)
    requires Inv(f, m, ff, weakrefs, c)
    requires Visitable(f, c.org, x) && x !in c.seen && (f.zone[x].Fixed? ==> x in f.ext)
    requires if Link(f, c.org, c.chain, x) then w == m[x] else Relocated(f, c.fwd, Original(f, c.org, x), w)
    ensures Inv(f, m[x := w], ff, weakrefs, c.(seen := c.seen + {x}))
  {
    VisitMarks(f, m, c.fwd, x, w);
    VisitFixed(f, m, ff, c, x, w);
    VisitContent(f, m, ff, c, x, w);
    VisitChain(f, m, c, x, w, weakrefs);
  }

  lemma VisitMarks(f: Flip, m: seq<Word>, fwd: map<int, int>, x: int, w: Word)
    requires WellFormed(f) && |m| == |f.mem| && InvFwd(f, m, fwd) && InvUntouched(f, m, fwd)
    requires 0 <= x < |m| && !f.zone[x].Old?
    ensures InvFwd(f, m[x := w], fwd) && InvUntouched(f, m[x := w], fwd)
  {
    var m' := m[x := w];
    forall a | a in fwd ensures Forwarded(f, m', a, fwd[a]) {
      assert Forwarded(f, m, a, fwd[a]);
      assert ExtentOk(f, a, a) && ExtentOk(f, a, a - 1);
    }
    forall y ensures UntouchedOk(f, m', fwd, y) {
      assert UntouchedOk(f, m, fwd, y);
    }
  }

  lemma VisitFixed(f: Flip, m: seq<Word>, ff: seq<nat>, c: Copy, x: int, w: Word)
    requires |m| == |f.mem| == |f.zone| && InvFixed(f, m, c.fwd, c.seen) && InvOrg(f, ff, c.fwd, c.org)
    requires Visitable(f, c.org, x) && x !in c.seen
    requires if Link(f, c.org, c.chain, x) then w == m[x] else Relocated(f, c.fwd, Original(f, c.org, x), w)
    ensures InvFixed(f, m[x := w], c.fwd, c.seen + {x})
  {
    assert x in c.org ==> OriginOk(f, ff, c.fwd, x, c.org[x]);
    var m', seen' := m[x := w], c.seen + {x};
    forall y ensures FixedOk(f, m', c.fwd, seen', y) {
      assert FixedOk(f, m, c.fwd, c.seen, y);
    }
  }

  lemma VisitContent(f: Flip, m: seq<Word>, ff: seq<nat>, c: Copy, x: int, w: Word)
    requires |m| == |f.mem| == |f.zone| && InvContent(f, m, c) && InvOrg(f, ff, c.fwd, c.org)
    requires Visitable(f, c.org, x) && x !in c.seen
    requires if Link(f, c.org, c.chain, x) then w == m[x] else Relocated(f, c.fwd, Original(f, c.org, x), w)
    ensures InvContent(f, m[x := w], c.(seen := c.seen + {x}))
  {
    var m', c' := m[x := w], c.(seen := c.seen + {x});
    forall p ensures ContentOk(f, m', c', p) {
      assert ContentOk(f, m, c, p);
      assert p in c.org ==> OriginOk(f, ff, c.fwd, p, c.org[p]);
    }
  }

  lemma VisitChain(f: Flip, m: seq<Word>, c: Copy, x: int, w: Word, weakrefs: nat)
    requires WellFormed(f) && |m| == |f.mem| && InvImage(f, c.fwd, c.org) && InvChain(f, m, c.fwd, c.chain, weakrefs)
    requires 0 <= x < |m|
    requires Link(f, c.org, c.chain, x) ==> w == m[x]
    ensures InvChain(f, m[x := w], c.fwd, c.chain, weakrefs)
  {
    var m' := m[x := w];
    forall j ensures LinkOk(f, m', c.fwd, c.chain, j) {
      assert LinkOk(f, m, c.fwd, c.chain, j);
      if 0 <= j < |c.chain| {
        LinkWords(f, c.fwd, c.org, c.chain, j);
      }
    }
  }

  /** Both words of a chained weakref are links. */
  lemma LinkWords(f: Flip, fwd: map<int, int>, org: map<int, int>, chain: seq<int>, j: nat)
    requires WellFormed(f) && InvImage(f, fwd, org)
    requires j < |chain| && chain[j] in fwd && Chunk(f, chain[j]) && Weak(f, chain[j])
    ensures var t := fwd[chain[j]]; Link(f, org, chain, t - 1) && Link(f, org, chain, t)
  {
    var a := chain[j];
    assert ChunkOk(f, a);
    assert ExtentOk(f, a, a) && ExtentOk(f, a, a - 1);
    assert ImageOk(f, fwd, org, a) && ImageOk(f, fwd, org, a - 1);
  }

  // ------------------------------------------------------------------ copying one chunk

  /** Where the copy of `a` starts when `free` is the next free word: a gap may align its contents. */
  function CopyBase(f: Flip, a: nat, free: nat): nat {
    if Aligned(f, a) && Even(free) then free + 1 else free
  }

  function CopyAddress(f: Flip, a: nat, free: nat): nat { CopyBase(f, a, free) + NewHeader(f, a) }

  /** Word x after copying `a` to `t` and leaving the forwarding mark; a chained weakref gets links. */
  function CopyWord(f: Flip, m: seq<Word>, a: nat, t: nat, chained: bool, weakrefs: nat, x: nat): Word
    requires Chunk(f, a) && ChunkOk(f, a) && |m| == |f.mem| && x < |m|
  {
    if t - NewHeader(f, a) <= x < t + Length(f, a) then
      if chained then (if x < t then MarkPointer(weakrefs)
                       else if f.mem[a].Pointer? then MarkPointer(f.mem[a].addr) else HEAP_VOID)
      else m[a + x - t]
    else if KindAt(f, a) == RO_CONSCELL_KIND then (if x == a then PairForward(t) else m[x])
    else if x == a - 1 then FORWARDED_CHUNK_TAGWORD else if x == a then Pointer(t) else m[x]
  }

  ghost predicate CopiedTo(f: Flip, m: seq<Word>, m': seq<Word>, a: nat, t: nat, chained: bool, weakrefs: nat) {
    && Chunk(f, a) && ChunkOk(f, a) && |m'| == |m| == |f.mem|
    && forall x {:trigger m'[x]} :: 0 <= x < |m| ==> m'[x] == CopyWord(f, m, a, t, chained, weakrefs, x)
  }

  predicate InCopy(f: Flip, a: nat, t: nat, p: int) { t - NewHeader(f, a) <= p < t + Length(f, a) }

  predicate Gap(f: Flip, a: nat, free: nat, p: int) { p == free && CopyBase(f, a, free) != free }

  ghost function OrgAfter(f: Flip, org: map<int, int>, a: nat, t: nat, free: nat): (r: map<int, int>)
    ensures forall p {:trigger p in r} {:trigger r[p]} ::
      (p in r <==> p in org || InCopy(f, a, t, p) || Gap(f, a, free, p)) &&
      (p in r ==> r[p] == if Gap(f, a, free, p) then -1 - a else if InCopy(f, a, t, p) then a + p - t else org[p])
  {
    var r := org + map p: int | t - NewHeader(f, a) <= p < t + Length(f, a) && InCopy(f, a, t, p) :: a + p - t;
    if CopyBase(f, a, free) != free then r[free := -1 - a] else r
  }

  ghost function CopyAfter(f: Flip, c: Copy, a: nat, t: nat, free: nat, chained: bool): Copy {
    Copy(c.fwd[a := t], OrgAfter(f, c.org, a, t, free), c.seen, if chained then c.chain + [a] else c.chain)
  }

  /** What a copying step needs: an uncopied chunk, room for it, and the right treatment of weakrefs. */
  ghost predicate CopyStep(f: Flip, ff: seq<nat>, c: Copy, a: nat, t: nat, chained: bool) {
    && Chunk(f, a) && ChunkOk(f, a) && a !in c.fwd && |ff| == |f.sibs|
    && t == CopyAddress(f, a, ff[Dest(f, a)]) && t + Length(f, a) <= f.sibs[Dest(f, a)].limit
    && (chained ==> Weak(f, a) && f.mem[a].Pointer? && Chunk(f, f.mem[a].addr))
    && (!chained ==> Weak(f, a) && f.mem[a].Pointer? && Chunk(f, f.mem[a].addr) ==> f.mem[a].addr in c.fwd)
  }

  lemma CopyKeepsInv(f: Flip, m: seq<Word>, ff: seq<nat>, weakrefs: nat, c: Copy, a: nat, t: nat, chained: bool,
      m': seq<Word>)
    requires Inv(f, m, ff, weakrefs, c) && CopyStep(f, ff, c, a, t, chained)
    requires CopiedTo(f, m, m', a, t, chained, weakrefs)
    ensures var i := Dest(f, a);
      Inv(f, m', ff[i := t + Length(f, a)], if chained then t - 1 else weakrefs,
          CopyAfter(f, c, a, t, ff[i], chained)) &&
      Extends(f, c, CopyAfter(f, c, a, t, ff[i], chained))
  {
    CopyArea(f, m, ff, weakrefs, c, a, t, chained);
    CopyMarks(f, m, ff, c, a, t, chained, weakrefs, m');
    CopyFixed(f, m, ff, c, a, t, chained, weakrefs, m');
    CopyOrigins(f, ff, c, a, t, chained);
    CopyCover(f, ff, c, a, t, chained);
    CopyImage(f, ff, c, a, t, chained);
    CopyWeakSeen(f, ff, c, a, t, chained);
    CopyContent(f, m, ff, c, a, t, chained, weakrefs, m');
    CopyChain(f, m, ff, c, a, t, chained, weakrefs, m');
    CopyExtends(f, ff, c, a, t, chained);
  }

  /** Progress never takes back a copy, an origin or a link. */
  predicate OriginKept(f: Flip, c: Copy, c': Copy, p: int) {
    p in c.org ==> p in c'.org && c'.org[p] == c.org[p] && (Link(f, c.org, c.chain, p) <==> Link(f, c'.org, c'.chain,
        p))
  }

  ghost predicate Extends(f: Flip, c: Copy, c': Copy) {
    && c.seen <= c'.seen
    && (forall a {:trigger a in c'.fwd} :: a in c.fwd ==> a in c'.fwd && c'.fwd[a] == c.fwd[a])
    && (forall p {:trigger OriginKept(f, c, c', p)} :: OriginKept(f, c, c', p))
  }

  lemma CopyExtends(f: Flip, ff: seq<nat>, c: Copy, a: nat, t: nat, chained: bool)
    requires InvOrg(f, ff, c.fwd, c.org)
    requires CopyStep(f, ff, c, a, t, chained) && FreeFrom(f, ff, c, a, t)
    ensures Extends(f, c, CopyAfter(f, c, a, t, ff[Dest(f, a)], chained))
  {
    var i := Dest(f, a);
    var c' := CopyAfter(f, c, a, t, ff[i], chained);
    forall p ensures OriginKept(f, c, c', p) {
      if p in c.org {
        assert OriginOk(f, ff, c.fwd, p, c.org[p]);
        assert FreeWord(f, c, i, p) || !(ff[i] <= p < t + Length(f, a));
      }
    }
  }

  lemma ExtendsTransitive(f: Flip, c0: Copy, c1: Copy, c2: Copy)
    requires Extends(f, c0, c1) && Extends(f, c1, c2)
    ensures Extends(f, c0, c2)
  {
    forall a | a in c0.fwd ensures a in c2.fwd && c2.fwd[a] == c0.fwd[a] {
      assert a in c1.fwd;
    }
    forall p ensures OriginKept(f, c0, c2, p) {
      assert OriginKept(f, c0, c1, p) && OriginKept(f, c1, c2, p);
    }
  }

  /** The words a copy takes are free and belong to no chunk. */
  lemma CopyArea(f: Flip, m: seq<Word>, ff: seq<nat>, weakrefs: nat, c: Copy, a: nat, t: nat, chained: bool)
    requires Inv(f, m, ff, weakrefs, c) && CopyStep(f, ff, c, a, t, chained)
    ensures FreeFrom(f, ff, c, a, t) && InvFree(f, ff[Dest(f, a) := t + Length(f, a)])
  {
    var i := Dest(f, a);
    assert SibOk(f, i);
    forall x | ff[i] <= x < t + Length(f, a) ensures FreeWord(f, c, i, x) {
      assert AreaOk(f, i, x);
      assert x in c.org ==> OriginOk(f, ff, c.fwd, x, c.org[x]);
      assert x in c.seen ==> Visitable(f, c.org, x);
    }
  }

  predicate FreeWord(f: Flip, c: Copy, i: nat, x: int) {
    0 <= x < |f.zone| && f.zone[x] == New(i) && x !in c.org && x !in c.seen
  }

  ghost predicate FreeFrom(f: Flip, ff: seq<nat>, c: Copy, a: nat, t: nat) {
    && 0 <= Dest(f, a) < |ff| && 0 < ff[Dest(f, a)] < t + Length(f, a) <= |f.zone|
    && forall x {:trigger FreeWord(f, c, Dest(f, a), x)} ::
        ff[Dest(f, a)] <= x < t + Length(f, a) ==> FreeWord(f, c, Dest(f, a), x)
  }

  lemma CopyMarks(f: Flip, m: seq<Word>, ff: seq<nat>, c: Copy, a: nat, t: nat, chained: bool, weakrefs: nat,
      m': seq<Word>)
    requires WellFormed(f) && |m| == |f.mem| && InvFwd(f, m, c.fwd) && InvUntouched(f, m, c.fwd)
    requires CopyStep(f, ff, c, a, t, chained) && FreeFrom(f, ff, c, a, t)
    requires CopiedTo(f, m, m', a, t, chained, weakrefs)
    ensures InvFwd(f, m', c.fwd[a := t]) && InvUntouched(f, m', c.fwd[a := t])
  {
    var fwd' := c.fwd[a := t];
    forall b | b in fwd' ensures Forwarded(f, m', b, fwd'[b]) {
      assert ChunkOk(f, a) && ExtentOk(f, a, a) && ExtentOk(f, a, a - 1);
      if b == a {
        assert FreeWord(f, c, Dest(f, a), a) || !(ff[Dest(f, a)] <= a < t + Length(f, a));
        assert FreeWord(f, c, Dest(f, a), a - 1) || !(ff[Dest(f, a)] <= a - 1 < t + Length(f, a));
      } else {
        assert Forwarded(f, m, b, c.fwd[b]);
        assert ExtentOk(f, b, b) && ExtentOk(f, b, b - 1);
        assert FreeWord(f, c, Dest(f, a), b) || !(ff[Dest(f, a)] <= b < t + Length(f, a));
        assert FreeWord(f, c, Dest(f, a), b - 1) || !(ff[Dest(f, a)] <= b - 1 < t + Length(f, a));
      }
    }
    forall x ensures UntouchedOk(f, m', fwd', x) {
      assert UntouchedOk(f, m, c.fwd, x);
      assert ExtentOk(f, a, a) && ExtentOk(f, a, a - 1);
      assert FreeWord(f, c, Dest(f, a), x) || !(ff[Dest(f, a)] <= x < t + Length(f, a));
    }
  }

  lemma CopyFixed(f: Flip, m: seq<Word>, ff: seq<nat>, c: Copy, a: nat, t: nat, chained: bool, weakrefs: nat,
      m': seq<Word>)
    requires WellFormed(f) && |m| == |f.mem| && InvFixed(f, m, c.fwd, c.seen)
    requires CopyStep(f, ff, c, a, t, chained) && FreeFrom(f, ff, c, a, t)
    requires CopiedTo(f, m, m', a, t, chained, weakrefs)
    ensures InvFixed(f, m', c.fwd[a := t], c.seen)
  {
    var fwd' := c.fwd[a := t];
    forall x ensures FixedOk(f, m', fwd', c.seen, x) {
      assert FixedOk(f, m, c.fwd, c.seen, x);
      assert ExtentOk(f, a, a) && ExtentOk(f, a, a - 1);
      assert FreeWord(f, c, Dest(f, a), x) || !(ff[Dest(f, a)] <= x < t + Length(f, a));
    }
  }

  lemma CopyOrigins(f: Flip, ff: seq<nat>, c: Copy, a: nat, t: nat, chained: bool)
    requires WellFormed(f) && InvOrg(f, ff, c.fwd, c.org)
    requires CopyStep(f, ff, c, a, t, chained) && FreeFrom(f, ff, c, a, t)
    ensures InvOrg(f, ff[Dest(f, a) := t + Length(f, a)], c.fwd[a := t], OrgAfter(f, c.org, a, t, ff[Dest(f, a)]))
  {
    var i := Dest(f, a);
    var ff', fwd', org' := ff[i := t + Length(f, a)], c.fwd[a := t], OrgAfter(f, c.org, a, t, ff[i]);
    forall p | p in org' ensures OriginOk(f, ff', fwd', p, org'[p]) {
      if ff[i] <= p < t + Length(f, a) {
        assert FreeWord(f, c, i, p);
        assert ExtentOk(f, a, a + p - t);
      } else {
        assert OriginOk(f, ff, c.fwd, p, c.org[p]);
      }
    }
  }

  lemma CopyCover(f: Flip, ff: seq<nat>, c: Copy, a: nat, t: nat, chained: bool)
    requires InvCover(f, ff, c.org)
    requires CopyStep(f, ff, c, a, t, chained) && FreeFrom(f, ff, c, a, t)
    ensures InvCover(f, ff[Dest(f, a) := t + Length(f, a)], OrgAfter(f, c.org, a, t, ff[Dest(f, a)]))
  {
    var i := Dest(f, a);
    var ff', org' := ff[i := t + Length(f, a)], OrgAfter(f, c.org, a, t, ff[i]);
    forall j, p ensures CoverOk(f, ff', org', j, p) {
      assert CoverOk(f, ff, c.org, j, p);
      assert Aligned(f, a) ==> i % 4 == NONPTR_DATA_SIB;
      assert a - NewHeader(f, a) >= 0;
      assert FreeWord(f, c, i, p) || !(ff[i] <= p < t + Length(f, a));
    }
  }

  lemma CopyImage(f: Flip, ff: seq<nat>, c: Copy, a: nat, t: nat, chained: bool)
    requires WellFormed(f) && InvImage(f, c.fwd, c.org)
    requires CopyStep(f, ff, c, a, t, chained) && FreeFrom(f, ff, c, a, t)
    ensures InvImage(f, c.fwd[a := t], OrgAfter(f, c.org, a, t, ff[Dest(f, a)]))
  {
    var i := Dest(f, a);
    var fwd', org' := c.fwd[a := t], OrgAfter(f, c.org, a, t, ff[i]);
    forall x ensures ImageOk(f, fwd', org', x) {
      assert ImageOk(f, c.fwd, c.org, x) && ZoneOk(f, x);
      if 0 <= x < |f.zone| && f.zone[x].Old? && f.zone[x].chunk >= 0 && f.zone[x].chunk in c.fwd {
        var p := c.fwd[f.zone[x].chunk] + x - f.zone[x].chunk;
        assert FreeWord(f, c, i, p) || !(ff[i] <= p < t + Length(f, a));
      }
    }
  }

  lemma CopyWeakSeen(f: Flip, ff: seq<nat>, c: Copy, a: nat, t: nat, chained: bool)
    requires InvSeen(f, c.org, c.seen) && InvWeak(f, c.fwd, c.chain)
    requires CopyStep(f, ff, c, a, t, chained) && FreeFrom(f, ff, c, a, t)
    ensures var c' := CopyAfter(f, c, a, t, ff[Dest(f, a)], chained);
            InvSeen(f, c'.org, c'.seen) && InvWeak(f, c'.fwd, c'.chain)
  {
    var i := Dest(f, a);
    var c' := CopyAfter(f, c, a, t, ff[i], chained);
    forall b ensures WeakOk(f, c'.fwd, c'.chain, b) {
      assert WeakOk(f, c.fwd, c.chain, b);
    }
    forall x | x in c'.seen ensures Visitable(f, c'.org, x) && (f.zone[x].Fixed? ==> x in f.ext) {
      assert Visitable(f, c.org, x);
      assert FreeWord(f, c, i, x) || !(ff[i] <= x < t + Length(f, a));
    }
  }

  lemma CopyContent(f: Flip, m: seq<Word>, ff: seq<nat>, c: Copy, a: nat, t: nat, chained: bool, weakrefs: nat,
      m': seq<Word>)
    requires WellFormed(f) && |m| == |f.mem| && InvContent(f, m, c) && InvOrg(f, ff, c.fwd, c.org) &&
        InvUntouched(f, m, c.fwd)
    requires CopyStep(f, ff, c, a, t, chained) && FreeFrom(f, ff, c, a, t)
    requires CopiedTo(f, m, m', a, t, chained, weakrefs)
    ensures InvContent(f, m', CopyAfter(f, c, a, t, ff[Dest(f, a)], chained))
  {
    var i := Dest(f, a);
    var c' := CopyAfter(f, c, a, t, ff[i], chained);
    forall p ensures ContentOk(f, m', c', p) {
      if p in c'.org && 0 <= p < |m| && 0 <= c'.org[p] < |m| && !Link(f, c'.org, c'.chain, p) {
        if ff[i] <= p < t + Length(f, a) {
          CopiedContent(f, m, ff, c, a, t, chained, weakrefs, m', p);
        } else {
          KeptContent(f, m, ff, c, a, t, chained, weakrefs, m', p);
        }
      }
    }
  }

  lemma CopiedContent(f: Flip, m: seq<Word>, ff: seq<nat>, c: Copy, a: nat, t: nat, chained: bool, weakrefs: nat,
      m': seq<Word>, p: int)
    requires WellFormed(f) && |m| == |f.mem| && InvUntouched(f, m, c.fwd)
    requires CopyStep(f, ff, c, a, t, chained) && FreeFrom(f, ff, c, a, t)
    requires CopiedTo(f, m, m', a, t, chained, weakrefs)
    requires ff[Dest(f, a)] <= p < t + Length(f, a)
    ensures ContentOk(f, m', CopyAfter(f, c, a, t, ff[Dest(f, a)], chained), p)
  {
    assert FreeWord(f, c, Dest(f, a), p);
    assert InCopy(f, a, t, p) ==> ExtentOk(f, a, a + p - t) && UntouchedOk(f, m, c.fwd, a + p - t);
  }

  lemma KeptContent(f: Flip, m: seq<Word>, ff: seq<nat>, c: Copy, a: nat, t: nat, chained: bool, weakrefs: nat,
      m': seq<Word>, p: int)
    requires WellFormed(f) && |m| == |f.mem| && InvContent(f, m, c) && InvOrg(f, ff, c.fwd, c.org)
    requires CopyStep(f, ff, c, a, t, chained) && FreeFrom(f, ff, c, a, t)
    requires CopiedTo(f, m, m', a, t, chained, weakrefs)
    requires !(ff[Dest(f, a)] <= p < t + Length(f, a))
    ensures ContentOk(f, m', CopyAfter(f, c, a, t, ff[Dest(f, a)], chained), p)
  {
    assert ContentOk(f, m, c, p);
    assert p in c.org ==> OriginOk(f, ff, c.fwd, p, c.org[p]);
    assert ExtentOk(f, a, a) && ExtentOk(f, a, a - 1);
  }

  lemma CopyChain(f: Flip, m: seq<Word>, ff: seq<nat>, c: Copy, a: nat, t: nat, chained: bool, weakrefs: nat,
      m': seq<Word>)
    requires WellFormed(f) && |m| == |f.mem| && InvChain(f, m, c.fwd, c.chain, weakrefs) && InvOrg(f, ff, c.fwd, c.org)
    requires InvImage(f, c.fwd, c.org)
    requires CopyStep(f, ff, c, a, t, chained) && FreeFrom(f, ff, c, a, t)
    requires CopiedTo(f, m, m', a, t, chained, weakrefs)
    ensures var c' := CopyAfter(f, c, a, t, ff[Dest(f, a)], chained);
            InvChain(f, m', c'.fwd, c'.chain, if chained then t - 1 else weakrefs)
  {
    var c' := CopyAfter(f, c, a, t, ff[Dest(f, a)], chained);
    forall j ensures LinkOk(f, m', c'.fwd, c'.chain, j) {
      if 0 <= j < |c.chain| {
        KeptLink(f, m, ff, c, a, t, chained, weakrefs, m', j);
      } else if j == |c.chain| && chained {
        NewLink(f, m, ff, c, a, t, weakrefs, m');
      }
    }
    ChainAfter(f, m, c, a, t, chained, weakrefs);
  }

  lemma ChainAfter(f: Flip, m: seq<Word>, c: Copy, a: nat, t: nat, chained: bool, weakrefs: nat)
    requires |m| == |f.mem| && InvChain(f, m, c.fwd, c.chain, weakrefs) && a !in c.fwd
    ensures var chain' := if chained then c.chain + [a] else c.chain;
      (if chained then t - 1 else weakrefs) == LinkAddress(c.fwd[a := t], chain', |chain'|) &&
      forall i, j {:trigger chain'[i], chain'[j]} :: 0 <= i < j < |chain'| ==> chain'[i] != chain'[j]
  {
    forall j | 0 <= j < |c.chain| ensures c.chain[j] in c.fwd {
      assert LinkOk(f, m, c.fwd, c.chain, j);
    }
  }

  lemma NewLink(f: Flip, m: seq<Word>, ff: seq<nat>, c: Copy, a: nat, t: nat, weakrefs: nat, m': seq<Word>)
    requires WellFormed(f) && |m| == |f.mem| && InvChain(f, m, c.fwd, c.chain, weakrefs)
    requires CopyStep(f, ff, c, a, t, true) && FreeFrom(f, ff, c, a, t)
    requires CopiedTo(f, m, m', a, t, true, weakrefs)
    ensures var c' := CopyAfter(f, c, a, t, ff[Dest(f, a)], true); LinkOk(f, m', c'.fwd, c'.chain, |c.chain|)
  {
    assert 0 < |c.chain| ==> LinkOk(f, m, c.fwd, c.chain, |c.chain| - 1);
    assert ExtentOk(f, a, a) && ExtentOk(f, a, a - 1);
  }

  lemma KeptLink(f: Flip, m: seq<Word>, ff: seq<nat>, c: Copy, a: nat, t: nat, chained: bool, weakrefs: nat,
      m': seq<Word>, j: nat)
    requires WellFormed(f) && |m| == |f.mem| && InvChain(f, m, c.fwd, c.chain, weakrefs) && InvOrg(f, ff, c.fwd, c.org)
    requires InvImage(f, c.fwd, c.org) && j < |c.chain|
    requires CopyStep(f, ff, c, a, t, chained) && FreeFrom(f, ff, c, a, t)
    requires CopiedTo(f, m, m', a, t, chained, weakrefs)
    ensures var c' := CopyAfter(f, c, a, t, ff[Dest(f, a)], chained);
            c.chain[j] in c.fwd && LinkOk(f, m', c'.fwd, c'.chain, j)
  {
    assert LinkOk(f, m, c.fwd, c.chain, j);
    assert 0 < j ==> LinkOk(f, m, c.fwd, c.chain, j - 1);
    var h := c.fwd[c.chain[j]];
    LinkWords(f, c.fwd, c.org, c.chain, j);
    KeptNewWord(f, m, ff, c, a, t, chained, weakrefs, m', h);
    KeptNewWord(f, m, ff, c, a, t, chained, weakrefs, m', h - 1);
  }

  /** Copying does not disturb words copied earlier. */
  lemma KeptNewWord(f: Flip, m: seq<Word>, ff: seq<nat>, c: Copy, a: nat, t: nat, chained: bool, weakrefs: nat,
      m': seq<Word>, p: int)
    requires WellFormed(f) && InvOrg(f, ff, c.fwd, c.org) && p in c.org
    requires CopyStep(f, ff, c, a, t, chained) && FreeFrom(f, ff, c, a, t)
    requires CopiedTo(f, m, m', a, t, chained, weakrefs)
    ensures 0 <= p < |m| && m'[p] == m[p]
  {
    assert OriginOk(f, ff, c.fwd, p, c.org[p]);
    assert FreeWord(f, c, Dest(f, a), p) || !(ff[Dest(f, a)] <= p < t + Length(f, a));
    assert ExtentOk(f, a, a) && ExtentOk(f, a, a - 1);
  }

  // ------------------------------------------------------------------ room

  /** The words that may be copied into sib i: those of the chunks bound for it and, counted as -1 - a,
      one alignment gap for each chunk a that needs one. */
  predicate IsIncoming(f: Flip, i: int, x: int) {
    if x >= 0 then
      x < |f.zone| && f.zone[x].Old? && f.zone[x].chunk >= 0 &&
      f.zone[x].chunk - NewHeader(f, f.zone[x].chunk) <= x && Dest(f, f.zone[x].chunk) == i
    else Chunk(f, -1 - x) && Aligned(f, -1 - x) && Dest(f, -1 - x) == i
  }

  ghost function Incoming(f: Flip, i: int): set<int> {
    set x: int | -|f.zone| <= x < |f.zone| && IsIncoming(f, i, x)
  }

  ghost predicate RoomIn(f: Flip, i: int) {
    0 <= i < |f.sibs| ==> |Incoming(f, i)| <= f.sibs[i].limit - f.sibs[i].firstFree
  }

  /** Each to-space is as large as what may be copied into it. */
  ghost predicate Room(f: Flip) { forall i {:trigger RoomIn(f, i)} :: RoomIn(f, i) }

  /** However far copying has gone and whatever order it took, the next chunk fits. */
  lemma NextCopyFits(f: Flip, ff: seq<nat>, c: Copy, a: nat)
    requires WellFormed(f) && Room(f) && InvFree(f, ff) && InvOrg(f, ff, c.fwd, c.org) && InvCover(f, ff, c.org)
    requires Chunk(f, a) && ChunkOk(f, a) && a !in c.fwd
    ensures CopyAddress(f, a, ff[Dest(f, a)]) + Length(f, a) <= f.sibs[Dest(f, a)].limit
  {
    var i := Dest(f, a);
    var t := CopyAddress(f, a, ff[i]);
    var g := OrgAfter(f, c.org, a, t, ff[i]);
    var lo, hi := f.sibs[i].firstFree, t + Length(f, a);
    forall p | lo <= p < hi ensures p in g && g[p] in Incoming(f, i) && PlaceOf(f, c.fwd[a := t], p, g[p]) {
      NewPlace(f, ff, c, a, p);
    }
    assert forall p, q | lo <= p < q < hi :: g[p] != g[q] by {
      forall p, q | lo <= p < q < hi ensures g[p] != g[q] {
        assert PlaceOf(f, c.fwd[a := t], p, g[p]) && PlaceOf(f, c.fwd[a := t], q, g[q]);
      }
    }
    Pigeonhole(g, lo, hi, Incoming(f, i));
    assert RoomIn(f, i);
  }

  /** Whatever order copying took, no more has been copied into a sib than was bound for it. */
  lemma CopiedAtMost(f: Flip, ff: seq<nat>, c: Copy, i: nat)
    requires WellFormed(f) && InvFree(f, ff) && InvOrg(f, ff, c.fwd, c.org) && InvCover(f, ff, c.org) && i < |f.sibs|
    ensures ff[i] - f.sibs[i].firstFree <= |Incoming(f, i)|
  {
    var lo, hi := f.sibs[i].firstFree, ff[i];
    forall p | lo <= p < hi ensures p in c.org && c.org[p] in Incoming(f, i) && PlaceOf(f, c.fwd, p, c.org[p]) {
      assert CoverOk(f, ff, c.org, i, p) && OriginOk(f, ff, c.fwd, p, c.org[p]) && AreaOk(f, i, p) && SibOk(f, i);
    }
    assert forall p, q | lo <= p < q < hi :: c.org[p] != c.org[q] by {
      forall p, q | lo <= p < q < hi ensures c.org[p] != c.org[q] {
        assert PlaceOf(f, c.fwd, p, c.org[p]) && PlaceOf(f, c.fwd, q, c.org[q]);
      }
    }
    if lo <= hi { Pigeonhole(c.org, lo, hi, Incoming(f, i)); }
  }

  /** The origin of a copied word determines its place. */
  predicate PlaceOf(f: Flip, fwd: map<int, int>, p: int, x: int) {
    if x >= 0 then x < |f.zone| && f.zone[x].Old? && f.zone[x].chunk in fwd &&
        p == fwd[f.zone[x].chunk] + x - f.zone[x].chunk
    else -1 - x in fwd && p == fwd[-1 - x] - 2
  }

  lemma NewPlace(f: Flip, ff: seq<nat>, c: Copy, a: nat, p: int)
    requires WellFormed(f) && InvFree(f, ff) && InvOrg(f, ff, c.fwd, c.org) && InvCover(f, ff, c.org)
    requires Chunk(f, a) && ChunkOk(f, a) && a !in c.fwd
    requires f.sibs[Dest(f, a)].firstFree <= p < CopyAddress(f, a, ff[Dest(f, a)]) + Length(f, a)
    ensures var i := Dest(f, a);
            var t := CopyAddress(f, a, ff[i]);
            var g := OrgAfter(f, c.org, a, t, ff[i]);
            p in g && g[p] in Incoming(f, i) && PlaceOf(f, c.fwd[a := t], p, g[p])
  {
    var i := Dest(f, a);
    var t := CopyAddress(f, a, ff[i]);
    if p < ff[i] {
      assert CoverOk(f, ff, c.org, i, p) && OriginOk(f, ff, c.fwd, p, c.org[p]);
      assert AreaOk(f, i, p) && SibOk(f, i);
    } else if InCopy(f, a, t, p) {
      assert ExtentOk(f, a, a + p - t);
    }
  }

  lemma {:induction false} Pigeonhole(g: map<int, int>, lo: int, hi: int, s: set<int>)
    requires lo <= hi && forall p :: lo <= p < hi ==> p in g && g[p] in s
    requires forall p, q :: lo <= p < q < hi ==> g[p] != g[q]
    ensures hi - lo <= |s|
    decreases hi - lo
  {
    if lo < hi {
      Pigeonhole(g, lo, hi - 1, s - {g[hi - 1]});
    }
  }

  // ------------------------------------------------------------------ liveness

  /** x is a word of chunk a that keeps chunk b alive.  The word of a weakref keeps nothing alive. */
  predicate StrongWord(f: Flip, x: int, a: int, b: int) {
    ScanWord(f, x) && f.zone[x] == Old(a) && a >= 0 && !Weak(f, a) && f.mem[x] == Pointer(if b >= 0 then b else 0) &&
        Chunk(f, b)
  }

  ghost predicate Edge(f: Flip, a: int, b: int) { exists x :: StrongWord(f, x, a, b) }

  /** x is a root location, or a word of an agegroup not being cleaned, that keeps b alive. */
  predicate RootWord(f: Flip, x: int, b: int) {
    ScanWord(f, x) && f.zone[x].Fixed? && f.mem[x] == Pointer(if b >= 0 then b else 0) && Chunk(f, b)
  }

  ghost predicate RootEdge(f: Flip, b: int) { exists x :: RootWord(f, x, b) }

  ghost predicate PathStep(f: Flip, p: seq<int>, i: int) { 0 < i < |p| ==> Edge(f, p[i - 1], p[i]) }

  ghost predicate Path(f: Flip, p: seq<int>) {
    |p| > 0 && RootEdge(f, p[0]) && forall i {:trigger PathStep(f, p, i)} :: PathStep(f, p, i)
  }

  /** Reachable from the roots by strong references, in the heap as it was when cleaning began. */
  ghost predicate Live(f: Flip, a: int) { exists p :: Path(f, p) && p[|p| - 1] == a }

  lemma LiveRoot(f: Flip, x: int, b: int)
    requires RootWord(f, x, b)
    ensures Live(f, b)
  {
    assert RootEdge(f, b);
    var p := [b];
    assert Path(f, p) && p[|p| - 1] == b;
  }

  lemma LiveStep(f: Flip, x: int, a: int, b: int)
    requires Live(f, a) && StrongWord(f, x, a, b)
    ensures Live(f, b)
  {
    var p :| Path(f, p) && p[|p| - 1] == a;
    var q := p + [b];
    assert Edge(f, a, b);
    forall i ensures PathStep(f, q, i) {
      assert PathStep(f, p, i);
    }
    assert Path(f, q) && q[|q| - 1] == b;
  }

  ghost predicate InvLive(f: Flip, fwd: map<int, int>) {
    forall a {:trigger Live(f, a)} :: a in fwd ==> Live(f, a)
  }

  /** Copying is closed: nothing a copied chunk or a root refers to was left behind. */
  ghost predicate Closed(f: Flip, fwd: map<int, int>) {
    && (forall x, b {:trigger RootWord(f, x, b)} :: RootWord(f, x, b) ==> b in fwd)
    && (forall x, a, b {:trigger StrongWord(f, x, a, b)} :: a in fwd && StrongWord(f, x, a, b) ==> b in fwd)
  }

  lemma {:induction false} ClosedHoldsPath(f: Flip, fwd: map<int, int>, p: seq<int>)
    requires Closed(f, fwd) && Path(f, p)
    ensures p[|p| - 1] in fwd
  {
    if |p| == 1 {
      var x :| RootWord(f, x, p[0]);
    } else {
      var q := p[..|p| - 1];
      forall i ensures PathStep(f, q, i) { assert PathStep(f, p, i); }
      ClosedHoldsPath(f, fwd, q);
      assert PathStep(f, p, |p| - 1);
      var x :| StrongWord(f, x, p[|p| - 2], p[|p| - 1]);
    }
  }

  /** When copying is closed, the copied chunks are exactly the live ones, whatever order was taken. */
  lemma CopiedIsLive(f: Flip, fwd: map<int, int>)
    requires InvLive(f, fwd) && Closed(f, fwd)
    ensures forall a :: a in fwd <==> Live(f, a)
  {
    forall a | Live(f, a) ensures a in fwd {
      var p :| Path(f, p) && p[|p| - 1] == a;
      ClosedHoldsPath(f, fwd, p);
    }
  }
}
