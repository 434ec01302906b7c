/** forward_chunk and forward_special_chunk of heapclean-n-agegroups.c: copy one chunk of a cleaned
    agegroup into the to-space it belongs in, or find the copy made earlier. */
module MajorForward {
  import opened HeapTags
  import opened HeapModel
  import opened Forwarding
  import opened HeapObject

  /** Agegroup0 was emptied by a minor clean before a major one starts. */
  ghost predicate MajorFlip(f: Flip) {
    f.k >= 1 && forall a {:trigger Chunk(f, a)} :: Chunk(f, a) ==> AgeAt(f, a) >= 1
  }

  predicate SameSwept(s: seq<Sib>, s': seq<Sib>) {
    |s| == |s'| && forall i {:trigger s'[i]} :: 0 <= i < |s| ==> s'[i].sweptEnd == s[i].sweptEnd
  }

  /** Exactly chunk v was copied, if it had not been, and no word was visited. */
  ghost predicate Advanced(f: Flip, c: Copy, c': Copy, v: int) {
    c'.seen == c.seen && Extends(f, c, c') && c'.fwd.Keys == c.fwd.Keys + {v} && (v in c.fwd ==> c' == c)
  }

  /** Copy `len` words, the odd ones first and then four at a time. */
  method CopyLoop(ram: array<Word>, src: nat, dst: nat, len: nat)
    requires src + len <= ram.Length && dst + len <= ram.Length
    requires src + len <= dst || dst + len <= src
    modifies ram
    ensures forall x :: 0 <= x < ram.Length ==> ram[x] == if dst <= x < dst + len then old(ram[src + x - dst])
        else old(ram[x])
  {
    var s, d, i := src, dst, len % 4;
    while i > 0
      invariant 0 <= i <= len % 4 && s == src + len % 4 - i && d == dst + len % 4 - i
      invariant forall x :: 0 <= x < ram.Length ==> ram[x] == if dst <= x < d then old(ram[src + x - dst])
          else old(ram[x])
    {
      ram[d] := ram[s];
      s, d, i := s + 1, d + 1, i - 1;
    }
    var n := len / 4;
    while n > 0
      invariant 0 <= n <= len / 4 && s == src + len - 4 * n && d == dst + len - 4 * n
      invariant forall x :: 0 <= x < ram.Length ==> ram[x] == if dst <= x < d then old(ram[src + x - dst])
          else old(ram[x])
    {
      ram[d] := ram[s];
      ram[d + 1] := ram[s + 1];
      ram[d + 2] := ram[s + 2];
      ram[d + 3] := ram[s + 3];
      s, d, n := s + 4, d + 4, n - 1;
    }
  }

  /** The mark tells whether a chunk was copied, and where to; an uncopied chunk is as it was. */
  lemma MarkTells(f: Flip, m: seq<Word>, fwd: map<int, int>, v: nat)
    requires WellFormed(f) && |m| == |f.mem| && InvFwd(f, m, fwd) && InvUntouched(f, m, fwd) && Chunk(f, v)
    ensures ChunkOk(f, v)
    ensures KindAt(f, v) == RO_CONSCELL_KIND ==>
      (m[v].Tagword? <==> v in fwd) && (v in fwd ==> 0 < fwd[v] == FollowPairForward(m[v]))
    ensures KindAt(f, v) != RO_CONSCELL_KIND ==>
      m[v - 1].Tagword? && (m[v - 1].btag == FORWARDED <==> v in fwd) &&
          (v in fwd ==> 0 < fwd[v] && m[v] == Pointer(fwd[v]))
    ensures v !in fwd ==> m[v] == f.mem[v] && (KindAt(f, v) != RO_CONSCELL_KIND ==> m[v - 1] == f.mem[v - 1])
    ensures v in fwd && KindAt(f, v) != RO_CONSCELL_KIND ==> m[v - 1] == FORWARDED_CHUNK_TAGWORD
  {
    assert ChunkOk(f, v) && ExtentOk(f, v, v) && ExtentOk(f, v, v - 1);
    assert UntouchedOk(f, m, fwd, v) && UntouchedOk(f, m, fwd, v - 1);
    if v in fwd {
      assert Forwarded(f, m, v, fwd[v]);
      MarksAreBitsOnTheAddress(fwd[v]);
    }
  }

  /** A chunk and the free area it is copied to do not overlap. */
  lemma SourceApart(f: Flip, ff: seq<nat>, c: Copy, a: nat, t: nat, chained: bool)
    requires WellFormed(f) && CopyStep(f, ff, c, a, t, chained) && FreeFrom(f, ff, c, a, t)
    ensures a + Length(f, a) <= t - NewHeader(f, a) || t + Length(f, a) <= a - OldHeader(f, a)
  {
    var i, lo, u := Dest(f, a), a - OldHeader(f, a), t - NewHeader(f, a);
    assert ExtentOk(f, a, lo) && ExtentOk(f, a, u);
    assert FreeWord(f, c, i, lo) || !(ff[i] <= lo < t + Length(f, a));
    assert FreeWord(f, c, i, u) || !(ff[i] <= u < t + Length(f, a));
  }

  lemma FreeAfter(sibs: seq<Sib>, i: nat, free: nat)
    requires i < |sibs|
    ensures Free(sibs[i := sibs[i].(firstFree := free)]) == Free(sibs)[i := free]
  {
  }

  /** Facts about code reached and liveness survive a copy. */
  lemma CopyKeepsRest(f: Flip, huge: seq<Huge>, c: Copy, c': Copy, marked: set<int>, v: int)
    requires InvHuge(f, huge, c, marked) && InvLive(f, c.fwd) && InvSeen(f, c.org, c.seen)
    requires Extends(f, c, c') && c'.seen == c.seen && c'.fwd.Keys == c.fwd.Keys + {v} && Live(f, v)
    ensures InvHuge(f, huge, c', marked) && InvLive(f, c'.fwd)
  {
    forall x ensures SeenCode(f, c', marked, x) {
      assert SeenCode(f, c, marked, x) && OriginKept(f, c, c', x);
      if x in c.seen { assert Visitable(f, c.org, x); }
    }
  }

  /** Fill the copy of a chunk with a tagword and leave the forwarding mark in the original. */
  method WriteCopy(ram: array<Word>, v: nat, new_chunk: nat, tag: Word, len: nat)
    requires 0 < v && 0 < len && v + len <= ram.Length && new_chunk + 1 + len <= ram.Length
    requires v + len <= new_chunk || new_chunk + 1 + len <= v - 1
    requires ram[v - 1] == tag
    modifies ram
    ensures forall x {:trigger ram[x]} :: 0 <= x < ram.Length ==>
      (ram[x] ==
       if new_chunk <= x < new_chunk + 1 + len then old(ram[v + x - (new_chunk + 1)])
       else if x == v - 1 then FORWARDED_CHUNK_TAGWORD else if x == v then Pointer(new_chunk + 1) else old(ram[x]))
  {
    ram[new_chunk] := tag;
    CopyLoop(ram, v, new_chunk + 1, len);
    ram[v - 1] := FORWARDED_CHUNK_TAGWORD;
    ram[v] := Pointer(new_chunk + 1);
  }

  /** The common tail: allocate a copy with its tagword, fill it, leave the forwarding mark. */
  method CopyChunk(h: Heap, v: nat, tag: Word, len: nat, to: nat) returns (t: nat)
    requires Cleaning(h) && Chunk(h.flip, v) && ChunkOk(h.flip, v) && Live(h.flip, v) && v !in h.copy.fwd
    requires KindAt(h.flip, v) != RO_CONSCELL_KIND && NewHeader(h.flip, v) == 1
    requires tag == TagOf(h.flip, v) && len == Length(h.flip, v) && to == Dest(h.flip, v) && !Weak(h.flip, v)
    modifies h`sibs, h`copy, h.ram
    ensures Cleaning(h) && Advanced(h.flip, old(h.copy), h.copy, v) && t == h.copy.fwd[v]
    ensures SameSwept(old(h.sibs), h.sibs)
  {
    hide Inv, InvLive, InvHuge, Room, CopiedTo, Extends;
    ghost var m, sibs := h.ram[..], h.sibs;
    PrepareCopy(h.flip, m, h.sibs, h.weakrefs, h.copy, h.huge, h.marked, v, false);

    var new_chunk := h.sibs[to].firstFree;
    if to % 4 == NONPTR_DATA_SIB && tag.btag == EIGHT_BYTE_DATA && Even(new_chunk) {
      new_chunk := new_chunk + 1;
    }
    h.sibs := h.sibs[to := h.sibs[to].(firstFree := new_chunk + len + 1)];
    t := new_chunk + 1;
    WriteCopy(h.ram, v, new_chunk, tag, len);

    Written(h.flip, m, h.ram[..], v, t, h.weakrefs);
    h.copy := Copied(h.flip, m, sibs, h.weakrefs, h.copy, h.huge, h.marked, v, t, false, h.ram[..], h.sibs, h.weakrefs);
  }

  lemma Written(f: Flip, m: seq<Word>, m': seq<Word>, v: nat, t: nat, weakrefs: nat)
    requires Chunk(f, v) && ChunkOk(f, v) && KindAt(f, v) != RO_CONSCELL_KIND && NewHeader(f, v) == 1
    requires |m'| == |m| == |f.mem| && 0 < v
    requires forall x {:trigger m'[x]} :: 0 <= x < |m| ==>
      (m'[x] ==
       if t - 1 <= x < t + Length(f, v) then m[v + x - t]
       else if x == v - 1 then FORWARDED_CHUNK_TAGWORD else if x == v then Pointer(t) else m[x])
    ensures CopiedTo(f, m, m', v, t, false, weakrefs)
  {
  }

  /** Forwarding a cons cell: no tagword is copied and word 0 takes the mark. */
  method CopyPair(h: Heap, v: nat, to: nat) returns (t: nat)
    requires Cleaning(h) && Chunk(h.flip, v) && ChunkOk(h.flip, v) && Live(h.flip, v) && v !in h.copy.fwd
    requires KindAt(h.flip, v) == RO_CONSCELL_KIND && to == Dest(h.flip, v)
    modifies h`sibs, h`copy, h.ram
    ensures Cleaning(h) && Advanced(h.flip, old(h.copy), h.copy, v) && t == h.copy.fwd[v]
    ensures SameSwept(old(h.sibs), h.sibs)
  {
    hide Inv, InvLive, InvHuge, Room, CopiedTo, Extends;
    ghost var m, sibs := h.ram[..], h.sibs;
    PrepareCopy(h.flip, m, h.sibs, h.weakrefs, h.copy, h.huge, h.marked, v, false);

    t := h.sibs[to].firstFree;
    h.sibs := h.sibs[to := h.sibs[to].(firstFree := t + 2)];
    h.ram[t] := h.ram[v];
    h.ram[t + 1] := h.ram[v + 1];
    h.ram[v] := PairForward(t);

    WrittenPair(h.flip, m, h.ram[..], v, t, h.weakrefs);
    h.copy := Copied(h.flip, m, sibs, h.weakrefs, h.copy, h.huge, h.marked, v, t, false, h.ram[..], h.sibs, h.weakrefs);
  }

  lemma WrittenPair(f: Flip, m: seq<Word>, m': seq<Word>, v: nat, t: nat, weakrefs: nat)
    requires Chunk(f, v) && ChunkOk(f, v) && KindAt(f, v) == RO_CONSCELL_KIND
    requires |m| == |f.mem| && t + 2 <= |m| && (v + 2 <= t || t + 2 <= v)
    requires m' == m[t := m[v]][t + 1 := m[v + 1]][v := PairForward(t)]
    ensures CopiedTo(f, m, m', v, t, false, weakrefs)
  {
  }

  /** Whether the referent of a weakref must be kept: it was copied already, or lies outside from-space. */
  ghost predicate ChainIt(f: Flip, fwd: map<int, int>, v: nat) {
    Weak(f, v) && v < |f.mem| && f.mem[v].Pointer? && Chunk(f, f.mem[v].addr) && f.mem[v].addr !in fwd
  }

  /** What a copy of a chunk may rely on: the room is there, and apart from the original. */
  lemma PrepareCopy(f: Flip, m: seq<Word>, sibs: seq<Sib>, weakrefs: nat, c: Copy, huge: seq<Huge>, marked: set<int>,
      v: nat, chained: bool)
    requires CleaningState(f, m, sibs, weakrefs, c, huge, marked)
    requires Chunk(f, v) && ChunkOk(f, v) && v !in c.fwd && chained == ChainIt(f, c.fwd, v)
    ensures var i := Dest(f, v);
      0 <= i < |sibs| && SameBuffer(f.sibs[i], sibs[i]) &&
      var t := CopyAddress(f, v, sibs[i].firstFree);
      && 0 < t - NewHeader(f, v) && t + Length(f, v) <= |m|
      && (v + Length(f, v) <= t - NewHeader(f, v) || t + Length(f, v) <= v - OldHeader(f, v))
    ensures m[v] == f.mem[v] && (KindAt(f, v) != RO_CONSCELL_KIND ==> m[v - 1] == TagOf(f, v))
    ensures |m| == |f.mem| && |sibs| == |f.sibs| && (KindAt(f, v) == RO_CONSCELL_KIND ==> !chained)
  {
    var ff := Free(sibs);
    var t := CopyAddress(f, v, ff[Dest(f, v)]);
    MarkTells(f, m, c.fwd, v);
    StepReady(f, m, ff, weakrefs, c, v, t, chained);
    assert SibOk(f, Dest(f, v)) && SameBuffer(f.sibs[Dest(f, v)], sibs[Dest(f, v)]);
    CopyArea(f, m, ff, weakrefs, c, v, t, chained);
    SourceApart(f, ff, c, v, t, chained);
  }

  lemma StepReady(f: Flip, m: seq<Word>, ff: seq<nat>, weakrefs: nat, c: Copy, v: nat, t: nat, chained: bool)
    requires Inv(f, m, ff, weakrefs, c) && Room(f)
    requires Chunk(f, v) && ChunkOk(f, v) && v !in c.fwd && chained == ChainIt(f, c.fwd, v)
    requires t == CopyAddress(f, v, ff[Dest(f, v)])
    ensures CopyStep(f, ff, c, v, t, chained)
  {
    NextCopyFits(f, ff, c, v);
  }

  /** The state after a copy. */
  lemma Copied(f: Flip, m: seq<Word>, sibs: seq<Sib>, weakrefs: nat, c: Copy, huge: seq<Huge>, marked: set<int>,
               v: nat, t: nat, chained: bool, m': seq<Word>, sibs': seq<Sib>, weakrefs': nat) returns (c': Copy)
    requires CleaningState(f, m, sibs, weakrefs, c, huge, marked)
    requires Chunk(f, v) && ChunkOk(f, v) && v !in c.fwd && chained == ChainIt(f, c.fwd, v) && Live(f, v)
    requires |sibs| == |f.sibs| && t == CopyAddress(f, v, sibs[Dest(f, v)].firstFree)
    requires CopiedTo(f, m, m', v, t, chained, weakrefs)
    requires sibs' == sibs[Dest(f, v) := sibs[Dest(f, v)].(firstFree := t + Length(f, v))]
    requires weakrefs' == if chained then t - 1 else weakrefs
    ensures CleaningState(f, m', sibs', weakrefs', c', huge, marked)
    ensures Advanced(f, c, c', v) && SameSwept(sibs, sibs') && c'.fwd[v] == t
  {
    var i := Dest(f, v);
    StepReady(f, m, Free(sibs), weakrefs, c, v, t, chained);
    CopyKeepsInv(f, m, Free(sibs), weakrefs, c, v, t, chained, m');
    c' := CopyAfter(f, c, v, t, sibs[i].firstFree, chained);
    CopyKeepsRest(f, huge, c, c', marked, v);
    FreeAfter(sibs, i, t + Length(f, v));
  }
  // ------------------------------------------------------------------ specials

  /** The sib a chunk belongs in, found the way the code does. */
  lemma DestIs(f: Flip, sibs: seq<Sib>, v: nat)
    requires Chunk(f, v) && ChunkOk(f, v) && KindAt(f, v) != NEW_KIND && SameBuffers(f.sibs, sibs)
    ensures var i := SibIndex(AgeAt(f, v), KindAt(f, v));
            0 <= i < |sibs| && Dest(f, v) == (if v < sibs[i].seniorEnd then sibs[i].promoted else i)
  {
    var i := SibIndex(AgeAt(f, v), KindAt(f, v));
    assert SameBuffer(f.sibs[i], sibs[i]);
  }

  /** Whether the chunk a weakref refers to has been copied. */
  predicate ReferentForwarded(m: seq<Word>, kind: nat, addr: nat)
    requires addr < |m| && (kind != RO_CONSCELL_KIND ==> 0 < addr)
  {
    if kind == RO_CONSCELL_KIND then m[addr].Tagword? else m[addr - 1] == FORWARDED_CHUNK_TAGWORD
  }

  lemma WeakReferent(f: Flip, m: seq<Word>, fwd: map<int, int>, v: nat)
    requires WellFormed(f) && |m| == |f.mem| && InvFwd(f, m, fwd) && InvUntouched(f, m, fwd)
    requires Chunk(f, v) && Weak(f, v) && f.mem[v].Pointer? && AgeAt(f, f.mem[v].addr) <= f.k
    ensures var r := f.mem[v].addr;
      Chunk(f, r) && r < |m| && (KindAt(f, r) != RO_CONSCELL_KIND ==> 0 < r) &&
      (ReferentForwarded(m, KindAt(f, r), r) <==> r in fwd)
  {
    var r := f.mem[v].addr;
    assert WeakTargetOk(f, v);
    MarkTells(f, m, fwd, r);
  }

  lemma WrittenSpecial(f: Flip, m: seq<Word>, m': seq<Word>, v: nat, t: nat, chained: bool, weakrefs: nat)
    requires Chunk(f, v) && ChunkOk(f, v) && TagOf(f, v).Tagword? && TagOf(f, v).btag == WEAK_OR_SUSPENSION
    requires KindAt(f, v) == RW_POINTERS_KIND && |m| == |f.mem| && 0 < v < |m| && 0 < t < |m|
    requires v + 1 <= t - 1 || t + 1 <= v - 1
    requires m[v - 1] == TagOf(f, v) && (chained ==> f.mem[v].Pointer?)
    requires var w0, w1 := if chained then MarkPointer(weakrefs) else m[v - 1], if chained
        then MarkPointer(f.mem[v].addr) else m[v];
      m' == m[t - 1 := w0][t := w1][v - 1 := FORWARDED_CHUNK_TAGWORD][v := Pointer(t)]
    ensures CopiedTo(f, m, m', v, t, chained, weakrefs)
  {
  }

  /** A special is a suspension or a weakref.  A weakref whose referent is still where it was is put on
      the chain, its referent marked so that no sweeper follows it. */
  method ForwardSpecialChunk(h: Heap, k: nat, v: nat, sibid: Sibid, tag: Word) returns (t: nat)
    requires Cleaning(h) && Chunk(h.flip, v) && ChunkOk(h.flip, v) && Live(h.flip, v) && v !in h.copy.fwd
    requires k == h.flip.k && sibid == SibidFor(h.b2s, v) && sibid.kind == RW_POINTERS_KIND && sibid.age >= 1
    requires tag == TagOf(h.flip, v) && tag.Tagword? && tag.btag == WEAK_OR_SUSPENSION
    modifies h`sibs, h`copy, h`weakrefs, h.ram
    ensures Cleaning(h) && Advanced(h.flip, old(h.copy), h.copy, v) && t == h.copy.fwd[v]
    ensures SameSwept(old(h.sibs), h.sibs)
  {
    hide Inv, InvLive, InvHuge, Room, CopiedTo, Extends;
    ghost var m, sibs, weakrefs := h.ram[..], h.sibs, h.weakrefs;
    ghost var chained := ChainIt(h.flip, h.copy.fwd, v);
    PrepareCopy(h.flip, m, sibs, weakrefs, h.copy, h.huge, h.marked, v, chained);
    DestIs(h.flip, h.sibs, v);

    var risk := ReferentAtRisk(h, k, v, tag);
    var sib := SibIndex(sibid.age, sibid.kind);
    if v < h.sibs[sib].seniorEnd {
      sib := h.sibs[sib].promoted;
    }
    t := PlaceSpecial(h, v, sib, tag, risk);

    WrittenSpecial(h.flip, m, h.ram[..], v, t, chained, weakrefs);
    h.copy := Copied(h.flip, m, sibs, weakrefs, h.copy, h.huge, h.marked, v, t, chained, h.ram[..], h.sibs, h.weakrefs);
  }

  /** Copy the two words of a special, or the two links that stand in for them, and mark the original. */
  method PlaceSpecial(h: Heap, v: nat, sib: nat, tag: Word, risk: bool) returns (t: nat)
    requires 0 < v < h.ram.Length && sib < |h.sibs| && h.sibs[sib].firstFree + 1 < h.ram.Length
    requires risk ==> h.ram[v].Pointer?
    modifies h`sibs, h`weakrefs, h.ram
    ensures t == old(h.sibs[sib].firstFree) + 1
    ensures h.sibs == old(h.sibs)[sib := old(h.sibs[sib]).(firstFree := t + 1)]
    ensures h.weakrefs == if risk then t - 1 else old(h.weakrefs)
    ensures h.ram[..] == old(h.ram[..])[t - 1 := if risk then MarkPointer(old(h.weakrefs)) else tag]
                                       [t := if risk then MarkPointer(old(h.ram[v].addr)) else old(h.ram[v])]
                                       [v - 1 := FORWARDED_CHUNK_TAGWORD][v := Pointer(t)]
  {
    var new_chunk := h.sibs[sib].firstFree;
    h.sibs := h.sibs[sib := h.sibs[sib].(firstFree := new_chunk + 2)];
    t := new_chunk + 1;
    var w := h.ram[v];
    if risk {
      h.ram[new_chunk] := MarkPointer(h.weakrefs);
      h.ram[t] := MarkPointer(w.addr);
      h.weakrefs := new_chunk;
    } else {
      h.ram[new_chunk] := tag;
      h.ram[t] := w;
    }
    h.ram[v - 1] := FORWARDED_CHUNK_TAGWORD;
    h.ram[v] := Pointer(t);
  }

  /** A weakref is at risk when its referent is in from-space and has not been copied. */
  method ReferentAtRisk(h: Heap, k: nat, v: nat, tag: Word) returns (risk: bool)
    requires Cleaning(h) && k == h.flip.k
    requires Chunk(h.flip, v) && ChunkOk(h.flip, v) && KindAt(h.flip, v) == RW_POINTERS_KIND
    requires tag == TagOf(h.flip, v) && tag.Tagword? && tag.btag == WEAK_OR_SUSPENSION
    requires v < h.ram.Length && h.ram[v] == h.flip.mem[v]
    ensures risk == ChainIt(h.flip, h.copy.fwd, v)
  {
    if tag.len == UNEVALUATED_SUSPENSION || tag.len == EVALUATED_SUSPENSION || tag.len == NULLED_WEAK_POINTER {
      return false;
    }
    var w := h.ram[v];
    if !w.Pointer? {
      return false;
    }
    var sibid := SibidFor(h.b2s, w.addr);
    if sibid.age > k {
      assert Chunk(h.flip, w.addr) ==> ChunkOk(h.flip, w.addr);
      return false;
    }
    WeakReferent(h.flip, h.ram[..], h.copy.fwd, v);
    if sibid.kind == RO_CONSCELL_KIND {
      risk := !h.ram[w.addr].Tagword?;
    } else {
      risk := h.ram[w.addr - 1] != FORWARDED_CHUNK_TAGWORD;
    }
  }

  // ------------------------------------------------------------------ hugechunks

  /** Find the hugechunk that holds a code address: walk down to the book with the quire's record. */
  method FindHugechunk(h: Heap, v: nat) returns (d: nat)
    requires 0 <= HugeAt(h.b2s, h.quires, v) < |h.huge|
    ensures d == HugeAt(h.b2s, h.quires, v)
  {
    var book := v / BOOK;
    var sibid := SibidFor(h.b2s, v);
    while sibid.id != HUGECHUNK_RECORD || book >= |h.b2s|
      invariant 0 <= book && RecordBook(h.b2s, book) == RecordBook(h.b2s, v / BOOK)
      invariant sibid == if book < |h.b2s| then h.b2s[book] else UNMAPPED_BOOK_SIBID
      decreases book
    {
      book := book - 1;
      sibid := if book < |h.b2s| then h.b2s[book] else UNMAPPED_BOOK_SIBID;
    }
    var hq := h.quires[book];
    d := hq.pages[(v - hq.firstPage) / PAGE];
  }

  /** Mark the hugechunk holding v, if it is being cleaned and not marked already. */
  method MarkHugechunkAsLive(h: Heap, k: nat, v: nat) returns (d: nat)
    requires Cleaning(h) && k == h.flip.k && AgeAt(h.flip, v) <= k && !Chunk(h.flip, v) && GoodTarget(h.flip, v)
    modifies h`huge, h`marked
    ensures Cleaning(h) && d == HugeAt(h.flip.b2s, h.flip.quires, v) < |h.huge|
    ensures h.marked == old(h.marked) + {d} && h.huge[d].age == h.flip.huge[d].age
  {
    d := FindHugechunk(h, v);
    ghost var huge, marked := h.huge, h.marked;
    if h.huge[d].age <= k && h.huge[d].state % 2 == 1 {
      h.huge := h.huge[d := h.huge[d].(state :=
        if h.huge[d].state == JUNIOR_HUGECHUNK then JUNIOR_WAITING_TO_BE_FORWARDED else SENIOR_WAITING_TO_BE_PROMOTED)];
    }
    h.marked := h.marked + {d};
    MarkKeepsHuge(h.flip, huge, h.copy, marked, d, h.huge);
  }

  lemma MarkKeepsHuge(f: Flip, huge: seq<Huge>, c: Copy, marked: set<int>, d: nat, huge': seq<Huge>)
    requires InvHuge(f, huge, c, marked) && d < |huge| && HugeLive(f, d)
    requires huge' == huge[d := MarkedState(huge[d], true, f.k)]
    ensures InvHuge(f, huge', c, marked + {d}) && huge'[d].age == f.huge[d].age
  {
    forall x ensures SeenCode(f, c, marked + {d}, x) {
      assert SeenCode(f, c, marked, x);
    }
  }

  // ------------------------------------------------------------------ forward_chunk

  lemma CodeIsNoChunk(f: Flip, v: nat)
    requires WellFormed(f) && KindAt(f, v) == CODE_KIND
    ensures !Chunk(f, v)
  {
    assert Chunk(f, v) ==> ChunkOk(f, v);
  }

  /** The copy of a chunk of a cleaned agegroup: made now, or found by its mark.  Code is not copied. */
  method ForwardChunk(h: Heap, k: nat, v: nat, sibid: Sibid) returns (t: nat)
    requires Cleaning(h) && MajorFlip(h.flip) && k == h.flip.k
    requires sibid == SibidFor(h.b2s, v) && sibid.age <= k && GoodTarget(h.flip, v)
    modifies h`sibs, h`copy, h`weakrefs, h`huge, h`marked, h.ram
    ensures Cleaning(h) && SameSwept(old(h.sibs), h.sibs)
    ensures if Chunk(h.flip, v) then
        Advanced(h.flip, old(h.copy), h.copy, v) && t == h.copy.fwd[v] && h.marked == old(h.marked) &&
            h.huge == old(h.huge) &&
        (v in old(h.copy).fwd ==> h.sibs == old(h.sibs))
      else
        t == v && h.copy == old(h.copy) && h.sibs == old(h.sibs) &&
            h.marked == old(h.marked) + {HugeAt(h.flip.b2s, h.flip.quires, v)}
  {
    if sibid.kind == CODE_KIND {
      CodeIsNoChunk(h.flip, v);
      var d := MarkHugechunkAsLive(h, k, v);
      return v;
    }
    MarkTells(h.flip, h.ram[..], h.copy.fwd, v);
    DestIs(h.flip, h.sibs, v);
    var to := SibIndex(sibid.age, sibid.kind);
    if v < h.sibs[to].seniorEnd {
      to := h.sibs[to].promoted;
    }
    if sibid.kind == RO_CONSCELL_KIND {
      if h.ram[v].Tagword? {
        return FollowPairForward(h.ram[v]);
      }
      t := CopyPair(h, v, to);
    } else {
      var tag := h.ram[v - 1];
      if tag.btag == FORWARDED {
        return h.ram[v].addr;
      }
      if sibid.kind == RW_POINTERS_KIND && tag.btag == WEAK_OR_SUSPENSION {
        t := ForwardSpecialChunk(h, k, v, sibid, tag);
      } else {
        var size_in_words := if tag.btag == RO_VECTOR_HEADER || tag.btag == RW_VECTOR_HEADER then 2 else tag.len;
        t := CopyChunk(h, v, tag, size_in_words, to);
      }
    }
  }
}
