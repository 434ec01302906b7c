/** forward_agegroup0_chunk_to_agegroup1 and forward_special_chunk of heapclean-agegroup0.c: copy one chunk of
    the nursery into the sib of agegroup1 that its tagword calls for, or find the copy made earlier. */
module MinorForward {
  import opened HeapTags
  import opened HeapModel
  import opened Forwarding
  import opened HeapObject
  import opened MajorForward

  /** Only the nursery is labelled with age 0. */
  predicate NurseryLabel(f: Flip, v: nat) { AgeAt(f, v) == 0 ==> SibidFor(f.b2s, v) == AGEGROUP0_SIBID }

  /** Only the nursery is cleaned. */
  ghost predicate MinorFlip(f: Flip) {
    && f.k == 0 && |f.sibs| >= 4 && (forall v: nat {:trigger NurseryLabel(f, v)} :: NurseryLabel(f, v))
    && (forall a {:trigger Chunk(f, a)} :: Chunk(f, a) ==> AgeAt(f, a) == 0)
  }

  lemma NurseryChunk(f: Flip, m: seq<Word>, fwd: map<int, int>, v: nat)
    requires WellFormed(f) && |m| == |f.mem| && InvFwd(f, m, fwd) && InvUntouched(f, m, fwd) && MinorFlip(f) &&
        Chunk(f, v)
    ensures ChunkOk(f, v) && KindAt(f, v) == NEW_KIND && 0 < v < |m| && m[v - 1].Tagword? &&
        Dest(f, v) == Slot(f, v) == SlotForTag(TagOf(f, v))
    ensures m[v - 1].btag == FORWARDED <==> v in fwd
    ensures if v in fwd then m[v - 1] == FORWARDED_CHUNK_TAGWORD && 0 < fwd[v] && m[v] == Pointer(fwd[v])
            else m[v - 1] == TagOf(f, v) == f.mem[v - 1] && m[v] == f.mem[v] && f.mem[v - 1].btag <= WEAK_OR_SUSPENSION
  {
    assert ChunkOk(f, v);
    MarkTells(f, m, fwd, v);
  }

  /** A pair sheds its tagword when it is copied. */
  method CopyNurseryPair(h: Heap, v: nat) returns (t: nat)
    requires Cleaning(h) && MinorFlip(h.flip) && Chunk(h.flip, v) && ChunkOk(h.flip, v) && Live(h.flip, v) &&
        v !in h.copy.fwd
    requires KindAt(h.flip, v) == NEW_KIND && PairRecord(TagOf(h.flip, v)) && Dest(h.flip, v) == RO_CONSCELL_SIB
    modifies h`sibs, h`copy, h.ram
    ensures Cleaning(h) && Advanced(h.flip, old(h.copy), h.copy, v) && t == h.copy.fwd[v]
    ensures SameSwept(old(h.sibs), h.sibs)
  {
    hide Inv, InvLive, InvHuge, Room, CopiedTo, Extends;
    ghost var m, sibs := h.ram[..], h.sibs;
    PrepareCopy(h.flip, m, h.sibs, h.weakrefs, h.copy, h.huge, h.marked, v, false);

    var sib := h.sibs[RO_CONSCELL_SIB];
    t := sib.firstFree;
    h.sibs := h.sibs[RO_CONSCELL_SIB := sib.(firstFree := t + 2)];
    h.ram[t] := h.ram[v];
    h.ram[t + 1] := h.ram[v + 1];
    h.ram[v - 1] := FORWARDED_CHUNK_TAGWORD;
    h.ram[v] := Pointer(t);

    WrittenNurseryPair(h.flip, m, h.ram[..], v, t, h.weakrefs);
    h.copy := Copied(h.flip, m, sibs, h.weakrefs, h.copy, h.huge, h.marked, v, t, false, h.ram[..], h.sibs, h.weakrefs);
  }

  lemma WrittenNurseryPair(f: Flip, m: seq<Word>, m': seq<Word>, v: nat, t: nat, weakrefs: nat)
    requires Chunk(f, v) && ChunkOk(f, v) && KindAt(f, v) == NEW_KIND && PairRecord(TagOf(f, v))
    requires |m| == |f.mem| && 0 < v && t + 2 <= |m| && (v + 2 <= t || t + 2 <= v - 1)
    requires m' == m[t := m[v]][t + 1 := m[v + 1]][v - 1 := FORWARDED_CHUNK_TAGWORD][v := Pointer(t)]
    ensures CopiedTo(f, m, m', v, t, false, weakrefs)
  {
  }

  /** A weakref is at risk when its referent is in the nursery and has not been copied. */
  method NurseryReferentAtRisk(h: Heap, v: nat, tag: Word) returns (risk: bool)
    requires Cleaning(h) && MinorFlip(h.flip) && Chunk(h.flip, v) && ChunkOk(h.flip, v) && KindAt(h.flip, v) == NEW_KIND
    requires tag == TagOf(h.flip, v) && tag.Tagword? && tag.btag == WEAK_OR_SUSPENSION
    requires v < h.ram.Length && h.ram[v] == h.flip.mem[v]
    ensures risk == ChainIt(h.flip, h.copy.fwd, v)
  {
    if tag.len == UNEVALUATED_SUSPENSION || tag.len == EVALUATED_SUSPENSION {
      return false;
    }
    var w := h.ram[v];
    if !w.Pointer? {
      return false;
    }
    var sibid := SibidFor(h.b2s, w.addr);
    if sibid.age != AGEGROUP0_SIBID.age {
      assert Chunk(h.flip, w.addr) ==> AgeAt(h.flip, w.addr) == 0;
      return false;
    }
    WeakReferent(h.flip, h.ram[..], h.copy.fwd, v);
    NurseryChunk(h.flip, h.ram[..], h.copy.fwd, w.addr);
    risk := h.ram[w.addr - 1] != FORWARDED_CHUNK_TAGWORD;
  }

  method ForwardNurserySpecial(h: Heap, v: nat, tag: Word) returns (t: nat)
    requires Cleaning(h) && MinorFlip(h.flip) && Chunk(h.flip, v) && ChunkOk(h.flip, v) && Live(h.flip, v) &&
        v !in h.copy.fwd
    requires KindAt(h.flip, v) == NEW_KIND && Dest(h.flip, v) == RW_POINTERS_SIB
    requires tag == TagOf(h.flip, v) && tag.Tagword? && tag.btag == WEAK_OR_SUSPENSION
    modifies h`sibs, h`copy, h`weakrefs, h.ram
    ensures Cleaning(h) && Advanced(h.flip, old(h.copy), h.copy, v) && t == h.copy.fwd[v]
    ensures SameSwept(old(h.sibs), h.sibs)
  {
    hide Inv, InvLive, InvHuge, Room, CopiedTo, Extends;
    ghost var m, sibs, weakrefs := h.ram[..], h.sibs, h.weakrefs;
    ghost var chained := ChainIt(h.flip, h.copy.fwd, v);
    PrepareCopy(h.flip, m, sibs, weakrefs, h.copy, h.huge, h.marked, v, chained);
    var risk := NurseryReferentAtRisk(h, v, tag);
    t := PlaceSpecial(h, v, RW_POINTERS_SIB, tag, risk);
    WrittenNurserySpecial(h.flip, m, h.ram[..], v, t, chained, weakrefs);
    h.copy := Copied(h.flip, m, sibs, weakrefs, h.copy, h.huge, h.marked, v, t, chained, h.ram[..], h.sibs, h.weakrefs);
  }

  lemma WrittenNurserySpecial(f: Flip, m: seq<Word>, m': seq<Word>, v: nat, t: nat, chained: bool, weakrefs: nat)
    requires Chunk(f, v) && ChunkOk(f, v) && TagOf(f, v).Tagword? && TagOf(f, v).btag == WEAK_OR_SUSPENSION
    requires KindAt(f, v) == NEW_KIND && |m| == |f.mem| && 0 < v < |m| && 0 < t < |m|
    requires v + 1 <= t - 1 || t + 1 <= v - 1
    requires m[v - 1] == TagOf(f, v) && (chained ==> f.mem[v].Pointer?)
    requires var w0, w1 := if chained then MarkPointer(weakrefs) else m[v - 1], if chained
        then MarkPointer(f.mem[v].addr) else m[v];
      m' == m[t - 1 := w0][t := w1][v - 1 := FORWARDED_CHUNK_TAGWORD][v := Pointer(t)]
    ensures CopiedTo(f, m, m', v, t, chained, weakrefs)
  {
  }

  predicate InFree(f: Flip, ff: seq<nat>, i: nat, from: int, end: int) {
    i < |f.sibs| == |ff| && f.sibs[i].firstFree <= from <= end <= ff[i]
  }

  /** The copy at t of a chunk with this tagword: two bare words in the sib of cons cells for a pair, the
      tagword and the words of its contents in the sib for its b-tag otherwise. */
  predicate PlacedByTag(f: Flip, ff: seq<nat>, m: seq<Word>, tag: Word, t: int) {
    match tag
    case Tagword(len, btag) =>
      if btag == PAIRS_AND_RECORDS && len == 2 then InFree(f, ff, RO_CONSCELL_SIB, t, t + 2)
      else if t <= 0 || t > |m| then false
      else if btag == PAIRS_AND_RECORDS then InFree(f, ff, RO_POINTERS_SIB, t - 1, t + len) && m[t - 1] == tag
      else if btag == RO_VECTOR_HEADER || btag == RW_VECTOR_HEADER then
        InFree(f, ff, RO_POINTERS_SIB, t - 1, t + 2) && m[t - 1] == tag
      else if btag == RW_VECTOR_DATA then InFree(f, ff, RW_POINTERS_SIB, t - 1, t + len) && m[t - 1] == tag
      else if btag == FOUR_BYTE_DATA || btag == EIGHT_BYTE_DATA then
        InFree(f, ff, NONPTR_DATA_SIB, t - 1, t + len) && m[t - 1] == tag
      else
        btag == WEAK_OR_SUSPENSION && InFree(f, ff, RW_POINTERS_SIB, t - 1, t + 1) &&
        (m[t - 1] == tag || (len == WEAK_POINTER && m[t - 1].TaggedInt?))
    case _ => false
  }

  lemma PlacedByItsTag(f: Flip, m: seq<Word>, ff: seq<nat>, w: nat, c: Copy, v: nat)
    requires Inv(f, m, ff, w, c) && MinorFlip(f) && Chunk(f, v) && v in c.fwd
    ensures 0 < v <= |f.mem| && PlacedByTag(f, ff, m, f.mem[v - 1], c.fwd[v])
  {
    NurseryChunk(f, m, c.fwd, v);
    var t, last := c.fwd[v], v + Length(f, v) - 1;
    var first := v - NewHeader(f, v);
    assert ExtentOk(f, v, first) && ImageOk(f, c.fwd, c.org, first) && ExtentOk(f, v, last) && ImageOk(f, c.fwd, c.org,
        last);
    var p, q := t + first - v, t + last - v;
    assert OriginOk(f, ff, c.fwd, p, first) && OriginOk(f, ff, c.fwd, q, last) && ZoneOk(f, p) && ZoneOk(f, q);
    if Link(f, c.org, c.chain, p) {
      LinkIsNoPointer(f, m, ff, w, c, p);
      var j :| 0 <= j < |c.chain| && c.chain[j] == v;
      assert LinkOk(f, m, c.fwd, c.chain, j);
    } else {
      assert ContentOk(f, m, c, p);
    }
  }

  /** The copy of a nursery chunk: made now, or found by its mark. */
  method ForwardAgegroup0ChunkToAgegroup1(h: Heap, v: nat) returns (t: nat)
    requires Cleaning(h) && MinorFlip(h.flip) && Chunk(h.flip, v) && Live(h.flip, v)
    modifies h`sibs, h`copy, h`weakrefs, h.ram
    ensures Cleaning(h) && SameSwept(old(h.sibs), h.sibs)
    ensures Advanced(h.flip, old(h.copy), h.copy, v) && t == h.copy.fwd[v] &&
        (v in old(h.copy).fwd ==> h.sibs == old(h.sibs))
    ensures 0 < v <= |h.flip.mem| && PlacedByTag(h.flip, Free(h.sibs), h.ram[..], h.flip.mem[v - 1], t)
  {
    NurseryChunk(h.flip, h.ram[..], h.copy.fwd, v);
    var tagword := h.ram[v - 1];
    var btag := tagword.btag;
    if btag == FORWARDED {
      t := h.ram[v].addr;
    } else if btag == PAIRS_AND_RECORDS {
      if tagword.len == 2 {
        t := CopyNurseryPair(h, v);
      } else {
        t := CopyChunk(h, v, tagword, tagword.len, RO_POINTERS_SIB);
      }
    } else if btag == RO_VECTOR_HEADER || btag == RW_VECTOR_HEADER {
      t := CopyChunk(h, v, tagword, 2, RO_POINTERS_SIB);
    } else if btag == RW_VECTOR_DATA {
      t := CopyChunk(h, v, tagword, tagword.len, RW_POINTERS_SIB);
    } else if btag == FOUR_BYTE_DATA || btag == EIGHT_BYTE_DATA {
      t := CopyChunk(h, v, tagword, tagword.len, NONPTR_DATA_SIB);
    } else {
      t := ForwardNurserySpecial(h, v, tagword);
    }
    PlacedByItsTag(h.flip, h.ram[..], Free(h.sibs), h.weakrefs, h.copy, v);
  }
}
