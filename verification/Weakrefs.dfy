/** null_out_newly_dead_weakrefs of heapcleaner-stuff.c: when copying is over, each weakref on the chain
    gets its referent's copy if there is one and is nulled if there is none. */
module Weakrefs {
  import opened HeapTags
  import opened HeapModel
  import opened Forwarding
  import opened HeapObject
  import opened MajorForward

  /** The two words of a weakref that was chained: its copy's tagword and its referent. */
  function WeakResult(f: Flip, c: Copy, x: int): Word
    requires Link(f, c.org, c.chain, x)
  {
    var a := f.zone[c.org[x]].chunk;
    var kept := 0 <= a < |f.mem| && f.mem[a].Pointer? && f.mem[a].addr in c.fwd && c.fwd[f.mem[a].addr] >= 0;
    if c.org[x] < a then (if kept then WEAKREF_TAGWORD else NULLED_WEAKREF_TAGWORD)
    else if kept then Pointer(c.fwd[f.mem[a].addr]) else HEAP_VOID
  }

  /** Word x when the links chain[j..] have been settled and the older ones have not. */
  predicate SettledWord(f: Flip, m0: seq<Word>, c: Copy, m: seq<Word>, j: nat, x: int) {
    0 <= x < |m| && |m| == |m0| && j <= |c.chain| ==>
      m[x] == if Link(f, c.org, c.chain, x) && f.zone[c.org[x]].chunk in c.chain[j..] then WeakResult(f, c, x)
          else m0[x]
  }

  ghost predicate SettledFrom(f: Flip, m0: seq<Word>, c: Copy, m: seq<Word>, j: nat) {
    |m| == |m0| && j <= |c.chain| && forall x {:trigger SettledWord(f, m0, c, m, j, x)} ::
        SettledWord(f, m0, c, m, j, x)
  }

  /** The copied words of a chained weakref are its tagword and its one word of content. */
  lemma LinksOfChunk(f: Flip, m: seq<Word>, ff: seq<nat>, weakrefs: nat, c: Copy, x: int)
    requires Inv(f, m, ff, weakrefs, c) && Link(f, c.org, c.chain, x)
    ensures var a := f.zone[c.org[x]].chunk;
      a in c.fwd && a in c.chain && Chunk(f, a) && Weak(f, a) && (x == c.fwd[a] - 1 || x == c.fwd[a]) &&
          c.org[x] == a + x - c.fwd[a]
  {
    assert OriginOk(f, ff, c.fwd, x, c.org[x]);
    var a := f.zone[c.org[x]].chunk;
    var j :| 0 <= j < |c.chain| && c.chain[j] == a;
    assert LinkOk(f, m, c.fwd, c.chain, j);
    assert ZoneOk(f, c.org[x]) && ChunkOk(f, a);
  }

  /** What the newest unsettled link says. */
  lemma NewestLink(f: Flip, m0: seq<Word>, ff: seq<nat>, weakrefs: nat, c: Copy, m: seq<Word>, j: nat)
    requires Inv(f, m0, ff, weakrefs, c) && SettledFrom(f, m0, c, m, j) && 0 < j
    ensures var a := c.chain[j - 1];
      && a in c.fwd && Chunk(f, a) && a < |m| && Weak(f, a) && 1 < c.fwd[a] < |m| &&
          LinkAddress(c.fwd, c.chain, j) == c.fwd[a] - 1
      && 0 <= LinkAddress(c.fwd, c.chain, j - 1)
      && m[c.fwd[a] - 1] == MarkPointer(LinkAddress(c.fwd, c.chain, j - 1))
      && f.mem[a].Pointer? && Chunk(f, f.mem[a].addr) && m[c.fwd[a]] == MarkPointer(f.mem[a].addr)
  {
    assert LinkOk(f, m0, c.fwd, c.chain, j - 1);
    var a := c.chain[j - 1];
    LinkWords(f, c.fwd, c.org, c.chain, j - 1);
    assert ChunkOk(f, a);
    LinksOfChunk(f, m0, ff, weakrefs, c, c.fwd[a]);
    LinksOfChunk(f, m0, ff, weakrefs, c, c.fwd[a] - 1);
    assert SettledWord(f, m0, c, m, j, c.fwd[a]) && SettledWord(f, m0, c, m, j, c.fwd[a] - 1);
    assert ImageOk(f, c.fwd, c.org, a) && ExtentOk(f, a, a) && ImageOk(f, c.fwd, c.org, a - 1) && ExtentOk(f, a, a - 1);
    assert a !in c.chain[j..];
  }

  /** The referent's mark has not been disturbed: it tells whether the referent was copied. */
  lemma ReferentMark(f: Flip, m0: seq<Word>, ff: seq<nat>, weakrefs: nat, c: Copy, m: seq<Word>, j: nat, r: nat)
    requires Inv(f, m0, ff, weakrefs, c) && SettledFrom(f, m0, c, m, j) && Chunk(f, r)
    ensures r < |m| && KindAt(f, r) <= RW_POINTERS_KIND && (KindAt(f, r) != RO_CONSCELL_KIND ==> 0 < r)
    ensures if KindAt(f, r) == RO_CONSCELL_KIND
            then (m[r].Tagword? <==> r in c.fwd) && (r in c.fwd ==> 0 < c.fwd[r] == FollowPairForward(m[r]))
            else ((m[r - 1] == FORWARDED_CHUNK_TAGWORD <==> r in c.fwd) &&
                  (r in c.fwd ==> 0 < c.fwd[r] && m[r] == Pointer(c.fwd[r])))
  {
    MarkTells(f, m0, c.fwd, r);
    assert ExtentOk(f, r, r) && ExtentOk(f, r, r - 1) && ChunkOk(f, r);
    assert SettledWord(f, m0, c, m, j, r) && SettledWord(f, m0, c, m, j, r - 1);
    assert r in c.org ==> OriginOk(f, ff, c.fwd, r, c.org[r]);
    assert r - 1 in c.org ==> OriginOk(f, ff, c.fwd, r - 1, c.org[r - 1]);
  }

  lemma SettleStep(f: Flip, m0: seq<Word>, ff: seq<nat>, weakrefs: nat, c: Copy, m: seq<Word>, j: nat, w0: Word,
      w1: Word)
    requires Inv(f, m0, ff, weakrefs, c) && SettledFrom(f, m0, c, m, j) && 0 < j && c.chain[j - 1] in c.fwd
    requires var a := c.chain[j - 1]; 0 <= a < |f.mem| && f.mem[a].Pointer? && 1 < c.fwd[a] < |m|
    requires var r := f.mem[c.chain[j - 1]].addr;
      if r in c.fwd && c.fwd[r] >= 0 then w0 == WEAKREF_TAGWORD &&
          w1 == Pointer(c.fwd[r]) else w0 == NULLED_WEAKREF_TAGWORD && w1 == HEAP_VOID
    ensures var t := c.fwd[c.chain[j - 1]]; SettledFrom(f, m0, c, m[t - 1 := w0][t := w1], j - 1)
  {
    var a := c.chain[j - 1];
    var t, j1 := c.fwd[a], j - 1;
    var m' := m[t - 1 := w0][t := w1];
    assert c.chain[j1..] == [a] + c.chain[j..];
    assert LinkOk(f, m0, c.fwd, c.chain, j1);
    LinkWords(f, c.fwd, c.org, c.chain, j1);
    LinksOfChunk(f, m0, ff, weakrefs, c, t);
    LinksOfChunk(f, m0, ff, weakrefs, c, t - 1);
    assert ImageOk(f, c.fwd, c.org, a) && ExtentOk(f, a, a) && ImageOk(f, c.fwd, c.org, a - 1) &&
        ExtentOk(f, a, a - 1) && ChunkOk(f, a);
    forall x ensures SettledWord(f, m0, c, m', j1, x) {
      assert SettledWord(f, m0, c, m, j, x);
      if Link(f, c.org, c.chain, x) { LinksOfChunk(f, m0, ff, weakrefs, c, x); }
    }
  }

  /** Settle the weakref whose copy has its header at p. */
  method SettleWeakref(h: Heap, p: nat, chunk: nat)
    requires p + 1 < h.ram.Length && chunk < h.ram.Length && chunk != p && chunk != p + 1
    requires KindAt(h.flip, chunk) != RO_CONSCELL_KIND ==> 0 < chunk && h.ram[chunk - 1] == FORWARDED_CHUNK_TAGWORD ==>
        h.ram[chunk].Pointer?
    requires h.b2s == h.flip.b2s && KindAt(h.flip, chunk) <= RW_POINTERS_KIND &&
        (KindAt(h.flip, chunk) != RO_CONSCELL_KIND ==> 0 < chunk)
    modifies h.ram
    ensures if KindAt(h.flip, chunk) == RO_CONSCELL_KIND then
        h.ram[..] == if old(h.ram[chunk]).Tagword?
            then old(h.ram[..])[p := WEAKREF_TAGWORD][p + 1 := Pointer(FollowPairForward(old(h.ram[chunk])))]
                     else old(h.ram[..])[p := NULLED_WEAKREF_TAGWORD][p + 1 := HEAP_VOID]
      else
        h.ram[..] == if old(h.ram[chunk - 1]) == FORWARDED_CHUNK_TAGWORD
            then old(h.ram[..])[p := WEAKREF_TAGWORD][p + 1 := old(h.ram[chunk])]
                     else old(h.ram[..])[p := NULLED_WEAKREF_TAGWORD][p + 1 := HEAP_VOID]
  {
    if SibidFor(h.b2s, chunk).kind == RO_CONSCELL_KIND {
      var tagword := h.ram[chunk];
      if tagword.Tagword? {
        h.ram[p] := WEAKREF_TAGWORD;
        h.ram[p + 1] := Pointer(FollowPairForward(tagword));
      } else {
        h.ram[p] := NULLED_WEAKREF_TAGWORD;
        h.ram[p + 1] := HEAP_VOID;
      }
    } else {
      var tagword := h.ram[chunk - 1];
      if tagword == FORWARDED_CHUNK_TAGWORD {
        var copy := h.ram[chunk];
        h.ram[p] := WEAKREF_TAGWORD;
        h.ram[p + 1] := copy;
      } else {
        h.ram[p] := NULLED_WEAKREF_TAGWORD;
        h.ram[p + 1] := HEAP_VOID;
      }
    }
  }

  /** Walk the chain, newest first. */
  method NullOutNewlyDeadWeakrefs(h: Heap)
    requires Cleaning(h)
    modifies h`weakrefs, h.ram
    ensures h.weakrefs == 0 && SettledFrom(h.flip, old(h.ram[..]), h.copy, h.ram[..], 0)
  {
    ghost var f, m0, ff, w0, c := h.flip, h.ram[..], Free(h.sibs), h.weakrefs, h.copy;
    ghost var j: nat := |c.chain|;
    var p := h.weakrefs;
    while p != 0
      invariant h.flip == f && h.copy == c && 0 <= j <= |c.chain| && p == LinkAddress(c.fwd, c.chain, j)
      invariant SettledFrom(f, m0, c, h.ram[..], j) && Inv(f, m0, ff, w0, c)
      decreases j
    {
      hide Inv, SettledFrom;
      NewestLink(f, m0, ff, w0, c, h.ram[..], j);
      var next := UnmarkPointer(h.ram[p]);
      var chunk := UnmarkPointer(h.ram[p + 1]);
      ReferentMark(f, m0, ff, w0, c, h.ram[..], j, chunk);
      ReferentApart(f, m0, ff, w0, c, chunk, c.chain[j - 1]);
      ghost var m := h.ram[..];
      SettleWeakref(h, p, chunk);
      SettleStep(f, m0, ff, w0, c, m, j, h.ram[p], h.ram[p + 1]);
      j := j - 1;
      p := next;
    }
    if j > 0 { NewestLink(f, m0, ff, w0, c, h.ram[..], j); }
    h.weakrefs := 0;
  }

  lemma ReferentApart(f: Flip, m: seq<Word>, ff: seq<nat>, weakrefs: nat, c: Copy, r: nat, a: int)
    requires Inv(f, m, ff, weakrefs, c) && Chunk(f, r) && a in c.chain && a in c.fwd && Chunk(f, a) && Weak(f, a)
    ensures r != c.fwd[a] && r != c.fwd[a] - 1
  {
    var j :| 0 <= j < |c.chain| && c.chain[j] == a;
    LinkWords(f, c.fwd, c.org, c.chain, j);
    assert OriginOk(f, ff, c.fwd, c.fwd[a], c.org[c.fwd[a]]) &&
        OriginOk(f, ff, c.fwd, c.fwd[a] - 1, c.org[c.fwd[a] - 1]);
  }
}
