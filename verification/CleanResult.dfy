/** What a finished clean has done, for the minor and the major clean alike: the copied graph is the live
    graph, moved. */
module CleanResult {
  import opened HeapTags
  import opened HeapModel
  import opened Forwarding
  import opened HeapObject
  import opened Weakrefs

  /** A copied word has been visited if and only if its sib holds pointers. */
  predicate VisitedIfPointer(f: Flip, c: Copy, p: int) {
    p in c.org && 0 <= p < |f.zone| && f.zone[p].New? ==> (p in c.seen <==> f.zone[p].sib % 4 != NONPTR_DATA_SIB)
  }

  ghost predicate AllVisited(f: Flip, c: Copy) {
    forall p {:trigger VisitedIfPointer(f, c, p)} :: VisitedIfPointer(f, c, p)
  }

  /** Nothing a copied chunk refers to was left behind. */
  lemma StrongWordsClosed(f: Flip, m: seq<Word>, ff: seq<nat>, weakrefs: nat, c: Copy, x: int, a: int, b: int)
    requires Inv(f, m, ff, weakrefs, c) && AllVisited(f, c) && a in c.fwd && StrongWord(f, x, a, b)
    ensures b in c.fwd
  {
    assert Forwarded(f, m, a, c.fwd[a]) && ZoneOk(f, x) && ChunkOk(f, a);
    var p := c.fwd[a] + x - a;
    assert ImageOk(f, c.fwd, c.org, x) && OriginOk(f, ff, c.fwd, p, c.org[p]) && VisitedIfPointer(f, c, p);
    if Link(f, c.org, c.chain, p) {
      LinksOfChunk(f, m, ff, weakrefs, c, p);
    }
    assert ContentOk(f, m, c, p);
  }

  predicate InChunk(f: Flip, a: int, j: int) { Chunk(f, a) && ChunkOk(f, a) && 0 <= NewHeader(f, a) + j &&
      j < Length(f, a) }

  /** The word j words into the copy of chunk a, -1 being its tagword. */
  ghost predicate MovedWord(f: Flip, fwd: map<int, int>, m: seq<Word>, a: int, j: int) {
    a in fwd && InChunk(f, a, j) ==>
      && 0 <= fwd[a] + j < |m|
      && var w, w' := f.mem[a + j], m[fwd[a] + j];
        if Weak(f, a) && f.mem[a].Pointer? && Chunk(f, f.mem[a].addr) then
          var r := f.mem[a].addr;
          if Live(f, r) then r in fwd && 0 < fwd[r] && w' == (if j < 0 then WEAKREF_TAGWORD else Pointer(fwd[r]))
          else w' == if j < 0 then NULLED_WEAKREF_TAGWORD else HEAP_VOID
        else if Slot(f, a) == NONPTR_DATA_SIB then w' == w
        else Relocated(f, fwd, w, w')
  }

  /** Words of two copies, or two words of one, never share a place. */
  predicate ApartWords(f: Flip, fwd: map<int, int>, a: int, i: int, b: int, j: int) {
    a in fwd && b in fwd && InChunk(f, a, i) && InChunk(f, b, j) && fwd[a] + i == fwd[b] + j ==> a == b && i == j
  }

  /** A copy lies in the free area of the sib it belongs to: its kind is kept, its age is that sib's. */
  predicate InItsSib(f: Flip, ff: seq<nat>, fwd: map<int, int>, a: int, j: int) {
    a in fwd && InChunk(f, a, j) && |ff| == |f.sibs| ==>
      f.sibs[Dest(f, a)].firstFree <= fwd[a] + j < ff[Dest(f, a)] && Dest(f, a) % 4 == Slot(f, a)
  }

  /** Word j from the address of chunk a is in the copy, in the area of sib i that was allocated, and says the
      same: references lead to the copies, and of a weakref (a tagword of length 2 and b-tag 6) whose referent
      is not live neither the tagword nor the reference is left. */
  ghost predicate Arrived(f: Flip, ff: seq<nat>, fwd: map<int, int>, m: seq<Word>, i: int, a: int, j: int) {
    a in fwd && 0 <= i < |f.sibs| == |ff| && f.sibs[i].firstFree <= fwd[a] + j < ff[i] && 0 <= fwd[a] + j < |m| &&
        0 <= a + j < |f.mem| && 0 <= a < |f.mem| &&
    var w, w' := f.mem[a + j], m[fwd[a] + j];
    if i % 4 != NONPTR_DATA_SIB && j >= 0 && w.Pointer? && w.addr in fwd then
      fwd[w.addr] > 0 && w' == Pointer(fwd[w.addr])
    else
      w' == w || (i % 4 == RW_POINTERS_SIB && 0 < a && f.mem[a - 1] == WEAKREF_TAGWORD && f.mem[a].Pointer? &&
        Chunk(f, f.mem[a].addr) && !Live(f, f.mem[a].addr) && w' == if j < 0 then NULLED_WEAKREF_TAGWORD else HEAP_VOID)
  }

  /** Where a chunk of the nursery goes and what of it, told by its tagword alone: a pair goes to the sib of
      cons cells without its tagword; everything else keeps the tagword, immutable records and the headers of
      vectors of both kinds in the sib of records, data without pointers in theirs, what can be stored into in
      the mutable sib. */
  ghost predicate NurseryWordArrived(f: Flip, ff: seq<nat>, fwd: map<int, int>, m: seq<Word>, a: int, j: int) {
    a in fwd && 0 < a <= |f.mem| && SibidFor(f.b2s, a).kind == NEW_KIND ==>
      match f.mem[a - 1]
      case Tagword(len, btag) =>
        if btag == PAIRS_AND_RECORDS then
          if len == 2 then 0 <= j < 2 ==> Arrived(f, ff, fwd, m, RO_CONSCELL_SIB, a, j)
          else -1 <= j < len ==> Arrived(f, ff, fwd, m, RO_POINTERS_SIB, a, j)
        else if btag == RO_VECTOR_HEADER || btag == RW_VECTOR_HEADER then
          -1 <= j < 2 ==> Arrived(f, ff, fwd, m, RO_POINTERS_SIB, a, j)
        else if btag == RW_VECTOR_DATA then -1 <= j < len ==> Arrived(f, ff, fwd, m, RW_POINTERS_SIB, a, j)
        else if btag == FOUR_BYTE_DATA || btag == EIGHT_BYTE_DATA then
          -1 <= j < len ==> Arrived(f, ff, fwd, m, NONPTR_DATA_SIB, a, j)
        else
          btag == WEAK_OR_SUSPENSION && (-1 <= j < 1 ==> Arrived(f, ff, fwd, m, RW_POINTERS_SIB, a, j))
      case _ => false
  }

  /** Where a chunk of an older agegroup goes: to its own sib, or when it lies in the senior part of it to the
      sib for promoted chunks.  A cons cell is two words; everything else keeps its tagword. */
  ghost predicate OldWordArrived(f: Flip, ff: seq<nat>, fwd: map<int, int>, m: seq<Word>, a: int, j: int) {
    a in fwd && 0 <= a < |f.mem| && SibidFor(f.b2s, a).kind != NEW_KIND ==>
      var i := 4 * SibidFor(f.b2s, a).age + SibidFor(f.b2s, a).kind - 5;
      0 <= i < |f.sibs| &&
      var to := if a < f.sibs[i].seniorEnd then f.sibs[i].promoted else i;
      if SibidFor(f.b2s, a).kind == RO_CONSCELL_KIND then 0 <= j < 2 ==> Arrived(f, ff, fwd, m, to, a, j)
      else 0 < a && match f.mem[a - 1]
        case Tagword(len, btag) =>
          var n := if btag == RO_VECTOR_HEADER || btag == RW_VECTOR_HEADER then 2
              else if btag == WEAK_OR_SUSPENSION then 1 else len;
          -1 <= j < n ==> Arrived(f, ff, fwd, m, to, a, j)
        case _ => false
  }

  predicate IsPair(f: Flip, a: int) {
    0 <= a < |f.mem| &&
    if SibidFor(f.b2s, a).kind == NEW_KIND then 0 < a && f.mem[a - 1] == Tagword(2, PAIRS_AND_RECORDS)
    else SibidFor(f.b2s, a).kind == RO_CONSCELL_KIND
  }

  predicate HoldsWord(f: Flip, fwd: map<int, int>, a: int, p: int) {
    a in fwd && IsPair(f, a) && fwd[a] <= p < fwd[a] + 2
  }

  /** In a sib of cons cells there is nothing but the two words of each. */
  ghost predicate OnlyPairs(f: Flip, ff: seq<nat>, fwd: map<int, int>, i: int, p: int) {
    0 <= i < |f.sibs| == |ff| && i % 4 == RO_CONSCELL_SIB && f.sibs[i].firstFree <= p < ff[i] ==>
      exists a :: HoldsWord(f, fwd, a, p)
  }

  /** The heap m holds, in the to-spaces, exactly the live part of the graph of f, isomorphically: one copy
      for each live chunk, of the same kind and contents, with every strong reference following the copies
      and each weakref holding its referent's copy if that is live and nulled otherwise. */
  ghost predicate LiveGraphCopied(f: Flip, ff: seq<nat>, fwd: map<int, int>, m: seq<Word>) {
    && |m| == |f.mem|
    && (forall a {:trigger Live(f, a)} {:trigger a in fwd} :: a in fwd <==> Live(f, a))
    && (forall a, j {:trigger MovedWord(f, fwd, m, a, j)} :: MovedWord(f, fwd, m, a, j))
    && (forall a, i, b, j {:trigger ApartWords(f, fwd, a, i, b, j)} :: ApartWords(f, fwd, a, i, b, j))
    && (forall a, j {:trigger InItsSib(f, ff, fwd, a, j)} :: InItsSib(f, ff, fwd, a, j))
    && (forall a, j {:trigger NurseryWordArrived(f, ff, fwd, m, a, j)} :: NurseryWordArrived(f, ff, fwd, m, a, j))
    && (forall a, j {:trigger OldWordArrived(f, ff, fwd, m, a, j)} :: OldWordArrived(f, ff, fwd, m, a, j))
    && (forall i, p {:trigger OnlyPairs(f, ff, fwd, i, p)} :: OnlyPairs(f, ff, fwd, i, p))
  }

  lemma GraphIsCopied(f: Flip, m0: seq<Word>, ff: seq<nat>, weakrefs: nat, c: Copy, m: seq<Word>)
    requires Inv(f, m0, ff, weakrefs, c) && InvLive(f, c.fwd) && AllVisited(f, c) && SettledFrom(f, m0, c, m, 0)
    requires forall x, b {:trigger RootWord(f, x, b)} :: RootWord(f, x, b) ==> b in c.fwd
    ensures LiveGraphCopied(f, ff, c.fwd, m)
  {
    forall x, a, b | a in c.fwd && StrongWord(f, x, a, b) ensures b in c.fwd {
      StrongWordsClosed(f, m0, ff, weakrefs, c, x, a, b);
    }
    CopiedIsLive(f, c.fwd);
    forall a, j ensures MovedWord(f, c.fwd, m, a, j) && InItsSib(f, ff, c.fwd, a, j) {
      if a in c.fwd && InChunk(f, a, j) {
        CopiedWord(f, m0, ff, weakrefs, c, m, a, j);
      }
    }
    forall a, i, b, j ensures ApartWords(f, c.fwd, a, i, b, j) {
      CopiesApart(f, c, a, i, b, j);
    }
    forall a, j ensures NurseryWordArrived(f, ff, c.fwd, m, a, j) && OldWordArrived(f, ff, c.fwd, m, a, j) {
      if a in c.fwd {
        assert Forwarded(f, m0, a, c.fwd[a]);
        if InChunk(f, a, j) { CopiedWord(f, m0, ff, weakrefs, c, m, a, j); }
        WordArrived(f, m0, ff, c.fwd, m, a, j);
      }
    }
    forall i, p ensures OnlyPairs(f, ff, c.fwd, i, p) { PairsOnly(f, m0, ff, c, i, p); }
  }

  lemma WordArrived(f: Flip, m0: seq<Word>, ff: seq<nat>, fwd: map<int, int>, m: seq<Word>, a: int, j: int)
    requires WellFormed(f) && |f.mem| == |m| && a in fwd && Forwarded(f, m0, a, fwd[a]) && InvFwd(f, m0, fwd)
    requires forall b {:trigger Live(f, b)} {:trigger b in fwd} :: b in fwd <==> Live(f, b)
    requires |ff| == |f.sibs| && (InChunk(f, a, j) ==> MovedWord(f, fwd, m, a, j) && InItsSib(f, ff, fwd, a, j))
    ensures NurseryWordArrived(f, ff, fwd, m, a, j) && OldWordArrived(f, ff, fwd, m, a, j)
  {
    hide Live;
    if InChunk(f, a, j) { SameWord(f, m0, ff, fwd, m, a, j); }
  }

  lemma SameWord(f: Flip, m0: seq<Word>, ff: seq<nat>, fwd: map<int, int>, m: seq<Word>, a: int, j: int)
    requires WellFormed(f) && |f.mem| == |m| && a in fwd && Forwarded(f, m0, a, fwd[a]) && InvFwd(f, m0, fwd)
    requires forall b {:trigger Live(f, b)} {:trigger b in fwd} :: b in fwd <==> Live(f, b)
    requires |ff| == |f.sibs| && InChunk(f, a, j) && MovedWord(f, fwd, m, a, j) && InItsSib(f, ff, fwd, a, j)
    ensures Arrived(f, ff, fwd, m, Dest(f, a), a, j)
  {
    hide Live;
    var w := f.mem[a + j];
    assert w.Pointer? && w.addr in fwd ==> Forwarded(f, m0, w.addr, fwd[w.addr]);
  }

  lemma PairsOnly(f: Flip, m0: seq<Word>, ff: seq<nat>, c: Copy, i: int, p: int)
    requires WellFormed(f) && InvFree(f, ff) && InvFwd(f, m0, c.fwd) && InvOrg(f, ff, c.fwd, c.org) &&
        InvCover(f, ff, c.org)
    ensures OnlyPairs(f, ff, c.fwd, i, p)
  {
    if 0 <= i < |f.sibs| == |ff| && i % 4 == RO_CONSCELL_SIB && f.sibs[i].firstFree <= p < ff[i] {
      assert CoverOk(f, ff, c.org, i, p) && OriginOk(f, ff, c.fwd, p, c.org[p]);
      assert AreaOk(f, i, p) && ZoneOk(f, c.org[p]);
      var a := f.zone[c.org[p]].chunk;
      assert Forwarded(f, m0, a, c.fwd[a]);
      assert HoldsWord(f, c.fwd, a, p);
    }
  }

  lemma CopiesApart(f: Flip, c: Copy, a: int, i: int, b: int, j: int)
    requires WellFormed(f) && InvImage(f, c.fwd, c.org)
    ensures ApartWords(f, c.fwd, a, i, b, j)
  {
    if a in c.fwd && b in c.fwd && InChunk(f, a, i) && InChunk(f, b, j) {
      assert ExtentOk(f, a, a + i) && ExtentOk(f, b, b + j);
      assert ImageOk(f, c.fwd, c.org, a + i) && ImageOk(f, c.fwd, c.org, b + j);
    }
  }

  lemma CopiedWord(f: Flip, m0: seq<Word>, ff: seq<nat>, weakrefs: nat, c: Copy, m: seq<Word>, a: int, j: int)
    requires Inv(f, m0, ff, weakrefs, c) && AllVisited(f, c) && SettledFrom(f, m0, c, m, 0)
    requires forall a {:trigger Live(f, a)} :: a in c.fwd <==> Live(f, a)
    requires a in c.fwd && InChunk(f, a, j)
    ensures MovedWord(f, c.fwd, m, a, j) && InItsSib(f, ff, c.fwd, a, j)
  {
    var p := c.fwd[a] + j;
    assert ExtentOk(f, a, a + j) && ImageOk(f, c.fwd, c.org, a + j) && OriginOk(f, ff, c.fwd, p, c.org[p]);
    assert ZoneOk(f, p) && SibOk(f, Dest(f, a)) && VisitedIfPointer(f, c, p) && SettledWord(f, m0, c, m, 0, p);
    if Link(f, c.org, c.chain, p) {
      ChainedWord(f, m0, ff, weakrefs, c, a, p);
    } else {
      assert ContentOk(f, m0, c, p);
      assert WeakOk(f, c.fwd, c.chain, a);
      assert Weak(f, a) && f.mem[a].Pointer? && f.mem[a].addr in c.fwd ==>
          Forwarded(f, m0, f.mem[a].addr, c.fwd[f.mem[a].addr]);
    }
  }

  lemma ChainedWord(f: Flip, m0: seq<Word>, ff: seq<nat>, weakrefs: nat, c: Copy, a: int, p: int)
    requires Inv(f, m0, ff, weakrefs, c) && Link(f, c.org, c.chain, p) && f.zone[c.org[p]] == Old(a)
    ensures a in c.fwd && a in c.chain && Chunk(f, a) && ChunkOk(f, a) && Weak(f, a) && f.mem[a].Pointer? &&
        Chunk(f, f.mem[a].addr)
    ensures f.mem[a].addr in c.fwd ==> 0 < c.fwd[f.mem[a].addr]
  {
    LinksOfChunk(f, m0, ff, weakrefs, c, p);
    var j :| 0 <= j < |c.chain| && c.chain[j] == a;
    assert LinkOk(f, m0, c.fwd, c.chain, j) && ChunkOk(f, a);
    assert f.mem[a].addr in c.fwd ==> Forwarded(f, m0, f.mem[a].addr, c.fwd[f.mem[a].addr]);
  }

  /** A reference in a copy follows the copies. */
  lemma MovedReference(f: Flip, ff: seq<nat>, fwd: map<int, int>, m: seq<Word>, a: int, j: int)
    requires LiveGraphCopied(f, ff, fwd, m) && a in fwd && InChunk(f, a, j) && Slot(f, a) != NONPTR_DATA_SIB
    requires 0 <= fwd[a] + j < |m| && m[fwd[a] + j].Pointer?
    ensures f.mem[a + j].Pointer? && Relocated(f, fwd, f.mem[a + j], m[fwd[a] + j]) && Live(f, a)
  {
    hide Live;
    assert MovedWord(f, fwd, m, a, j);
    var weak := Weak(f, a) && f.mem[a].Pointer? && Chunk(f, f.mem[a].addr);
    if weak {
      assert j == 0;
    }
  }
}
