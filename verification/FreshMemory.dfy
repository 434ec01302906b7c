/** Memory that is in nobody's use stays so while others are cleaned, so that it can be granted later. */
module FreshMemory {
  import opened HeapTags
  import opened HeapModel
  import opened Forwarding
  import opened HeapObject
  import opened MajorForward
  import opened MajorRoots
  import opened MajorSizing
  import opened MajorHuge
  import opened HeapWorld
  import opened MajorSetup
  import opened MajorRest

  /** Its label tells that it is neither code nor nursery, and no sib has moved there. */
  lemma FreshWord(e: Clean, others: seq<nat>, sizes: seq<nat>, a: int, x: int)
    requires Labels(e) && Copies(e) && GrantsFresh(e.w, others, sizes) && InWords(others, sizes, a, x)
    requires GrantsApart(e.bases, e.grants, others, sizes)
    ensures x >= 0 && x !in e.r.ext && KindAt(e.r, x) != CODE_KIND && AgeAt(e.r, x) != 0
    ensures forall i {:trigger InBuffer(e.r, i, x)} :: !InBuffer(e.r, i, x)
  {
    assert KindAt(e.w, x) != CODE_KIND;
    forall c ensures !InWords(e.bases, e.grants, c, x) { }
    NotGranted(e.w, e.k, e.bases, e.grants, e.n, x);
    FreshLabel(e, x);
    forall i ensures !InBuffer(e.r, i, x) {
      assert !InBuffer(e.w, i, x);
      if 0 <= i < |e.r.sibs| {
        RestSib(e, i);
        FlippedSib(e, i);
        if i < 4 * e.k {
          assert Flipped(e.w.sibs, e.n.sibs, e.requested, e.nursery, i, e.bases[i / 4], e.grants[i / 4]);
          assert !InWords(e.bases, e.grants, i / 4, x);
        }
      }
    }
  }

  lemma FreshLabel(e: Clean, x: nat)
    requires Labels(e) && SibidFor(e.n.b2s, x) == SibidFor(e.w.b2s, x) && KindAt(e.w, x) != CODE_KIND && AgeAt(e.w,
        x) != 0
    ensures KindAt(e.r, x) != CODE_KIND && AgeAt(e.r, x) != 0
  {
    assert FreedBook(e.o.copied, e.n.b2s, e.o.unmapped, 0, 4 * e.k, x / BOOK);
    assert x / BOOK < |e.o.b2s| ==> e.o.b2s[x / BOOK].kind == e.o.unmapped[x / BOOK].kind;
  }

  lemma FreshAfterMajor(e: Clean, lists: seq<seq<nat>>, others: seq<nat>, sizes: seq<nat>)
    requires References(e, lists) && GrantsFresh(e.w, others, sizes) && GrantsApart(e.bases, e.grants, others, sizes)
    ensures GrantsFresh(e.r, others, sizes)
  {
    forall a, x | InWords(others, sizes, a, x)
      ensures 0 <= x && x !in e.r.ext && KindAt(e.r, x) != CODE_KIND && AgeAt(e.r, x) != 0 &&
          forall i {:trigger InBuffer(e.r, i, x)} :: !InBuffer(e.r, i, x)
    {
      FreshWord(e, others, sizes, a, x);
    }
    forall x, a | ScanWord(e.r, x) && e.r.mem[x].Pointer? ensures !InWords(others, sizes, a, e.r.mem[x].addr) {
      FreshReference(e, lists, others, sizes, x, a);
    }
  }

  lemma FreshReference(e: Clean, lists: seq<seq<nat>>, others: seq<nat>, sizes: seq<nat>, x: int, a: int)
    requires References(e, lists) && GrantsFresh(e.w, others, sizes) && GrantsApart(e.bases, e.grants, others, sizes)
    requires ScanWord(e.r, x) && e.r.mem[x].Pointer?
    ensures !InWords(others, sizes, a, e.r.mem[x].addr)
  {
    hide Labels, Copies, Outer, Huges, GrantsFresh, GrantsApart, Landed;
    var v1 := e.r.mem[x].addr;
    var y, v := Reference(e, lists, x);
    WhereItLanded(e, v, v1);
    FreshReferent(e.w, others, sizes, y, a);
    if InWords(others, sizes, a, v1) && v1 >= 0 {
      FreshWord(e, others, sizes, a, v1);
      if Chunk(e.r, v1) { ChunkInBuffer(e, v1); }
    }
  }

  lemma WhereItLanded(e: Clean, v: nat, v1: nat)
    requires Landed(e, v, v1)
    ensures v1 == v || KindAt(e.r, v1) == CODE_KIND || Chunk(e.r, v1)
  {
  }

  lemma FreshReferent(w: Flip, others: seq<nat>, sizes: seq<nat>, y: int, a: int)
    requires GrantsFresh(w, others, sizes) && ScanWord(w, y) && w.mem[y].Pointer?
    ensures !InWords(others, sizes, a, w.mem[y].addr)
  {
  }

  lemma ChunkInBuffer(e: Clean, a: nat)
    requires Labels(e) && Copies(e) && Outer(e) && Chunk(e.r, a)
    ensures InBuffer(e.r, SibIndex(AgeAt(e.r, a), KindAt(e.r, a)), a)
  {
    hide Labels, Copies, Outer;
    RestChunkOk(e, a);
    RestSib(e, SibIndex(AgeAt(e.r, a), KindAt(e.r, a)));
  }
}
