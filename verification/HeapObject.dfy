/** The heap record and what holds of it while agegroups are being cleaned. */
module HeapObject {
  import opened HeapTags
  import opened HeapModel
  import opened Forwarding

  class Heap {
    const ram: array<Word>
    const active: nat
    var b2s: seq<Sibid>
    var sibs: seq<Sib>
    var cards: seq<CardMap>
    var quires: map<nat, Quire>
    var huge: seq<Huge>
    var hugechunks: seq<seq<nat>>
    var quire_list: seq<nat>
    var weakrefs: nat

    // Sizing: per sib, the words asked for and the soft limit; per agegroup (0 is the nursery), how often
    // it was cleaned, how often the next younger one had been when it was last cleaned, and the ratio aimed at.
    var requested: seq<nat>
    var softMax: seq<nat>
    var counts: seq<nat>
    var youngerCounts: seq<nat>
    var ratios: seq<nat>
    var nurseryWords: nat

    // The heap when copying started, the progress since, and the hugechunks reached.
    ghost var flip: Flip
    ghost var copy: Copy
    ghost var marked: set<int>

    constructor (words: nat, active: nat)
      ensures fresh(ram) && ram.Length == words && this.active == active
      ensures forall x {:trigger ram[x]} :: 0 <= x < words ==> ram[x] == HEAP_VOID
      ensures b2s == [] && sibs == [] && cards == [] && huge == [] && quires == map[] && hugechunks == [] &&
          quire_list == [] && weakrefs == 0
    {
      ram := new Word[words](_ => HEAP_VOID);
      this.active := active;
      b2s, sibs, cards, quires, huge, weakrefs := [], [], [], map[], [], 0;
      hugechunks, quire_list := [], [];
      requested, softMax, counts, youngerCounts, ratios, nurseryWords := [], [], [], [], [], 0;
    }
  }

  /** Set the labels of a range of books. */
  method SetBook2sibidEntriesForRange(h: Heap, start: nat, end: nat, sibid: Sibid)
    requires end <= |h.b2s|
    modifies h`b2s
    ensures |h.b2s| == |old(h.b2s)|
    ensures forall i {:trigger h.b2s[i]} :: 0 <= i < |h.b2s| ==>
        h.b2s[i] == if start <= i < end then sibid else old(h.b2s)[i]
  {
    var i := start;
    while i < end
      invariant start <= i && |h.b2s| == |old(h.b2s)|
      invariant forall j {:trigger h.b2s[j]} :: 0 <= j < |h.b2s| ==> h.b2s[j] == if start <= j < i &&
          j < end then sibid else old(h.b2s)[j]
    {
      h.b2s := h.b2s[i := sibid];
      i := i + 1;
    }
  }

  function Free(sibs: seq<Sib>): (r: seq<nat>)
    ensures |r| == |sibs| && forall i {:trigger r[i]} :: 0 <= i < |sibs| ==> r[i] == sibs[i].firstFree
  {
    seq(|sibs|, i requires 0 <= i < |sibs| => sibs[i].firstFree)
  }

  predicate SameBuffer(s: Sib, s': Sib) {
    s' == s.(firstFree := s'.firstFree, sweptEnd := s'.sweptEnd)
  }

  /** Only the allocation and sweep pointers move while copying. */
  predicate SameBuffers(s: seq<Sib>, s': seq<Sib>) {
    |s'| == |s| && forall i {:trigger s'[i]} :: 0 <= i < |s| ==> SameBuffer(s[i], s'[i])
  }

  // ------------------------------------------------------------------ hugechunks reached

  /** The state mark_hugechunk_as_live gives a hugechunk of age at most k. */
  function MarkedState(d: Huge, reached: bool, k: nat): Huge {
    if reached && d.age <= k && d.state % 2 == 1 then
      d.(state := if d.state == JUNIOR_HUGECHUNK then JUNIOR_WAITING_TO_BE_FORWARDED else SENIOR_WAITING_TO_BE_PROMOTED)
    else d
  }

  predicate CodeWord(f: Flip, w: Word, d: int) {
    w.Pointer? && AgeAt(f, w.addr) <= f.k && !Chunk(f, w.addr) && HugeAt(f.b2s, f.quires, w.addr) == d
  }

  /** x is a root location, an uncleaned word or a word of a live chunk, and points into hugechunk d. */
  ghost predicate HugeWord(f: Flip, x: int, d: int) {
    ScanWord(f, x) && CodeWord(f, f.mem[x], d) && (f.zone[x].Old? ==> Live(f, f.zone[x].chunk))
  }

  ghost predicate HugeLive(f: Flip, d: int) { exists x :: HugeWord(f, x, d) }

  predicate SeenCode(f: Flip, c: Copy, marked: set<int>, x: int) {
    x in c.seen && |f.zone| == |f.mem| && Visitable(f, c.org, x) ==>
      var w := Original(f, c.org, x);
      w.Pointer? && AgeAt(f, w.addr) <= f.k && !Chunk(f, w.addr) ==> HugeAt(f.b2s, f.quires, w.addr) in marked
  }

  ghost predicate InvHuge(f: Flip, huge: seq<Huge>, c: Copy, marked: set<int>) {
    && |huge| == |f.huge|
    && (forall d {:trigger huge[d]} :: 0 <= d < |huge| ==> huge[d] == MarkedState(f.huge[d], d in marked, f.k))
    && (forall d {:trigger HugeLive(f, d)} :: d in marked ==> HugeLive(f, d))
    && (forall x {:trigger SeenCode(f, c, marked, x)} :: SeenCode(f, c, marked, x))
  }

  // ------------------------------------------------------------------ the state while cleaning

  ghost predicate CleaningState(f: Flip, m: seq<Word>, sibs: seq<Sib>, weakrefs: nat, c: Copy, huge: seq<Huge>,
      marked: set<int>) {
    && Inv(f, m, Free(sibs), weakrefs, c)
    && Room(f) && InvLive(f, c.fwd) && SameBuffers(f.sibs, sibs)
    && InvHuge(f, huge, c, marked)
  }

  ghost predicate Cleaning(h: Heap)
    reads h, h.ram
  {
    && CleaningState(h.flip, h.ram[..], h.sibs, h.weakrefs, h.copy, h.huge, h.marked)
    && h.b2s == h.flip.b2s && h.quires == h.flip.quires
  }

  /** A word that may be visited: a scanned word outside from-space or a copied word of a pointer sib. */
  predicate Scannable(f: Flip, c: Copy, x: int) {
    Visitable(f, c.org, x) && (f.zone[x].Fixed? ==> x in f.ext) &&
        (f.zone[x].New? ==> f.zone[x].sib % 4 != NONPTR_DATA_SIB)
  }

  /** What a pointer read from an unseen word leads to: a live chunk, or code reached by a live word. */
  ghost predicate GoodTarget(f: Flip, v: nat) {
    if Chunk(f, v) then Live(f, v) else Code(f, v) && HugeLive(f, HugeAt(f.b2s, f.quires, v))
  }

  lemma LinkIsNoPointer(f: Flip, m: seq<Word>, ff: seq<nat>, weakrefs: nat, c: Copy, x: int)
    requires Inv(f, m, ff, weakrefs, c) && Link(f, c.org, c.chain, x)
    ensures 0 <= x < |m| && m[x].TaggedInt?
  {
    assert OriginOk(f, ff, c.fwd, x, c.org[x]);
    var a := f.zone[c.org[x]].chunk;
    var j :| 0 <= j < |c.chain| && c.chain[j] == a;
    assert LinkOk(f, m, c.fwd, c.chain, j);
    assert ZoneOk(f, c.org[x]) && ChunkOk(f, a);
  }

  lemma UnseenWord(f: Flip, m: seq<Word>, ff: seq<nat>, weakrefs: nat, c: Copy, x: int)
    requires Inv(f, m, ff, weakrefs, c) && Visitable(f, c.org, x) && x !in c.seen
    requires !Link(f, c.org, c.chain, x)
    ensures m[x] == Original(f, c.org, x)
  {
    assert FixedOk(f, m, c.fwd, c.seen, x) && ContentOk(f, m, c, x);
  }

  /** A pointer found in an unseen word is a from-space pointer or leads out of the cleaned agegroups;
      it never leads to a to-space. */
  lemma UnseenTarget(f: Flip, m: seq<Word>, ff: seq<nat>, weakrefs: nat, c: Copy, x: int)
    requires Inv(f, m, ff, weakrefs, c) && InvLive(f, c.fwd) && Scannable(f, c, x) && x !in c.seen
    requires m[x].Pointer? && AgeAt(f, m[x].addr) <= f.k
    ensures GoodTarget(f, m[x].addr) && m[x] == Original(f, c.org, x) && !Link(f, c.org, c.chain, x)
  {
    if Link(f, c.org, c.chain, x) {
      LinkIsNoPointer(f, m, ff, weakrefs, c, x);
      assert false;
    }
    UnseenWord(f, m, ff, weakrefs, c, x);
    var v := m[x].addr;
    if f.zone[x].Fixed? {
      assert TargetOk(f, x) && ScanWord(f, x);
      if Chunk(f, v) {
        LiveRoot(f, x, v);
      } else {
        assert HugeWord(f, x, HugeAt(f.b2s, f.quires, v));
      }
    } else {
      CopiedTarget(f, m, ff, c, x, v);
    }
  }

  lemma CopiedTarget(f: Flip, m: seq<Word>, ff: seq<nat>, c: Copy, x: int, v: nat)
    requires WellFormed(f) && InvOrg(f, ff, c.fwd, c.org) && InvWeak(f, c.fwd, c.chain) && InvLive(f, c.fwd)
    requires InvFwd(f, m, c.fwd)
    requires Scannable(f, c, x) && f.zone[x].New? && !Link(f, c.org, c.chain, x)
    requires Original(f, c.org, x) == Pointer(v) && AgeAt(f, v) <= f.k
    ensures GoodTarget(f, v)
  {
    var y := c.org[x];
    assert OriginOk(f, ff, c.fwd, x, y) && ZoneOk(f, y);
    var a := f.zone[y].chunk;
    assert ChunkOk(f, a) && TargetOk(f, y) && Forwarded(f, m, a, c.fwd[a]);
    assert ScanWord(f, y);
    if Weak(f, a) {
      assert WeakTargetOk(f, a) && WeakOk(f, c.fwd, c.chain, a);
    } else if Chunk(f, v) {
      LiveStep(f, y, a, v);
    } else {
      assert HugeWord(f, y, HugeAt(f.b2s, f.quires, v));
    }
  }
}
