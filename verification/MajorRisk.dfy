/** When the cards of the agegroups that were not cleaned are right after a major clean, in terms of the heap
    before it. */
module MajorRisk {
  import opened HeapTags
  import opened HeapModel
  import opened Forwarding
  import opened HeapObject
  import opened MajorForward
  import opened MajorCards
  import opened MajorRoots
  import opened MajorClean
  import opened MajorSizing
  import opened MajorHuge
  import opened CleanResult
  import opened HeapWorld
  import opened MajorSetup
  import opened MajorRest

  // ------------------------------------------------------------------ risk, seen before the clean

  /** Card d of sib i of the heap w at rest, whose agegroup is not cleaned, is at risk from cleaning ages to k:
      it is marked with an age to be cleaned, it has a reference into what is labelled with such an age, all
      its references of that kind end up older than another of its references. */
  ghost predicate Risk(w: Flip, k: nat, i: nat, d: int) { i % 4 == RW_POINTERS_SIB && SibAge(i) > k &&
      Risky(w.(k := k), i, d) }

  ghost predicate Safe(w: Flip, k: nat) { forall i: nat, d {:trigger Risk(w, k, i, d)} :: !Risk(w, k, i, d) }

  /** A word means the same to two heaps, as far as risk goes. */
  predicate SameMeaning(f: Flip, w: Flip, x: int) {
    && 0 <= x < |f.mem| == |w.mem| && f.mem[x] == w.mem[x]
    && (f.mem[x].Pointer? ==>
          (FromWord(f, f.mem[x]) <==> FromWord(w, f.mem[x])) &&
              PointeeAge(f, f.mem[x].addr) == PointeeAge(w, f.mem[x].addr)
          && (FromWord(w, f.mem[x]) ==> AgeAfter(f, f.mem[x]) == AgeAfter(w, f.mem[x])))
  }

  ghost predicate AllMeanSame(f: Flip, w: Flip, lo: int, q: int) { forall x {:trigger SameMeaning(f, w, x)} ::
      lo <= x < q ==> SameMeaning(f, w, x) }

  lemma AtRiskFollows(f: Flip, w: Flip, g: nat, lo: int, q: int)
    requires AllMeanSame(f, w, lo, q) && AtRisk(f, g, lo, q)
    ensures AtRisk(w, g, lo, q)
  {
    var y :| YoungOther(f, g, lo, q, y) && AllFromOlder(f, lo, q, y);
    assert SameMeaning(f, w, y) && YoungOther(w, g, lo, q, y);
    var z :| FromAt(f, lo, q, z) && AgeAfter(f, f.mem[z]) < g;
    assert SameMeaning(f, w, z) && FromAt(w, lo, q, z);
    forall x | FromAt(w, lo, q, x) ensures AgeAfter(w, w.mem[x]) > PointeeAge(w, w.mem[y].addr) {
      assert SameMeaning(f, w, x) && FromAt(f, lo, q, x);
    }
  }

  lemma MeaningIsMutual(f: Flip, w: Flip, lo: int, q: int)
    requires AllMeanSame(f, w, lo, q)
    ensures AllMeanSame(w, f, lo, q)
  {
    forall x | lo <= x < q ensures SameMeaning(w, f, x) { assert SameMeaning(f, w, x); }
  }

  /** The flip changes the meaning of no word that is not cleaned. */
  lemma UncleanedMeans(e: Clean, i: nat, x: int)
    requires Labels(e) && Uncleaned(e.f) && UncleanedWord(e.f, i, x)
    ensures SameMeaning(e.f, e.w.(k := e.k), x)
  {
    assert UncleanedOk(e.f, i, x);
    FlipTargets(e.w, e.k, e.bases, e.grants, e.n, x);
    if e.w.mem[x].Pointer? {
      var v := e.w.mem[x].addr;
      if Chunk(e.w, v) { DestKept(e.w, e.k, e.requested, e.nursery, e.bases, e.grants, e.n, v); }
    }
  }

  lemma CardMeans(e: Clean, i: nat, d: nat)
    requires Labels(e) && Uncleaned(e.f) && CardReady(e.w, e.w.cards) && i % 4 == RW_POINTERS_SIB &&
        4 * e.k <= i < |e.f.sibs|
    requires i / 4 < |e.w.cards| == |e.f.cards| && e.f.cards[i / 4] == e.w.cards[i / 4]
    ensures i < |e.w.sibs| && CardStart(e.f, i, d) == CardStart(e.w, i, d) && CardEnd(e.f, i, d) == CardEnd(e.w, i, d)
    ensures AllMeanSame(e.f, e.w.(k := e.k), CardStart(e.f, i, d), CardEnd(e.f, i, d)) && e.f.k == e.k
  {
    var lo, q := CardStart(e.f, i, d), CardEnd(e.f, i, d);
    assert MapOk(e.w, e.w.cards, i) && SibRests(e.w, i) && e.n.sibs[i] == e.w.sibs[i];
    forall x | lo <= x < q ensures SameMeaning(e.f, e.w.(k := e.k), x) { UncleanedMeans(e, i, x); }
  }

  lemma RiskyIsSame(f: Flip, w: Flip, i: nat, d: nat)
    requires f.k == w.k && i < |f.sibs| == |w.sibs| && i / 4 < |f.cards| == |w.cards| &&
        f.cards[i / 4] == w.cards[i / 4]
    requires CardStart(f, i, d) == CardStart(w, i, d) && CardEnd(f, i, d) == CardEnd(w, i, d)
    requires AllMeanSame(f, w, CardStart(f, i, d), CardEnd(f, i, d))
    ensures Risky(f, i, d) <==> Risky(w, i, d)
  {
    hide AllMeanSame, AtRisk;
    var lo, q := CardStart(f, i, d), CardEnd(f, i, d);
    MeaningIsMutual(f, w, lo, q);
    if AtRisk(f, SibAge(i), lo, q) { AtRiskFollows(f, w, SibAge(i), lo, q); }
    if AtRisk(w, SibAge(i), lo, q) { AtRiskFollows(w, f, SibAge(i), lo, q); }
  }

  /** Whether a card is at risk can be told before the flip. */
  lemma RiskIsSame(e: Clean, i: nat, d: int)
    requires Labels(e) && Uncleaned(e.f) && CardReady(e.w, e.w.cards) && i % 4 == RW_POINTERS_SIB &&
        4 * e.k <= i < |e.f.sibs|
    requires i / 4 < |e.w.cards| == |e.f.cards| && e.f.cards[i / 4] == e.w.cards[i / 4]
    ensures Risky(e.f, i, d) <==> Risk(e.w, e.k, i, d)
  {
    hide Labels, AllMeanSame, AtRisk, Uncleaned, CardReady;
    if 0 <= d {
      CardMeans(e, i, d);
      SibCounts(e);
      RiskyIsSame(e.f, e.w.(k := e.k), i, d);
    }
  }

  lemma SibCounts(e: Clean)
    requires Labels(e)
    ensures |e.f.sibs| == |e.w.sibs| && e.f.k == e.k
  {
  }

  // ------------------------------------------------------------------ the cards are right if and only if none was at
  // risk

  /** What is known when the clean is over, as far as cards go. */
  ghost predicate Carding(e: Clean, lists: seq<seq<nat>>) {
    && References(e, lists) && CardsAfter(e) && (forall j, y {:trigger UsedOk(e.w, j, y)} :: UsedOk(e.w, j, y))
    && Uncleaned(e.f) && OldCards(e.f, e.o.cards) && CardReady(e.w, e.w.cards) && CardReady(e.f, e.f.cards)
    && |e.f.cards| == |e.w.cards| == e.w.k && 4 * e.w.k == |e.f.sibs|
    && (forall a {:trigger e.f.cards[a]} :: e.k <= a < e.w.k ==> e.f.cards[a] == e.w.cards[a])
  }

  /** Word x of sib i was on no card at risk. */
  ghost predicate OffRiskyCards(w: Flip, k: nat, i: int, x: int) {
    0 <= i && i / 4 < |w.cards| && SibAge(i) > k ==> !Risk(w, k, i, CardOf(w.cards[i / 4], x))
  }

  /** A word on no card at risk is covered. */
  lemma OffRiskIsCovered(e: Clean, lists: seq<seq<nat>>, i: int, x: int)
    requires Carding(e, lists) && OffRiskyCards(e.w, e.k, i, x)
    ensures CardCovers(e.r, i, x)
  {
    if 0 <= i < |e.r.sibs| && i % 4 == RW_POINTERS_SIB && e.r.sibs[i].start <= x < e.r.sibs[i].firstFree &&
        x < |e.r.mem| {
      OnlyUncleanedAtRisk(e, lists, i, x);
      RestCovered(e, lists, i, x);
    }
  }

  lemma OnlyUncleanedAtRisk(e: Clean, lists: seq<seq<nat>>, i: nat, x: int)
    requires Carding(e, lists) && OffRiskyCards(e.w, e.k, i, x) && i < |e.r.sibs| && i % 4 == RW_POINTERS_SIB &&
        e.r.sibs[i].start <= x
    ensures OffRisk(e, i, x)
  {
    RestSib(e, i);
    FlippedSib(e, i);
    if i >= 4 * e.k && i / 4 < e.w.k { RiskIsSame(e, i, CardOf(e.w.cards[i / 4], x)); }
  }

  /** A card at risk ends up wrong: the reference that was outlived is not covered any more. */
  lemma RiskyIsLost(e: Clean, lists: seq<seq<nat>>, i: nat, d: int) returns (y: int)
    requires Carding(e, lists) && Risk(e.w, e.k, i, d)
    ensures !CardCovers(e.r, i, y)
  {
    y := OutlivedWord(e, lists, i, d);
    OutlivedStays(e, lists, i, y);
  }

  /** The word that is lost refers to the age `PointeeAge(e.f, e.f.mem[y].addr)`, and the card is marked older. */
  lemma OutlivedWord(e: Clean, lists: seq<seq<nat>>, i: nat, d: int) returns (y: int)
    requires Carding(e, lists) && Risk(e.w, e.k, i, d)
    ensures 4 * e.k <= i < |e.f.sibs| && i % 4 == RW_POINTERS_SIB && e.f.sibs[i].start <= y < e.f.sibs[i].firstFree &&
        UncleanedWord(e.f, i, y)
    ensures 0 <= y < |e.f.mem| && e.f.mem[y].Pointer? && !FromWord(e.f, e.f.mem[y]) &&
        e.k < PointeeAge(e.f, e.f.mem[y].addr) < SibAge(i)
    ensures i / 4 < |e.o.cards| && 0 <= d < |e.o.cards[i / 4].minAge| && CardOf(e.o.cards[i / 4], y) == d
    ensures e.o.cards[i / 4].minAge[d] > PointeeAge(e.f, e.f.mem[y].addr)
  {
    hide Carding, Risk, Risky, WellFormed, CardReady, Uncleaned, OldCards;
    RiskFacts(e, lists, i, d);
    CardingParts(e, lists);
    y := RiskyCardLoses(e.f, e.o.cards, i, d);
  }

  lemma RiskFacts(e: Clean, lists: seq<seq<nat>>, i: nat, d: int)
    requires Carding(e, lists) && Risk(e.w, e.k, i, d)
    ensures 4 * e.k <= i < |e.f.sibs| && i % 4 == RW_POINTERS_SIB && e.f.k == e.k && d >= 0 && Risky(e.f, i, d) &&
        Active(e.f.sibs[i])
  {
    SibCounts(e);
    RiskIsSame(e, i, d);
    assert SibRests(e.w, i) && e.n.sibs[i] == e.w.sibs[i];
    RiskyIsActive(e.w.(k := e.k), i, d);
  }

  lemma RiskyIsActive(w: Flip, i: nat, d: int)
    requires Risky(w, i, d)
    ensures w.sibs[i].firstFree > 0
  {
    var lo, q := CardStart(w, i, d), CardEnd(w, i, d);
    var y :| YoungOther(w, SibAge(i), lo, q, y) && AllFromOlder(w, lo, q, y);
  }

  lemma CardingParts(e: Clean, lists: seq<seq<nat>>)
    requires Carding(e, lists)
    ensures WellFormed(e.f) && CardReady(e.f, e.f.cards) && Uncleaned(e.f) && OldCards(e.f, e.o.cards) &&
        CardReady(e.f, e.o.cards)
    ensures |e.f.cards| == |e.o.cards| == |e.w.cards| == e.w.k && |e.f.sibs| == 4 * e.w.k
  {
  }

  lemma OutlivedStays(e: Clean, lists: seq<seq<nat>>, i: nat, y: int)
    requires Carding(e, lists) && UncleanedWord(e.f, i, y) && i < |e.f.sibs| &&
        e.f.sibs[i].start <= y < e.f.sibs[i].firstFree
    requires 0 <= y < |e.f.mem| && e.f.mem[y].Pointer? && !FromWord(e.f, e.f.mem[y]) &&
        e.k < PointeeAge(e.f, e.f.mem[y].addr) < SibAge(i)
    requires i / 4 < |e.o.cards| && 0 <= CardOf(e.o.cards[i / 4], y) < |e.o.cards[i / 4].minAge|
    requires e.o.cards[i / 4].minAge[CardOf(e.o.cards[i / 4], y)] > PointeeAge(e.f, e.f.mem[y].addr)
    ensures !CardCovers(e.r, i, y)
  {
    OutlivedReference(e, lists, i, y);
  }

  lemma OutlivedReference(e: Clean, lists: seq<seq<nat>>, i: nat, y: int)
    requires Carding(e, lists) && UncleanedWord(e.f, i, y) && i < |e.f.sibs| &&
        e.f.sibs[i].start <= y < e.f.sibs[i].firstFree
    requires 0 <= y < |e.f.mem| && e.f.mem[y].Pointer? && !FromWord(e.f, e.f.mem[y]) &&
        e.k < PointeeAge(e.f, e.f.mem[y].addr) < SibAge(i)
    ensures 0 <= y < |e.r.mem| && e.r.mem[y] == e.f.mem[y] &&
        PointeeAge(e.r, e.r.mem[y].addr) == PointeeAge(e.f, e.f.mem[y].addr)
    ensures i < |e.r.sibs| && e.r.sibs[i].start <= y < e.r.sibs[i].firstFree && e.r.cards == e.o.cards
  {
    var v := e.f.mem[y].addr;
    OutlivedSource(e, lists, i, y);
    hide Carding, References, CardsAfter, Landed;
    Lands(e, lists, y, v, v);
    PlaceHalves(e.w, v);
    PlaceHalves(e.r, v);
    LandedAge(e, v);
  }

  lemma OutlivedSource(e: Clean, lists: seq<seq<nat>>, i: nat, y: int)
    requires Carding(e, lists) && UncleanedWord(e.f, i, y) && 0 <= y < |e.f.mem| && e.f.mem[y].Pointer? &&
        !FromWord(e.f, e.f.mem[y])
    ensures y < |e.r.mem| && e.r.mem[y] == e.f.mem[y] && Labels(e) && Copies(e) && Outer(e) && Huges(e, lists) &&
        Scanned0(e, y, e.f.mem[y].addr)
    ensures PointeeAge(e.f, e.f.mem[y].addr) == PointeeAge(e.w, e.f.mem[y].addr) &&
        Relocated(e.f, e.o.c.fwd, e.f.mem[y], e.f.mem[y])
    ensures AgeAt(e.w, e.f.mem[y].addr) > e.w.k ==> PointeeAge(e.w, e.f.mem[y].addr) > e.w.k
    ensures i < |e.r.sibs| && e.r.sibs[i].start <= y < e.r.sibs[i].firstFree && e.r.cards == e.o.cards && i < 4 * e.w.k
  {
    var v := e.f.mem[y].addr;
    assert UncleanedOk(e.f, i, y) && ExtMoved(e.f, e.o.c.fwd, e.o.m, y);
    FlipTargets(e.w, e.k, e.bases, e.grants, e.n, y);
    OtherIsOld(e.f, i, y);
    assert TargetOk(e.w, y) && LabelOk(e.w, y);
    SourceIsScanned(e, lists, y, v);
    RestSib(e, i);
  }

  lemma PlaceHalves(w: Flip, v: nat)
    ensures PointeePlace(w, v) / 2 == PointeeAge(w, v) && PointeePlace(w, v) >= 0
  {
  }

  lemma LandedAge(e: Clean, v: nat)
    requires Landed(e, v, v) && PointeePlace(e.w, v) >= 0 && PointeePlace(e.w, v) / 2 > e.k && AgeAt(e.w, v) <= e.w.k
    ensures PointeePlace(e.r, v) == PointeePlace(e.w, v)
  {
  }

  /** After a clean of ages 1 to k every card agrees with a full scan, if and only if no card was at risk. */
  lemma CardsAreRight(e: Clean, lists: seq<seq<nat>>)
    requires Carding(e, lists)
    ensures AllCovered(e.r) <==> Safe(e.w, e.k)
  {
    if Safe(e.w, e.k) {
      forall i, x ensures CardCovers(e.r, i, x) { SafeIsOff(e.w, e.k, i, x); OffRiskIsCovered(e, lists, i, x); }
    } else {
      var i: nat, d :| Risk(e.w, e.k, i, d);
      var y := RiskyIsLost(e, lists, i, d);
    }
  }

  lemma SafeIsOff(w: Flip, k: nat, i: int, x: int)
    requires Safe(w, k)
    ensures OffRiskyCards(w, k, i, x)
  {
  }

  // ------------------------------------------------------------------ heaps in which no card is at risk

  /** The word of a card at risk that refers to code: live, labelled as being cleaned, and at least two ages older. */
  ghost predicate OldCodeWord(w: Flip, k: nat, z: int) {
    && 0 <= z < |w.mem| && w.mem[z].Pointer? && AgeAt(w, w.mem[z].addr) <= k && KindAt(w, w.mem[z].addr) == CODE_KIND &&
        Code(w, w.mem[z].addr)
    && var d := w.huge[HugeAt(w.b2s, w.quires, w.mem[z].addr)]; LiveHuge(d) && k + 2 <= d.age
  }

  lemma RiskNeedsMixedQuire(w: Flip, roots: seq<nat>, lists: seq<seq<nat>>, quireList: seq<nat>, k: nat, i: nat, d: int)
      returns (z: int)
    requires AtRestBut(w, roots, lists, quireList) && 1 <= k && Risk(w, k, i, d)
    ensures OldCodeWord(w, k, z)
  {
    hide AtRestBut;
    var c := w.(k := k);
    var g, lo, q := SibAge(i), CardStart(w, i, d), CardEnd(w, i, d);
    var y :| YoungOther(c, g, lo, q, y) && AllFromOlder(c, lo, q, y);
    z :| FromAt(c, lo, q, z) && AgeAfter(c, c.mem[z]) < g;
    RiskyIsActive(c, i, d);
    SibInUse(w, roots, lists, quireList, i);
    UsedIsScanned(w, roots, lists, quireList, i, y);
    UsedIsScanned(w, roots, lists, quireList, i, z);
    WordAtRest(w, roots, lists, quireList, y);
    WordAtRest(w, roots, lists, quireList, z);
    if Chunk(w, w.mem[z].addr) { PlainAgeAfter(w, roots, lists, quireList, k, w.mem[z].addr); }
  }

  lemma SibInUse(w: Flip, roots: seq<nat>, lists: seq<seq<nat>>, quireList: seq<nat>, i: nat)
    requires AtRestBut(w, roots, lists, quireList) && i < |w.sibs|
    ensures MapOk(w, w.cards, i) && SibRests(w, i) && SibOk(w, i)
  {
  }

  lemma WordAtRest(w: Flip, roots: seq<nat>, lists: seq<seq<nat>>, quireList: seq<nat>, x: int)
    requires AtRestBut(w, roots, lists, quireList)
    ensures LabelOk(w, x) && TargetOk(w, x) && CodeLives(w, x)
  {
  }

  /** A word in use in a sib of mutable vectors is scanned. */
  lemma UsedIsScanned(w: Flip, roots: seq<nat>, lists: seq<seq<nat>>, quireList: seq<nat>, i: nat, x: int)
    requires AtRestBut(w, roots, lists, quireList) && i < |w.sibs| && i % 4 == RW_POINTERS_SIB &&
        w.sibs[i].start <= x < w.sibs[i].firstFree
    ensures ScanWord(w, x)
  {
    assert UsedOk(w, i, x) && ZoneOk(w, x) && SibOk(w, i) && AreaLabelOk(w, i, x);
    var a := w.zone[x].chunk;
    assert HomeOk(w, a) && ChunkOk(w, a);
    OldWordKind(w, a, x, i);
  }

  /** A plain chunk is at most one age older after it has been cleaned. */
  lemma PlainAgeAfter(w: Flip, roots: seq<nat>, lists: seq<seq<nat>>, quireList: seq<nat>, k: nat, v: nat)
    requires AtRestBut(w, roots, lists, quireList) && Chunk(w, v) && AgeAt(w, v) <= k
    ensures AgeAfter(w.(k := k), Pointer(v)) <= k + 1
  {
    assert HomeOk(w, v) && ChunkOk(w, v);
    assert SibRests(w, SibIndex(AgeAt(w, v), KindAt(w, v)));
  }

  /** The live code at v is at most one age older than its quire is labelled. */
  predicate NearLabel(w: Flip, v: nat) {
    var d := HugeAt(w.b2s, w.quires, v);
    KindAt(w, v) == CODE_KIND && 0 <= d < |w.huge| && LiveHuge(w.huge[d]) ==> w.huge[d].age <= AgeAt(w, v) + 1
  }

  ghost predicate Unmixed(w: Flip) { forall v: nat {:trigger NearLabel(w, v)} :: NearLabel(w, v) }

  /** No card is at risk if all but the oldest agegroup are cleaned, or if no quire mixes ages more than one
      apart. */
  lemma SafeUnlessMixed(w: Flip, roots: seq<nat>, lists: seq<seq<nat>>, quireList: seq<nat>, k: nat)
    requires AtRestBut(w, roots, lists, quireList) && 1 <= k && (w.k <= k + 1 || Unmixed(w))
    ensures Safe(w, k)
  {
    forall i: nat, d ensures !Risk(w, k, i, d) {
      if Risk(w, k, i, d) {
        var z := RiskNeedsMixedQuire(w, roots, lists, quireList, k, i, d);
        MixedIsNotNear(w, roots, lists, quireList, k, z);
      }
    }
  }

  /** Nor is one at risk in a heap that holds nothing. */
  lemma VacantIsSafe(w: Flip, roots: seq<nat>, lists: seq<seq<nat>>, quireList: seq<nat>, k: nat)
    requires AtRestBut(w, roots, lists, quireList) && 1 <= k && Vacant(w)
    ensures Safe(w, k)
  {
    hide AtRestBut, Vacant;
    forall i: nat, d ensures !Risk(w, k, i, d) { EmptyCard(w, roots, lists, quireList, k, i, d); }
  }

  lemma EmptyCard(w: Flip, roots: seq<nat>, lists: seq<seq<nat>>, quireList: seq<nat>, k: nat, i: nat, d: int)
    requires AtRestBut(w, roots, lists, quireList) && Vacant(w)
    ensures i < |w.sibs| && i % 4 == RW_POINTERS_SIB && d >= 0 ==>
        CardEnd(w.(k := k), i, d) <= CardStart(w.(k := k), i, d)
  {
    assert MapOk(w, w.cards, i) && SibRests(w, i);
    if i < |w.sibs| { assert SibOk(w, i); }
  }

  lemma MixedIsNotNear(w: Flip, roots: seq<nat>, lists: seq<seq<nat>>, quireList: seq<nat>, k: nat, z: int)
    requires AtRestBut(w, roots, lists, quireList) && OldCodeWord(w, k, z)
    ensures w.k > k + 1 && !NearLabel(w, w.mem[z].addr)
  {
    LiveAge(w.huge, lists, w.k, HugeAt(w.b2s, w.quires, w.mem[z].addr));
  }

  // ------------------------------------------------------------------ the cards of the new heap

  lemma CardsRest(w: Flip, k: nat, roots: seq<nat>, lists: seq<seq<nat>>, quireList: seq<nat>, requested: seq<nat>,
      nursery: nat,
                  bases: seq<nat>, grants: seq<nat>, n: After, o: Outcome)
    requires Ended(w, k, roots, lists, quireList, requested, nursery, bases, grants, n, o)
    ensures |n.m| == |w.zone| && (AllCovered(Rest(w, k, n, o)) <==> Safe(w, k))
    ensures forall i, x {:trigger CardCovers(Rest(w, k, n, o), i, x)} ::
        OffRiskyCards(w, k, i, x) ==> CardCovers(Rest(w, k, n, o), i, x)
  {
    CleanParts(w, k, roots, lists, quireList, requested, nursery, bases, grants, n, o);
    CardingHolds(w, k, roots, lists, quireList, requested, nursery, bases, grants, n, o);
    var e := CleanOf(w, k, requested, nursery, bases, grants, n, o);
    CardsAreRight(e, lists);
    forall i, x | OffRiskyCards(w, k, i, x) ensures CardCovers(e.r, i, x) { OffRiskIsCovered(e, lists, i, x); }
  }

  lemma CardingHolds(w: Flip, k: nat, roots: seq<nat>, lists: seq<seq<nat>>, quireList: seq<nat>, requested: seq<nat>,
      nursery: nat,
                     bases: seq<nat>, grants: seq<nat>, n: After, o: Outcome)
    requires Ended(w, k, roots, lists, quireList, requested, nursery, bases, grants, n, o) && |n.m| == |w.zone|
    requires var e := CleanOf(w, k, requested, nursery, bases, grants, n, o); References(e, lists) && CardsAfter(e)
    ensures Carding(CleanOf(w, k, requested, nursery, bases, grants, n, o), lists)
  {
    hide References, CardsAfter, Flips, Rest;
    var e := CleanOf(w, k, requested, nursery, bases, grants, n, o);
    EndedParts(w, k, roots, lists, quireList, requested, nursery, bases, grants, n, o);
  }

  lemma EndedParts(w: Flip, k: nat, roots: seq<nat>, lists: seq<seq<nat>>, quireList: seq<nat>, requested: seq<nat>,
      nursery: nat,
                   bases: seq<nat>, grants: seq<nat>, n: After, o: Outcome)
    requires Ended(w, k, roots, lists, quireList, requested, nursery, bases, grants, n, o)
    ensures var f := Flips(w, k, n); Uncleaned(f) && OldCards(f, o.cards) && CardReady(w, w.cards) && CardReady(f,
        f.cards)
    ensures var f := Flips(w, k, n);
      && |f.cards| == |w.cards| == w.k && 4 * w.k == |f.sibs|
      && forall a {:trigger f.cards[a]} :: k <= a < w.k ==> f.cards[a] == w.cards[a]
    ensures forall j, y {:trigger UsedOk(w, j, y)} :: UsedOk(w, j, y)
  {
  }
}
