/** The nursery's part of the book table, which no clean disturbs. */
module NurseryLabels {
  import opened HeapTags
  import opened HeapModel
  import opened Forwarding
  import opened MajorCards
  import opened MajorSizing
  import opened MajorHuge
  import opened HeapWorld
  import opened MajorSetup
  import opened MajorRest
  import opened MinorForward
  import opened MinorRest

  predicate IdleWord(w: Flip, lo: nat, hi: nat, end: nat, x: nat) {
    lo <= x < end ==> x !in w.ext && (hi <= x < |w.zone| ==> w.zone[x].Fixed?)
  }

  /** Words lo to end are labelled as the nursery and are no roots, and those from hi on hold nothing. */
  ghost predicate Nursery(w: Flip, lo: nat, hi: nat, end: nat) {
    && lo <= hi <= end <= |w.zone|
    && (forall v: nat {:trigger NurseryLabel(w, v)} :: NurseryLabel(w, v))
    && (forall x: nat {:trigger NurseryWord(w, lo, end, x)} :: NurseryWord(w, lo, end, x))
    && (forall x: nat {:trigger IdleWord(w, lo, hi, end, x)} :: IdleWord(w, lo, hi, end, x))
  }

  /** A book of the nursery is in no grant, so the flip leaves it alone. */
  lemma NurseryNotGranted(e: Clean, x: nat)
    requires Labels(e) && AgeAt(e.w, x) == 0
    ensures SibidFor(e.n.b2s, x) == SibidFor(e.w.b2s, x)
  {
    forall a ensures !InWords(e.bases, e.grants, a, x) {
      assert InWords(e.bases, e.grants, a, x) ==> AgeAt(e.w, x) != 0;
    }
    NotGranted(e.w, e.k, e.bases, e.grants, e.n, x);
  }

  /** No from-space shares a book with the nursery. */
  lemma NurseryNotFreed(e: Clean, x: nat)
    requires Labels(e) && SibidFor(e.n.b2s, x).age == 0
    ensures SibidFor(e.o.unmapped, x) == SibidFor(e.n.b2s, x)
  {
    assert FreedBook(e.o.copied, e.n.b2s, e.o.unmapped, 0, 4 * e.k, x / BOOK);
    forall i | 0 <= i < 4 * e.k ensures !FromBookOf(e.o.copied, i, x / BOOK) {
      if FromBookOf(e.o.copied, i, x / BOOK) {
        var y := FromBookHeld(e, i, x / BOOK);
      }
    }
  }

  lemma NurseryWordKept(e: Clean, x: nat)
    requires Labels(e) && SibidFor(e.w.b2s, x) == AGEGROUP0_SIBID
    ensures SibidFor(e.r.b2s, x) == AGEGROUP0_SIBID &&
        (x < |e.w.zone| && e.w.zone[x].Fixed? ==> x < |e.r.zone| && e.r.zone[x].Fixed?)
  {
    NurseryNotGranted(e, x);
    NurseryNotFreed(e, x);
    assert x / BOOK < |e.o.b2s| ==> e.o.b2s[x / BOOK].kind == e.o.unmapped[x / BOOK].kind;
    assert RestZoneAt(e, x);
  }

  /** No book becomes part of the nursery. */
  lemma NurseryLabelKept(e: Clean, v: nat)
    requires Labels(e) && NurseryLabel(e.w, v)
    ensures NurseryLabel(e.r, v)
  {
    assert FreedBook(e.o.copied, e.n.b2s, e.o.unmapped, 0, 4 * e.k, v / BOOK);
    assert BookAfter(e.w.b2s, e.n.b2s, e.bases, e.grants, e.k, v / BOOK);
    assert v / BOOK < |e.o.b2s| && e.o.b2s[v / BOOK] != e.o.unmapped[v / BOOK] ==> e.o.b2s[v / BOOK].age >= 1;
  }

  /** The nursery is as empty after a major clean as before. */
  lemma NurseryAfterMajor(e: Clean, lo: nat, end: nat)
    requires Labels(e) && Nursery(e.w, lo, lo, end)
    ensures Nursery(e.r, lo, lo, end)
  {
    forall v: nat ensures NurseryLabel(e.r, v) {
      assert NurseryLabel(e.w, v);
      NurseryLabelKept(e, v);
    }
    forall x: nat ensures NurseryWord(e.r, lo, end, x) && IdleWord(e.r, lo, lo, end, x) {
      assert NurseryWord(e.w, lo, end, x) && IdleWord(e.w, lo, lo, end, x) && NurseryLabel(e.w, x);
      if lo <= x < end { NurseryWordKept(e, x); }
    }
  }
}
