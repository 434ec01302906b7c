/** How large a quire hugechunk.c asks of the operating system.  The quire holds its own page map, which grows with
    the pages it maps, so the sizes are found by iterating to a fixpoint. */
module HugechunkQuire {
  import opened HugechunkPool

  const BOOK_BYTESIZE := 0x10000
  const MINIMUM_HUGECHUNK_QUIRE_BYTESIZE := 0x20000

  function BookRounded(bytes: nat): (r: nat)
    ensures bytes <= r < bytes + BOOK_BYTESIZE && r % BOOK_BYTESIZE == 0
  {
    (bytes + BOOK_BYTESIZE - 1) / BOOK_BYTESIZE * BOOK_BYTESIZE
  }

  /** Six fields and a page map of npages entries. */
  function RecordBytesize(npages: nat): nat { 24 + 4 * npages }

  /** The record's size in quanta. */
  function RecordQuanta(npages: nat): (r: nat)
    ensures 6 + npages <= 256 * r < 6 + npages + 256
  {
    Quanta(RecordBytesize(npages))
  }

  /** The size in books of a quire made for npages. */
  function Books(npages: nat): (b: nat)
    ensures b >= 2 && RecordQuanta(npages) + npages <= 64 * b
    ensures b == 2 || 64 * b < RecordQuanta(npages) + npages + 64
  {
    var b := (RecordQuanta(npages) + npages + 63) / 64;
    if b < 2 then 2 else b
  }

  /** The pages that fit in it. */
  function Refit(npages: nat): (r: nat)
    ensures r >= npages
  {
    64 * Books(npages) - RecordQuanta(npages)
  }

  /** The quire holds its record and its pages and nothing else. */
  predicate Exact(npages: nat, quireBytes: nat) {
    && quireBytes == (RecordQuanta(npages) + npages) * QUANTUM
    && quireBytes % BOOK_BYTESIZE == 0 && quireBytes >= MINIMUM_HUGECHUNK_QUIRE_BYTESIZE
  }

  lemma FixpointIsExact(n: nat)
    requires Refit(n) == n
    ensures Exact(n, Books(n) * BOOK_BYTESIZE)
  {
  }

  /** The record grows by one quantum every 256 pages, and refitting adds fewer, so the second refit is the last.  The
      first size stays just when filling it up does not make the record grow; otherwise it is one book more. */
  lemma SecondRefitIsFixpoint(n: nat)
    ensures Refit(Refit(Refit(n))) == Refit(Refit(n))
    ensures Books(Refit(Refit(n))) == Books(n) + if RecordQuanta(Refit(n)) == RecordQuanta(n) then 0 else 1
  {
    hide RecordQuanta, Books;
    var n1 := Refit(n);
    assert n1 - n < 128 && RecordQuanta(n) <= RecordQuanta(n1) <= RecordQuanta(n) + 1;
    if RecordQuanta(n1) == RecordQuanta(n) {
      assert Books(n1) == Books(n);
    } else {
      assert Books(n1) == Books(n) + 1;
      var n2 := Refit(n1);
      assert n2 == n1 + 63;
      assert RecordQuanta(n2) == RecordQuanta(n1);
      assert Books(n2) == Books(n1);
    }
  }

  /** A quire of so many books is large enough for a record of m pages and the pages, filled by them or not. */
  predicate LargeEnough(books: nat, m: nat) { books >= 2 && RecordQuanta(m) + m <= 64 * books }

  /** The loop's first guess is the least size that holds the pages asked for, or more. */
  lemma FirstGuessIsLeast(n: nat, m: nat, books: nat)
    requires n <= m && LargeEnough(books, m)
    ensures LargeEnough(Books(n), n) && Books(n) <= books
  {
    hide RecordQuanta, Books;
    assert RecordQuanta(n) <= RecordQuanta(m);
  }

  /** The quire found is the smallest that holds the request if and only if, filled up, the first guess needs no larger
      record. */
  lemma LeastQuire(bytes: nat)
    ensures var n := Quanta(bytes);
      (forall m: nat, books: nat {:trigger LargeEnough(books, m)} :: n <= m && LargeEnough(books, m) ==>
        Books(Refit(Refit(n))) <= books) <==> RecordQuanta(Refit(n)) == RecordQuanta(n)
  {
    hide RecordQuanta, Books, Quanta, Refit, LargeEnough;
    var n := Quanta(bytes);
    SecondRefitIsFixpoint(n);
    FirstGuessHolds(n);
    forall m: nat, books: nat | n <= m && LargeEnough(books,
        m) ensures Books(n) <= books { FirstGuessIsLeast(n, m, books); }
  }

  lemma FirstGuessHolds(n: nat)
    ensures LargeEnough(Books(n), n)
  {
  }

  /** Among the quires that record and pages fill it is the smallest also when one page less than fills the first guess
      needs no larger record, for then none of that size is filled. */
  lemma LeastFilledQuire(bytes: nat)
    ensures var n := Quanta(bytes);
      (forall m: nat, books: nat {:trigger Fills(books, m)} :: n <= m && Fills(books, m) ==>
        Books(Refit(Refit(n))) <= books) <==>
      (RecordQuanta(Refit(n)) == RecordQuanta(n) || RecordQuanta(Refit(n) - 1) == RecordQuanta(n))
  {
    hide RecordQuanta, Books, Quanta, Fills;
    var n := Quanta(bytes);
    var n1 := Refit(n);
    SecondRefitIsFixpoint(n);
    FillsIs(Books(n), n1 - 1);
    forall m: nat, books: nat | n <= m && Fills(books, m)
      ensures Books(n) <= books && (books == Books(n) && RecordQuanta(n1) != RecordQuanta(n) ==> m == n1 - 1)
    {
      FillsIs(books, m);
      FillersOf(n, m, books);
    }
  }

  predicate Fills(books: nat, m: nat) { Exact(m, books * BOOK_BYTESIZE) }

  lemma FillsIs(books: nat, m: nat)
    ensures Fills(books, m) <==> books >= 2 && RecordQuanta(m) + m == 64 * books
  {
    hide RecordQuanta;
  }

  lemma FillersOf(n: nat, m: nat, books: nat)
    requires n <= m && books >= 2 && RecordQuanta(m) + m == 64 * books
    ensures Books(n) <= books
    ensures books == Books(n) && RecordQuanta(Refit(n)) != RecordQuanta(n) ==> m == Refit(n) - 1
  {
    hide RecordQuanta, Books;
    FirstGuessIsLeast(n, m, books);
    if books == Books(n) {
      var n1 := Refit(n);
      assert m <= n1 && RecordQuanta(n) <= RecordQuanta(m) <= RecordQuanta(n1) <= RecordQuanta(n) + 1;
    }
  }

  /** It is never more than a book too large. */
  lemma AtMostOneBookOver(bytes: nat, m: nat, books: nat)
    requires Quanta(bytes) <= m && LargeEnough(books, m)
    ensures Books(Refit(Refit(Quanta(bytes)))) <= books + 1
  {
    hide RecordQuanta, Books, Quanta, Refit, LargeEnough;
    SecondRefitIsFixpoint(Quanta(bytes));
    FirstGuessIsLeast(Quanta(bytes), m, books);
  }

  /** Two requests for which it is: for 250 pages the loop finds five books, and four hold 254 pages with nothing to
      spare; for 1274 it finds 21, and 20 hold them with one quantum to spare. */
  lemma OneBookOver()
    ensures Books(Refit(Refit(250))) == 5 && LargeEnough(4, 254) && Exact(254, 4 * BOOK_BYTESIZE)
    ensures Books(Refit(Refit(1274))) == 21 && LargeEnough(20, 1274) && RecordQuanta(1274) + 1274 == 64 * 20 - 1
  {
    assert RecordQuanta(250) == 1 && Refit(250) == 255 && RecordQuanta(255) == 2 && Refit(255) == 318;
    assert RecordQuanta(1274) == 5 && Refit(1274) == 1275 && RecordQuanta(1275) == 6 && Refit(1275) == 1338;
  }

  ghost function RefitsLeft(n: nat): nat {
    if Refit(n) == n then 0 else if Refit(Refit(n)) == Refit(n) then 1 else 2
  }

  method SizeQuire(bytes: nat) returns (npages: nat, quireBytes: nat)
    ensures Exact(npages, quireBytes) && npages * QUANTUM >= bytes
    ensures npages == Refit(Refit(Quanta(bytes))) && quireBytes == Books(npages) * BOOK_BYTESIZE
  {
    hide RecordQuanta, Books, Refit;
    npages := Quanta(bytes);
    ghost var first := npages;
    SecondRefitIsFixpoint(first);
    var old_npages := npages;
    npages, quireBytes := Refitted(npages);
    while npages != old_npages
      invariant npages == Refit(old_npages) && quireBytes == Books(old_npages) * BOOK_BYTESIZE
      invariant old_npages >= first && Refit(npages) == Refit(Refit(first))
      invariant old_npages in {first, Refit(first), Refit(Refit(first))}
      decreases RefitsLeft(old_npages)
    {
      old_npages := npages;
      npages, quireBytes := Refitted(npages);
    }
    FixpointIsExact(npages);
  }

  /** One pass of the loop's body. */
  method Refitted(npages: nat) returns (r: nat, quireBytes: nat)
    ensures r == Refit(npages) && quireBytes == Books(npages) * BOOK_BYTESIZE
  {
    hide BookRounded, Quanta;
    var recordBytes := Quanta(RecordBytesize(npages)) * QUANTUM;
    var bytes := npages * QUANTUM;
    ghost var quanta := RecordQuanta(npages) + npages;
    BookRoundedQuanta(quanta);
    quireBytes := BookRounded(recordBytes + bytes);
    if quireBytes < MINIMUM_HUGECHUNK_QUIRE_BYTESIZE { quireBytes := MINIMUM_HUGECHUNK_QUIRE_BYTESIZE; }
    WholePages(Books(npages), RecordQuanta(npages));
    r := (quireBytes - recordBytes) / QUANTUM;
  }

  lemma BookRoundedQuanta(n: nat)
    ensures BookRounded(n * QUANTUM) == (n + 63) / 64 * BOOK_BYTESIZE
  {
  }

  lemma WholePages(books: nat, n: nat)
    requires n <= 64 * books
    ensures (books * BOOK_BYTESIZE - n * QUANTUM) / QUANTUM == 64 * books - n
  {
  }
}
