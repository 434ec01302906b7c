/** The tables of C functions that Mythryl code can call: src/c/heapcleaner/mythryl-callable-cfun-hashtable.c, and how
    a heap image names them: export-heap-stuff.c and import-heap-stuff.c.

    Names are published without nicknames.  Bucket lists are sequences,
        newest first; the hash of a name is a parameter. */
module CfunTable {
  import opened Wrappers
  import opened HeapTags
  import opened HeapModel

  const EXTERNAL_REFERENCE: Btag := 16

  /** A published resource; the address is a word index. */
  datatype Cfun = Cfun(name: string, addr: nat)

  // ------------------------------------------------------------------ bucket vectors

  type Buckets<T> = seq<seq<T>>

  predicate InBucket<T(==)>(b: Buckets<T>, i: int, e: T) { 0 <= i < |b| && e in b[i] }

  /** Entry e is in the bucket its key selects if it is in s, and in no other. */
  predicate Placed<T(==)>(b: Buckets<T>, s: set<T>, key: T -> nat, i: int, e: T) {
    InBucket(b, i, e) <==> e in s && |b| > 0 && i == key(e) % |b|
  }

  ghost predicate Holds<T(!new)>(b: Buckets<T>, s: set<T>, key: T -> nat) {
    (forall i: int, e: T {:trigger InBucket(b, i, e)} :: Placed(b, s, key, i, e)) && (s != {} ==> |b| > 0)
  }

  lemma NoneHeld<T(!new)>(b: Buckets<T>, key: T -> nat)
    requires forall i :: 0 <= i < |b| ==> b[i] == []
    ensures Holds(b, {}, key)
  {
    forall i: int, e: T ensures Placed(b, {}, key, i, e) { }
  }

  function Pushed<T>(b: Buckets<T>, i: nat, e: T): Buckets<T>
    requires i < |b|
  {
    b[i := [e] + b[i]]
  }

  lemma PushHolds<T(!new)>(b: Buckets<T>, s: set<T>, key: T -> nat, e: T)
    requires Holds(b, s, key) && |b| > 0
    ensures Holds(Pushed(b, key(e) % |b|, e), s + {e}, key)
  {
    var r := Pushed(b, key(e) % |b|, e);
    forall i: int, d: T ensures Placed(r, s + {e}, key, i, d) { assert Placed(b, s, key, i,
        d); ghost var x := InBucket(b, i, d); }
  }

  /** Move all entries to a larger vector. */
  method Rehash<T(!new,==)>(b: Buckets<T>, key: T -> nat, size: nat, ghost s: set<T>) returns (r: Buckets<T>)
    requires size > 0 && Holds(b, s, key)
    ensures |r| == size && Holds(r, s, key)
  {
    r := seq(size, _ => []);
    ghost var moved: set<T> := {};
    NoneHeld(r, key);
    var i := 0;
    while i < |b|
      invariant i <= |b| && |r| == size && Holds(r, moved, key)
      invariant forall e: T :: e in moved <==> e in s && key(e) % |b| < i
    {
      var k := 0;
      while k < |b[i]|
        invariant k <= |b[i]| && |r| == size && Holds(r, moved, key)
        invariant forall e: T :: e in moved <==> e in s && (key(e) % |b| < i || (key(e) % |b| == i && e in b[i][..k]))
      {
        var e := b[i][k];
        assert InBucket(b, i, e);
        PushHolds(r, moved, key, e);
        r := Pushed(r, key(e) % size, e);
        moved := moved + {e};
        k := k + 1;
        assert b[i][..k] == b[i][..k - 1] + [e];
      }
      forall e: T ensures e in moved <==> e in s && key(e) % |b| < i + 1 {
        assert b[i][..k] == b[i];
        if e in s && key(e) % |b| == i { assert Placed(b, s, key, i, e); }
      }
      i := i + 1;
    }
    assert moved == s;
  }

  // ------------------------------------------------------------------ the published names

  /** A name has one address, and an address one name. */
  ghost predicate OneToOne(s: set<Cfun>) {
    forall d, e :: d in s && e in s ==> (d.name == e.name <==> d.addr == e.addr)
  }

  function NameKey(hash: string -> nat): Cfun -> nat { (e: Cfun) => hash(e.name) }

  /** The bucket of an address: its byte address without the low three bits. */
  function AddrKey(e: Cfun): nat { e.addr / 2 }

  class SymbolTable {
    const hash: string -> nat
    var by_name: Buckets<Cfun>
    var by_addr: Buckets<Cfun>
    var count: nat
    ghost var published: set<Cfun>

    ghost predicate Valid() reads this {
      && Holds(by_name, published, NameKey(hash)) && Holds(by_addr, published, AddrKey)
      && |by_name| == |by_addr| && count == |published| <= |by_name| && OneToOne(published)
    }

    constructor (hash: string -> nat)
      ensures Valid() && published == {} && this.hash == hash
    {
      this.hash := hash;
      by_name, by_addr, count, published := [], [], 0, {};
      NoneHeld<Cfun>([], NameKey(hash));
      NoneHeld<Cfun>([], AddrKey);
    }

    method Double()
      requires Valid()
      modifies this`by_name, this`by_addr
      ensures Valid() && |by_name| > |old(by_name)|
    {
      var size := if |by_name| > 0 then 2 * |by_name| else 64;
      by_name := Rehash(by_name, NameKey(hash), size, published);
      by_addr := Rehash(by_addr, AddrKey, size, published);
    }

    /** A name is refused, which ends the program, just when it or the address is published with another partner. */
    method PublishCfun(name: string, addr: nat) returns (ok: bool)
      requires Valid()
      modifies this
      ensures ok <==> OneToOne(old(published) + {Cfun(name, addr)})
      ensures ok ==> Valid() && published == old(published) + {Cfun(name, addr)}
    {
      hide Holds;
      if count == |by_name| { Double(); }
      var item := Cfun(name, addr);
      var p := FindEntry(name);
      if p.Some? {
        assert p.value.addr == addr ==> p.value == item;
        assert p.value.addr == addr ==> published == published + {item};
        return p.value.addr == addr;
      }
      PushHolds(by_name, published, NameKey(hash), item);
      var names := Pushed(by_name, hash(name) % |by_name|, item);
      p := FindAddr(addr);
      if p.Some? {
        return false;
      }
      by_name := names;
      PushHolds(by_addr, published, AddrKey, item);
      by_addr := Pushed(by_addr, AddrKey(item) % |by_addr|, item);
      count := count + 1;
      published := published + {item};
      ok := true;
    }

    /** The entry of a name. */
    method FindEntry(name: string) returns (r: Option<Cfun>)
      requires Valid() && |by_name| > 0
      ensures if r.Some? then r.value in published && r.value.name == name else forall e | e in published ::
          e.name != name
    {
      var n := hash(name) % |by_name|;
      var p := by_name[n];
      while p != []
        invariant forall e: Cfun :: e in p ==> e in by_name[n]
        invariant forall e: Cfun :: e in by_name[n] && e.name == name ==> e in p
        decreases |p|
      {
        if p[0].name == name {
          assert InBucket(by_name, n, p[0]);
          return Some(p[0]);
        }
        p := p[1..];
      }
      forall e | e in published ensures e.name != name {
        assert Placed(by_name, published, NameKey(hash), n, e);
        ghost var x := InBucket(by_name, n, e);
      }
      r := None;
    }

    /** The entry of an address. */
    method FindAddr(addr: nat) returns (r: Option<Cfun>)
      requires Valid() && |by_addr| > 0
      ensures if r.Some? then r.value in published && r.value.addr == addr else forall e | e in published ::
          e.addr != addr
    {
      var n := addr / 2 % |by_addr|;
      var p := by_addr[n];
      while p != []
        invariant forall e: Cfun :: e in p ==> e in by_addr[n]
        invariant forall e: Cfun :: e in by_addr[n] && e.addr == addr ==> e in p
        decreases |p|
      {
        if p[0].addr == addr {
          assert InBucket(by_addr, n, p[0]);
          return Some(p[0]);
        }
        p := p[1..];
      }
      forall e | e in published ensures e.addr != addr {
        assert Placed(by_addr, published, AddrKey, n, e);
        ghost var x := InBucket(by_addr, n, e);
      }
      r := None;
    }

    method FindCfun(name: string) returns (r: Option<nat>)
      requires Valid() && |by_name| > 0
      ensures r == AddrOf(published, name)
    {
      var e := FindEntry(name);
      if e.Some? { AddrOfIs(published, e.value); }
      r := if e.Some? then Some(e.value.addr) else None;
    }

    method NameOfCfun(addr: nat) returns (r: Option<string>)
      requires Valid() && |by_addr| > 0
      ensures r == NameOf(published, addr)
    {
      var e := FindAddr(addr);
      if e.Some? { NameOfIs(published, e.value); }
      r := if e.Some? then Some(e.value.name) else None;
    }
  }

  ghost function AddrOf(s: set<Cfun>, name: string): Option<nat> {
    if exists e :: e in s && e.name == name then (var e :| e in s && e.name == name; Some(e.addr)) else None
  }

  ghost function NameOf(s: set<Cfun>, addr: nat): Option<string> {
    if exists e :: e in s && e.addr == addr then (var e :| e in s && e.addr == addr; Some(e.name)) else None
  }

  lemma AddrOfIs(s: set<Cfun>, e: Cfun)
    requires OneToOne(s) && e in s
    ensures AddrOf(s, e.name) == Some(e.addr)
  {
  }

  lemma NameOfIs(s: set<Cfun>, e: Cfun)
    requires OneToOne(s) && e in s
    ensures NameOf(s, e.addr) == Some(e.name)
  {
  }

  /** The two indexes are inverse to each other. */
  lemma IndexesAreInverse(s: set<Cfun>, name: string, addr: nat)
    requires OneToOne(s)
    ensures AddrOf(s, name) == Some(addr) <==> NameOf(s, addr) == Some(name)
  {
    if AddrOf(s, name) == Some(addr) {
      NameOfIs(s, Cfun(name, addr));
    }
    if NameOf(s, addr) == Some(name) {
      AddrOfIs(s, Cfun(name, addr));
    }
  }

  // ------------------------------------------------------------------ the table of a heap file

  datatype Ref = Ref(item: Cfun, index: nat)

  function RefKey(r: Ref): nat { AddrKey(r.item) }

  predicate Distinct(s: seq<Cfun>) { forall i, j :: 0 <= i < j < |s| ==> s[i].addr != s[j].addr }

  ghost function Refs(s: seq<Cfun>): set<Ref> { set i | 0 <= i < |s| :: Ref(s[i], i) }

  /** What adding an address does: it has an index already, gets the next one, or is not published. */
  predicate Added(published: set<Cfun>, before: seq<Cfun>, after: seq<Cfun>, addr: nat, w: Word) {
    if exists i :: 0 <= i < |before| && before[i].addr == addr then
      after == before && exists i :: 0 <= i < |before| && before[i].addr == addr && w == Tagword(i, EXTERNAL_REFERENCE)
    else if exists e :: e in published && e.addr == addr then
      |after| == |before| + 1 && after[..|before|] == before && after[|before|] in published &&
          after[|before|].addr == addr
      && w == Tagword(|before|, EXTERNAL_REFERENCE)
    else after == before && w == HEAP_VOID
  }

  predicate IsExternalTag(w: Word) { w.Tagword? && w.btag == EXTERNAL_REFERENCE }

  predicate IsExtern(b2s: seq<Sibid>, w: Word) { w.Pointer? && SibidFor(b2s, w.addr) == UNMAPPED_BOOK_SIBID }

  predicate Indexed(entries: seq<Cfun>, addr: nat, j: nat) { j < |entries| && entries[j].addr == addr }

  class HeapfileCfunTable {
    const symbols: SymbolTable
    var buckets: Buckets<Ref>
    var count: nat
    var all_entries: seq<Option<Cfun>>   // physical slots, the first count of them filled
    ghost var entries: seq<Cfun>

    ghost predicate Valid() reads this, symbols {
      && symbols.Valid() && Holds(buckets, Refs(entries), RefKey) && Distinct(entries)
      && count == |entries| <= |all_entries| && (forall i {:trigger entries[i]} ::
          0 <= i < count ==> all_entries[i] == Some(entries[i]) && entries[i] in symbols.published)
    }

    constructor (symbols: SymbolTable)
      requires symbols.Valid()
      ensures Valid() && entries == [] && this.symbols == symbols
    {
      this.symbols := symbols;
      buckets, count, all_entries, entries := [], 0, [], [];
      NoneHeld<Ref>([], RefKey);
      assert Refs([]) == {};
    }

    method AddCfun(addr: nat) returns (w: Word)
      requires Valid() && |symbols.by_addr| > 0
      modifies this
      ensures Valid() && Added(symbols.published, old(entries), entries, addr, w)
    {
      hide Holds;
      if count >= |buckets| {
        buckets := Rehash(buckets, RefKey, if |buckets| > 0 then 2 * |buckets| else 32, Refs(entries));
      }
      var k := IndexOf(addr);
      if k.Some? {
        return Tagword(k.value, EXTERNAL_REFERENCE);
      }
      var q := symbols.FindAddr(addr);
      if q.None? {
        return HEAP_VOID;
      }
      w := Append(q.value);
    }

    /** Give a new address the next index. */
    method Append(q: Cfun) returns (w: Word)
      requires Valid() && |buckets| > 0 && q in symbols.published &&
          forall i :: 0 <= i < |entries| ==> entries[i].addr != q.addr
      modifies this`buckets, this`count, this`all_entries, this`entries
      ensures Valid() && entries == old(entries) + [q] && w == Tagword(old(count), EXTERNAL_REFERENCE)
    {
      hide Holds;
      var index := count;
      count := count + 1;
      if |all_entries| <= index {
        Grow();
      }
      all_entries := all_entries[index := Some(q)];
      PushHolds(buckets, Refs(entries), RefKey, Ref(q, index));
      buckets := Pushed(buckets, q.addr / 2 % |buckets|, Ref(q, index));
      RefsOfMore(entries, q);
      entries := entries + [q];
      w := Tagword(index, EXTERNAL_REFERENCE);
    }

    /** The index an address has already. */
    method IndexOf(addr: nat) returns (k: Option<nat>)
      requires Holds(buckets, Refs(entries), RefKey) && |buckets| > 0
      ensures if k.Some? then k.value < |entries| && entries[k.value].addr == addr
              else forall i :: 0 <= i < |entries| ==> entries[i].addr != addr
    {
      var n := addr / 2 % |buckets|;
      var p := buckets[n];
      while p != []
        invariant forall r: Ref :: r in p ==> r in buckets[n]
        invariant forall r: Ref :: r in buckets[n] && r.item.addr == addr ==> r in p
        decreases |p|
      {
        if p[0].item.addr == addr {
          assert InBucket(buckets, n, p[0]);
          return Some(p[0].index);
        }
        p := p[1..];
      }
      forall i | 0 <= i < |entries| ensures entries[i].addr != addr {
        var r := Ref(entries[i], i);
        assert r in Refs(entries) && Placed(buckets, Refs(entries), RefKey, n, r);
        ghost var x := InBucket(buckets, n, r);
      }
      k := None;
    }

    /** Double the slots and copy what they hold. */
    method Grow()
      modifies this`all_entries
      ensures |all_entries| > |old(all_entries)| && all_entries[..|old(all_entries)|] == old(all_entries)
    {
      var size := if |all_entries| == 0 then 64 else 2 * |all_entries|;
      var slots: seq<Option<Cfun>> := seq(size, _ => None);
      var i := 0;
      while i < |all_entries|
        invariant i <= |all_entries| && |slots| == size && slots[..i] == all_entries[..i]
      {
        slots := slots[i := all_entries[i]];
        i := i + 1;
      }
      all_entries := slots;
    }

    /** The address an index stands for; an index out of range ends the program. */
    method GetCfunAddress(w: Word) returns (r: Option<nat>)
      requires Valid() && w.Tagword?
      ensures r == if w.len < |entries| then Some(entries[w.len].addr) else None
    {
      if w.len >= count { return None; }
      assert all_entries[w.len] == Some(entries[w.len]);
      r := Some(all_entries[w.len].value.addr);
    }
  }

  lemma RefsOfMore(s: seq<Cfun>, e: Cfun)
    ensures Refs(s + [e]) == Refs(s) + {Ref(e, |s|)}
  {
    var t := s + [e];
    forall r: Ref ensures r in Refs(t) <==> r in Refs(s) || r == Ref(e, |s|) {
      if r in Refs(s) { assert t[r.index] == s[r.index]; }
      if r == Ref(e, |s|) { assert t[|s|] == e; }
    }
  }

  // ------------------------------------------------------------------ names in the file

  predicate IsCString(s: string) { '\0' !in s }

  /** Names as C strings, one after the other. */
  function Strings(names: seq<string>): string {
    if names == [] then [] else names[0] + ['\0'] + Strings(names[1..])
  }

  lemma {:induction false} StringsOfMore(names: seq<string>, name: string)
    ensures Strings(names + [name]) == Strings(names) + name + ['\0']
  {
    if names == [] {
      assert names + [name] == [name];
    } else {
      assert (names + [name])[1..] == names[1..] + [name];
      StringsOfMore(names[1..], name);
    }
  }

  function Names(s: seq<Cfun>): (r: seq<string>)
    ensures |r| == |s|
  {
    seq(|s|, i requires 0 <= i < |s| => s[i].name)
  }

  /** The names in index order, padded to whole words. */
  method WriteCfunTable(table: HeapfileCfunTable) returns (count: nat, buf: string)
    requires table.Valid()
    ensures count == |table.entries| && Strings(Names(table.entries)) <= buf && |buf| % 4 == 0 &&
        |buf| < |Strings(Names(table.entries))| + 4
  {
    count := table.count;
    buf := "";
    var i := 0;
    while i < count
      invariant i <= count == |table.entries| && buf == Strings(Names(table.entries)[..i])
    {
      assert table.all_entries[i] == Some(table.entries[i]);
      StringsOfMore(Names(table.entries)[..i], table.entries[i].name);
      assert Names(table.entries)[..i + 1] == Names(table.entries)[..i] + [table.entries[i].name];
      buf := buf + table.all_entries[i].value.name + ['\0'];
      i := i + 1;
    }
    assert Names(table.entries)[..i] == Names(table.entries);
    var padding := (4 - |buf| % 4) % 4;
    Padded(|buf|);
    buf := buf + seq(padding, _ => '\0');
  }

  lemma Padded(n: nat)
    ensures (n + (4 - n % 4) % 4) % 4 == 0
  {
  }

  /** What the names mean where the image is read; none if one of them is not published there. */
  ghost function Found(s: set<Cfun>, names: seq<string>): Option<seq<nat>> {
    if names == [] then Some([])
    else
      var a, rest := AddrOf(s, names[0]), Found(s, names[1..]);
      if a.Some? && rest.Some? then Some([a.value] + rest.value) else None
  }

  lemma {:induction false} FoundStops(s: set<Cfun>, names: seq<string>, i: nat)
    requires i < |names| && AddrOf(s, names[i]).None?
    ensures Found(s, names).None?
  {
    if i > 0 { FoundStops(s, names[1..], i - 1); }
  }

  lemma {:induction false} FoundMore(s: set<Cfun>, names: seq<string>, name: string)
    requires Found(s, names).Some? && AddrOf(s, name).Some?
    ensures Found(s, names + [name]) == Some(Found(s, names).value + [AddrOf(s, name).value])
  {
    if names == [] {
      assert names + [name] == [name] && [name][1..] == [] && Found(s, []) == Some([]);
      assert [AddrOf(s, name).value] + [] == [] + [AddrOf(s, name).value];
    } else {
      var more := names + [name];
      assert more[0] == names[0] && more[1..] == names[1..] + [name];
      FoundMore(s, names[1..], name);
      var found, a := Found(s, names[1..]).value, AddrOf(s, names[0]).value;
      assert [a] + (found + [AddrOf(s, name).value]) == ([a] + found) + [AddrOf(s, name).value];
    }
  }

  method ReadExternsTable(symbols: SymbolTable, count: nat, buf: string, ghost names: seq<string>)
      returns (r: Option<seq<nat>>)
    requires symbols.Valid() && |symbols.by_name| > 0
    requires count == |names| && Strings(names) <= buf && forall k :: 0 <= k < |names| ==> IsCString(names[k])
    ensures r == Found(symbols.published, names)
  {
    var externs: seq<nat> := [];
    var cp := 0;
    var i := 0;
    assert names[..0] == [] && names[0..] == names;
    while i < count
      invariant i <= count && 0 <= cp <= |buf| && Strings(names[i..]) <= buf[cp..]
      invariant Found(symbols.published, names[..i]) == Some(externs)
    {
      ghost var rest := names[i..];
      assert rest[0] == names[i] && rest[1..] == names[i + 1..];
      var len := Strlen(buf, cp, names[i]);
      var name := buf[cp..cp + len];
      assert name == names[i];
      var addr := symbols.FindCfun(name);
      if addr.None? {
        FoundStops(symbols.published, names, i);
        return None;
      }
      FoundMore(symbols.published, names[..i], name);
      assert names[..i + 1] == names[..i] + [name];
      externs := externs + [addr.value];
      cp := cp + len + 1;
      i := i + 1;
    }
    assert names[..i] == names;
    r := Some(externs);
  }

  method Strlen(buf: string, cp: nat, ghost name: string) returns (len: nat)
    requires IsCString(name) && cp <= |buf| && name + ['\0'] <= buf[cp..]
    ensures len == |name|
  {
    len := 0;
    assert forall k :: 0 <= k <= |name| ==> buf[cp + k] == (name + ['\0'])[k];
    while buf[cp + len] != '\0'
      invariant len <= |name|
      decreases |name| - len
    {
      len := len + 1;
    }
  }

  /** The addresses found for the names of the table. */
  ghost predicate SameAddresses(entries: seq<Cfun>, externs: seq<nat>) {
    |externs| == |entries| && forall j {:trigger externs[j]} :: 0 <= j < |externs| ==> externs[j] == entries[j].addr
  }

  /** Reading the names back, where the same resources are published, gives every index its address again. */
  lemma {:induction false} ExternsRoundTrip(s: set<Cfun>, entries: seq<Cfun>)
    requires OneToOne(s) && forall i :: 0 <= i < |entries| ==> entries[i] in s
    ensures Found(s, Names(entries)).Some? && SameAddresses(entries, Found(s, Names(entries)).value)
  {
    if entries != [] {
      var rest := entries[1..];
      assert Names(entries)[1..] == Names(rest);
      ExternsRoundTrip(s, rest);
      AddrOfIs(s, entries[0]);
    }
  }
}
