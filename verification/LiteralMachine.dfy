/** The bytecode loop of src/c/heapcleaner/make-package-literals-via-bytecode-interpreter.c.

    The list of literals made so far is itself in the heap and is a root,
        so a heapcleaning may move it at every turn and
    at every allocation.  When that happens, how things are moved and where chunks are allocated are parameters. */
module LiteralMachine {
  import opened Wrappers
  import opened Literals

  const V1_MAGIC := 0x19981022

  const MAKE_TAGGED_VAL := 0x01
  const MAKE_FOUR_BYTE_VAL := 0x02
  const MAKE_FOUR_BYTE_VALS_VECTOR := 0x03
  const MAKE_EIGHT_BYTE_VAL := 0x04
  const MAKE_EIGHT_BYTE_VALS_VECTOR := 0x05
  const MAKE_ASCII_STRING := 0x06
  const GET_ITH_LITERAL := 0x07
  const MAKE_VECTOR := 0x08
  const MAKE_RECORD := 0x09
  const RETURN_LAST_LITERAL := 0xff

  // ------------------------------------------------------------------ bytes

  predicate IsInt32(i: int) { -0x8000_0000 <= i < 0x8000_0000 }

  function Put32(i: int): (r: seq<Byte>)
    ensures |r| == 4
  {
    var u := i % 0x1_0000_0000;
    [u / 0x100_0000, u / 0x1_0000 % 256, u / 256 % 256, u % 256]
  }

  /** Four bytes in big-endian order, as a signed number. */
  function Get32(p: seq<Byte>, pc: nat): int
    requires pc + 4 <= |p|
  {
    var u := (p[pc] as int) * 0x100_0000 + (p[pc + 1] as int) * 0x1_0000 + (p[pc + 2] as int) * 256 + p[pc + 3] as int;
    if u >= 0x8000_0000 then u - 0x1_0000_0000 else u
  }

  predicate At(p: seq<Byte>, pc: nat, bytes: seq<Byte>) { pc + |bytes| <= |p| && p[pc..pc + |bytes|] == bytes }

  lemma AtBoth(p: seq<Byte>, pc: nat, a: seq<Byte>, b: seq<Byte>)
    requires At(p, pc, a + b)
    ensures At(p, pc, a) && At(p, pc + |a|, b)
  {
    assert a == p[pc..pc + |a + b|][..|a|] && b == p[pc..pc + |a + b|][|a|..];
  }

  lemma PutGet(p: seq<Byte>, pc: nat, i: int)
    requires IsInt32(i) && At(p, pc, Put32(i))
    ensures pc + 4 <= |p| && Get32(p, pc) == i
  {
    var u, q := i % 0x1_0000_0000, p[pc..pc + 4];
    assert q == Put32(i);
    assert p[pc] == q[0] && p[pc + 1] == q[1] && p[pc + 2] == q[2] && p[pc + 3] == q[3];
    Digits(u);
  }

  /** The most significant byte comes first, and the sign is in its top bit. */
  lemma BigEndian(p: seq<Byte>, pc: nat)
    requires pc + 4 <= |p|
    ensures p[pc..pc + 4] == [0x19, 0x98, 0x10, 0x22] ==> Get32(p, pc) == V1_MAGIC
    ensures p[pc..pc + 4] == [0x00, 0x00, 0x01, 0x02] ==> Get32(p, pc) == 258
    ensures p[pc..pc + 4] == [0xff, 0xff, 0xff, 0xfe] ==> Get32(p, pc) == -2
  {
    var q := p[pc..pc + 4];
    assert p[pc] == q[0] && p[pc + 1] == q[1] && p[pc + 2] == q[2] && p[pc + 3] == q[3];
  }

  lemma Digits(u: nat)
    requires u < 0x1_0000_0000
    ensures u / 0x100_0000 * 0x100_0000 + u / 0x1_0000 % 256 * 0x1_0000 + u / 256 % 256 * 256 + u % 256 == u
  {
    var a, b := u / 256, u / 0x1_0000;
    assert u == 256 * a + u % 256 && b == a / 256 && a == 256 * b + a % 256;
    assert u / 0x100_0000 == b / 256 && b == 256 * (b / 256) + b % 256;
  }

  // ------------------------------------------------------------------ instructions as bytes

  function PutAll(ns: seq<int>): (r: seq<Byte>)
    ensures |r| == 4 * |ns|
  {
    if ns == [] then [] else Put32(ns[0]) + PutAll(ns[1..])
  }

  function Joined(ds: seq<seq<Byte>>): seq<Byte> { if ds == [] then [] else ds[0] + Joined(ds[1..]) }

  predicate Encodable(i: Instr) {
    match i
    case MakeTaggedVal(n) => IsInt32(n)
    case MakeFourByteVal(n) => IsInt32(n)
    case MakeFourByteValsVector(ns) => 0 < |ns| < 0x8000_0000 && forall k :: 0 <= k < |ns| ==> IsInt32(ns[k])
    case MakeEightByteVal(d) => |d| == 8
    case MakeEightByteValsVector(ds) => 0 < |ds| < 0x8000_0000 && forall k :: 0 <= k < |ds| ==> |ds[k]| == 8
    case MakeAsciiString(bytes) => |bytes| < 0x8000_0000
    case GetIthLiteral(k) => k < 0x8000_0000
    case MakeVector(n) => n < 0x8000_0000
    case MakeRecord(n) => n < 0x8000_0000
  }

  function Encode(i: Instr): seq<Byte> {
    match i
    case MakeTaggedVal(n) => [MAKE_TAGGED_VAL] + Put32(n)
    case MakeFourByteVal(n) => [MAKE_FOUR_BYTE_VAL] + Put32(n)
    case MakeFourByteValsVector(ns) => [MAKE_FOUR_BYTE_VALS_VECTOR] + (Put32(|ns|) + PutAll(ns))
    case MakeEightByteVal(d) => [MAKE_EIGHT_BYTE_VAL] + d
    case MakeEightByteValsVector(ds) => [MAKE_EIGHT_BYTE_VALS_VECTOR] + (Put32(|ds|) + Joined(ds))
    case MakeAsciiString(bytes) => [MAKE_ASCII_STRING] + (Put32(|bytes|) + bytes)
    case GetIthLiteral(k) => [GET_ITH_LITERAL] + Put32(k)
    case MakeVector(n) => [MAKE_VECTOR] + Put32(n)
    case MakeRecord(n) => [MAKE_RECORD] + Put32(n)
  }

  function EncodeAll(code: seq<Instr>): seq<Byte> { if code == [] then [] else Encode(code[0]) + EncodeAll(code[1..]) }

  // ------------------------------------------------------------------ the machine

  datatype Outcome = Nil | Died | Literal(value: Val)

  class Interpreter {
    const clean: (nat, Ram, Val) -> (Ram, Val)
    const when: nat -> bool
    const place: Ram -> nat
    var ram: Ram
    var stack: Val
    var turns: nat

    ghost predicate Valid() {
      && (forall h: Ram {:trigger place(h)} :: place(h) !in h)
      && (forall n: nat, h: Ram, v: Val, s: seq<Lit> {:trigger clean(n, h, v), StackMeans(h, v, s)} ::
            StackMeans(h, v, s) ==> Cleaned(h, v, clean(n, h, v).0, clean(n, h, v).1))
    }

    constructor (clean: (nat, Ram, Val) -> (Ram, Val), when: nat -> bool, place: Ram -> nat, ram: Ram)
      ensures this.clean == clean && this.when == when && this.place == place && this.ram == ram && stack == HEAP_NIL
    {
      this.clean, this.when, this.place, this.ram := clean, when, place, ram;
      stack, turns := HEAP_NIL, 0;
    }

    /** A point where the heap may be cleaned. */
    method MayHeapclean(ghost s: seq<Lit>)
      requires Valid() && StackMeans(ram, stack, s)
      modifies this
      ensures StackMeans(ram, stack, s)
    {
      if when(turns) {
        var (r, u) := clean(turns, ram, stack);
        ghost var f :| Moves(ram, r, f) && ClosedVal(f, stack) && u == RenamedVal(f, stack);
        StackAfterCleaning(ram, r, f, stack, s);
        ram, stack := r, u;
      }
      turns := turns + 1;
    }

    method Allocate(c: Chunk, ghost s: seq<Lit>) returns (v: Val)
      requires Valid() && StackMeans(ram, stack, s)
      modifies this`ram
      ensures v.Addr? && v.a !in old(ram) && ram == old(ram)[v.a := c] && Within(old(ram), ram) &&
          StackMeans(ram, stack, s)
    {
      ghost var h := ram;
      v := Addr(place(ram));
      ram := ram[v.a := c];
      forall a: nat ensures Kept(h, ram, a) { }
      StackInMore(h, ram, stack, s);
    }

    method Cons(v: Val, ghost l: Lit, ghost s: seq<Lit>)
      requires Valid() && StackMeans(ram, stack, s) && Means(ram, v, l)
      modifies this`ram, this`stack
      ensures StackMeans(ram, stack, [l] + s)
    {
      ghost var h := ram;
      var cell := Allocate(Record([v, stack]), s);
      MeansInMore(h, ram, v, l);
      assert ([l] + s)[1..] == s;
      stack := cell;
    }

    // ---------------------------------------------------------------- data

    method TaggedVal(p: seq<Byte>, pc: nat, ghost n: int, ghost s: seq<Lit>)
      requires Valid() && StackMeans(ram, stack, s) && IsInt32(n) && At(p, pc, Put32(n))
      modifies this
      ensures StackMeans(ram, stack, [TaggedLit(n)] + s)
    {
      PutGet(p, pc, n);
      var i := Get32(p, pc);
      Cons(Tagged(Wrap31(i)), TaggedLit(n), s);
    }

    method FourByteVal(p: seq<Byte>, pc: nat, ghost n: int, ghost s: seq<Lit>)
      requires Valid() && StackMeans(ram, stack, s) && IsInt32(n) && At(p, pc, Put32(n))
      modifies this
      ensures StackMeans(ram, stack, [FourByteLit(n)] + s)
    {
      PutGet(p, pc, n);
      var i := Get32(p, pc);
      var v := Allocate(Words([i]), s);
      Cons(v, FourByteLit(n), s);
    }

    method FourByteValsVector(p: seq<Byte>, pc: nat, ghost ns: seq<int>, ghost s: seq<Lit>)
      requires Valid() && StackMeans(ram, stack, s) && Encodable(MakeFourByteValsVector(ns)) &&
          At(p, pc, Put32(|ns|) + PutAll(ns))
      modifies this
      ensures StackMeans(ram, stack, [FourBytesLit(ns)] + s)
    {
      AtBoth(p, pc, Put32(|ns|), PutAll(ns));
      PutGet(p, pc, |ns|);
      var len := Get32(p, pc);
      MayHeapclean(s);
      var words := FourByteVals(p, pc + 4, len, ns);
      var v := Allocate(Words(words), s);
      Cons(v, FourBytesLit(ns), s);
    }

    method EightByteVal(p: seq<Byte>, pc: nat, ghost d: seq<Byte>, ghost s: seq<Lit>)
      requires Valid() && StackMeans(ram, stack, s) && |d| == 8 && At(p, pc, d)
      modifies this
      ensures StackMeans(ram, stack, [EightByteLit(d)] + s)
    {
      var v := Allocate(Doubles([p[pc..pc + 8]]), s);
      Cons(v, EightByteLit(d), s);
    }

    method EightByteValsVector(p: seq<Byte>, pc: nat, ghost ds: seq<seq<Byte>>, ghost s: seq<Lit>)
      requires Valid() && StackMeans(ram, stack, s) && Encodable(MakeEightByteValsVector(ds)) &&
          At(p, pc, Put32(|ds|) + Joined(ds))
      modifies this
      ensures StackMeans(ram, stack, [EightBytesLit(ds)] + s)
    {
      AtBoth(p, pc, Put32(|ds|), Joined(ds));
      PutGet(p, pc, |ds|);
      var len := Get32(p, pc);
      MayHeapclean(s);
      var doubles := EightByteVals(p, pc + 4, len, ds);
      var v := Allocate(Doubles(doubles), s);
      Cons(v, EightBytesLit(ds), s);
    }

    method AsciiString(p: seq<Byte>, pc: nat, ghost bytes: seq<Byte>, ghost s: seq<Lit>) returns (len: nat)
      requires Valid() && StackMeans(ram, stack, s) && |bytes| < 0x8000_0000 && At(p, pc, Put32(|bytes|) + bytes)
      modifies this
      ensures StackMeans(ram, stack, [StringLit(bytes)] + s) && len == |bytes|
    {
      AtBoth(p, pc, Put32(|bytes|), bytes);
      PutGet(p, pc, |bytes|);
      len := Get32(p, pc);
      if len == 0 {
        Cons(ZeroLengthString, StringLit(bytes), s);
      } else {
        MayHeapclean(s);
        var data := Allocate(Bytes(p[pc + 4..pc + 4 + len]), s);
        var v := Allocate(VectorHeader(data, len), s);
        Cons(v, StringLit(bytes), s);
      }
    }

    // ---------------------------------------------------------------- lists of literals

    method IthLiteral(p: seq<Byte>, pc: nat, ghost k: nat, ghost s: seq<Lit>)
      requires Valid() && StackMeans(ram, stack, s) && k < |s| && k < 0x8000_0000 && At(p, pc, Put32(k))
      modifies this
      ensures StackMeans(ram, stack, [s[k]] + s)
    {
      PutGet(p, pc, k);
      var n := Get32(p, pc);
      var result := stack;
      var i := 0;
      while i < n
        invariant 0 <= i <= n == k && StackMeans(ram, result, s[i..])
      {
        result := ram[result.a].vals[1];
        i := i + 1;
        assert s[i - 1..][1..] == s[i..];
      }
      Cons(ram[result.a].vals[0], s[k], s);
    }

    /** Fill chunk d with the n literals made last, the last one last, taking them off the list. */
    method Fill(d: nat, n: nat, ghost h: Ram, ghost s: seq<Lit>)
      requires n <= |s| && d !in h && StackMeans(h, stack, s) && ram == h[d := Record(seq(n, _ => HEAP_VOID))]
      modifies this`ram, this`stack
      ensures ram.Keys == h.Keys + {d} && ram == h[d := ram[d]] && StackMeans(h, stack, s[n..])
      ensures ram[d].Record? && |ram[d].vals| == n && forall j {:trigger ram[d].vals[j]} ::
          0 <= j < n ==> Means(h, ram[d].vals[j], Reversed(s[..n])[j])
    {
      hide Means, StackMeans;
      var i := n;
      while i > 0
        invariant 0 <= i <= n && StackMeans(h, stack, s[n - i..]) && d in ram && ram == h[d := ram[d]]
        invariant ram[d].Record? && |ram[d].vals| == n
        invariant forall j {:trigger ram[d].vals[j]} :: i <= j < n ==> Means(h, ram[d].vals[j], Reversed(s[..n])[j])
      {
        i := i - 1;
        ghost var rest := s[n - i - 1..];
        assert rest[0] == s[n - i - 1] == Reversed(s[..n])[i] && rest[1..] == s[n - i..];
        Top(h, stack, rest);
        var cell := ram[stack.a];
        ram := ram[d := Record(ram[d].vals[i := cell.vals[0]])];
        stack := cell.vals[1];
      }
    }

    /** Allocate and fill a chunk. */
    method Gather(n: nat, ghost s: seq<Lit>) returns (v: Val)
      requires Valid() && StackMeans(ram, stack, s) && 0 < n <= |s|
      modifies this
      ensures StackMeans(ram, stack, s[n..]) && v.Addr? && v.a in ram && ram[v.a].Record? && |ram[v.a].vals| == n
      ensures forall j {:trigger ram[v.a].vals[j]} :: 0 <= j < n ==> Means(ram, ram[v.a].vals[j], Reversed(s[..n])[j])
    {
      MayHeapclean(s);
      ghost var h := ram;
      v := Allocate(Record(seq(n, _ => HEAP_VOID)), s);
      Fill(v.a, n, h, s);
      forall a: nat ensures Kept(h, ram, a) { }
      StackInMore(h, ram, stack, s[n..]);
      forall j | 0 <= j < n ensures Means(ram, ram[v.a].vals[j], Reversed(s[..n])[j]) {
        MeansInMore(h, ram, ram[v.a].vals[j], Reversed(s[..n])[j]);
      }
    }

    method Vector(p: seq<Byte>, pc: nat, ghost n: nat, ghost s: seq<Lit>)
      requires Valid() && StackMeans(ram, stack, s) && n <= |s| && n < 0x8000_0000 && At(p, pc, Put32(n))
      modifies this
      ensures StackMeans(ram, stack, [VectorLit(Reversed(s[..n]))] + s[n..])
    {
      PutGet(p, pc, n);
      var len := Get32(p, pc);
      ghost var parts := Reversed(s[..n]);
      if len == 0 {
        Cons(ZeroLengthVector, VectorLit(parts), s);
        assert s[n..] == s;
      } else {
        var data := Gather(len, s);
        ghost var h := ram;
        var v := Allocate(VectorHeader(data, len), s[n..]);
        assert Kept(h, ram, data.a);
        forall i | 0 <= i < |parts| ensures Means(ram, ram[data.a].vals[i], parts[i]) { MeansInMore(h, ram,
            h[data.a].vals[i], parts[i]); }
        Cons(v, VectorLit(parts), s[n..]);
      }
    }

    method RecordOf(p: seq<Byte>, pc: nat, ghost n: nat, ghost s: seq<Lit>)
      requires Valid() && StackMeans(ram, stack, s) && n <= |s| && n < 0x8000_0000 && At(p, pc, Put32(n))
      modifies this
      ensures StackMeans(ram, stack, [RecordLit(Reversed(s[..n]))] + s[n..])
    {
      PutGet(p, pc, n);
      var len := Get32(p, pc);
      ghost var parts := Reversed(s[..n]);
      if len == 0 {
        Cons(HEAP_VOID, RecordLit(parts), s);
        assert s[n..] == s;
      } else {
        var v := Gather(len, s);
        assert forall i {:trigger parts[i]} :: 0 <= i < |parts| ==> Means(ram, ram[v.a].vals[i], parts[i]);
        Cons(v, RecordLit(parts), s[n..]);
      }
    }

    // ---------------------------------------------------------------- the loop

    method Execute(op: Byte, p: seq<Byte>, pc: nat, ghost i: Instr, ghost s: seq<Lit>) returns (pc1: nat)
      requires Valid() && StackMeans(ram, stack, s) && Encodable(i) && At(p, pc, Encode(i)[1..]) &&
          op == Encode(i)[0] && Step(s, i).Some?
      modifies this
      ensures StackMeans(ram, stack, Step(s, i).value) && pc1 == pc + |Encode(i)| - 1
    {
      if op == MAKE_TAGGED_VAL {
        TaggedVal(p, pc, i.i, s);
        pc1 := pc + 4;
      } else if op == MAKE_FOUR_BYTE_VAL {
        FourByteVal(p, pc, i.i, s);
        pc1 := pc + 4;
      } else if op == MAKE_FOUR_BYTE_VALS_VECTOR {
        FourByteValsVector(p, pc, i.ns, s);
        AtBoth(p, pc, Put32(|i.ns|), PutAll(i.ns));
        PutGet(p, pc, |i.ns|);
        pc1 := pc + 4 + 4 * Get32(p, pc);
      } else if op == MAKE_EIGHT_BYTE_VAL {
        EightByteVal(p, pc, i.d, s);
        pc1 := pc + 8;
      } else if op == MAKE_EIGHT_BYTE_VALS_VECTOR {
        EightByteValsVector(p, pc, i.ds, s);
        AtBoth(p, pc, Put32(|i.ds|), Joined(i.ds));
        PutGet(p, pc, |i.ds|);
        JoinedSize(i.ds);
        pc1 := pc + 4 + 8 * Get32(p, pc);
      } else if op == MAKE_ASCII_STRING {
        var len := AsciiString(p, pc, i.bytes, s);
        pc1 := pc + 4 + len;
      } else if op == GET_ITH_LITERAL {
        IthLiteral(p, pc, i.k, s);
        pc1 := pc + 4;
      } else if op == MAKE_VECTOR {
        Vector(p, pc, i.n, s);
        pc1 := pc + 4;
      } else {
        RecordOf(p, pc, i.n, s);
        pc1 := pc + 4;
      }
    }

    /** Run a program: a header, instructions, and an opcode that ends it, which is the return or no opcode at all. */
    method MakePackageLiterals(p: seq<Byte>, ghost code: seq<Instr>, ghost last: Byte) returns (r: Outcome)
      requires Valid() && stack == HEAP_NIL
      requires |p| > 8 && Get32(p, 0) == V1_MAGIC ==>
        && At(p, 8, EncodeAll(code) + [last]) && (last == 0 || last > MAKE_RECORD)
        && (forall k {:trigger code[k]} :: 0 <= k < |code| ==> Encodable(code[k]))
        && Run([], code).Some? && (last == RETURN_LAST_LITERAL ==> Run([], code).value != [])
      modifies this
      ensures r == Nil <==> |p| <= 8
      ensures r == Died <==> |p| > 8 && (Get32(p, 0) != V1_MAGIC || last != RETURN_LAST_LITERAL)
      ensures r.Literal? ==> Means(ram, r.value, Run([], code).value[0])
    {
      hide Means, At, Encode, EncodeAll, Encodable;
      if |p| <= 8 {
        return Nil;
      }
      if Get32(p, 0) != V1_MAGIC {
        return Died;
      }
      var pc := 8;
      ghost var s: seq<Lit> := [];
      ghost var rest := code;
      while true
        invariant StackMeans(ram, stack, s) && At(p, pc, EncodeAll(rest) + [last])
        invariant Run(s, rest) == Run([], code) && forall k {:trigger rest[k]} :: 0 <= k < |rest| ==> Encodable(rest[k])
        decreases |rest|
      {
        MayHeapclean(s);
        var op := FetchOp(p, pc, rest, last);
        pc := pc + 1;
        if op == RETURN_LAST_LITERAL {
          Top(ram, stack, s);
          return Literal(ram[stack.a].vals[0]);
        } else if MAKE_TAGGED_VAL <= op <= MAKE_RECORD {
          ghost var i := rest[0];
          pc := Execute(op, p, pc, i, s);
          s, rest := Step(s, i).value, rest[1..];
        } else {
          return Died;
        }
      }
    }
  }

  method FourByteVals(p: seq<Byte>, pc: nat, len: nat, ghost ns: seq<int>) returns (words: seq<int>)
    requires len == |ns| && At(p, pc, PutAll(ns)) && forall k :: 0 <= k < |ns| ==> IsInt32(ns[k])
    ensures words == ns
  {
    words := [];
    var i := 0;
    while i < len
      invariant i <= len && words == ns[..i] && At(p, pc + 4 * i, PutAll(ns[i..]))
    {
      ghost var rest := ns[i..];
      assert rest[0] == ns[i] && rest[1..] == ns[i + 1..];
      AtBoth(p, pc + 4 * i, Put32(rest[0]), PutAll(rest[1..]));
      PutGet(p, pc + 4 * i, ns[i]);
      words := words + [Get32(p, pc + 4 * i)];
      i := i + 1;
    }
  }

  method EightByteVals(p: seq<Byte>, pc: nat, len: nat, ghost ds: seq<seq<Byte>>) returns (doubles: seq<seq<Byte>>)
    requires len == |ds| && At(p, pc, Joined(ds)) && forall k :: 0 <= k < |ds| ==> |ds[k]| == 8
    ensures doubles == ds
  {
    doubles := [];
    var i := 0;
    while i < len
      invariant i <= len && doubles == ds[..i] && At(p, pc + 8 * i, Joined(ds[i..]))
    {
      ghost var rest := ds[i..];
      assert rest[0] == ds[i] && rest[1..] == ds[i + 1..];
      AtBoth(p, pc + 8 * i, rest[0], Joined(rest[1..]));
      doubles := doubles + [p[pc + 8 * i..pc + 8 * i + 8]];
      i := i + 1;
    }
  }

  lemma Opcode(i: Instr)
    ensures |Encode(i)| > 0 && MAKE_TAGGED_VAL <= Encode(i)[0] <= MAKE_RECORD
  {
  }

  /** The next opcode, which belongs to the next instruction if there is one. */
  method FetchOp(p: seq<Byte>, pc: nat, ghost rest: seq<Instr>, ghost last: Byte) returns (op: Byte)
    requires At(p, pc, EncodeAll(rest) + [last])
    ensures pc < |p|
    ensures rest == [] ==> op == last
    ensures rest != [] ==> MAKE_TAGGED_VAL <= op <= MAKE_RECORD && |Encode(rest[0])| > 0 && op == Encode(rest[0])[0]
    ensures rest != [] ==>
      At(p, pc + 1, Encode(rest[0])[1..]) && At(p, pc + |Encode(rest[0])|, EncodeAll(rest[1..]) + [last])
  {
    hide Encode;
    if rest != [] {
      Opcode(rest[0]);
      var e, tail := Encode(rest[0]), EncodeAll(rest[1..]) + [last];
      assert EncodeAll(rest) + [last] == e + tail;
      AtBoth(p, pc, e, tail);
      assert e == e[..1] + e[1..];
      AtBoth(p, pc, e[..1], e[1..]);
      assert p[pc..pc + 1] == e[..1];
    } else {
      assert EncodeAll(rest) + [last] == [last];
      assert p[pc..pc + 1] == [last];
    }
    op := p[pc];
  }

  /** The first cell of the list. */
  lemma Top(h: Ram, v: Val, s: seq<Lit>)
    requires StackMeans(h, v, s) && s != []
    ensures v.Addr? && v.a in h && h[v.a].Record? && |h[v.a].vals| == 2
    ensures Means(h, h[v.a].vals[0], s[0]) && StackMeans(h, h[v.a].vals[1], s[1..])
  {
  }

  lemma {:induction false} JoinedSize(ds: seq<seq<Byte>>)
    requires forall k :: 0 <= k < |ds| ==> |ds[k]| == 8
    ensures |Joined(ds)| == 8 * |ds|
  {
    if ds != [] { JoinedSize(ds[1..]); }
  }

  /** A program, byte for byte: after a header of two words it makes 7, the string "A" and again the literal before
      that, puts the three into a record and returns that. */
  const HEADER: seq<Byte> := [0x19, 0x98, 0x10, 0x22, 0x00, 0x00, 0x00, 0x03]
  const SAMPLE: seq<Byte> := HEADER + ([0x01, 0x00, 0x00, 0x00, 0x07] + ([0x06, 0x00, 0x00, 0x00, 0x01, 0x41] +
    ([0x07, 0x00, 0x00, 0x00, 0x01] + [0x09, 0x00, 0x00, 0x00, 0x03])) + [0xff])

  lemma SampleMakesRecord() returns (code: seq<Instr>)
    ensures Get32(SAMPLE, 0) == V1_MAGIC && At(SAMPLE, 8, EncodeAll(code) + [0xff])
    ensures forall k {:trigger code[k]} :: 0 <= k < |code| ==> Encodable(code[k])
    ensures Run([], code) == Some([RecordLit([TaggedLit(7), StringLit([0x41]), TaggedLit(7)])])
  {
    BigEndian(SAMPLE, 0);
    assert SAMPLE[0..4] == [0x19, 0x98, 0x10, 0x22];
    var a, b, c, d := MakeTaggedVal(7), MakeAsciiString([0x41]), GetIthLiteral(1), MakeRecord(3);
    code := [a, b, c, d];
    SampleBytes(a, b, c, d);
    SampleRuns(a, b, c, d, code);
  }

  lemma EncodeFirst(i: Instr, rest: seq<Instr>)
    ensures EncodeAll([i] + rest) == Encode(i) + EncodeAll(rest)
  {
    assert ([i] + rest)[1..] == rest;
  }

  lemma SampleBytes(a: Instr, b: Instr, c: Instr, d: Instr)
    requires a == MakeTaggedVal(7) && b == MakeAsciiString([0x41]) && c == GetIthLiteral(1) && d == MakeRecord(3)
    ensures At(SAMPLE, 8, EncodeAll([a, b, c, d]) + [0xff])
  {
    hide EncodeAll, Encode;
    FourEncoded(a, b, c, d);
    SmallEncoded();
    AfterHeader(HEADER, EncodeAll([a, b, c, d]) + [0xff]);
  }

  lemma AfterHeader(header: seq<Byte>, rest: seq<Byte>)
    ensures At(header + rest, |header|, rest)
  {
  }

  lemma SmallEncoded()
    ensures Encode(MakeTaggedVal(7)) == [0x01, 0x00, 0x00, 0x00, 0x07]
    ensures Encode(MakeAsciiString([0x41])) == [0x06, 0x00, 0x00, 0x00, 0x01, 0x41]
    ensures Encode(GetIthLiteral(1)) == [0x07, 0x00, 0x00, 0x00, 0x01]
    ensures Encode(MakeRecord(3)) == [0x09, 0x00, 0x00, 0x00, 0x03]
  {
    SmallPut(7);
    SmallPut(1);
    SmallPut(3);
  }

  lemma SmallPut(n: nat)
    requires n < 256
    ensures Put32(n) == [0, 0, 0, n]
  {
  }

  lemma FourEncoded(a: Instr, b: Instr, c: Instr, d: Instr)
    ensures EncodeAll([a, b, c, d]) == Encode(a) + (Encode(b) + (Encode(c) + Encode(d)))
  {
    hide Encode;
    EncodeFirst(a, [b, c, d]);
    EncodeFirst(b, [c, d]);
    EncodeFirst(c, [d]);
    assert EncodeAll([d]) == Encode(d) + EncodeAll([]);
    assert [a] + [b, c, d] == [a, b, c, d] && [b] + [c, d] == [b, c, d] && [c] + [d] == [c, d];
  }

  lemma SampleRuns(a: Instr, b: Instr, c: Instr, d: Instr, code: seq<Instr>)
    requires code == [a, b, c, d] && a == MakeTaggedVal(7) && b == MakeAsciiString([0x41])
    requires c == GetIthLiteral(1) && d == MakeRecord(3)
    ensures Run([], code) == Some([RecordLit([TaggedLit(7), StringLit([0x41]), TaggedLit(7)])])
  {
    var seven, text := TaggedLit(7), StringLit([0x41]);
    var s0, s1, s2, s3: seq<Lit> := [], [seven], [text, seven], [seven, text, seven];
    assert [seven] + s0 == s1 && [text] + s1 == s2 && [seven] + s2 == s3;
    assert s3[..3] == s3 && s3[3..] == [] && Reversed(s3) == [seven, text, seven];
    assert [RecordLit(Reversed(s3))] + s3[3..] == [RecordLit(Reversed(s3))];
    RunOne(s3, d);
    OneStep(s2, c, [d], s3);
    OneStep(s1, b, [c, d], s2);
    OneStep(s0, a, [b, c, d], s1);
    assert [c] + [d] == [c, d] && [b] + [c, d] == [b, c, d] && [a] + [b, c, d] == code;
  }

  lemma OneStep(s: seq<Lit>, i: Instr, rest: seq<Instr>, t: seq<Lit>)
    requires Step(s, i) == Some(t)
    ensures Run(s, [i] + rest) == Run(t, rest)
  {
    assert ([i] + rest)[1..] == rest;
  }
}
