/** Literals as trees, as values in a heap that moves, and as instructions of the literal machine of
    src/c/heapcleaner/make-package-literals-via-bytecode-interpreter.c. */
module Literals {
  import opened Wrappers

  type Byte = b: nat | b < 256

  /** A four-byte value is a signed number; an eight-byte one is its bytes, the most significant first. */
  datatype Lit =
    | TaggedLit(i: int)
    | FourByteLit(i: int)
    | FourBytesLit(ns: seq<int>)
    | EightByteLit(d: seq<Byte>)
    | EightBytesLit(ds: seq<seq<Byte>>)
    | StringLit(bytes: seq<Byte>)
    | VectorLit(parts: seq<Lit>)
    | RecordLit(parts: seq<Lit>)

  // ------------------------------------------------------------------ values

  datatype Val = Tagged(i: int) | Addr(a: nat) | ZeroLengthString | ZeroLengthVector

  datatype Chunk =
    | Record(vals: seq<Val>)
    | Words(words: seq<int>)
    | Doubles(doubles: seq<seq<Byte>>)
    | Bytes(bytes: seq<Byte>)
    | VectorHeader(data: Val, len: nat)

  type Ram = map<nat, Chunk>

  const HEAP_NIL := Tagged(0)
  const HEAP_VOID := Tagged(0)

  /** A tagged integer has 31 bits. */
  function Wrap31(i: int): int { (i + 0x4000_0000) % 0x8000_0000 - 0x4000_0000 }

  lemma TaggedIsKept(i: int)
    ensures Wrap31(i) == i <==> -0x4000_0000 <= i < 0x4000_0000
  {
  }

  /** Value v is the literal l. */
  ghost predicate Means(h: Ram, v: Val, l: Lit)
    decreases l
  {
    match l
    case TaggedLit(i) => v == Tagged(Wrap31(i))
    case FourByteLit(i) => v.Addr? && v.a in h && h[v.a] == Words([i])
    case FourBytesLit(ns) => v.Addr? && v.a in h && h[v.a] == Words(ns)
    case EightByteLit(d) => v.Addr? && v.a in h && h[v.a] == Doubles([d])
    case EightBytesLit(ds) => v.Addr? && v.a in h && h[v.a] == Doubles(ds)
    case StringLit(bytes) =>
      if bytes == [] then v == ZeroLengthString
      else
        && v.Addr? && v.a in h && h[v.a].VectorHeader? && h[v.a].len == |bytes| && h[v.a].data.Addr?
        && h[v.a].data.a in h && h[h[v.a].data.a] == Bytes(bytes)
    case VectorLit(parts) =>
      if parts == [] then v == ZeroLengthVector
      else
        && v.Addr? && v.a in h && h[v.a].VectorHeader? && h[v.a].len == |parts| && h[v.a].data.Addr? &&
            h[v.a].data.a in h
        && var c := h[h[v.a].data.a];
          && c.Record? && |c.vals| == |parts|
          && forall i {:trigger parts[i]} :: 0 <= i < |parts| ==> Means(h, c.vals[i], parts[i])
    case RecordLit(parts) =>
      if parts == [] then v == HEAP_VOID
      else
        && v.Addr? && v.a in h && h[v.a].Record? && |h[v.a].vals| == |parts|
        && forall i {:trigger parts[i]} :: 0 <= i < |parts| ==> Means(h, h[v.a].vals[i], parts[i])
  }

  /** The list of literals made so far, the last first. */
  ghost predicate StackMeans(h: Ram, v: Val, s: seq<Lit>)
    decreases |s|
  {
    if s == [] then v == HEAP_NIL
    else v.Addr? && v.a in h && h[v.a].Record? && |h[v.a].vals| == 2 && Means(h, h[v.a].vals[0], s[0]) && StackMeans(h,
        h[v.a].vals[1], s[1..])
  }

  predicate Kept(h: Ram, r: Ram, a: nat) { a in h ==> a in r && r[a] == h[a] }

  ghost predicate Within(h: Ram, r: Ram) { forall a: nat {:trigger Kept(h, r, a)} :: Kept(h, r, a) }

  lemma {:induction false} MeansInMore(h: Ram, r: Ram, v: Val, l: Lit)
    requires Within(h, r) && Means(h, v, l)
    ensures Means(r, v, l)
    decreases l
  {
    if v.Addr? {
      assert Kept(h, r, v.a);
      if v.a in h && h[v.a].VectorHeader? && h[v.a].data.Addr? { assert Kept(h, r, h[v.a].data.a); }
    }
    match l
    case VectorLit(parts) =>
      if parts != [] {
        forall i | 0 <= i < |parts| ensures Means(r, h[h[v.a].data.a].vals[i], parts[i]) { MeansInMore(h, r,
            h[h[v.a].data.a].vals[i], parts[i]); }
      }
    case RecordLit(parts) =>
      if parts != [] {
        forall i | 0 <= i < |parts| ensures Means(r, h[v.a].vals[i], parts[i]) { MeansInMore(h, r, h[v.a].vals[i],
            parts[i]); }
      }
    case _ =>
  }

  lemma {:induction false} StackInMore(h: Ram, r: Ram, v: Val, s: seq<Lit>)
    requires Within(h, r) && StackMeans(h, v, s)
    ensures StackMeans(r, v, s)
    decreases |s|
  {
    if s != [] {
      assert Kept(h, r, v.a);
      MeansInMore(h, r, h[v.a].vals[0], s[0]);
      StackInMore(h, r, h[v.a].vals[1], s[1..]);
    }
  }

  // ------------------------------------------------------------------ cleaning

  function RenamedVal(f: map<nat, nat>, v: Val): Val { if v.Addr? && v.a in f then Addr(f[v.a]) else v }

  predicate ClosedVal(f: map<nat, nat>, v: Val) { v.Addr? ==> v.a in f }

  function RenamedVals(f: map<nat, nat>, vs: seq<Val>): (r: seq<Val>)
    ensures |r| == |vs| && forall i {:trigger r[i]} :: 0 <= i < |vs| ==> r[i] == RenamedVal(f, vs[i])
  {
    seq(|vs|, i requires 0 <= i < |vs| => RenamedVal(f, vs[i]))
  }

  function RenamedChunk(f: map<nat, nat>, c: Chunk): Chunk {
    match c
    case Record(vals) => Record(RenamedVals(f, vals))
    case VectorHeader(data, len) => VectorHeader(RenamedVal(f, data), len)
    case _ => c
  }

  predicate ClosedChunk(f: map<nat, nat>, c: Chunk) {
    match c
    case Record(vals) => forall i {:trigger vals[i]} :: 0 <= i < |vals| ==> ClosedVal(f, vals[i])
    case VectorHeader(data, _) => ClosedVal(f, data)
    case _ => true
  }

  predicate Copied(h: Ram, r: Ram, f: map<nat, nat>, a: nat) {
    a in f ==> a in h && f[a] in r && ClosedChunk(f, h[a]) && r[f[a]] == RenamedChunk(f, h[a])
  }

  /** The chunks of f's domain are moved as f says, and nothing they refer to is left out. */
  ghost predicate Moves(h: Ram, r: Ram, f: map<nat, nat>) { forall a: nat {:trigger Copied(h, r, f, a)} ::
      Copied(h, r, f, a) }

  /** A heapcleaning with the one root v: what v refers to is copied, sharing and all, and the rest is gone. */
  ghost predicate Cleaned(h: Ram, v: Val, r: Ram, u: Val) {
    exists f: map<nat, nat> {:trigger Moves(h, r, f)} :: Moves(h, r, f) && ClosedVal(f, v) && u == RenamedVal(f, v)
  }

  lemma {:induction false} MeansAfterCleaning(h: Ram, r: Ram, f: map<nat, nat>, v: Val, l: Lit)
    requires Moves(h, r, f) && ClosedVal(f, v) && Means(h, v, l)
    ensures Means(r, RenamedVal(f, v), l)
    decreases l
  {
    if v.Addr? { assert Copied(h, r, f, v.a); }
    match l
    case StringLit(bytes) =>
      if bytes != [] { assert Copied(h, r, f, h[v.a].data.a); }
    case VectorLit(parts) =>
      if parts != [] {
        var d := h[v.a].data.a;
        assert Copied(h, r, f, d);
        forall i | 0 <= i < |parts| ensures Means(r, RenamedVal(f, h[d].vals[i]), parts[i]) { MeansAfterCleaning(h, r,
            f, h[d].vals[i], parts[i]); }
      }
    case RecordLit(parts) =>
      if parts != [] {
        forall i | 0 <= i < |parts| ensures Means(r, RenamedVal(f, h[v.a].vals[i]), parts[i]) { MeansAfterCleaning(h, r,
            f, h[v.a].vals[i], parts[i]); }
      }
    case _ =>
  }

  lemma {:induction false} StackAfterCleaning(h: Ram, r: Ram, f: map<nat, nat>, v: Val, s: seq<Lit>)
    requires Moves(h, r, f) && ClosedVal(f, v) && StackMeans(h, v, s)
    ensures StackMeans(r, RenamedVal(f, v), s)
    decreases |s|
  {
    if s != [] {
      assert Copied(h, r, f, v.a);
      MeansAfterCleaning(h, r, f, h[v.a].vals[0], s[0]);
      StackAfterCleaning(h, r, f, h[v.a].vals[1], s[1..]);
    }
  }

  // ------------------------------------------------------------------ instructions

  datatype Instr =
    | MakeTaggedVal(i: int)
    | MakeFourByteVal(i: int)
    | MakeFourByteValsVector(ns: seq<int>)
    | MakeEightByteVal(d: seq<Byte>)
    | MakeEightByteValsVector(ds: seq<seq<Byte>>)
    | MakeAsciiString(bytes: seq<Byte>)
    | GetIthLiteral(k: nat)
    | MakeVector(n: nat)
    | MakeRecord(n: nat)

  function Reversed<T>(s: seq<T>): (r: seq<T>)
    ensures |r| == |s| && forall i {:trigger r[i]} :: 0 <= i < |s| ==> r[i] == s[|s| - 1 - i]
  {
    seq(|s|, i requires 0 <= i < |s| => s[|s| - 1 - i])
  }

  /** What an instruction does to the list of literals; none when it needs more of them than there are. */
  function Step(s: seq<Lit>, i: Instr): Option<seq<Lit>> {
    match i
    case MakeTaggedVal(i) => Some([TaggedLit(i)] + s)
    case MakeFourByteVal(i) => Some([FourByteLit(i)] + s)
    case MakeFourByteValsVector(ns) => Some([FourBytesLit(ns)] + s)
    case MakeEightByteVal(d) => Some([EightByteLit(d)] + s)
    case MakeEightByteValsVector(ds) => Some([EightBytesLit(ds)] + s)
    case MakeAsciiString(bytes) => Some([StringLit(bytes)] + s)
    case GetIthLiteral(k) => if k < |s| then Some([s[k]] + s) else None
    case MakeVector(n) => if n <= |s| then Some([VectorLit(Reversed(s[..n]))] + s[n..]) else None
    case MakeRecord(n) => if n <= |s| then Some([RecordLit(Reversed(s[..n]))] + s[n..]) else None
  }

  function Run(s: seq<Lit>, code: seq<Instr>): Option<seq<Lit>>
    decreases |code|
  {
    if code == [] then Some(s)
    else match Step(s, code[0])
      case Some(t) => Run(t, code[1..])
      case None => None
  }

  lemma {:induction false} RunBoth(s: seq<Lit>, c: seq<Instr>, d: seq<Instr>)
    requires Run(s, c).Some?
    ensures Run(s, c + d) == Run(Run(s, c).value, d)
    decreases |c|
  {
    if c == [] {
      assert c + d == d;
    } else {
      assert (c + d)[1..] == c[1..] + d;
      RunBoth(Step(s, c[0]).value, c[1..], d);
    }
  }

  lemma RunOne(s: seq<Lit>, i: Instr)
    ensures Run(s, [i]) == Step(s, i)
  {
    assert [i][1..] == [];
  }

  // ------------------------------------------------------------------ code for literals

  function Leaf(l: Lit): Instr {
    match l
    case TaggedLit(i) => MakeTaggedVal(i)
    case FourByteLit(i) => MakeFourByteVal(i)
    case FourBytesLit(ns) => MakeFourByteValsVector(ns)
    case EightByteLit(d) => MakeEightByteVal(d)
    case EightBytesLit(ds) => MakeEightByteValsVector(ds)
    case StringLit(bytes) => MakeAsciiString(bytes)
    case VectorLit(parts) => MakeVector(|parts|)
    case RecordLit(parts) => MakeRecord(|parts|)
  }

  /** The first place in s where l is. */
  function Find(s: seq<Lit>, l: Lit): (k: Option<nat>)
    ensures k.Some? ==> k.value < |s| && s[k.value] == l
  {
    if s == [] then None
    else if s[0] == l then Some(0)
    else match Find(s[1..], l)
      case Some(k) => Some(k + 1)
      case None => None
  }

  /** Postfix code, which refers back to a literal that is in the list already. */
  function Code(l: Lit, s: seq<Lit>): seq<Instr>
    decreases l, 1, 0
  {
    match Find(s, l)
    case Some(k) => [GetIthLiteral(k)]
    case None =>
      match l
      case VectorLit(parts) => CodeOfParts(l, parts, |parts|, s) + [Leaf(l)]
      case RecordLit(parts) => CodeOfParts(l, parts, |parts|, s) + [Leaf(l)]
      case _ => [Leaf(l)]
  }

  function CodeOfParts(l: Lit, parts: seq<Lit>, n: nat, s: seq<Lit>): seq<Instr>
    requires n <= |parts| && (l == VectorLit(parts) || l == RecordLit(parts))
    decreases l, 0, n
  {
    if n == 0 then [] else CodeOfParts(l, parts, n - 1, s) + Code(parts[n - 1], Reversed(parts[..n - 1]) + s)
  }

  /** Running the code of a literal pushes that literal and leaves the rest of the list as it was. */
  lemma {:induction false} CodeMakesLiteral(l: Lit, s: seq<Lit>)
    ensures Run(s, Code(l, s)) == Some([l] + s)
    decreases l, 1, 0
  {
    match Find(s, l)
    case Some(k) => RunOne(s, GetIthLiteral(k));
    case None =>
      match l {
        case VectorLit(parts) =>
          CodeMakesParts(l, parts, |parts|, s);
          assert parts[..|parts|] == parts;
          WholeAfterParts(l, parts, s, CodeOfParts(l, parts, |parts|, s));
        case RecordLit(parts) =>
          CodeMakesParts(l, parts, |parts|, s);
          assert parts[..|parts|] == parts;
          WholeAfterParts(l, parts, s, CodeOfParts(l, parts, |parts|, s));
        case _ => RunOne(s, Leaf(l));
      }
  }

  lemma WholeAfterParts(l: Lit, parts: seq<Lit>, s: seq<Lit>, code: seq<Instr>)
    requires l == VectorLit(parts) || l == RecordLit(parts)
    requires Run(s, code) == Some(Reversed(parts) + s)
    ensures Run(s, code + [Leaf(l)]) == Some([l] + s)
  {
    var t := Reversed(parts) + s;
    RunBoth(s, code, [Leaf(l)]);
    RunOne(t, Leaf(l));
    assert t[|parts|..] == s && t[..|parts|] == Reversed(parts);
    ReversedTwice(parts);
  }

  lemma ReversedTwice<T>(s: seq<T>)
    ensures Reversed(Reversed(s)) == s
  {
    forall i | 0 <= i < |s| ensures Reversed(Reversed(s))[i] == s[i] {
      assert Reversed(s)[|s| - 1 - i] == s[i];
    }
  }

  lemma {:induction false} CodeMakesParts(l: Lit, parts: seq<Lit>, n: nat, s: seq<Lit>)
    requires n <= |parts| && (l == VectorLit(parts) || l == RecordLit(parts))
    ensures Run(s, CodeOfParts(l, parts, n, s)) == Some(Reversed(parts[..n]) + s)
    decreases l, 0, n
  {
    if n == 0 {
      assert Reversed(parts[..0]) + s == s;
    } else {
      var t := Reversed(parts[..n - 1]) + s;
      CodeMakesParts(l, parts, n - 1, s);
      RunBoth(s, CodeOfParts(l, parts, n - 1, s), Code(parts[n - 1], t));
      CodeMakesLiteral(parts[n - 1], t);
      assert [parts[n - 1]] + t == Reversed(parts[..n]) + s;
    }
  }
}
