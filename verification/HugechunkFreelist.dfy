/** The doubly linked freelist of hugechunks: a ring through its header, as two maps of links.  The ghost sequence
    is the order of the nodes after the header. */
module HugechunkFreelist {
  const HEADER: nat := 0

  datatype Links = Links(next: map<nat, nat>, prev: map<nat, nat>)

  /** Nodes are numbered from 1; the header comes before them and after them. */
  function Node(s: seq<nat>, k: int): nat { if 1 <= k <= |s| then s[k - 1] else HEADER }

  predicate Joined(l: Links, a: nat, b: nat) { a in l.next && l.next[a] == b && b in l.prev && l.prev[b] == a }

  predicate LinkOk(l: Links, s: seq<nat>, k: int) { 0 <= k <= |s| ==> Joined(l, Node(s, k), Node(s, k + 1)) }

  predicate Distinct(s: seq<nat>) {
    HEADER !in s && forall i, j :: 0 <= i < j < |s| ==> s[i] != s[j]
  }

  ghost predicate IsRing(l: Links, s: seq<nat>) {
    Distinct(s) && forall k {:trigger LinkOk(l, s, k)} :: LinkOk(l, s, k)
  }

  function Removed(l: Links, c: nat): Links
    requires c in l.next && c in l.prev
  {
    var p, n := l.prev[c], l.next[c];
    Links(l.next[p := n], l.prev[n := p])
  }

  function Inserted(l: Links, header: nat, c: nat): Links
    requires header in l.next
  {
    var n := l.next[header];
    Links(l.next[c := n][header := c], l.prev[c := header][n := c])
  }

  lemma InsertKeepsRing(l: Links, s: seq<nat>, c: nat)
    requires IsRing(l, s) && c !in s && c != HEADER
    ensures HEADER in l.next && IsRing(Inserted(l, HEADER, c), [c] + s)
  {
    assert LinkOk(l, s, 0);
    var m, t := Inserted(l, HEADER, c), [c] + s;
    forall k ensures LinkOk(m, t, k) {
      assert LinkOk(l, s, k - 1);
      if 2 <= k <= |t| { assert Node(t, k) == Node(s, k - 1) && Node(t, k + 1) == Node(s, k); }
    }
  }

  function Without(s: seq<nat>, c: nat): (r: seq<nat>)
    ensures forall b :: b in r ==> b in s
  {
    if s == [] then [] else if s[0] == c then s[1..] else [s[0]] + Without(s[1..], c)
  }

  lemma {:induction false} WithoutIsCut(s: seq<nat>, k: nat)
    requires k < |s| && forall i :: 0 <= i < k ==> s[i] != s[k]
    ensures Without(s, s[k]) == s[..k] + s[k + 1..]
  {
    if k > 0 {
      var t, j := s[1..], k - 1;
      assert t[j] == s[k] && s[0] != s[k];
      forall i | 0 <= i < j ensures t[i] != t[j] { assert t[i] == s[i + 1]; }
      WithoutIsCut(t, j);
      assert s[..k] + s[k + 1..] == [s[0]] + (t[..j] + t[j + 1..]);
    }
  }

  lemma RemoveKeepsRing(l: Links, s: seq<nat>, c: nat)
    requires IsRing(l, s) && c in s
    ensures c in l.next && c in l.prev && l.prev[c] in l.next && l.next[c] in l.prev
    ensures IsRing(Removed(l, c), Without(s, c))
    ensures forall b :: b in Without(s, c) <==> b in s && b != c
  {
    var k :| 0 <= k < |s| && s[k] == c;
    WithoutIsCut(s, k);
    CutKeepsRing(l, s, k);
  }

  lemma CutKeepsRing(l: Links, s: seq<nat>, k: nat)
    requires IsRing(l, s) && k < |s|
    ensures s[k] in l.next && s[k] in l.prev && l.prev[s[k]] in l.next && l.next[s[k]] in l.prev
    ensures IsRing(Removed(l, s[k]), s[..k] + s[k + 1..])
  {
    var t := s[..k] + s[k + 1..];
    assert LinkOk(l, s, k) && LinkOk(l, s, k + 1) && Node(s, k + 1) == s[k];
    var m := Removed(l, s[k]);
    forall i ensures LinkOk(m, t, i) { CutIsLinked(l, s, k, i); }
    assert Distinct(t);
  }

  lemma CutIsLinked(l: Links, s: seq<nat>, k: nat, i: int)
    requires IsRing(l, s) && k < |s| && s[k] in l.next && s[k] in l.prev
    ensures LinkOk(Removed(l, s[k]), s[..k] + s[k + 1..], i)
  {
    var n := i + 1;
    assert LinkOk(l, s, k) && LinkOk(l, s, k + 1) && Node(s, k + 1) == s[k];
    assert LinkOk(l, s, i) && LinkOk(l, s, n);
    CutNode(s, k, i);
    CutNode(s, k, n);
    if 0 <= i < |s| && i != k { OneSuccessor(s, k, if i < k then i else n); }
  }

  lemma CutNode(s: seq<nat>, k: nat, i: int)
    requires k < |s|
    ensures Node(s[..k] + s[k + 1..], i) == if i <= k then Node(s, i) else Node(s, i + 1)
  {
  }

  /** Other nodes do not share a neighbour with node k + 1. */
  lemma OneSuccessor(s: seq<nat>, k: nat, i: nat)
    requires Distinct(s) && k < |s| && i <= |s| && i != k && i != k + 1
    ensures Node(s, i) != Node(s, k) && Node(s, i + 1) != Node(s, k + 2)
  {
  }
}
