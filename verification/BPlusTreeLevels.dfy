/**
 The shape of a B+ tree, seen level by level.

 Level 0 lists the leaves from left to right, the last level holds the root.
 Two neighbouring levels are linked when the entries of the upper one, read
 from left to right, are exactly the pages of the lower one, each with the
 greatest key of its subtree; the last page of a level has no bound. This one
 equation says that every separator is an attained maximum, that the depth is
 uniform, and that only the rightmost path has past-the-end pointers.
 */
module BPlusTreeLevels {
  import opened BPlusTreePage

  datatype Node = Node(id: Ptr, view: seq<Sep>)

  type Level = seq<Node>

  /** The entries of a level, from left to right. */
  function Flat(lv: Level): seq<Sep> {
    if lv == [] then [] else Flat(lv[..|lv| - 1]) + lv[|lv| - 1].view
  }

  /** The position in `Flat(lv)` of the first entry of node `q`. */
  function Off(lv: Level, q: nat): nat
    requires q <= |lv|
  {
    |Flat(lv[..q])|
  }

  /** What the level above must say about node `p`. */
  function SepOf(lv: Level, p: nat): Sep
    requires p < |lv| && 0 < |lv[p].view|
  {
    Sep(if p == |lv| - 1 then Inf else lv[p].view[|lv[p].view| - 1].bound, lv[p].id)
  }

  ghost predicate Inhabited(lv: Level) {
    forall p :: 0 <= p < |lv| ==> 0 < |lv[p].view|
  }

  function Seps(lv: Level): (s: seq<Sep>)
    requires Inhabited(lv)
    ensures |s| == |lv|
    ensures forall p {:trigger s[p]} :: 0 <= p < |lv| ==> s[p] == SepOf(lv, p)
  {
    seq(|lv|, p requires 0 <= p < |lv| => SepOf(lv, p))
  }

  ghost predicate Linked(lo: Level, hi: Level) {
    Inhabited(lo) && Flat(hi) == Seps(lo)
  }

  function WithView(lv: Level, q: nat, v: seq<Sep>): Level
    requires q < |lv|
  {
    lv[q := lv[q].(view := v)]
  }

  function SplitNode(lv: Level, q: nat, va: seq<Sep>, id: Ptr, vb: seq<Sep>): Level
    requires q < |lv|
  {
    lv[..q] + [Node(lv[q].id, va), Node(id, vb)] + lv[q + 1..]
  }

  /** Node `q` goes into node `q - 1`. */
  function MergeNodes(lv: Level, q: nat): Level
    requires 0 < q < |lv|
  {
    lv[..q - 1] + [Node(lv[q - 1].id, lv[q - 1].view + lv[q].view)] + lv[q + 1..]
  }

  lemma {:induction false} FlatAppend(a: Level, b: Level)
    ensures Flat(a + b) == Flat(a) + Flat(b)
  {
    if b == [] {
      assert a + b == a;
    } else {
      FlatAppend(a, b[..|b| - 1]);
      assert (a + b)[..|a + b| - 1] == a + b[..|b| - 1];
    }
  }

  lemma {:induction false} FlatOne(n: Node)
    ensures Flat([n]) == n.view
  {
    assert [n][..0] == [];
  }

  lemma {:induction false} FlatTwo(m: Node, n: Node)
    ensures Flat([m, n]) == m.view + n.view
  {
    assert [m, n] == [m] + [n];
    FlatAppend([m], [n]);
    FlatOne(m);
    FlatOne(n);
  }

  lemma {:induction false} FlatAround(lv: Level, q: nat)
    requires q < |lv|
    ensures Flat(lv) == Flat(lv[..q]) + lv[q].view + Flat(lv[q + 1..])
  {
    assert lv == lv[..q] + [lv[q]] + lv[q + 1..];
    FlatAppend(lv[..q] + [lv[q]], lv[q + 1..]);
    FlatAppend(lv[..q], [lv[q]]);
    FlatOne(lv[q]);
  }

  /** Entry `i` of node `q` is entry `Off(lv, q) + i` of the level. */
  lemma {:induction false} FlatAt(lv: Level, q: nat, i: nat)
    requires q < |lv| && i < |lv[q].view|
    ensures Off(lv, q) + i < |Flat(lv)| && Flat(lv)[Off(lv, q) + i] == lv[q].view[i]
  {
    FlatAround(lv, q);
  }

  lemma {:induction false} FlatWithView(lv: Level, q: nat, v: seq<Sep>)
    requires q < |lv|
    ensures Flat(WithView(lv, q, v)) == Flat(lv[..q]) + v + Flat(lv[q + 1..])
  {
    var w := WithView(lv, q, v);
    FlatAround(w, q);
    assert w[..q] == lv[..q] && w[q + 1..] == lv[q + 1..];
  }

  lemma {:induction false} FlatSplitNode(lv: Level, q: nat, va: seq<Sep>, id: Ptr, vb: seq<Sep>)
    requires q < |lv|
    ensures Flat(SplitNode(lv, q, va, id, vb)) == Flat(WithView(lv, q, va + vb))
  {
    var mid := [Node(lv[q].id, va), Node(id, vb)];
    FlatAppend(lv[..q] + mid, lv[q + 1..]);
    FlatAppend(lv[..q], mid);
    FlatTwo(mid[0], mid[1]);
    FlatWithView(lv, q, va + vb);
  }

  lemma {:induction false} FlatMergeNodes(lv: Level, q: nat)
    requires 0 < q < |lv|
    ensures Flat(MergeNodes(lv, q)) == Flat(lv)
  {
    var a, m, b := lv[..q - 1], Node(lv[q - 1].id, lv[q - 1].view + lv[q].view), lv[q + 1..];
    FlatBetween(a, [m], b);
    FlatOne(m);
    FlatBetween(a, [lv[q - 1], lv[q]], b);
    FlatTwo(lv[q - 1], lv[q]);
    assert lv == a + [lv[q - 1], lv[q]] + b;
  }

  lemma {:induction false} FlatBetween(a: Level, m: Level, b: Level)
    ensures Flat(a + m + b) == Flat(a) + Flat(m) + Flat(b)
  {
    FlatAppend(a + m, b);
    FlatAppend(a, m);
  }

  /** Splitting a node splits its separator. */
  lemma {:induction false} SepsSplitNode(lv: Level, q: nat, va: seq<Sep>, id: Ptr, vb: seq<Sep>, k: Key)
    requires q < |lv| && Inhabited(lv) && va != [] && vb != []
    requires va[|va| - 1].bound == Fin(k)
    requires vb[|vb| - 1].bound == lv[q].view[|lv[q].view| - 1].bound || q == |lv| - 1
    ensures Inhabited(SplitNode(lv, q, va, id, vb))
    ensures Seps(SplitNode(lv, q, va, id, vb)) == SplitAt(Seps(lv), q, k, id)
  {
    var got, want := Seps(SplitNode(lv, q, va, id, vb)), SplitAt(Seps(lv), q, k, id);
    forall p | 0 <= p < |want|
      ensures got[p] == want[p]
    {
      if q + 1 < p {
        assert want[p] == Seps(lv)[p - 1];
      }
    }
  }

  /** Merging two nodes merges their separators. */
  lemma {:induction false} SepsMergeNodes(lv: Level, q: nat)
    requires 0 < q < |lv| && Inhabited(lv)
    ensures Inhabited(MergeNodes(lv, q))
    ensures Seps(MergeNodes(lv, q)) == MergeAt(Seps(lv), q)
  {
    var got, want := Seps(MergeNodes(lv, q)), MergeAt(Seps(lv), q);
    forall p | 0 <= p < |want|
      ensures got[p] == want[p]
    {
      if q <= p {
        assert want[p] == Seps(lv)[p + 1];
      }
    }
  }

  /** A split recorded in one node is a split of the flattened level. */
  lemma {:induction false} FlatSplitAt(lv: Level, q: nat, i: nat, k: Key, id: Ptr)
    requires q < |lv| && i < |lv[q].view|
    ensures Off(lv, q) + i < |Flat(lv)|
    ensures Flat(WithView(lv, q, SplitAt(lv[q].view, i, k, id))) == SplitAt(Flat(lv), Off(lv, q) + i, k, id)
  {
    FlatAt(lv, q, i);
    FlatAround(lv, q);
    FlatWithView(lv, q, SplitAt(lv[q].view, i, k, id));
    SplitAtAround(Flat(lv[..q]), lv[q].view, Flat(lv[q + 1..]), i, k, id);
  }

  lemma {:induction false} SplitAtAround(a: seq<Sep>, v: seq<Sep>, b: seq<Sep>, i: nat, k: Key, id: Ptr)
    requires i < |v|
    ensures SplitAt(a + v + b, |a| + i, k, id) == a + SplitAt(v, i, k, id) + b
  {
    assert (a + v + b)[..|a| + i] == a + v[..i];
    assert (a + v + b)[|a| + i + 1..] == v[i + 1..] + b;
  }

  lemma {:induction false} FlatMergeAt(lv: Level, q: nat, i: nat)
    requires q < |lv| && 0 < i < |lv[q].view|
    ensures 0 < Off(lv, q) + i < |Flat(lv)|
    ensures Flat(WithView(lv, q, MergeAt(lv[q].view, i))) == MergeAt(Flat(lv), Off(lv, q) + i)
  {
    FlatAt(lv, q, i);
    FlatAround(lv, q);
    FlatWithView(lv, q, MergeAt(lv[q].view, i));
    MergeAtAround(Flat(lv[..q]), lv[q].view, Flat(lv[q + 1..]), i);
  }

  lemma {:induction false} MergeAtAround(a: seq<Sep>, v: seq<Sep>, b: seq<Sep>, i: nat)
    requires 0 < i < |v|
    ensures MergeAt(a + v + b, |a| + i) == a + MergeAt(v, i) + b
  {
    assert (a + v + b)[..|a| + i - 1] == a + v[..i - 1];
    assert (a + v + b)[|a| + i + 1..] == v[i + 1..] + b;
  }

  /** A new bound in one node is a new bound in the flattened level. */
  lemma {:induction false} FlatSetSep(lv: Level, q: nat, i: nat, s: Sep)
    requires q < |lv| && i < |lv[q].view|
    ensures Off(lv, q) + i < |Flat(lv)|
    ensures Flat(WithView(lv, q, lv[q].view[i := s])) == Flat(lv)[Off(lv, q) + i := s]
  {
    FlatAt(lv, q, i);
    FlatAround(lv, q);
    FlatWithView(lv, q, lv[q].view[i := s]);
  }

  /** Offsets grow with the position, by at least one entry a node. */
  lemma {:induction false} OffMonotone(lv: Level, a: nat, b: nat)
    requires a <= b <= |lv|
    ensures Off(lv, a) <= Off(lv, b) <= |Flat(lv)|
  {
    assert lv[..b] == lv[..a] + lv[a..b];
    FlatAppend(lv[..a], lv[a..b]);
    assert lv == lv[..b] + lv[b..];
    FlatAppend(lv[..b], lv[b..]);
  }

  lemma {:induction false} OffNext(lv: Level, q: nat)
    requires q < |lv|
    ensures Off(lv, q + 1) == Off(lv, q) + |lv[q].view|
  {
    assert lv[..q + 1][..q] == lv[..q];
  }

  lemma {:induction false} OffZero(lv: Level)
    ensures Off(lv, 0) == 0
  {
  }

  lemma {:induction false} OffEnd(lv: Level)
    ensures Off(lv, |lv|) == |Flat(lv)|
  {
    assert lv[..|lv|] == lv;
  }

  /** A pointer is the last of its level exactly when it is the last of the last node. */
  lemma {:induction false} LastPointer(lv: Level, q: nat, i: nat)
    requires q < |lv| && i < |lv[q].view| && Inhabited(lv)
    ensures Off(lv, q) + i < |Flat(lv)|
    ensures Off(lv, q) + i == |Flat(lv)| - 1 <==> q == |lv| - 1 && i == |lv[q].view| - 1
  {
    FlatAt(lv, q, i);
    OffNext(lv, q);
    OffEnd(lv);
    if q < |lv| - 1 {
      OffNext(lv, q + 1);
      OffMonotone(lv, q + 2, |lv|);
    }
  }
}
