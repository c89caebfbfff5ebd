/**
 The doubly linked lists of the replacer, guards at both ends: `RemoveFromList`
 and `InsertAt` on linked nodes, proved against the order of the list.
 */
module ReplacerChain {
  import opened FreshIds

  type Ref = nat

  datatype Link = Link(prev: Ref, next: Ref)

  type Links = map<Ref, Link>

  ghost predicate Distinct(s: seq<Ref>) {
    forall i, j :: 0 <= i < j < |s| ==> s[i] != s[j]
  }

  /** The `i`th node and the one after it point at each other. */
  ghost predicate Tied(links: Links, s: seq<Ref>, i: nat)
    requires i + 1 < |s|
  {
    s[i] in links && s[i + 1] in links && links[s[i]].next == s[i + 1] && links[s[i + 1]].prev == s[i]
  }

  /** The nodes between the guards `s[0]` and `s[|s| - 1]`, linked both ways; nothing else is stored. */
  ghost predicate Linked(links: Links, s: seq<Ref>) {
    && 2 <= |s| && Distinct(s) && 0 !in s
    && (forall r :: r in links <==> r in s)
    && (forall i: nat :: i + 1 < |s| ==> Tied(links, s, i))
    && links[s[0]].prev == 0 && links[s[|s| - 1]].next == 0
  }

  function Without(s: seq<Ref>, i: nat): (t: seq<Ref>)
    requires i < |s|
    ensures |t| == |s| - 1
    ensures forall j {:trigger t[j]} :: 0 <= j < |t| ==> t[j] == s[if j < i then j else j + 1]
  {
    s[..i] + s[i + 1..]
  }

  lemma {:induction false} WithoutMembers(s: seq<Ref>, i: nat)
    requires i < |s| && Distinct(s)
    ensures Distinct(Without(s, i))
    ensures forall r :: r in Without(s, i) <==> r in s && r != s[i]
  {
    var t := Without(s, i);
    forall r | r in s && r != s[i] ensures r in t {
      var j :| 0 <= j < |s| && s[j] == r;
      assert t[if j < i then j else j - 1] == r;
    }
  }

  /** A node taken off the list and freed. */
  method RemoveFromList(links: Links, node: Ref, ghost s: seq<Ref>, ghost i: nat) returns (r: Links)
    requires Linked(links, s) && 0 < i < |s| - 1 && node == s[i]
    ensures Linked(r, Without(s, i))
  {
    r := links;
    assert Tied(links, s, i - 1) && Tied(links, s, i);
    hide Linked;
    if r[node].prev != 0 {
      r := r[r[node].prev := r[r[node].prev].(next := r[node].next)];
    }
    if r[node].next != 0 {
      r := r[r[node].next := r[r[node].next].(prev := r[node].prev)];
    }
    r := r - {node};
    RemovedLinked(links, s, i, r);
  }

  lemma {:induction false} RemovedLinked(links: Links, s: seq<Ref>, i: nat, r: Links)
    requires Linked(links, s) && 0 < i < |s| - 1
    requires r.Keys == links.Keys - {s[i]}
    requires forall x :: x in r && x != s[i - 1] && x != s[i + 1] ==> r[x] == links[x]
    requires r[s[i - 1]] == links[s[i - 1]].(next := s[i + 1]) && r[s[i + 1]] == links[s[i + 1]].(prev := s[i - 1])
    ensures Linked(r, Without(s, i))
  {
    var t := Without(s, i);
    WithoutMembers(s, i);
    assert Tied(links, s, i - 1) && Tied(links, s, i);
    forall j: nat | j + 1 < |t| ensures Tied(r, t, j) {
      RemovedTied(links, s, i, r, j);
    }
    assert s[0] in links && s[|s| - 1] in links;
    hide Tied, Without;
  }

  lemma {:induction false} RemovedTied(links: Links, s: seq<Ref>, i: nat, r: Links, j: nat)
    requires Linked(links, s) && 0 < i < |s| - 1 && j + 1 < |s| - 1
    requires r.Keys == links.Keys - {s[i]}
    requires forall x :: x in r && x != s[i - 1] && x != s[i + 1] ==> r[x] == links[x]
    requires r[s[i - 1]] == links[s[i - 1]].(next := s[i + 1]) && r[s[i + 1]] == links[s[i + 1]].(prev := s[i - 1])
    ensures Tied(r, Without(s, i), j)
  {
    assert Tied(links, s, i - 1) && Tied(links, s, i);
    if j + 1 < i {
      assert Tied(links, s, j);
    } else if i <= j {
      assert Tied(links, s, j + 1);
    }
  }

  /** A new node just before the closing guard. */
  method InsertAt(links: Links, node: Ref, prev: Ref, next: Ref, ghost s: seq<Ref>) returns (r: Links)
    requires Linked(links, s) && node != 0 && node !in links
    requires next == s[|s| - 1] && prev == s[|s| - 2]
    ensures Linked(r, s[..|s| - 1] + [node, next])
  {
    r := links[node := Link(prev, next)];
    if prev != 0 {
      r := r[prev := r[prev].(next := node)];
    }
    if next != 0 {
      r := r[next := r[next].(prev := node)];
    }
    InsertedLinked(links, s, node, r);
  }

  lemma {:induction false} InsertedLinked(links: Links, s: seq<Ref>, node: Ref, r: Links)
    requires Linked(links, s) && node != 0 && node !in links
    requires r.Keys == links.Keys + {node}
    requires r[node] == Link(s[|s| - 2], s[|s| - 1])
    requires forall x :: x in links && x != s[|s| - 2] && x != s[|s| - 1] ==> r[x] == links[x]
    requires r[s[|s| - 2]] == links[s[|s| - 2]].(next := node) && r[s[|s| - 1]] == links[s[|s| - 1]].(prev := node)
    ensures Linked(r, s[..|s| - 1] + [node, s[|s| - 1]])
  {
    var n := |s| - 1;
    var t := s[..n] + [node, s[n]];
    assert forall j {:trigger t[j]} :: 0 <= j < |t| ==> t[j] == if j < n then s[j] else if j == n then node else s[n];
    forall x ensures x in r <==> x in t {
      if x in t {
        var j :| 0 <= j < |t| && t[j] == x;
        assert j < n ==> s[j] in links;
      }
      if x in links {
        var j :| 0 <= j < |s| && s[j] == x;
        assert t[if j < n then j else n + 1] == x;
      }
      assert t[n] == node;
    }
    forall j: nat | j + 1 < |t| ensures Tied(r, t, j) {
      InsertedTied(links, s, node, r, t, j);
    }
    assert Distinct(t);
    hide Tied;
  }

  lemma {:induction false} InsertedTied(links: Links, s: seq<Ref>, node: Ref, r: Links, t: seq<Ref>, j: nat)
    requires Linked(links, s) && node != 0 && node !in links
    requires r.Keys == links.Keys + {node}
    requires r[node] == Link(s[|s| - 2], s[|s| - 1])
    requires forall x :: x in links && x != s[|s| - 2] && x != s[|s| - 1] ==> r[x] == links[x]
    requires r[s[|s| - 2]] == links[s[|s| - 2]].(next := node) && r[s[|s| - 1]] == links[s[|s| - 1]].(prev := node)
    requires t == s[..|s| - 1] + [node, s[|s| - 1]] && j + 1 < |t|
    ensures Tied(r, t, j)
  {
    assert Tied(links, s, |s| - 2);
    if j + 1 < |s| - 1 {
      assert Tied(links, s, j);
    }
  }
}
