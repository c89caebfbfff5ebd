/**
 How high a B+ tree can be: minimum fill makes every level at least as many times
 wider than the one above as half a page holds entries.
 */
module BPlusTreeHeight {
  import opened BPlusTreePage
  import opened BPlusTreeLevels
  import opened BPlusTreeShape

  function Power(base: nat, exp: nat): nat {
    if exp == 0 then 1 else base * Power(base, exp - 1)
  }

  lemma TimesMore(base: nat, width: nat, more: nat, exp: nat)
    requires base * width <= more && 2 * Power(base, exp) <= width
    ensures 2 * Power(base, exp + 1) <= more
  {
    var p := Power(base, exp);
    assert base * (2 * p) <= base * width;
    assert base * (2 * p) == 2 * (base * p);
  }

  /** A level has at least as many entries as its pages at their fewest. */
  lemma {:induction false} FlatAtLeast(lv: Level, m: nat)
    requires forall p {:trigger lv[p]} :: 0 <= p < |lv| ==> m <= |lv[p].view|
    ensures m * |lv| <= |Flat(lv)|
  {
    if lv == [] {
      assert m * |lv| == 0;
    } else {
      FlatAtLeast(lv[..|lv| - 1], m);
      assert m * |lv| == m * (|lv| - 1) + m;
    }
  }

  /** Each level's entries, the root's excepted. */
  lemma {:induction false} LevelAtLeast(levels: seq<Level>, cap: nat, l: nat)
    requires 2 <= cap && 2 <= |levels| && ShapeFrom(levels, 0, cap) && l < |levels| - 1
    ensures 2 * Power((cap + 1) / 2, |levels| - 1 - l) <= |Flat(levels[l])|
    decreases |levels| - l
  {
    var m, h := (cap + 1) / 2, |levels|;
    WideEnough(levels, cap, l);
    FlatAtLeast(levels[l], m);
    if l + 1 == h - 1 {
      RootHasTwo(levels, cap);
      assert Power(m, 0) == 1;
      TimesMore(m, |levels[l]|, |Flat(levels[l])|, 0);
    } else {
      LevelAtLeast(levels, cap, l + 1);
      TimesMore(m, |levels[l]|, |Flat(levels[l])|, h - 2 - l);
    }
  }

  lemma WideEnough(levels: seq<Level>, cap: nat, l: nat)
    requires 2 <= |levels| && ShapeFrom(levels, 0, cap) && l < |levels| - 1
    ensures forall p {:trigger levels[l][p]} :: 0 <= p < |levels[l]| ==> (cap + 1) / 2 <= |levels[l][p].view|
    ensures |levels[l]| == |Flat(levels[l + 1])|
  {
    assert Filled(levels[l], l == 0, false, cap) && Linked(levels[l], levels[l + 1]);
    forall p | 0 <= p < |levels[l]| ensures (cap + 1) / 2 <= |levels[l][p].view| {
      assert MinCount(cap) <= Count(levels[l], p, l == 0);
    }
  }

  /** A root that is not a leaf has at least two sons. */
  lemma RootHasTwo(levels: seq<Level>, cap: nat)
    requires 2 <= |levels| && ShapeFrom(levels, 0, cap)
    ensures 2 <= |Flat(levels[|levels| - 1])|
  {
    var root := levels[|levels| - 1];
    assert Filled(root, false, true, cap) && 1 <= Count(root, 0, false);
    assert root[..0] == [] && root == [root[0]];
  }

  /**
   A tree of `h` levels, two or more, has at least `2 * ((cap + 1) / 2)^(h - 1)`
   entries: its height is logarithmic, with half a page as the base.
   */
  lemma {:induction false} Shallow(levels: seq<Level>, cap: nat)
    requires 2 <= cap && 2 <= |levels| && ShapeFrom(levels, 0, cap)
    ensures 2 * Power((cap + 1) / 2, |levels| - 1) <= |Flat(levels[0])|
  {
    LevelAtLeast(levels, cap, 0);
  }
}
