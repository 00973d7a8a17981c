/**
 * `variants_by_color`: the loop that both product dialogs run to group a
 * product's variants by colour, in a dict whose keys keep the order in
 * which the colours first appear.
 */
module Grouping {
  import opened Catalog

  /** The colours of `vs` in order of first appearance: the dict's key order. */
  function FirstSeen(vs: seq<VariantView>): seq<string>
  {
    if vs == [] then []
    else
      var p := FirstSeen(vs[..|vs| - 1]);
      var c := vs[|vs| - 1].color;
      if c in p then p else p + [c]
  }

  /** The variants of colour `c`, in their original order: the dict's value for `c`. */
  function OfColor(vs: seq<VariantView>, c: string): seq<VariantView>
  {
    if vs == [] then []
    else OfColor(vs[..|vs| - 1], c) + (if vs[|vs| - 1].color == c then [vs[|vs| - 1]] else [])
  }

  /** The loop itself. */
  method GroupByColor(vs: seq<VariantView>) returns (colors: seq<string>, groups: map<string, seq<VariantView>>)
    ensures colors == FirstSeen(vs)
    ensures forall c :: c in groups <==> c in colors
    ensures forall c | c in groups :: groups[c] == OfColor(vs, c)
  {
    colors, groups := [], map[];
    var i := 0;
    while i < |vs|
      invariant i <= |vs|
      invariant colors == FirstSeen(vs[..i])
      invariant forall c :: c in groups <==> c in colors
      invariant forall c | c in groups :: groups[c] == OfColor(vs[..i], c)
    {
      var v := vs[i];
      assert vs[..i + 1][..i] == vs[..i];
      if v.color !in groups {
        FirstSeenIsColorSet(vs[..i]);
        OfAbsentColor(vs[..i], v.color);
        groups := groups[v.color := []];
        colors := colors + [v.color];
      }
      groups := groups[v.color := groups[v.color] + [v]];
      i := i + 1;
    }
    assert vs[..i] == vs;
  }

  /** Each colour is listed once, and exactly the colours of the variants are listed. */
  lemma {:induction false} FirstSeenIsColorSet(vs: seq<VariantView>)
    ensures forall i, j | 0 <= i < j < |FirstSeen(vs)| :: FirstSeen(vs)[i] != FirstSeen(vs)[j]
    ensures forall c :: c in FirstSeen(vs) <==> exists k | 0 <= k < |vs| :: vs[k].color == c
  {
    if vs != [] {
      var p := vs[..|vs| - 1];
      FirstSeenIsColorSet(p);
      forall c ensures c in FirstSeen(vs) <==> exists k | 0 <= k < |vs| :: vs[k].color == c {
        if exists k | 0 <= k < |vs| :: vs[k].color == c {
          var k :| 0 <= k < |vs| && vs[k].color == c;
          if k < |p| { assert p[k] == vs[k]; }
        }
        if c in FirstSeen(p) {
          var k :| 0 <= k < |p| && p[k].color == c;
          assert vs[k] == p[k];
        }
      }
    }
  }

  /**
   * Colours are listed in order of first appearance: a colour listed
   * before another occurs in `vs` before any occurrence of the other.
   */
  lemma {:induction false} FirstSeenOrder(vs: seq<VariantView>, i: nat, j: nat, m: nat)
    requires i < j < |FirstSeen(vs)| && m < |vs| && vs[m].color == FirstSeen(vs)[j]
    ensures exists k | 0 <= k < m :: vs[k].color == FirstSeen(vs)[i]
  {
    var p := vs[..|vs| - 1];
    FirstSeenIsColorSet(p);
    if m < |p| {
      assert p[m] == vs[m];
      assert vs[m].color in FirstSeen(p);
      assert j < |FirstSeen(p)|;
      assert FirstSeen(vs)[i] == FirstSeen(p)[i] && FirstSeen(vs)[j] == FirstSeen(p)[j];
      FirstSeenOrder(p, i, j, m);
      var k :| 0 <= k < m && p[k].color == FirstSeen(p)[i];
      assert vs[k] == p[k];
    } else {
      var a := FirstSeen(vs)[i];
      assert a in FirstSeen(p) by {
        if FirstSeen(vs) != FirstSeen(p) { assert i < |FirstSeen(p)|; }
      }
      var k :| 0 <= k < |p| && p[k].color == a;
      assert vs[k] == p[k];
    }
  }

  /** The groups laid end to end, in the order of `colors`. */
  function Concat(colors: seq<string>, vs: seq<VariantView>): seq<VariantView>
  {
    if colors == [] then [] else Concat(colors[..|colors| - 1], vs) + OfColor(vs, colors[|colors| - 1])
  }

  /** A variant of a colour not in `colors` adds nothing to their groups. */
  lemma {:induction false} ConcatIgnoresOtherColor(colors: seq<string>, vs: seq<VariantView>, v: VariantView)
    requires v.color !in colors
    ensures Concat(colors, vs + [v]) == Concat(colors, vs)
  {
    assert (vs + [v])[..|vs|] == vs;
    if colors != [] {
      ConcatIgnoresOtherColor(colors[..|colors| - 1], vs, v);
    }
  }

  /** A variant of a colour listed once joins exactly one group. */
  lemma {:induction false} ConcatAddsToOneGroup(colors: seq<string>, vs: seq<VariantView>, v: VariantView)
    requires forall i, j | 0 <= i < j < |colors| :: colors[i] != colors[j]
    requires v.color in colors
    ensures multiset(Concat(colors, vs + [v])) == multiset(Concat(colors, vs)) + multiset{v}
  {
    assert (vs + [v])[..|vs|] == vs;
    var p, c := colors[..|colors| - 1], colors[|colors| - 1];
    if c == v.color {
      assert v.color !in p;
      ConcatIgnoresOtherColor(p, vs, v);
    } else {
      assert v.color in p;
      ConcatAddsToOneGroup(p, vs, v);
    }
  }

  /** The groups of a colour that does not occur are empty. */
  lemma {:induction false} OfAbsentColor(vs: seq<VariantView>, c: string)
    requires forall k | 0 <= k < |vs| :: vs[k].color != c
    ensures OfColor(vs, c) == []
  {
    if vs != [] {
      OfAbsentColor(vs[..|vs| - 1], c);
    }
  }

  /** The groups together hold every variant exactly once. */
  lemma {:induction false} GroupsArePermutation(vs: seq<VariantView>)
    ensures multiset(Concat(FirstSeen(vs), vs)) == multiset(vs)
  {
    if vs != [] {
      var p, v := vs[..|vs| - 1], vs[|vs| - 1];
      assert vs == p + [v];
      GroupsArePermutation(p);
      FirstSeenIsColorSet(p);
      var cs := FirstSeen(p);
      if v.color in cs {
        ConcatAddsToOneGroup(cs, p, v);
      } else {
        ConcatIgnoresOtherColor(cs, p, v);
        assert (cs + [v.color])[..|cs|] == cs;
        OfAbsentColor(p, v.color);
        assert OfColor(vs, v.color) == [v];
      }
    }
  }
}
