/**
  The category forest (src/app/features/categories/models/category.model.ts)
  and its pre-order, depth-annotated flattening, the list the category modal
  offers as parent candidates.

  A node of the forest is addressed by a path: the index of its root among
  the roots, then the index of each child on the way down. The path of a node
  has length depth + 1. The flattening is characterised against these paths:
  it lists the node at every path, each exactly once, in pre-order.
 */
module CategoryModel {
  import opened Common

  /**
    One category. `children` is the ordered list of owned sub-categories; the
    source's absent `children` is the empty sequence. Timestamps, product
    counts and the breadcrumb fields carry no behaviour here and are omitted.
   */
  datatype Category = Category(
    id: int,
    name: string,
    description: Option<string>,
    parentId: Option<int>,
    level: int,
    isActive: bool,
    children: seq<Category>)

  /**
    The flattening `flattenCategories(categories, level)` pushes: every
    category as a copy whose `level` is overwritten with the recursion depth,
    followed at once by its own flattened children one level deeper, roots in
    their given order.
   */
  function Flatten(cs: seq<Category>, level: int): seq<Category>
  {
    if |cs| == 0 then []
    else [cs[0].(level := level)] + Flatten(cs[0].children, level + 1) + Flatten(cs[1..], level)
  }

  /** The set of ids in a list of categories. */
  function IdSet(s: seq<Category>): set<int>
  {
    set i | 0 <= i < |s| :: s[i].id
  }

  // ---------------------------------------------------------------------------
  // Paths into the forest

  /** `p` leads from the roots `cs` to a node. */
  ghost predicate IsPath(cs: seq<Category>, p: seq<nat>)
    decreases |p|
  {
    1 <= |p| && p[0] < |cs| && (|p| == 1 || IsPath(cs[p[0]].children, p[1..]))
  }

  /** The node a path leads to. */
  ghost function NodeAt(cs: seq<Category>, p: seq<nat>): Category
    requires IsPath(cs, p)
    decreases |p|
  {
    if |p| == 1 then cs[p[0]] else NodeAt(cs[p[0]].children, p[1..])
  }

  /**
    Pre-order on paths: `p` comes before `q` when it is a proper prefix of
    `q` (a node before its descendants) or when at the first index where they
    differ `p` is smaller (an earlier sibling's subtree first).
   */
  ghost predicate PathBefore(p: seq<nat>, q: seq<nat>)
    decreases |p|
  {
    |q| > 0 && (|p| == 0 || p[0] < q[0] || (p[0] == q[0] && PathBefore(p[1..], q[1..])))
  }

  ghost predicate SortedPaths(ps: seq<seq<nat>>)
  {
    forall j, k :: 0 <= j < k < |ps| ==> PathBefore(ps[j], ps[k])
  }

  /** `[i] + p` for every path `p`: paths into the children of root `i`. */
  ghost function Under(i: nat, ps: seq<seq<nat>>): (r: seq<seq<nat>>)
    ensures |r| == |ps|
    ensures forall k :: 0 <= k < |ps| ==> r[k] == [i] + ps[k]
  {
    seq(|ps|, k requires 0 <= k < |ps| => [i] + ps[k])
  }

  /** A path among the roots after the first, renumbered among all roots. */
  ghost function Bump(p: seq<nat>): seq<nat>
  {
    if |p| == 0 then [] else [p[0] + 1] + p[1..]
  }

  ghost function Shift(ps: seq<seq<nat>>): (r: seq<seq<nat>>)
    ensures |r| == |ps|
    ensures forall k :: 0 <= k < |ps| ==> r[k] == Bump(ps[k])
  {
    seq(|ps|, k requires 0 <= k < |ps| => Bump(ps[k]))
  }

  /** Every path of the forest, in pre-order. */
  ghost function Paths(cs: seq<Category>): seq<seq<nat>>
  {
    if |cs| == 0 then []
    else [[0]] + Under(0, Paths(cs[0].children)) + Shift(Paths(cs[1..]))
  }

  // ---------------------------------------------------------------------------
  // Facts about paths

  lemma {:induction false} PathBeforeIrreflexive(p: seq<nat>)
    ensures !PathBefore(p, p)
    decreases |p|
  {
    if |p| > 0 {
      PathBeforeIrreflexive(p[1..]);
    }
  }

  lemma {:induction false} PathBeforeAsymmetric(p: seq<nat>, q: seq<nat>)
    requires PathBefore(p, q)
    ensures !PathBefore(q, p)
    decreases |p|
  {
    if |p| > 0 && p[0] == q[0] && PathBefore(p[1..], q[1..]) {
      PathBeforeAsymmetric(p[1..], q[1..]);
    }
  }

  /** A node precedes its descendants. */
  lemma {:induction false} PrefixBefore(p: seq<nat>, q: seq<nat>)
    requires |p| < |q| && p == q[..|p|]
    ensures PathBefore(p, q)
    decreases |p|
  {
    if |p| > 0 {
      assert p[1..] == q[1..][..|p| - 1];
      PrefixBefore(p[1..], q[1..]);
    }
  }

  lemma UnderSorted(i: nat, ps: seq<seq<nat>>)
    requires SortedPaths(ps)
    ensures SortedPaths(Under(i, ps))
  {
    var r := Under(i, ps);
    forall j, k | 0 <= j < k < |r|
      ensures PathBefore(r[j], r[k])
    {
      assert r[j][1..] == ps[j] && r[k][1..] == ps[k];
    }
  }

  lemma ShiftSorted(ps: seq<seq<nat>>)
    requires SortedPaths(ps)
    requires forall k :: 0 <= k < |ps| ==> |ps[k]| >= 1
    ensures SortedPaths(Shift(ps))
  {
    var r := Shift(ps);
    forall j, k | 0 <= j < k < |r|
      ensures PathBefore(r[j], r[k])
    {
      assert r[j][1..] == ps[j][1..] && r[k][1..] == ps[k][1..];
    }
  }

  lemma ConcatSorted(a: seq<seq<nat>>, b: seq<seq<nat>>)
    requires SortedPaths(a) && SortedPaths(b)
    requires forall j, k :: 0 <= j < |a| && 0 <= k < |b| ==> PathBefore(a[j], b[k])
    ensures SortedPaths(a + b)
  {
  }

  /** Every listed path is a path of the forest. */
  lemma {:induction false} PathsValid(cs: seq<Category>)
    ensures forall k :: 0 <= k < |Paths(cs)| ==> IsPath(cs, Paths(cs)[k])
  {
    if |cs| > 0 {
      var p1 := Paths(cs[0].children);
      var p2 := Paths(cs[1..]);
      PathsValid(cs[0].children);
      PathsValid(cs[1..]);
      var all := Paths(cs);
      forall k | 0 <= k < |all|
        ensures IsPath(cs, all[k])
      {
        if 1 <= k < 1 + |p1| {
          assert all[k] == [0] + p1[k - 1];
          assert all[k][1..] == p1[k - 1];
        } else if 1 + |p1| <= k {
          var q := p2[k - 1 - |p1|];
          assert all[k] == Bump(q);
          assert Bump(q)[1..] == q[1..];
        }
      }
    }
  }

  /** The listed paths are in strict pre-order, hence pairwise distinct. */
  lemma {:induction false} PathsSorted(cs: seq<Category>)
    ensures SortedPaths(Paths(cs))
  {
    if |cs| > 0 {
      var p1 := Paths(cs[0].children);
      var p2 := Paths(cs[1..]);
      PathsSorted(cs[0].children);
      PathsSorted(cs[1..]);
      PathsValid(cs[0].children);
      PathsValid(cs[1..]);
      UnderSorted(0, p1);
      ShiftSorted(p2);
      var u := Under(0, p1);
      var s := Shift(p2);
      forall k | 0 <= k < |u|
        ensures PathBefore([0], u[k])
      {
        PrefixBefore([0], u[k]);
      }
      ConcatSorted([[0]], u);
      UnderFirst(p1);
      ShiftLater(p2);
      FirstBeforeLater([[0]] + u, s);
      ConcatSorted([[0]] + u, s);
    }
  }

  /** Paths into the first root's subtree start at index 0. */
  lemma UnderFirst(ps: seq<seq<nat>>)
    ensures forall k :: 0 <= k < |[[0]] + Under(0, ps)| ==>
      |([[0]] + Under(0, ps))[k]| >= 1 && ([[0]] + Under(0, ps))[k][0] == 0
  {
    var a := [[0]] + Under(0, ps);
    forall k | 0 <= k < |a|
      ensures |a[k]| >= 1 && a[k][0] == 0
    {
      if k > 0 {
        assert a[k] == [0] + ps[k - 1];
      }
    }
  }

  /** Renumbered paths of the later roots start at index 1 or more. */
  lemma ShiftLater(ps: seq<seq<nat>>)
    requires forall k :: 0 <= k < |ps| ==> |ps[k]| >= 1
    ensures forall k :: 0 <= k < |Shift(ps)| ==> |Shift(ps)[k]| >= 1 && Shift(ps)[k][0] >= 1
  {
  }

  /** Every path starting at 0 comes before every path starting later. */
  lemma FirstBeforeLater(a: seq<seq<nat>>, b: seq<seq<nat>>)
    requires forall j :: 0 <= j < |a| ==> |a[j]| >= 1 && a[j][0] == 0
    requires forall k :: 0 <= k < |b| ==> |b[k]| >= 1 && b[k][0] >= 1
    ensures forall j, k :: 0 <= j < |a| && 0 <= k < |b| ==> PathBefore(a[j], b[k])
  {
  }

  lemma InUnder(i: nat, ps: seq<seq<nat>>, q: seq<nat>)
    requires q in ps
    ensures [i] + q in Under(i, ps)
  {
    var k :| 0 <= k < |ps| && ps[k] == q;
    assert Under(i, ps)[k] == [i] + q;
  }

  lemma InShift(ps: seq<seq<nat>>, q: seq<nat>)
    requires q in ps
    ensures Bump(q) in Shift(ps)
  {
    var k :| 0 <= k < |ps| && ps[k] == q;
    assert Shift(ps)[k] == Bump(q);
  }

  /** Every path of the forest is listed. */
  lemma {:induction false} PathsComplete(cs: seq<Category>, p: seq<nat>)
    requires IsPath(cs, p)
    ensures p in Paths(cs)
  {
    if p[0] == 0 {
      if |p| == 1 {
        assert p == [0];
        PartsListed(cs, p);
      } else {
        PathsComplete(cs[0].children, p[1..]);
        InUnder(0, Paths(cs[0].children), p[1..]);
        assert [0] + p[1..] == p;
        PartsListed(cs, p);
      }
    } else {
      var q := [p[0] - 1] + p[1..];
      PathFromRest(cs, p);
      PathsComplete(cs[1..], q);
      InShift(Paths(cs[1..]), q);
      assert Bump(q) == p;
      PartsListed(cs, p);
    }
  }

  /** The three parts of `Paths`: the first root, its subtree's paths and the later roots' paths. */
  lemma PartsListed(cs: seq<Category>, x: seq<nat>)
    requires |cs| > 0
    requires x == [0] || x in Under(0, Paths(cs[0].children)) || x in Shift(Paths(cs[1..]))
    ensures x in Paths(cs)
  {
    assert Paths(cs) == [[0]] + Under(0, Paths(cs[0].children)) + Shift(Paths(cs[1..]));
  }

  /** A path into the first root's children, seen from the roots. */
  lemma PathIntoFirst(cs: seq<Category>, q: seq<nat>)
    requires |cs| > 0 && IsPath(cs[0].children, q)
    ensures IsPath(cs, [0] + q) && NodeAt(cs, [0] + q) == NodeAt(cs[0].children, q)
  {
    assert ([0] + q)[1..] == q;
  }

  /** A path among the later roots, seen from all roots. */
  lemma PathIntoRest(cs: seq<Category>, q: seq<nat>)
    requires |cs| > 0 && IsPath(cs[1..], q)
    ensures IsPath(cs, Bump(q)) && NodeAt(cs, Bump(q)) == NodeAt(cs[1..], q)
    ensures |Bump(q)| == |q|
  {
    assert Bump(q)[1..] == q[1..];
    assert cs[1..][q[0]] == cs[q[0] + 1];
  }

  /** A path that does not start at the first root, seen from the later roots. */
  lemma PathFromRest(cs: seq<Category>, p: seq<nat>)
    requires IsPath(cs, p) && p[0] > 0
    ensures IsPath(cs[1..], [p[0] - 1] + p[1..]) && NodeAt(cs[1..], [p[0] - 1] + p[1..]) == NodeAt(cs, p)
  {
    var q := [p[0] - 1] + p[1..];
    assert q[1..] == p[1..];
    assert cs[1..][q[0]] == cs[p[0]];
  }

  // ---------------------------------------------------------------------------
  // The flattening against the paths

  /**
    The flattening is the list of the forest's nodes in path pre-order: entry
    `k` is the node at the `k`-th path, with its `level` replaced by its depth
    counted from `level` at the roots.
   */
  lemma {:induction false} FlattenFollowsPaths(cs: seq<Category>, level: int)
    ensures |Flatten(cs, level)| == |Paths(cs)|
    ensures forall k :: 0 <= k < |Paths(cs)| ==>
      IsPath(cs, Paths(cs)[k]) &&
      Flatten(cs, level)[k] == NodeAt(cs, Paths(cs)[k]).(level := level + |Paths(cs)[k]| - 1)
  {
    FlattenLength(cs, level);
    forall k | 0 <= k < |Paths(cs)|
      ensures IsPath(cs, Paths(cs)[k])
      ensures Flatten(cs, level)[k] == NodeAt(cs, Paths(cs)[k]).(level := level + |Paths(cs)[k]| - 1)
    {
      FlattenAtPath(cs, level, k);
    }
  }

  /** The flattening has one entry per path. */
  lemma {:induction false} FlattenLength(cs: seq<Category>, level: int)
    ensures |Flatten(cs, level)| == |Paths(cs)|
  {
    if |cs| > 0 {
      FlattenLength(cs[0].children, level + 1);
      FlattenLength(cs[1..], level);
    }
  }

  /** Entry `k` of the flattening is the node at the `k`-th path, at its depth. */
  lemma {:induction false} FlattenAtPath(cs: seq<Category>, level: int, k: nat)
    requires k < |Paths(cs)|
    ensures IsPath(cs, Paths(cs)[k])
    ensures k < |Flatten(cs, level)|
    ensures Flatten(cs, level)[k] == NodeAt(cs, Paths(cs)[k]).(level := level + |Paths(cs)[k]| - 1)
    decreases cs, k
  {
    if k == 0 {
      FollowsAtRoot(cs, level);
    } else if k < 1 + |Paths(cs[0].children)| {
      FollowsInFirstSubtree(cs, level, k);
    } else {
      FollowsInLaterRoots(cs, level, k);
    }
  }

  /** The step of `FlattenAtPath` for the first entry: the first root itself. */
  lemma FollowsAtRoot(cs: seq<Category>, level: int)
    requires |cs| > 0
    ensures IsPath(cs, Paths(cs)[0])
    ensures 0 < |Flatten(cs, level)|
    ensures Flatten(cs, level)[0] == NodeAt(cs, Paths(cs)[0]).(level := level + |Paths(cs)[0]| - 1)
  {
    assert Paths(cs)[0] == [0];
  }

  /** The step of `FlattenAtPath` for an entry from the first root's subtree. */
  lemma {:induction false} FollowsInFirstSubtree(cs: seq<Category>, level: int, k: nat)
    requires |cs| > 0 && 1 <= k < 1 + |Paths(cs[0].children)|
    ensures k < |Paths(cs)| && IsPath(cs, Paths(cs)[k])
    ensures k < |Flatten(cs, level)|
    ensures Flatten(cs, level)[k] == NodeAt(cs, Paths(cs)[k]).(level := level + |Paths(cs)[k]| - 1)
    decreases cs, 0
  {
    var j := k - 1;
    var q := Paths(cs[0].children)[j];
    FlattenLength(cs[0].children, level + 1);
    FlattenAtPath(cs[0].children, level + 1, j);
    IndexFirstSubtree(cs, level, j);
    PathIntoFirst(cs, q);
  }

  /** Where entry `j` of the first root's subtree sits in the whole flattening and path list. */
  lemma IndexFirstSubtree(cs: seq<Category>, level: int, j: nat)
    requires |cs| > 0
    requires |Flatten(cs[0].children, level + 1)| == |Paths(cs[0].children)|
    requires j < |Paths(cs[0].children)|
    ensures 1 + j < |Paths(cs)| && 1 + j < |Flatten(cs, level)|
    ensures Flatten(cs, level)[1 + j] == Flatten(cs[0].children, level + 1)[j]
    ensures Paths(cs)[1 + j] == [0] + Paths(cs[0].children)[j]
  {
  }

  /** The step of `FlattenAtPath` for an entry from the later roots. */
  lemma {:induction false} FollowsInLaterRoots(cs: seq<Category>, level: int, k: nat)
    requires |cs| > 0 && 1 + |Paths(cs[0].children)| <= k < |Paths(cs)|
    ensures IsPath(cs, Paths(cs)[k])
    ensures k < |Flatten(cs, level)|
    ensures Flatten(cs, level)[k] == NodeAt(cs, Paths(cs)[k]).(level := level + |Paths(cs)[k]| - 1)
    decreases cs, 0
  {
    var j := k - 1 - |Paths(cs[0].children)|;
    assert j < |Paths(cs[1..])|;
    var q := Paths(cs[1..])[j];
    FlattenLength(cs[0].children, level + 1);
    FlattenLength(cs[1..], level);
    FlattenAtPath(cs[1..], level, j);
    IndexLaterRoots(cs, level, j);
    PathIntoRest(cs, q);
  }

  /** Where entry `j` of the later roots sits in the whole flattening and path list. */
  lemma IndexLaterRoots(cs: seq<Category>, level: int, j: nat)
    requires |cs| > 0
    requires |Flatten(cs[0].children, level + 1)| == |Paths(cs[0].children)|
    requires |Flatten(cs[1..], level)| == |Paths(cs[1..])|
    requires j < |Paths(cs[1..])|
    ensures var k := 1 + |Paths(cs[0].children)| + j;
      k < |Paths(cs)| && k < |Flatten(cs, level)| &&
      Flatten(cs, level)[k] == Flatten(cs[1..], level)[j] && Paths(cs)[k] == Bump(Paths(cs[1..])[j])
  {
    FlattenIndexLater(cs, level, j);
    PathsIndexLater(cs, j);
  }

  lemma FlattenIndexLater(cs: seq<Category>, level: int, j: nat)
    requires |cs| > 0 && j < |Flatten(cs[1..], level)|
    ensures var k := 1 + |Flatten(cs[0].children, level + 1)| + j;
      k < |Flatten(cs, level)| && Flatten(cs, level)[k] == Flatten(cs[1..], level)[j]
  {
    var head := [cs[0].(level := level)] + Flatten(cs[0].children, level + 1);
    assert Flatten(cs, level) == head + Flatten(cs[1..], level);
  }

  lemma PathsIndexLater(cs: seq<Category>, j: nat)
    requires |cs| > 0 && j < |Paths(cs[1..])|
    ensures var k := 1 + |Paths(cs[0].children)| + j;
      k < |Paths(cs)| && Paths(cs)[k] == Bump(Paths(cs[1..])[j])
  {
    var head := [[0]] + Under(0, Paths(cs[0].children));
    assert Paths(cs) == head + Shift(Paths(cs[1..]));
  }

  /**
    Every node of the forest appears in the flattening exactly once: at
    exactly one position, with its depth as `level`, and nothing else appears.
   */
  lemma FlattenListsEveryNodeOnce(cs: seq<Category>, level: int, p: seq<nat>)
    requires IsPath(cs, p)
    ensures exists k ::
      && 0 <= k < |Paths(cs)| == |Flatten(cs, level)|
      && Paths(cs)[k] == p
      && Flatten(cs, level)[k] == NodeAt(cs, p).(level := level + |p| - 1)
    ensures forall j, k :: 0 <= j < |Paths(cs)| && 0 <= k < |Paths(cs)| && Paths(cs)[j] == p && Paths(cs)[k] == p ==> j == k
  {
    PathsComplete(cs, p);
    FlattenFollowsPaths(cs, level);
    PathsSorted(cs);
    PathBeforeIrreflexive(p);
  }

  /** A parent is listed before each of its descendants. */
  lemma ParentBeforeDescendants(cs: seq<Category>, j: nat, k: nat)
    requires j < |Paths(cs)| && k < |Paths(cs)|
    requires |Paths(cs)[j]| < |Paths(cs)[k]| && Paths(cs)[j] == Paths(cs)[k][..|Paths(cs)[j]|]
    ensures j < k
  {
    var ps := Paths(cs);
    PathsSorted(cs);
    PrefixBefore(ps[j], ps[k]);
    if k < j {
      PathBeforeAsymmetric(ps[k], ps[j]);
    } else if k == j {
      PathBeforeIrreflexive(ps[j]);
    }
  }

  /** Membership in the flattening, stated through paths: both directions. */
  lemma FlattenMembership(cs: seq<Category>, level: int, e: Category)
    ensures e in Flatten(cs, level) <==>
      exists p :: IsPath(cs, p) && e == NodeAt(cs, p).(level := level + |p| - 1)
  {
    FlattenFollowsPaths(cs, level);
    var f := Flatten(cs, level);
    if e in f {
      var k :| 0 <= k < |f| && f[k] == e;
      assert IsPath(cs, Paths(cs)[k]);
    }
    if exists p :: IsPath(cs, p) && e == NodeAt(cs, p).(level := level + |p| - 1) {
      var p :| IsPath(cs, p) && e == NodeAt(cs, p).(level := level + |p| - 1);
      FlattenListsEveryNodeOnce(cs, level, p);
    }
  }

  /** Flattening distributes over concatenation of sibling lists. */
  lemma {:induction false} FlattenAppend(a: seq<Category>, b: seq<Category>, level: int)
    ensures Flatten(a + b, level) == Flatten(a, level) + Flatten(b, level)
  {
    if |a| > 0 {
      assert (a + b)[0] == a[0];
      assert (a + b)[1..] == a[1..] + b;
      FlattenAppend(a[1..], b, level);
    } else {
      assert a + b == b;
    }
  }

  /**
    Root `i` sits right after the subtrees of the roots before it and
    immediately before its own flattened subtree, one level deeper.
   */
  lemma FlattenAroundRoot(cs: seq<Category>, level: int, i: nat)
    requires i < |cs|
    ensures Flatten(cs, level) ==
      Flatten(cs[..i], level) + [cs[i].(level := level)] + Flatten(cs[i].children, level + 1) + Flatten(cs[i + 1..], level)
  {
    assert cs == cs[..i] + cs[i..];
    FlattenAppend(cs[..i], cs[i..], level);
    assert cs[i..][0] == cs[i] && cs[i..][1..] == cs[i + 1..];
  }

  /** No listed level is below the starting level; from 0, none is negative. */
  lemma FlattenLevelsFrom(cs: seq<Category>, level: int)
    ensures forall e :: e in Flatten(cs, level) ==> e.level >= level
  {
    FlattenFollowsPaths(cs, level);
    var f := Flatten(cs, level);
    forall e | e in f
      ensures e.level >= level
    {
      var k :| 0 <= k < |f| && f[k] == e;
      assert e.level == level + |Paths(cs)[k]| - 1;
      assert IsPath(cs, Paths(cs)[k]);
    }
  }

  /** The ids a flattening lists do not depend on the starting level. */
  lemma {:induction false} FlattenIdsIgnoreLevel(cs: seq<Category>, l1: int, l2: int)
    ensures IdSet(Flatten(cs, l1)) == IdSet(Flatten(cs, l2))
  {
    FlattenFollowsPaths(cs, l1);
    FlattenFollowsPaths(cs, l2);
    var f1 := Flatten(cs, l1);
    var f2 := Flatten(cs, l2);
    assert forall k :: 0 <= k < |f1| ==> f1[k].id == f2[k].id;
    forall x | x in IdSet(f1) ensures x in IdSet(f2) {
      var k :| 0 <= k < |f1| && f1[k].id == x;
      assert f2[k].id == x;
    }
    forall x | x in IdSet(f2) ensures x in IdSet(f1) {
      var k :| 0 <= k < |f2| && f2[k].id == x;
      assert f1[k].id == x;
    }
  }
}
