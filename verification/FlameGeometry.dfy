/** What the layout of the flame graph guarantees, in real fractions of the panel and in pixels. */
module FlameGeometry {
  import opened Words
  import opened Samples
  import opened Totals
  import opened FlameTrees
  import opened FlameTheorems
  import opened FlameLayouts

  /** A tree of sample costs: closed under prefixes, and no node's children cost more than the node. */
  ghost predicate TreeCosts(nodes: map<Path, FlameNode>, costs: Costs)
  {
    && costs.Keys == nodes.Keys && Rooted(nodes) && Weighted(costs)
    && forall p :: p in costs ==> SumOver(Kids(costs, p), CostAt(costs)) <= costs[p]
  }

  /** Where the child that leads to `q` stands in the order of its parent. */
  lemma ParentPlaces(nodes: map<Path, FlameNode>, costs: Costs, l: Layout, r: Path, q: Path) returns (p: Path, j: nat)
    requires TreeCosts(nodes, costs) && BelowPlaced(nodes, costs, l, r) && q in nodes && Begins(q, r) && q != r
    ensures p == q[..|q| - 1] && p in nodes && Begins(p, r) && p in l.order && j < |l.order[p]|
    ensures q == p + [l.order[p][j]]
    ensures InLine(costs, l.coords, p, l.order[p], j)
  {
    p := q[..|q| - 1];
    var m := q[|q| - 1];
    assert p in nodes && costs.Keys == nodes.Keys;
    hide TreeCosts, BelowPlaced, InLine, Begins;
    ParentBelow(q, r);
    PlacedParent(nodes, costs, l, r, p, m);
    j :| 0 <= j < |l.order[p]| && l.order[p][j] == m;
  }

  lemma ParentBelow(q: Path, r: Path)
    requires Begins(q, r) && q != r
    ensures q != [] && Begins(q[..|q| - 1], r) && q == q[..|q| - 1] + [q[|q| - 1]]
  {
    var p := q[..|q| - 1];
    assert |r| < |q| && r == q[..|r|] == p[..|r|];
  }

  lemma PlacedParent(nodes: map<Path, FlameNode>, costs: Costs, l: Layout, r: Path, p: Path, m: Word)
    requires costs.Keys == nodes.Keys && BelowPlaced(nodes, costs, l, r) && p in nodes && Begins(p, r)
    requires p + [m] in nodes
    ensures p in l.order && m in l.order[p]
    ensures forall j :: 0 <= j < |l.order[p]| ==> InLine(costs, l.coords, p, l.order[p], j)
  {
    hide InLine;
    assert Placed(nodes, costs, l, p);
  }

  /**
    Every node below the current root `r` has the share of the width that its cost has of the cost of
    `r`, and sits at its own depth in the tree.
   */
  lemma {:induction false} WidthIsShare(nodes: map<Path, FlameNode>, costs: Costs, l: Layout, r: Path, w: nat, q: Path)
    requires TreeCosts(nodes, costs) && BelowPlaced(nodes, costs, l, r) && r in nodes
    requires r in l.coords && l.coords[r] == ComponentCoord(0.0, 1.0, |r|, w)
    requires q in nodes && Begins(q, r)
    ensures Shares(costs, l.coords, r, w, q)
    decreases |q|
  {
    assert costs.Keys == nodes.Keys;
    RootShares(costs, l.coords, r, w);
    hide TreeCosts, BelowPlaced, InLine, Shares;
    if q != r {
      var p, j := ParentPlaces(nodes, costs, l, r, q);
      WidthIsShare(nodes, costs, l, r, w, p);
      ChildShares(costs, l.coords, r, w, p, l.order[p], j);
    }
  }

  ghost predicate Shares(costs: Costs, coords: map<Path, ComponentCoord>, r: Path, w: nat, q: Path)
  {
    && q in coords && q in costs && r in costs
    && coords[q].level == |q| && coords[q].parentWidth == w
    && coords[q].width * costs[r] as real == costs[q] as real
    && (q == r || costs[r] > 0)
  }

  lemma RootShares(costs: Costs, coords: map<Path, ComponentCoord>, r: Path, w: nat)
    requires r in costs && r in coords && coords[r] == ComponentCoord(0.0, 1.0, |r|, w)
    ensures Shares(costs, coords, r, w, r)
  {
  }

  lemma ChildShares(costs: Costs, coords: map<Path, ComponentCoord>, r: Path, w: nat, p: Path, ms: seq<Word>, j: nat)
    requires j < |ms| && InLine(costs, coords, p, ms, j) && Shares(costs, coords, r, w, p)
    ensures Shares(costs, coords, r, w, p + [ms[j]])
  {
    var q := p + [ms[j]];
    ShareOfShare(coords[p].width, costs[r], costs[p], costs[q], coords[q].width);
  }

  lemma ShareOfShare(width: real, root: nat, parent: nat, child: nat, share: real)
    requires width * root as real == parent as real && parent > 0
    requires share == Share(width, child, parent)
    ensures share * root as real == child as real && root > 0
  {
    calc {
      share * root as real;
      width * root as real * (child as real / parent as real);
      parent as real * (child as real / parent as real);
      child as real;
    }
    assert root != 0;
  }

  // ---------------------------------------------------------------------------
  // Siblings and parents

  /** The cost of the first `n` children in the order they are visited. */
  ghost function FirstCosts(costs: Costs, q: Path, ms: seq<Word>, n: nat): nat
    requires n <= |ms|
  {
    if n == 0 then 0 else FirstCosts(costs, q, ms, n - 1) + CostAt(costs)(q + [ms[n - 1]])
  }

  ghost function FirstKids(q: Path, ms: seq<Word>, n: nat): set<Path>
    requires n <= |ms|
  {
    set i | 0 <= i < n :: q + [ms[i]]
  }

  lemma {:induction false} FirstCostsSum(costs: Costs, q: Path, ms: seq<Word>, n: nat)
    requires n <= |ms| && forall i, j :: 0 <= i < j < |ms| ==> ms[i] != ms[j]
    ensures FirstCosts(costs, q, ms, n) == SumOver(FirstKids(q, ms, n), CostAt(costs))
  {
    hide CostAt;
    if n > 0 {
      FirstCostsSum(costs, q, ms, n - 1);
      OneMoreKid(q, ms, n);
      hide FirstKids, SumOver;
      SumPick(FirstKids(q, ms, n), CostAt(costs), q + [ms[n - 1]]);
    }
  }

  lemma OneMoreKid(q: Path, ms: seq<Word>, n: nat)
    requires 0 < n <= |ms| && forall i, j :: 0 <= i < j < |ms| ==> ms[i] != ms[j]
    ensures q + [ms[n - 1]] in FirstKids(q, ms, n)
    ensures FirstKids(q, ms, n) - {q + [ms[n - 1]]} == FirstKids(q, ms, n - 1)
  {
    forall i | 0 <= i < n - 1
      ensures q + [ms[i]] != q + [ms[n - 1]]
    {
      Extend(q, ms[i], q, ms[n - 1]);
    }
  }

  lemma {:induction false} SumMonotone(a: set<Path>, b: set<Path>, h: Path -> nat)
    requires a <= b
    ensures SumOver(a, h) <= SumOver(b, h)
  {
    if a != {} {
      var p :| p in a;
      SumPick(a, h, p);
      SumPick(b, h, p);
      SumMonotone(a - {p}, b - {p}, h);
    }
  }

  /** The children of `q` together do not cost more than `q`. */
  lemma ChildrenFit(nodes: map<Path, FlameNode>, costs: Costs, q: Path, ms: seq<Word>, n: nat)
    requires TreeCosts(nodes, costs) && q in costs && Enumerates(costs, q, ms) && n <= |ms|
    ensures FirstCosts(costs, q, ms, n) <= costs[q]
  {
    FirstCostsSum(costs, q, ms, n);
    forall i | 0 <= i < n
      ensures q + [ms[i]] in Kids(costs, q)
    {
      assert ms[i] in ms;
      assert Front(q + [ms[i]]) == q;
    }
    SumMonotone(FirstKids(q, ms, n), Kids(costs, q), CostAt(costs));
  }

  /** The `j`-th child of `q` starts after exactly the share of the children before it. */
  lemma {:induction false} ChildStarts(costs: Costs, l: Layout, q: Path, ms: seq<Word>, j: nat)
    requires j < |ms| && forall i :: 0 <= i <= j ==> InLine(costs, l.coords, q, ms, i)
    ensures q in costs && costs[q] > 0 && q in l.coords && q + [ms[j]] in l.coords
    ensures var c := l.coords[q + [ms[j]]];
      && c.x == l.coords[q].x + Share(l.coords[q].width, FirstCosts(costs, q, ms, j), costs[q])
      && c.Right() == l.coords[q].x + Share(l.coords[q].width, FirstCosts(costs, q, ms, j + 1), costs[q])
  {
    assert InLine(costs, l.coords, q, ms, j);
    hide Share;
    if j > 0 {
      ChildStarts(costs, l, q, ms, j - 1);
    }
    var w, t := l.coords[q].width, costs[q];
    var a, b := FirstCosts(costs, q, ms, j), costs[q + [ms[j]]];
    assert FirstCosts(costs, q, ms, j + 1) == a + b;
    SharesAdd(w, a, b, t);
  }

  lemma SharesAdd(w: real, a: nat, b: nat, t: nat)
    requires t > 0
    ensures Share(w, a, t) + Share(w, b, t) == Share(w, a + b, t)
    ensures Share(w, 0, t) == 0.0
  {
    assert (a + b) as real == a as real + b as real;
  }

  lemma Nonnegative(a: real, b: real)
    requires a >= 0.0 && b >= 0.0
    ensures a * b >= 0.0
  {
  }

  lemma ShareBound(w: real, a: nat, t: nat)
    requires w >= 0.0 && t > 0 && a <= t
    ensures 0.0 <= Share(w, a, t) <= w
  {
    var x := a as real / t as real;
    assert 0.0 <= x <= 1.0;
    Nonnegative(w, x);
    Nonnegative(w, 1.0 - x);
    assert w * x + w * (1.0 - x) == w;
  }

  ghost predicate Inside(c: ComponentCoord, d: ComponentCoord)
  {
    d.x <= c.x && c.Right() <= d.Right()
  }

  /** No child of a node of non-negative width has a negative width, or leaves its parent. */
  lemma ChildInside(nodes: map<Path, FlameNode>, costs: Costs, l: Layout, q: Path, j: nat)
    requires TreeCosts(nodes, costs) && q in nodes && Placed(nodes, costs, l, q) && j < |l.order[q]|
    requires q in l.coords && l.coords[q].width >= 0.0
    ensures InLine(costs, l.coords, q, l.order[q], j)
    ensures Inside(l.coords[q + [l.order[q][j]]], l.coords[q]) && l.coords[q + [l.order[q][j]]].width >= 0.0
  {
    var ms := l.order[q];
    PlacedLines(nodes, costs, l, q, j);
    hide *;
    ChildrenFit(nodes, costs, q, ms, j);
    ChildrenFit(nodes, costs, q, ms, j + 1);
    LineInside(costs, l, q, ms, j);
  }

  lemma PlacedLines(nodes: map<Path, FlameNode>, costs: Costs, l: Layout, q: Path, j: nat)
    requires q in nodes && Placed(nodes, costs, l, q) && j < |l.order[q]|
    ensures Enumerates(costs, q, l.order[q]) && q in costs && q + [l.order[q][j]] in l.coords
    ensures forall i :: 0 <= i < |l.order[q]| ==> InLine(costs, l.coords, q, l.order[q], i)
  {
    assert InLine(costs, l.coords, q, l.order[q], j);
  }

  lemma LineInside(costs: Costs, l: Layout, q: Path, ms: seq<Word>, j: nat)
    requires j < |ms| && forall i :: 0 <= i <= j ==> InLine(costs, l.coords, q, ms, i)
    requires q in costs && q in l.coords && l.coords[q].width >= 0.0 && q + [ms[j]] in l.coords
    requires FirstCosts(costs, q, ms, j) <= costs[q] && FirstCosts(costs, q, ms, j + 1) <= costs[q]
    ensures Inside(l.coords[q + [ms[j]]], l.coords[q]) && l.coords[q + [ms[j]]].width >= 0.0
  {
    hide FirstCosts, Share;
    ChildStarts(costs, l, q, ms, j);
    assert InLine(costs, l.coords, q, ms, j);
    var w, t := l.coords[q].width, costs[q];
    ShareNonNegative(w, costs[q + [ms[j]]], t);
    hide InLine;
    ShareBound(w, FirstCosts(costs, q, ms, j), t);
    ShareBound(w, FirstCosts(costs, q, ms, j + 1), t);
  }

  lemma ShareNonNegative(w: real, a: nat, t: nat)
    requires w >= 0.0 && t > 0
    ensures 0.0 <= Share(w, a, t)
  {
    assert 0.0 <= a as real / t as real;
  }

  /** Siblings do not overlap: each one ends no later than any later one begins. */
  lemma {:induction false} SiblingsApart(costs: Costs, l: Layout, q: Path, ms: seq<Word>, i: nat, j: nat)
    requires i < j < |ms| && forall k :: 0 <= k < |ms| ==> InLine(costs, l.coords, q, ms, k)
    requires forall k :: 0 <= k < |ms| ==> q + [ms[k]] in l.coords && l.coords[q + [ms[k]]].width >= 0.0
    ensures l.coords[q + [ms[i]]].Right() <= l.coords[q + [ms[j]]].x
    ensures j == i + 1 ==> l.coords[q + [ms[i]]].Right() == l.coords[q + [ms[j]]].x
    decreases j
  {
    assert InLine(costs, l.coords, q, ms, j);
    if j > i + 1 {
      SiblingsApart(costs, l, q, ms, i, j - 1);
    }
  }

  // ---------------------------------------------------------------------------
  // The whole picture

  /** Everything below `p` stays inside `p`. */
  lemma {:induction false} DescendantInside(nodes: map<Path, FlameNode>, costs: Costs, l: Layout, p: Path, q: Path)
    requires TreeCosts(nodes, costs) && BelowPlaced(nodes, costs, l, p) && p in nodes
    requires p in l.coords && l.coords[p].width >= 0.0
    requires q in nodes && Begins(q, p)
    ensures q in l.coords && l.coords[q].width >= 0.0 && Inside(l.coords[q], l.coords[p])
    decreases |q|
  {
    if q != p {
      var r, j := ParentPlaces(nodes, costs, l, p, q);
      assert Placed(nodes, costs, l, r);
      hide TreeCosts, BelowPlaced, Placed;
      DescendantInside(nodes, costs, l, p, r);
      ChildInside(nodes, costs, l, r, j);
    }
  }

  /** The whole subtree of a descendant is laid out with the rest. */
  lemma BelowBelow(nodes: map<Path, FlameNode>, costs: Costs, l: Layout, r: Path, p: Path)
    requires BelowPlaced(nodes, costs, l, r) && Begins(p, r)
    ensures BelowPlaced(nodes, costs, l, p)
  {
    forall q | q in nodes && Begins(q, p)
      ensures Begins(q, r)
    {
    }
  }

  ghost predicate Disjoint(c: ComponentCoord, d: ComponentCoord)
  {
    c.Right() <= d.x || d.Right() <= c.x
  }

  /** Two nodes neither of which is below the other never overlap, in particular no two of one level. */
  lemma NoOverlap(nodes: map<Path, FlameNode>, costs: Costs, l: Layout, r: Path, p: Path, q: Path)
    requires TreeCosts(nodes, costs) && BelowPlaced(nodes, costs, l, r) && r in nodes
    requires r in l.coords && l.coords[r].width >= 0.0
    requires p in nodes && q in nodes && Begins(p, r) && Begins(q, r) && !Begins(p, q) && !Begins(q, p)
    ensures p in l.coords && q in l.coords && Disjoint(l.coords[p], l.coords[q])
  {
    assert Rooted(nodes) && p[..|r|] == r == q[..|r|];
    hide TreeCosts, BelowPlaced;
    var k := Fork(p, q, |r|);
    var s := p[..k];
    ForkNodes(nodes, p, q, k);
    assert Begins(s, r) by { assert s[..|r|] == r; }
    BelowBelow(nodes, costs, l, r, s);
    DescendantInside(nodes, costs, l, r, s);
    NoOverlapFrom(nodes, costs, l, s, p[k], q[k], p, q);
  }

  lemma ForkNodes(nodes: map<Path, FlameNode>, p: Path, q: Path, k: nat)
    requires Rooted(nodes) && p in nodes && q in nodes && k < |p| && k < |q| && p[..k] == q[..k]
    ensures p[..k] in nodes && p[..k] + [p[k]] in nodes && p[..k] + [q[k]] in nodes
    ensures Begins(p, p[..k] + [p[k]]) && Begins(q, p[..k] + [q[k]])
  {
    PrefixNode(nodes, p, k);
    PrefixNode(nodes, p, k + 1);
    PrefixNode(nodes, q, k + 1);
    assert p[..k + 1] == p[..k] + [p[k]] && q[..k + 1] == p[..k] + [q[k]];
  }

  lemma NoOverlapFrom(nodes: map<Path, FlameNode>, costs: Costs, l: Layout, s: Path, m: Word, n: Word, p: Path, q: Path)
    requires TreeCosts(nodes, costs) && BelowPlaced(nodes, costs, l, s) && s in nodes
    requires s in l.coords && l.coords[s].width >= 0.0
    requires s + [m] in nodes && s + [n] in nodes && m != n
    requires p in nodes && q in nodes && Begins(p, s + [m]) && Begins(q, s + [n])
    ensures p in l.coords && q in l.coords && Disjoint(l.coords[p], l.coords[q])
  {
    NotBelowChild(s, m);
    NotBelowChild(s, n);
    hide TreeCosts, BelowPlaced, Begins;
    ForkApart(nodes, costs, l, s, m, n);
    BelowBelow(nodes, costs, l, s, s + [m]);
    BelowBelow(nodes, costs, l, s, s + [n]);
    DescendantInside(nodes, costs, l, s + [m], p);
    DescendantInside(nodes, costs, l, s + [n], q);
  }

  /** The first place where two paths part; both go through `n` alike. */
  lemma Fork(p: Path, q: Path, n: nat) returns (k: nat)
    requires n <= |p| && n <= |q| && p[..n] == q[..n] && !Begins(p, q) && !Begins(q, p)
    ensures n <= k < |p| && k < |q| && p[..k] == q[..k] && p[k] != q[k]
  {
    k := n;
    while k < |p| && k < |q| && p[k] == q[k]
      invariant n <= k <= |p| && k <= |q| && p[..k] == q[..k]
    {
      k := k + 1;
    }
  }

  lemma {:induction false} PrefixNode(nodes: map<Path, FlameNode>, p: Path, k: nat)
    requires Rooted(nodes) && p in nodes && k <= |p|
    ensures p[..k] in nodes
    decreases |p| - k
  {
    if k < |p| {
      PrefixNode(nodes, p, k + 1);
      assert p[..k + 1][..k] == p[..k];
    } else {
      assert p[..k] == p;
    }
  }

  /** Two children of one node do not overlap. */
  lemma ForkApart(nodes: map<Path, FlameNode>, costs: Costs, l: Layout, s: Path, m: Word, n: Word)
    requires TreeCosts(nodes, costs) && BelowPlaced(nodes, costs, l, s) && s in nodes
    requires s in l.coords && l.coords[s].width >= 0.0
    requires s + [m] in nodes && s + [n] in nodes && m != n
    ensures s + [m] in l.coords && s + [n] in l.coords && Disjoint(l.coords[s + [m]], l.coords[s + [n]])
    ensures l.coords[s + [m]].width >= 0.0 && l.coords[s + [n]].width >= 0.0
  {
    assert Begins(s, s) && Placed(nodes, costs, l, s);
    var ms := l.order[s];
    assert m in ms && n in ms && costs.Keys == nodes.Keys;
    hide TreeCosts, BelowPlaced, Placed;
    forall k | 0 <= k < |ms|
      ensures InLine(costs, l.coords, s, ms, k) && s + [ms[k]] in l.coords && l.coords[s + [ms[k]]].width >= 0.0
    {
      ChildInside(nodes, costs, l, s, k);
    }
    var i :| 0 <= i < |ms| && ms[i] == m;
    var j :| 0 <= j < |ms| && ms[j] == n;
    if i < j {
      SiblingsApart(costs, l, s, ms, i, j);
    } else {
      SiblingsApart(costs, l, s, ms, j, i);
    }
  }

  // ---------------------------------------------------------------------------
  // Pixels

  /** The pixel column of a fraction of the panel. */
  ghost function Column(x: real, w: nat): int
  {
    (x * w as real).Floor
  }

  lemma ColumnMonotone(x: real, y: real, w: nat)
    requires x <= y
    ensures Column(x, w) <= Column(y, w)
  {
    assert x * w as real <= y * w as real;
  }

  /** Truncating a sum loses at most one against the sum of the truncated parts. */
  lemma ColumnSum(x: real, y: real, w: nat)
    ensures Column(x, w) + Column(y, w) <= Column(x + y, w) <= Column(x, w) + Column(y, w) + 1
  {
    assert x * w as real + y * w as real == (x + y) * w as real;
    FloorSum(x * w as real, y * w as real);
  }

  lemma FloorSum(a: real, b: real)
    ensures a.Floor + b.Floor <= (a + b).Floor <= a.Floor + b.Floor + 1
  {
  }

  /** Truncating to pixels never makes two components overlap that do not overlap in real fractions. */
  lemma PixelsApart(c: ComponentCoord, d: ComponentCoord)
    requires c.parentWidth == d.parentWidth && c.Right() <= d.x
    ensures c.GetX() + c.GetWidth() <= d.GetX()
  {
    PixelColumns(c);
    PixelColumns(d);
    hide Column;
    ColumnMonotone(c.Right(), d.x, c.parentWidth);
  }

  /** Between neighbouring siblings the truncation leaves no gap, or a gap of one pixel. */
  lemma PixelGap(c: ComponentCoord, d: ComponentCoord)
    requires c.parentWidth == d.parentWidth && c.Right() == d.x
    ensures 0 <= d.GetX() - (c.GetX() + c.GetWidth()) <= 1
  {
    PixelColumns(c);
    PixelColumns(d);
  }

  /** The right edge in pixels is at most one pixel left of the truncated real edge. */
  lemma PixelColumns(c: ComponentCoord)
    ensures c.GetX() == Column(c.x, c.parentWidth)
    ensures c.GetX() + c.GetWidth() <= Column(c.Right(), c.parentWidth) <= c.GetX() + c.GetWidth() + 1
  {
    ColumnSum(c.x, c.width, c.parentWidth);
  }

  /** A component drawn inside another passes its right edge by at most one pixel, and its left edge never. */
  lemma PixelInside(c: ComponentCoord, d: ComponentCoord)
    requires c.parentWidth == d.parentWidth && Inside(c, d)
    ensures d.GetX() <= c.GetX() && c.GetX() + c.GetWidth() <= d.GetX() + d.GetWidth() + 1
  {
    PixelColumns(c);
    PixelColumns(d);
    hide Column;
    ColumnMonotone(d.x, c.x, c.parentWidth);
    ColumnMonotone(c.Right(), d.Right(), c.parentWidth);
  }
}
