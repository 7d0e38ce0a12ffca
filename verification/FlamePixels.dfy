/** The picture as it is drawn: what holds of the bounds of the components, in whole pixels. */
module FlamePixels {
  import opened Words
  import opened Totals
  import opened FlameTrees
  import opened FlameLayouts
  import opened FlameGeometry

  /** No column of pixels belongs to both. */
  ghost predicate Beside(a: Bounds, b: Bounds)
  {
    a.x + a.width <= b.x || b.x + b.width <= a.x
  }

  /** `a` passes the right edge of `b` by at most one pixel, and its left edge never. */
  ghost predicate Within(a: Bounds, b: Bounds)
  {
    b.x <= a.x && a.x + a.width <= b.x + b.width + 1
  }

  /** `b` follows `a` without overlapping it, after a gap of at most one pixel. */
  ghost predicate Follows(b: Bounds, a: Bounds)
  {
    0 <= b.x - (a.x + a.width) <= 1
  }

  /** Two frames of the picture, neither of which is below the other, share no column. */
  ghost predicate ApartAt(nodes: map<Path, FlameNode>, comps: map<FlameNode, Bounds>, p: Path, q: Path)
    requires p in nodes && q in nodes
  {
    nodes[p] in comps && nodes[q] in comps && Beside(comps[nodes[p]], comps[nodes[q]])
  }

  ghost predicate WithinAt(nodes: map<Path, FlameNode>, comps: map<FlameNode, Bounds>, p: Path, q: Path)
    requires p in nodes && q in nodes
  {
    nodes[p] in comps && nodes[q] in comps && Within(comps[nodes[q]], comps[nodes[p]])
  }

  /** The `j`-th child of the node at `q` starts at its left edge, or follows the one before it. */
  ghost predicate Seated(nodes: map<Path, FlameNode>, comps: map<FlameNode, Bounds>, q: Path, ms: seq<Word>, j: nat)
    requires q in nodes && nodes[q] in comps && j < |ms|
    requires forall m :: m in ms ==> q + [m] in nodes && nodes[q + [m]] in comps
  {
    var b := comps[nodes[q + [ms[j]]]];
    if j == 0 then b.x == comps[nodes[q]].x else Follows(b, comps[nodes[q + [ms[j - 1]]]])
  }

  /** The children of the node at `q`, each once, in the order `ms`. */
  ghost predicate InRow(nodes: map<Path, FlameNode>, comps: map<FlameNode, Bounds>, q: Path, ms: seq<Word>)
    requires q in nodes && nodes[q] in comps
  {
    && (forall i, j :: 0 <= i < j < |ms| ==> ms[i] != ms[j])
    && (forall m :: m in ms <==> q + [m] in nodes)
    && (forall m :: m in ms ==> nodes[q + [m]] in comps)
    && (forall j :: 0 <= j < |ms| ==> Seated(nodes, comps, q, ms, j))
  }

  ghost predicate RowAt(nodes: map<Path, FlameNode>, comps: map<FlameNode, Bounds>, q: Path)
    requires q in nodes
  {
    nodes[q] in comps && exists ms :: InRow(nodes, comps, q, ms)
  }

  /** What truncation to pixels leaves of the tiling, for the picture below the current root `r`. */
  ghost predicate Neat(nodes: map<Path, FlameNode>, comps: map<FlameNode, Bounds>, r: Path)
  {
    && (forall p, q :: p in nodes && q in nodes && Begins(p, r) && Begins(q, r) && !Begins(p, q) && !Begins(q, p) ==>
          ApartAt(nodes, comps, p, q))
    && (forall p, q :: p in nodes && q in nodes && Begins(p, r) && Begins(q, p) ==> WithinAt(nodes, comps, p, q))
    && (forall q :: q in nodes && Begins(q, r) ==> RowAt(nodes, comps, q))
  }

  /** The bounds of a frame of the picture are its coordinates in pixels, and all frames measure the same panel. */
  lemma DrawnBounds(nodes: map<Path, FlameNode>, costs: Costs, l: Layout, r: Path, w: nat, q: Path)
    requires TreeCosts(nodes, costs) && Displayed(nodes, costs, l, r, w) && q in nodes && Begins(q, r)
    ensures r in l.coords && l.coords[r] == ComponentCoord(0.0, 1.0, |r|, w) && r in nodes
    ensures BelowPlaced(nodes, costs, l, r)
    ensures nodes[q] in l.comps && q in l.coords && l.comps[nodes[q]] == Pixels(l.coords[q], false)
    ensures l.coords[q].parentWidth == w && l.coords[q].width >= 0.0
  {
    assert Placed(nodes, costs, l, q);
    hide Displayed, TreeCosts, BelowPlaced, Placed;
    WidthIsShare(nodes, costs, l, r, w, q);
    DescendantInside(nodes, costs, l, r, q);
  }

  lemma DrawnApart(nodes: map<Path, FlameNode>, costs: Costs, l: Layout, r: Path, w: nat, p: Path, q: Path)
    requires TreeCosts(nodes, costs) && Displayed(nodes, costs, l, r, w)
    requires p in nodes && q in nodes && Begins(p, r) && Begins(q, r) && !Begins(p, q) && !Begins(q, p)
    ensures ApartAt(nodes, l.comps, p, q)
  {
    hide TreeCosts, Displayed, BelowPlaced;
    DrawnBounds(nodes, costs, l, r, w, p);
    DrawnBounds(nodes, costs, l, r, w, q);
    NoOverlap(nodes, costs, l, r, p, q);
    if l.coords[p].Right() <= l.coords[q].x {
      PixelsApart(l.coords[p], l.coords[q]);
    } else {
      PixelsApart(l.coords[q], l.coords[p]);
    }
  }

  lemma DrawnWithin(nodes: map<Path, FlameNode>, costs: Costs, l: Layout, r: Path, w: nat, p: Path, q: Path)
    requires TreeCosts(nodes, costs) && Displayed(nodes, costs, l, r, w)
    requires p in nodes && q in nodes && Begins(p, r) && Begins(q, p)
    ensures WithinAt(nodes, l.comps, p, q)
  {
    hide TreeCosts, Displayed, BelowPlaced, Begins;
    BelowAll(q, p, r);
    DrawnBounds(nodes, costs, l, r, w, p);
    DrawnBounds(nodes, costs, l, r, w, q);
    BelowBelow(nodes, costs, l, r, p);
    DescendantInside(nodes, costs, l, p, q);
    PixelInside(l.coords[q], l.coords[p]);
  }

  lemma BelowAll(q: Path, p: Path, r: Path)
    requires Begins(q, p) && Begins(p, r)
    ensures Begins(q, r)
  {
    assert q[..|p|][..|r|] == q[..|r|];
  }

  /** Neighbouring siblings never overlap, and are at most one pixel apart. */
  lemma DrawnInRow(nodes: map<Path, FlameNode>, costs: Costs, l: Layout, r: Path, w: nat, q: Path)
    requires TreeCosts(nodes, costs) && Displayed(nodes, costs, l, r, w) && q in nodes && Begins(q, r)
    ensures nodes[q] in l.comps && q in l.order && InRow(nodes, l.comps, q, l.order[q])
  {
    assert costs.Keys == nodes.Keys && Placed(nodes, costs, l, q);
    var ms := l.order[q];
    hide TreeCosts, Displayed, BelowPlaced, InLine, Seated;
    DrawnBounds(nodes, costs, l, r, w, q);
    forall m | m in ms
      ensures q + [m] in nodes && nodes[q + [m]] in l.comps
    {
      DrawnChild(nodes, costs, l, r, w, q, m);
    }
    forall j | 0 <= j < |ms|
      ensures Seated(nodes, l.comps, q, ms, j)
    {
      DrawnSeat(nodes, costs, l, r, w, q, j);
    }
  }

  lemma DrawnSeat(nodes: map<Path, FlameNode>, costs: Costs, l: Layout, r: Path, w: nat, q: Path, j: nat)
    requires TreeCosts(nodes, costs) && Displayed(nodes, costs, l, r, w) && q in nodes && Begins(q, r)
    requires q in l.order && Enumerates(costs, q, l.order[q]) && j < |l.order[q]|
    requires InLine(costs, l.coords, q, l.order[q], j)
    requires nodes[q] in l.comps && forall m :: m in l.order[q] ==> q + [m] in nodes && nodes[q + [m]] in l.comps
    ensures Seated(nodes, l.comps, q, l.order[q], j)
  {
    hide TreeCosts, Displayed, BelowPlaced, InLine, Enumerates;
    var ms := l.order[q];
    DrawnBounds(nodes, costs, l, r, w, q);
    DrawnChild(nodes, costs, l, r, w, q, ms[j]);
    InLineStarts(costs, l.coords, q, ms, j);
    if j > 0 {
      DrawnChild(nodes, costs, l, r, w, q, ms[j - 1]);
      PixelGap(l.coords[q + [ms[j - 1]]], l.coords[q + [ms[j]]]);
    }
  }

  lemma DrawnChild(nodes: map<Path, FlameNode>, costs: Costs, l: Layout, r: Path, w: nat, q: Path, m: Word)
    requires TreeCosts(nodes, costs) && Displayed(nodes, costs, l, r, w) && q in nodes && Begins(q, r)
    requires q in l.order && Enumerates(costs, q, l.order[q]) && m in l.order[q]
    ensures var c := q + [m];
      c in nodes && nodes[c] in l.comps && c in l.coords
      && l.comps[nodes[c]] == Pixels(l.coords[c], false) && l.coords[c].parentWidth == w
  {
    assert costs.Keys == nodes.Keys;
    hide TreeCosts, Displayed, BelowPlaced;
    DrawnBounds(nodes, costs, l, r, w, q + [m]);
  }

  lemma InLineStarts(costs: Costs, coords: map<Path, ComponentCoord>, q: Path, ms: seq<Word>, j: nat)
    requires j < |ms| && InLine(costs, coords, q, ms, j)
    ensures q in coords && q + [ms[j]] in coords
    ensures j == 0 ==> coords[q + [ms[j]]].x == coords[q].x
    ensures j > 0 ==> q + [ms[j - 1]] in coords && coords[q + [ms[j]]].x == coords[q + [ms[j - 1]]].Right()
  {
  }

  /** The lowest frame of the picture hangs a whole row below the height that the panel asks for. */
  lemma BottomRowCut(nodes: map<Path, FlameNode>, costs: Costs, l: Layout, r: Path, w: nat, h: int) returns (q: Path)
    requires TreeCosts(nodes, costs) && Displayed(nodes, costs, l, r, w) && PanelHeight(nodes, r, h)
    ensures q in nodes && Begins(q, r) && nodes[q] in l.comps
    ensures var b := l.comps[nodes[q]];
      b.y == h && b.y + b.height == h + 20
  {
    q :| q in nodes && Begins(q, r) && h == 20 * |q|;
    hide TreeCosts, Displayed, BelowPlaced, PanelHeight;
    DrawnBounds(nodes, costs, l, r, w, q);
    assert l.coords[q].level == |q| by { DrawnLevel(nodes, costs, l, r, w, q); }
  }

  lemma DrawnLevel(nodes: map<Path, FlameNode>, costs: Costs, l: Layout, r: Path, w: nat, q: Path)
    requires TreeCosts(nodes, costs) && Displayed(nodes, costs, l, r, w) && q in nodes && Begins(q, r)
    ensures q in l.coords && l.coords[q].level == |q|
  {
    hide TreeCosts, BelowPlaced;
    WidthIsShare(nodes, costs, l, r, w, q);
  }

  // ---------------------------------------------------------------------------
  // Pixels in both directions

  /** The node at `q` is part of the picture for the current root `r`. */
  ghost predicate InPicture(q: Path, r: Path)
  {
    Begins(q, r) || Begins(r, q)
  }

  /** The component covers the pixel at column `x` and row `y`. */
  ghost predicate Covers(b: Bounds, x: int, y: int)
  {
    b.x <= x < b.x + b.width && b.y <= y < b.y + b.height
  }

  /** The frame of the node stands in the row of its depth, 20 pixels high. */
  ghost predicate RowOf(nodes: map<Path, FlameNode>, comps: map<FlameNode, Bounds>, q: Path)
    requires q in nodes
  {
    nodes[q] in comps && comps[nodes[q]].y == 20 * |q| && comps[nodes[q]].height == 20
  }

  ghost predicate ClearAt(nodes: map<Path, FlameNode>, comps: map<FlameNode, Bounds>, p: Path, q: Path)
    requires p in nodes && q in nodes
  {
    && nodes[p] in comps && nodes[q] in comps
    && forall x, y :: !(Covers(comps[nodes[p]], x, y) && Covers(comps[nodes[q]], x, y))
  }

  /** Every frame of the picture stands in its own row, and no pixel belongs to two of them. */
  ghost predicate Clear(nodes: map<Path, FlameNode>, comps: map<FlameNode, Bounds>, r: Path)
  {
    && (forall q :: q in nodes && InPicture(q, r) ==> RowOf(nodes, comps, q))
    && (forall p, q :: p in nodes && q in nodes && InPicture(p, r) && InPicture(q, r) && p != q ==>
          ClearAt(nodes, comps, p, q))
  }

  lemma DrawnRow(nodes: map<Path, FlameNode>, costs: Costs, l: Layout, r: Path, w: nat, q: Path)
    requires TreeCosts(nodes, costs) && Displayed(nodes, costs, l, r, w) && q in nodes && InPicture(q, r)
    ensures RowOf(nodes, l.comps, q)
  {
    hide TreeCosts, BelowPlaced;
    if Begins(q, r) {
      DrawnBounds(nodes, costs, l, r, w, q);
      DrawnLevel(nodes, costs, l, r, w, q);
    } else {
      assert Shown(nodes, l, q, true);
    }
  }

  lemma DrawnClear(nodes: map<Path, FlameNode>, costs: Costs, l: Layout, r: Path, w: nat, p: Path, q: Path)
    requires TreeCosts(nodes, costs) && Displayed(nodes, costs, l, r, w)
    requires p in nodes && q in nodes && InPicture(p, r) && InPicture(q, r) && p != q
    ensures ClearAt(nodes, l.comps, p, q)
  {
    hide TreeCosts, Displayed;
    DrawnRow(nodes, costs, l, r, w, p);
    DrawnRow(nodes, costs, l, r, w, q);
    if |p| == |q| {
      SameDepth(p, q, r);
      DrawnApart(nodes, costs, l, r, w, p, q);
    }
  }

  /** Two nodes of one depth in a picture are both below its root. */
  lemma SameDepth(p: Path, q: Path, r: Path)
    requires InPicture(p, r) && InPicture(q, r) && p != q && |p| == |q|
    ensures Begins(p, r) && Begins(q, r) && !Begins(p, q) && !Begins(q, p)
  {
    assert p[..|p|] == p && q[..|q|] == q && r[..|r|] == r;
  }

  /** For any tree, any current root and any panel width, the picture is clear. */
  lemma PictureIsClear(nodes: map<Path, FlameNode>, costs: Costs, l: Layout, r: Path, w: nat)
    requires TreeCosts(nodes, costs) && Displayed(nodes, costs, l, r, w)
    ensures Clear(nodes, l.comps, r)
  {
    hide TreeCosts, Displayed, InPicture, RowOf, ClearAt;
    forall q | q in nodes && InPicture(q, r)
      ensures RowOf(nodes, l.comps, q)
    {
      DrawnRow(nodes, costs, l, r, w, q);
    }
    forall p, q | p in nodes && q in nodes && InPicture(p, r) && InPicture(q, r) && p != q
      ensures ClearAt(nodes, l.comps, p, q)
    {
      DrawnClear(nodes, costs, l, r, w, p, q);
    }
  }

  /** For any tree, any current root and any panel width, the picture that is displayed is neat. */
  lemma PictureIsNeat(nodes: map<Path, FlameNode>, costs: Costs, l: Layout, r: Path, w: nat)
    requires TreeCosts(nodes, costs) && Displayed(nodes, costs, l, r, w)
    ensures Neat(nodes, l.comps, r)
  {
    hide TreeCosts, Displayed, ApartAt, WithinAt, InRow;
    forall p, q | p in nodes && q in nodes && Begins(p, r) && Begins(q, r) && !Begins(p, q) && !Begins(q, p)
      ensures ApartAt(nodes, l.comps, p, q)
    {
      DrawnApart(nodes, costs, l, r, w, p, q);
    }
    forall p, q | p in nodes && q in nodes && Begins(p, r) && Begins(q, p)
      ensures WithinAt(nodes, l.comps, p, q)
    {
      DrawnWithin(nodes, costs, l, r, w, p, q);
    }
    forall q | q in nodes && Begins(q, r)
      ensures RowAt(nodes, l.comps, q)
    {
      DrawnInRow(nodes, costs, l, r, w, q);
    }
  }
}
