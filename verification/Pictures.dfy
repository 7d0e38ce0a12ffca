/** The last link of the chain: the rectangles drawn for a session, against its ticks. */
module Pictures {
  import opened Words
  import opened Samples
  import opened Sessions
  import opened Reports
  import opened Totals
  import opened FlameTrees
  import opened FlameTheorems
  import opened FlameLayouts
  import opened FlameGeometry
  import opened FlamePixels
  import opened Truthful
  import opened Pipeline

  // ---------------------------------------------------------------------------
  // Every tree that samples build can be laid out

  /** The costs of the nodes that can be seen. */
  ghost function Seen(costs: Costs): Costs
  {
    map p | p in costs && (p == [] || costs[p] > 0) :: costs[p]
  }

  /** A node costs at least what a child of it costs. */
  lemma ChildFits(samples: seq<SampleInfo>, k: Path)
    requires k in Tally(samples) && k != []
    ensures Front(k) in Tally(samples) && Tally(samples)[k] <= Tally(samples)[Front(k)]
  {
    var c, p := Tally(samples), Front(k);
    hide Tally, Total, SumOver, Exactly, PathOf;
    TallyWeighs(samples);
    var i :| 0 <= i < |samples| && Begins(PathOf(samples[i].frames), k);
    assert Begins(PathOf(samples[i].frames), p) by { assert k[..|p|] == p; }
    SelfCost(samples, p);
    assert k in Kids(c, p);
    SumPick(Kids(c, p), CostAt(c), k);
  }

  /** The visible part of any tree of samples meets what the geometry needs. */
  lemma TallyFits(samples: seq<SampleInfo>, nodes: map<Path, FlameNode>)
    requires nodes.Keys == Seen(Tally(samples)).Keys
    ensures TreeCosts(nodes, Seen(Tally(samples)))
  {
    hide Tally, SumOver;
    var c, v := Tally(samples), Seen(Tally(samples));
    forall q | q in nodes && q != []
      ensures q[..|q| - 1] in nodes && v[Front(q)] > 0
    {
      assert q in v;
      ChildFits(samples, q);
      assert Front(q) in v;
    }
    forall p: Path, m: Word | p in v && p + [m] in v
      ensures v[p] > 0 && v[p + [m]] > 0
    {
      assert p + [m] in nodes && Front(p + [m]) == p;
    }
    assert Rooted(nodes) && Weighted(v);
    forall p | p in v
      ensures SumOver(Kids(v, p), CostAt(v)) <= v[p]
    {
      SelfCost(samples, p);
      SumSame(Kids(v, p), CostAt(v), CostAt(c));
      SumMonotone(Kids(v, p), Kids(c, p), CostAt(c));
    }
  }

  /** Any tree built of samples can be drawn, unless it has nodes but no cost at all. */
  lemma BuiltDraws(tree: FlameTree, samples: seq<SampleInfo>)
    requires tree.Valid() && tree.CostMap() == Tally(samples)
    requires tree.root.cost > 0 || tree.nodes.Keys == {[]}
    ensures Draws(tree, Visible(tree), CostsOf(Visible(tree))) && TreeCosts(Visible(tree), CostsOf(Visible(tree)))
  {
    hide AllLinked, Tally;
    var nodes := Visible(tree);
    assert forall p :: p in tree.nodes <==> p in tree.CostMap();
    assert CostsOf(nodes) == Seen(Tally(samples));
    TallyFits(samples, nodes);
  }

  /** The node at a path, found by walking down the children maps. */
  method FindNode(tree: FlameTree, path: Path) returns (node: FlameNode)
    requires tree.Valid() && path in tree.nodes
    ensures node == tree.nodes[path]
  {
    hide AllLinked;
    ChildrenAre(tree.nodes, tree.LinkMap(), path);
    PrefixNode(tree.nodes, path, 0);
    node := tree.root;
    for i := 0 to |path|
      invariant path[..i] in tree.nodes && node == tree.nodes[path[..i]]
    {
      PrefixNode(tree.nodes, path, i + 1);
      assert path[..i + 1] == path[..i] + [path[i]];
      LinkedAt(tree.nodes, tree.LinkMap(), path[..i], path[i]);
      node := node.children[path[i]];
    }
    assert path[..|path|] == path;
  }

  /**
    Opens a panel on any tree of samples, paints it at `width` pixels, and clicks on a node that can be
    seen, after which it is painted once more.
   */
  method ShowTree(tree: FlameTree, samples: seq<SampleInfo>, node: FlameNode, width: nat)
    returns (panel: FlameComponent, ghost nodes: map<Path, FlameNode>, ghost costs: Costs)
    requires tree.Valid() && tree.CostMap() == Tally(samples)
    requires tree.root.cost > 0 || tree.nodes.Keys == {[]}
    requires node.path in Visible(tree) && Visible(tree)[node.path] == node
    ensures nodes == Visible(tree) && costs == CostsOf(nodes) && TreeCosts(nodes, costs)
    ensures Displayed(nodes, costs, panel.View(), node.path, width)
    ensures NothingElse(nodes, panel.nodeToComp, node.path)
    ensures Neat(nodes, panel.nodeToComp, node.path) && Clear(nodes, panel.nodeToComp, node.path)
    ensures PanelHeight(nodes, node.path, panel.maxHeight)
  {
    hide Draws, TreeCosts, CostsOf, Visible, AllLinked, Tally, Displayed, NothingElse, Neat, Clear, PanelHeight;
    nodes, costs := Visible(tree), CostsOf(Visible(tree));
    BuiltDraws(tree, samples);
    panel := Click(tree, node, width, nodes, costs);
    PictureIsNeat(nodes, costs, panel.View(), node.path, width);
    PictureIsClear(nodes, costs, panel.View(), node.path, width);
  }

  /** The life of a panel: opened, painted, clicked on at `node` and painted again. */
  method Click(tree: FlameTree, node: FlameNode, width: nat, ghost nodes: map<Path, FlameNode>, ghost costs: Costs)
    returns (panel: FlameComponent)
    requires Draws(tree, nodes, costs) && node.path in nodes && nodes[node.path] == node
    ensures Displayed(nodes, costs, panel.View(), node.path, width)
    ensures NothingElse(nodes, panel.nodeToComp, node.path) && PanelHeight(nodes, node.path, panel.maxHeight)
  {
    hide *;
    panel := new FlameComponent(tree, nodes, costs);
    RootDrawn(tree, nodes, costs);
    panel.Paint(width, nodes, costs);
    NothingKnown(nodes, panel.nodeToComp, panel.currentRoot.path);
    panel.ResetNode(node, nodes, costs);
    panel.Paint(width, nodes, costs);
  }

  lemma NothingKnown(nodes: map<Path, FlameNode>, comps: map<FlameNode, Bounds>, r: Path)
    requires NothingElse(nodes, comps, r)
    ensures Known(nodes, comps)
  {
  }

  // ---------------------------------------------------------------------------
  // The picture of a session

  /** In the tree of a report every node can be seen, and only an empty report costs nothing. */
  lemma AllSeen(tree: FlameTree, samples: seq<SampleInfo>)
    requires tree.Valid() && tree.CostMap() == Tally(samples)
    requires forall s :: s in samples ==> s.callCount > 0
    ensures Visible(tree) == tree.nodes && CostsOf(tree.nodes) == Tally(samples)
    ensures tree.root.cost > 0 || tree.nodes.Keys == {[]}
  {
    var c := Tally(samples);
    assert forall p :: p in tree.nodes <==> p in c;
    assert tree.root == tree.nodes[[]] && c[[]] == tree.root.cost;
    hide AllLinked, Tally, Total;
    forall p | p in c && p != []
      ensures c[p] > 0 && c[[]] > 0
    {
      PositiveNode(samples, p);
    }
  }

  lemma PositiveNode(samples: seq<SampleInfo>, p: Path)
    requires forall s :: s in samples ==> s.callCount > 0
    requires p in Tally(samples) && p != []
    ensures Tally(samples)[p] > 0 && [] in Tally(samples) && Tally(samples)[[]] > 0
  {
    hide Tally, Total, PathOf;
    TallyWeighs(samples);
    CoveredWeighs(samples, p);
    var i :| 0 <= i < |samples| && Begins(PathOf(samples[i].frames), p);
    var k := [p[0]];
    assert Begins(PathOf(samples[i].frames), k) by { assert p[..1] == k; }
    CoveredWeighs(samples, k);
    ChildFits(samples, k);
    assert Front(k) == [];
  }

  /** The part of `w` pixels that `a` of `t` ticks get, cut off to whole pixels. */
  function Ratio(w: nat, a: nat, t: nat): nat
  {
    if t == 0 then w else w * a / t
  }

  /** Cutting off a share of the panel to pixels is integer division. */
  lemma ShareInPixels(x: real, w: nat, a: nat, t: nat)
    requires t > 0 && x * t as real == a as real
    ensures (x * w as real).Floor == w * a / t
  {
    var n := w * a;
    var k := n / t;
    var y := x * w as real;
    Quotient(n, t);
    Swap(x, w as real, t as real);
    Embed(w, a);
    assert y * t as real == n as real;
    Embed(k, t);
    Embed(k + 1, t);
    assert (k + 1) * t == k * t + t;
    AtMost(k as real, y, t as real);
    AtMost(y, (k + 1) as real, t as real);
    assert k as real <= y < (k + 1) as real;
  }

  lemma Swap(x: real, w: real, t: real)
    ensures x * w * t == x * t * w
    ensures x * t * w == w * (x * t)
  {
  }

  lemma Quotient(n: nat, t: nat)
    requires t > 0
    ensures n / t * t <= n < n / t * t + t
  {
    assert n == n / t * t + n % t;
  }

  lemma Embed(k: nat, t: nat)
    ensures k as real * t as real == (k * t) as real
  {
  }

  lemma AtMost(a: real, b: real, t: real)
    requires t > 0.0
    ensures a * t <= b * t ==> a <= b
    ensures a * t < b * t ==> a < b
  {
    assert (b - a) * t == b * t - a * t;
    assert b - a < 0.0 ==> (b - a) * t < 0.0;
  }

  /** The frame at `q` is drawn at its own depth, and as wide as its ticks are among those of `r`. */
  ghost predicate Drawn(nodes: map<Path, FlameNode>, comps: map<FlameNode, Bounds>, ticks: seq<Tick>, r: Path,
                        w: nat, q: Path)
    requires AllLegal(ticks)
  {
    && q in nodes && nodes[q] in comps
    && var b := comps[nodes[q]];
       b.y == 20 * |q| && b.height == 20 && !b.collapsed
       && b.width == Ratio(w, TicksUnder(ticks, q), TicksUnder(ticks, r))
  }

  /** The current root and its ancestors are full bars, and what is neither above nor below it cannot be seen. */
  ghost predicate Framed(nodes: map<Path, FlameNode>, comps: map<FlameNode, Bounds>, r: Path, w: nat)
  {
    && NothingElse(nodes, comps, r)
    && r in nodes && nodes[r] in comps && comps[nodes[r]] == Bounds(0, 20 * |r|, w, 20, false)
    && forall q :: Begins(r, q) && q != r ==>
         q in nodes && nodes[q] in comps && comps[nodes[q]] == Bounds(0, 20 * |q|, w, 20, true)
  }

  lemma BarsAbove(nodes: map<Path, FlameNode>, costs: Costs, l: Layout, r: Path, w: nat)
    requires Displayed(nodes, costs, l, r, w) && NothingElse(nodes, l.comps, r) && Rooted(nodes)
    ensures Framed(nodes, l.comps, r, w)
  {
    RootBar(nodes, costs, l, r, w);
    hide NothingElse, Displayed;
    forall q | Begins(r, q) && q != r
      ensures q in nodes && nodes[q] in l.comps
      ensures l.comps[nodes[q]] == Bounds(0, 20 * |q|, w, 20, true)
    {
      BarAbove(nodes, costs, l, r, w, q);
    }
  }

  lemma RootBar(nodes: map<Path, FlameNode>, costs: Costs, l: Layout, r: Path, w: nat)
    requires Displayed(nodes, costs, l, r, w)
    ensures r in nodes && nodes[r] in l.comps
    ensures l.comps[nodes[r]] == Bounds(0, 20 * |r|, w, 20, false)
  {
    hide Pixels, Tiled;
    assert Placed(nodes, costs, l, r);
    FullWidth(|r|, w, false);
  }

  lemma BarAbove(nodes: map<Path, FlameNode>, costs: Costs, l: Layout, r: Path, w: nat, q: Path)
    requires Displayed(nodes, costs, l, r, w) && Rooted(nodes) && Begins(r, q) && q != r
    ensures q in nodes && nodes[q] in l.comps
    ensures l.comps[nodes[q]] == Bounds(0, 20 * |q|, w, 20, true)
  {
    hide BelowPlaced, Pixels, Rooted;
    PrefixNode(nodes, r, |q|);
    assert q == r[..|q|];
    assert Shown(nodes, l, q, true);
    FullWidth(|q|, w, true);
  }

  /** The whole panel, at some depth. */
  lemma FullWidth(depth: nat, w: nat, collapsed: bool)
    ensures Pixels(ComponentCoord(0.0, 1.0, depth, w), collapsed) ==
      Bounds(0, 20 * depth, w, 20, collapsed)
  {
  }

  /** A component that has the share `a / t` of the panel, in pixels. */
  lemma SharePixels(c: ComponentCoord, a: nat, t: nat)
    requires c.width * t as real == a as real && (t == 0 ==> c.width == 1.0)
    ensures var b := Pixels(c, false);
      b.y == 20 * c.level && b.height == 20 && !b.collapsed && b.width == Ratio(c.parentWidth, a, t)
  {
    if t > 0 {
      ShareInPixels(c.width, c.parentWidth, a, t);
    }
  }

  /**
    In the picture of a session, with any node `r` as the current root, the rectangle of the node at
    path `q` below it is as wide as the ticks under `q` are among the ticks under `r`.
   */
  lemma RectangleIsTickShare(states: seq<Session>, events: seq<Event>, info: ProfilingInfo,
                             nodes: map<Path, FlameNode>, l: Layout, r: Path, w: nat, q: Path)
    requires SessionReport(states, events, info) && Faithful(SinceStart(events))
    requires TreeCosts(nodes, Tally(info.samples))
    requires Displayed(nodes, Tally(info.samples), l, r, w) && q in nodes && Begins(q, r)
    ensures Drawn(nodes, l.comps, SinceStart(events), r, w, q)
  {
    var c, ticks := Tally(info.samples), SinceStart(events);
    hide Tally, SessionReport, Faithful, TicksUnder, TreeCosts, BelowPlaced, Displayed, Shares, SinceStart;
    hide Pixels, Ratio;
    DrawnBounds(nodes, c, l, r, w, q);
    WidthIsShare(nodes, c, l, r, w, q);
    SharesMean(c, l.coords, r, w, q);
    NodeCostIsTickCount(states, events, info, r);
    NodeCostIsTickCount(states, events, info, q);
    SharePixels(l.coords[q], c[q], c[r]);
  }

  lemma SharesMean(costs: Costs, coords: map<Path, ComponentCoord>, r: Path, w: nat, q: Path)
    requires Shares(costs, coords, r, w, q)
    ensures q in coords && q in costs && r in costs && coords[q].level == |q|
    ensures coords[q].width * costs[r] as real == costs[q] as real
    ensures costs[r] == 0 ==> q == r
  {
  }

  ghost predicate Pictured(nodes: map<Path, FlameNode>, comps: map<FlameNode, Bounds>, ticks: seq<Tick>, r: Path,
                           w: nat)
    requires AllLegal(ticks)
  {
    forall q :: Begins(q, r) && (q == [] || TicksUnder(ticks, q) > 0) ==> Drawn(nodes, comps, ticks, r, w, q)
  }

  lemma AllRectangles(states: seq<Session>, events: seq<Event>, info: ProfilingInfo,
                      nodes: map<Path, FlameNode>, l: Layout, r: Path, w: nat, ticks: seq<Tick>)
    requires SessionReport(states, events, info) && SinceStart(events) == ticks && Faithful(ticks)
    requires TreeCosts(nodes, Tally(info.samples))
    requires forall p :: p in nodes <==> p == [] || TicksUnder(ticks, p) > 0
    requires Displayed(nodes, Tally(info.samples), l, r, w)
    ensures Pictured(nodes, l.comps, ticks, r, w)
  {
    assert AllLegal(ticks);
    hide Tally, SessionReport, Faithful, TicksUnder, Displayed, Begins, AllLegal, Drawn, SinceStart, TreeCosts;
    forall q | Begins(q, r) && (q == [] || TicksUnder(ticks, q) > 0)
      ensures Drawn(nodes, l.comps, ticks, r, w, q)
    {
      RectangleIsTickShare(states, events, info, nodes, l, r, w, q);
    }
  }

  /**
    Profiles one session, builds the tree, opens the panel at `width` pixels and clicks on the node at
    `path`.  On the panel then stand, for each path below it that some tick took, a rectangle as wide as
    its share of the ticks; a full bar for each frame above it; and nothing else of any size.
   */
  method ShowSession(ticks: seq<Tick>, path: Path, width: nat) returns (r: Result, panel: seq<FlameComponent>)
    requires Faithful(ticks) && (path == [] || TicksUnder(ticks, path) > 0)
    ensures r.IllegalArgument? <==> exists i :: 0 <= i < |ticks| && !Named(ticks[i])
    ensures r.Built? ==> |panel| == 1 && Shows(r.tree.nodes, panel[0].nodeToComp, ticks, path, width)
  {
    assert AllLegal(ticks);
    hide *;
    ghost var states;
    var info;
    panel := [];
    info, r, states := ProfileSession(ticks);
    if r.Built? {
      ghost var events := Begun(ticks) + [Asked(STOP_PROFILING)];
      BegunTicks(ticks);
      var component := ShowReport(r.tree, info, ticks, path, width, states, events);
      panel := [component];
    }
  }

  ghost predicate Shows(nodes: map<Path, FlameNode>, comps: map<FlameNode, Bounds>, ticks: seq<Tick>, r: Path, w: nat)
    requires AllLegal(ticks)
  {
    && Pictured(nodes, comps, ticks, r, w) && Framed(nodes, comps, r, w)
    && Neat(nodes, comps, r) && Clear(nodes, comps, r)
  }

  /** The plugin's half: the panel on the tree of a report. */
  method ShowReport(tree: FlameTree, info: ProfilingInfo, ghost ticks: seq<Tick>, path: Path, width: nat,
                    ghost states: seq<Session>, ghost events: seq<Event>) returns (panel: FlameComponent)
    requires tree.Valid() && tree.CostMap() == Tally(info.samples) && path in tree.nodes
    requires SessionReport(states, events, info) && SinceStart(events) == ticks && Faithful(ticks)
    requires forall p :: p in tree.nodes <==> p == [] || TicksUnder(ticks, p) > 0
    ensures Shows(tree.nodes, panel.nodeToComp, ticks, path, width)
  {
    hide Faithful, TicksUnder, AllLegal, Pictured, Framed, Neat, Clear, SessionReport, Visible, CostsOf, AllLinked;
    hide Tally, Displayed, TreeCosts, NothingElse, PanelHeight, SinceStart, Named;
    ReportedCountsPositive(states, events, info);
    AllSeen(tree, info.samples);
    var node := FindNode(tree, path);
    OwnPaths(tree.nodes, tree.LinkMap());
    ghost var nodes, costs;
    panel, nodes, costs := ShowTree(tree, info.samples, node, width);
    RootedCosts(nodes, costs);
    BarsAbove(nodes, costs, panel.View(), path, width);
    AllRectangles(states, events, info, nodes, panel.View(), path, width, ticks);
  }

  lemma RootedCosts(nodes: map<Path, FlameNode>, costs: Costs)
    requires TreeCosts(nodes, costs)
    ensures Rooted(nodes)
  {
  }
}
