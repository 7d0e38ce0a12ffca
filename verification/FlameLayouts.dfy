/**
  The geometry of the flame graph: which rectangle each node of the tree gets, for the node that is
  currently expanded to full width.  Fractions of the panel width are real numbers here.
 */
module FlameLayouts {
  import opened Words
  import opened Samples
  import opened Totals
  import opened FlameTrees

  const FRAME_HEIGHT: int := 20

  datatype ComponentCoord = ComponentCoord(x: real, width: real, level: int, parentWidth: nat) {
    // `Double.toInt` truncates; the factors are never negative here
    function GetX(): int { (x * parentWidth as real).Floor }
    function GetWidth(): int { (width * parentWidth as real).Floor }
    function GetY(): int { level * FRAME_HEIGHT }
    function GetHeight(): int { FRAME_HEIGHT }
    ghost function Right(): real { x + width }
  }

  /** Location, size and look of one component on the panel. */
  datatype Bounds = Bounds(x: int, y: int, width: int, height: int, collapsed: bool)

  /** Of no size, in the corner of the panel. */
  predicate Vanished(b: Bounds)
  {
    b.x == 0 && b.y == 0 && b.width == 0 && b.height == 0
  }

  /** The components on the panel, and for the reasoning the exact coordinates and the order of the children. */
  datatype Layout = Layout(
    comps: map<FlameNode, Bounds>, coords: map<Path, ComponentCoord>, order: map<Path, seq<Word>>)

  function Pixels(c: ComponentCoord, collapsed: bool): Bounds
  {
    Bounds(c.GetX(), c.GetY(), c.GetWidth(), c.GetHeight(), collapsed)
  }

  ghost predicate Shown(nodes: map<Path, FlameNode>, l: Layout, q: Path, collapsed: bool)
    requires q in nodes
  {
    nodes[q] in l.comps && q in l.coords && l.comps[nodes[q]] == Pixels(l.coords[q], collapsed)
  }

  /** The children of `q` were visited in the order `ms`, each one once. */
  ghost predicate Enumerates(costs: Costs, q: Path, ms: seq<Word>)
  {
    && (forall i, j :: 0 <= i < j < |ms| ==> ms[i] != ms[j])
    && (forall m :: m in ms <==> q + [m] in costs)
  }

  /** The part of `width` that goes to a child, by cost. */
  function Share(width: real, cost: nat, total: nat): real
    requires total > 0
  {
    width * (cost as real / total as real)
  }

  /** The `j`-th child of `q` begins where the one before it ends, one level down, with its share of the width. */
  ghost predicate InLine(costs: Costs, coords: map<Path, ComponentCoord>, q: Path, ms: seq<Word>, j: nat)
    requires j < |ms|
  {
    var c := q + [ms[j]];
    && q in costs && c in costs && q in coords && c in coords && costs[q] > 0
    && coords[c].level == coords[q].level + 1
    && coords[c].parentWidth == coords[q].parentWidth
    && coords[c].width == Share(coords[q].width, costs[c], costs[q])
    && (j == 0 ==> coords[c].x == coords[q].x)
    && (j > 0 ==> q + [ms[j - 1]] in coords && coords[c].x == coords[q + [ms[j - 1]]].Right())
  }

  ghost predicate Tiled(costs: Costs, l: Layout, q: Path)
  {
    && q in l.order && Enumerates(costs, q, l.order[q])
    && forall j :: 0 <= j < |l.order[q]| ==> InLine(costs, l.coords, q, l.order[q], j)
  }

  ghost predicate Placed(nodes: map<Path, FlameNode>, costs: Costs, l: Layout, q: Path)
    requires q in nodes
  {
    Shown(nodes, l, q, false) && Tiled(costs, l, q)
  }

  /** Nothing that concerns the node at `q` differs between the two layouts. */
  ghost predicate Same(nodes: map<Path, FlameNode>, l0: Layout, l1: Layout, q: Path)
    requires q in nodes
  {
    && (nodes[q] in l0.comps <==> nodes[q] in l1.comps)
    && (nodes[q] in l0.comps ==> l0.comps[nodes[q]] == l1.comps[nodes[q]])
    && (q in l0.coords <==> q in l1.coords) && (q in l0.coords ==> l0.coords[q] == l1.coords[q])
    && (q in l0.order <==> q in l1.order) && (q in l0.order ==> l0.order[q] == l1.order[q])
  }

  /** A node has children to show only if both they and it weigh something. */
  ghost predicate Weighted(costs: Costs)
  {
    forall p: Path, m: Word :: p in costs && p + [m] in costs ==> costs[p] > 0 && costs[p + [m]] > 0
  }

  ghost predicate BelowPlaced(nodes: map<Path, FlameNode>, costs: Costs, l: Layout, p: Path)
  {
    forall q :: q in nodes && Begins(q, p) ==> Placed(nodes, costs, l, q)
  }

  ghost predicate SameElsewhere(nodes: map<Path, FlameNode>, l0: Layout, l1: Layout, p: Path)
  {
    forall q :: q in nodes && !Begins(q, p) ==> Same(nodes, l0, l1, q)
  }

  /** A finished subtree stays finished when a layout changes only below a sibling. */
  lemma StaysPlaced(nodes: map<Path, FlameNode>, costs: Costs, l0: Layout, l1: Layout, p: Path, d: Word, c: Word)
    requires costs.Keys == nodes.Keys && d != c
    requires BelowPlaced(nodes, costs, l0, p + [d]) && SameElsewhere(nodes, l0, l1, p + [c])
    ensures BelowPlaced(nodes, costs, l1, p + [d])
  {
    forall q | q in nodes && Begins(q, p + [d])
      ensures Placed(nodes, costs, l1, q)
    {
      Apart(q, p, d, c);
      assert Same(nodes, l0, l1, q);
      assert Placed(nodes, costs, l0, q);
      var ms := l0.order[q];
      forall j | 0 <= j < |ms|
        ensures InLine(costs, l1.coords, q, ms, j)
      {
        assert InLine(costs, l0.coords, q, ms, j);
        Apart(q + [ms[j]], p, d, c);
        if j > 0 {
          assert ms[j - 1] in ms;
          Apart(q + [ms[j - 1]], p, d, c);
        }
      }
    }
  }

  lemma Apart(q: Path, p: Path, d: Word, c: Word)
    requires d != c
    ensures Begins(q, p + [d]) ==> !Begins(q, p + [c])
  {
    assert Begins(q, p + [d]) ==> q[|p|] == (p + [d])[|p|] == d;
    assert Begins(q, p + [c]) ==> q[|p|] == (p + [c])[|p|] == c;
  }

  /** The loop of `build` at the node `p`, when it has laid out the children `done`. */
  ghost predicate Growing(nodes: map<Path, FlameNode>, costs: Costs, l0: Layout, l: Layout, p: Path, done: seq<Word>)
    requires p in nodes
  {
    && Shown(nodes, l, p, false)
    && SameElsewhere(nodes, l0, l, p)
    && (forall i, j :: 0 <= i < j < |done| ==> done[i] != done[j])
    && (forall m :: m in done ==> p + [m] in nodes && BelowPlaced(nodes, costs, l, p + [m]))
    && (forall j :: 0 <= j < |done| ==> InLine(costs, l.coords, p, done, j))
  }

  /** Where the next child begins. */
  ghost function Cursor(l: Layout, p: Path, done: seq<Word>): real
    requires p in l.coords && (done != [] ==> p + [Last(done)] in l.coords)
  {
    if done == [] then l.coords[p].x else l.coords[p + [Last(done)]].Right()
  }

  lemma GrowByChild(nodes: map<Path, FlameNode>, costs: Costs, l0: Layout, l: Layout, l': Layout, p: Path,
                    done: seq<Word>, m: Word)
    requires p in nodes && costs.Keys == nodes.Keys && Growing(nodes, costs, l0, l, p, done)
    requires m !in done && p + [m] in nodes && costs[p] > 0
    requires done != [] ==> p + [Last(done)] in l.coords
    requires SameElsewhere(nodes, l, l', p + [m]) && BelowPlaced(nodes, costs, l', p + [m])
    requires p + [m] in l'.coords
    requires l'.coords[p + [m]] == ComponentCoord(Cursor(l, p, done),
      Share(l.coords[p].width, costs[p + [m]], costs[p]), l.coords[p].level + 1, l.coords[p].parentWidth)
    ensures Growing(nodes, costs, l0, l', p, done + [m])
  {
    var c, done' := p + [m], done + [m];
    NotBelowChild(p, m);
    assert Same(nodes, l, l', p);
    forall q | q in nodes && !Begins(q, p)
      ensures Same(nodes, l0, l', q)
    {
      FurtherOut(q, p, m);
      assert Same(nodes, l0, l, q) && Same(nodes, l, l', q);
    }
    forall k | k in done'
      ensures p + [k] in nodes && BelowPlaced(nodes, costs, l', p + [k])
    {
      if k != m {
        StaysPlaced(nodes, costs, l, l', p, k, m);
      }
    }
    forall j | 0 <= j < |done'|
      ensures InLine(costs, l'.coords, p, done', j)
    {
      GrowInLine(nodes, costs, l, l', p, done, m, j);
    }
  }

  lemma GrowInLine(nodes: map<Path, FlameNode>, costs: Costs, l: Layout, l': Layout, p: Path, done: seq<Word>,
                   m: Word, j: nat)
    requires p in nodes && costs.Keys == nodes.Keys && p in l.coords && Same(nodes, l, l', p)
    requires m !in done && p + [m] in nodes && costs[p] > 0
    requires forall k :: k in done ==> p + [k] in nodes
    requires forall i :: 0 <= i < |done| ==> InLine(costs, l.coords, p, done, i)
    requires done != [] ==> p + [Last(done)] in l.coords
    requires SameElsewhere(nodes, l, l', p + [m]) && p + [m] in l'.coords
    requires l'.coords[p + [m]] == ComponentCoord(Cursor(l, p, done),
      Share(l.coords[p].width, costs[p + [m]], costs[p]), l.coords[p].level + 1, l.coords[p].parentWidth)
    requires j <= |done|
    ensures InLine(costs, l'.coords, p, done + [m], j)
  {
    forall k | k in done
      ensures Same(nodes, l, l', p + [k])
    {
      Apart(p + [k], p, k, m);
      assert Begins(p + [k], p + [k]);
    }
    if j < |done| {
      assert InLine(costs, l.coords, p, done, j);
      assert done[j] in done;
      assert j > 0 ==> done[j - 1] in done;
    } else if done != [] {
      assert Last(done) in done;
    }
  }

  lemma CursorStarts(l: Layout, p: Path)
    requires p in l.coords
    ensures Cursor(l, p, []) == l.coords[p].x
  {
  }

  lemma NotBelowChild(p: Path, m: Word)
    ensures !Begins(p, p + [m]) && Begins(p + [m], p)
  {
  }

  lemma FurtherOut(q: Path, p: Path, m: Word)
    ensures Begins(q, p + [m]) ==> Begins(q, p)
  {
    if Begins(q, p + [m]) {
      assert q[..|p|] == (p + [m])[..|p|] == p;
    }
  }

  /** When all children are done, everything below `p` is in place. */
  lemma AllGrown(nodes: map<Path, FlameNode>, costs: Costs, l0: Layout, l: Layout, p: Path, done: seq<Word>)
    requires p in nodes && costs.Keys == nodes.Keys && Growing(nodes, costs, l0, l, p, done)
    requires forall m :: p + [m] in nodes ==> m in done
    requires Rooted(nodes)
    ensures var l' := l.(order := l.order[p := done]);
      BelowPlaced(nodes, costs, l', p) && SameElsewhere(nodes, l0, l', p)
  {
    var l' := l.(order := l.order[p := done]);
    forall q | q in nodes && Begins(q, p)
      ensures Placed(nodes, costs, l', q)
    {
      if q == p {
        assert forall j :: 0 <= j < |done| ==> InLine(costs, l.coords, p, done, j);
      } else {
        var m := q[|p|];
        ChildToward(nodes, p, q);
        assert Placed(nodes, costs, l, q);
        assert l'.order[q] == l.order[q];
        assert forall j :: 0 <= j < |l.order[q]| ==> InLine(costs, l.coords, q, l.order[q], j);
      }
    }
    forall q | q in nodes && !Begins(q, p)
      ensures Same(nodes, l0, l', q)
    {
      assert Begins(p, p);
      assert Same(nodes, l0, l, q);
    }
  }

  ghost predicate Rooted(nodes: map<Path, FlameNode>)
  {
    forall q :: q in nodes && q != [] ==> q[..|q| - 1] in nodes
  }

  /** The child of `p` on the way to `q` is a node. */
  lemma {:induction false} ChildToward(nodes: map<Path, FlameNode>, p: Path, q: Path)
    requires q in nodes && Begins(q, p) && q != p
    requires Rooted(nodes)
    ensures p + [q[|p|]] in nodes && Begins(q, p + [q[|p|]])
    decreases |q|
  {
    if |q| == |p| + 1 {
      assert q == p + [q[|p|]];
    } else {
      var r: Path := q[..|q| - 1];
      assert |p| < |q| && p == q[..|p|] == r[..|p|];
      ChildToward(nodes, p, r);
    }
  }

  // ---------------------------------------------------------------------------
  // The component

  /** The nodes at or below `p`. */
  ghost function AtOrBelow(nodes: map<Path, FlameNode>, p: Path): set<Path>
  {
    set q | q in nodes && Begins(q, p)
  }

  lemma AtOrBelowShrinks(nodes: map<Path, FlameNode>, p: Path, m: Word)
    requires p in nodes
    ensures AtOrBelow(nodes, p + [m]) < AtOrBelow(nodes, p)
  {
    NotBelowChild(p, m);
    forall q | q in AtOrBelow(nodes, p + [m])
      ensures Begins(q, p)
    {
      FurtherOut(q, p, m);
    }
    assert p in AtOrBelow(nodes, p);
  }

  /** The nodes that can be seen: `build` passes over a node without cost, and so over all below it. */
  ghost function Visible(tree: FlameTree): map<Path, FlameNode>
    reads tree, tree.nodes.Values
  {
    map p | p in tree.nodes && (p == [] || tree.nodes[p].cost > 0) :: tree.nodes[p]
  }

  ghost function CostsOf(nodes: map<Path, FlameNode>): Costs
    reads nodes.Values
  {
    map p | p in nodes :: nodes[p].cost
  }

  /**
    `nodes` and `costs` are those of the visible part of the tree that is drawn; it does not change
    while it is laid out.  A root without cost has no children: the share of a child would be 0 / 0.
   */
  ghost predicate Draws(tree: FlameTree, nodes: map<Path, FlameNode>, costs: Costs)
    reads tree, tree.nodes.Values, nodes.Values
  {
    && tree.Valid() && nodes == Visible(tree) && costs == CostsOf(nodes)
    && Rooted(nodes) && Weighted(costs)
    && forall p :: p in tree.nodes && p != [] ==> tree.root.cost > 0
  }

  /** What laying out needs to know of a node that can be seen. */
  lemma DrawnNode(tree: FlameTree, nodes: map<Path, FlameNode>, costs: Costs, p: Path)
    requires Draws(tree, nodes, costs) && p in nodes
    ensures costs.Keys == nodes.Keys && Rooted(nodes) && costs[p] == nodes[p].cost
    ensures forall q :: q in nodes ==> nodes[q].path == q
  {
    OwnPaths(tree.nodes, tree.LinkMap());
  }

  lemma DrawnKids(tree: FlameTree, nodes: map<Path, FlameNode>, costs: Costs, p: Path)
    requires Draws(tree, nodes, costs) && p in nodes
    ensures forall m :: p + [m] in nodes <==> m in nodes[p].children && nodes[p].children[m].cost > 0
    ensures forall m :: m in nodes[p].children ==> nodes[p].cost > 0 && nodes[p].children[m].path == p + [m]
    ensures forall m :: p + [m] in nodes ==> nodes[p].children[m] == nodes[p + [m]]
  {
    RootLinked(tree.nodes, tree.LinkMap());
    forall m: Word
      ensures p + [m] in nodes <==> m in nodes[p].children && nodes[p].children[m].cost > 0
      ensures m in nodes[p].children ==> nodes[p].cost > 0 && nodes[p].children[m].path == p + [m]
      ensures p + [m] in nodes ==> nodes[p].children[m] == nodes[p + [m]]
    {
      LinkedAt(tree.nodes, tree.LinkMap(), p, m);
      if p + [m] in tree.nodes {
        LinkedAt(tree.nodes, tree.LinkMap(), p + [m], m);
      }
    }
  }

  lemma DrawnParent(tree: FlameTree, nodes: map<Path, FlameNode>, costs: Costs, p: Path)
    requires Draws(tree, nodes, costs) && p in nodes
    ensures nodes[p].path == p
    ensures if p == [] then nodes[p].parent == null
      else p[..|p| - 1] in nodes && nodes[p].parent == nodes[p[..|p| - 1]]
  {
    hide AllLinked, Linked, Weighted;
    LinkedParent(tree.nodes, tree.LinkMap(), p);
  }

  lemma LinkedParent(nodes: map<Path, FlameNode>, links: Links, p: Path)
    requires AllLinked(nodes, links) && p in nodes
    ensures nodes[p].path == p
    ensures if p == [] then nodes[p].parent == null
      else p[..|p| - 1] in nodes && nodes[p].parent == nodes[p[..|p| - 1]]
  {
    assert Linked(nodes, links, p);
  }

  lemma RootDrawn(tree: FlameTree, nodes: map<Path, FlameNode>, costs: Costs)
    requires Draws(tree, nodes, costs)
    ensures [] in nodes && nodes[[]] == tree.root && tree.root.path == []
  {
    RootLinked(tree.nodes, tree.LinkMap());
  }

  // ---------------------------------------------------------------------------
  // The height that the panel asks for

  /** The top of the node at `q` when the node at `p` sits at `level`. */
  function Top(level: int, p: Path, q: Path): int
  {
    (level + |q| - |p|) * FRAME_HEIGHT
  }

  /** `h` is the lowest top so far, of `h0` and of everything at or below `p`. */
  ghost predicate Heights(nodes: map<Path, FlameNode>, p: Path, level: int, h0: int, h: int)
  {
    && h0 <= h
    && (forall q :: q in nodes && Begins(q, p) ==> Top(level, p, q) <= h)
    && (h == h0 || exists q :: q in nodes && Begins(q, p) && Top(level, p, q) == h)
  }

  /** The same for `p` itself and its children in `done`. */
  ghost predicate HeightsSoFar(nodes: map<Path, FlameNode>, p: Path, level: int, h0: int, h: int, done: seq<Word>)
  {
    && h0 <= h && level * FRAME_HEIGHT <= h
    && (forall m :: m in done ==> Reached(nodes, p + [m], level + 1, h))
    && (h == h0 || exists q :: q in nodes && Begins(q, p) && Top(level, p, q) == h)
  }

  ghost predicate Reached(nodes: map<Path, FlameNode>, p: Path, level: int, h: int)
  {
    forall q :: q in nodes && Begins(q, p) ==> Top(level, p, q) <= h
  }

  lemma HeightsChild(nodes: map<Path, FlameNode>, p: Path, level: int, h0: int, h: int, h': int, done: seq<Word>,
                     m: Word)
    requires HeightsSoFar(nodes, p, level, h0, h, done) && Heights(nodes, p + [m], level + 1, h, h')
    ensures HeightsSoFar(nodes, p, level, h0, h', done + [m])
  {
    forall k | k in done + [m]
      ensures Reached(nodes, p + [k], level + 1, h')
    {
      assert k in done ==> Reached(nodes, p + [k], level + 1, h);
    }
    if h' != h {
      var q :| q in nodes && Begins(q, p + [m]) && Top(level + 1, p + [m], q) == h';
      FurtherOut(q, p, m);
      assert Top(level, p, q) == h';
    }
  }

  lemma HeightsEnd(nodes: map<Path, FlameNode>, p: Path, level: int, h0: int, h: int, done: seq<Word>)
    requires HeightsSoFar(nodes, p, level, h0, h, done) && Rooted(nodes)
    requires forall m :: p + [m] in nodes ==> m in done
    ensures Heights(nodes, p, level, h0, h)
  {
    forall q | q in nodes && Begins(q, p)
      ensures Top(level, p, q) <= h
    {
      if q != p {
        ChildToward(nodes, p, q);
        var m := q[|p|];
        assert Reached(nodes, p + [m], level + 1, h);
        assert Top(level + 1, p + [m], q) <= h;
      }
    }
  }

  /**
    The height that the panel asks for is the top of the lowest frame that is shown, and not its bottom:
    the panel ends where that frame begins.
   */
  ghost predicate PanelHeight(nodes: map<Path, FlameNode>, r: Path, h: int)
  {
    && (forall q :: q in nodes && (Begins(q, r) || Begins(r, q)) ==> 20 * |q| <= h)
    && exists q :: q in nodes && Begins(q, r) && h == 20 * |q|
  }

  lemma PanelReaches(nodes: map<Path, FlameNode>, r: Path, h1: int, h: int)
    requires r in nodes && h1 <= |r| * FRAME_HEIGHT && Heights(nodes, r, |r|, h1, h)
    ensures PanelHeight(nodes, r, h)
  {
    assert Begins(r, r) && Top(|r|, r, r) == |r| * FRAME_HEIGHT;
    if h == h1 {
      assert h == |r| * FRAME_HEIGHT;
    } else {
      var q :| q in nodes && Begins(q, r) && Top(|r|, r, q) == h;
    }
    forall q | q in nodes && (Begins(q, r) || Begins(r, q))
      ensures 20 * |q| <= h
    {
      assert Begins(q, r) ==> Top(|r|, r, q) == |q| * FRAME_HEIGHT;
    }
  }

  /** Every component belongs to a node that can be seen. */
  ghost predicate Known(nodes: map<Path, FlameNode>, comps: map<FlameNode, Bounds>)
  {
    forall n :: n in comps ==> n.path in nodes && nodes[n.path] == n
  }

  /** Every component is above or below the current root `r`, and so part of its picture, or has no size. */
  ghost predicate NothingElse(nodes: map<Path, FlameNode>, comps: map<FlameNode, Bounds>, r: Path)
  {
    Known(nodes, comps) && forall n :: n in comps ==> Begins(n.path, r) || Begins(r, n.path) || Vanished(comps[n])
  }

  lemma StillNothingElse(nodes: map<Path, FlameNode>, l0: Layout, l: Layout, r: Path)
    requires NothingElse(nodes, l0.comps, r) && Known(nodes, l.comps) && OthersSame(nodes, l0, l, r)
    ensures NothingElse(nodes, l.comps, r)
  {
    forall n | n in l.comps && !Begins(n.path, r) && !Begins(r, n.path)
      ensures Vanished(l.comps[n])
    {
      assert Same(nodes, l0, l, n.path);
    }
  }

  class FlameComponent {
    const tree: FlameTree
    var currentRoot: FlameNode
    var maxHeight: int
    var panelWidth: nat
    var nodeToComp: map<FlameNode, Bounds>
    ghost var coords: map<Path, ComponentCoord>
    ghost var order: map<Path, seq<Word>>

    ghost function View(): Layout
      reads this
    {
      Layout(nodeToComp, coords, order)
    }

    /** A fresh component shows the whole tree; its width is still zero. */
    constructor (tree: FlameTree, ghost nodes: map<Path, FlameNode>, ghost costs: Costs)
      requires Draws(tree, nodes, costs)
      ensures this.tree == tree && currentRoot == tree.root && panelWidth == 0 && Draws(tree, nodes, costs)
      ensures currentRoot.path == [] && NothingElse(nodes, nodeToComp, [])
      ensures Displayed(nodes, costs, View(), [], 0) && PanelHeight(nodes, [], maxHeight)
    {
      this.tree, currentRoot := tree, tree.root;
      maxHeight, panelWidth, nodeToComp := 0, 0, map[];
      coords, order := map[], map[];
      new;
      hide Draws, Displayed, OthersSame, PanelHeight;
      RootDrawn(tree, nodes, costs);
      assert NothingElse(nodes, nodeToComp, []);
      hide Known, NothingElse;
      ghost var l := View();
      RecalcPositions(nodes, costs);
      StillNothingElse(nodes, l, View(), []);
    }

    /** `paintComponent`: lays everything out again for the width the panel has now, and shows nothing more. */
    method Paint(width: nat, ghost nodes: map<Path, FlameNode>, ghost costs: Costs)
      requires Draws(tree, nodes, costs) && currentRoot.path in nodes && nodes[currentRoot.path] == currentRoot
      requires NothingElse(nodes, nodeToComp, currentRoot.path)
      modifies this`panelWidth, this`nodeToComp, this`coords, this`order, this`maxHeight
      ensures panelWidth == width && Draws(tree, nodes, costs)
      ensures NothingElse(nodes, nodeToComp, currentRoot.path)
      ensures Displayed(nodes, costs, View(), currentRoot.path, width)
      ensures PanelHeight(nodes, currentRoot.path, maxHeight)
    {
      assert Known(nodes, nodeToComp);
      hide Draws, Displayed, PanelHeight, OthersSame, Known, NothingElse;
      ghost var l := View();
      panelWidth := width;
      RecalcPositions(nodes, costs);
      StillNothingElse(nodes, l, View(), currentRoot.path);
    }

    method RecalculateComponentCoords(begin: real, level: int, node: FlameNode, width: real, isCollapsed: bool)
      modifies this`nodeToComp, this`coords, this`maxHeight
      ensures coords == old(coords)[node.path := ComponentCoord(begin, width, level, panelWidth)]
      ensures nodeToComp ==
        old(nodeToComp)[node := Pixels(ComponentCoord(begin, width, level, panelWidth), isCollapsed)]
      ensures maxHeight == if level * FRAME_HEIGHT >= old(maxHeight) then level * FRAME_HEIGHT else old(maxHeight)
    {
      var coord := ComponentCoord(begin, width, level, panelWidth);
      nodeToComp := nodeToComp[node := Pixels(coord, isCollapsed)];
      coords := coords[node.path := coord];
      if coord.GetY() >= maxHeight {
        maxHeight := coord.GetY();
      }
    }

    /** `build`; the order in which it meets the children is the hash map's own. */
    method Build(node: FlameNode, begin: real, end: real, level: int, ghost nodes: map<Path, FlameNode>,
                 ghost costs: Costs)
      requires Draws(tree, nodes, costs) && Known(nodes, nodeToComp)
      requires end - begin > 0.0 ==> node.path in nodes && nodes[node.path] == node
      modifies this`nodeToComp, this`coords, this`order, this`maxHeight
      ensures Draws(tree, nodes, costs) && Known(nodes, nodeToComp)
      ensures end - begin <= 0.0 ==> View() == old(View()) && maxHeight == old(maxHeight)
      ensures end - begin > 0.0 ==>
        && BelowPlaced(nodes, costs, View(), node.path)
        && SameElsewhere(nodes, old(View()), View(), node.path)
        && node.path in coords && coords[node.path] == ComponentCoord(begin, end - begin, level, panelWidth)
        && Heights(nodes, node.path, level, old(maxHeight), maxHeight)
      decreases AtOrBelow(nodes, node.path), 2
    {
      hide Growing, BelowPlaced, SameElsewhere, Draws, Heights, HeightsSoFar, Known;
      var width := end - begin;
      if width <= 0.0 {
        return;
      }
      ghost var p, l0, h0 := node.path, View(), maxHeight;
      DrawnNode(tree, nodes, costs, p);
      Open(node, begin, level, width, nodes, costs);
      ghost var done := BuildChildren(node, begin, width, level, nodes, costs, l0, h0);
      ghost var l := View();
      order := order[p := done];
      AllGrown(nodes, costs, l0, l, p, done);
      HeightsEnd(nodes, p, level, h0, maxHeight, done);
    }

    /** The loop of `build`, over the children in the hash map's own order. */
    method BuildChildren(node: FlameNode, begin: real, width: real, level: int,
                         ghost nodes: map<Path, FlameNode>, ghost costs: Costs, ghost l0: Layout, ghost h0: int)
      returns (ghost done: seq<Word>)
      requires Draws(tree, nodes, costs) && Known(nodes, nodeToComp)
      requires node.path in nodes && nodes[node.path] == node && width > 0.0
      requires Growing(nodes, costs, l0, View(), node.path, [])
      requires HeightsSoFar(nodes, node.path, level, h0, maxHeight, [])
      requires node.path in coords && coords[node.path] == ComponentCoord(begin, width, level, panelWidth)
      modifies this`nodeToComp, this`coords, this`order, this`maxHeight
      ensures Draws(tree, nodes, costs) && Known(nodes, nodeToComp)
      ensures Growing(nodes, costs, l0, View(), node.path, done)
      ensures HeightsSoFar(nodes, node.path, level, h0, maxHeight, done)
      ensures forall m :: node.path + [m] in nodes ==> m in done
      ensures node.path in coords && coords[node.path] == ComponentCoord(begin, width, level, panelWidth)
      decreases AtOrBelow(nodes, node.path), 1
    {
      hide Growing, Draws, AtOrBelow, Cursor, HeightsSoFar, Known;
      ghost var p := node.path;
      CursorStarts(View(), p);
      DrawnKids(tree, nodes, costs, p);
      var totalCost := node.cost;
      var nodeBegin := begin;
      var rest := node.children.Keys;
      done := [];
      while rest != {}
        invariant Draws(tree, nodes, costs) && Known(nodes, nodeToComp)
        invariant rest <= node.children.Keys
        invariant forall m :: m in done <==> m in node.children.Keys - rest && p + [m] in nodes
        invariant Growing(nodes, costs, l0, View(), p, done)
        invariant HeightsSoFar(nodes, p, level, h0, maxHeight, done)
        invariant p in coords && coords[p] == ComponentCoord(begin, width, level, panelWidth)
        invariant done != [] ==> p + [Last(done)] in coords
        invariant nodeBegin == Cursor(View(), p, done)
        decreases rest
      {
        var id :| id in rest;
        var nodeWidth;
        nodeWidth, done := BuildChild(node, id, nodeBegin, width, totalCost, level, nodes, costs, l0, h0, done);
        nodeBegin := nodeBegin + nodeWidth;
        rest := rest - {id};
      }
    }

    /** The first step of `build`: the component of the node itself. */
    method Open(node: FlameNode, begin: real, level: int, width: real, ghost nodes: map<Path, FlameNode>,
                ghost costs: Costs)
      requires node.path in nodes && nodes[node.path] == node && forall q :: q in nodes ==> nodes[q].path == q
      requires Known(nodes, nodeToComp)
      modifies this`nodeToComp, this`coords, this`maxHeight
      ensures Known(nodes, nodeToComp)
      ensures Growing(nodes, costs, old(View()), View(), node.path, [])
      ensures node.path in coords && coords[node.path] == ComponentCoord(begin, width, level, panelWidth)
      ensures HeightsSoFar(nodes, node.path, level, old(maxHeight), maxHeight, [])
    {
      assert Begins(node.path, node.path) && Top(level, node.path, node.path) == level * FRAME_HEIGHT;
      hide Growing;
      ghost var l0 := View();
      RecalculateComponentCoords(begin, level, node, width, false);
      Started(nodes, costs, l0, View(), node.path, ComponentCoord(begin, width, level, panelWidth));
    }

    /** One round of the loop of `build`; a child without cost has no width and is passed over. */
    method BuildChild(node: FlameNode, id: Word, nodeBegin: real, width: real, totalCost: nat, level: int,
                      ghost nodes: map<Path, FlameNode>, ghost costs: Costs, ghost l0: Layout, ghost h0: int,
                      ghost done: seq<Word>)
      returns (nodeWidth: real, ghost done': seq<Word>)
      requires Draws(tree, nodes, costs) && Known(nodes, nodeToComp)
      requires node.path in nodes && nodes[node.path] == node && node.cost == totalCost
      requires id in node.children && id !in done
      requires Growing(nodes, costs, l0, View(), node.path, done)
      requires HeightsSoFar(nodes, node.path, level, h0, maxHeight, done)
      requires width > 0.0 && node.path in coords
      requires coords[node.path] == ComponentCoord(coords[node.path].x, width, level, panelWidth)
      requires done != [] ==> node.path + [Last(done)] in coords
      requires nodeBegin == Cursor(View(), node.path, done)
      modifies this`nodeToComp, this`coords, this`order, this`maxHeight
      ensures Draws(tree, nodes, costs) && Known(nodes, nodeToComp)
      ensures done' == if node.path + [id] in nodes then done + [id] else done
      ensures Growing(nodes, costs, l0, View(), node.path, done')
      ensures HeightsSoFar(nodes, node.path, level, h0, maxHeight, done')
      ensures node.path in coords && coords[node.path] == old(coords[node.path])
      ensures done' != [] ==> node.path + [Last(done')] in coords
      ensures nodeBegin + nodeWidth == Cursor(View(), node.path, done')
      decreases AtOrBelow(nodes, node.path), 0
    {
      hide Growing, BelowPlaced, SameElsewhere, Draws, Begins, Placed, Share, Heights, HeightsSoFar, Known;
      ghost var p, l, h := node.path, View(), maxHeight;
      var vertex := node.children[id];
      DrawnNode(tree, nodes, costs, p);
      DrawnKids(tree, nodes, costs, p);
      nodeWidth := Share(width, vertex.cost, totalCost);
      ShareSign(width, vertex.cost, totalCost);
      AtOrBelowShrinks(nodes, p, id);
      Build(vertex, nodeBegin, nodeBegin + nodeWidth, level + 1, nodes, costs);
      done' := done;
      if p + [id] in nodes {
        done' := done + [id];
        DrawnNode(tree, nodes, costs, p + [id]);
        HeightsChild(nodes, p, level, h0, h, maxHeight, done, id);
        RootUntouched(nodes, l, View(), p, id);
        assert coords[p + [id]] == ComponentCoord(nodeBegin, nodeWidth, level + 1, panelWidth);
        GrowByChild(nodes, costs, l0, l, View(), p, done, id);
        assert Last(done') == id;
      }
    }

    /** The number of ancestors of a node. */
    method CountLevel(node: FlameNode, ghost nodes: map<Path, FlameNode>, ghost costs: Costs) returns (l: nat)
      requires Draws(tree, nodes, costs) && node.path in nodes && nodes[node.path] == node
      ensures l == |node.path|
    {
      hide Draws;
      ghost var p := node.path;
      DrawnParent(tree, nodes, costs, p);
      l := 0;
      var curNode := node.parent;
      while curNode != null
        invariant l <= |p| && (curNode == null <==> l == |p|)
        invariant l < |p| ==> p[..|p| - 1 - l] in nodes && curNode == nodes[p[..|p| - 1 - l]]
        decreases |p| - l
      {
        DrawnParent(tree, nodes, costs, p[..|p| - 1 - l]);
        assert l + 1 < |p| ==> p[..|p| - 1 - l][..|p| - 2 - l] == p[..|p| - 2 - l];
        l := l + 1;
        curNode := curNode.parent;
      }
    }

    /** `calcTop`: the ancestors of the current root, collapsed to full-width bars. */
    method CalcTop(ghost nodes: map<Path, FlameNode>, ghost costs: Costs) returns (allLevel: nat)
      requires Draws(tree, nodes, costs) && currentRoot.path in nodes && nodes[currentRoot.path] == currentRoot
      requires Known(nodes, nodeToComp)
      modifies this`nodeToComp, this`coords, this`maxHeight
      ensures Known(nodes, nodeToComp)
      ensures allLevel == |currentRoot.path|
      ensures old(maxHeight) <= |currentRoot.path| * FRAME_HEIGHT ==> maxHeight <= |currentRoot.path| * FRAME_HEIGHT
      ensures Collapsed(nodes, old(View()), View(), currentRoot.path, 0, panelWidth)
    {
      hide Draws, Collapsed, Known;
      ghost var p, l0 := currentRoot.path, View();
      allLevel := CountLevel(currentRoot, nodes, costs);
      var level := allLevel;
      var node := currentRoot;
      DrawnParent(tree, nodes, costs, p);
      NoneCollapsed(nodes, l0, p, panelWidth);
      assert p[..|p|] == p;
      while node.parent != null
        invariant Draws(tree, nodes, costs) && Known(nodes, nodeToComp)
        invariant 0 <= level <= |p| && p[..level] in nodes && node == nodes[p[..level]]
        invariant Collapsed(nodes, l0, View(), p, level, panelWidth)
        invariant old(maxHeight) <= |p| * FRAME_HEIGHT ==> maxHeight <= |p| * FRAME_HEIGHT
        decreases level
      {
        DrawnParent(tree, nodes, costs, p[..level]);
        level := level - 1;
        node := CollapseParent(node, level, nodes, costs, l0, p);
      }
      DrawnParent(tree, nodes, costs, p[..level]);
    }

    /** One round of the loop of `calcTop`. */
    method CollapseParent(node: FlameNode, level: nat, ghost nodes: map<Path, FlameNode>, ghost costs: Costs,
                          ghost l0: Layout, ghost p: Path) returns (parent: FlameNode)
      requires Draws(tree, nodes, costs) && Known(nodes, nodeToComp)
      requires level < |p| && p[..level + 1] in nodes && node == nodes[p[..level + 1]]
      requires Collapsed(nodes, l0, View(), p, level + 1, panelWidth)
      modifies this`nodeToComp, this`coords, this`maxHeight
      ensures Draws(tree, nodes, costs) && Known(nodes, nodeToComp)
      ensures p[..level] in nodes && parent == nodes[p[..level]]
      ensures Collapsed(nodes, l0, View(), p, level, panelWidth)
      ensures maxHeight == if level * FRAME_HEIGHT >= old(maxHeight) then level * FRAME_HEIGHT else old(maxHeight)
    {
      hide Draws, Collapsed, Shown, Same;
      DrawnNode(tree, nodes, costs, p[..level + 1]);
      DrawnParent(tree, nodes, costs, p[..level + 1]);
      assert p[..level + 1][..level] == p[..level];
      ghost var l := View();
      RecalculateComponentCoords(0.0, level, node.parent, 1.0, true);
      OneMoreCollapsed(nodes, l0, l, View(), p, level, panelWidth);
      parent := node.parent;
    }

    /** `recalcPositions` */
    method RecalcPositions(ghost nodes: map<Path, FlameNode>, ghost costs: Costs)
      requires Draws(tree, nodes, costs) && currentRoot.path in nodes && nodes[currentRoot.path] == currentRoot
      requires Known(nodes, nodeToComp)
      modifies this`nodeToComp, this`coords, this`order, this`maxHeight
      ensures Draws(tree, nodes, costs) && Known(nodes, nodeToComp)
      ensures Displayed(nodes, costs, View(), currentRoot.path, panelWidth)
      ensures OthersSame(nodes, old(View()), View(), currentRoot.path)
      ensures PanelHeight(nodes, currentRoot.path, maxHeight)
    {
      hide Draws, Collapsed, BelowPlaced, SameElsewhere, Displayed, OthersSame, Heights, PanelHeight, Known;
      ghost var l0 := View();
      maxHeight := 0;
      var level := CalcTop(nodes, costs);
      ghost var l, h1 := View(), maxHeight;
      Build(currentRoot, 0.0, 1.0, level, nodes, costs);
      PanelReaches(nodes, currentRoot.path, h1, maxHeight);
      DisplayedBoth(nodes, costs, l0, l, View(), currentRoot.path, panelWidth);
    }

    /** `resetNode`: a click on a frame makes it the current root. */
    method ResetNode(node: FlameNode, ghost nodes: map<Path, FlameNode>, ghost costs: Costs)
      requires Draws(tree, nodes, costs) && node.path in nodes && nodes[node.path] == node
      requires Known(nodes, nodeToComp)
      modifies this`currentRoot, this`nodeToComp, this`coords, this`order, this`maxHeight
      ensures currentRoot == node && Draws(tree, nodes, costs)
      ensures NothingElse(nodes, nodeToComp, node.path)
      ensures Displayed(nodes, costs, View(), node.path, panelWidth) && PanelHeight(nodes, node.path, maxHeight)
    {
      hide Draws, Displayed, PanelHeight;
      currentRoot := node;
      var rest := nodeToComp.Keys;
      while rest != {}
        invariant currentRoot == node && Draws(tree, nodes, costs)
        invariant rest <= nodeToComp.Keys == old(nodeToComp).Keys
        invariant forall n :: n in nodeToComp.Keys - rest ==> Vanished(nodeToComp[n])
        decreases rest
      {
        var c :| c in rest;
        nodeToComp := nodeToComp[c := nodeToComp[c].(x := 0, y := 0, width := 0, height := 0)];
        rest := rest - {c};
      }
      assert NothingElse(nodes, nodeToComp, node.path);
      hide OthersSame, Known, NothingElse;
      ghost var l := View();
      RecalcPositions(nodes, costs);
      StillNothingElse(nodes, l, View(), node.path);
    }
  }

  /** The ancestors of `p` from level `level` on are shown collapsed, at full width, each at its own depth. */
  ghost predicate Collapsed(nodes: map<Path, FlameNode>, l0: Layout, l: Layout, p: Path, level: nat, w: nat)
  {
    forall q :: q in nodes ==>
      if q != p && Begins(p, q) && |q| >= level then
        Shown(nodes, l, q, true) && l.coords[q] == ComponentCoord(0.0, 1.0, |q|, w)
      else Same(nodes, l0, l, q)
  }

  lemma NoneCollapsed(nodes: map<Path, FlameNode>, l: Layout, p: Path, w: nat)
    ensures Collapsed(nodes, l, l, p, |p|, w)
  {
    forall q | q in nodes && Begins(p, q) && |q| >= |p|
      ensures q == p
    {
    }
  }

  lemma OneMoreCollapsed(nodes: map<Path, FlameNode>, l0: Layout, l: Layout, l': Layout, p: Path, level: nat, w: nat)
    requires level < |p| && Collapsed(nodes, l0, l, p, level + 1, w) && p[..level] in nodes
    requires forall q :: q in nodes ==> nodes[q].path == q
    requires var c := ComponentCoord(0.0, 1.0, level, w);
      l' == l.(coords := l.coords[p[..level] := c], comps := l.comps[nodes[p[..level]] := Pixels(c, true)])
    ensures Collapsed(nodes, l0, l', p, level, w)
  {
    forall q | q in nodes
      ensures if q != p && Begins(p, q) && |q| >= level then
          Shown(nodes, l', q, true) && l'.coords[q] == ComponentCoord(0.0, 1.0, |q|, w)
        else Same(nodes, l0, l', q)
    {
      assert Begins(p, q) ==> q == p[..|q|];
      if q != p[..level] {
        assert nodes[q] != nodes[p[..level]];
        assert Begins(p, q) && |q| >= level ==> |q| >= level + 1;
      }
    }
  }

  /** The whole picture for the current root `r` on a panel of width `w`. */
  ghost predicate Displayed(nodes: map<Path, FlameNode>, costs: Costs, l: Layout, r: Path, w: nat)
  {
    && (forall q :: q in nodes && q != r && Begins(r, q) ==>
          Shown(nodes, l, q, true) && l.coords[q] == ComponentCoord(0.0, 1.0, |q|, w))
    && r in nodes && BelowPlaced(nodes, costs, l, r)
    && r in l.coords && l.coords[r] == ComponentCoord(0.0, 1.0, |r|, w)
  }

  ghost predicate OthersSame(nodes: map<Path, FlameNode>, l0: Layout, l: Layout, r: Path)
  {
    forall q :: q in nodes && !Begins(q, r) && !Begins(r, q) ==> Same(nodes, l0, l, q)
  }

  lemma DisplayedBoth(nodes: map<Path, FlameNode>, costs: Costs, l0: Layout, l: Layout, l': Layout, r: Path, w: nat)
    requires r in nodes && Collapsed(nodes, l0, l, r, 0, w)
    requires BelowPlaced(nodes, costs, l', r) && SameElsewhere(nodes, l, l', r)
    requires r in l'.coords && l'.coords[r] == ComponentCoord(0.0, 1.0, |r|, w)
    ensures Displayed(nodes, costs, l', r, w) && OthersSame(nodes, l0, l', r)
  {
    forall q | q in nodes && !Begins(q, r) && !Begins(r, q)
      ensures Same(nodes, l0, l', q)
    {
      assert Same(nodes, l0, l, q) && Same(nodes, l, l', q);
    }
    forall q | q in nodes && q != r && Begins(r, q)
      ensures Shown(nodes, l', q, true) && l'.coords[q] == ComponentCoord(0.0, 1.0, |q|, w)
    {
      assert !Begins(q, r);
      assert Same(nodes, l, l', q);
    }
  }

  lemma Started(nodes: map<Path, FlameNode>, costs: Costs, l0: Layout, l: Layout, p: Path, c: ComponentCoord)
    requires p in nodes && forall q :: q in nodes ==> nodes[q].path == q
    requires l == l0.(coords := l0.coords[p := c], comps := l0.comps[nodes[p] := Pixels(c, false)])
    ensures Growing(nodes, costs, l0, l, p, [])
  {
    forall q | q in nodes && !Begins(q, p)
      ensures Same(nodes, l0, l, q)
    {
      assert Begins(p, p);
      assert nodes[q] != nodes[p];
    }
  }

  lemma ShareSign(width: real, cost: nat, total: nat)
    requires width > 0.0 && total > 0
    ensures if cost > 0 then Share(width, cost, total) > 0.0 else Share(width, cost, total) == 0.0
  {
  }

  lemma RootUntouched(nodes: map<Path, FlameNode>, l: Layout, l': Layout, p: Path, m: Word)
    requires p in nodes && SameElsewhere(nodes, l, l', p + [m])
    ensures Same(nodes, l, l', p)
  {
    NotBelowChild(p, m);
  }

  lemma ChildrenAre(nodes: map<Path, FlameNode>, links: Links, p: Path)
    requires AllLinked(nodes, links) && p in nodes
    ensures forall m :: p + [m] in nodes ==> m in links[p]
    ensures Rooted(nodes)
  {
    assert Linked(nodes, links, p);
    forall q | q in nodes && q != []
      ensures q[..|q| - 1] in nodes
    {
      assert Linked(nodes, links, q);
    }
  }
}
