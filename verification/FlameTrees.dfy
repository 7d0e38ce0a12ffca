/** The plugin's flame tree: a prefix tree of the reported samples, with accumulated costs. */
module FlameTrees {
  import opened Words
  import opened Hashing
  import opened Samples
  import opened Reports
  import opened Totals

  // ---------------------------------------------------------------------------
  // Costs by path

  ghost predicate Begins(q: Path, p: Path)
  {
    p <= q
  }

  /** The weight of the samples whose path begins with `p`. */
  ghost function Under(p: Path): Path -> nat
  {
    q => if Begins(q, p) then 1 else 0
  }

  /** The weight of the samples whose path is `p`. */
  ghost function Exactly(p: Path): Path -> nat
  {
    q => if p == q then 1 else 0
  }

  type Costs = map<Path, nat>

  ghost function Bump(costs: Costs, p: Path, coef: nat): Costs
  {
    costs[p := (if p in costs then costs[p] else 0) + coef]
  }

  /** The costs after the first `i` frames of a sample have been walked, outermost first. */
  ghost function Walk(costs: Costs, path: Path, coef: nat, i: nat): Costs
    requires i <= |path|
  {
    if i == 0 then Bump(costs, [], coef) else Bump(Walk(costs, path, coef, i - 1), path[..i], coef)
  }

  lemma {:induction false} WalkAdds(costs: Costs, path: Path, coef: nat, i: nat)
    requires i <= |path|
    ensures var c := Walk(costs, path, coef, i);
      && (forall p :: p in c <==> p in costs || Begins(path[..i], p))
      && (forall p :: p in c ==>
            c[p] == (if p in costs then costs[p] else 0) + if Begins(path[..i], p) then coef else 0)
  {
    if i > 0 {
      WalkAdds(costs, path, coef, i - 1);
      forall p
        ensures Begins(path[..i], p) <==> Begins(path[..i - 1], p) || p == path[..i]
        ensures p == path[..i] ==> !Begins(path[..i - 1], p)
      {
        PrefixStep(p, path, i);
      }
    }
  }

  lemma PrefixStep(p: Path, path: Path, i: nat)
    requires 0 < i <= |path|
    ensures Begins(path[..i], p) <==> Begins(path[..i - 1], p) || p == path[..i]
  {
    assert Begins(path[..i], p) ==> p == path[..|p|];
  }

  /** The costs that a list of samples leaves behind. */
  ghost function Tally(samples: seq<SampleInfo>): Costs
    decreases |samples|
  {
    if samples == [] then map[[] := 0]
    else
      var path := PathOf(Last(samples).frames);
      Walk(Tally(Front(samples)), path, Last(samples).callCount, |path|)
  }

  ghost predicate Covered(samples: seq<SampleInfo>, p: Path)
  {
    p == [] || exists i :: 0 <= i < |samples| && Begins(PathOf(samples[i].frames), p)
  }

  /** The cost at a path is the weight of the samples that begin with it, and no other path has a cost. */
  lemma {:induction false} TallyWeighs(samples: seq<SampleInfo>)
    ensures forall p :: p in Tally(samples) <==> Covered(samples, p)
    ensures forall p :: p in Tally(samples) ==> Tally(samples)[p] == Total(samples, Under(p))
    decreases |samples|
  {
    hide PathOf, Walk;
    if samples != [] {
      var s, t := Front(samples), Last(samples);
      var path := PathOf(t.frames);
      TallyWeighs(s);
      WalkAdds(Tally(s), path, t.callCount, |path|);
      assert path[..|path|] == path;
      forall p
        ensures Covered(samples, p) <==> Covered(s, p) || Begins(path, p)
      {
        if Covered(s, p) && p != [] {
          var i :| 0 <= i < |s| && Begins(PathOf(s[i].frames), p);
          assert samples[i] == s[i];
        }
        if Begins(path, p) {
          assert samples[|s|] == t;
        }
      }
      forall p | !Covered(s, p)
        ensures Total(s, Under(p)) == 0
      {
        UncoveredWeighsNothing(s, p);
      }
    }
  }

  lemma {:induction false} UncoveredWeighsNothing(samples: seq<SampleInfo>, p: Path)
    requires !Covered(samples, p)
    ensures Total(samples, Under(p)) == 0
    decreases |samples|
  {
    hide PathOf;
    if samples != [] {
      forall i | 0 <= i < |Front(samples)|
        ensures !Begins(PathOf(Front(samples)[i].frames), p)
      {
        assert samples[i] == Front(samples)[i];
      }
      UncoveredWeighsNothing(Front(samples), p);
      assert samples[|samples| - 1] == Last(samples);
    }
  }

  // ---------------------------------------------------------------------------
  // The tree on the heap

  class FlameNode {
    const methodId: Word
    const parent: FlameNode?
    ghost const path: Path
    var cost: nat
    var children: map<Word, FlameNode>

    constructor (methodId: Word, parent: FlameNode?)
      ensures this.methodId == methodId && this.parent == parent
      ensures path == if parent == null then [] else parent.path + [methodId]
      ensures cost == 0 && children == map[]
    {
      this.methodId, this.parent := methodId, parent;
      path := if parent == null then [] else parent.path + [methodId];
      cost, children := 0, map[];
    }
  }

  datatype Result = Built(tree: FlameTree) | IllegalArgument(sample: SampleInfo)

  /** The sample at `i` is the first one without frames. */
  ghost predicate FirstEmpty(samples: seq<SampleInfo>, i: int)
  {
    0 <= i < |samples| && samples[i].frames == [] && forall k :: 0 <= k < i ==> samples[k].frames != []
  }

  /** The children of every node, by path. */
  type Links = map<Path, map<Word, FlameNode>>

  /** The node at `p` is linked as it should be, both to its parent and to its children. */
  ghost predicate Linked(nodes: map<Path, FlameNode>, links: Links, p: Path)
    requires p in nodes && p in links
  {
    var node := nodes[p];
    && node.path == p
    && (if p == [] then node.parent == null && node.methodId == 0
        else Front(p) in nodes && node.parent == nodes[Front(p)] && node.methodId == Last(p))
    && (forall m :: m in links[p] <==> p + [m] in nodes)
    && (forall m :: m in links[p] ==> links[p][m] == nodes[p + [m]])
  }

  ghost predicate AllLinked(nodes: map<Path, FlameNode>, links: Links)
  {
    && [] in nodes && links.Keys == nodes.Keys
    && forall p :: p in nodes ==> Linked(nodes, links, p)
  }

  /** The links after `child` was hung below the node at `p`, under the method `m`. */
  ghost function Grown(links: Links, p: Path, m: Word, child: FlameNode): Links
    requires p in links
  {
    var kids: map<Word, FlameNode> := links[p];
    links[p := kids[m := child]][p + [m] := map[]]
  }

  /** Hanging a new node below the node at `p` keeps all links in order. */
  lemma GrowLinks(nodes: map<Path, FlameNode>, links: Links, p: Path, m: Word, child: FlameNode)
    requires AllLinked(nodes, links) && p in nodes && p + [m] !in nodes
    requires child.path == p + [m] && child.parent == nodes[p] && child.methodId == m
    ensures AllLinked(nodes[p + [m] := child], Grown(links, p, m, child))
  {
    var c := p + [m];
    var nodes', links' := nodes[c := child], Grown(links, p, m, child);
    assert Front(c) == p && Last(c) == m;
    forall q | q in nodes
      ensures Linked(nodes', links', q)
    {
      GrowOld(nodes, links, p, m, child, q);
    }
    forall k: Word
      ensures c + [k] !in nodes'
    {
      assert Front(c + [k]) == c;
      assert c + [k] in nodes ==> Linked(nodes, links, c + [k]);
    }
    assert Linked(nodes', links', c);
  }

  lemma GrowOld(nodes: map<Path, FlameNode>, links: Links, p: Path, m: Word, child: FlameNode, q: Path)
    requires p in nodes && links.Keys == nodes.Keys && p + [m] !in nodes
    requires q in nodes && Linked(nodes, links, q)
    ensures Linked(nodes[p + [m] := child], Grown(links, p, m, child), q)
  {
    forall k: Word
      ensures q + [k] == p + [m] <==> q == p && k == m
    {
      Extend(q, k, p, m);
    }
  }

  lemma Extend(q: Path, k: Word, p: Path, m: Word)
    ensures q + [k] == p + [m] <==> q == p && k == m
  {
    if q + [k] == p + [m] {
      assert Front(q + [k]) == q && Front(p + [m]) == p;
      assert Last(q + [k]) == k && Last(p + [m]) == m;
    }
  }

  class FlameTree {
    const root: FlameNode
    ghost var nodes: map<Path, FlameNode>   // every node, by its path from the root

    ghost predicate Valid()
      reads this, nodes.Values
    {
      && AllLinked(nodes, LinkMap())
      && nodes[[]] == root
    }

    ghost function LinkMap(): Links
      reads this, nodes.Values
    {
      map p | p in nodes :: nodes[p].children
    }

    ghost function CostMap(): Costs
      reads this, nodes.Values
    {
      map p | p in nodes :: nodes[p].cost
    }

    constructor ()
      ensures Valid() && CostMap() == map[[] := 0] && fresh(nodes.Values)
    {
      root := new FlameNode(0, null);
      new;
      nodes := map[[] := root];
      assert forall m: Word :: [] + [m] != [];
    }

    /** `node.children.computeIfAbsent(methodId, ...)` */
    method ChildOf(node: FlameNode, methodId: Word) returns (child: FlameNode)
      requires Valid() && node.path in nodes && nodes[node.path] == node
      modifies this`nodes, node`children
      ensures Valid() && fresh(nodes.Values - old(nodes.Values))
      ensures child.path == node.path + [methodId] && child.path in nodes && nodes[child.path] == child
      ensures CostMap() == if child.path in old(nodes) then old(CostMap()) else old(CostMap())[child.path := 0]
    {
      hide Linked, AllLinked;
      OwnPaths(nodes, LinkMap());
      LinkedAt(nodes, LinkMap(), node.path, methodId);
      if methodId in node.children {
        child := node.children[methodId];
      } else {
        child := NewChild(node, methodId);
      }
    }

    method NewChild(node: FlameNode, methodId: Word) returns (child: FlameNode)
      requires Valid() && node.path in nodes && nodes[node.path] == node && node.path + [methodId] !in nodes
      modifies this`nodes, node`children
      ensures Valid() && fresh(child) && nodes == old(nodes)[node.path + [methodId] := child]
      ensures child.path == node.path + [methodId] && CostMap() == old(CostMap())[node.path + [methodId] := 0]
    {
      hide Linked, AllLinked;
      ghost var c, costs := node.path + [methodId], CostMap();
      child := new FlameNode(methodId, node);
      Hang(node, methodId, child);
      assert CostMap() == costs[c := 0];
    }

    method Hang(node: FlameNode, methodId: Word, child: FlameNode)
      requires Valid() && node.path in nodes && nodes[node.path] == node && node.path + [methodId] !in nodes
      requires child.path == node.path + [methodId] && child.parent == node && child.methodId == methodId
      requires child.children == map[] && child !in nodes.Values
      modifies this`nodes, node`children
      ensures Valid() && nodes == old(nodes)[node.path + [methodId] := child]
    {
      hide Linked, AllLinked;
      ghost var links := LinkMap();
      OwnPaths(nodes, links);
      GrowLinks(nodes, links, node.path, methodId, child);
      node.children := node.children[methodId := child];
      nodes := nodes[child.path := child];
      assert LinkMap() == Grown(links, node.path, methodId, child);
    }

    method AddCost(node: FlameNode, coef: nat)
      requires Valid() && node.path in nodes && nodes[node.path] == node
      modifies node`cost
      ensures Valid() && CostMap() == old(CostMap())[node.path := old(node.cost) + coef]
    {
      hide Linked, AllLinked;
      OwnPaths(nodes, LinkMap());
      node.cost := node.cost + coef;
      assert LinkMap() == old(LinkMap());
    }

    /** `addSampleToTree` */
    method AddSample(sample: SampleInfo)
      requires Valid()
      modifies this`nodes, nodes.Values
      ensures Valid() && fresh(nodes.Values - old(nodes.Values))
      ensures CostMap() == Walk(old(CostMap()), PathOf(sample.frames), sample.callCount, |PathOf(sample.frames)|)
    {
      hide AllLinked, PathOf, Walk, Bump;
      var coef, n := sample.callCount, |sample.frames|;
      ghost var path, costs := PathOf(sample.frames), CostMap();
      PathAt(sample.frames);
      RootLinked(nodes, LinkMap());
      AddCost(root, coef);
      BumpNew(costs, costs, [], coef);
      WalkStep(costs, path, coef, 0);
      var node := root;
      for i := 0 to n
        invariant Valid() && fresh(nodes.Values - old(nodes.Values))
        invariant node.path == path[..i] && node.path in nodes && nodes[node.path] == node
        invariant CostMap() == Walk(costs, path, coef, i)
      {
        assert path[..i + 1] == path[..i] + [path[i]];
        node := Descend(node, sample.frames[n - 1 - i].methodId, coef);
        WalkStep(costs, path, coef, i + 1);
      }
    }

    /** One round of the loop of `addSampleToTree`. */
    method Descend(node: FlameNode, methodId: Word, coef: nat) returns (child: FlameNode)
      requires Valid() && node.path in nodes && nodes[node.path] == node
      modifies this`nodes, nodes.Values
      ensures Valid() && fresh(nodes.Values - old(nodes.Values))
      ensures child.path == node.path + [methodId] && child.path in nodes && nodes[child.path] == child
      ensures CostMap() == Bump(old(CostMap()), child.path, coef)
    {
      hide AllLinked, Bump;
      ghost var c0 := CostMap();
      child := ChildOf(node, methodId);
      ghost var c1 := CostMap();
      BumpNew(c0, c1, child.path, coef);
      AddCost(child, coef);
    }

    /** The constructor of the source, which throws on a sample without frames. */
    static method Build(samples: seq<SampleInfo>) returns (r: Result)
      ensures r.IllegalArgument? <==> exists i :: 0 <= i < |samples| && samples[i].frames == []
      ensures r.IllegalArgument? ==> exists i :: FirstEmpty(samples, i) && r.sample == samples[i]
      ensures r.Built? ==> r.tree.Valid() && fresh(r.tree) && fresh(r.tree.nodes.Values)
      ensures r.Built? ==> r.tree.CostMap() == Tally(samples)
    {
      hide AllLinked, PathOf, Walk;
      var tree := new FlameTree();
      for i := 0 to |samples|
        invariant tree.Valid() && fresh(tree.nodes.Values) && tree.CostMap() == Tally(samples[..i])
        invariant forall k :: 0 <= k < i ==> samples[k].frames != []
      {
        if samples[i].frames == [] {
          assert FirstEmpty(samples, i);
          return IllegalArgument(samples[i]);
        }
        tree.AddSample(samples[i]);
        assert Front(samples[..i + 1]) == samples[..i];
      }
      assert samples[..|samples|] == samples;
      return Built(tree);
    }
  }

  lemma {:induction false} PathAt(frames: seq<Frame>)
    ensures |PathOf(frames)| == |frames|
    ensures forall i :: 0 <= i < |frames| ==> PathOf(frames)[i] == frames[|frames| - 1 - i].methodId
    decreases |frames|
  {
    if frames != [] {
      PathAt(Front(frames));
    }
  }

  lemma BumpNew(c0: Costs, c1: Costs, p: Path, coef: nat)
    requires c1 == if p in c0 then c0 else c0[p := 0]
    ensures c1[p := c1[p] + coef] == Bump(c0, p, coef)
  {
  }

  lemma WalkStep(costs: Costs, path: Path, coef: nat, i: nat)
    requires i <= |path|
    ensures Walk(costs, path, coef, i) ==
      if i == 0 then Bump(costs, [], coef) else Bump(Walk(costs, path, coef, i - 1), path[..i], coef)
  {
  }

  lemma RootLinked(nodes: map<Path, FlameNode>, links: Links)
    requires AllLinked(nodes, links)
    ensures [] in nodes && nodes[[]].path == []
  {
    assert Linked(nodes, links, []);
  }

  lemma LinkedAt(nodes: map<Path, FlameNode>, links: Links, p: Path, m: Word)
    requires AllLinked(nodes, links) && p in nodes
    ensures nodes[p].path == p
    ensures m in links[p] <==> p + [m] in nodes
    ensures m in links[p] ==> links[p][m] == nodes[p + [m]]
  {
    assert Linked(nodes, links, p);
  }

  lemma OwnPaths(nodes: map<Path, FlameNode>, links: Links)
    requires AllLinked(nodes, links)
    ensures [] in nodes
    ensures forall p :: p in nodes ==> nodes[p].path == p
  {
    forall p | p in nodes
      ensures nodes[p].path == p
    {
      assert Linked(nodes, links, p);
    }
  }
}
