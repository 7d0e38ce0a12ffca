/**
  The ownership protocol of the plugin: a `Lifetime` is a node of a multi-parent graph that owns a
  list of actions.  Terminating it runs its actions in reverse order of registration; some of those
  actions terminate its children, which in turn edit the lists of their other parents.

  The class below does what the source does, on mutable lists.  What it means is stated on
  snapshots: a `Graph` maps every lifetime to its flag and its list at one moment.
 */
module Lifetimes {

  /** The closures that the source stores in an action list. */
  datatype Action =
    | User(id: int)                               // registered with `+=`
    | TerminateChild(child: Lifetime)             // registered on the parent
    | Unhook(parent: Lifetime, owner: Lifetime)   // registered on the child: undo its parent's entry

  /** One user action that ran, and the lifetime that owned it. */
  datatype Entry = Entry(owner: Lifetime, id: int)

  datatype Node = Node(terminated: bool, actions: seq<Action>)

  type Graph = map<Lifetime, Node>

  datatype Outcome = Done | TerminatedSeveralTimes | AlreadyTerminated

  // ---------------------------------------------------------------------------
  // Lists

  /** `ArrayList.remove`: drops the first occurrence, if any. */
  function RemoveFirst(s: seq<Action>, a: Action): seq<Action>
  {
    if s == [] then []
    else if s[0] == a then s[1..]
    else [s[0]] + RemoveFirst(s[1..], a)
  }

  /** The list without the entries that terminate a lifetime of `dead`. */
  ghost function Prune(s: seq<Action>, dead: set<Lifetime>): seq<Action>
  {
    if s == [] then []
    else if s[0].TerminateChild? && s[0].child in dead then Prune(s[1..], dead)
    else [s[0]] + Prune(s[1..], dead)
  }

  /** The user actions of a list, last registered first. */
  ghost function UsersLastFirst(s: seq<Action>): seq<int>
  {
    if s == [] then []
    else UsersLastFirst(s[1..]) + (if s[0].User? then [s[0].id] else [])
  }

  /** The part of a journal that belongs to one owner. */
  ghost function OwnedBy(log: seq<Entry>, l: Lifetime): seq<int>
  {
    if log == [] then []
    else (if log[0].owner == l then [log[0].id] else []) + OwnedBy(log[1..], l)
  }

  lemma {:induction false} OwnedByConcat(a: seq<Entry>, b: seq<Entry>, l: Lifetime)
    ensures OwnedBy(a + b, l) == OwnedBy(a, l) + OwnedBy(b, l)
  {
    if a == [] {
      assert a + b == b;
    } else {
      var first := if a[0].owner == l then [a[0].id] else [];
      assert (a + b)[0] == a[0] && (a + b)[1..] == a[1..] + b;
      assert OwnedBy(a + b, l) == first + OwnedBy(a[1..] + b, l);
      assert OwnedBy(a, l) == first + OwnedBy(a[1..], l);
      hide OwnedBy;
      OwnedByConcat(a[1..], b, l);
    }
  }

  lemma {:induction false} PruneMember(s: seq<Action>, dead: set<Lifetime>, a: Action)
    ensures a in Prune(s, dead) <==> a in s && !(a.TerminateChild? && a.child in dead)
  {
    if s != [] {
      PruneMember(s[1..], dead, a);
      assert s == [s[0]] + s[1..];
    }
  }

  lemma {:induction false} PruneTwice(s: seq<Action>, a: set<Lifetime>, b: set<Lifetime>)
    ensures Prune(Prune(s, a), b) == Prune(s, a + b)
  {
    if s != [] {
      PruneTwice(s[1..], a, b);
    }
  }

  lemma {:induction false} PruneNothing(s: seq<Action>, dead: set<Lifetime>)
    requires forall a <- s :: a.TerminateChild? ==> a.child !in dead
    ensures Prune(s, dead) == s
  {
    if s != [] {
      PruneNothing(s[1..], dead);
    }
  }

  lemma {:induction false} PruneKeepsUsers(s: seq<Action>, dead: set<Lifetime>)
    ensures UsersLastFirst(Prune(s, dead)) == UsersLastFirst(s)
  {
    if s != [] {
      PruneKeepsUsers(s[1..], dead);
    }
  }

  /** An entry that is pruned anyway may be dropped from the set only if the list does not hold it. */
  lemma PruneOneMore(s: seq<Action>, dead: set<Lifetime>, x: Lifetime)
    requires TerminateChild(x) !in Prune(s, dead - {x})
    ensures Prune(s, dead - {x}) == Prune(s, dead)
  {
    PruneTwice(s, dead - {x}, {x});
    assert dead - {x} + {x} == dead || dead - {x} == dead;
    if x in dead {
      PruneNothing(Prune(s, dead - {x}), {x});
    }
  }

  /** Terminate entries are registered in creation order, so none occurs twice. */
  ghost predicate Ascending(s: seq<Action>)
  {
    forall i, j :: 0 <= i < j < |s| && s[i].TerminateChild? && s[j].TerminateChild?
                   ==> s[i].child.id < s[j].child.id
  }

  lemma {:induction false} RemoveIsPrune(s: seq<Action>, x: Lifetime)
    requires Ascending(s)
    ensures RemoveFirst(s, TerminateChild(x)) == Prune(s, {x})
  {
    if s != [] {
      assert Ascending(s[1..]);
      if s[0] == TerminateChild(x) {
        PruneNothing(s[1..], {x});
      } else {
        RemoveIsPrune(s[1..], x);
      }
    }
  }

  lemma {:induction false} PruneAscending(s: seq<Action>, dead: set<Lifetime>)
    requires Ascending(s)
    ensures Ascending(Prune(s, dead))
  {
    if s != [] {
      assert Ascending(s[1..]);
      PruneAscending(s[1..], dead);
      var t := Prune(s[1..], dead);
      forall j | 0 <= j < |t| && t[j].TerminateChild? && s[0].TerminateChild?
        ensures s[0].child.id < t[j].child.id
      {
        PruneMember(s[1..], dead, t[j]);
        assert t[j] in s[1..];
      }
    }
  }

  // ---------------------------------------------------------------------------
  // Graphs

  ghost predicate Alive(g: Graph, l: Lifetime) { l in g && !g[l].terminated }

  ghost function Later(all: set<Lifetime>, id: nat): set<Lifetime>
  {
    set l | l in all && l.id > id
  }

  lemma LaterShrinks(all: set<Lifetime>, id: nat, c: Lifetime)
    requires c in all && c.id > id
    ensures Later(all, c.id) < Later(all, id)
  {
    assert c in Later(all, id) && c !in Later(all, c.id);
  }

  /** `y` is `x` or one of its descendants. */
  ghost predicate Below(x: Lifetime, y: Lifetime)
    decreases y.id
  {
    y == x || exists p :: p in y.parents && p.id < y.id && Below(x, p)
  }

  /** A live list holds its unhook entries first, one per parent, and after them no other. */
  ghost predicate Hooked(c: Lifetime, s: seq<Action>)
  {
    && |c.parents| <= |s|
    && (forall k :: 0 <= k < |c.parents| ==> s[k] == Unhook(c.parents[k], c))
    && (forall k :: |c.parents| <= k < |s| ==> !s[k].Unhook?)
  }

  /** The entry for `c` on the list of `l` is in order: `c` is a child that still has to end. */
  ghost predicate Entitled(g: Graph, stack: set<Lifetime>, l: Lifetime, c: Lifetime)
  {
    c in g && l in c.parents && (!g[c].terminated || c in stack)
  }

  /** What holds of `l` at every moment, also in the middle of a termination. */
  ghost predicate Tidy(g: Graph, stack: set<Lifetime>, l: Lifetime)
    requires l in g
  {
    && (forall p :: p in l.parents ==> p in g && p.id < l.id)
    && (g[l].terminated && l !in stack ==> g[l].actions == [])
    && (!g[l].terminated ==>
          && (forall a :: a in g[l].actions && a.TerminateChild? ==> Entitled(g, stack, l, a.child))
          && Ascending(g[l].actions) && Hooked(l, g[l].actions)
          && (forall p :: p in l.parents ==>
                if g[p].terminated then p in stack else TerminateChild(l) in g[p].actions))
  }

  /** The invariant; `stack` is the set of lifetimes whose `terminate` is still running. */
  ghost predicate Inv(g: Graph, stack: set<Lifetime>)
  {
    && (forall s :: s in stack ==> s in g && g[s].terminated)
    && (forall l :: l in g ==> Tidy(g, stack, l))
  }

  ghost function Newly(g0: Graph, g: Graph): set<Lifetime>
  {
    set l | l in g0 && Alive(g0, l) && l in g && g[l].terminated
  }

  /**
    The order of a journal across lifetimes.  Running `s`, the tail of the list of `x`, from its last
    entry to its first writes one block per entry: the user action itself, or everything the child
    writes.  A child that is dead by then writes nothing.
   */
  ghost predicate InBlocks(g: Graph, x: Lifetime, s: seq<Action>, ext: seq<Entry>)
    decreases Later(g.Keys, x.id), |s|, 1
  {
    if s == [] then ext == []
    else exists k :: 0 <= k <= |ext| && InBlocks(g, x, s[1..], ext[..k]) && IsBlock(g, x, s, ext[k..])
  }

  ghost predicate IsBlock(g: Graph, x: Lifetime, s: seq<Action>, e: seq<Entry>)
    requires s != []
    decreases Later(g.Keys, x.id), |s|, 0
  {
    match s[0]
    case User(n) => e == [Entry(x, n)]
    case Unhook(_, _) => e == []
    case TerminateChild(c) =>
      e == [] || (
        && Alive(g, c) && c.id > x.id
        && (LaterShrinks(g.Keys, x.id, c); InBlocks(g, c, g[c].actions, e)))
  }

  lemma AddBlock(g: Graph, x: Lifetime, s: seq<Action>, ext: seq<Entry>, e: seq<Entry>)
    requires s != [] && InBlocks(g, x, s[1..], ext) && IsBlock(g, x, s, e)
    ensures InBlocks(g, x, s, ext + e)
  {
    assert (ext + e)[..|ext|] == ext && (ext + e)[|ext|..] == e;
  }

  /** The block of the first entry of `s` comes last. */
  lemma Unblock(g: Graph, x: Lifetime, s: seq<Action>, ext: seq<Entry>) returns (rest: seq<Entry>)
    requires s != [] && InBlocks(g, x, s, ext)
    ensures |rest| <= |ext| && rest == ext[..|rest|]
    ensures InBlocks(g, x, s[1..], rest) && IsBlock(g, x, s, ext[|rest|..])
  {
    var k :| 0 <= k <= |ext| && InBlocks(g, x, s[1..], ext[..k]) && IsBlock(g, x, s, ext[k..]);
    rest := ext[..k];
  }

  /** The lists of `g` are lists of `g0` that lost entries of dead children. */
  ghost predicate Thinner(g0: Graph, g: Graph)
  {
    && g.Keys == g0.Keys
    && forall l :: l in g && Alive(g, l) ==>
         Alive(g0, l) && exists dead: set<Lifetime> :: dead <= g.Keys && g[l].actions == Prune(g0[l].actions, dead)
  }

  lemma {:induction false} Transfer(g0: Graph, g: Graph, x: Lifetime, s: seq<Action>, dead: set<Lifetime>,
                                    ext: seq<Entry>)
    requires Thinner(g0, g) && InBlocks(g, x, Prune(s, dead), ext)
    ensures InBlocks(g0, x, s, ext)
    decreases Later(g.Keys, x.id), |s|, 1
  {
    hide Thinner;
    if s == [] {
    } else if s[0].TerminateChild? && s[0].child in dead {
      Transfer(g0, g, x, s[1..], dead, ext);
      AddBlock(g0, x, s, ext, []);
      assert ext + [] == ext;
    } else {
      var t := Prune(s, dead);
      assert t[1..] == Prune(s[1..], dead) && t[0] == s[0];
      var rest := Unblock(g, x, t, ext);
      hide InBlocks, IsBlock, Prune;
      Transfer(g0, g, x, s[1..], dead, rest);
      TransferBlock(g0, g, x, s, t, ext[|rest|..]);
      AddBlock(g0, x, s, rest, ext[|rest|..]);
      assert rest + ext[|rest|..] == ext;
    }
  }

  lemma {:induction false} TransferBlock(g0: Graph, g: Graph, x: Lifetime, s: seq<Action>, t: seq<Action>,
                                         e: seq<Entry>)
    requires Thinner(g0, g) && s != [] && t != [] && s[0] == t[0] && IsBlock(g, x, t, e)
    ensures IsBlock(g0, x, s, e)
    decreases Later(g.Keys, x.id), |s|, 0
  {
    hide Prune;
    if s[0].TerminateChild? && e != [] {
      var c := s[0].child;
      LaterShrinks(g.Keys, x.id, c);
      var d :| d <= g.Keys && g[c].actions == Prune(g0[c].actions, d);
      Transfer(g0, g, c, g0[c].actions, d, e);
    }
  }

  /**
    The meaning of one call of `terminate` on the live lifetime `x`: it ends exactly the lifetimes
    below `x`, takes their entries and nothing else off the lists that stay alive, and runs every
    user action of every lifetime it ends exactly once, last registered first.
   */
  ghost predicate Ended(g0: Graph, g: Graph, x: Lifetime, ext: seq<Entry>)
  {
    && g.Keys == g0.Keys
    && (forall l :: l in g0 ==> (g[l].terminated <==> g0[l].terminated || Below(x, l)))
    && (forall l :: l in g0 && Alive(g, l) ==> g[l].actions == Prune(g0[l].actions, Newly(g0, g)))
    && (forall l :: l in g0 ==>
          OwnedBy(ext, l) == if Alive(g0, l) && Below(x, l) then UsersLastFirst(g0[l].actions) else [])
    && x in g0 && InBlocks(g0, x, g0[x].actions, ext)
  }

  /** Where the loop of `terminate` stands when it has run the actions `j..` of its snapshot. */
  ghost predicate Midway(g0: Graph, g: Graph, x: Lifetime, j: nat, ext: seq<Entry>)
  {
    && Alive(g0, x) && j <= |g0[x].actions|
    && g.Keys == g0.Keys
    && SnapshotAt(g, x, g0[x].actions, j)
    && (forall l :: l in g0 ==> (g0[l].terminated ==> g[l].terminated))
    && (forall l :: l in Newly(g0, g) ==> Below(x, l))
    && (forall l :: l in g0 && Alive(g, l) ==> Pruned(g0, g, x, l))
    && (forall l :: l in g0 ==> OwnedBy(ext, l) == RunSoFar(g0, g, x, j, l))
    && InBlocks(g0, x, g0[x].actions[j..], ext)
  }

  ghost function RunSoFar(g0: Graph, g: Graph, x: Lifetime, j: nat, l: Lifetime): seq<int>
    requires x in g0 && l in g0 && j <= |g0[x].actions|
  {
    if l == x then UsersLastFirst(g0[x].actions[j..])
    else if l in Newly(g0, g) then UsersLastFirst(g0[l].actions)
    else []
  }

  ghost predicate SnapshotAt(g: Graph, x: Lifetime, s: seq<Action>, j: nat)
    requires j <= |s|
  {
    && (forall i :: 0 <= i < j && s[i].TerminateChild? ==> Alive(g, s[i].child))
    && (forall i :: j <= i < |s| && s[i].TerminateChild? ==> !Alive(g, s[i].child))
    && (forall i :: j <= i < |s| && s[i].Unhook? && Alive(g, s[i].parent)
                    ==> TerminateChild(x) !in g[s[i].parent].actions)
  }

  /** The list of `l` has lost its entries for what ended, except that `x` itself may still be on it. */
  ghost predicate Pruned(g0: Graph, g: Graph, x: Lifetime, l: Lifetime)
    requires l in g0 && l in g
  {
    || g[l].actions == Prune(g0[l].actions, Newly(g0, g) - {x})
    || g[l].actions == Prune(g0[l].actions, Newly(g0, g))
  }

  lemma {:induction false} BelowIsLater(x: Lifetime, y: Lifetime)
    requires Below(x, y)
    ensures x == y || x.id < y.id
    decreases y.id
  {
    if x != y {
      var p :| p in y.parents && p.id < y.id && Below(x, p);
      BelowIsLater(x, p);
    }
  }

  lemma {:induction false} BelowTransitive(x: Lifetime, y: Lifetime, z: Lifetime)
    requires Below(x, y) && Below(y, z)
    ensures Below(x, z)
    decreases z.id
  {
    if y != z {
      var p :| p in z.parents && p.id < z.id && Below(y, p);
      BelowTransitive(x, y, p);
    }
  }

  lemma Enter(g0: Graph, x: Lifetime, stack: set<Lifetime>)
    requires Inv(g0, stack) && Alive(g0, x)
    requires forall s :: s in stack ==> s.id < x.id
    ensures Inv(g0[x := Node(true, g0[x].actions)], stack + {x})
    ensures Midway(g0, g0[x := Node(true, g0[x].actions)], x, |g0[x].actions|, [])
  {
    var s := g0[x].actions;
    var g := g0[x := Node(true, s)];
    forall i | 0 <= i < |s| && s[i].TerminateChild?
      ensures Alive(g, s[i].child)
    {
      assert s[i] in s;
      assert Entitled(g0, stack, x, s[i].child);
    }
    forall l, a | l in g && Alive(g, l) && a in g[l].actions && a.TerminateChild?
      ensures Entitled(g, stack + {x}, l, a.child)
    {
      assert Entitled(g0, stack, l, a.child);
    }
    assert Newly(g0, g) == {x};
    forall l | l in g0 && Alive(g, l)
      ensures Pruned(g0, g, x, l)
    {
      PruneNothing(g0[l].actions, {x} - {x});
    }
  }

  lemma StepUser(g0: Graph, g: Graph, x: Lifetime, j: nat, ext: seq<Entry>)
    requires 0 < j && Midway(g0, g, x, j, ext) && g0[x].actions[j - 1].User?
    ensures Midway(g0, g, x, j - 1, ext + [Entry(x, g0[x].actions[j - 1].id)])
  {
    var s := g0[x].actions;
    var e := Entry(x, s[j - 1].id);
    assert s[j - 1..][1..] == s[j..];
    AddBlock(g0, x, s[j - 1..], ext, [e]);
    forall l | l in g0
      ensures OwnedBy(ext + [e], l) == OwnedBy(ext, l) + (if l == x then [e.id] else [])
    {
      OwnedByConcat(ext, [e], l);
    }
  }

  /** Dropping a terminate entry disturbs no unhook entry. */
  lemma UnhookKeepsOrder(g: Graph, x: Lifetime, p: Lifetime)
    requires p in g && Hooked(p, g[p].actions)
    ensures Hooked(p, Prune(g[p].actions, {x}))
  {
    PruneHooks(p, g[p].actions, {x}, |p.parents|);
  }

  lemma {:induction false} PruneHooks(c: Lifetime, s: seq<Action>, dead: set<Lifetime>, n: nat)
    requires n <= |s|
    requires forall k :: 0 <= k < n ==> s[k].Unhook?
    requires forall k :: n <= k < |s| ==> !s[k].Unhook?
    ensures n <= |Prune(s, dead)|
    ensures forall k :: 0 <= k < n ==> Prune(s, dead)[k] == s[k]
    ensures forall k :: n <= k < |Prune(s, dead)| ==> !Prune(s, dead)[k].Unhook?
  {
    if s != [] {
      PruneHooks(c, s[1..], dead, if n == 0 then 0 else n - 1);
    }
  }

  /** Taking the entry for `x` off a live list, where `x` is already dead. */
  lemma UnhookInv(g: Graph, stack: set<Lifetime>, x: Lifetime, p: Lifetime)
    requires Inv(g, stack) && x in g && !Alive(g, x) && Alive(g, p)
    ensures Inv(g[p := Node(false, Prune(g[p].actions, {x}))], stack)
  {
    var t := Prune(g[p].actions, {x});
    var g' := g[p := Node(false, t)];
    PruneAscending(g[p].actions, {x});
    UnhookKeepsOrder(g, x, p);
    forall l, a | l in g' && Alive(g', l) && a in g'[l].actions && a.TerminateChild?
      ensures Entitled(g', stack, l, a.child)
    {
      PruneMember(g[p].actions, {x}, a);
      assert Entitled(g, stack, l, a.child);
    }
    forall c, q | c in g' && Alive(g', c) && q in c.parents && Alive(g', q)
      ensures TerminateChild(c) in g'[q].actions
    {
      PruneMember(g[p].actions, {x}, TerminateChild(c));
    }
  }

  lemma UnhookPruned(g0: Graph, g: Graph, x: Lifetime, p: Lifetime)
    requires g.Keys == g0.Keys && Alive(g, p) && x in Newly(g0, g) && Pruned(g0, g, x, p)
    ensures Prune(g[p].actions, {x}) == Prune(g0[p].actions, Newly(g0, g))
  {
    PruneTwice(g0[p].actions, Newly(g0, g) - {x}, {x});
    PruneTwice(g0[p].actions, Newly(g0, g), {x});
    assert Newly(g0, g) - {x} + {x} == Newly(g0, g) == Newly(g0, g) + {x};
  }

  lemma UnhookSnapshot(g: Graph, g': Graph, x: Lifetime, s: seq<Action>, j: nat, p: Lifetime)
    requires 0 < j <= |s| && SnapshotAt(g, x, s, j) && s[j - 1] == Unhook(p, x)
    requires p in g && g' == g[p := Node(g[p].terminated, Prune(g[p].actions, {x}))]
    ensures SnapshotAt(g', x, s, j - 1)
  {
    PruneMember(g[p].actions, {x}, TerminateChild(x));
  }

  lemma StepUnhook(g0: Graph, g: Graph, x: Lifetime, j: nat, ext: seq<Entry>, p: Lifetime)
    requires 0 < j && Midway(g0, g, x, j, ext) && x in Newly(g0, g)
    requires g0[x].actions[j - 1] == Unhook(p, x) && Alive(g, p)
    ensures Midway(g0, g[p := Node(false, Prune(g[p].actions, {x}))], x, j - 1, ext)
  {
    var s := g0[x].actions;
    var g' := g[p := Node(false, Prune(g[p].actions, {x}))];
    UnhookSnapshot(g, g', x, s, j, p);
    assert s[j - 1..][1..] == s[j..];
    AddBlock(g0, x, s[j - 1..], ext, []);
    assert ext + [] == ext;
    assert Newly(g0, g') == Newly(g0, g);
    UnhookPruned(g0, g, x, p);
    forall l | l in g0 && Alive(g', l)
      ensures Pruned(g0, g', x, l)
    {
      assert Pruned(g0, g, x, l);
    }
    forall l | l in g0
      ensures OwnedBy(ext, l) == RunSoFar(g0, g', x, j - 1, l)
    {
      assert OwnedBy(ext, l) == RunSoFar(g0, g, x, j, l);
    }
  }

  /** Ending a child leaves the older children on the snapshot alive: they cannot be below it. */
  lemma ChildSnapshot(g: Graph, g': Graph, x: Lifetime, s: seq<Action>, j: nat, c: Lifetime, dead: set<Lifetime>)
    requires 0 < j <= |s| && SnapshotAt(g, x, s, j) && s[j - 1] == TerminateChild(c) && Ascending(s)
    requires g'.Keys == g.Keys && forall l :: l in g ==> (g'[l].terminated <==> g[l].terminated || Below(c, l))
    requires forall l :: l in g && Alive(g', l) ==> g'[l].actions == Prune(g[l].actions, dead)
    ensures SnapshotAt(g', x, s, j - 1)
  {
    forall i | 0 <= i < j - 1 && s[i].TerminateChild?
      ensures Alive(g', s[i].child)
    {
      assert s[i].child.id < c.id;
      if Below(c, s[i].child) {
        BelowIsLater(c, s[i].child);
      }
    }
    forall i | j - 1 <= i < |s| && s[i].Unhook? && Alive(g', s[i].parent)
      ensures TerminateChild(x) !in g'[s[i].parent].actions
    {
      var p := s[i].parent;
      PruneMember(g[p].actions, dead, TerminateChild(x));
    }
  }

  lemma ChildPruned(g0: Graph, g: Graph, g': Graph, x: Lifetime, l: Lifetime)
    requires g'.Keys == g.Keys == g0.Keys && l in g0
    requires Newly(g0, g') == Newly(g0, g) + Newly(g, g') && x in Newly(g0, g) && x !in Newly(g, g')
    requires Pruned(g0, g, x, l) && g'[l].actions == Prune(g[l].actions, Newly(g, g'))
    ensures Pruned(g0, g', x, l)
  {
    PruneTwice(g0[l].actions, Newly(g0, g) - {x}, Newly(g, g'));
    PruneTwice(g0[l].actions, Newly(g0, g), Newly(g, g'));
    assert Newly(g0, g) - {x} + Newly(g, g') == Newly(g0, g') - {x};
  }

  /** What pruning took off a list were no user actions. */
  lemma ChildUsers(g0: Graph, g: Graph, x: Lifetime, l: Lifetime)
    requires l in g0 && l in g && Pruned(g0, g, x, l)
    ensures UsersLastFirst(g[l].actions) == UsersLastFirst(g0[l].actions)
  {
    PruneKeepsUsers(g0[l].actions, Newly(g0, g) - {x});
    PruneKeepsUsers(g0[l].actions, Newly(g0, g));
  }

  lemma ChildJournal(g0: Graph, g: Graph, g': Graph, x: Lifetime, j: nat, c: Lifetime,
                     ext: seq<Entry>, ext': seq<Entry>, l: Lifetime)
    requires g'.Keys == g.Keys == g0.Keys && l in g0 && x in g0
    requires 0 < j <= |g0[x].actions| && !g0[x].actions[j - 1].User?
    requires Newly(g0, g') == Newly(g0, g) + Newly(g, g') && x in Newly(g0, g) && x !in Newly(g, g')
    requires Alive(g, l) ==> Pruned(g0, g, x, l)
    requires l in Newly(g, g') <==> Alive(g, l) && Below(c, l)
    requires OwnedBy(ext, l) == RunSoFar(g0, g, x, j, l)
    requires OwnedBy(ext', l) == if Alive(g, l) && Below(c, l) then UsersLastFirst(g[l].actions) else []
    ensures OwnedBy(ext + ext', l) == RunSoFar(g0, g', x, j - 1, l)
  {
    OwnedByConcat(ext, ext', l);
    assert g0[x].actions[j - 1..][1..] == g0[x].actions[j..];
    if l in Newly(g, g') {
      ChildUsers(g0, g, x, l);
      assert l !in Newly(g0, g);
    }
  }

  lemma ChildBlock(g0: Graph, g: Graph, x: Lifetime, s: seq<Action>, ext: seq<Entry>, c: Lifetime, ext': seq<Entry>)
    requires g.Keys == g0.Keys && s != [] && s[0] == TerminateChild(c) && c.id > x.id
    requires forall l :: l in g0 ==> (g0[l].terminated ==> g[l].terminated)
    requires forall l :: l in g0 && Alive(g, l) ==> Pruned(g0, g, x, l)
    requires Alive(g, c) && InBlocks(g0, x, s[1..], ext) && InBlocks(g, c, g[c].actions, ext')
    ensures InBlocks(g0, x, s, ext + ext')
  {
    forall l | l in g && Alive(g, l)
      ensures exists dead: set<Lifetime> :: dead <= g.Keys && g[l].actions == Prune(g0[l].actions, dead)
    {
      assert Pruned(g0, g, x, l);
      assert Newly(g0, g) <= g.Keys && Newly(g0, g) - {x} <= g.Keys;
    }
    var d :| d <= g.Keys && g[c].actions == Prune(g0[c].actions, d);
    Transfer(g0, g, c, g0[c].actions, d, ext');
    assert Alive(g0, c);
    AddBlock(g0, x, s, ext, ext');
  }

  lemma StepChild(g0: Graph, g: Graph, g': Graph, x: Lifetime, j: nat,
                  ext: seq<Entry>, c: Lifetime, ext': seq<Entry>)
    requires 0 < j && Midway(g0, g, x, j, ext) && Ascending(g0[x].actions) && x in Newly(g0, g)
    requires g0[x].actions[j - 1] == TerminateChild(c) && c.id > x.id && Below(x, c)
    requires Alive(g, c) && Ended(g, g', c, ext')
    ensures Midway(g0, g', x, j - 1, ext + ext')
  {
    hide UsersLastFirst, OwnedBy, Prune, Pruned, InBlocks, SnapshotAt, Below, Ascending, RunSoFar;
    var s := g0[x].actions;
    ChildSnapshot(g, g', x, s, j, c, Newly(g, g'));
    assert s[j - 1..][1..] == s[j..];
    ChildBlock(g0, g, x, s[j - 1..], ext, c, ext');
    assert Newly(g0, g') == Newly(g0, g) + Newly(g, g');
    assert x in Newly(g0, g) && x !in Newly(g, g');
    forall l | l in Newly(g, g')
      ensures Below(x, l)
    {
      BelowTransitive(x, c, l);
    }
    forall l | l in g0 && Alive(g', l)
      ensures Pruned(g0, g', x, l)
    {
      ChildPruned(g0, g, g', x, l);
    }
    forall l | l in g0
      ensures OwnedBy(ext + ext', l) == RunSoFar(g0, g', x, j - 1, l)
    {
      ChildJournal(g0, g, g', x, j, c, ext, ext', l);
    }
  }

  /** Nobody below `x` survives it: a live lifetime has only live parents, or ones still ending. */
  lemma {:induction false} NoneSurvives(g: Graph, x: Lifetime, stack: set<Lifetime>, y: Lifetime)
    requires Inv(g, stack) && x in g && g[x].terminated && x !in stack
    requires forall s :: s in stack ==> s.id < x.id
    requires y in g && Below(x, y)
    ensures g[y].terminated
    decreases y.id
  {
    if x != y && !g[y].terminated {
      var p :| p in y.parents && p.id < y.id && Below(x, p);
      BelowIsLater(x, p);
      NoneSurvives(g, x, stack, p);
      assert false;
    }
  }

  lemma LeaveInv(g0: Graph, g: Graph, x: Lifetime, stack: set<Lifetime>)
    requires Inv(g0, stack) && Alive(g0, x) && x !in stack
    requires g.Keys == g0.Keys && Inv(g, stack + {x}) && SnapshotAt(g, x, g0[x].actions, 0)
    requires forall l :: l in g0 ==> (g0[l].terminated ==> g[l].terminated)
    ensures Inv(g[x := Node(true, [])], stack)
    ensures forall p :: p in g && Alive(g, p) ==> TerminateChild(x) !in g[p].actions
  {
    var g' := g[x := Node(true, [])];
    forall p | p in g && Alive(g, p)
      ensures TerminateChild(x) !in g[p].actions
    {
      LeftBehind(g0[x].actions, g, x, stack, p);
    }
    forall l | l in g && x in l.parents
      ensures !Alive(g, l)
    {
      assert Alive(g0, l) ==> TerminateChild(l) in g0[x].actions;
    }
    hide SnapshotAt;
    forall l | l in g'
      ensures Tidy(g', stack, l)
    {
      LeaveTidy(g, x, stack, l);
    }
  }

  /** Every parent of `x` has taken its entry for `x` off its list, and nobody else had one. */
  lemma LeftBehind(s: seq<Action>, g: Graph, x: Lifetime, stack: set<Lifetime>, p: Lifetime)
    requires Hooked(x, s) && SnapshotAt(g, x, s, 0)
    requires p in g && Alive(g, p) && Tidy(g, stack + {x}, p)
    ensures TerminateChild(x) !in g[p].actions
  {
    if k :| 0 <= k < |x.parents| && x.parents[k] == p {
      assert s[k] == Unhook(p, x);
    } else {
      assert !Entitled(g, stack + {x}, p, x);
    }
  }

  lemma LeaveTidy(g: Graph, x: Lifetime, stack: set<Lifetime>, l: Lifetime)
    requires x in g && g[x].terminated && x !in stack
    requires l in g && Tidy(g, stack + {x}, l)
    requires Alive(g, l) ==> TerminateChild(x) !in g[l].actions && x !in l.parents
    ensures Tidy(g[x := Node(true, [])], stack, l)
  {
    hide Ascending, Hooked;
    var g' := g[x := Node(true, [])];
    if Alive(g, l) {
      forall a | a in g[l].actions && a.TerminateChild?
        ensures Entitled(g', stack, l, a.child)
      {
        assert Entitled(g, stack + {x}, l, a.child);
      }
    }
  }

  lemma LeaveEnds(g0: Graph, g': Graph, x: Lifetime, stack: set<Lifetime>, l: Lifetime)
    requires g'.Keys == g0.Keys && Inv(g', stack) && x in g' && g'[x].terminated
    requires forall s :: s in stack ==> s.id < x.id
    requires l in g0 && (g0[l].terminated ==> g'[l].terminated)
    requires l in Newly(g0, g') ==> Below(x, l)
    ensures g'[l].terminated <==> g0[l].terminated || Below(x, l)
  {
    if Below(x, l) {
      NoneSurvives(g', x, stack, l);
    }
  }

  lemma LeavePruned(g0: Graph, g: Graph, x: Lifetime, l: Lifetime)
    requires l in g0 && l in g && Pruned(g0, g, x, l) && TerminateChild(x) !in g[l].actions
    ensures g[l].actions == Prune(g0[l].actions, Newly(g0, g))
  {
    if g[l].actions == Prune(g0[l].actions, Newly(g0, g) - {x}) {
      PruneOneMore(g0[l].actions, Newly(g0, g), x);
    }
  }

  lemma Leave(g0: Graph, g: Graph, x: Lifetime, stack: set<Lifetime>, ext: seq<Entry>)
    requires Midway(g0, g, x, 0, ext) && x in Newly(g0, g)
    requires forall s :: s in stack ==> s.id < x.id
    requires Inv(g[x := Node(true, [])], stack)
    requires forall p :: p in g && Alive(g, p) ==> TerminateChild(x) !in g[p].actions
    ensures Ended(g0, g[x := Node(true, [])], x, ext)
  {
    hide Inv, InBlocks, Below, SnapshotAt;
    var g' := g[x := Node(true, [])];
    assert Newly(g0, g') == Newly(g0, g);
    forall l | l in g0
      ensures g'[l].terminated <==> g0[l].terminated || Below(x, l)
    {
      LeaveEnds(g0, g', x, stack, l);
    }
    forall l | l in g0 && Alive(g', l)
      ensures g'[l].actions == Prune(g0[l].actions, Newly(g0, g'))
    {
      LeavePruned(g0, g, x, l);
    }
    assert g0[x].actions[0..] == g0[x].actions;
    forall l | l in g0
      ensures OwnedBy(ext, l) == if Alive(g0, l) && Below(x, l) then UsersLastFirst(g0[l].actions) else []
    {
      assert OwnedBy(ext, l) == RunSoFar(g0, g, x, 0, l);
    }
  }

  /** Editing the list of a lifetime that is already dead is of no consequence. */
  lemma DeadInv(g: Graph, stack: set<Lifetime>, p: Lifetime, t: seq<Action>)
    requires Inv(g, stack) && p in g && g[p].terminated && (p !in stack ==> t == [])
    ensures Inv(g[p := Node(true, t)], stack)
  {
    var g' := g[p := Node(true, t)];
    forall l, a | l in g' && Alive(g', l) && a in g'[l].actions && a.TerminateChild?
      ensures Entitled(g', stack, l, a.child)
    {
      assert Entitled(g, stack, l, a.child);
    }
  }

  lemma StepUnhookDead(g0: Graph, g: Graph, x: Lifetime, j: nat, ext: seq<Entry>, p: Lifetime, t: seq<Action>)
    requires 0 < j && Midway(g0, g, x, j, ext) && g0[x].actions[j - 1] == Unhook(p, x)
    requires p in g && g[p].terminated
    ensures Midway(g0, g[p := Node(true, t)], x, j - 1, ext)
  {
    hide Below, Prune, OwnedBy;
    var g' := g[p := Node(true, t)];
    var s := g0[x].actions;
    assert s[j - 1..][1..] == s[j..];
    AddBlock(g0, x, s[j - 1..], ext, []);
    assert ext + [] == ext;
    assert Newly(g0, g') == Newly(g0, g);
    assert SnapshotAt(g', x, g0[x].actions, j - 1);
    forall l | l in g0 && Alive(g', l)
      ensures Pruned(g0, g', x, l)
    {
      assert Pruned(g0, g, x, l);
    }
    forall l | l in g0
      ensures OwnedBy(ext, l) == RunSoFar(g0, g', x, j - 1, l)
    {
      assert OwnedBy(ext, l) == RunSoFar(g0, g, x, j, l);
    }
  }

  /** What the entry at `j - 1` of the snapshot of `x` can be. */
  lemma NextAction(g0: Graph, g: Graph, x: Lifetime, stack: set<Lifetime>, j: nat, ext: seq<Entry>)
    requires Inv(g0, stack) && 0 < j && Midway(g0, g, x, j, ext)
    requires forall s :: s in stack ==> s.id < x.id
    ensures var a := g0[x].actions[j - 1];
      && (a.Unhook? ==> a.owner == x && a.parent in g && a.parent != x)
      && (a.TerminateChild? ==> Alive(g, a.child) && a.child.id > x.id && Below(x, a.child))
  {
    var a := g0[x].actions[j - 1];
    assert a in g0[x].actions;
    assert Hooked(x, g0[x].actions);
    if a.TerminateChild? {
      assert Entitled(g0, stack, x, a.child);
      assert Below(x, x);
    }
  }

  lemma InvLists(g: Graph, stack: set<Lifetime>, l: Lifetime)
    requires Inv(g, stack) && l in g
    ensures Alive(g, l) ==> Ascending(g[l].actions)
    ensures g[l].terminated && l !in stack ==> g[l].actions == []
  {
  }

  lemma MidwayFacts(g0: Graph, g: Graph, x: Lifetime, j: nat, ext: seq<Entry>)
    requires Midway(g0, g, x, j, ext)
    ensures Alive(g0, x) && j <= |g0[x].actions| && g.Keys == g0.Keys && SnapshotAt(g, x, g0[x].actions, j)
    ensures forall l :: l in g0 ==> (g0[l].terminated ==> g[l].terminated)
  {
  }

  lemma EndedFacts(g0: Graph, g: Graph, x: Lifetime, ext: seq<Entry>)
    requires Ended(g0, g, x, ext)
    ensures g.Keys == g0.Keys
    ensures forall l :: l in g0 && g0[l].terminated ==> g[l].terminated
  {
  }

  // ---------------------------------------------------------------------------
  // What a call of terminate does, whatever the lists are

  /** The lifetimes and the journal after a call, and how the call ended. */
  datatype Effect = Effect(g: Graph, log: seq<Entry>, r: Outcome)

  /** The entries of a list of `x` point into `all`: terminate entries to later lifetimes. */
  ghost predicate OrderedList(all: set<Lifetime>, x: Lifetime, s: seq<Action>)
  {
    forall a :: a in s ==>
      && (a.TerminateChild? ==> a.child in all && a.child.id > x.id)
      && (a.Unhook? ==> a.parent in all)
  }

  ghost predicate Ordered(g: Graph)
  {
    forall l :: l in g ==> OrderedList(g.Keys, l, g[l].actions)
  }

  lemma OrderedAt(g: Graph, x: Lifetime)
    requires Ordered(g) && x in g
    ensures OrderedList(g.Keys, x, g[x].actions)
  {
  }

  lemma OrderedFlag(g: Graph, x: Lifetime)
    requires Ordered(g) && x in g
    ensures Ordered(g[x := Node(true, g[x].actions)])
  {
  }

  lemma OrderedOne(all: set<Lifetime>, x: Lifetime, s: seq<Action>, i: nat)
    requires OrderedList(all, x, s) && i < |s|
    ensures OrderedList(all, x, [s[i]])
  {
  }

  lemma {:induction false} RemoveFirstKeeps(s: seq<Action>, a: Action)
    ensures forall b :: b in RemoveFirst(s, a) ==> b in s
  {
    if s != [] && s[0] != a {
      RemoveFirstKeeps(s[1..], a);
    }
  }

  /** The same lifetimes, and what had ended has ended. */
  ghost predicate NoneRevived(g: Graph, g': Graph)
  {
    g'.Keys == g.Keys && forall l :: l in g && g[l].terminated ==> g'[l].terminated
  }

  /** `terminate`, as a function of all lists: an exception leaves everything as it stands at that moment. */
  ghost function Exec(g: Graph, log: seq<Entry>, x: Lifetime): (e: Effect)
    requires Ordered(g) && x in g
    ensures Ordered(e.g) && NoneRevived(g, e.g) && e.r != AlreadyTerminated
    decreases Later(g.Keys, x.id), 2
  {
    if g[x].terminated then Effect(g, log, TerminatedSeveralTimes)
    else
      Loop(g[x := Node(true, g[x].actions)], log, x, g[x].actions, |g[x].actions|)
  }

  /** The loop of `terminate` over the first `j` entries of the snapshot `s`, last one first. */
  ghost function Loop(g: Graph, log: seq<Entry>, x: Lifetime, s: seq<Action>, j: nat): (e: Effect)
    requires Ordered(g) && x in g && j <= |s| && OrderedList(g.Keys, x, s)
    ensures Ordered(e.g) && NoneRevived(g, e.g) && e.r != AlreadyTerminated
    decreases Later(g.Keys, x.id), 1, j
  {
    if j == 0 then Effect(g[x := Node(true, [])], log, Done)
    else
      var e := RunOne(g, log, x, s[j - 1]);
      if e.r != Done then e else Loop(e.g, e.log, x, s, j - 1)
  }

  /** What is left when the entry for `owner` is taken off the list of `p`. */
  ghost function Unhooked(g: Graph, log: seq<Entry>, p: Lifetime, owner: Lifetime): Effect
    requires p in g
  {
    Effect(g[p := Node(g[p].terminated, RemoveFirst(g[p].actions, TerminateChild(owner)))], log, Done)
  }

  /** One call of a stored closure. */
  ghost function RunOne(g: Graph, log: seq<Entry>, x: Lifetime, a: Action): (e: Effect)
    requires Ordered(g) && x in g && OrderedList(g.Keys, x, [a])
    ensures Ordered(e.g) && NoneRevived(g, e.g) && e.r != AlreadyTerminated
    decreases Later(g.Keys, x.id), 0
  {
    assert a in [a];
    match a
    case User(n) => Effect(g, log + [Entry(x, n)], Done)
    case Unhook(p, owner) =>
      RemoveFirstKeeps(g[p].actions, TerminateChild(owner));
      Unhooked(g, log, p, owner)
    case TerminateChild(c) => LaterShrinks(g.Keys, x.id, c); Exec(g, log, c)
  }

  lemma ExecRefuses(g: Graph, log: seq<Entry>, x: Lifetime)
    requires Ordered(g) && x in g && g[x].terminated
    ensures Exec(g, log, x) == Effect(g, log, TerminatedSeveralTimes)
  {
  }

  /** The first `j` entries of the snapshot `s` of `x` are still to run, and in the end there will be `goal`. */
  ghost predicate Pending(g: Graph, log: seq<Entry>, x: Lifetime, s: seq<Action>, j: nat, goal: Effect)
  {
    && Ordered(g) && x in g && g[x].terminated && j <= |s| && OrderedList(g.Keys, x, s)
    && Loop(g, log, x, s, j) == goal
  }

  /** How `terminate` begins. */
  lemma EnterExec(g: Graph, log: seq<Entry>, x: Lifetime)
    requires Ordered(g) && Alive(g, x)
    ensures var s := g[x].actions;
      Pending(g[x := Node(true, s)], log, x, s, |s|, Exec(g, log, x))
  {
    hide Loop;
    OrderedAt(g, x);
    OrderedFlag(g, x);
  }

  /** How its loop goes on. */
  lemma LoopNext(g: Graph, log: seq<Entry>, x: Lifetime, s: seq<Action>, j: nat, goal: Effect)
    requires Pending(g, log, x, s, j, goal) && 0 < j
    ensures j <= |s| && x in g && Ordered(g) && OrderedList(g.Keys, x, [s[j - 1]])
    ensures var e := RunOne(g, log, x, s[j - 1]);
      if e.r == Done then Pending(e.g, e.log, x, s, j - 1, goal) else e == goal
  {
    hide RunOne, Ordered;
    OrderedOne(g.Keys, x, s, j - 1);
  }

  /** And how it ends. */
  lemma LoopDone(g: Graph, log: seq<Entry>, x: Lifetime, s: seq<Action>, goal: Effect)
    requires Pending(g, log, x, s, 0, goal)
    ensures goal == Effect(g[x := Node(true, [])], log, Done) && x in g && g[x].terminated
  {
  }

  /** In order, between operations, the lists point where they should. */
  lemma InvOrdered(g: Graph)
    requires Inv(g, {})
    ensures Ordered(g)
  {
    forall l | l in g
      ensures OrderedList(g.Keys, l, g[l].actions)
    {
      forall a | a in g[l].actions
        ensures a.TerminateChild? ==> a.child in g && a.child.id > l.id
        ensures a.Unhook? ==> a.parent in g
      {
        if a.TerminateChild? {
          assert Entitled(g, {}, l, a.child) && Tidy(g, {}, a.child);
        }
      }
    }
  }

  /** In order, `terminate` completes and ends what it should, inside any terminations of earlier lifetimes. */
  lemma {:induction false} ExecEnds(g0: Graph, log0: seq<Entry>, x: Lifetime, stack: set<Lifetime>)
    requires Ordered(g0) && Inv(g0, stack) && Alive(g0, x) && forall s :: s in stack ==> s.id < x.id
    ensures var e := Exec(g0, log0, x);
      e.r == Done && Inv(e.g, stack) && log0 <= e.log && Ended(g0, e.g, x, e.log[|log0|..])
    decreases Later(g0.Keys, x.id), 2
  {
    hide Inv, Midway, Ended, Loop;
    var s := g0[x].actions;
    Enter(g0, x, stack);
    InvLists(g0, stack, x);
    assert log0[|log0|..] == [];
    LoopEnds(g0, g0[x := Node(true, s)], log0, log0, x, stack, |s|);
  }

  /** If the lists were in order and `x` live, the call completed, and they are in order again. */
  ghost predicate EndsInOrder(g: Graph, log: seq<Entry>, x: Lifetime, e: Effect)
  {
    Inv(g, {}) && Alive(g, x) ==>
      e.r == Done && Inv(e.g, {}) && log <= e.log && Ended(g, e.g, x, e.log[|log|..])
  }

  lemma ExecInOrder(g: Graph, log: seq<Entry>, x: Lifetime)
    requires Ordered(g) && x in g
    ensures EndsInOrder(g, log, x, Exec(g, log, x))
  {
    hide Inv, Ended, Exec;
    if Inv(g, {}) && Alive(g, x) {
      ExecEnds(g, log, x, {});
    }
  }

  /** Where the loop of `terminate` on `x` stands, when `j` entries of its snapshot are still to run. */
  ghost predicate Along(g0: Graph, log0: seq<Entry>, x: Lifetime, stack: set<Lifetime>, e: Effect, j: nat)
  {
    && e.r == Done && log0 <= e.log && e.g.Keys == g0.Keys && x in e.g && e.g[x].terminated
    && Inv(e.g, stack + {x}) && Midway(g0, e.g, x, j, e.log[|log0|..])
  }

  lemma {:induction false} LoopEnds(g0: Graph, g: Graph, log0: seq<Entry>, log: seq<Entry>,
                                    x: Lifetime, stack: set<Lifetime>, j: nat)
    requires Inv(g0, stack) && Alive(g0, x) && Ascending(g0[x].actions) && OrderedList(g0.Keys, x, g0[x].actions)
    requires forall s :: s in stack ==> s.id < x.id
    requires Ordered(g) && j <= |g0[x].actions| && Along(g0, log0, x, stack, Effect(g, log, Done), j)
    ensures var e := Loop(g, log, x, g0[x].actions, j);
      e.r == Done && Inv(e.g, stack) && log0 <= e.log && Ended(g0, e.g, x, e.log[|log0|..])
    decreases Later(g0.Keys, x.id), 1, j
  {
    hide Inv, Midway, Ended;
    var ext := log[|log0|..];
    if j == 0 {
      MidwayFacts(g0, g, x, j, ext);
      LeaveInv(g0, g, x, stack);
      MidwayNewly(g0, g, x, j, ext);
      Leave(g0, g, x, stack, ext);
    } else {
      RunOneSteps(g0, g, log0, log, x, stack, j);
      var e := RunOne(g, log, x, g0[x].actions[j - 1]);
      LoopEnds(g0, e.g, log0, e.log, x, stack, j - 1);
    }
  }

  /** Each entry of the snapshot runs without error and advances the loop. */
  lemma {:induction false} RunOneSteps(g0: Graph, g: Graph, log0: seq<Entry>, log: seq<Entry>,
                                       x: Lifetime, stack: set<Lifetime>, j: nat)
    requires Inv(g0, stack) && Alive(g0, x) && Ascending(g0[x].actions) && OrderedList(g0.Keys, x, g0[x].actions)
    requires forall s :: s in stack ==> s.id < x.id
    requires Ordered(g) && 0 < j <= |g0[x].actions| && Along(g0, log0, x, stack, Effect(g, log, Done), j)
    ensures Along(g0, log0, x, stack, RunOne(g, log, x, g0[x].actions[j - 1]), j - 1)
    decreases Later(g0.Keys, x.id), 0
  {
    var a, ext := g0[x].actions[j - 1], log[|log0|..];
    AlongFacts(g0, g, log0, log, x, stack, j);
    hide Inv, Midway, Ended, Exec, RunOne, Along;
    NextAction(g0, g, x, stack, j, ext);
    assert a in g0[x].actions;
    RunOneIs(g, log, x, a);
    match a
    case User(n) =>
      UserStep(g0, g, log0, log, x, stack, j);
    case TerminateChild(c) =>
      LaterShrinks(g0.Keys, x.id, c);
      ExecEnds(g, log, c, stack + {x});
      ChildStep(g0, g, log0, log, x, stack, j, c, Exec(g, log, c));
    case Unhook(p, owner) =>
      UnhookStep(g0, g, log0, log, x, stack, j, p);
  }

  lemma AlongFacts(g0: Graph, g: Graph, log0: seq<Entry>, log: seq<Entry>, x: Lifetime, stack: set<Lifetime>, j: nat)
    requires Along(g0, log0, x, stack, Effect(g, log, Done), j)
    ensures log0 <= log && g.Keys == g0.Keys && x in g && g[x].terminated && Inv(g, stack + {x})
    ensures Midway(g0, g, x, j, log[|log0|..]) && x in Newly(g0, g)
  {
  }

  lemma UserStep(g0: Graph, g: Graph, log0: seq<Entry>, log: seq<Entry>, x: Lifetime, stack: set<Lifetime>, j: nat)
    requires Along(g0, log0, x, stack, Effect(g, log, Done), j)
    requires Alive(g0, x) && 0 < j <= |g0[x].actions| && g0[x].actions[j - 1].User?
    ensures Along(g0, log0, x, stack, Effect(g, log + [Entry(x, g0[x].actions[j - 1].id)], Done), j - 1)
  {
    hide Inv, Midway;
    var e := Entry(x, g0[x].actions[j - 1].id);
    StepUser(g0, g, x, j, log[|log0|..]);
    assert (log + [e])[|log0|..] == log[|log0|..] + [e];
  }

  lemma ChildStep(g0: Graph, g: Graph, log0: seq<Entry>, log: seq<Entry>, x: Lifetime, stack: set<Lifetime>, j: nat,
                  c: Lifetime, e: Effect)
    requires Along(g0, log0, x, stack, Effect(g, log, Done), j)
    requires Alive(g0, x) && 0 < j <= |g0[x].actions| && g0[x].actions[j - 1] == TerminateChild(c)
    requires Ascending(g0[x].actions) && c.id > x.id && Below(x, c) && Alive(g, c)
    requires e.r == Done && log <= e.log && Inv(e.g, stack + {x}) && Ended(g, e.g, c, e.log[|log|..])
    ensures Along(g0, log0, x, stack, e, j - 1)
  {
    hide *;
    AlongFacts(g0, g, log0, log, x, stack, j);
    LogSplit(log0, log, e.log);
    ChildMidway(g0, g, e.g, x, j, log[|log0|..], c, e.log[|log|..]);
    AlongAgain(g0, log0, x, stack, e, j - 1);
  }

  lemma ChildMidway(g0: Graph, g: Graph, g': Graph, x: Lifetime, j: nat,
                    ext: seq<Entry>, c: Lifetime, ext': seq<Entry>)
    requires 0 < j && Midway(g0, g, x, j, ext) && Ascending(g0[x].actions) && x in Newly(g0, g)
    requires g0[x].actions[j - 1] == TerminateChild(c) && c.id > x.id && Below(x, c)
    requires Alive(g, c) && Ended(g, g', c, ext')
    ensures Midway(g0, g', x, j - 1, ext + ext') && g'.Keys == g0.Keys && x in g' && g'[x].terminated
  {
    StepChild(g0, g, g', x, j, ext, c, ext');
    EndedFacts(g, g', c, ext');
  }

  lemma LogSplit(log0: seq<Entry>, log: seq<Entry>, log': seq<Entry>)
    requires log0 <= log <= log'
    ensures log0 <= log' && log'[|log0|..] == log[|log0|..] + log'[|log|..]
  {
  }

  lemma AlongAgain(g0: Graph, log0: seq<Entry>, x: Lifetime, stack: set<Lifetime>, e: Effect, j: nat)
    requires e.r == Done && log0 <= e.log && e.g.Keys == g0.Keys && x in e.g && e.g[x].terminated
    requires Inv(e.g, stack + {x}) && Midway(g0, e.g, x, j, e.log[|log0|..])
    ensures Along(g0, log0, x, stack, e, j)
  {
  }

  lemma UnhookStep(g0: Graph, g: Graph, log0: seq<Entry>, log: seq<Entry>, x: Lifetime, stack: set<Lifetime>, j: nat,
                   p: Lifetime)
    requires Along(g0, log0, x, stack, Effect(g, log, Done), j)
    requires Alive(g0, x) && 0 < j <= |g0[x].actions| && g0[x].actions[j - 1] == Unhook(p, x) && p in g && p != x
    ensures var t := RemoveFirst(g[p].actions, TerminateChild(x));
      Along(g0, log0, x, stack, Effect(g[p := Node(g[p].terminated, t)], log, Done), j - 1)
  {
    AlongFacts(g0, g, log0, log, x, stack, j);
    hide Inv, Midway;
    var ext := log[|log0|..];
    InvLists(g, stack + {x}, p);
    var t := RemoveFirst(g[p].actions, TerminateChild(x));
    if g[p].terminated {
      StepUnhookDead(g0, g, x, j, ext, p, t);
      DeadInv(g, stack + {x}, p, t);
    } else {
      RemoveIsPrune(g[p].actions, x);
      UnhookInv(g, stack + {x}, x, p);
      StepUnhook(g0, g, x, j, ext, p);
    }
  }

  lemma RunOneIs(g: Graph, log: seq<Entry>, x: Lifetime, a: Action)
    requires Ordered(g) && x in g && OrderedList(g.Keys, x, [a])
    ensures a.User? ==> RunOne(g, log, x, a) == Effect(g, log + [Entry(x, a.id)], Done)
    ensures a.TerminateChild? ==>
      a.child in g && a.child.id > x.id && RunOne(g, log, x, a) == Exec(g, log, a.child)
    ensures a.Unhook? ==> a.parent in g && RunOne(g, log, x, a) == Unhooked(g, log, a.parent, a.owner)
  {
    assert a in [a];
  }

  lemma MidwayNewly(g0: Graph, g: Graph, x: Lifetime, j: nat, ext: seq<Entry>)
    requires Midway(g0, g, x, j, ext) && x in g && g[x].terminated
    ensures x in Newly(g0, g)
  {
  }

  ghost function Snapshot(all: set<Lifetime>): Graph
    reads all
  {
    map l | l in all :: Node(l.isTerminated, l.actions)
  }

  /** The unhook entries of a lifetime that was just made. */
  ghost function Unhooks(ps: seq<Lifetime>, c: Lifetime): seq<Action>
  {
    seq(|ps|, k requires 0 <= k < |ps| => Unhook(ps[k], c))
  }

  /** The entries for `c` that go to `l` when `c` is registered on each of `ps`, one per occurrence. */
  ghost function Entered(ps: seq<Lifetime>, l: Lifetime, c: Lifetime): seq<Action>
  {
    if ps == [] then []
    else Entered(ps[..|ps| - 1], l, c) + (if ps[|ps| - 1] == l then [TerminateChild(c)] else [])
  }

  /** `g` with `c` registered on each of `ps`, where a parent may occur several times. */
  ghost function AttachEach(g: Graph, ps: seq<Lifetime>, c: Lifetime): Graph
  {
    map l | l in g :: Node(g[l].terminated, g[l].actions + Entered(ps, l, c))
  }

  /** `g` with `c` registered on each lifetime of `ps`, once. */
  ghost function Attach(g: Graph, ps: seq<Lifetime>, c: Lifetime): Graph
  {
    map l | l in g :: if l in ps then Node(g[l].terminated, g[l].actions + [TerminateChild(c)]) else g[l]
  }

  lemma UnhooksMore(ps: seq<Lifetime>, p: Lifetime, c: Lifetime)
    ensures Unhooks(ps + [p], c) == Unhooks(ps, c) + [Unhook(p, c)]
  {
  }

  /** The parents that `create` reaches: it stops at the first one that has ended. */
  ghost function Reached(g: Graph, ps: seq<Lifetime>): seq<Lifetime>
  {
    if ps == [] || !Alive(g, ps[0]) then [] else [ps[0]] + Reached(g, ps[1..])
  }

  lemma {:induction false} ReachedIsPrefix(g: Graph, ps: seq<Lifetime>)
    ensures |Reached(g, ps)| <= |ps| && Reached(g, ps) == ps[..|Reached(g, ps)|]
    ensures forall p :: p in Reached(g, ps) ==> Alive(g, p)
    ensures |Reached(g, ps)| < |ps| ==> !Alive(g, ps[|Reached(g, ps)|])
    ensures |Reached(g, ps)| == |ps| <==> forall p :: p in ps ==> Alive(g, p)
  {
    if ps != [] && Alive(g, ps[0]) {
      ReachedIsPrefix(g, ps[1..]);
    }
  }

  ghost predicate Distinct(ps: seq<Lifetime>)
  {
    forall i, j :: 0 <= i < j < |ps| ==> ps[i] != ps[j]
  }

  lemma {:induction false} EnteredOnce(ps: seq<Lifetime>, l: Lifetime, c: Lifetime)
    requires Distinct(ps)
    ensures Entered(ps, l, c) == if l in ps then [TerminateChild(c)] else []
  {
    if ps != [] {
      EnteredOnce(ps[..|ps| - 1], l, c);
      assert ps == ps[..|ps| - 1] + [ps[|ps| - 1]];
    }
  }

  /** Distinct parents get one entry each. */
  lemma EachIsOnce(g: Graph, ps: seq<Lifetime>, c: Lifetime)
    requires Distinct(ps)
    ensures AttachEach(g, ps, c) == Attach(g, ps, c)
  {
    forall l | l in g
      ensures AttachEach(g, ps, c)[l] == Attach(g, ps, c)[l]
    {
      EnteredOnce(ps, l, c);
    }
  }

  lemma AttachNone(g: Graph, c: Lifetime)
    ensures AttachEach(g, [], c) == g
  {
    assert forall l :: l in g ==> g[l].actions + [] == g[l].actions;
  }

  /** One parent more gets one entry more. */
  lemma AttachMore(g: Graph, ps: seq<Lifetime>, p: Lifetime, c: Lifetime)
    requires p in g
    ensures var g1 := AttachEach(g, ps, c);
      && g1.Keys == g.Keys && g1[p].terminated == g[p].terminated
      && AttachEach(g, ps + [p], c) == g1[p := Node(g1[p].terminated, g1[p].actions + [TerminateChild(c)])]
  {
    var g1 := AttachEach(g, ps, c);
    assert (ps + [p])[..|ps|] == ps;
    forall l | l in g
      ensures AttachEach(g, ps + [p], c)[l] == g1[p := Node(g1[p].terminated, g1[p].actions + [TerminateChild(c)])][l]
    {
      var s, t := g[l].actions, Entered(ps, l, c);
      assert s + (t + []) == s + t;
      assert s + (t + [TerminateChild(c)]) == (s + t) + [TerminateChild(c)];
    }
  }

  /** One entry per occurrence. */
  lemma {:induction false} EnteredCount(ps: seq<Lifetime>, l: Lifetime, c: Lifetime)
    ensures |Entered(ps, l, c)| == multiset(ps)[l]
    ensures forall k :: 0 <= k < |Entered(ps, l, c)| ==> Entered(ps, l, c)[k] == TerminateChild(c)
  {
    if ps != [] {
      EnteredCount(ps[..|ps| - 1], l, c);
      assert ps == ps[..|ps| - 1] + [ps[|ps| - 1]];
    }
  }

  lemma CountedTwice(ps: seq<Lifetime>, i: nat, j: nat)
    requires i < j < |ps| && ps[i] == ps[j]
    ensures multiset(ps)[ps[i]] >= 2
  {
    assert ps == ps[..j] + [ps[j]] + ps[j + 1..];
    assert ps[i] in ps[..j];
  }

  /** Creation under live parents keeps the invariant if and only if no parent is named twice. */
  lemma CreateIffDistinct(g: Graph, c: Lifetime)
    requires Inv(g, {}) && c !in g
    requires forall l :: l in g ==> l.id < c.id
    requires forall p :: p in c.parents ==> p in g && Alive(g, p)
    ensures Inv(AttachEach(g, c.parents, c)[c := Node(false, Unhooks(c.parents, c))], {}) <==> Distinct(c.parents)
  {
    var ps := c.parents;
    var g' := AttachEach(g, ps, c)[c := Node(false, Unhooks(ps, c))];
    if Distinct(ps) {
      EachIsOnce(g, ps, c);
      CreateKeepsInv(g, c);
    } else {
      var i, j :| 0 <= i < j < |ps| && ps[i] == ps[j];
      var p, n := ps[i], |g[ps[i]].actions|;
      CountedTwice(ps, i, j);
      EnteredCount(ps, p, c);
      assert p in g' && Alive(g', p);
      assert g'[p].actions[n] == TerminateChild(c) && g'[p].actions[n + 1] == TerminateChild(c);
      assert !Ascending(g'[p].actions);
      assert !Tidy(g', {}, p);
    }
  }

  lemma CreateKeepsInv(g: Graph, c: Lifetime)
    requires Inv(g, {}) && c !in g && Distinct(c.parents)
    requires forall l :: l in g ==> l.id < c.id
    requires forall p :: p in c.parents ==> p in g && Alive(g, p)
    ensures Inv(Attach(g, c.parents, c)[c := Node(false, Unhooks(c.parents, c))], {})
  {
    var g1 := Attach(g, c.parents, c);
    var g' := g1[c := Node(false, Unhooks(c.parents, c))];
    forall l, a | l in g' && Alive(g', l) && a in g'[l].actions && a.TerminateChild?
      ensures Entitled(g', {}, l, a.child)
    {
      assert l != c;
      assert a in g[l].actions ==> Entitled(g, {}, l, a.child);
    }
    forall l | l in g && Alive(g, l)
      ensures Ascending(g[l].actions + [TerminateChild(c)]) && Hooked(l, g[l].actions + [TerminateChild(c)])
    {
      assert Hooked(l, g[l].actions);
      forall i | 0 <= i < |g[l].actions| && g[l].actions[i].TerminateChild?
        ensures g[l].actions[i].child.id < c.id
      {
        assert g[l].actions[i] in g[l].actions;
        assert Entitled(g, {}, l, g[l].actions[i].child);
      }
    }
  }

  lemma RegisterKeepsInv(g: Graph, l: Lifetime, n: int)
    requires Inv(g, {}) && l in g && Alive(g, l)
    ensures Inv(g[l := Node(false, g[l].actions + [User(n)])], {})
  {
    var g' := g[l := Node(false, g[l].actions + [User(n)])];
    forall m, a | m in g' && Alive(g', m) && a in g'[m].actions && a.TerminateChild?
      ensures Entitled(g', {}, m, a.child)
    {
      assert a in g[m].actions;
      assert Entitled(g, {}, m, a.child);
    }
  }

  /**
    Between top-level operations: a live list holds exactly one terminate entry for each live child,
    in creation order, and one unhook entry for each parent, in registration order, before all else;
    all parents are alive; and nothing that has ended is on any live list.
   */
  lemma BetweenOperations(g: Graph, l: Lifetime)
    requires Inv(g, {}) && l in g && Alive(g, l)
    ensures forall c :: c in g ==> (Alive(g, c) && l in c.parents <==> TerminateChild(c) in g[l].actions)
    ensures forall i, j :: 0 <= i < j < |g[l].actions| && g[l].actions[i].TerminateChild? ==>
              g[l].actions[i] != g[l].actions[j]
    ensures Ascending(g[l].actions)
    ensures forall p :: p in l.parents ==> p in g && Alive(g, p)
    ensures Unhooks(l.parents, l) <= g[l].actions
    ensures forall k :: |l.parents| <= k < |g[l].actions| ==> !g[l].actions[k].Unhook?
  {
    forall c | c in g && TerminateChild(c) in g[l].actions
      ensures Alive(g, c) && l in c.parents
    {
      assert Entitled(g, {}, l, c);
    }
    assert Ascending(g[l].actions) && Hooked(l, g[l].actions);
  }

  ghost function Entries(x: Lifetime, ids: seq<int>): seq<Entry>
  {
    seq(|ids|, i requires 0 <= i < |ids| => Entry(x, ids[i]))
  }

  /** A lifetime without children writes its own user actions, last registered first. */
  lemma {:induction false} Childless(g: Graph, x: Lifetime, s: seq<Action>, ext: seq<Entry>)
    requires InBlocks(g, x, s, ext) && forall a :: a in s ==> !a.TerminateChild?
    ensures ext == Entries(x, UsersLastFirst(s))
    decreases |s|
  {
    if s != [] {
      var rest := Unblock(g, x, s, ext);
      Childless(g, x, s[1..], rest);
      assert s[0] in s;
      assert ext == rest + ext[|rest|..];
    }
  }

  lemma {:induction false} NoUsers(s: seq<Action>)
    requires forall a :: a in s ==> a.Unhook?
    ensures UsersLastFirst(s) == []
  {
    if s != [] {
      assert s[0] in s;
      NoUsers(s[1..]);
    }
  }

  lemma {:induction false} PruneLast(s: seq<Action>, c: Lifetime)
    ensures Prune(s + [TerminateChild(c)], {c}) == Prune(s, {c})
  {
    if s == [] {
    } else {
      assert (s + [TerminateChild(c)])[1..] == s[1..] + [TerminateChild(c)];
      PruneLast(s[1..], c);
    }
  }

  /** Terminating a lifetime that has no children yet undoes its creation, for everyone else. */
  lemma CreateThenTerminate(g: Graph, g1: Graph, g': Graph, c: Lifetime, ext: seq<Entry>)
    requires Inv(g, {}) && c !in g && forall l :: l in g ==> l.id < c.id
    requires g1 == Attach(g, c.parents, c)[c := Node(false, Unhooks(c.parents, c))]
    requires Ended(g1, g', c, ext)
    ensures ext == []
    ensures forall l :: l in g ==> g'[l].terminated == g[l].terminated
    ensures forall l :: l in g && Alive(g, l) ==> g'[l].actions == g[l].actions
  {
    assert InBlocks(g1, c, g1[c].actions, ext);
    NothingRuns(g1, c, ext);
    EndsAlone(g, g1, g', c, ext);
    forall l | l in g && Alive(g, l)
      ensures g'[l].actions == g[l].actions
    {
      hide Attach, Unhooks, Ended, InBlocks;
      InvTidy(g, {}, l);
      RestoredList(g, l, c);
      AttachedList(g, c, l);
    }
  }

  lemma AttachedList(g: Graph, c: Lifetime, l: Lifetime)
    requires l in g && c !in g
    ensures var g1 := Attach(g, c.parents, c)[c := Node(false, Unhooks(c.parents, c))];
      l in g1 && (g1[l].actions == g[l].actions || g1[l].actions == g[l].actions + [TerminateChild(c)])
  {
  }

  /** Nothing is below a lifetime that was made last. */
  lemma EndsAlone(g: Graph, g1: Graph, g': Graph, c: Lifetime, ext: seq<Entry>)
    requires c !in g && forall l :: l in g ==> l.id < c.id
    requires g1.Keys == g.Keys + {c} && !g1[c].terminated && forall l :: l in g ==> g1[l].terminated == g[l].terminated
    requires Ended(g1, g', c, ext)
    ensures g'.Keys == g1.Keys && forall l :: l in g ==> g'[l].terminated == g[l].terminated
    ensures forall l :: l in g && Alive(g, l) ==> g'[l].actions == Prune(g1[l].actions, {c})
  {
    hide InBlocks, OwnedBy, Prune;
    forall l | l in g
      ensures !Below(c, l)
    {
      LaterIsNotAbove(c, l);
    }
    assert Below(c, c);
    hide Below;
    assert Newly(g1, g') == {c};
  }

  lemma LaterIsNotAbove(c: Lifetime, l: Lifetime)
    requires l.id < c.id
    ensures !Below(c, l)
  {
    if Below(c, l) {
      BelowIsLater(c, l);
    }
  }

  lemma InvTidy(g: Graph, stack: set<Lifetime>, l: Lifetime)
    requires Inv(g, stack) && l in g
    ensures Tidy(g, stack, l)
  {
  }

  lemma NothingRuns(g: Graph, c: Lifetime, ext: seq<Entry>)
    requires c in g && g[c].actions == Unhooks(c.parents, c) && InBlocks(g, c, g[c].actions, ext)
    ensures ext == []
  {
    NoUsers(g[c].actions);
    Childless(g, c, g[c].actions, ext);
  }

  lemma RestoredList(g: Graph, l: Lifetime, c: Lifetime)
    requires l in g && Alive(g, l) && Tidy(g, {}, l) && c !in g
    ensures Prune(g[l].actions, {c}) == Prune(g[l].actions + [TerminateChild(c)], {c}) == g[l].actions
  {
    PruneLast(g[l].actions, c);
    forall a | a in g[l].actions && a.TerminateChild?
      ensures a.child != c
    {
      assert Entitled(g, {}, l, a.child);
    }
    PruneNothing(g[l].actions, {c});
  }

  lemma OwnedByNobody(a: seq<Entry>, b: seq<Entry>, l: Lifetime)
    requires OwnedBy(a + b, l) != [] && forall e :: e in b ==> e.owner != l
    ensures a != []
  {
    if a == [] {
      assert a + b == b;
      OwnedByOthers(b, l);
    }
  }

  lemma {:induction false} OwnedByOthers(b: seq<Entry>, l: Lifetime)
    requires forall e :: e in b ==> e.owner != l
    ensures OwnedBy(b, l) == []
  {
    if b != [] {
      assert b[0] in b;
      OwnedByOthers(b[1..], l);
    }
  }

  /**
    The plugin's own example: `def` owns "World", "Hello" and then a child that owns "1" and "2";
    terminating `def` prints "21HelloWorld".
   */
  lemma HelloWorld(g: Graph, g': Graph, e: Lifetime, def: Lifetime, def2: Lifetime, ext: seq<Entry>,
                   world: int, hello: int)
    requires Alive(g, def) && Alive(g, def2) && def != def2 && def.id < def2.id && def2.parents == [def]
    requires g[def].actions == [Unhook(e, def), User(world), User(hello), TerminateChild(def2)]
    requires g[def2].actions == [Unhook(def, def2), User(1), User(2)]
    requires Ended(g, g', def, ext)
    ensures ext == [Entry(def2, 2), Entry(def2, 1), Entry(def, hello), Entry(def, world)]
  {
    hide Ended, OwnedBy, InBlocks, Below;
    var s, t := g[def].actions, g[def2].actions;
    EndedAt(g, g', def, ext, def2);
    ChildBelow(def, def2);
    TwoUsers(t);
    var e := HelloBlocks(g, def, def2, s, ext);
    Childless(g, def2, t, e);
  }

  lemma ChildBelow(x: Lifetime, c: Lifetime)
    requires x in c.parents && x.id < c.id
    ensures Below(x, c)
  {
    assert Below(x, x);
  }

  lemma EndedAt(g0: Graph, g: Graph, x: Lifetime, ext: seq<Entry>, l: Lifetime)
    requires Ended(g0, g, x, ext) && l in g0
    ensures x in g0 && InBlocks(g0, x, g0[x].actions, ext)
    ensures OwnedBy(ext, l) == if Alive(g0, l) && Below(x, l) then UsersLastFirst(g0[l].actions) else []
  {
  }

  lemma TwoUsers(t: seq<Action>)
    requires |t| == 3 && t[0].Unhook? && t[1].User? && t[2].User?
    ensures UsersLastFirst(t) == [t[2].id, t[1].id]
  {
    assert UsersLastFirst(t[3..]) == [];
    assert UsersLastFirst(t[1..][1..]) == [t[2].id] && UsersLastFirst(t[1..]) == [t[2].id, t[1].id];
  }

  lemma HelloBlocks(g: Graph, def: Lifetime, def2: Lifetime, s: seq<Action>, ext: seq<Entry>) returns (e3: seq<Entry>)
    requires |s| == 4 && s[0].Unhook? && s[1].User? && s[2].User? && s[3] == TerminateChild(def2)
    requires InBlocks(g, def, s, ext) && OwnedBy(ext, def2) != [] && def != def2
    ensures ext == e3 + [Entry(def, s[2].id), Entry(def, s[1].id)] && Alive(g, def2)
    ensures InBlocks(g, def2, g[def2].actions, e3)
  {
    hide OwnedBy;
    var e1 := Unblock(g, def, s, ext);
    var e2 := Unblock(g, def, s[1..], e1);
    e3 := Unblock(g, def, s[2..], e2);
    var e4 := Unblock(g, def, s[3..], e3);
    var tail := [Entry(def, s[2].id), Entry(def, s[1].id)];
    assert e4 == [] && e3[|e4|..] == e3;
    assert ext == e3 + tail by {
      assert ext == e1 + ext[|e1|..] && e1 == e2 + e1[|e2|..] && e2 == e3 + e2[|e3|..];
    }
    OwnedByNobody(e3, tail, def2);
  }

  // ---------------------------------------------------------------------------
  // A parent named twice

  /** Terminating a lifetime whose list names a child twice always fails: the child cannot end twice. */
  lemma NamedTwiceThrows(g: Graph, log: seq<Entry>, x: Lifetime, i: nat, j: nat, c: Lifetime)
    requires Ordered(g) && Alive(g, x) && i < j < |g[x].actions|
    requires g[x].actions[i] == g[x].actions[j] == TerminateChild(c)
    ensures Exec(g, log, x).r == TerminatedSeveralTimes
  {
    hide Loop;
    var s := g[x].actions;
    OrderedAt(g, x);
    OrderedFlag(g, x);
    LoopMeets(g[x := Node(true, s)], log, x, s, |s|, i, j, c);
  }

  lemma {:induction false} LoopMeets(g: Graph, log: seq<Entry>, x: Lifetime, s: seq<Action>, k: nat,
                                     i: nat, j: nat, c: Lifetime)
    requires Ordered(g) && x in g && OrderedList(g.Keys, x, s)
    requires i < j < k <= |s| && s[i] == s[j] == TerminateChild(c)
    ensures Loop(g, log, x, s, k).r != Done
    decreases k
  {
    hide RunOne, Ordered;
    OrderedOne(g.Keys, x, s, k - 1);
    RunOneIs(g, log, x, s[k - 1]);
    var e := RunOne(g, log, x, s[k - 1]);
    if e.r == Done {
      if k - 1 == j {
        ExecTerminates(g, log, c);
        LoopStumbles(e.g, e.log, x, s, k - 1, i, c);
      } else {
        LoopMeets(e.g, e.log, x, s, k - 1, i, j, c);
      }
    }
  }

  lemma {:induction false} LoopStumbles(g: Graph, log: seq<Entry>, x: Lifetime, s: seq<Action>, k: nat,
                                        i: nat, c: Lifetime)
    requires Ordered(g) && x in g && OrderedList(g.Keys, x, s)
    requires i < k <= |s| && s[i] == TerminateChild(c) && c in g && g[c].terminated
    ensures Loop(g, log, x, s, k).r != Done
    decreases k
  {
    hide RunOne, Ordered;
    OrderedOne(g.Keys, x, s, k - 1);
    RunOneIs(g, log, x, s[k - 1]);
    var e := RunOne(g, log, x, s[k - 1]);
    if k - 1 == i {
      ExecRefuses(g, log, c);
    } else if e.r == Done {
      LoopStumbles(e.g, e.log, x, s, k - 1, i, c);
    }
  }

  /** What was terminated has ended, whatever happened on the way. */
  lemma ExecTerminates(g: Graph, log: seq<Entry>, x: Lifetime)
    requires Ordered(g) && x in g
    ensures Exec(g, log, x).g[x].terminated
  {
    hide Loop;
    OrderedAt(g, x);
    OrderedFlag(g, x);
  }

  /** The graph right after `c` was created in `g`. */
  ghost function Created(g: Graph, c: Lifetime): Graph
  {
    AttachEach(g, c.parents, c)[c := Node(false, Unhooks(c.parents, c))]
  }

  lemma CreatedOrdered(g: Graph, c: Lifetime)
    requires Ordered(g) && c !in g && forall l :: l in g ==> l.id < c.id
    requires forall p :: p in c.parents ==> p in g
    ensures Ordered(Created(g, c))
  {
    var g1 := Created(g, c);
    forall l | l in g1
      ensures OrderedList(g1.Keys, l, g1[l].actions)
    {
      if l != c {
        EnteredCount(c.parents, l, c);
        OrderedAt(g, l);
      }
    }
  }

  lemma {:induction false} RemovePast(s: seq<Action>, t: seq<Action>, a: Action)
    requires a !in s
    ensures RemoveFirst(s + t, a) == s + RemoveFirst(t, a)
  {
    if s == [] {
      assert s + t == t;
    } else {
      assert (s + t)[1..] == s[1..] + t;
      RemovePast(s[1..], t, a);
    }
  }

  /** The lists while `c` unhooks itself from the first `k` of its parents: they still hold the entries for these. */
  ghost function Hung(g: Graph, c: Lifetime, k: nat): Graph
    requires k <= |c.parents|
  {
    AttachEach(g, c.parents[..k], c)[c := Node(true, Unhooks(c.parents, c))]
  }

  /** One unhook entry takes one entry off the parent's list. */
  lemma HungLess(g: Graph, log: seq<Entry>, c: Lifetime, k: nat)
    requires 0 < k <= |c.parents| && c !in g && c.parents[k - 1] in g
    requires forall l :: l in g ==> TerminateChild(c) !in g[l].actions
    ensures Unhooked(Hung(g, c, k), log, c.parents[k - 1], c) == Effect(Hung(g, c, k - 1), log, Done)
  {
    var ps, p := c.parents[..k], c.parents[k - 1];
    var front := c.parents[..k - 1];
    assert ps == front + [p] && ps[..|ps| - 1] == front;
    forall l | l in g
      ensures l == p ==>
        RemoveFirst(g[l].actions + Entered(ps, l, c), TerminateChild(c)) == g[l].actions + Entered(front, l, c)
      ensures l != p ==> Entered(ps, l, c) == Entered(front, l, c)
    {
      EnteredCount(front, l, c);
      if l == p {
        var t := Entered(front, l, c) + [TerminateChild(c)];
        RemovePast(g[l].actions, t, TerminateChild(c));
        assert t[0] == TerminateChild(c) && t[1..] == Entered(front, l, c);
      }
    }
    assert Unhooked(Hung(g, c, k), log, p, c).g == Hung(g, c, k - 1);
  }

  lemma {:induction false} UnhookLoop(g: Graph, log: seq<Entry>, c: Lifetime, k: nat)
    requires Ordered(g) && c !in g && (forall l :: l in g ==> l.id < c.id) && forall p :: p in c.parents ==> p in g
    requires k <= |c.parents|
    ensures Ordered(Hung(g, c, k)) && OrderedList(Hung(g, c, k).Keys, c, Unhooks(c.parents, c))
    ensures Loop(Hung(g, c, k), log, c, Unhooks(c.parents, c), k) == Effect(g[c := Node(true, [])], log, Done)
  {
    var us := Unhooks(c.parents, c);
    HungOrdered(g, c, k);
    if k == 0 {
      AttachNone(g, c);
    } else {
      hide AttachEach, Hung, Ordered, OrderedList;
      NoEntryYet(g, c);
      HungLess(g, log, c, k);
      UnhookLoop(g, log, c, k - 1);
      OrderedOne(Hung(g, c, k).Keys, c, us, k - 1);
      RunOneIs(Hung(g, c, k), log, c, us[k - 1]);
      assert us[k - 1] == Unhook(c.parents[k - 1], c);
    }
  }

  lemma NoEntryYet(g: Graph, c: Lifetime)
    requires Ordered(g) && c !in g
    ensures forall l :: l in g ==> TerminateChild(c) !in g[l].actions
  {
    forall l | l in g
      ensures TerminateChild(c) !in g[l].actions
    {
      OrderedAt(g, l);
    }
  }

  lemma HungOrdered(g: Graph, c: Lifetime, k: nat)
    requires Ordered(g) && c !in g && (forall l :: l in g ==> l.id < c.id) && forall p :: p in c.parents ==> p in g
    requires k <= |c.parents|
    ensures Ordered(Hung(g, c, k)) && OrderedList(Hung(g, c, k).Keys, c, Unhooks(c.parents, c))
    ensures Hung(g, c, k).Keys == g.Keys + {c} && Hung(g, c, k)[c].terminated
  {
    var h := Hung(g, c, k);
    forall l | l in h
      ensures OrderedList(h.Keys, l, h[l].actions)
    {
      if l != c {
        EnteredCount(c.parents[..k], l, c);
        OrderedAt(g, l);
      }
    }
  }

  /** Terminating the new lifetime itself completes and undoes its creation, however often a parent was named. */
  lemma CreatedEnds(g: Graph, log: seq<Entry>, c: Lifetime)
    requires Ordered(g) && c !in g && (forall l :: l in g ==> l.id < c.id) && forall p :: p in c.parents ==> p in g
    ensures Ordered(Created(g, c)) && Exec(Created(g, c), log, c) == Effect(g[c := Node(true, [])], log, Done)
  {
    CreatedOrdered(g, c);
    var n := |c.parents|;
    assert c.parents[..n] == c.parents;
    assert Created(g, c)[c := Node(true, Unhooks(c.parents, c))] == Hung(g, c, n);
    hide Hung, AttachEach, Ordered;
    UnhookLoop(g, log, c, n);
  }

  /** The loop looks at nothing beyond the entries still to run. */
  lemma {:induction false} LoopPrefix(g: Graph, log: seq<Entry>, x: Lifetime, s: seq<Action>, t: seq<Action>, j: nat)
    requires Ordered(g) && x in g && OrderedList(g.Keys, x, s) && OrderedList(g.Keys, x, t)
    requires j <= |s| && j <= |t| && forall i :: 0 <= i < j ==> s[i] == t[i]
    ensures Loop(g, log, x, s, j) == Loop(g, log, x, t, j)
    decreases j
  {
    hide RunOne, Ordered;
    if j > 0 {
      OrderedOne(g.Keys, x, s, j - 1);
      var e := RunOne(g, log, x, s[j - 1]);
      if e.r == Done {
        LoopPrefix(e.g, e.log, x, s, t, j - 1);
      }
    }
  }

  /** A newcomer that has ended already disturbs nothing. */
  lemma DeadNewcomer(g: Graph, c: Lifetime)
    requires Inv(g, {}) && c !in g && (forall l :: l in g ==> l.id < c.id) && forall p :: p in c.parents ==> p in g
    ensures Inv(g[c := Node(true, [])], {})
  {
    var g' := g[c := Node(true, [])];
    forall l | l in g'
      ensures Tidy(g', {}, l)
    {
      if l != c {
        assert Tidy(g, {}, l);
        forall a | Alive(g, l) && a in g[l].actions && a.TerminateChild?
          ensures Entitled(g', {}, l, a.child)
        {
          assert Entitled(g, {}, l, a.child);
        }
      }
    }
  }

  /** The last entry of a list terminates `c`, and then the loop goes on. */
  lemma LastChild(g: Graph, log: seq<Entry>, x: Lifetime, c: Lifetime, after: Graph)
    requires Ordered(g) && Alive(g, x) && c in g && g[x].actions != []
    requires var s := g[x].actions;
      var h := g[x := Node(true, s)];
      s[|s| - 1] == TerminateChild(c) && Ordered(h) && Exec(h, log, c) == Effect(after, log, Done)
    ensures var s := g[x].actions;
      && Ordered(after) && x in after && OrderedList(after.Keys, x, s)
      && Exec(g, log, x) == Loop(after, log, x, s, |s| - 1)
  {
    hide Exec, Ordered, OrderedList, Loop, RunOne;
    var s := g[x].actions;
    var h, goal := g[x := Node(true, s)], Exec(g, log, x);
    EnterExec(g, log, x);
    PendingFacts(h, log, x, s, |s|, goal);
    LoopNext(h, log, x, s, |s|, goal);
    RunOneIs(h, log, x, TerminateChild(c));
    PendingFacts(after, log, x, s, |s| - 1, goal);
  }

  lemma PendingFacts(g: Graph, log: seq<Entry>, x: Lifetime, s: seq<Action>, j: nat, goal: Effect)
    requires Pending(g, log, x, s, j, goal)
    ensures Ordered(g) && x in g && j <= |s| && OrderedList(g.Keys, x, s) && Loop(g, log, x, s, j) == goal
  {
  }

  /** In order, the loop over the list of `x` completes. */
  lemma LoopCompletes(g: Graph, log: seq<Entry>, x: Lifetime)
    requires Inv(g, {}) && Alive(g, x)
    ensures var a := g[x].actions;
      var h := g[x := Node(true, a)];
      Ordered(h) && OrderedList(h.Keys, x, a) && Loop(h, log, x, a, |a|).r == Done
  {
    hide Inv, Exec, Loop, Ordered, OrderedList;
    var a := g[x].actions;
    InvOrdered(g);
    EnterExec(g, log, x);
    PendingFacts(g[x := Node(true, a)], log, x, a, |a|, Exec(g, log, x));
    ExecEnds(g, log, x, {});
  }

  /** What the graph after a creation looks like from a parent that was named once. */
  lemma OnceNamed(g: Graph, c: Lifetime, x: Lifetime)
    requires c !in g && Alive(g, x) && multiset(c.parents)[x] == 1
    ensures var a := g[x].actions;
      var s := a + [TerminateChild(c)];
      && Alive(Created(g, c), x) && c in Created(g, c) && Created(g, c)[x].actions == s
      && Created(g, c)[x := Node(true, s)] == Created(g[x := Node(true, a)], c)
      && g[x := Node(true, a)][c := Node(true, [])] == g[c := Node(true, [])][x := Node(true, a)]
  {
    EnteredCount(c.parents, x, c);
    assert Entered(c.parents, x, c) == [TerminateChild(c)];
  }

  /** Right after a creation, terminating a parent that was named once completes. */
  lemma OnceCompletes(g: Graph, log: seq<Entry>, c: Lifetime, x: Lifetime)
    requires Inv(g, {}) && c !in g && (forall l :: l in g ==> l.id < c.id)
    requires (forall p :: p in c.parents ==> p in g) && Alive(g, x) && multiset(c.parents)[x] == 1
    ensures Ordered(Created(g, c)) && Exec(Created(g, c), log, x).r == Done
  {
    InvOrdered(g);
    CreatedOrdered(g, c);
    OrderedFlag(g, x);
    CreatedEnds(g[x := Node(true, g[x].actions)], log, c);
    DeadNewcomer(g, c);
    OnceNamed(g, c, x);
    hide *;
    OnceLoops(g, log, c, x);
  }

  lemma OnceLoops(g: Graph, log: seq<Entry>, c: Lifetime, x: Lifetime)
    requires Inv(g[c := Node(true, [])], {}) && c !in g && x in g && c != x && !g[x].terminated
    requires Ordered(Created(g, c)) && Alive(Created(g, c), x) && c in Created(g, c)
    requires var a := g[x].actions;
      var s, base := a + [TerminateChild(c)], g[x := Node(true, a)];
      && Created(g, c)[x].actions == s && Created(g, c)[x := Node(true, s)] == Created(base, c)
      && base[c := Node(true, [])] == g[c := Node(true, [])][x := Node(true, a)]
      && Ordered(Created(base, c)) && c in Created(base, c)
      && Exec(Created(base, c), log, c) == Effect(base[c := Node(true, [])], log, Done)
    ensures Exec(Created(g, c), log, x).r == Done
  {
    hide Created, Inv, Loop, Exec, Ordered, OrderedList;
    var a, g2 := g[x].actions, g[c := Node(true, [])];
    var s, after := a + [TerminateChild(c)], g[x := Node(true, a)][c := Node(true, [])];
    LastChild(Created(g, c), log, x, c, after);
    LoopCompletes(g2, log, x);
    LoopPrefix(after, log, x, s, a, |a|);
  }

  /** Right after a creation, terminating one of the parents completes if and only if that parent was named once. */
  lemma CompletesIffNamedOnce(g: Graph, log: seq<Entry>, c: Lifetime, x: Lifetime)
    requires Inv(g, {}) && c !in g && (forall l :: l in g ==> l.id < c.id)
    requires (forall p :: p in c.parents ==> p in g && Alive(g, p)) && x in c.parents
    ensures Ordered(Created(g, c))
    ensures Exec(Created(g, c), log, x).r == if multiset(c.parents)[x] == 1 then Done else TerminatedSeveralTimes
  {
    InvOrdered(g);
    CreatedOrdered(g, c);
    if multiset(c.parents)[x] == 1 {
      OnceCompletes(g, log, c, x);
    } else {
      EnteredCount(c.parents, x, c);
      var n := |g[x].actions|;
      NamedTwiceThrows(Created(g, c), log, x, n, n + 1, c);
    }
  }

  // ---------------------------------------------------------------------------
  // Whole histories

  /** The operations that take effect: a failed one changes nothing. */
  datatype Operation = Made(c: Lifetime) | Added(l: Lifetime, n: int) | Finished(l: Lifetime)

  /** The list of `l` as an operation alone leaves it, if nothing is ever taken off. */
  ghost function With(before: seq<Action>, e: Operation, l: Lifetime): seq<Action>
  {
    if e.Made? && e.c == l then Unhooks(l.parents, l)
    else if e.Made? && l in e.c.parents then before + [TerminateChild(e.c)]
    else if e.Added? && e.l == l then before + [User(e.n)]
    else before
  }

  /** Everything that was ever put on the list of `l`, in the order of registration. */
  ghost function Given(history: seq<Operation>, l: Lifetime): seq<Action>
    decreases |history|
  {
    if history == [] then []
    else With(Given(history[..|history| - 1], l), history[|history| - 1], l)
  }

  ghost function Dead(g: Graph): set<Lifetime>
  {
    set l | l in g && g[l].terminated
  }

  /**
    A live list is what was put on it, without the entries of what has ended since.  The journal holds
    each user action of each ended lifetime exactly once, last registered first, and none of a live one.
   */
  ghost predicate Remembers(g: Graph, log: seq<Entry>, history: seq<Operation>)
  {
    && (forall e :: e in log ==> e.owner in g)
    && (forall l :: l in g && Alive(g, l) ==> g[l].actions == Prune(Given(history, l), Dead(g)))
    && (forall l :: l in g ==>
          OwnedBy(log, l) == if Alive(g, l) then [] else UsersLastFirst(Given(history, l)))
  }

  lemma {:induction false} PruneSnoc(s: seq<Action>, a: Action, dead: set<Lifetime>)
    ensures Prune(s + [a], dead) == Prune(s, dead) + (if a.TerminateChild? && a.child in dead then [] else [a])
  {
    if s == [] {
      assert [a][1..] == [];
    } else {
      assert (s + [a])[1..] == s[1..] + [a];
      PruneSnoc(s[1..], a, dead);
    }
  }

  /** What the last operation put on the list of `l`. */
  lemma GivenLast(history: seq<Operation>, e: Operation, l: Lifetime)
    ensures Given(history + [e], l) == With(Given(history, l), e, l)
  {
    assert (history + [e])[..|history|] == history;
  }

  lemma MadeRemembers(g: Graph, log: seq<Entry>, history: seq<Operation>, c: Lifetime)
    requires Remembers(g, log, history) && c !in g && forall p :: p in c.parents ==> p in g && Alive(g, p)
    ensures Remembers(Attach(g, c.parents, c)[c := Node(false, Unhooks(c.parents, c))], log, history + [Made(c)])
  {
    hide Given, Prune, OwnedBy, UsersLastFirst;
    var g' := Attach(g, c.parents, c)[c := Node(false, Unhooks(c.parents, c))];
    assert Dead(g') == Dead(g);
    OwnedByOthers(log, c);
    PruneNothing(Unhooks(c.parents, c), Dead(g));
    forall l | l in g'
      ensures Alive(g', l) ==> g'[l].actions == Prune(Given(history + [Made(c)], l), Dead(g'))
      ensures OwnedBy(log, l) == if Alive(g', l) then [] else UsersLastFirst(Given(history + [Made(c)], l))
    {
      GivenLast(history, Made(c), l);
      PruneSnoc(Given(history, l), TerminateChild(c), Dead(g));
    }
  }

  lemma AddedRemembers(g: Graph, log: seq<Entry>, history: seq<Operation>, x: Lifetime, n: int)
    requires Remembers(g, log, history) && x in g && Alive(g, x)
    ensures Remembers(g[x := Node(false, g[x].actions + [User(n)])], log, history + [Added(x, n)])
  {
    hide Given, Prune, OwnedBy, UsersLastFirst;
    var g' := g[x := Node(false, g[x].actions + [User(n)])];
    assert Dead(g') == Dead(g);
    PruneSnoc(Given(history, x), User(n), Dead(g));
    forall l | l in g'
      ensures Alive(g', l) ==> g'[l].actions == Prune(Given(history + [Added(x, n)], l), Dead(g'))
      ensures OwnedBy(log, l) == if Alive(g', l) then [] else UsersLastFirst(Given(history + [Added(x, n)], l))
    {
      GivenLast(history, Added(x, n), l);
    }
  }

  /** Only lifetimes of the graph write to the journal. */
  lemma {:induction false} BlockOwners(g: Graph, x: Lifetime, s: seq<Action>, ext: seq<Entry>)
    requires x in g && InBlocks(g, x, s, ext)
    ensures forall e :: e in ext ==> e.owner in g
    decreases Later(g.Keys, x.id), |s|
  {
    if s != [] {
      var rest := Unblock(g, x, s, ext);
      var block := ext[|rest|..];
      BlockOwners(g, x, s[1..], rest);
      if s[0].TerminateChild? && block != [] {
        LaterShrinks(g.Keys, x.id, s[0].child);
        BlockOwners(g, s[0].child, g[s[0].child].actions, block);
      }
      assert ext == rest + block;
    }
  }

  lemma FinishedRemembers(g: Graph, g': Graph, log: seq<Entry>, ext: seq<Entry>, history: seq<Operation>, x: Lifetime)
    requires Remembers(g, log, history) && Ended(g, g', x, ext)
    ensures Remembers(g', log + ext, history + [Finished(x)])
  {
    hide Given, Prune, OwnedBy, UsersLastFirst, InBlocks, Below;
    BlockOwners(g, x, g[x].actions, ext);
    assert Dead(g') == Dead(g) + Newly(g, g');
    forall l | l in g'
      ensures Alive(g', l) ==> g'[l].actions == Prune(Given(history + [Finished(x)], l), Dead(g'))
      ensures OwnedBy(log + ext, l) ==
        if Alive(g', l) then [] else UsersLastFirst(Given(history + [Finished(x)], l))
    {
      var given := Given(history, l);
      GivenLast(history, Finished(x), l);
      OwnedByConcat(log, ext, l);
      PruneTwice(given, Dead(g), Newly(g, g'));
      PruneKeepsUsers(given, Dead(g));
    }
  }

  /** Every lifetime made so far, the journal of the user actions that ran, and what was asked for. */
  class World {
    ghost var all: set<Lifetime>
    ghost var clock: nat
    ghost var history: seq<Operation>
    var log: seq<Entry>

    ghost predicate Valid()
      reads this, all
    {
      && Inv(Snapshot(all), {}) && (forall l :: l in all ==> l.id < clock)
      && Remembers(Snapshot(all), log, history)
    }

    constructor ()
      ensures Valid() && all == {} && log == [] && history == []
    {
      all, clock, log, history := {}, 0, [], [];
    }

    /** `life += action` */
    method Register(l: Lifetime, n: int) returns (r: Outcome)
      requires Valid() && l in all
      modifies this`history, all
      ensures Valid()
      ensures old(l.isTerminated) ==>
        r == AlreadyTerminated && Snapshot(all) == old(Snapshot(all)) && history == old(history)
      ensures !old(l.isTerminated) ==>
        r == Done && history == old(history) + [Added(l, n)]
        && Snapshot(all) == old(Snapshot(all))[l := Node(false, old(l.actions) + [User(n)])]
    {
      hide Inv, Remembers;
      ghost var g := Snapshot(all);
      r := l.Add(User(n));
      if r == Done {
        RegisterKeepsInv(g, l, n);
        AddedRemembers(g, log, history, l, n);
        history := history + [Added(l, n)];
        assert Snapshot(all) == g[l := Node(false, g[l].actions + [User(n)])];
      } else {
        assert Snapshot(all) == g;
      }
    }

    /** `l.terminate()`, called from outside any other termination. */
    method Terminate(l: Lifetime) returns (r: Outcome)
      requires Valid() && l in all
      modifies this`log, this`history, all
      ensures Valid()
      ensures old(l.isTerminated) ==>
        r == TerminatedSeveralTimes && log == old(log) && Snapshot(all) == old(Snapshot(all)) && history == old(history)
      ensures !old(l.isTerminated) ==>
        && r == Done && old(log) <= log && history == old(history) + [Finished(l)]
        && Ended(old(Snapshot(all)), Snapshot(all), l, log[|old(log)|..])
    {
      hide Inv, Remembers, Ended, Exec, Ordered;
      ghost var g, log0 := Snapshot(all), log;
      InvOrdered(g);
      if l.isTerminated {
        ExecRefuses(g, log0, l);
      }
      r := l.Terminate(this);
      if r == Done {
        FinishedRemembers(g, Snapshot(all), log0, log[|log0|..], history, l);
        assert log == log0 + log[|log0|..];
        history := history + [Finished(l)];
      }
    }

    /**
      `Lifetime.create(parents)`.  A parent that has ended makes it throw; the parents before that one
      keep the new lifetime registered.  The invariant holds in both cases, if no parent is named twice.
     */
    method Create(parents: seq<Lifetime>) returns (res: Lifetime, r: Outcome)
      requires Valid() && forall p :: p in parents ==> p in all
      modifies this`all, this`clock, this`history, all
      ensures Distinct(res.parents) ==> Valid()
      ensures fresh(res) && all == old(all) + {res} && history == old(history) + [Made(res)]
      ensures log == old(log) && forall l :: l in old(all) ==> l.id < res.id
      ensures r == Done <==> forall p :: p in parents ==> !old(p.isTerminated)
      ensures r == Done ==> res.parents == parents
      ensures r != Done ==> r == AlreadyTerminated && res.parents == Reached(old(Snapshot(all)), parents)
      ensures Snapshot(all) ==
        AttachEach(old(Snapshot(all)), res.parents, res)[res := Node(false, Unhooks(res.parents, res))]
    {
      hide Inv, AttachEach, Reached, Unhooks, Remembers, Distinct;
      ghost var g, reached := Snapshot(all), Reached(Snapshot(all), parents);
      ReachedIsPrefix(g, parents);
      res := new Lifetime(clock, reached);
      assert Snapshot(all) == g && forall p :: p in parents ==> (Alive(g, p) <==> !p.isTerminated);
      r := AttachAll(parents, res);
      Enlist(g, res);
    }

    /** A lifetime that was made joins the ones made so far. */
    ghost method Enlist(g: Graph, res: Lifetime)
      requires Inv(g, {}) && Remembers(g, log, history) && g.Keys == all && res !in all
      requires res.id == clock && forall l :: l in all ==> l.id < clock
      requires forall p :: p in res.parents ==> p in g && Alive(g, p)
      requires Snapshot(all) == AttachEach(g, res.parents, res)
      requires !res.isTerminated && res.actions == Unhooks(res.parents, res)
      modifies this`all, this`clock, this`history
      ensures Distinct(res.parents) ==> Valid()
      ensures all == old(all) + {res} && history == old(history) + [Made(res)]
      ensures Snapshot(all) == AttachEach(g, res.parents, res)[res := Node(false, Unhooks(res.parents, res))]
    {
      hide Inv, Attach, AttachEach, Unhooks, Remembers, Distinct;
      if Distinct(res.parents) {
        EachIsOnce(g, res.parents, res);
        CreateKeepsInv(g, res);
        MadeRemembers(g, log, history, res);
      }
      ghost var g1 := Snapshot(all);
      all, clock, history := all + {res}, clock + 1, history + [Made(res)];
      assert Snapshot(all) == g1[res := Node(false, res.actions)];
    }

    /** The loop of `create`. */
    method AttachAll(parents: seq<Lifetime>, res: Lifetime) returns (r: Outcome)
      requires res !in all && !res.isTerminated && res.actions == []
      requires forall p :: p in parents ==> p in all
      modifies all, res
      ensures r == if |Reached(old(Snapshot(all)), parents)| == |parents| then Done else AlreadyTerminated
      ensures var reached := Reached(old(Snapshot(all)), parents);
        && Snapshot(all) == AttachEach(old(Snapshot(all)), reached, res)
        && !res.isTerminated && res.actions == Unhooks(reached, res)
    {
      hide Inv, Reached;
      ghost var g, reached := Snapshot(all), Reached(Snapshot(all), parents);
      ReachedIsPrefix(g, parents);
      r := Done;
      var i := 0;
      ghost var done: seq<Lifetime> := [];
      AttachNone(g, res);
      assert Snapshot(all) == g;
      while i < |parents| && r == Done
        invariant 0 <= i <= |parents| && |done| <= |reached|
        invariant r == Done ==> |done| == i
        invariant r != Done ==> r == AlreadyTerminated && |done| == |reached| < |parents|
        invariant done == parents[..|done|]
        invariant Snapshot(all) == AttachEach(g, done, res)
        invariant !res.isTerminated && res.actions == Unhooks(done, res)
      {
        r := AttachNext(g, done, parents[i], res);
        if r == Done {
          done := done + [parents[i]];
        }
        i := i + 1;
      }
      assert done == reached;
    }

    /** One round of the loop of `create`, when it has registered `res` on `done`. */
    method AttachNext(ghost g: Graph, ghost done: seq<Lifetime>, parent: Lifetime, res: Lifetime) returns (r: Outcome)
      requires parent in all && res !in all
      requires Snapshot(all) == AttachEach(g, done, res)
      requires !res.isTerminated && res.actions == Unhooks(done, res)
      modifies parent`actions, res`actions
      ensures r == if Alive(g, parent) then Done else AlreadyTerminated
      ensures var done' := if r == Done then done + [parent] else done;
        Snapshot(all) == AttachEach(g, done', res) && res.actions == Unhooks(done', res)
    {
      ghost var g1 := Snapshot(all);
      assert parent in g1 && g1[parent] == Node(parent.isTerminated, parent.actions);
      AttachMore(g, done, parent, res);
      hide AttachEach, Unhooks;
      UnhooksMore(done, parent, res);
      r := parent.AddNested(res);
      if r == Done {
        assert Snapshot(all) == g1[parent := Node(parent.isTerminated, parent.actions)];
      } else {
        assert Snapshot(all) == g1;
      }
    }
  }

  class Lifetime {
    ghost const id: nat                  // position in creation order
    ghost const parents: seq<Lifetime>   // the parents it was registered with
    var isTerminated: bool
    var actions: seq<Action>

    constructor (ghost id: nat, ghost parents: seq<Lifetime>)
      ensures this.id == id && this.parents == parents
      ensures !isTerminated && actions == []
    {
      this.id := id;
      this.parents := parents;
      isTerminated := false;
      actions := [];
    }

    method Add(action: Action) returns (r: Outcome)
      modifies this`actions
      ensures isTerminated ==> r == AlreadyTerminated && actions == old(actions)
      ensures !isTerminated ==> r == Done && actions == old(actions) + [action]
    {
      if isTerminated {
        return AlreadyTerminated;
      }
      actions := actions + [action];
      return Done;
    }

    method AddNested(def: Lifetime) returns (r: Outcome)
      requires def != this
      modifies this`actions, def`actions
      ensures def.isTerminated || isTerminated ==> actions == old(actions) && def.actions == old(def.actions)
      ensures r == if !def.isTerminated && isTerminated then AlreadyTerminated else Done
      ensures !def.isTerminated && !isTerminated ==>
        actions == old(actions) + [TerminateChild(def)] && def.actions == old(def.actions) + [Unhook(this, def)]
    {
      if def.isTerminated {
        return Done;
      }
      r := Add(TerminateChild(def));
      if r == Done {
        r := def.Add(Unhook(this, def));
      }
    }

    /** Runs on any lists, in order or not; an exception of a nested call ends this one where it stands. */
    method Terminate(world: World) returns (r: Outcome)
      requires this in world.all && Ordered(Snapshot(world.all))
      modifies world`log, world.all
      ensures Effect(Snapshot(world.all), world.log, r) == Exec(old(Snapshot(world.all)), old(world.log), this)
      ensures EndsInOrder(old(Snapshot(world.all)), old(world.log), this, Effect(Snapshot(world.all), world.log, r))
      decreases Later(world.all, id), 1
    {
      hide Exec, RunOne, Ordered, OrderedList, Pending, EndsInOrder;
      ghost var g, log0 := Snapshot(world.all), world.log;
      ExecInOrder(g, log0, this);
      if isTerminated {
        ExecRefuses(g, log0, this);
        return TerminatedSeveralTimes;
      }
      EnterExec(g, log0, this);
      ghost var goal := Exec(g, log0, this);
      isTerminated := true;
      var copy := actions;
      var j := |copy|;
      assert Snapshot(world.all) == g[this := Node(true, copy)];
      while 0 < j
        invariant 0 <= j <= |copy| && Pending(Snapshot(world.all), world.log, this, copy, j, goal)
      {
        g := Snapshot(world.all);
        assert g.Keys == world.all;
        LoopNext(g, world.log, this, copy, j, goal);
        r := Run(copy[j - 1], world);
        if r != Done {
          return;
        }
        j := j - 1;
      }
      g := Snapshot(world.all);
      LoopDone(g, world.log, this, copy, goal);
      actions := [];
      assert Snapshot(world.all) == g[this := Node(isTerminated, [])];
      return Done;
    }

    /** One call of a stored closure, inside the loop of `Terminate`. */
    method Run(a: Action, world: World) returns (r: Outcome)
      requires this in world.all && Ordered(Snapshot(world.all)) && OrderedList(world.all, this, [a])
      modifies world`log, world.all
      ensures Effect(Snapshot(world.all), world.log, r) == RunOne(old(Snapshot(world.all)), old(world.log), this, a)
      decreases Later(world.all, id), 0
    {
      hide Ordered, Exec, RunOne;
      ghost var g := Snapshot(world.all);
      RunOneIs(g, world.log, this, a);
      r := Done;
      match a
      case User(n) =>
        world.log := world.log + [Entry(this, n)];
        assert Snapshot(world.all) == g;
      case TerminateChild(c) =>
        LaterShrinks(world.all, id, c);
        r := c.Terminate(world);
      case Unhook(p, owner) =>
        p.actions := RemoveFirst(p.actions, TerminateChild(owner));
        assert Snapshot(world.all) == g[p := Node(g[p].terminated, p.actions)];
    }
  }

  /** `testLifetimes`: the pieces that its string builder holds at the end. */
  method TestLifetimes(world: int, hello: int) returns (pieces: seq<int>)
    ensures pieces == [2, 1, hello, world]
  {
    hide Inv, Ended, AttachEach, Unhooks, Remembers;
    var w := new World();
    var eternal, def := MakeChild(w);
    var def2 := Fill(w, eternal, def, world, hello);
    ghost var g := Snapshot(w.all);
    OlderParent(g, def, def2);
    var r := w.Terminate(def);
    HelloWorld(g, Snapshot(w.all), eternal, def, def2, w.log, world, hello);
    pieces := seq(|w.log|, k requires 0 <= k < |w.log| reads w => w.log[k].id);
  }

  /** The part of the test before the first `+=`. */
  method MakeChild(w: World) returns (eternal: Lifetime, def: Lifetime)
    requires w.Valid() && w.all == {} && w.log == []
    modifies w, w.all
    ensures w.Valid() && fresh(w.all) && w.log == []
    ensures def in w.all && Snapshot(w.all)[def] == Node(false, [Unhook(eternal, def)])
  {
    hide Inv, Reached, AttachEach, Unhooks, Remembers;
    var r;
    eternal, r := w.Create([]);
    ghost var g := Snapshot(w.all);
    def, r := w.Create([eternal]);
    OnlyChild(g, eternal, def);
  }

  /** The rest of the test up to the `terminate`. */
  method Fill(w: World, eternal: Lifetime, def: Lifetime, world: int, hello: int) returns (def2: Lifetime)
    requires w.Valid() && def in w.all && Snapshot(w.all)[def] == Node(false, [Unhook(eternal, def)])
    modifies w, w.all
    ensures w.Valid() && fresh(w.all - old(w.all)) && w.log == old(w.log)
    ensures def in w.all && def2 in w.all && def != def2 && def2.parents == [def]
    ensures var g := Snapshot(w.all);
      && g[def] == Node(false, [Unhook(eternal, def), User(world), User(hello), TerminateChild(def2)])
      && g[def2] == Node(false, [Unhook(def, def2), User(1), User(2)])
  {
    hide Inv, Reached, AttachEach, Unhooks, Remembers;
    RegisterTwo(w, def, world, hello);
    ghost var g := Snapshot(w.all);
    assert g[def].terminated == def.isTerminated;
    var r;
    def2, r := w.Create([def]);
    OnlyChild(g, def, def2);
    RegisterTwo(w, def2, 1, 2);
  }

  /** `l += { append(m) }` and then `l += { append(n) }` */
  method RegisterTwo(w: World, l: Lifetime, m: int, n: int)
    requires w.Valid() && l in w.all && !Snapshot(w.all)[l].terminated
    modifies w`history, w.all
    ensures w.Valid()
    ensures Snapshot(w.all) ==
      old(Snapshot(w.all))[l := Node(false, old(Snapshot(w.all)[l].actions) + [User(m), User(n)])]
  {
    hide Inv, Remembers;
    ghost var s := l.actions;
    var r := w.Register(l, m);
    assert Snapshot(w.all)[l].terminated == l.isTerminated && Snapshot(w.all)[l].actions == l.actions;
    r := w.Register(l, n);
    assert s + [User(m)] + [User(n)] == s + [User(m), User(n)];
  }

  /** What `create` leaves on the lists of a parent and its new child. */
  lemma OnlyChild(g: Graph, p: Lifetime, c: Lifetime)
    requires p in g && c !in g && c.parents == [p]
    ensures var g' := AttachEach(g, c.parents, c)[c := Node(false, Unhooks(c.parents, c))];
      && g'[p] == Node(g[p].terminated, g[p].actions + [TerminateChild(c)])
      && g'[c] == Node(false, [Unhook(p, c)])
  {
    assert p in c.parents;
    assert Entered([p], p, c) == [TerminateChild(c)];
  }

  /** A child is created under one parent named twice; terminating that parent fails. */
  method NamedTwice() returns (r: Outcome)
    ensures r == TerminatedSeveralTimes
  {
    hide Inv, AttachEach, Unhooks, Reached, Remembers, Exec, Ordered;
    var w := new World();
    var p, r1 := w.Create([]);
    ghost var g := Snapshot(w.all);
    assert Distinct(p.parents) && Alive(g, p);
    var c, r2 := w.Create([p, p]);
    assert Snapshot(w.all) == Created(g, c) && c.parents == [p, p];
    CompletesIffNamedOnce(g, w.log, c, p);
    r := p.Terminate(w);
  }

  lemma OlderParent(g: Graph, p: Lifetime, c: Lifetime)
    requires Inv(g, {}) && c in g && !g[c].terminated && p in c.parents
    ensures p.id < c.id
  {
  }
}
