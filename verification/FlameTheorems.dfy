/** What the costs of a flame tree mean, and that they do not depend on how the samples arrive. */
module FlameTheorems {
  import opened Hashing
  import opened Samples
  import opened Reports
  import opened Totals
  import opened FlameTrees

  // ---------------------------------------------------------------------------
  // Sums over finite sets of paths

  ghost function SumOver(paths: set<Path>, h: Path -> nat): nat
  {
    if paths == {} then 0
    else
      var p :| p in paths;
      h(p) + SumOver(paths - {p}, h)
  }

  lemma {:induction false} SumPick(paths: set<Path>, h: Path -> nat, p: Path)
    requires p in paths
    ensures SumOver(paths, h) == h(p) + SumOver(paths - {p}, h)
  {
    var q :| q in paths && SumOver(paths, h) == h(q) + SumOver(paths - {q}, h);
    if p != q {
      SumPick(paths - {q}, h, p);
      SumPick(paths - {p}, h, q);
      assert paths - {q} - {p} == paths - {p} - {q};
    }
  }

  lemma {:induction false} SumSame(paths: set<Path>, h: Path -> nat, k: Path -> nat)
    requires forall p :: p in paths ==> h(p) == k(p)
    ensures SumOver(paths, h) == SumOver(paths, k)
  {
    if paths != {} {
      var p :| p in paths;
      SumPick(paths, h, p);
      SumPick(paths, k, p);
      SumSame(paths - {p}, h, k);
    }
  }

  /** If `h` is zero on `paths` except perhaps at `x`, the sum is what it is there. */
  lemma {:induction false} SumSingle(paths: set<Path>, h: Path -> nat, x: Path)
    requires forall p :: p in paths && p != x ==> h(p) == 0
    ensures SumOver(paths, h) == if x in paths then h(x) else 0
  {
    if paths != {} {
      var p :| p in paths;
      SumPick(paths, h, p);
      SumSingle(paths - {p}, h, x);
    }
  }

  lemma Distribute(c: nat, x: nat, y: nat)
    ensures c * (x + y) == c * x + c * y
  {
  }

  lemma {:induction false} SumLinear(paths: set<Path>, h: Path -> nat, a: Path -> nat, c: nat, b: Path -> nat)
    requires forall p :: p in paths ==> h(p) == a(p) + c * b(p)
    ensures SumOver(paths, h) == SumOver(paths, a) + c * SumOver(paths, b)
  {
    if paths != {} {
      var p :| p in paths;
      SumPick(paths, h, p);
      SumPick(paths, a, p);
      SumPick(paths, b, p);
      var rest := paths - {p};
      SumLinear(rest, h, a, c, b);
      hide SumOver;
      Distribute(c, b(p), SumOver(rest, b));
    }
  }

  // ---------------------------------------------------------------------------
  // Exchanging the sum over paths with the sum over samples

  ghost function TotalBy(samples: seq<SampleInfo>, weight: Path -> Path -> nat): Path -> nat
  {
    p => Total(samples, weight(p))
  }

  /** How the paths of a set together weigh a sample with path `q`. */
  ghost function Together(paths: set<Path>, weight: Path -> Path -> nat): Path -> nat
  {
    q => SumOver(paths, At(weight, q))
  }

  ghost function At(weight: Path -> Path -> nat, q: Path): Path -> nat
  {
    p => weight(p)(q)
  }

  lemma {:induction false} Exchange(paths: set<Path>, samples: seq<SampleInfo>, weight: Path -> Path -> nat)
    ensures SumOver(paths, TotalBy(samples, weight)) == Total(samples, Together(paths, weight))
    decreases |samples|
  {
    hide PathOf;
    if samples == [] {
      SumLinear(paths, TotalBy(samples, weight), p => 0, 0, p => 0);
      SumSingle(paths, p => 0, []);
    } else {
      Exchange(paths, Front(samples), weight);
      var q := PathOf(Last(samples).frames);
      var rest, count := TotalBy(Front(samples), weight), Last(samples).callCount;
      SumLinear(paths, TotalBy(samples, weight), rest, count, At(weight, q));
    }
  }

  lemma {:induction false} TotalSame(samples: seq<SampleInfo>, g: Path -> nat, h: Path -> nat)
    requires forall i :: 0 <= i < |samples| ==> g(PathOf(samples[i].frames)) == h(PathOf(samples[i].frames))
    ensures Total(samples, g) == Total(samples, h)
    decreases |samples|
  {
    hide PathOf;
    if samples != [] {
      TotalSame(Front(samples), g, h);
    }
  }

  lemma {:induction false} TotalPlus(samples: seq<SampleInfo>, f: Path -> nat, g: Path -> nat, h: Path -> nat)
    requires forall i :: 0 <= i < |samples| ==>
      f(PathOf(samples[i].frames)) == g(PathOf(samples[i].frames)) + h(PathOf(samples[i].frames))
    ensures Total(samples, f) == Total(samples, g) + Total(samples, h)
    decreases |samples|
  {
    hide PathOf;
    if samples != [] {
      TotalPlus(Front(samples), f, g, h);
    }
  }

  // ---------------------------------------------------------------------------
  // Self cost

  /** The paths of the children of the node at `p`. */
  ghost function Kids(costs: Costs, p: Path): set<Path>
  {
    set q | q in costs && q != [] && Front(q) == p
  }

  ghost function CostAt(costs: Costs): Path -> nat
  {
    p => if p in costs then costs[p] else 0
  }

  /** The cost of a node beyond what its children cost is the weight of the samples that end exactly there. */
  lemma SelfCost(samples: seq<SampleInfo>, p: Path)
    requires p in Tally(samples)
    ensures var c := Tally(samples);
      c[p] == Total(samples, Exactly(p)) + SumOver(Kids(c, p), CostAt(c))
  {
    hide PathOf, Tally;
    TallyWeighs(samples);
    var c := Tally(samples);
    var kids := Kids(c, p);
    SumSame(kids, CostAt(c), TotalBy(samples, Under));
    Exchange(kids, samples, Under);
    forall i | 0 <= i < |samples|
      ensures var q := PathOf(samples[i].frames); Under(p)(q) == Exactly(p)(q) + Together(kids, Under)(q)
    {
      OneKid(samples, p, i);
    }
    TotalPlus(samples, Under(p), Exactly(p), Together(kids, Under));
  }

  /** A sample that goes on below `p` goes through exactly one child of `p`. */
  lemma OneKid(samples: seq<SampleInfo>, p: Path, i: nat)
    requires i < |samples|
    ensures var q := PathOf(samples[i].frames);
      Under(p)(q) == Exactly(p)(q) + Together(Kids(Tally(samples), p), Under)(q)
  {
    hide PathOf, Tally, Total, SumOver;
    TallyWeighs(samples);
    var q, kids := PathOf(samples[i].frames), Kids(Tally(samples), p);
    var x := Towards(p, q);
    TowardsIsKid(p, q);
    assert Covered(samples, x);
    hide Covered;
    KidsSum(kids, p, q);
  }

  lemma KidsSum(kids: set<Path>, p: Path, q: Path)
    requires forall k :: k in kids ==> k != [] && Front(k) == p
    requires Begins(q, p) && p != q ==> Towards(p, q) in kids
    ensures Under(p)(q) == Exactly(p)(q) + Together(kids, Under)(q)
  {
    var x := Towards(p, q);
    TowardsIsKid(p, q);
    forall k | k in kids && k != x
      ensures Under(k)(q) == 0
    {
      KidTowards(p, q, k);
    }
    SumSingle(kids, At(Under, q), x);
    assert Begins(q, q) && Begins(q, x);
    assert Together(kids, Under)(q) == SumOver(kids, At(Under, q));
    assert Under(x)(q) == 1;
    assert At(Under, q)(x) == Under(x)(q);
    assert x in kids <==> Begins(q, p) && p != q;
  }

  /** The path one step longer than `p` on the way to `q`, if there is one. */
  ghost function Towards(p: Path, q: Path): Path
  {
    if |p| < |q| then q[..|p| + 1] else q
  }

  lemma KidTowards(p: Path, q: Path, k: Path)
    requires k != [] && Front(k) == p
    ensures Begins(q, k) ==> k == Towards(p, q)
  {
    assert Begins(q, k) ==> k == q[..|k|];
  }

  lemma TowardsIsKid(p: Path, q: Path)
    ensures Begins(q, Towards(p, q))
    ensures var x := Towards(p, q);
      x != [] && Front(x) == p <==> Begins(q, p) && p != q
  {
    var x := Towards(p, q);
    if |p| < |q| {
      assert Front(x) == q[..|p|];
    }
  }

  // ---------------------------------------------------------------------------
  // The costs do not depend on the order or the grouping of the samples

  lemma {:induction false} TotalConcat(a: seq<SampleInfo>, b: seq<SampleInfo>, g: Path -> nat)
    ensures Total(a + b, g) == Total(a, g) + Total(b, g)
    decreases |b|
  {
    hide PathOf;
    if b == [] {
      assert a + b == a;
    } else {
      assert Front(a + b) == a + Front(b);
      TotalConcat(a, Front(b), g);
    }
  }

  lemma TotalWithout(s: seq<SampleInfo>, j: nat, g: Path -> nat)
    requires j < |s|
    ensures Total(s, g) == Total(Without(s, j), g) + s[j].callCount * g(PathOf(s[j].frames))
  {
    hide PathOf, Total;
    var a, x, b := s[..j], s[j], s[j + 1..];
    TotalConcat(a, b, g);
    TotalConcat(a + [x], b, g);
    TotalSnoc(a, x, g);
    assert s == (a + [x]) + b;
  }

  lemma TotalSnoc(a: seq<SampleInfo>, x: SampleInfo, g: Path -> nat)
    ensures Total(a + [x], g) == Total(a, g) + x.callCount * g(PathOf(x.frames))
  {
    hide PathOf;
    assert Front(a + [x]) == a;
  }

  lemma {:induction false} TotalPermutes(a: seq<SampleInfo>, b: seq<SampleInfo>, g: Path -> nat)
    requires multiset(a) == multiset(b)
    ensures Total(a, g) == Total(b, g)
    decreases |a|
  {
    hide Total, PathOf;
    if a == [] {
      assert |multiset(b)| == 0;
    } else {
      var n := |a| - 1;
      assert a[n] in multiset(b);
      var j :| 0 <= j < |b| && b[j] == a[n];
      WithoutMultiset(a, n);
      WithoutMultiset(b, j);
      TotalWithout(a, n, g);
      TotalWithout(b, j, g);
      Cancel(multiset(Without(a, n)), multiset(Without(b, j)), a[n]);
      TotalPermutes(Without(a, n), Without(b, j), g);
    }
  }

  lemma SameCosts(a: seq<SampleInfo>, b: seq<SampleInfo>)
    requires forall p :: Covered(a, p) <==> Covered(b, p)
    requires forall p :: Total(a, Under(p)) == Total(b, Under(p))
    ensures Tally(a) == Tally(b)
  {
    hide PathOf, Tally, Total;
    TallyWeighs(a);
    TallyWeighs(b);
  }

  /** Permuting the samples leaves every path with the same cost. */
  lemma TallyPermutes(a: seq<SampleInfo>, b: seq<SampleInfo>)
    requires multiset(a) == multiset(b)
    ensures Tally(a) == Tally(b)
  {
    hide PathOf, Tally, Total;
    forall p
      ensures Covered(a, p) <==> Covered(b, p)
    {
      if Covered(a, p) {
        SamplesCover(a, b, p);
      }
      if Covered(b, p) {
        SamplesCover(b, a, p);
      }
    }
    forall p
      ensures Total(a, Under(p)) == Total(b, Under(p))
    {
      TotalPermutes(a, b, Under(p));
    }
    SameCosts(a, b);
  }

  lemma SamplesCover(a: seq<SampleInfo>, b: seq<SampleInfo>, p: Path)
    requires multiset(a) == multiset(b) && Covered(a, p)
    ensures Covered(b, p)
  {
    hide PathOf;
    if p != [] {
      var i :| 0 <= i < |a| && Begins(PathOf(a[i].frames), p);
      assert a[i] in multiset(b);
      var j :| 0 <= j < |b| && b[j] == a[i];
    }
  }

  /** Splitting a sample into two with the same frames, or merging two, leaves every path with the same cost. */
  lemma TallyMerges(a: seq<SampleInfo>, m: nat, n: nat, frames: seq<Frame>, b: seq<SampleInfo>)
    ensures Tally(a + [SampleInfo(m, frames), SampleInfo(n, frames)] + b) == Tally(a + [SampleInfo(m + n, frames)] + b)
  {
    hide PathOf, Tally;
    var two, one := [SampleInfo(m, frames), SampleInfo(n, frames)], [SampleInfo(m + n, frames)];
    forall p
      ensures Covered(a + two + b, p) <==> Covered(a + one + b, p)
    {
      MergedCover(a, two, b, p);
      MergedCover(a, one, b, p);
      assert Covered(two, p) <==> Covered(one, p) by {
        assert two[0].frames == frames && one[0].frames == frames;
      }
    }
    forall p
      ensures Total(a + two + b, Under(p)) == Total(a + one + b, Under(p))
    {
      var g := Under(p);
      TotalConcat(a + two, b, g);
      TotalConcat(a, two, g);
      TotalConcat(a + one, b, g);
      TotalConcat(a, one, g);
      assert Front(two) == [SampleInfo(m, frames)] && Front(Front(two)) == [] && Front(one) == [];
    }
    SameCosts(a + two + b, a + one + b);
  }

  lemma MergedCover(a: seq<SampleInfo>, s: seq<SampleInfo>, b: seq<SampleInfo>, p: Path)
    ensures Covered(a + s + b, p) <==> Covered(a, p) || Covered(s, p) || Covered(b, p)
  {
    hide PathOf;
    var all := a + s + b;
    assert forall i :: 0 <= i < |a| ==> all[i] == a[i];
    assert forall i :: 0 <= i < |s| ==> all[|a| + i] == s[i];
    assert forall i :: 0 <= i < |b| ==> all[|a| + |s| + i] == b[i];
    assert forall i :: 0 <= i < |all| ==> all[i] in a || all[i] in s || all[i] in b;
  }
}
