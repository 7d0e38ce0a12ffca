/** What a report weighs: sums over its samples, compared with sums over the table and over the ticks. */
module Totals {
  import opened Words
  import opened Hashing
  import opened Samples
  import opened Sorting
  import opened Reports

  type Path = seq<Word>

  /** The method ids of a trace, outermost first: the order in which the flame tree reads a sample. */
  function PathOf(frames: seq<Frame>): Path
  {
    if frames == [] then [] else [Last(frames).methodId] + PathOf(Front(frames))
  }

  /** The sum over samples of their count times what `g` makes of their path. */
  ghost function Total(samples: seq<SampleInfo>, g: Path -> nat): nat
    decreases |samples|
  {
    if samples == [] then 0
    else Total(Front(samples), g) + Last(samples).callCount * g(PathOf(Last(samples).frames))
  }

  /** `g` on the reported path of a trace. */
  ghost function Via(g: Path -> nat): Trace -> nat
  {
    frames => g(PathOf(NonNull(frames)))
  }

  lemma {:induction false} TotalIsSum(traces: seq<CallTraceSample>, g: Path -> nat)
    ensures Total(Infos(traces), g) == Sum(traces, Via(g))
    decreases |traces|
  {
    hide PathOf, NonNull;
    if traces != [] {
      TotalIsSum(Front(traces), g);
      assert Front(Infos(traces)) == Infos(Front(traces));
    }
  }

  lemma {:induction false} SumConcat(a: seq<CallTraceSample>, b: seq<CallTraceSample>, f: Trace -> nat)
    ensures Sum(a + b, f) == Sum(a, f) + Sum(b, f)
    decreases |b|
  {
    if b == [] {
      assert a + b == a;
    } else {
      assert Front(a + b) == a + Front(b);
      SumConcat(a, Front(b), f);
    }
  }

  function Without<T>(s: seq<T>, j: nat): seq<T>
    requires j < |s|
  {
    s[..j] + s[j + 1..]
  }

  lemma WithoutMultiset<T>(s: seq<T>, j: nat)
    requires j < |s|
    ensures multiset(s) == multiset(Without(s, j)) + multiset{s[j]}
  {
    assert s == s[..j] + [s[j]] + s[j + 1..];
  }

  lemma WithoutSum(s: seq<CallTraceSample>, j: nat, f: Trace -> nat)
    requires j < |s|
    ensures Sum(s, f) == Sum(Without(s, j), f) + s[j].callCount * f(s[j].frames)
  {
    hide Sum;
    var a, x, b := s[..j], s[j], s[j + 1..];
    SumConcat(a, b, f);
    SumConcat(a + [x], b, f);
    SumSnoc(a, x, f);
    assert s == (a + [x]) + b;
  }

  lemma SumSnoc(a: seq<CallTraceSample>, x: CallTraceSample, f: Trace -> nat)
    ensures Sum(a + [x], f) == Sum(a, f) + x.callCount * f(x.frames)
  {
    assert Front(a + [x]) == a;
  }

  lemma Cancel<T>(a: multiset<T>, b: multiset<T>, x: T)
    requires a + multiset{x} == b + multiset{x}
    ensures a == b
  {
    assert a == a + multiset{x} - multiset{x};
    assert b == b + multiset{x} - multiset{x};
  }

  lemma {:induction false} SumPermutes(a: seq<CallTraceSample>, b: seq<CallTraceSample>, f: Trace -> nat)
    requires multiset(a) == multiset(b)
    ensures Sum(a, f) == Sum(b, f)
    decreases |a|
  {
    hide Sum;
    if a == [] {
      assert |multiset(b)| == 0;
    } else {
      var n := |a| - 1;
      assert a[n] in multiset(b);
      var j :| 0 <= j < |b| && b[j] == a[n];
      WithoutMultiset(a, n);
      WithoutMultiset(b, j);
      WithoutSum(a, n, f);
      WithoutSum(b, j, f);
      Cancel(multiset(Without(a, n)), multiset(Without(b, j)), a[n]);
      SumPermutes(Without(a, n), Without(b, j), f);
    }
  }

  /** Cutting a sorted table at its first zero drops nothing that counts. */
  lemma CutDropsZeros(traces: seq<CallTraceSample>)
    requires Sorted(traces, TraceComparator)
    ensures forall s :: s in traces[FirstZero(TraceCounts(traces))..] ==> s.callCount == 0
    ensures forall s :: s in traces[..FirstZero(TraceCounts(traces))] ==> s.callCount > 0
  {
    var n := FirstZero(TraceCounts(traces));
    forall j | n <= j < |traces|
      ensures traces[j].callCount == 0
    {
      assert TraceCounts(traces)[n] == 0;
      assert n == j || TraceComparator(traces[n], traces[j]) <= 0;
    }
    forall j | 0 <= j < n
      ensures traces[j].callCount > 0
    {
      assert TraceCounts(traces)[j] > 0;
    }
  }

  lemma ReportWeighsTable(traces: seq<CallTraceSample>, sorted: seq<CallTraceSample>, g: Path -> nat)
    requires multiset(sorted) == multiset(traces) && Sorted(sorted, TraceComparator)
    ensures Total(SamplesSection(sorted), g) == Sum(traces, Via(g))
  {
    CutDropsZeros(sorted);
    var n, f := FirstZero(TraceCounts(sorted)), Via(g);
    TotalIsSum(sorted[..n], g);
    SumPermutes(sorted, traces, f);
    CutSum(sorted, n, f);
  }

  lemma CutSum(traces: seq<CallTraceSample>, n: nat, f: Trace -> nat)
    requires n <= |traces| && forall s :: s in traces[n..] ==> s.callCount == 0
    ensures Sum(traces[..n], f) == Sum(traces, f)
  {
    SumOfZeros(traces[n..], f);
    SumConcat(traces[..n], traces[n..], f);
    assert traces[..n] + traces[n..] == traces;
  }

  // ---------------------------------------------------------------------------
  // Completeness

  /** The slots in use. */
  ghost function Occupied(traces: seq<CallTraceSample>): seq<CallTraceSample>
    decreases |traces|
  {
    if traces == [] then []
    else if Last(traces).callCount > 0 then Occupied(Front(traces)) + [Last(traces)]
    else Occupied(Front(traces))
  }

  lemma OneMore<T>(s: seq<T>, y: T, x: T)
    ensures multiset(s + [y])[x] == multiset(s)[x] + if x == y then 1 else 0
  {
  }

  lemma {:induction false} OccupiedCount(traces: seq<CallTraceSample>, x: CallTraceSample)
    ensures multiset(Occupied(traces))[x] == if x.callCount > 0 then multiset(traces)[x] else 0
    decreases |traces|
  {
    if traces != [] {
      var t := Front(traces);
      OccupiedCount(t, x);
      assert traces == t + [Last(traces)];
      OneMore(t, Last(traces), x);
      OneMore(Occupied(t), Last(traces), x);
    }
  }

  /** The report emits every occupied slot exactly once, in non-increasing order of count. */
  lemma ReportIsComplete(traces: seq<CallTraceSample>, sorted: seq<CallTraceSample>)
    requires multiset(sorted) == multiset(traces) && Sorted(sorted, TraceComparator)
    ensures var emitted := sorted[..FirstZero(TraceCounts(sorted))];
      && SamplesSection(sorted) == Infos(emitted)
      && multiset(emitted) == multiset(Occupied(traces))
      && forall i, j :: 0 <= i < j < |emitted| ==> emitted[i].callCount >= emitted[j].callCount
  {
    var n := FirstZero(TraceCounts(sorted));
    var emitted := sorted[..n];
    CutDropsZeros(sorted);
    hide FirstZero;
    OccupiedSplit(traces, emitted, sorted[n..]) by {
      assert sorted == emitted + sorted[n..];
    }
    forall i, j | 0 <= i < j < |emitted|
      ensures emitted[i].callCount >= emitted[j].callCount
    {
      assert TraceComparator(sorted[i], sorted[j]) <= 0;
    }
  }

  lemma OccupiedSplit(traces: seq<CallTraceSample>, used: seq<CallTraceSample>, rest: seq<CallTraceSample>)
    requires multiset(used + rest) == multiset(traces)
    requires forall s :: s in used ==> s.callCount > 0
    requires forall s :: s in rest ==> s.callCount == 0
    ensures multiset(used) == multiset(Occupied(traces))
  {
    forall x
      ensures multiset(used)[x] == multiset(Occupied(traces))[x]
    {
      OccupiedCount(traces, x);
      assert multiset(used + rest)[x] == multiset(used)[x] + multiset(rest)[x];
      assert x in multiset(used) ==> x in used;
      assert x in multiset(rest) ==> x in rest;
    }
  }

  lemma InfosWithout(s: seq<CallTraceSample>, j: nat)
    requires j < |s|
    ensures multiset(Infos(s)) == multiset(Infos(Without(s, j))) + multiset{Info(s[j])}
  {
    hide NonNull;
    WithoutMultiset(Infos(s), j);
    assert Infos(Without(s, j)) == Without(Infos(s), j);
  }

  lemma {:induction false} InfosPermute(a: seq<CallTraceSample>, b: seq<CallTraceSample>)
    requires multiset(a) == multiset(b)
    ensures multiset(Infos(a)) == multiset(Infos(b))
    decreases |a|
  {
    hide Info, Infos;
    if a == [] {
      assert |multiset(b)| == 0;
    } else {
      var n := |a| - 1;
      assert a[n] in multiset(b);
      var j :| 0 <= j < |b| && b[j] == a[n];
      WithoutMultiset(a, n);
      WithoutMultiset(b, j);
      InfosWithout(a, n);
      InfosWithout(b, j);
      Cancel(multiset(Without(a, n)), multiset(Without(b, j)), a[n]);
      InfosPermute(Without(a, n), Without(b, j));
    }
  }
}
