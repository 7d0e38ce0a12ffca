/** How far the report and the tree can be off when a session exceeds the tables or its traces collide. */
module Exactness {
  import opened Hashing
  import opened ProbeTable
  import opened Samples
  import opened Tables
  import opened Writers
  import opened Sorting
  import opened Reports
  import opened Sessions
  import opened Totals
  import opened FlameTrees
  import opened Truthful

  // ---------------------------------------------------------------------------
  // Costs

  /** Without collisions no node costs more than its ticks, however many hashes were stored. */
  lemma NodeCostAtMostTicks(states: seq<Session>, events: seq<Event>, info: ProfilingInfo, p: Path)
    requires SessionReport(states, events, info) && AllLegal(SinceStart(events)) && CollisionFree(SinceStart(events))
    requires p in Tally(info.samples)
    ensures Tally(info.samples)[p] <= TicksUnder(SinceStart(events), p)
    ensures p != [] ==> TicksUnder(SinceStart(events), p) > 0
  {
    hide Weigh, Sum, Total, SinceStart, CollisionFree, Alike, SamplesSection, Replay, Tally, Covered, TicksUnder;
    var ticks, n := SinceStart(events), |events| - 1;
    ReportedCountsPositive(states, events, info);
    EveryRun(states, events);
    var q := states[n + 1].store;
    assert Next(states[n], events[n], states[n + 1]);
    TallyWeighs(info.samples);
    ReportWeighsTable(Replay(ticks).traces, q.traces, Under(p));
    SamePathsWeighAlike(ticks, Under(p));
    TableBelowTicks(ticks, ticks, Via(Under(p)));
    TicksUnderWeigh(ticks, p);
    if p != [] {
      CoveredWeighs(info.samples, p);
    }
  }

  // ---------------------------------------------------------------------------
  // Capacity

  lemma {:induction false} HashesAtMost(ticks: seq<Tick>)
    requires AllLegal(ticks)
    ensures |Support(Hashes(ticks))| <= |ticks|
    decreases |ticks|
  {
    hide HashTrace;
    if ticks != [] {
      HashesAtMost(Front(ticks));
      if HasTrace(Last(ticks)) {
        var h, before := HashTrace(TraceOf(Last(ticks))), Hashes(Front(ticks));
        SupportGrows(before, h);
        assert |Support(before) + {h}| <= |Support(before)| + 1;
      }
    }
  }

  lemma {:induction false} TopsAtMost(ticks: seq<Tick>)
    requires AllLegal(ticks)
    ensures |Support(Tops(ticks))| <= |ticks|
    decreases |ticks|
  {
    if ticks != [] {
      TopsAtMost(Front(ticks));
      if HasTrace(Last(ticks)) {
        var m, before := Last(ticks).buffer[0].methodId, Tops(Front(ticks));
        SupportGrows(before, m);
        assert |Support(before) + {m}| <= |Support(before)| + 1;
      }
    }
  }

  /** A run of up to 32768 ticks, whatever it meets, fits both tables. */
  lemma ShortRunFits(ticks: seq<Tick>)
    requires AllLegal(ticks) && |ticks| <= 32768
    ensures Fits(ticks) && MethodsFit(ticks)
    ensures Marked(ticks) ==> Lost(ticks) == 0
  {
    hide Lost;
    HashesAtMost(ticks);
    TopsAtMost(ticks);
    if Marked(ticks) {
      LossIffOverflow(ticks);
    }
  }

  // ---------------------------------------------------------------------------
  // Collisions

  /** Every path is credited the ticks that took it. */
  ghost predicate CreditsTrue(ticks: seq<Tick>)
    requires AllLegal(ticks)
  {
    forall p :: Credit(ticks, Via(Under(p))) == TicksUnder(ticks, p)
  }

  /** If the credit is true before and after the last tick, that tick took the path it is credited to. */
  lemma LastPath(ticks: seq<Tick>)
    requires AllLegal(ticks) && ticks != [] && HasTrace(Last(ticks))
    requires CreditsTrue(Front(ticks)) && CreditsTrue(ticks)
    ensures var h, t := HashTrace(TraceOf(Last(ticks))), TraceOf(Last(ticks));
      PathOf(NonNull(AddFirst(FirstTraces(Front(ticks)), h, t)[h])) == TickPath(Last(ticks))
  {
    hide HashTrace, NonNull, PathOf;
    var h, t := HashTrace(TraceOf(Last(ticks))), TraceOf(Last(ticks));
    var first := AddFirst(FirstTraces(Front(ticks)), h, t)[h];
    var a, b := PathOf(NonNull(first)), TickPath(Last(ticks));
    forall p
      ensures Begins(a, p) <==> Begins(b, p)
    {
      assert Credit(ticks, Via(Under(p))) == Credit(Front(ticks), Via(Under(p))) + Via(Under(p))(first);
      assert Via(Under(p))(first) == Under(p)(a);
      assert TicksUnder(ticks, p) == TicksUnder(Front(ticks), p) + TickUnder(Last(ticks), p);
      assert Credit(Front(ticks), Via(Under(p))) == TicksUnder(Front(ticks), p);
      assert Credit(ticks, Via(Under(p))) == TicksUnder(ticks, p);
    }
    assert Begins(a, a) && Begins(b, b);
  }

  /** If the credit is true at every moment, each tick took the path of the first tick with its hash. */
  lemma {:induction false} FirstPaths(ticks: seq<Tick>, i: nat)
    requires AllLegal(ticks) && i < |ticks| && HasTrace(ticks[i])
    requires forall k :: 0 <= k <= |ticks| ==> AllLegal(ticks[..k]) && CreditsTrue(ticks[..k])
    ensures var h := HashTrace(TraceOf(ticks[i]));
      h in FirstTraces(ticks) && PathOf(NonNull(FirstTraces(ticks)[h])) == TickPath(ticks[i])
    decreases |ticks|
  {
    hide HashTrace, NonNull, PathOf, CreditsTrue, Credit;
    var n, front := |ticks| - 1, Front(ticks);
    assert forall k :: 0 <= k <= n ==> front[..k] == ticks[..k];
    if i < n {
      FirstPaths(front, i);
    } else {
      assert ticks[..n] == front && ticks[..n + 1] == ticks;
      LastPath(ticks);
    }
  }

  /** The credit is true at every moment of the run if and only if traces that share a hash report the same path. */
  lemma CollisionFreeIffCredited(ticks: seq<Tick>)
    requires AllLegal(ticks)
    ensures CollisionFree(ticks) <==>
      forall k :: 0 <= k <= |ticks| ==> AllLegal(ticks[..k]) && CreditsTrue(ticks[..k])
  {
    hide HashTrace, NonNull, PathOf, Credit, Alike;
    if CollisionFree(ticks) {
      forall k | 0 <= k <= |ticks|
        ensures AllLegal(ticks[..k]) && CreditsTrue(ticks[..k])
      {
        forall p
          ensures AllLegal(ticks[..k]) && Credit(ticks[..k], Via(Under(p))) == TicksUnder(ticks[..k], p)
        {
          SamePathsWeighAlike(ticks, Under(p));
          CreditIsWeight(ticks[..k], ticks, Via(Under(p)));
          TicksUnderWeigh(ticks[..k], p);
        }
      }
    }
    if forall k :: 0 <= k <= |ticks| ==> AllLegal(ticks[..k]) && CreditsTrue(ticks[..k]) {
      forall i | 0 <= i < |ticks| && HasTrace(ticks[i])
        ensures var h := HashTrace(TraceOf(ticks[i]));
          h in FirstTraces(ticks) && PathOf(NonNull(FirstTraces(ticks)[h])) == TickPath(ticks[i])
      {
        FirstPaths(ticks, i);
      }
    }
  }

  /** The flame tree of the report has a node for each path that a tick took, at the number of ticks that took it. */
  ghost predicate TreeExact(info: ProfilingInfo, ticks: seq<Tick>)
    requires AllLegal(ticks)
  {
    && (forall p :: p in Tally(info.samples) ==> Tally(info.samples)[p] == TicksUnder(ticks, p))
    && (forall p :: TicksUnder(ticks, p) > 0 ==> p in Tally(info.samples))
  }

  lemma TreeExactIffCredited(states: seq<Session>, events: seq<Event>, info: ProfilingInfo)
    requires SessionReport(states, events, info)
    requires AllLegal(SinceStart(events)) && Marked(SinceStart(events)) && Fits(SinceStart(events))
    ensures TreeExact(info, SinceStart(events)) <==> CreditsTrue(SinceStart(events))
  {
    hide SessionReport, SinceStart, Marked, Fits, Tally, Total, Credit, TicksUnder, Covered;
    var ticks := SinceStart(events);
    TallyWeighs(info.samples);
    forall p
      ensures Total(info.samples, Under(p)) == Credit(ticks, Via(Under(p)))
      ensures p !in Tally(info.samples) ==> Credit(ticks, Via(Under(p))) == 0
    {
      ReportWeighsCredit(states, events, info, Under(p));
      if !Covered(info.samples, p) {
        UncoveredWeighsNothing(info.samples, p);
      }
    }
  }

  /** A report, with the run that led to it. */
  datatype Moment = Moment(states: seq<Session>, events: seq<Event>, info: ProfilingInfo)

  /** One report for every moment of the run: after no tick, after the first, and so on. */
  ghost predicate Reported(moments: seq<Moment>, ticks: seq<Tick>)
  {
    |moments| == |ticks| + 1 && forall k :: 0 <= k <= |ticks| ==> ReportedAt(moments[k], ticks[..k])
  }

  ghost predicate ReportedAt(m: Moment, ticks: seq<Tick>)
  {
    SessionReport(m.states, m.events, m.info) && SinceStart(m.events) == ticks
  }

  lemma {:induction false} FitsPrefix(ticks: seq<Tick>, k: nat)
    requires AllLegal(ticks) && Marked(ticks) && Fits(ticks) && k <= |ticks|
    ensures AllLegal(ticks[..k]) && Marked(ticks[..k]) && Fits(ticks[..k])
    decreases |ticks|
  {
    hide HashTrace, Fits;
    if k == |ticks| {
      assert ticks[..k] == ticks;
    } else {
      FitsBefore(ticks);
      FitsPrefix(Front(ticks), k);
      assert Front(ticks)[..k] == ticks[..k];
    }
  }

  /** Every tick is in one of the special counters or under the root. */
  lemma {:induction false} RootTicks(ticks: seq<Tick>)
    requires AllLegal(ticks)
    ensures var p := Replay(ticks);
      TicksUnder(ticks, []) + p.nonJava + p.gc + p.deopt + p.unknown == |ticks|
    decreases |ticks|
  {
    hide Record, HashTrace, NonNull, PathOf;
    if ticks != [] {
      RootTicks(Front(ticks));
      RecordCounts(Replay(Front(ticks)), Last(ticks));
      assert HasTrace(Last(ticks)) ==> Begins(TickPath(Last(ticks)), []);
    }
  }

  /** What the root of a report lacks are the overwritten samples. */
  lemma RootLoses(states: seq<Session>, events: seq<Event>, info: ProfilingInfo)
    requires SessionReport(states, events, info)
    ensures AllLegal(SinceStart(events)) && [] in Tally(info.samples)
    ensures Tally(info.samples)[[]] + Lost(SinceStart(events)) == TicksUnder(SinceStart(events), [])
  {
    hide SinceStart, Tally, TicksUnder, Replay, Lost;
    RootCost(states, events, info);
    RootTicks(SinceStart(events));
    EveryRun(states, events);
    Conservation(SinceStart(events));
  }

  /** A report whose root costs the ticks that had a trace is one of a run that fits. */
  lemma RootTellsFit(states: seq<Session>, events: seq<Event>, info: ProfilingInfo)
    requires SessionReport(states, events, info) && AllLegal(SinceStart(events)) && Marked(SinceStart(events))
    requires TreeExact(info, SinceStart(events))
    ensures Fits(SinceStart(events))
  {
    hide SessionReport, SinceStart, Marked, Fits, Tally, TicksUnder, Lost;
    RootLoses(states, events, info);
    LossIffOverflow(SinceStart(events));
  }

  /**
    Whenever STOP comes, the flame tree of the report is exact, if and only if the run is faithful: it
    fits the table, and traces that share a hash report the same path.
   */
  lemma ExactIffFaithful(ticks: seq<Tick>, moments: seq<Moment>)
    requires AllLegal(ticks) && Marked(ticks) && Reported(moments, ticks)
    ensures Faithful(ticks) <==>
      forall k :: 0 <= k <= |ticks| ==> AllLegal(ticks[..k]) && TreeExact(moments[k].info, ticks[..k])
  {
    hide SessionReport, SinceStart, Marked, Fits, CollisionFree, CreditsTrue, TreeExact;
    var n := |ticks|;
    assert ticks[..n] == ticks && ReportedAt(moments[n], ticks[..n]);
    if TreeExact(moments[n].info, ticks) {
      RootTellsFit(moments[n].states, moments[n].events, moments[n].info);
    }
    if Fits(ticks) {
      CollisionFreeIffCredited(ticks);
      forall k | 0 <= k <= n
        ensures AllLegal(ticks[..k]) && (TreeExact(moments[k].info, ticks[..k]) <==> CreditsTrue(ticks[..k]))
      {
        FitsPrefix(ticks, k);
        assert ReportedAt(moments[k], ticks[..k]);
        TreeExactIffCredited(moments[k].states, moments[k].events, moments[k].info);
      }
    }
  }

  // ---------------------------------------------------------------------------
  // When the plugin refuses the report

  /** The report has a sample without frames, at which the tree throws. */
  ghost predicate Refused(info: ProfilingInfo)
  {
    exists i :: 0 <= i < |info.samples| && info.samples[i].frames == []
  }

  lemma OccupiedInfos(traces: seq<CallTraceSample>, x: SampleInfo)
    ensures x in Infos(Occupied(traces)) <==>
      exists i :: 0 <= i < |traces| && traces[i].callCount > 0 && Info(traces[i]) == x
  {
    hide Info, Occupied;
    var used := Occupied(traces);
    if x in Infos(used) {
      var k :| 0 <= k < |used| && Infos(used)[k] == x;
      OccupiedCount(traces, used[k]);
      assert used[k] in multiset(used) && used[k] in multiset(traces);
      var i :| 0 <= i < |traces| && traces[i] == used[k];
    }
    if i :| 0 <= i < |traces| && traces[i].callCount > 0 && Info(traces[i]) == x {
      OccupiedCount(traces, traces[i]);
      assert traces[i] in multiset(used);
      var k :| 0 <= k < |used| && used[k] == traces[i];
      assert Infos(used)[k] == x;
    }
  }

  /** Slot `s` was written, and the last trace written to it was all NULL. */
  ghost predicate WrittenNull(ticks: seq<Tick>, s: nat)
    requires AllLegal(ticks) && s < MAX_CALLTRACES
  {
    Writer(ticks, s) >= 0 && !Named(ticks[Writer(ticks, s)])
  }

  lemma SlotNull(ticks: seq<Tick>, s: nat)
    requires AllLegal(ticks) && s < MAX_CALLTRACES
    ensures var x := Replay(ticks).traces[s];
      WrittenNull(ticks, s) <==> x.callCount > 0 && Info(x).frames == []
  {
    hide Replay, Writer, NonNull;
    SlotWriter(ticks, s);
  }

  /** In every session: the tree refuses the report if and only if the last trace written to some slot was all NULL. */
  lemma RefusedIffWritten(states: seq<Session>, events: seq<Event>, info: ProfilingInfo)
    requires SessionReport(states, events, info)
    ensures AllLegal(SinceStart(events))
    ensures Refused(info) <==> exists s :: 0 <= s < MAX_CALLTRACES && WrittenNull(SinceStart(events), s)
  {
    hide SinceStart, Replay, Occupied, Info, SessionReport, WrittenNull, AllLegal;
    ReportedSamples(states, events, info);
    var ticks := SinceStart(events);
    var traces := Replay(ticks).traces;
    if i :| 0 <= i < |info.samples| && info.samples[i].frames == [] {
      assert info.samples[i] in multiset(info.samples);
      OccupiedInfos(traces, info.samples[i]);
      var s :| 0 <= s < |traces| && traces[s].callCount > 0 && Info(traces[s]) == info.samples[i];
      SlotNull(ticks, s);
    }
    if s :| 0 <= s < MAX_CALLTRACES && WrittenNull(ticks, s) {
      SlotNull(ticks, s);
      var x := Info(traces[s]);
      OccupiedInfos(traces, x);
      assert x in multiset(info.samples);
      var i :| 0 <= i < |info.samples| && info.samples[i] == x;
    }
  }

  lemma {:induction false} NamelessCredit(ticks: seq<Tick>)
    requires AllLegal(ticks)
    ensures Credit(ticks, Via(Exactly([]))) == 0 <==>
      forall i :: 0 <= i < |ticks| && IsFirst(ticks, i) ==> Named(ticks[i])
    decreases |ticks|
  {
    hide NonNull, HashTrace, PathOf;
    if ticks != [] {
      var n := |ticks| - 1;
      NamelessCredit(Front(ticks));
      assert forall i :: 0 <= i < n ==> Front(ticks)[i] == ticks[i];
      assert forall i :: 0 <= i < n ==> (IsFirst(Front(ticks), i) <==> IsFirst(ticks, i));
      if HasTrace(ticks[n]) {
        NamelessLast(ticks);
      }
    }
  }

  /** What the last tick is credited weighs nothing unless its first trace is all NULL. */
  lemma NamelessLast(ticks: seq<Tick>)
    requires AllLegal(ticks) && ticks != [] && HasTrace(Last(ticks))
    ensures var n, h := |ticks| - 1, HashTrace(TraceOf(Last(ticks)));
      var first := AddFirst(FirstTraces(Front(ticks)), h, TraceOf(Last(ticks)))[h];
      if IsFirst(ticks, n) then Via(Exactly([]))(first) == 0 <==> Named(ticks[n])
      else exists j :: 0 <= j < n && IsFirst(Front(ticks), j) && (Via(Exactly([]))(first) == 0 <==> Named(ticks[j]))
  {
    hide NonNull, HashTrace, PathOf;
    var n, h := |ticks| - 1, HashTrace(TraceOf(Last(ticks)));
    var front := FirstTraces(Front(ticks));
    var first := AddFirst(front, h, TraceOf(Last(ticks)))[h];
    PathAt(NonNull(first));
    FirstKeys(Front(ticks));
    if h in front {
      var j := FirstOccurs(Front(ticks), h);
      assert Front(ticks)[j] == ticks[j];
      assert !IsFirst(ticks, n);
    } else {
      forall j | 0 <= j < n && HasTrace(ticks[j])
        ensures HashTrace(TraceOf(ticks[j])) != h
      {
        HashesCover(Front(ticks), j);
      }
      assert IsFirst(ticks, n);
    }
  }

  /** Below capacity: the tree refuses the report if and only if the first tick with some hash was all NULL. */
  lemma RefusedIffFirst(states: seq<Session>, events: seq<Event>, info: ProfilingInfo)
    requires SessionReport(states, events, info)
    requires AllLegal(SinceStart(events)) && Marked(SinceStart(events)) && Fits(SinceStart(events))
    ensures var ticks := SinceStart(events);
      Refused(info) <==> exists i :: 0 <= i < |ticks| && IsFirst(ticks, i) && !Named(ticks[i])
  {
    hide Total, Credit, SessionReport, Named, SinceStart;
    ReportWeighsCredit(states, events, info, Exactly([]));
    NamelessCredit(SinceStart(events));
    ReportedCountsPositive(states, events, info);
    EmptySamplesWeigh(info.samples);
  }

  // ---------------------------------------------------------------------------
  // The methods section

  /** The methods section counts exactly the methods on top. */
  ghost predicate MethodsExact(info: ProfilingInfo, ticks: seq<Tick>)
    requires AllLegal(ticks)
  {
    forall s :: s in info.methods <==> s.methodId in Tops(ticks) && s.callCount == Tops(ticks)[s.methodId]
  }

  /** The methods section is exact if and only if no more distinct methods were on top than there are slots. */
  lemma MethodsExactIffFit(states: seq<Session>, events: seq<Event>, info: ProfilingInfo)
    requires SessionReport(states, events, info) && AllLegal(SinceStart(events)) && Topped(SinceStart(events))
    ensures MethodsExact(info, SinceStart(events)) <==> MethodsFit(SinceStart(events))
  {
    hide SessionReport, SinceStart, Tops, Replay;
    var ticks := SinceStart(events);
    if MethodsFit(ticks) {
      forall s
        ensures s in info.methods <==> s.methodId in Tops(ticks) && s.callCount == Tops(ticks)[s.methodId]
      {
        MethodsSectionExact(states, events, info, s);
      }
    }
    if MethodsExact(info, ticks) {
      ReportedMethods(states, events, info);
      var ids := Ids(Replay(ticks).methods);
      forall m | m in Support(Tops(ticks))
        ensures m in ids
      {
        var s := MethodSample(Tops(ticks)[m], m);
        assert s in info.methods;
        var k :| 0 <= k < MAX_CALLTRACES && Replay(ticks).methods[k] == s;
        assert ids[k] == m;
      }
      SetCard(ids);
      CardMonotone(Support(Tops(ticks)), set m | m in ids);
    }
  }

  // ---------------------------------------------------------------------------
  // What STOP does to the arrays

  /** The slots in use are the first ones. */
  ghost predicate UsedFirst(p: Profile)
    requires Shaped(p)
  {
    forall i, j :: 0 <= i < j < MAX_CALLTRACES && p.hashes[j] != 0 ==> p.hashes[i] != 0
  }

  /** The counts are positive up to `n`, and zero from there on. */
  ghost predicate PositiveUpTo(traces: seq<CallTraceSample>, n: nat)
  {
    n <= |traces| && forall i :: 0 <= i < |traces| ==> (traces[i].callCount > 0 <==> i < n)
  }

  lemma {:induction false} OccupiedUpTo(traces: seq<CallTraceSample>, n: nat)
    requires PositiveUpTo(traces, n)
    ensures |Occupied(traces)| == n
    decreases |traces|
  {
    if traces != [] {
      OccupiedUpTo(Front(traces), if n == |traces| then n - 1 else n);
    }
  }

  lemma SameOccupied(a: seq<CallTraceSample>, b: seq<CallTraceSample>)
    requires multiset(a) == multiset(b)
    ensures |Occupied(a)| == |Occupied(b)|
  {
    hide Occupied;
    forall x
      ensures multiset(Occupied(a))[x] == multiset(Occupied(b))[x]
    {
      OccupiedCount(a, x);
      OccupiedCount(b, x);
    }
    assert multiset(Occupied(a)) == multiset(Occupied(b));
    assert |multiset(Occupied(a))| == |Occupied(a)| && |multiset(Occupied(b))| == |Occupied(b)|;
  }

  lemma SortedUpTo(traces: seq<CallTraceSample>) returns (n: nat)
    requires Sorted(traces, TraceComparator)
    ensures PositiveUpTo(traces, n)
  {
    n := FirstZero(TraceCounts(traces));
    CutDropsZeros(traces);
    forall i | 0 <= i < |traces|
      ensures traces[i].callCount > 0 <==> i < n
    {
      assert i < n ==> traces[i] in traces[..n];
      assert i >= n ==> traces[i] in traces[n..] by { assert i >= n ==> traces[n..][i - n] == traces[i]; }
    }
  }

  /** From `i` on no slot is in use, and before it all are. */
  lemma UsedUpTo(p: Profile, i: nat) returns (n: nat)
    requires Shaped(p) && UsedFirst(p) && i <= MAX_CALLTRACES
    requires forall k :: 0 <= k < i ==> p.hashes[k] != 0
    ensures n <= MAX_CALLTRACES && forall k :: 0 <= k < MAX_CALLTRACES ==> (p.hashes[k] != 0 <==> k < n)
    decreases MAX_CALLTRACES - i
  {
    if i < MAX_CALLTRACES && p.hashes[i] != 0 {
      n := UsedUpTo(p, i + 1);
    } else {
      n := i;
    }
  }

  /** STOP leaves the two arrays in step if and only if the slots in use were the first ones. */
  lemma StopAlignedIff(s: Session, s': Session)
    requires Next(s, Asked(STOP_PROFILING), s') && Aligned(s.store)
    ensures Aligned(s'.store) <==> UsedFirst(s.store)
  {
    var p, q := s.store, s'.store;
    var m := SortedUpTo(q.traces);
    if UsedFirst(p) {
      var n := UsedUpTo(p, 0);
      hide Sorted;
      assert PositiveUpTo(p.traces, n);
      OccupiedUpTo(p.traces, n);
      OccupiedUpTo(q.traces, m);
      SameOccupied(p.traces, q.traces);
    }
  }

  // ---------------------------------------------------------------------------
  // STOP again

  /** A second STOP reports the same counters, the same multiset of samples, and the same methods and method ids. */
  lemma RepeatedStop(states: seq<Session>, events: seq<Event>, info: ProfilingInfo, s: Session, info': ProfilingInfo)
    requires SessionReport(states, events, info)
    requires Next(Last(states), Asked(STOP_PROFILING), s) && ReportsOn(info', s.store)
    ensures multiset(info.samples) == multiset(info'.samples)
    ensures info'.(methods := info.methods, samples := info.samples, methodInfos := info.methodInfos) == info
    ensures forall m :: m in info.methods <==> m in info'.methods
    ensures forall id :: id in info.methodInfos <==> id in info'.methodInfos
  {
    hide Next, ReportsOn, SinceStart, RunningAfter;
    var states', events' := states + [s], events + [Asked(STOP_PROFILING)];
    forall i | 0 <= i < |events'|
      ensures Next(states'[i], events'[i], states'[i + 1])
    {
      assert i < |events| ==> Next(states[i], events[i], states[i + 1]);
    }
    StopAgain(events);
    SameTicksSameReport(states, events, info, states', events', info');
  }
}
