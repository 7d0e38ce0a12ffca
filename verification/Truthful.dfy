/**
  The promise of the profiler, end to end: from the ticks of a session, through the tables and the
  report, to the costs of the flame tree.
 */
module Truthful {
  import opened Words
  import opened Hashing
  import opened ProbeTable
  import opened Samples
  import opened Tables
  import opened Writers
  import opened Sorting
  import opened Reports
  import opened Sessions
  import opened Totals
  import opened FlameTrees
  import opened FlameTheorems

  /** The path that a tick contributes to the flame graph: its non-NULL frames, outermost first. */
  ghost function TickPath(t: Tick): Path
    requires HasTrace(t) && Legal(t)
  {
    PathOf(NonNull(TraceOf(t)))
  }

  ghost function TickUnder(t: Tick, p: Path): nat
    requires Legal(t)
  {
    if HasTrace(t) && Begins(TickPath(t), p) then 1 else 0
  }

  /** How many ticks have a path that begins with `p`. */
  ghost function TicksUnder(ticks: seq<Tick>, p: Path): nat
    requires AllLegal(ticks)
    decreases |ticks|
  {
    if ticks == [] then 0
    else TicksUnder(Front(ticks), p) + TickUnder(Last(ticks), p)
  }

  lemma {:induction false} TicksUnderWeigh(ticks: seq<Tick>, p: Path)
    requires AllLegal(ticks)
    ensures Weigh(ticks, Via(Under(p))) == TicksUnder(ticks, p)
    decreases |ticks|
  {
    hide PathOf, NonNull;
    if ticks != [] {
      TicksUnderWeigh(Front(ticks), p);
    }
  }

  /** Traces of the run that share a hash report the same path. */
  ghost predicate CollisionFree(ticks: seq<Tick>)
    requires AllLegal(ticks)
  {
    forall i, j :: 0 <= i < |ticks| && 0 <= j < |ticks| && HasTrace(ticks[i]) && HasTrace(ticks[j]) ==>
      HashTrace(TraceOf(ticks[i])) == HashTrace(TraceOf(ticks[j])) ==> TickPath(ticks[i]) == TickPath(ticks[j])
  }

  lemma SamePathsWeighAlike(ticks: seq<Tick>, g: Path -> nat)
    requires AllLegal(ticks) && CollisionFree(ticks)
    ensures Alike(ticks, Via(g))
  {
    hide HashTrace, NonNull, PathOf;
  }

  /** What a session must be for its report to be exact; each clause is about the ticks alone. */
  ghost predicate Faithful(ticks: seq<Tick>)
  {
    AllLegal(ticks) && Marked(ticks) && Fits(ticks) && CollisionFree(ticks)
  }

  /** The report of a session that ended with STOP. */
  ghost predicate SessionReport(states: seq<Session>, events: seq<Event>, info: ProfilingInfo)
  {
    && IsRun(states, events) && events != [] && Last(events) == Asked(STOP_PROFILING)
    && ReportsOn(info, Last(states).store)
  }

  /** The samples of a report weigh what the ticks of the session weigh. */
  lemma ReportWeighsTicks(states: seq<Session>, events: seq<Event>, info: ProfilingInfo, g: Path -> nat)
    requires SessionReport(states, events, info) && Faithful(SinceStart(events))
    ensures Total(info.samples, g) == Weigh(SinceStart(events), Via(g))
  {
    hide Weigh, Sum, Total, SinceStart, Marked, Fits, CollisionFree, Alike, SamplesSection, Replay;
    var ticks, n := SinceStart(events), |events| - 1;
    EveryRun(states, events);
    var q := states[n + 1].store;
    assert Next(states[n], events[n], states[n + 1]);
    ReportWeighsTable(Replay(ticks).traces, q.traces, g);
    SamePathsWeighAlike(ticks, g);
    TableWeighsTicks(ticks, Via(g));
  }

  /**
    Truthfulness: in the flame tree of a session's report, the node at path `p` costs exactly the
    number of ticks whose path begins with `p`.
   */
  lemma NodeCostIsTickCount(states: seq<Session>, events: seq<Event>, info: ProfilingInfo, p: Path)
    requires SessionReport(states, events, info) && Faithful(SinceStart(events))
    requires p in Tally(info.samples)
    ensures Tally(info.samples)[p] == TicksUnder(SinceStart(events), p)
  {
    hide Tally, Total, Weigh, SessionReport;
    TallyWeighs(info.samples);
    ReportWeighsTicks(states, events, info, Under(p));
    TicksUnderWeigh(SinceStart(events), p);
  }

  // ---------------------------------------------------------------------------
  // Which nodes there are

  lemma {:induction false} CoveredWeighs(samples: seq<SampleInfo>, p: Path)
    requires forall s :: s in samples ==> s.callCount > 0
    requires p != [] && Covered(samples, p)
    ensures Total(samples, Under(p)) > 0
    decreases |samples|
  {
    hide PathOf;
    if !Begins(PathOf(Last(samples).frames), p) {
      var i :| 0 <= i < |samples| && Begins(PathOf(samples[i].frames), p);
      assert Front(samples)[i] == samples[i];
      CoveredWeighs(Front(samples), p);
    }
  }

  lemma ReportedCountsPositive(states: seq<Session>, events: seq<Event>, info: ProfilingInfo)
    requires SessionReport(states, events, info)
    ensures forall s :: s in info.samples ==> s.callCount > 0
  {
    hide NonNull, Replay, Record;
    var n := |events| - 1;
    assert Next(states[n], events[n], states[n + 1]);
    var q := states[n + 1].store;
    CutDropsZeros(q.traces);
    forall i | 0 <= i < |info.samples|
      ensures info.samples[i].callCount > 0
    {
      assert info.samples[i] == Info(q.traces[i]);
      assert q.traces[i] in q.traces[..FirstZero(TraceCounts(q.traces))];
    }
  }

  /** The tree has a node at `p` exactly if some tick has a path that begins with `p`; the root is always there. */
  lemma NodeExistsIffTicked(states: seq<Session>, events: seq<Event>, info: ProfilingInfo, p: Path)
    requires SessionReport(states, events, info) && Faithful(SinceStart(events))
    ensures p in Tally(info.samples) <==> p == [] || TicksUnder(SinceStart(events), p) > 0
  {
    hide Tally, Total, Weigh, SessionReport;
    TallyWeighs(info.samples);
    ReportWeighsTicks(states, events, info, Under(p));
    TicksUnderWeigh(SinceStart(events), p);
    ReportedCountsPositive(states, events, info);
    if p != [] {
      if Covered(info.samples, p) {
        CoveredWeighs(info.samples, p);
      } else {
        UncoveredWeighsNothing(info.samples, p);
      }
    }
  }

  /**
    The root costs all ticks but those in the four special counters and those whose samples were
    overwritten, in every session, whatever its traces are.
   */
  lemma RootCost(states: seq<Session>, events: seq<Event>, info: ProfilingInfo)
    requires SessionReport(states, events, info)
    ensures AllLegal(SinceStart(events)) && [] in Tally(info.samples)
    ensures Tally(info.samples)[[]] + Lost(SinceStart(events)) ==
      info.total - info.nonJava - info.gc - info.deopt - info.unknown
  {
    hide Weigh, Sum, Total, SinceStart, SamplesSection, Replay, Tally, Lost;
    var ticks, n := SinceStart(events), |events| - 1;
    EveryRun(states, events);
    var q := states[n + 1].store;
    assert Next(states[n], events[n], states[n + 1]);
    TallyWeighs(info.samples);
    ReportWeighsTable(Replay(ticks).traces, q.traces, Under([]));
    EverythingUnderRoot(Replay(ticks).traces);
    Conservation(ticks);
  }

  /** The root costs exactly the ticks with a trace if and only if the run stored no more hashes than fit. */
  lemma RootExactIffFits(states: seq<Session>, events: seq<Event>, info: ProfilingInfo)
    requires SessionReport(states, events, info) && AllLegal(SinceStart(events)) && Marked(SinceStart(events))
    ensures [] in Tally(info.samples)
    ensures Tally(info.samples)[[]] == info.total - info.nonJava - info.gc - info.deopt - info.unknown
      <==> Fits(SinceStart(events))
  {
    hide SessionReport, Tally, Lost, SinceStart, Marked, Fits;
    RootCost(states, events, info);
    LossIffOverflow(SinceStart(events));
  }

  /** Also when traces collide, the samples weigh what the ticks weigh, each one under its hash's first trace. */
  lemma ReportWeighsCredit(states: seq<Session>, events: seq<Event>, info: ProfilingInfo, g: Path -> nat)
    requires SessionReport(states, events, info) && AllLegal(SinceStart(events))
    requires Marked(SinceStart(events)) && Fits(SinceStart(events))
    ensures Total(info.samples, g) == Credit(SinceStart(events), Via(g))
  {
    hide Credit, Sum, Total, SinceStart, Marked, Fits, SamplesSection, Replay;
    var ticks, n := SinceStart(events), |events| - 1;
    EveryRun(states, events);
    var q := states[n + 1].store;
    assert Next(states[n], events[n], states[n + 1]);
    ReportWeighsTable(Replay(ticks).traces, q.traces, g);
    CreditHolds(ticks, Via(g));
  }

  /**
    Even when traces collide, a node costs exactly the ticks whose trace shares its hash with a first
    trace under the node: colliding traces are credited to the first of them.
   */
  lemma NodeCostIsCredit(states: seq<Session>, events: seq<Event>, info: ProfilingInfo, p: Path)
    requires SessionReport(states, events, info) && AllLegal(SinceStart(events))
    requires Marked(SinceStart(events)) && Fits(SinceStart(events)) && p in Tally(info.samples)
    ensures Tally(info.samples)[p] == Credit(SinceStart(events), Via(Under(p)))
  {
    hide Credit, Total, SinceStart, SessionReport, Tally;
    TallyWeighs(info.samples);
    ReportWeighsCredit(states, events, info, Under(p));
  }

  lemma {:induction false} EverythingUnderRoot(traces: seq<CallTraceSample>)
    ensures Sum(traces, Via(Under([]))) == Sum(traces, One)
    decreases |traces|
  {
    hide PathOf, NonNull;
    if traces != [] {
      EverythingUnderRoot(Front(traces));
      var q := PathOf(NonNull(Last(traces).frames));
      assert Begins(q, []);
      assert Via(Under([]))(Last(traces).frames) == Under([])(q) == 1;
    }
  }

  // ---------------------------------------------------------------------------
  // When the plugin accepts the report

  /** The tick's trace has a frame with a method. */
  ghost predicate Named(t: Tick)
    requires Legal(t)
  {
    HasTrace(t) ==> NonNull(TraceOf(t)) != []
  }

  lemma {:induction false} NamelessWeigh(ticks: seq<Tick>)
    requires AllLegal(ticks)
    ensures Weigh(ticks, Via(Exactly([]))) == 0 <==> forall i :: 0 <= i < |ticks| ==> Named(ticks[i])
    decreases |ticks|
  {
    hide NonNull;
    if ticks != [] {
      NamelessWeigh(Front(ticks));
      var n := |ticks| - 1;
      assert forall i :: 0 <= i < n ==> Front(ticks)[i] == ticks[i];
      assert Last(ticks) == ticks[n];
      if HasTrace(ticks[n]) {
        PathAt(NonNull(TraceOf(ticks[n])));
      }
    }
  }

  lemma {:induction false} EmptySamplesWeigh(samples: seq<SampleInfo>)
    requires forall s :: s in samples ==> s.callCount > 0
    ensures Total(samples, Exactly([])) == 0 <==> forall i :: 0 <= i < |samples| ==> samples[i].frames != []
    decreases |samples|
  {
    if samples != [] {
      EmptySamplesWeigh(Front(samples));
      assert forall i :: 0 <= i < |samples| - 1 ==> Front(samples)[i] == samples[i];
      PathAt(Last(samples).frames);
    }
  }

  /** The flame tree rejects the report, with its "empty trace sample", exactly if some tick had only NULL frames. */
  lemma AcceptedIffNamed(states: seq<Session>, events: seq<Event>, info: ProfilingInfo)
    requires SessionReport(states, events, info) && Faithful(SinceStart(events))
    ensures var ticks := SinceStart(events);
      (exists i :: 0 <= i < |info.samples| && info.samples[i].frames == []) <==>
      (exists i :: 0 <= i < |ticks| && !Named(ticks[i]))
  {
    hide Total, Weigh, SessionReport, Named;
    ReportWeighsTicks(states, events, info, Exactly([]));
    NamelessWeigh(SinceStart(events));
    ReportedCountsPositive(states, events, info);
    EmptySamplesWeigh(info.samples);
  }

  // ---------------------------------------------------------------------------
  // The two aggregations agree

  /** Whether a path ends in the method `m`, that is, whether `m` is on top. */
  ghost function EndsIn(m: Word): Path -> nat
  {
    q => if q != [] && Last(q) == m then 1 else 0
  }

  /** The paths of the nodes labelled `m`. */
  ghost function Labelled(costs: Costs, m: Word): set<Path>
  {
    set p | p in costs && p != [] && Last(p) == m
  }

  /** Cost minus the children's costs, by path. */
  ghost function SelfAt(costs: Costs): Path -> nat
  {
    p => if p in costs && costs[p] >= SumOver(Kids(costs, p), CostAt(costs))
      then costs[p] - SumOver(Kids(costs, p), CostAt(costs)) else 0
  }

  lemma SelfSum(samples: seq<SampleInfo>, m: Word)
    ensures var c := Tally(samples);
      SumOver(Labelled(c, m), SelfAt(c)) == Total(samples, EndsIn(m))
  {
    hide PathOf, Tally, Total;
    TallyWeighs(samples);
    var c := Tally(samples);
    var paths := Labelled(c, m);
    forall p | p in paths
      ensures SelfAt(c)(p) == TotalBy(samples, Exactly)(p)
    {
      hide SumOver;
      SelfCost(samples, p);
    }
    SumSame(paths, SelfAt(c), TotalBy(samples, Exactly));
    Exchange(paths, samples, Exactly);
    forall i | 0 <= i < |samples|
      ensures Together(paths, Exactly)(PathOf(samples[i].frames)) == EndsIn(m)(PathOf(samples[i].frames))
    {
      var q := PathOf(samples[i].frames);
      assert Begins(q, q) && Covered(samples, q);
      OneLabel(paths, q);
    }
    TotalSame(samples, Together(paths, Exactly), EndsIn(m));
  }

  lemma OneLabel(paths: set<Path>, q: Path)
    ensures Together(paths, Exactly)(q) == if q in paths then 1 else 0
  {
    forall p | p in paths && p != q
      ensures At(Exactly, q)(p) == 0
    {
      assert At(Exactly, q)(p) == Exactly(p)(q);
    }
    SumSingle(paths, At(Exactly, q), q);
    assert At(Exactly, q)(q) == Exactly(q)(q);
    assert Together(paths, Exactly)(q) == SumOver(paths, At(Exactly, q));
  }

  lemma {:induction false} TopStays(frames: Trace)
    requires frames != [] && frames[0].methodId != 0
    ensures NonNull(frames) != [] && NonNull(frames)[0] == frames[0]
    decreases |frames|
  {
    if |frames| > 1 {
      TopStays(Front(frames));
    } else {
      assert Front(frames) == [];
    }
  }

  lemma {:induction false} TopsWeigh(ticks: seq<Tick>, m: Word)
    requires AllLegal(ticks) && Topped(ticks)
    ensures Weigh(ticks, Via(EndsIn(m))) == Tops(ticks)[m]
    decreases |ticks|
  {
    hide NonNull, PathOf;
    if ticks != [] {
      var n := |ticks| - 1;
      TopsWeigh(Front(ticks), m);
      assert Last(ticks) == ticks[n];
      if HasTrace(ticks[n]) {
        var t := TraceOf(ticks[n]);
        TopStays(t);
        PathAt(NonNull(t));
        var q := PathOf(NonNull(t));
        assert Last(q) == t[0].methodId;
        assert Via(EndsIn(m))(t) == EndsIn(m)(q);
      }
    }
  }

  /** The self costs of the nodes labelled `m` add up to the number of ticks that had `m` on top. */
  lemma SelfCostsAreTops(states: seq<Session>, events: seq<Event>, info: ProfilingInfo, m: Word)
    requires SessionReport(states, events, info) && Faithful(SinceStart(events)) && Topped(SinceStart(events))
    ensures var c := Tally(info.samples);
      SumOver(Labelled(c, m), SelfAt(c)) == Tops(SinceStart(events))[m]
  {
    hide Tally, Total, Weigh, SessionReport, SumOver;
    SelfSum(info.samples, m);
    ReportWeighsTicks(states, events, info, EndsIn(m));
    TopsWeigh(SinceStart(events), m);
  }

  lemma MethodCut(methods: seq<MethodSample>)
    requires Sorted(methods, MethodComparator)
    ensures forall s :: s in MethodsSection(methods) <==> s in methods && s.callCount > 0
  {
    var n := FirstZero(MethodCounts(methods));
    forall j | n <= j < |methods|
      ensures methods[j].callCount == 0
    {
      assert MethodCounts(methods)[n] == 0;
      assert n == j || MethodComparator(methods[n], methods[j]) <= 0;
    }
    forall j | 0 <= j < n
      ensures methods[j].callCount > 0
    {
      assert MethodCounts(methods)[j] > 0;
    }
  }

  lemma MethodEntries(p: Profile, hist: multiset<Word>, s: MethodSample)
    requires MethodsInOrder(p) && Refines(Ids(p.methods), MethodCounts(p.methods), 0, hist)
    ensures s in p.methods && s.callCount > 0 <==> s.methodId in hist && s.callCount == hist[s.methodId]
  {
    var ids := Ids(p.methods);
    if s.methodId in hist && s.callCount == hist[s.methodId] {
      var i :| 0 <= i < |ids| && ids[i] == s.methodId;
      assert MethodCounts(p.methods)[i] == s.callCount;
      assert p.methods[i] == s;
    }
    if s in p.methods && s.callCount > 0 {
      var i :| 0 <= i < |p.methods| && p.methods[i] == s;
      assert ids[i] == s.methodId && MethodCounts(p.methods)[i] == s.callCount;
    }
  }

  /** The methods of the sorted table are those of the replayed one. */
  lemma ReportedMethods(states: seq<Session>, events: seq<Event>, info: ProfilingInfo)
    requires SessionReport(states, events, info)
    ensures AllLegal(SinceStart(events))
    ensures forall s :: s in info.methods <==> s in Replay(SinceStart(events)).methods && s.callCount > 0
  {
    hide Replay, SinceStart, MethodsSection;
    var n := |events| - 1;
    EveryRun(states, events);
    var p, q := Replay(SinceStart(events)), states[n + 1].store;
    assert Next(states[n], events[n], states[n + 1]);
    MethodCut(q.methods);
    forall s
      ensures s in q.methods <==> s in p.methods
    {
      assert s in multiset(q.methods) <==> s in multiset(p.methods);
    }
  }

  /** The methods section lists each method that was on top of a tick, with the number of those ticks, and no other. */
  lemma MethodsSectionExact(states: seq<Session>, events: seq<Event>, info: ProfilingInfo, s: MethodSample)
    requires SessionReport(states, events, info)
    requires AllLegal(SinceStart(events)) && Topped(SinceStart(events)) && MethodsFit(SinceStart(events))
    ensures s in info.methods <==>
      s.methodId in Tops(SinceStart(events)) && s.callCount == Tops(SinceStart(events))[s.methodId]
  {
    hide SessionReport, Replay, SinceStart, Tops, Refines;
    var ticks := SinceStart(events);
    ReportedMethods(states, events, info);
    MethodTableHolds(ticks);
    MethodEntries(Replay(ticks), Tops(ticks), s);
  }

  /**
    The tree and the methods table were built independently and agree: for each method on top of some
    tick, the self costs of the nodes that carry it add up to its count in the methods section.
   */
  lemma AggregationsAgree(states: seq<Session>, events: seq<Event>, info: ProfilingInfo, m: Word)
    requires SessionReport(states, events, info) && Faithful(SinceStart(events))
    requires Topped(SinceStart(events)) && MethodsFit(SinceStart(events)) && m in Tops(SinceStart(events))
    ensures var c := Tally(info.samples);
      MethodSample(SumOver(Labelled(c, m), SelfAt(c)), m) in info.methods
  {
    hide SessionReport, Tally, SumOver, Tops, SinceStart;
    var c := Tally(info.samples);
    SelfCostsAreTops(states, events, info, m);
    MethodsSectionExact(states, events, info, MethodSample(SumOver(Labelled(c, m), SelfAt(c)), m));
  }

  // ---------------------------------------------------------------------------
  // Every label can be named

  /** `NonNull` keeps every frame with a method as often as it occurs, and no other. */
  lemma {:induction false} NonNullKeeps(frames: Trace, f: Frame)
    ensures multiset(NonNull(frames))[f] == if f.methodId != 0 then multiset(frames)[f] else 0
    decreases |frames|
  {
    if frames != [] {
      var last := Last(frames);
      NonNullKeeps(Front(frames), f);
      assert frames == Front(frames) + [last];
      OneMore(Front(frames), last, f);
      OneMore(NonNull(Front(frames)), last, f);
    }
  }

  /** `NonNull` keeps the order of the frames: it works piece by piece. */
  lemma {:induction false} NonNullConcat(a: Trace, b: Trace)
    ensures NonNull(a + b) == NonNull(a) + NonNull(b)
    decreases |b|
  {
    if b == [] {
      assert a + b == a;
    } else {
      var rest, f := Front(b), Last(b);
      NonNullConcat(a, rest);
      assert Front(a + b) == a + rest && Last(a + b) == f;
      assert (NonNull(a) + NonNull(rest)) + [f] == NonNull(a) + (NonNull(rest) + [f]);
    }
  }

  lemma {:induction false} NonNullIds(frames: Trace)
    ensures forall f :: f in NonNull(frames) ==> f.methodId != 0
    decreases |frames|
  {
    if frames != [] {
      NonNullIds(Front(frames));
    }
  }

  lemma ReportedFrames(states: seq<Session>, events: seq<Event>, info: ProfilingInfo, i: nat)
    requires SessionReport(states, events, info) && i < |info.samples|
    ensures forall f :: f in info.samples[i].frames ==> f.methodId != 0
  {
    hide NonNull;
    var q := Last(states).store;
    assert info.samples[i] == Info(q.traces[i]);
    NonNullIds(q.traces[i].frames);
  }

  /** Each node but the root carries a method id that has a MethodInfo, and it is not the root's id. */
  lemma LabelsHaveInfos(states: seq<Session>, events: seq<Event>, info: ProfilingInfo, p: Path)
    requires SessionReport(states, events, info) && p in Tally(info.samples) && p != []
    ensures Last(p) != 0 && Last(p) in info.methodInfos
  {
    hide Tally, PathOf, NonNull;
    TallyWeighs(info.samples);
    var i :| 0 <= i < |info.samples| && Begins(PathOf(info.samples[i].frames), p);
    var frames := info.samples[i].frames;
    PathAt(frames);
    var j := |frames| - |p|;
    assert Last(p) == PathOf(frames)[|p| - 1] == frames[j].methodId;
    assert frames[j].methodId in IdsOfSamples(info.samples);
    ReportedFrames(states, events, info, i);
    assert frames[j] in frames;
  }

  /** The root's id 0 has no MethodInfo, so the root alone falls back to the synthetic one. */
  lemma RootHasNoInfo(states: seq<Session>, events: seq<Event>, info: ProfilingInfo)
    requires SessionReport(states, events, info) && AllLegal(SinceStart(events)) && Topped(SinceStart(events))
    ensures 0 !in info.methodInfos
  {
    hide NonNull, Replay;
    ReportedMethods(states, events, info);
    MethodTableHolds(SinceStart(events));
    var p := Replay(SinceStart(events));
    forall i | 0 <= i < |info.methods|
      ensures info.methods[i].methodId != 0
    {
      assert info.methods[i] in info.methods;
      var k :| 0 <= k < |p.methods| && p.methods[k] == info.methods[i];
    }
    forall i, j | 0 <= i < |info.samples| && 0 <= j < |info.samples[i].frames|
      ensures info.samples[i].frames[j].methodId != 0
    {
      ReportedFrames(states, events, info, i);
      assert info.samples[i].frames[j] in info.samples[i].frames;
    }
  }

  // ---------------------------------------------------------------------------
  // Reports of the same ticks

  /** The samples of a report are the slots in use after its session's ticks. */
  lemma ReportedSamples(states: seq<Session>, events: seq<Event>, info: ProfilingInfo)
    requires SessionReport(states, events, info)
    ensures AllLegal(SinceStart(events))
    ensures multiset(info.samples) == multiset(Infos(Occupied(Replay(SinceStart(events)).traces)))
    ensures forall i, j :: 0 <= i < j < |info.samples| ==> info.samples[i].callCount >= info.samples[j].callCount
  {
    hide Replay, SinceStart, NonNull, Occupied;
    var n := |events| - 1;
    EveryRun(states, events);
    var p, q := Replay(SinceStart(events)), states[n + 1].store;
    assert Next(states[n], events[n], states[n + 1]);
    ReportIsComplete(p.traces, q.traces);
    InfosPermute(q.traces[..FirstZero(TraceCounts(q.traces))], Occupied(p.traces));
  }

  /** A second STOP, and any other STOP with the same ticks since START, reports the same multiset of samples. */
  lemma SameTicksSameReport(states: seq<Session>, events: seq<Event>, info: ProfilingInfo,
                            states': seq<Session>, events': seq<Event>, info': ProfilingInfo)
    requires SessionReport(states, events, info) && SessionReport(states', events', info')
    requires SinceStart(events) == SinceStart(events')
    ensures multiset(info.samples) == multiset(info'.samples)
    ensures info'.(methods := info.methods, samples := info.samples, methodInfos := info.methodInfos) == info
    ensures forall s :: s in info.methods <==> s in info'.methods
    ensures forall id :: id in info.methodInfos <==> id in info'.methodInfos
  {
    hide Replay, Record, SinceStart, Occupied, SamplesSection, MethodsSection;
    ReportedSamples(states, events, info);
    ReportedSamples(states', events', info');
    ReportedMethods(states, events, info);
    ReportedMethods(states', events', info');
    SameIds(info, info');
    EveryRun(states, events);
    EveryRun(states', events');
  }

  lemma SameIds(info: ProfilingInfo, info': ProfilingInfo)
    requires multiset(info.samples) == multiset(info'.samples)
    requires forall s :: s in info.methods <==> s in info'.methods
    ensures IdsOfMethods(info.methods) == IdsOfMethods(info'.methods)
    ensures IdsOfSamples(info.samples) == IdsOfSamples(info'.samples)
  {
    MoreIds(info, info');
    MoreIds(info', info);
  }

  lemma MoreIds(info: ProfilingInfo, info': ProfilingInfo)
    requires multiset(info.samples) == multiset(info'.samples)
    requires forall s :: s in info.methods <==> s in info'.methods
    ensures IdsOfMethods(info.methods) <= IdsOfMethods(info'.methods)
    ensures IdsOfSamples(info.samples) <= IdsOfSamples(info'.samples)
  {
    forall i | 0 <= i < |info.methods|
      ensures info.methods[i].methodId in IdsOfMethods(info'.methods)
    {
      assert info.methods[i] in info'.methods;
      var k :| 0 <= k < |info'.methods| && info'.methods[k] == info.methods[i];
    }
    forall i, j | 0 <= i < |info.samples| && 0 <= j < |info.samples[i].frames|
      ensures info.samples[i].frames[j].methodId in IdsOfSamples(info'.samples)
    {
      assert info.samples[i] in multiset(info'.samples);
      var k :| 0 <= k < |info'.samples| && info'.samples[k] == info.samples[i];
    }
  }

  /** STOP again, with nothing in between, adds no tick and clears none. */
  lemma StopAgain(events: seq<Event>)
    ensures SinceStart(events + [Asked(STOP_PROFILING)]) == SinceStart(events)
    ensures RunningAfter(events) ==> SinceStart(events + [Asked(START_PROFILING)]) == SinceStart(events)
  {
    assert Front(events + [Asked(STOP_PROFILING)]) == events;
    assert Front(events + [Asked(START_PROFILING)]) == events;
  }

  // ---------------------------------------------------------------------------
  // What a report counts

  /** Each tick is of one kind: by the answer it got, or by having got none. */
  lemma OneKind(t: Tick)
    requires Legal(t)
    ensures IsNonJava(t) <==> t == NoEnv
    ensures IsGc(t) <==> t.Walked? && t.numFrames == -2
    ensures IsDeopt(t) <==> t.Walked? && t.numFrames == -9
    ensures IsUnknown(t) <==> t.Walked? && t.numFrames <= 0 && t.numFrames != -2 && t.numFrames != -9
    ensures HasTrace(t) <==> t.Walked? && 0 < t.numFrames <= 64
    ensures HasTrace(t) ==> TraceOf(t) == t.buffer[..t.numFrames]
  {
  }

  /** The counters of every report are the numbers of ticks of each kind since START. */
  lemma ReportedCounters(states: seq<Session>, events: seq<Event>, info: ProfilingInfo)
    requires SessionReport(states, events, info)
    ensures AllLegal(SinceStart(events))
    ensures var ticks := SinceStart(events);
      && info.total == |ticks|
      && info.nonJava == Count(ticks, IsNonJava) && info.gc == Count(ticks, IsGc)
      && info.deopt == Count(ticks, IsDeopt) && info.unknown == Count(ticks, IsUnknown)
  {
    hide Replay, SinceStart, Count;
    EveryRun(states, events);
    CountersCount(SinceStart(events));
    Conservation(SinceStart(events));
  }

  /** The methods section comes in non-increasing order of count. */
  lemma MethodsDescend(states: seq<Session>, events: seq<Event>, info: ProfilingInfo)
    requires SessionReport(states, events, info)
    ensures forall i, j :: 0 <= i < j < |info.methods| ==> info.methods[i].callCount >= info.methods[j].callCount
  {
    var n := |events| - 1;
    var q := states[n + 1].store;
    assert Next(states[n], events[n], states[n + 1]);
    forall i, j | 0 <= i < j < |info.methods|
      ensures info.methods[i].callCount >= info.methods[j].callCount
    {
      assert info.methods[i] == q.methods[i] && info.methods[j] == q.methods[j];
      assert MethodComparator(q.methods[i], q.methods[j]) <= 0;
    }
  }

  /** The report has one MethodInfo for each method that it mentions, in a sample or in the methods section. */
  lemma ReportedInfos(states: seq<Session>, events: seq<Event>, info: ProfilingInfo, id: Word)
    requires SessionReport(states, events, info)
    ensures multiset(info.methodInfos)[id] ==
      if (exists i :: 0 <= i < |info.methods| && info.methods[i].methodId == id)
         || (exists i, j :: 0 <= i < |info.samples| && 0 <= j < |info.samples[i].frames|
               && info.samples[i].frames[j].methodId == id)
      then 1 else 0
  {
    OnceEach(info.methodInfos, id);
  }

  lemma {:induction false} OnceEach<T>(s: seq<T>, x: T)
    requires NoDuplicates(s)
    ensures multiset(s)[x] == if x in s then 1 else 0
  {
    if s != [] {
      var front := Front(s);
      OnceEach(front, x);
      assert s == front + [Last(s)];
    }
  }

  // ---------------------------------------------------------------------------
  // Sizes

  lemma {:induction false} OneBoundsSlot(traces: seq<CallTraceSample>, i: nat)
    requires i < |traces|
    ensures traces[i].callCount <= Sum(traces, One)
    decreases |traces|
  {
    if i < |traces| - 1 {
      OneBoundsSlot(Front(traces), i);
    }
  }

  /** No counter of the agent exceeds the number of ticks: none overflows before `_calls_total` does. */
  lemma CountersBounded(ticks: seq<Tick>, i: nat)
    requires AllLegal(ticks) && i < MAX_CALLTRACES
    ensures var p := Replay(ticks);
      && p.nonJava <= |ticks| && p.gc <= |ticks| && p.deopt <= |ticks| && p.unknown <= |ticks|
      && p.traces[i].callCount <= |ticks| && p.methods[i].callCount <= |ticks| && p.total == |ticks|
  {
    hide Replay, Lost;
    Conservation(ticks);
    OneBoundsSlot(Replay(ticks).traces, i);
    MethodsBounded(ticks, i);
  }

  lemma {:induction false} RootWeighsMost(samples: seq<SampleInfo>, p: Path)
    ensures Total(samples, Under(p)) <= Total(samples, Under([]))
    decreases |samples|
  {
    hide PathOf;
    if samples != [] {
      RootWeighsMost(Front(samples), p);
      var q := PathOf(Last(samples).frames);
      assert Begins(q, []) && Under(p)(q) <= Under([])(q) == 1;
      assert Last(samples).callCount * Under(p)(q) <= Last(samples).callCount * Under([])(q);
    }
  }

  /** No cost of the flame tree exceeds `_calls_total`, in any session. */
  lemma CostsBounded(states: seq<Session>, events: seq<Event>, info: ProfilingInfo, p: Path)
    requires SessionReport(states, events, info) && p in Tally(info.samples)
    ensures Tally(info.samples)[p] <= info.total
  {
    hide Tally, Total, SessionReport, Lost;
    RootCost(states, events, info);
    TallyWeighs(info.samples);
    RootWeighsMost(info.samples, p);
  }
}
