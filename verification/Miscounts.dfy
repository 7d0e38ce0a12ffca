/** Sessions at which the promise of the profiler fails, run on the mutable classes. */
module Miscounts {
  import opened Words
  import opened Hashing
  import opened ProbeTable
  import opened Samples
  import opened Tables
  import opened Reports
  import opened Sessions
  import opened Totals
  import opened FlameTrees
  import opened Truthful
  import opened Exactness
  import opened Pipeline

  /** A tick that finds the given frames on the stack: any up to 64 of them. */
  function TickWith(frames: Trace): (t: Tick)
    requires 0 < |frames| <= 64
    ensures Legal(t) && HasTrace(t) && TraceOf(t) == frames
  {
    var t := Walked(|frames|, frames + seq(MAX_FRAMES - |frames|, _ => Frame(0, 0)));
    assert t.buffer[..|frames|] == frames;
    t
  }

  /** Of two traces that differ in one key, one at least has a hash that does not mark an empty slot. */
  function Nonzero(s: Trace, t: Trace): Trace
  {
    if HashTrace(s) != 0 then s else t
  }

  lemma OneIsNonzero(s: Trace, t: Trace, j: nat)
    requires j < |s| == |t| && Key(s[j]) != Key(t[j])
    requires forall i :: 0 <= i < |s| && i != j ==> Key(s[i]) == Key(t[i])
    ensures HashTrace(Nonzero(s, t)) != 0
  {
    hide HashTrace, Key;
    HashTraceSeparates(s, t, j);
  }

  // ---------------------------------------------------------------------------
  // A report at every moment

  /** Profiles the run once up to each of its moments; every tree is exact if and only if the run is faithful. */
  method ReportEachMoment(ticks: seq<Tick>) returns (infos: seq<ProfilingInfo>)
    requires AllLegal(ticks) && Marked(ticks)
    ensures |infos| == |ticks| + 1
    ensures Faithful(ticks) <==>
      forall k :: 0 <= k <= |ticks| ==> AllLegal(ticks[..k]) && TreeExact(infos[k], ticks[..k])
  {
    hide Marked, Faithful, TreeExact, SessionReport, SinceStart, Begun;
    infos := [];
    ghost var moments: seq<Moment> := [];
    for i := 0 to |ticks| + 1
      invariant |infos| == |moments| == i
      invariant forall k :: 0 <= k < i ==> moments[k].info == infos[k]
      invariant forall k :: 0 <= k < i ==> ReportedAt(moments[k], ticks[..k])
    {
      var info;
      ghost var states;
      info, states := Report(ticks[..i]);
      BegunTicks(ticks[..i]);
      infos := infos + [info];
      moments := moments + [Moment(states, Begun(ticks[..i]) + [Asked(STOP_PROFILING)], info)];
    }
    ExactIffFaithful(ticks, moments);
  }

  // ---------------------------------------------------------------------------
  // A collision

  /** Two methods deep, and of a nonzero hash. */
  function DeepTrace(): (s: Trace)
    ensures |s| == 2 && s[0] == Frame(0, 1) && s[1].bci == 0 && s[1].methodId in {2, 3}
  {
    Nonzero([Frame(0, 1), Frame(0, 2)], [Frame(0, 1), Frame(0, 3)])
  }

  /** The first tick finds the deep trace, the second one a single frame that has the same hash. */
  function CollidingTicks(): (ticks: seq<Tick>)
    ensures AllLegal(ticks) && |ticks| == 2
  {
    [TickWith(DeepTrace()), TickWith([FrameOfHash(HashTrace(DeepTrace()))])]
  }

  lemma Colliding()
    ensures var ticks, s := CollidingTicks(), DeepTrace();
      && HasTrace(ticks[0]) && HasTrace(ticks[1]) && TraceOf(ticks[0]) == s && |TraceOf(ticks[1])| == 1
      && HashTrace(TraceOf(ticks[0])) == HashTrace(TraceOf(ticks[1])) == HashTrace(s) != 0
  {
    hide HashTrace, FrameOfHash, Key;
    PlainKey(2);
    PlainKey(3);
    OneIsNonzero([Frame(0, 1), Frame(0, 2)], [Frame(0, 1), Frame(0, 3)], 1);
    var f := EveryHashOccurs(HashTrace(DeepTrace()));
  }

  lemma OneTick(t: Tick, f: Trace -> nat)
    requires Legal(t) && HasTrace(t)
    ensures Credit([t], f) == f(TraceOf(t)) && FirstTraces([t]) == map[HashTrace(TraceOf(t)) := TraceOf(t)]
    ensures Hashes([t]) == multiset{HashTrace(TraceOf(t))}
  {
    hide HashTrace;
    assert Front([t]) == [];
    assert Credit([], f) == 0 && FirstTraces([]) == map[] && Hashes([]) == multiset{};
  }

  /** Both ticks are credited to the trace of the first one. */
  lemma OneHash(t: Tick, u: Tick, f: Trace -> nat)
    requires Legal(t) && Legal(u) && HasTrace(t) && HasTrace(u) && HashTrace(TraceOf(t)) == HashTrace(TraceOf(u)) != 0
    ensures Marked([t, u]) && Fits([t, u]) && Credit([t, u], f) == 2 * f(TraceOf(t))
  {
    hide HashTrace, FirstTraces;
    OneTick(t, f);
    assert Front([t, u]) == [t];
    assert Credit([t, u], f) == Credit([t], f) + f(FirstTraces([t])[HashTrace(TraceOf(u))]);
    var h := HashTrace(TraceOf(t));
    assert Hashes([t, u]) == multiset{h, h};
    assert Support(Hashes([t, u])) == {h};
  }

  lemma {:induction false} NonNullShorter(frames: Trace)
    ensures |NonNull(frames)| <= |frames|
    decreases |frames|
  {
    if frames != [] {
      NonNullShorter(Front(frames));
    }
  }

  function DeepPath(): Path
  {
    PathOf(DeepTrace())
  }

  lemma DeepReported()
    ensures NonNull(DeepTrace()) == DeepTrace() && |DeepPath()| == 2
  {
    var s := DeepTrace();
    hide DeepTrace;
    PathAt(s);
    assert s == [s[0]] + [s[1]];
    NonNullConcat([s[0]], [s[1]]);
    TopStays([s[0]]);
    TopStays([s[1]]);
    NonNullShorter([s[0]]);
    NonNullShorter([s[1]]);
  }

  lemma CollidingWeights()
    ensures var ticks, p := CollidingTicks(), DeepPath();
      Marked(ticks) && Fits(ticks) && Credit(ticks, Via(Under(p))) == 2 && TicksUnder(ticks, p) == 1
  {
    var ticks, p := CollidingTicks(), DeepPath();
    hide HashTrace, NonNull, PathOf, DeepTrace, CollidingTicks, Credit, Fits, Marked, DeepPath;
    Colliding();
    DeepReported();
    assert ticks == [ticks[0], ticks[1]];
    OneHash(ticks[0], ticks[1], Via(Under(p)));
    assert Front(ticks) == [ticks[0]] && Front([ticks[0]]) == [];
    NonNullShorter(TraceOf(ticks[1]));
    PathAt(NonNull(TraceOf(ticks[1])));
    assert TickPath(ticks[0]) == p by { assert p == PathOf(DeepTrace()) by { DeepIs(); } }
    assert TicksUnder([ticks[0]], p) == 1;
  }

  lemma DeepIs()
    ensures DeepPath() == PathOf(DeepTrace())
  {
  }

  /** Every report of the two colliding ticks counts both at a path that only one of them took. */
  lemma CollisionMiscounts(states: seq<Session>, events: seq<Event>, info: ProfilingInfo)
    requires SessionReport(states, events, info) && SinceStart(events) == CollidingTicks()
    ensures DeepPath() in Tally(info.samples)
    ensures Tally(info.samples)[DeepPath()] == 2 && TicksUnder(CollidingTicks(), DeepPath()) == 1
  {
    var p := DeepPath();
    hide SessionReport, CollidingTicks, DeepPath, Tally, Total, Credit, Marked, Fits, TicksUnder, Covered;
    CollidingWeights();
    ReportWeighsCredit(states, events, info, Under(p));
    TallyWeighs(info.samples);
    if !Covered(info.samples, p) {
      UncoveredWeighsNothing(info.samples, p);
    }
  }

  /** The session itself: its tree has a node of cost 2 at a path that one tick took. */
  method MiscountedSession() returns (ticks: seq<Tick>, path: Path, r: Result)
    ensures ticks == CollidingTicks() && path == DeepPath()
    ensures r.Built? && path in r.tree.nodes && r.tree.nodes[path].cost == 2 && TicksUnder(ticks, path) == 1
  {
    ticks, path := CollidingTicks(), DeepPath();
    hide SessionReport, CollidingTicks, DeepPath, Tally, Marked, Fits, TicksUnder, Begun, SinceStart, Refused;
    hide IsFirst, Named;
    var info;
    ghost var states;
    info, states := Report(ticks);
    ghost var events := Begun(ticks) + [Asked(STOP_PROFILING)];
    BegunTicks(ticks);
    CollisionMiscounts(states, events, info);
    CollidingWeights();
    RefusedIffFirst(states, events, info);
    CollidingNamed();
    r := FlameTree.Build(info.samples);
    assert !Refused(info);
    assert r.Built? by { NotRefused(info); }
    assert r.tree.nodes[path].cost == r.tree.CostMap()[path];
  }

  lemma CollidingNamed()
    ensures var ticks := CollidingTicks();
      forall i :: 0 <= i < |ticks| && IsFirst(ticks, i) ==> Named(ticks[i])
  {
    hide HashTrace, NonNull, DeepTrace, CollidingTicks;
    Colliding();
    DeepReported();
  }

  lemma NotRefused(info: ProfilingInfo)
    requires !Refused(info)
    ensures forall i :: 0 <= i < |info.samples| ==> info.samples[i].frames != []
  {
  }

  // ---------------------------------------------------------------------------
  // A trace of NULL methods

  /** One frame without a method, and of a nonzero hash. */
  function NullTrace(): (s: Trace)
    ensures |s| == 1 && s[0].methodId == 0
  {
    Nonzero([Frame(0, 0)], [Frame(1, 0)])
  }

  lemma NullTick()
    ensures var ticks := [TickWith(NullTrace())];
      Faithful(ticks) && !Named(ticks[0])
  {
    hide HashTrace, TickWith, FirstTraces;
    var t := TickWith(NullTrace());
    PlainKey(0);
    assert Key(Frame(1, 0)) != 0 by { ShiftedKey(); }
    OneIsNonzero([Frame(0, 0)], [Frame(1, 0)], 0);
    OneTick(t, Via(Under([])));
    assert Support(Hashes([t])) == {HashTrace(TraceOf(t))};
    assert Front(NullTrace()) == [];
  }

  /** A faithful session of one tick whose report the plugin refuses. */
  method RefusedSession() returns (ticks: seq<Tick>, r: Result)
    ensures Faithful(ticks) && |ticks| == 1 && r.IllegalArgument?
  {
    ticks := [TickWith(NullTrace())];
    NullTick();
    hide *;
    var info;
    ghost var states;
    info, r, states := ProfileSession(ticks);
  }

  // ---------------------------------------------------------------------------
  // More keys than slots

  /** A tick for each of the hashes 1 to `n`. */
  lemma {:induction false} ManyHashes(n: nat) returns (ticks: seq<Tick>)
    requires n < WORDS
    ensures AllLegal(ticks) && |ticks| == n && Marked(ticks) && |Support(Hashes(ticks))| == n
    ensures forall h :: h in Hashes(ticks) ==> 1 <= h <= n
  {
    hide HashTrace, FrameOfHash;
    if n == 0 {
      ticks := [];
    } else {
      var rest := ManyHashes(n - 1);
      var f := EveryHashOccurs(n);
      var t := TickOf(f);
      ticks := rest + [t];
      assert Front(ticks) == rest && Last(ticks) == t;
      assert Hashes(ticks) == Hashes(rest) + multiset{n};
      SupportGrows(Hashes(rest), n);
    }
  }

  /** A run with one hash more than there are slots loses samples, and the root of any report of it costs too little. */
  lemma OverflowLoses() returns (ticks: seq<Tick>)
    ensures AllLegal(ticks) && |ticks| == 32769 && Marked(ticks) && !Fits(ticks) && Lost(ticks) > 0
    ensures forall states, events, info :: SessionReport(states, events, info) && SinceStart(events) == ticks ==>
      [] in Tally(info.samples) && Tally(info.samples)[[]] < TicksUnder(ticks, [])
  {
    hide SessionReport, SinceStart, Tally, Lost, TicksUnder, Marked;
    ticks := ManyHashes(MAX_CALLTRACES + 1);
    LossIffOverflow(ticks);
    forall states, events, info | SessionReport(states, events, info) && SinceStart(events) == ticks
      ensures [] in Tally(info.samples) && Tally(info.samples)[[]] < TicksUnder(ticks, [])
    {
      RootLoses(states, events, info);
    }
  }

  /** A tick for each of the methods 1 to `n` on top. */
  lemma {:induction false} ManyTops(n: nat) returns (ticks: seq<Tick>)
    requires n < WORDS
    ensures AllLegal(ticks) && |ticks| == n && Topped(ticks) && |Support(Tops(ticks))| == n
    ensures forall m :: m in Tops(ticks) ==> 1 <= m <= n
  {
    if n == 0 {
      ticks := [];
    } else {
      var rest := ManyTops(n - 1);
      var t := TickOf(Frame(0, n));
      ticks := rest + [t];
      assert Front(ticks) == rest && Last(ticks) == t;
      assert Tops(ticks) == Tops(rest) + multiset{n};
      SupportGrows(Tops(rest), n);
    }
  }

  /** With one method on top more than there are slots, the methods section of every report is wrong. */
  lemma OverflowHidesMethods() returns (ticks: seq<Tick>)
    ensures AllLegal(ticks) && |ticks| == 32769 && Topped(ticks) && !MethodsFit(ticks)
    ensures forall states, events, info :: SessionReport(states, events, info) && SinceStart(events) == ticks ==>
      !MethodsExact(info, ticks)
  {
    hide SessionReport, SinceStart, MethodsExact, Topped;
    ticks := ManyTops(MAX_CALLTRACES + 1);
    forall states, events, info | SessionReport(states, events, info) && SinceStart(events) == ticks
      ensures !MethodsExact(info, ticks)
    {
      MethodsExactIffFit(states, events, info);
    }
  }
}
