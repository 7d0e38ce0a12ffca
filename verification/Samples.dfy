/**
  The sample store of the agent as a value: what one SIGPROF tick does to the counters and to the two
  tables, as a function, and what the store has become after any sequence of ticks.
 */
module Samples {
  import opened Words
  import opened Hashing
  import opened ProbeTable

  const MAX_FRAMES: nat := 64

  type Trace = seq<Frame>

  datatype CallTraceSample = CallTraceSample(callCount: nat, frames: Trace)

  datatype MethodSample = MethodSample(callCount: nat, methodId: Word)

  datatype Profile = Profile(
    total: nat, nonJava: nat, gc: nat, deopt: nat, unknown: nat,
    hashes: seq<Word>, traces: seq<CallTraceSample>, methods: seq<MethodSample>)

  /**
    What one tick meets: a thread without a JNI environment, or what AsyncGetCallTrace left in the
    frame buffer, with the number of frames or an error code.
   */
  datatype Tick = NoEnv | Walked(numFrames: int, buffer: seq<Frame>)

  /** AsyncGetCallTrace is given a buffer of `MAX_FRAMES` frames and reports no more than that. */
  ghost predicate Legal(t: Tick)
  {
    t.Walked? ==> |t.buffer| == MAX_FRAMES && t.numFrames <= MAX_FRAMES
  }

  ghost predicate AllLegal(ticks: seq<Tick>)
  {
    forall i :: 0 <= i < |ticks| ==> Legal(ticks[i])
  }

  predicate HasTrace(t: Tick)
  {
    t.Walked? && t.numFrames > 0
  }

  function TraceOf(t: Tick): Trace
    requires HasTrace(t) && t.numFrames <= |t.buffer|
  {
    t.buffer[..t.numFrames]
  }

  // ---------------------------------------------------------------------------
  // One tick

  ghost predicate Shaped(p: Profile)
  {
    |p.hashes| == MAX_CALLTRACES && |p.traces| == MAX_CALLTRACES && |p.methods| == MAX_CALLTRACES
  }

  /** The store after START: everything is zero. */
  ghost function Cleared(): (p: Profile)
    ensures Shaped(p)
  {
    Profile(0, 0, 0, 0, 0,
            seq(MAX_CALLTRACES, _ => 0),
            seq(MAX_CALLTRACES, _ => CallTraceSample(0, [])),
            seq(MAX_CALLTRACES, _ => MethodSample(0, 0)))
  }

  function TraceHome(hash: Word): nat { hash % MAX_CALLTRACES }

  function MethodHome(m: Word): nat { HashMethod(m) % MAX_CALLTRACES }

  /** The slots at which the probe loop of `storeCallTrace` ends. */
  ghost function TraceStops(p: Profile, hash: Word): (stop: seq<bool>)
    requires Shaped(p)
    ensures |stop| == MAX_CALLTRACES
  {
    seq(MAX_CALLTRACES, i requires 0 <= i < MAX_CALLTRACES => TraceHit(p, hash, i) || p.hashes[i] == 0)
  }

  ghost predicate TraceHit(p: Profile, hash: Word, i: nat)
    requires Shaped(p) && i < MAX_CALLTRACES
  {
    p.hashes[i] == hash && p.traces[i].callCount > 0
  }

  ghost function TraceSlot(p: Profile, hash: Word): (i: nat)
    requires Shaped(p)
    ensures i < MAX_CALLTRACES
  {
    Scan(TraceStops(p, hash), TraceHome(hash), 0)
  }

  ghost function StoreTrace(p: Profile, hash: Word, frames: Trace): (p': Profile)
    requires Shaped(p)
    ensures Shaped(p') && p' == p.(hashes := p'.hashes, traces := p'.traces)
  {
    var i := TraceSlot(p, hash);
    if TraceHit(p, hash, i) then
      p.(traces := p.traces[i := p.traces[i].(callCount := p.traces[i].callCount + 1)])
    else
      p.(hashes := p.hashes[i := hash], traces := p.traces[i := CallTraceSample(1, frames)])
  }

  ghost function Ids(methods: seq<MethodSample>): (ids: seq<Word>)
    ensures |ids| == |methods|
  {
    seq(|methods|, i requires 0 <= i < |methods| => methods[i].methodId)
  }

  ghost function MethodCounts(methods: seq<MethodSample>): (counts: seq<nat>)
    ensures |counts| == |methods|
  {
    seq(|methods|, i requires 0 <= i < |methods| => methods[i].callCount)
  }

  ghost function TraceCounts(traces: seq<CallTraceSample>): (counts: seq<nat>)
    ensures |counts| == |traces|
  {
    seq(|traces|, i requires 0 <= i < |traces| => traces[i].callCount)
  }

  ghost function MethodSlot(p: Profile, m: Word): (i: nat)
    requires Shaped(p)
    ensures i < MAX_CALLTRACES
  {
    Scan(Stops(Ids(p.methods), 0, m), MethodHome(m), 0)
  }

  ghost function StoreMethod(p: Profile, m: Word): (p': Profile)
    requires Shaped(p)
    ensures Shaped(p') && p' == p.(methods := p'.methods)
  {
    var i := MethodSlot(p, m);
    var s := p.methods[i];
    p.(methods := p.methods[i := if s.methodId == m then s.(callCount := s.callCount + 1) else MethodSample(1, m)])
  }

  /** `recordSample` */
  ghost function Record(p: Profile, t: Tick): (p': Profile)
    requires Shaped(p) && Legal(t)
    ensures Shaped(p')
  {
    var q := p.(total := p.total + 1);
    if t.NoEnv? then q.(nonJava := q.nonJava + 1)
    else if t.numFrames > 0 then
      StoreMethod(StoreTrace(q, HashTrace(TraceOf(t)), TraceOf(t)), t.buffer[0].methodId)
    else if t.numFrames == -2 then q.(gc := q.gc + 1)
    else if t.numFrames == -9 then q.(deopt := q.deopt + 1)
    else q.(unknown := q.unknown + 1)
  }

  // ---------------------------------------------------------------------------
  // Any sequence of ticks

  ghost function Replay(ticks: seq<Tick>): (p: Profile)
    requires AllLegal(ticks)
    ensures Shaped(p)
    decreases |ticks|
  {
    if ticks == [] then Cleared() else Record(Replay(Front(ticks)), Last(ticks))
  }

  function Front<T>(s: seq<T>): seq<T> requires s != [] { s[..|s| - 1] }

  function Last<T>(s: seq<T>): T requires s != [] { s[|s| - 1] }

  /** The samples that a tick throws away because its trace lands on an occupied slot. */
  ghost function Overwritten(p: Profile, t: Tick): nat
    requires Shaped(p) && Legal(t)
  {
    if HasTrace(t) then
      var h := HashTrace(TraceOf(t));
      var i := TraceSlot(p, h);
      if TraceHit(p, h, i) then 0 else p.traces[i].callCount
    else 0
  }

  ghost function Lost(ticks: seq<Tick>): nat
    requires AllLegal(ticks)
    decreases |ticks|
  {
    if ticks == [] then 0 else Lost(Front(ticks)) + Overwritten(Replay(Front(ticks)), Last(ticks))
  }

  /** How often each trace hash was stored. */
  ghost function Hashes(ticks: seq<Tick>): multiset<Word>
    requires AllLegal(ticks)
    decreases |ticks|
  {
    if ticks == [] then multiset{}
    else if HasTrace(Last(ticks)) then Hashes(Front(ticks)) + multiset{HashTrace(TraceOf(Last(ticks)))}
    else Hashes(Front(ticks))
  }

  /** How often each method was on top of a trace. */
  ghost function Tops(ticks: seq<Tick>): multiset<Word>
    requires AllLegal(ticks)
    decreases |ticks|
  {
    if ticks == [] then multiset{}
    else if HasTrace(Last(ticks)) then Tops(Front(ticks)) + multiset{Last(ticks).buffer[0].methodId}
    else Tops(Front(ticks))
  }

  /** The ticks that `keep` holds of. */
  ghost function Count(ticks: seq<Tick>, keep: Tick -> bool): nat
    decreases |ticks|
  {
    if ticks == [] then 0 else Count(Front(ticks), keep) + (if keep(Last(ticks)) then 1 else 0)
  }

  /** The counts of a table of traces, each weighted by what `f` makes of its trace. */
  ghost function Sum(traces: seq<CallTraceSample>, f: Trace -> nat): nat
    decreases |traces|
  {
    if traces == [] then 0
    else Sum(Front(traces), f) + Last(traces).callCount * f(Last(traces).frames)
  }

  function One(frames: Trace): nat { 1 }

  lemma {:induction false} SumUpdate(traces: seq<CallTraceSample>, f: Trace -> nat, i: nat, s: CallTraceSample)
    requires i < |traces|
    ensures Sum(traces[i := s], f) + traces[i].callCount * f(traces[i].frames)
         == Sum(traces, f) + s.callCount * f(s.frames)
    decreases |traces|
  {
    if i < |traces| - 1 {
      SumUpdate(Front(traces), f, i, s);
      assert Front(traces[i := s]) == Front(traces)[i := s];
    } else {
      assert Front(traces[i := s]) == Front(traces);
    }
  }

  lemma {:induction false} SumOfZeros(traces: seq<CallTraceSample>, f: Trace -> nat)
    requires forall s :: s in traces ==> s.callCount == 0
    ensures Sum(traces, f) == 0
    decreases |traces|
  {
    if traces != [] {
      SumOfZeros(Front(traces), f);
    }
  }

  // ---------------------------------------------------------------------------
  // Conservation

  /**
    No tick is unaccounted for, whatever the traces and their hashes: each one is in exactly one of
    the four special counters, on a slot of the trace table, or was overwritten there.
   */
  lemma {:induction false} Conservation(ticks: seq<Tick>)
    requires AllLegal(ticks)
    ensures var p := Replay(ticks);
      && p.total == |ticks|
      && p.total == p.nonJava + p.gc + p.deopt + p.unknown + Sum(p.traces, One) + Lost(ticks)
    decreases |ticks|
  {
    if ticks == [] {
      SumOfZeros(Cleared().traces, One);
    } else {
      Conservation(Front(ticks));
      RecordConserves(Replay(Front(ticks)), Last(ticks));
    }
  }

  lemma RecordConserves(p: Profile, t: Tick)
    requires Shaped(p) && Legal(t)
    ensures var p' := Record(p, t);
      && p'.total == p.total + 1
      && p'.nonJava + p'.gc + p'.deopt + p'.unknown + Sum(p'.traces, One) + Overwritten(p, t)
         == p.nonJava + p.gc + p.deopt + p.unknown + Sum(p.traces, One) + 1
  {
    hide HashTrace, Scan, Sum, StoreMethod;
    if HasTrace(t) {
      var q := p.(total := p.total + 1);
      assert TraceStops(q, HashTrace(TraceOf(t))) == TraceStops(p, HashTrace(TraceOf(t)));
      StoreConserves(q, HashTrace(TraceOf(t)), TraceOf(t), One);
    }
  }

  /** Storing a trace adds its weight to the table and takes away what it overwrites. */
  lemma StoreConserves(p: Profile, hash: Word, frames: Trace, f: Trace -> nat)
    requires Shaped(p)
    ensures var i := TraceSlot(p, hash);
      var before := p.traces[i];
      Sum(StoreTrace(p, hash, frames).traces, f) ==
        if TraceHit(p, hash, i) then Sum(p.traces, f) + f(before.frames)
        else Sum(p.traces, f) + f(frames) - before.callCount * f(before.frames)
  {
    var i := TraceSlot(p, hash);
    SumUpdate(p.traces, f, i, StoreTrace(p, hash, frames).traces[i]);
  }

  predicate IsGc(t: Tick) { t.Walked? && t.numFrames == -2 }

  predicate IsDeopt(t: Tick) { t.Walked? && t.numFrames == -9 }

  /** A walk that found no frame, for a reason other than the two above. */
  predicate IsUnknown(t: Tick) { t.Walked? && t.numFrames <= 0 && !IsGc(t) && !IsDeopt(t) }

  predicate IsNonJava(t: Tick) { t.NoEnv? }

  /** Each special counter is the number of ticks of its kind. */
  lemma {:induction false} CountersCount(ticks: seq<Tick>)
    requires AllLegal(ticks)
    ensures var p := Replay(ticks);
      && p.nonJava == Count(ticks, IsNonJava) && p.gc == Count(ticks, IsGc)
      && p.deopt == Count(ticks, IsDeopt) && p.unknown == Count(ticks, IsUnknown)
    decreases |ticks|
  {
    if ticks != [] {
      CountersCount(Front(ticks));
      RecordCounts(Replay(Front(ticks)), Last(ticks));
      hide Record;
    }
  }

  lemma RecordCounts(p: Profile, t: Tick)
    requires Shaped(p) && Legal(t)
    ensures var p' := Record(p, t);
      && p'.nonJava == p.nonJava + (if IsNonJava(t) then 1 else 0) && p'.gc == p.gc + (if IsGc(t) then 1 else 0)
      && p'.deopt == p.deopt + (if IsDeopt(t) then 1 else 0)
      && p'.unknown == p.unknown + (if IsUnknown(t) then 1 else 0)
  {
    hide HashTrace, StoreTrace, StoreMethod, Shaped;
  }

  // ---------------------------------------------------------------------------
  // The trace table

  /** A slot is in use, by its count, exactly when its hash says so. */
  ghost predicate Aligned(p: Profile)
    requires Shaped(p)
  {
    forall i :: 0 <= i < MAX_CALLTRACES ==> (p.hashes[i] != 0 <==> p.traces[i].callCount > 0)
  }

  ghost predicate TracesInOrder(p: Profile)
  {
    Shaped(p) && Aligned(p) && WellProbed(p.hashes, 0, TraceHome)
  }

  lemma TraceSlotIsProbe(p: Profile, hash: Word)
    requires TracesInOrder(p) && hash != 0
    ensures TraceSlot(p, hash) == Probe(p.hashes, 0, TraceHome, hash)
    ensures forall i :: 0 <= i < MAX_CALLTRACES ==> (TraceHit(p, hash, i) <==> p.hashes[i] == hash)
  {
    assert TraceStops(p, hash) == Stops(p.hashes, 0, hash);
  }

  /**
    Storing a trace keeps the probe chains, the uniqueness of hashes and the alignment of the two
    arrays if and only if its hash is not the empty mark.
   */
  lemma StoreTraceKeepsOrder(p: Profile, hash: Word, frames: Trace)
    requires TracesInOrder(p)
    ensures TracesInOrder(StoreTrace(p, hash, frames)) <==> hash != 0
  {
    var i := TraceSlot(p, hash);
    var p' := StoreTrace(p, hash, frames);
    if hash == 0 {
      assert p'.hashes[i] == 0 && p'.traces[i].callCount > 0;
    } else {
      TraceSlotIsProbe(p, hash);
      ProbeKeeps(p.hashes, 0, TraceHome, hash);
      assert p'.hashes == p.hashes[i := hash];
    }
  }
}
