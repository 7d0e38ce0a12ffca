/**
  The session protocol of the agent: START, STOP and SIGPROF ticks in any order, as steps between
  states, and what every state that can be reached holds.
 */
module Sessions {
  import opened Hashing
  import opened ProbeTable
  import opened Samples
  import opened Tables
  import opened Reports

  const DEFAULT_INTERVAL: nat := 10

  datatype Request = START_PROFILING | STOP_PROFILING | DETACH

  datatype Event = Ticked(t: Tick) | Asked(request: Request)

  /** The flag `_running`, the interval of the timer in seconds and microseconds, and the sample store. */
  datatype Session = Session(running: bool, sec: nat, usec: nat, store: Profile) {
    // whether SIGPROF is delivered
    predicate Armed() { sec != 0 || usec != 0 }
  }

  ghost function Initial(): Session
  {
    Session(false, 0, 0, Cleared())
  }

  ghost function Started(s: Session, interval: nat): Session
  {
    if s.running then s else Session(true, interval / 1000, interval * 1000, Cleared())
  }

  ghost function Stopped(s: Session): Session
  {
    if s.running then s.(running := false, sec := 0, usec := 0) else s
  }

  /** One step.  STOP leaves open how the report's sort arranges equal counts. */
  ghost predicate Next(s: Session, e: Event, s': Session)
  {
    && Shaped(s.store)
    && match e
       case Ticked(t) => s.Armed() && Legal(t) && s' == s.(store := Record(s.store, t))
       case Asked(START_PROFILING) => s' == Started(s, DEFAULT_INTERVAL)
       case Asked(STOP_PROFILING) => s' == Stopped(s).(store := s'.store) && SortedFrom(s'.store, s.store)
       case Asked(DETACH) => s' == s
  }

  // ---------------------------------------------------------------------------
  // What a run of events amounts to

  ghost predicate RunningAfter(events: seq<Event>)
    decreases |events|
  {
    events != [] &&
    match Last(events)
    case Asked(START_PROFILING) => true
    case Asked(STOP_PROFILING) => false
    case _ => RunningAfter(Front(events))
  }

  /** The ticks since the last START that found the profiler stopped. */
  ghost function SinceStart(events: seq<Event>): seq<Tick>
    decreases |events|
  {
    if events == [] then []
    else match Last(events)
    case Ticked(t) => SinceStart(Front(events)) + [t]
    case Asked(START_PROFILING) => if RunningAfter(Front(events)) then SinceStart(Front(events)) else []
    case Asked(_) => SinceStart(Front(events))
  }

  ghost predicate IsRun(states: seq<Session>, events: seq<Event>)
  {
    && |states| == |events| + 1 && states[0] == Initial()
    && forall i :: 0 <= i < |events| ==> Next(states[i], events[i], states[i + 1])
  }

  /** The store tells of `ticks`: exactly while a tick can fire, and up to the order of its slots after a report. */
  ghost predicate TellsOf(s: Session, ticks: seq<Tick>)
    requires AllLegal(ticks)
  {
    var p := Replay(ticks);
    && s.sec == 0 && s.usec == (if s.running then 10000 else 0)
    && Shaped(s.store)
    && s.store == p.(traces := s.store.traces, methods := s.store.methods)
    && multiset(s.store.traces) == multiset(p.traces) && multiset(s.store.methods) == multiset(p.methods)
    && (s.running ==> s.store == p)
  }

  /**
    Over every interleaving of START, STOP and ticks: the timer goes off every 10 milliseconds exactly
    while the profiler runs, START while running loses no counts, and the store tells of the ticks since the last START
    that took effect, with the hash array and the trace array aligned whenever a tick can fire.
   */
  lemma {:induction false} EveryRun(states: seq<Session>, events: seq<Event>)
    requires IsRun(states, events)
    ensures AllLegal(SinceStart(events))
    ensures TellsOf(Last(states), SinceStart(events)) && Last(states).running == RunningAfter(events)
    ensures Last(states).Armed() == Last(states).running
    decreases |events|
  {
    hide Record;
    if events != [] {
      EveryRun(Front(states), Front(events));
      var n := |events| - 1;
      StepTells(states[n], events[n], states[n + 1], SinceStart(Front(events)));
      assert events[n].Ticked? ==> Front(SinceStart(events)) == SinceStart(Front(events));
    }
  }

  ghost function TicksAfter(s: Session, e: Event, ticks: seq<Tick>): seq<Tick>
  {
    match e
    case Ticked(t) => ticks + [t]
    case Asked(START_PROFILING) => if s.running then ticks else []
    case Asked(_) => ticks
  }

  lemma StepTells(s: Session, e: Event, s': Session, ticks: seq<Tick>)
    requires AllLegal(ticks) && TellsOf(s, ticks) && Next(s, e, s')
    ensures AllLegal(TicksAfter(s, e, ticks)) && TellsOf(s', TicksAfter(s, e, ticks))
    ensures s'.running == match e
      case Asked(START_PROFILING) => true
      case Asked(STOP_PROFILING) => false
      case _ => s.running
  {
    hide Record;
    if e.Ticked? {
      assert Front(ticks + [e.t]) == ticks;
    }
  }

  lemma AlignedWhenArmed(states: seq<Session>, events: seq<Event>)
    requires IsRun(states, events) && AllLegal(SinceStart(events)) && Marked(SinceStart(events))
    ensures Last(states).Armed() ==> TracesInOrder(Last(states).store)
  {
    EveryRun(states, events);
    TraceTableHolds(SinceStart(events));
  }

  /** After STOP the two arrays can be out of step: the report's sort moves traces and leaves hashes. */
  lemma StopMisaligns() returns (t: Tick)
    ensures Legal(t)
    ensures forall s' :: Next(Session(true, 0, 10000, Replay([t])), Asked(STOP_PROFILING), s') ==> !Aligned(s'.store)
  {
    var f := EveryHashOccurs(1);
    t := TickOf(f);
    forall s' | Next(Session(true, 0, 10000, Replay([t])), Asked(STOP_PROFILING), s')
      ensures !Aligned(s'.store)
    {
      SortMisaligns(t, s'.store);
    }
  }

  lemma SortMisaligns(t: Tick, q: Profile)
    requires Legal(t) && HasTrace(t) && HashTrace(TraceOf(t)) == 1 && SortedFrom(q, Replay([t]))
    ensures !Aligned(q)
  {
    hide HashTrace, StoreMethod;
    var p := Cleared();
    assert Front([t]) == [];
    RecordTables(p, t);
    var r := Replay([t]);
    assert TraceStops(p, 1)[Slot(1, 0)] && TraceSlot(p, 1) == 1;
    assert r.hashes[0] == 0 && r.traces[1].callCount == 1;
    assert r.traces[1] in multiset(r.traces);
    assert r.traces[1] in multiset(q.traces);
    var k :| 0 <= k < |q.traces| && q.traces[k] == r.traces[1];
    assert k == 0 || TraceComparator(q.traces[0], q.traces[k]) <= 0;
    assert q.hashes[0] == 0 && q.traces[0].callCount >= 1;
  }
}
