/** One session run from end to end on the mutable classes: START, ticks, STOP, flame tree. */
module Pipeline {
  import opened Samples
  import opened Sessions
  import opened Reports
  import opened Profilers
  import opened FlameTrees
  import opened Truthful

  /** The events of one session: START and the ticks. */
  ghost function Begun(ticks: seq<Tick>): seq<Event>
    decreases |ticks|
  {
    if ticks == [] then [Asked(START_PROFILING)] else Begun(Front(ticks)) + [Ticked(Last(ticks))]
  }

  lemma {:induction false} BegunTicks(ticks: seq<Tick>)
    ensures SinceStart(Begun(ticks)) == ticks && RunningAfter(Begun(ticks))
    ensures SinceStart(Begun(ticks) + [Asked(STOP_PROFILING)]) == ticks
    decreases |ticks|
  {
    StopAgain(Begun(ticks));
    if ticks != [] {
      BegunTicks(Front(ticks));
      assert Front(Begun(ticks)) == Begun(Front(ticks));
      assert ticks == Front(ticks) + [Last(ticks)];
    } else {
      assert Front(Begun(ticks)) == [];
    }
  }

  /** Whatever came before, a START that finds the profiler stopped begins a session of its own. */
  lemma {:induction false} LaterSession(prior: seq<Event>, ticks: seq<Tick>)
    requires !RunningAfter(prior)
    ensures SinceStart(prior + Begun(ticks)) == ticks && RunningAfter(prior + Begun(ticks))
    ensures SinceStart(prior + Begun(ticks) + [Asked(STOP_PROFILING)]) == ticks
    decreases |ticks|
  {
    var events := prior + Begun(ticks);
    StopAgain(events);
    if ticks != [] {
      LaterSession(prior, Front(ticks));
      assert Front(events) == prior + Begun(Front(ticks)) && Last(events) == Ticked(Last(ticks));
      assert ticks == Front(ticks) + [Last(ticks)];
    } else {
      assert Front(events) == prior;
    }
  }

  /** A START in the middle of a session, and a DETACH at any time, lose and add nothing. */
  lemma IdleRequests(events: seq<Event>)
    ensures RunningAfter(events) ==> SinceStart(events + [Asked(START_PROFILING)]) == SinceStart(events)
    ensures SinceStart(events + [Asked(DETACH)]) == SinceStart(events)
    ensures RunningAfter(events + [Asked(DETACH)]) == RunningAfter(events)
  {
    StopAgain(events);
    assert Front(events + [Asked(DETACH)]) == events;
  }

  lemma OneMoreStep(states: seq<Session>, events: seq<Event>, e: Event, s: Session)
    requires IsRun(states, events) && Next(Last(states), e, s)
    ensures IsRun(states + [s], events + [e])
    ensures Front(events + [e]) == events && Last(events + [e]) == e
  {
    hide Next;
    var states', events' := states + [s], events + [e];
    forall i | 0 <= i < |events'|
      ensures Next(states'[i], events'[i], states'[i + 1])
    {
      assert i < |events| ==> Next(states[i], events[i], states[i + 1]);
    }
  }

  /**
    Profiles one session of `ticks` and builds its flame tree.  The plugin rejects the report exactly
    if some tick had only NULL frames; else each node costs the number of ticks under its path.
   */
  method ProfileSession(ticks: seq<Tick>) returns (info: ProfilingInfo, r: Result, ghost states: seq<Session>)
    requires Faithful(ticks)
    ensures SessionReport(states, Begun(ticks) + [Asked(STOP_PROFILING)], info)
    ensures r.IllegalArgument? <==> exists i :: 0 <= i < |ticks| && !Named(ticks[i])
    ensures r.Built? ==> r.tree.Valid() && r.tree.CostMap() == Tally(info.samples)
    ensures r.Built? ==> forall p :: p in r.tree.nodes <==> p == [] || TicksUnder(ticks, p) > 0
    ensures r.Built? ==> forall p :: p in r.tree.nodes ==> r.tree.nodes[p].cost == TicksUnder(ticks, p)
  {
    assert AllLegal(ticks);
    hide Next, Faithful, Named, Tally, TicksUnder, SessionReport;
    info, states := Report(ticks);
    ghost var events := Begun(ticks) + [Asked(STOP_PROFILING)];
    BegunTicks(ticks);
    AcceptedIffNamed(states, events, info);
    r := FlameTree.Build(info.samples);
    if r.Built? {
      forall p
        ensures p in r.tree.nodes <==> p == [] || TicksUnder(ticks, p) > 0
        ensures p in r.tree.nodes ==> r.tree.nodes[p].cost == TicksUnder(ticks, p)
      {
        assert p in r.tree.nodes <==> p in r.tree.CostMap();
        NodeExistsIffTicked(states, events, info, p);
        if p in r.tree.nodes {
          NodeCostIsTickCount(states, events, info, p);
        }
      }
    }
  }

  /** The agent's half of a session. */
  method Report(ticks: seq<Tick>) returns (info: ProfilingInfo, ghost states: seq<Session>)
    requires AllLegal(ticks)
    ensures SessionReport(states, Begun(ticks) + [Asked(STOP_PROFILING)], info)
  {
    hide Next, ReportsOn, Begun;
    var profiler := new Profiler();
    states := [profiler.View()];
    ghost var events: seq<Event> := [];
    var none := profiler.HandleRequest(START_PROFILING);
    OneMoreStep(states, events, Asked(START_PROFILING), profiler.View());
    states, events := states + [profiler.View()], [Asked(START_PROFILING)];
    BegunStep(ticks, 0);
    for i := 0 to |ticks|
      invariant profiler.Valid() && fresh(profiler) && fresh(profiler.hashes) && fresh(profiler.traces)
      invariant fresh(profiler.methods)
      invariant IsRun(states, events) && Last(states) == profiler.View() && events == Begun(ticks[..i])
    {
      Armed(states, events, ticks, i);
      profiler.Tick(ticks[i]);
      OneMoreStep(states, events, Ticked(ticks[i]), profiler.View());
      states, events := states + [profiler.View()], events + [Ticked(ticks[i])];
      BegunStep(ticks, i + 1);
    }
    assert ticks[..|ticks|] == ticks;
    var infos := profiler.HandleRequest(STOP_PROFILING);
    OneMoreStep(states, events, Asked(STOP_PROFILING), profiler.View());
    states := states + [profiler.View()];
    info := infos[0];
  }

  lemma BegunStep(ticks: seq<Tick>, i: nat)
    requires i <= |ticks|
    ensures Begun(ticks[..i]) ==
      if i == 0 then [Asked(START_PROFILING)] else Begun(ticks[..i - 1]) + [Ticked(ticks[i - 1])]
  {
    if i > 0 {
      assert Front(ticks[..i]) == ticks[..i - 1];
    }
  }

  lemma Armed(states: seq<Session>, events: seq<Event>, ticks: seq<Tick>, i: nat)
    requires i <= |ticks| && events == Begun(ticks[..i]) && IsRun(states, events)
    ensures Last(states).Armed()
  {
    hide Replay;
    BegunTicks(ticks[..i]);
    EveryRun(states, events);
  }
}
