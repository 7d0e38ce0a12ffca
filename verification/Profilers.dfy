/** The agent's `Profiler`: its fields, and the methods that update them in place. */
module Profilers {
  import opened Words
  import opened Hashing
  import opened ProbeTable
  import opened Samples
  import opened Sorting
  import opened Reports
  import opened Sessions

  /** Where the probe loop for a trace ends from its `d`-th round on. */
  ghost function ScanFrom(p: Profile, hash: Word, d: nat): nat
    requires Shaped(p) && d <= MAX_CALLTRACES
  {
    Scan(TraceStops(p, hash), TraceHome(hash), d)
  }

  lemma TraceScanStarts(p: Profile, hash: Word)
    requires Shaped(p)
    ensures ScanFrom(p, hash, 0) == TraceSlot(p, hash)
  {
  }

  lemma TraceScan(p: Profile, hash: Word, d: nat)
    requires Shaped(p) && d < MAX_CALLTRACES
    ensures var i := Slot(TraceHome(hash), d);
      ScanFrom(p, hash, d) == if TraceHit(p, hash, i) || p.hashes[i] == 0 then i else ScanFrom(p, hash, d + 1)
    ensures ScanFrom(p, hash, MAX_CALLTRACES) == TraceHome(hash)
  {
  }

  lemma StoreTraceIs(p: Profile, hash: Word, frames: Trace, i: nat)
    requires Shaped(p) && i == TraceSlot(p, hash)
    ensures StoreTrace(p, hash, frames) ==
      if TraceHit(p, hash, i) then
        p.(traces := p.traces[i := p.traces[i].(callCount := p.traces[i].callCount + 1)])
      else
        p.(hashes := p.hashes[i := hash], traces := p.traces[i := CallTraceSample(1, frames)])
  {
  }

  class Profiler {
    var running: bool
    var sec: nat           // the interval of the timer, as the last `setTimer` left it
    var usec: nat
    var callsTotal: nat
    var callsNonJava: nat
    var callsGc: nat
    var callsDeopt: nat
    var callsUnknown: nat
    const hashes: array<Word>
    const traces: array<CallTraceSample>
    const methods: array<MethodSample>

    ghost predicate Valid()
    {
      && hashes.Length == MAX_CALLTRACES && traces.Length == MAX_CALLTRACES && methods.Length == MAX_CALLTRACES
      && (hashes as object) != traces && (hashes as object) != methods && (traces as object) != methods
    }

    ghost function Store(): (p: Profile)
      requires Valid()
      reads this, hashes, traces, methods
      ensures Shaped(p)
    {
      Profile(callsTotal, callsNonJava, callsGc, callsDeopt, callsUnknown, hashes[..], traces[..], methods[..])
    }

    /** The static instance starts out as zeroed memory. */
    constructor ()
      ensures Valid() && fresh(hashes) && fresh(traces) && fresh(methods)
      ensures !running && sec == usec == 0 && Store() == Cleared()
    {
      running, sec, usec := false, 0, 0;
      callsTotal, callsNonJava, callsGc, callsDeopt, callsUnknown := 0, 0, 0, 0, 0;
      hashes := new Word[MAX_CALLTRACES](_ => 0);
      traces := new CallTraceSample[MAX_CALLTRACES](_ => CallTraceSample(0, []));
      methods := new MethodSample[MAX_CALLTRACES](_ => MethodSample(0, 0));
      new;
      assert hashes[..] == Cleared().hashes;
      assert traces[..] == Cleared().traces;
      assert methods[..] == Cleared().methods;
    }

    method StoreCallTrace(frames: array<Frame>, numFrames: nat)
      requires Valid() && numFrames <= frames.Length
      modifies hashes, traces
      ensures Store() == StoreTrace(old(Store()), HashTrace(old(frames[..numFrames])), old(frames[..numFrames]))
    {
      hide HashTrace, StoreTrace, TraceSlot, ScanFrom;
      ghost var p := Store();
      ghost var trace := frames[..numFrames];
      var hash := HashCallTrace(frames, numFrames);
      var bucket := hash % MAX_CALLTRACES;
      var i := bucket;
      var again := true;
      ghost var d := 0;
      TraceScanStarts(p, hash);
      TraceScan(p, hash, 0);
      while again
        invariant Store() == p && d <= MAX_CALLTRACES && i == Slot(bucket, d)
        invariant again <==> d < MAX_CALLTRACES
        invariant ScanFrom(p, hash, d) == TraceSlot(p, hash)
        invariant 0 < d ==> !TraceHit(p, hash, bucket)
        decreases MAX_CALLTRACES - d
      {
        TraceScan(p, hash, d);
        if hashes[i] == hash && traces[i].callCount > 0 {
          StoreTraceIs(p, hash, trace, i);
          traces[i] := traces[i].(callCount := traces[i].callCount + 1);
          assert traces[..] == p.traces[i := traces[i]];
          return;
        } else if hashes[i] == 0 {
          break;
        }
        i := i + 1;
        if i == MAX_CALLTRACES {
          i := 0;
        }
        d := d + 1;
        again := i != bucket;
      }
      assert i == TraceSlot(p, hash);
      StoreTraceIs(p, hash, trace, i);
      hashes[i] := hash;
      traces[i] := CallTraceSample(1, frames[..numFrames]);
      assert hashes[..] == p.hashes[i := hash] && traces[..] == p.traces[i := traces[i]];
    }

    method StoreMethodId(m: Word)
      requires Valid()
      modifies methods
      ensures Store() == StoreMethod(old(Store()), m)
    {
      hide HashMethod;
      ghost var p := Store();
      var bucket := MethodHome(m);
      var i := bucket;
      var again := true;
      ghost var d := 0;
      while again
        invariant Store() == p && d <= MAX_CALLTRACES && i == Slot(bucket, d)
        invariant again <==> d < MAX_CALLTRACES
        invariant Scan(Stops(Ids(p.methods), 0, m), bucket, d) == MethodSlot(p, m)
        invariant 0 < d ==> methods[bucket].methodId != m
        decreases MAX_CALLTRACES - d
      {
        if methods[i].methodId == m {
          methods[i] := methods[i].(callCount := methods[i].callCount + 1);
          return;
        } else if methods[i].methodId == 0 {
          break;
        }
        i := i + 1;
        if i == MAX_CALLTRACES {
          i := 0;
        }
        d := d + 1;
        again := i != bucket;
      }
      methods[i] := MethodSample(1, m);
    }

    /** The SIGPROF handler; what the virtual machine answers is the parameter. */
    method RecordSample(t: Tick)
      requires Valid() && Legal(t)
      modifies this`callsTotal, this`callsNonJava, this`callsGc, this`callsDeopt, this`callsUnknown
      modifies hashes, traces, methods
      ensures Store() == Record(old(Store()), t)
    {
      hide HashTrace, StoreTrace, StoreMethod;
      ghost var p := Store();
      callsTotal := callsTotal + 1;
      match t
      case NoEnv =>
        callsNonJava := callsNonJava + 1;
      case Walked(numFrames, buffer) =>
        var frames := new Frame[MAX_FRAMES](i requires 0 <= i < MAX_FRAMES => buffer[i]);
        if numFrames > 0 {
          assert frames[..numFrames] == buffer[..numFrames];
          assert Store() == p.(total := p.total + 1);
          StoreCallTrace(frames, numFrames);
          StoreMethodId(frames[0].methodId);
        } else if numFrames == -2 {
          callsGc := callsGc + 1;
        } else if numFrames == -9 {
          callsDeopt := callsDeopt + 1;
        } else {
          callsUnknown := callsUnknown + 1;
        }
    }

    method SetTimer(sec: nat, usec: nat)
      modifies this`sec, this`usec
      ensures this.sec == sec && this.usec == usec
    {
      this.sec, this.usec := sec, usec;
    }

    method Start(interval: nat)
      requires Valid()
      modifies this, hashes, traces, methods
      ensures View() == Started(old(View()), interval)
    {
      if running {
        return;
      }
      running := true;
      callsTotal, callsNonJava, callsGc, callsDeopt, callsUnknown := 0, 0, 0, 0, 0;
      forall i | 0 <= i < hashes.Length {
        hashes[i] := 0;
      }
      forall i | 0 <= i < traces.Length {
        traces[i] := CallTraceSample(0, []);
      }
      forall i | 0 <= i < methods.Length {
        methods[i] := MethodSample(0, 0);
      }
      assert hashes[..] == Cleared().hashes && traces[..] == Cleared().traces && methods[..] == Cleared().methods;
      SetTimer(interval / 1000, interval * 1000);
    }

    method Stop()
      requires Valid()
      modifies this`running, this`sec, this`usec
      ensures View() == Stopped(old(View()))
    {
      if !running {
        return;
      }
      running := false;
      SetTimer(0, 0);
    }

    method SaveMethods(methodIds: set<Word>) returns (section: seq<MethodSample>, ids: set<Word>)
      requires Valid()
      modifies methods
      ensures Sorted(methods[..], MethodComparator) && multiset(methods[..]) == multiset(old(methods[..]))
      ensures section == MethodsSection(methods[..]) && ids == methodIds + IdsOfMethods(section)
      ensures forall i, j :: 0 <= i < j < |section| ==> section[i].callCount >= section[j].callCount
    {
      ComparatorsOrder();
      hide Sorted, TotalPreorder, IdsOfMethods, FirstZero;
      Qsort(methods, MethodComparator);
      ghost var s := methods[..];
      section, ids := [], methodIds;
      NoMethods();
      var i := 0;
      while i < MAX_CALLTRACES
        invariant methods[..] == s
        invariant 0 <= i <= MAX_CALLTRACES && section == s[..i]
        invariant forall k :: 0 <= k < i ==> s[k].callCount > 0
        invariant ids == methodIds + IdsOfMethods(section)
      {
        assert methods[i] == s[i];
        var samples := methods[i].callCount;
        if samples == 0 {
          break;
        }
        var jmethod := methods[i].methodId;
        OneMoreMethod(section, MethodSample(samples, jmethod));
        section := section + [MethodSample(samples, jmethod)];
        ids := ids + {jmethod};
        i := i + 1;
      }
      CutAt(MethodCounts(s), i);
      SortedMethodsDescend(s, i);
    }

    method SaveCallTraces(methodIds: set<Word>) returns (section: seq<SampleInfo>, ids: set<Word>)
      requires Valid()
      modifies traces
      ensures Sorted(traces[..], TraceComparator) && multiset(traces[..]) == multiset(old(traces[..]))
      ensures section == SamplesSection(traces[..]) && ids == methodIds + IdsOfSamples(section)
      ensures forall i, j :: 0 <= i < j < |section| ==> section[i].callCount >= section[j].callCount
    {
      ComparatorsOrder();
      hide Sorted, TotalPreorder, IdsOfSamples, IdsOfFrames, FirstZero, NonNull;
      Qsort(traces, TraceComparator);
      ghost var s := traces[..];
      section, ids := [], methodIds;
      NoSamples();
      var i := 0;
      while i < MAX_CALLTRACES
        invariant traces[..] == s
        invariant 0 <= i <= MAX_CALLTRACES && section == Infos(s[..i])
        invariant forall k :: 0 <= k < i ==> s[k].callCount > 0
        invariant ids == methodIds + IdsOfSamples(section)
      {
        assert traces[i] == s[i];
        var samples := traces[i].callCount;
        if samples == 0 {
          break;
        }
        var frames, more := SaveFrames(traces[i].frames, ids);
        OneMoreSample(section, SampleInfo(samples, frames));
        section := section + [SampleInfo(samples, frames)];
        assert Infos(s[..i + 1]) == Infos(s[..i]) + [Info(s[i])];
        ids := more;
        i := i + 1;
      }
      CutAt(TraceCounts(s), i);
      SortedTracesDescend(s, i);
    }

    /** The inner loop of `saveCallTraces`. */
    static method SaveFrames(trace: Trace, methodIds: set<Word>) returns (frames: seq<Frame>, ids: set<Word>)
      ensures frames == NonNull(trace) && ids == methodIds + IdsOfFrames(frames)
    {
      frames, ids := [], methodIds;
      for j := 0 to |trace|
        invariant frames == NonNull(trace[..j]) && ids == methodIds + IdsOfFrames(frames)
      {
        assert Front(trace[..j + 1]) == trace[..j];
        if trace[j].methodId != 0 {
          OneMoreFrame(frames, trace[j]);
          frames := frames + [trace[j]];
          ids := ids + {trace[j].methodId};
        }
      }
      assert trace[..|trace|] == trace;
    }

    /** One MethodInfo per id of the unordered set, in any order. */
    static method SaveMethodIds(methodIds: set<Word>) returns (infos: seq<Word>)
      ensures NoDuplicates(infos) && forall id :: id in infos <==> id in methodIds
    {
      infos := [];
      var rest := methodIds;
      while rest != {}
        invariant NoDuplicates(infos) && rest <= methodIds
        invariant forall id :: id in infos <==> id in methodIds - rest
        decreases rest
      {
        var id :| id in rest;
        assert id !in infos;
        infos := infos + [id];
        rest := rest - {id};
      }
    }

    method WriteResult() returns (info: ProfilingInfo)
      requires Valid()
      modifies traces, methods
      ensures SortedFrom(Store(), old(Store())) && ReportsOn(info, Store())
      ensures running == old(running) && sec == old(sec) && usec == old(usec)
      ensures info.total == callsTotal && info.nonJava == callsNonJava && info.gc == callsGc
      ensures info.deopt == callsDeopt && info.unknown == callsUnknown
    {
      var methodSection, ids := SaveMethods({});
      var sampleSection, ids' := SaveCallTraces(ids);
      var infos := SaveMethodIds(ids');
      info := ProfilingInfo(callsTotal, callsNonJava, callsGc, callsDeopt, callsUnknown,
                            methodSection, sampleSection, infos);
    }

    ghost function View(): Session
      requires Valid()
      reads this, hashes, traces, methods
    {
      Session(running, sec, usec, Store())
    }

    /** One round of `handleRequestLoop`; STOP answers with a report. */
    method HandleRequest(request: Request) returns (info: seq<ProfilingInfo>)
      requires Valid()
      modifies this, hashes, traces, methods
      ensures Next(old(View()), Asked(request), View())
      ensures if request == STOP_PROFILING then |info| == 1 && ReportsOn(info[0], Store()) else info == []
    {
      info := [];
      match request
      case START_PROFILING =>
        Start(DEFAULT_INTERVAL);
      case STOP_PROFILING =>
        Stop();
        var r := WriteResult();
        info := [r];
      case DETACH =>
    }

    /** The timer fires only while it has an interval. */
    method Tick(t: Samples.Tick)
      requires Valid() && Legal(t) && View().Armed()
      modifies this`callsTotal, this`callsNonJava, this`callsGc, this`callsDeopt, this`callsUnknown
      modifies hashes, traces, methods
      ensures Next(old(View()), Ticked(t), View())
    {
      RecordSample(t);
    }
  }

  lemma ComparatorsOrder()
    ensures TotalPreorder(TraceComparator) && TotalPreorder(MethodComparator)
  {
  }

  lemma SortedMethodsDescend(methods: seq<MethodSample>, n: nat)
    requires Sorted(methods, MethodComparator) && n <= |methods|
    ensures forall i, j :: 0 <= i < j < n ==> methods[..n][i].callCount >= methods[..n][j].callCount
  {
    forall i, j | 0 <= i < j < n
      ensures methods[i].callCount >= methods[j].callCount
    {
      assert MethodComparator(methods[i], methods[j]) <= 0;
    }
  }

  lemma SortedTracesDescend(traces: seq<CallTraceSample>, n: nat)
    requires Sorted(traces, TraceComparator) && n <= |traces|
    ensures forall i, j :: 0 <= i < j < n ==> Infos(traces[..n])[i].callCount >= Infos(traces[..n])[j].callCount
  {
    hide NonNull;
    forall i, j | 0 <= i < j < n
      ensures traces[i].callCount >= traces[j].callCount
    {
      assert TraceComparator(traces[i], traces[j]) <= 0;
    }
  }

  lemma NoMethods()
    ensures IdsOfMethods([]) == {}
  {
  }

  lemma NoSamples()
    ensures IdsOfSamples([]) == {}
  {
  }

  lemma OneMoreMethod(section: seq<MethodSample>, s: MethodSample)
    ensures IdsOfMethods(section + [s]) == IdsOfMethods(section) + {s.methodId}
  {
    var t := section + [s];
    assert t[|section|] == s;
    assert forall i :: 0 <= i < |section| ==> t[i] == section[i];
  }

  lemma OneMoreFrame(frames: seq<Frame>, f: Frame)
    ensures IdsOfFrames(frames + [f]) == IdsOfFrames(frames) + {f.methodId}
  {
    var t := frames + [f];
    assert t[|frames|] == f;
    assert forall i :: 0 <= i < |frames| ==> t[i] == frames[i];
  }

  lemma OneMoreSample(section: seq<SampleInfo>, s: SampleInfo)
    ensures IdsOfSamples(section + [s]) == IdsOfSamples(section) + IdsOfFrames(s.frames)
  {
    var t := section + [s];
    assert t[|section|] == s;
    assert forall i :: 0 <= i < |section| ==> t[i] == section[i];
  }

  lemma CutAt(counts: seq<nat>, n: nat)
    requires n <= |counts| && (n < |counts| ==> counts[n] == 0)
    requires forall k :: 0 <= k < n ==> counts[k] > 0
    ensures FirstZero(counts) == n
  {
  }
}
