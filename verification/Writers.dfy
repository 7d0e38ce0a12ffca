/** Where the traces of the table come from, in every run, whatever its hashes are and however full the table. */
module Writers {
  import opened Hashing
  import opened ProbeTable
  import opened Samples
  import opened Tables

  /** The last tick that wrote its trace to slot `i`, or -1: a tick that found its hash there only counts. */
  ghost function Writer(ticks: seq<Tick>, i: nat): (k: int)
    requires AllLegal(ticks) && i < MAX_CALLTRACES
    ensures k < |ticks|
    decreases |ticks|
  {
    if ticks == [] then -1
    else
      var p, t := Replay(Front(ticks)), Last(ticks);
      if Writes(p, t, i) then |ticks| - 1 else Writer(Front(ticks), i)
  }

  ghost predicate Writes(p: Profile, t: Tick, i: nat)
    requires Shaped(p) && Legal(t) && i < MAX_CALLTRACES
  {
    HasTrace(t) && TraceSlot(p, HashTrace(TraceOf(t))) == i && !TraceHit(p, HashTrace(TraceOf(t)), i)
  }

  ghost predicate Wrote(p: Profile, t: Tick, i: nat)
    requires Shaped(p) && Legal(t) && i < MAX_CALLTRACES
  {
    HasTrace(t) && p.traces[i].frames == TraceOf(t) && p.hashes[i] == HashTrace(TraceOf(t))
  }

  /** A slot is in use exactly if some tick wrote it, and holds the trace of the last tick that did. */
  lemma {:induction false} SlotWriter(ticks: seq<Tick>, i: nat)
    requires AllLegal(ticks) && i < MAX_CALLTRACES
    ensures var p, k := Replay(ticks), Writer(ticks, i);
      && (p.traces[i].callCount > 0 <==> k >= 0)
      && (k >= 0 ==> Wrote(p, ticks[k], i))
    decreases |ticks|
  {
    hide HashTrace, Scan, Record, StoreMethod;
    if ticks != [] {
      SlotWriter(Front(ticks), i);
      RecordTables(Replay(Front(ticks)), Last(ticks));
    }
  }

  /** The table never weighs more than the ticks, also when it is full and when 0 is a hash. */
  lemma {:induction false} TableBelowTicks(ticks: seq<Tick>, all: seq<Tick>, f: Trace -> nat)
    requires AllLegal(all) && Alike(all, f) && ticks <= all
    ensures AllLegal(ticks) && Sum(Replay(ticks).traces, f) <= Weigh(ticks, f)
    decreases |ticks|
  {
    hide HashTrace, Scan, Record, StoreMethod, StoreTrace, Sum, TraceSlot;
    if ticks == [] {
      SumOfZeros(Cleared().traces, f);
    } else {
      var p, t := Replay(Front(ticks)), Last(ticks);
      TableBelowTicks(Front(ticks), all, f);
      RecordTables(p, t);
      assert t == all[|ticks| - 1];
      if HasTrace(t) {
        var h := HashTrace(TraceOf(t));
        var i := TraceSlot(p, h);
        StoreConserves(p, h, TraceOf(t), f);
        SlotWriter(Front(ticks), i);
        if TraceHit(p, h, i) {
          var k := Writer(Front(ticks), i);
          assert Front(ticks)[k] == all[k];
        }
      }
    }
  }

  /** No count of the methods table exceeds the number of ticks. */
  lemma {:induction false} MethodsBounded(ticks: seq<Tick>, i: nat)
    requires AllLegal(ticks) && i < MAX_CALLTRACES
    ensures Replay(ticks).methods[i].callCount <= |ticks|
    decreases |ticks|
  {
    hide HashTrace, Scan, Record, StoreTrace, HashMethod;
    if ticks != [] {
      MethodsBounded(Front(ticks), i);
      RecordTables(Replay(Front(ticks)), Last(ticks));
    }
  }
}
