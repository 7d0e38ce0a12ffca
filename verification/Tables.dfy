/** What the two tables of the agent hold after any sequence of ticks. */
module Tables {
  import opened Words
  import opened Hashing
  import opened ProbeTable
  import opened Samples

  /** No trace of the run has the hash that marks an empty slot. */
  ghost predicate Marked(ticks: seq<Tick>)
    requires AllLegal(ticks)
  {
    forall i :: 0 <= i < |ticks| && HasTrace(ticks[i]) ==> HashTrace(TraceOf(ticks[i])) != 0
  }

  /** No trace of the run has a NULL method on top. */
  ghost predicate Topped(ticks: seq<Tick>)
    requires AllLegal(ticks)
  {
    forall i :: 0 <= i < |ticks| && HasTrace(ticks[i]) ==> ticks[i].buffer[0].methodId != 0
  }

  /** `f` makes the same of any two traces of the run that share a hash. */
  ghost predicate Alike(ticks: seq<Tick>, f: Trace -> nat)
    requires AllLegal(ticks)
  {
    forall i, j :: 0 <= i < |ticks| && 0 <= j < |ticks| && HasTrace(ticks[i]) && HasTrace(ticks[j]) ==>
      HashTrace(TraceOf(ticks[i])) == HashTrace(TraceOf(ticks[j])) ==> f(TraceOf(ticks[i])) == f(TraceOf(ticks[j]))
  }

  /** The run stored no more distinct trace hashes than the table has slots. */
  ghost predicate Fits(ticks: seq<Tick>)
    requires AllLegal(ticks)
  {
    |Support(Hashes(ticks))| <= MAX_CALLTRACES
  }

  ghost predicate MethodsFit(ticks: seq<Tick>)
    requires AllLegal(ticks)
  {
    |Support(Tops(ticks))| <= MAX_CALLTRACES
  }

  /** The tables see nothing of the counters. */
  lemma RecordTables(p: Profile, t: Tick)
    requires Shaped(p) && Legal(t)
    ensures var p' := Record(p, t);
      if HasTrace(t) then
        var q := StoreTrace(p, HashTrace(TraceOf(t)), TraceOf(t));
        p'.hashes == q.hashes && p'.traces == q.traces
        && p'.methods == StoreMethod(p, t.buffer[0].methodId).methods
      else p'.hashes == p.hashes && p'.traces == p.traces && p'.methods == p.methods
  {
    hide HashTrace, HashMethod, Scan;
    if HasTrace(t) {
      var q := p.(total := p.total + 1);
      var h := HashTrace(TraceOf(t));
      assert TraceStops(q, h) == TraceStops(p, h);
    }
  }

  ghost predicate TracesMean(p: Profile, hist: multiset<Word>)
  {
    && TracesInOrder(p)
    && Refines(p.hashes, TraceCounts(p.traces), 0, hist)
  }

  lemma StoreTraceMeans(p: Profile, hist: multiset<Word>, hash: Word, frames: Trace)
    requires TracesMean(p, hist) && hash != 0 && (hash in p.hashes || 0 in p.hashes)
    ensures TracesMean(StoreTrace(p, hash, frames), hist + multiset{hash})
  {
    var i := TraceSlot(p, hash);
    var p' := StoreTrace(p, hash, frames);
    StoreTraceKeepsOrder(p, hash, frames);
    TraceSlotIsProbe(p, hash);
    StoreRefines(p.hashes, TraceCounts(p.traces), 0, TraceHome, hist, hash);
    assert p'.hashes == p.hashes[i := hash];
    var count := if p.hashes[i] == hash then p.traces[i].callCount + 1 else 1;
    assert TraceCounts(p'.traces) == TraceCounts(p.traces)[i := count];
  }

  lemma ClearedMeans()
    ensures TracesMean(Cleared(), multiset{})
  {
    assert forall i :: 0 <= i < MAX_CALLTRACES ==> Cleared().hashes[i] == 0;
  }

  /**
    Below capacity the table is the exact count of every hash and nothing is lost; beyond it, the
    table is full and samples are lost.
   */
  ghost predicate TraceTable(p: Profile, hist: multiset<Word>, lost: nat)
  {
    && TracesInOrder(p)
    && if |Support(hist)| <= MAX_CALLTRACES then lost == 0 && Refines(p.hashes, TraceCounts(p.traces), 0, hist)
       else lost > 0 && 0 !in p.hashes
  }

  lemma TraceTableStep(p: Profile, hist: multiset<Word>, lost: nat, hash: Word, frames: Trace)
    requires TraceTable(p, hist, lost) && hash != 0
    ensures var i := TraceSlot(p, hash);
      TraceTable(StoreTrace(p, hash, frames), hist + multiset{hash},
                 lost + if TraceHit(p, hash, i) then 0 else p.traces[i].callCount)
  {
    hide WellProbed, Scan, TraceSlot, TraceStops;
    var p' := StoreTrace(p, hash, frames);
    var i := TraceSlot(p, hash);
    StoreTraceKeepsOrder(p, hash, frames);
    TraceSlotIsProbe(p, hash);
    SupportGrows(hist, hash);
    if 0 !in p.hashes {
      assert 0 !in p'.hashes;
    }
    if |Support(hist)| <= MAX_CALLTRACES {
      TraceRoom(p, hist, hash);
      if hash in p.hashes || 0 in p.hashes {
        StoreTraceMeans(p, hist, hash, frames);
        TraceFits(p', hist + multiset{hash});
      } else {
        assert p.hashes[i] in p.hashes;
      }
    }
  }

  lemma SupportGrows(hist: multiset<Word>, hash: Word)
    ensures Support(hist + multiset{hash}) == Support(hist) + {hash}
    ensures |Support(hist)| <= |Support(hist + multiset{hash})|
  {
    CardMonotone(Support(hist), Support(hist) + {hash});
    assert Support(hist + multiset{hash}) == Support(hist) + {hash};
  }

  lemma TraceFits(p: Profile, hist: multiset<Word>)
    requires TracesMean(p, hist)
    ensures |Support(hist)| <= MAX_CALLTRACES
    ensures 0 !in p.hashes ==> |Support(hist)| == MAX_CALLTRACES
  {
    TableFits(p.hashes, TraceCounts(p.traces), 0, hist);
  }

  /** A store that loses a sample is one key too many; and a slot that is empty loses nothing. */
  lemma TraceRoom(p: Profile, hist: multiset<Word>, hash: Word)
    requires TracesMean(p, hist) && hash != 0
    ensures var i := TraceSlot(p, hash);
      if hash in p.hashes || 0 in p.hashes then
        TraceHit(p, hash, i) || p.traces[i].callCount == 0
      else
        && |Support(hist + multiset{hash})| > MAX_CALLTRACES
        && !TraceHit(p, hash, i) && p.traces[i].callCount > 0
  {
    TraceSlotIsProbe(p, hash);
    ProbeFinds(p.hashes, 0, TraceHome, hash);
    var i := TraceSlot(p, hash);
    assert p.hashes[i] in p.hashes;
    if !(hash in p.hashes || 0 in p.hashes) {
      TraceFits(p, hist);
      SupportGrows(hist, hash);
      assert hash !in Support(hist);
    }
  }

  /** Every run leaves the trace table in order, exact up to capacity. */
  lemma {:induction false} TraceTableHolds(ticks: seq<Tick>)
    requires AllLegal(ticks) && Marked(ticks)
    ensures TraceTable(Replay(ticks), Hashes(ticks), Lost(ticks))
    decreases |ticks|
  {
    hide HashTrace, Record, Scan, WellProbed, Refines, StoreTrace, TraceSlot;
    if ticks == [] {
      ClearedMeans();
      assert Support(Hashes(ticks)) == {};
    } else {
      TraceTableHolds(Front(ticks));
      var p, t := Replay(Front(ticks)), Last(ticks);
      RecordTables(p, t);
      if HasTrace(t) {
        var h, f := HashTrace(TraceOf(t)), TraceOf(t);
        TraceTableStep(p, Hashes(Front(ticks)), Lost(Front(ticks)), h, f);
        SameTables(StoreTrace(p, h, f), Replay(ticks), Hashes(ticks), Lost(ticks));
      } else {
        SameTables(p, Replay(ticks), Hashes(ticks), Lost(ticks));
      }
    }
  }

  lemma SameTables(p: Profile, q: Profile, hist: multiset<Word>, lost: nat)
    requires TraceTable(p, hist, lost) && Shaped(q) && p.hashes == q.hashes && p.traces == q.traces
    ensures TraceTable(q, hist, lost)
  {
  }

  /** No sample is overwritten if and only if the run stored no more distinct hashes than there are slots. */
  lemma LossIffOverflow(ticks: seq<Tick>)
    requires AllLegal(ticks) && Marked(ticks)
    ensures Lost(ticks) == 0 <==> Fits(ticks)
  {
    TraceTableHolds(ticks);
  }

  /** Probing for a hash gives the number of times it was stored. */
  lemma TraceLookup(ticks: seq<Tick>, hash: Word)
    requires AllLegal(ticks) && Marked(ticks) && Fits(ticks) && hash != 0
    ensures var p := Replay(ticks);
      Lookup(p.hashes, TraceCounts(p.traces), 0, TraceHome, hash) == Hashes(ticks)[hash]
  {
    TraceTableHolds(ticks);
    var p := Replay(ticks);
    LookupCounts(p.hashes, TraceCounts(p.traces), 0, TraceHome, Hashes(ticks), hash);
  }

  lemma TickOf(f: Frame) returns (t: Tick)
    ensures Legal(t) && HasTrace(t) && TraceOf(t) == [f] && t.buffer[0] == f
  {
    t := Walked(1, seq(MAX_FRAMES, _ => f));
  }

  /** A trace whose hash is the empty mark is overwritten by its neighbour in an almost empty table. */
  lemma ZeroHashLoses() returns (ticks: seq<Tick>)
    ensures AllLegal(ticks) && |ticks| == 2 && HasTrace(ticks[0]) && HasTrace(ticks[1])
    ensures HashTrace(TraceOf(ticks[0])) == 0 && HashTrace(TraceOf(ticks[1])) == MAX_CALLTRACES
    ensures Lost(ticks) == 1
  {
    hide HashTrace, StoreMethod, HashMethod;
    var f := EveryHashOccurs(0);
    var g := EveryHashOccurs(MAX_CALLTRACES);
    var s := TickOf(f);
    var t := TickOf(g);
    ticks := [s, t];
    var p := Cleared();
    RecordTables(p, s);
    assert Front(ticks) == [s] && Front([s]) == [];
    assert Replay([s]) == Record(p, s);
    var q := Record(p, s);
    assert TraceStops(p, 0)[Slot(0, 0)] && TraceSlot(p, 0) == 0;
    assert q.hashes[0] == 0 && q.traces[0].callCount == 1;
    assert TraceStops(q, MAX_CALLTRACES)[Slot(0, 0)] && TraceSlot(q, MAX_CALLTRACES) == 0;
    assert Overwritten(q, t) == 1;
    assert Overwritten(p, s) == 0;
    assert Lost([s]) == 0;
  }

  // ---------------------------------------------------------------------------
  // The table of methods

  ghost predicate MethodsInOrder(p: Profile)
  {
    && Shaped(p) && WellProbed(Ids(p.methods), 0, MethodHome)
    && forall i :: 0 <= i < MAX_CALLTRACES ==> (p.methods[i].methodId != 0 <==> p.methods[i].callCount > 0)
  }

  lemma MethodUpdate(p: Profile, m: Word)
    requires Shaped(p)
    ensures var i := MethodSlot(p, m);
      && i == Probe(Ids(p.methods), 0, MethodHome, m)
      && Ids(StoreMethod(p, m).methods) == Ids(p.methods)[i := m]
      && MethodCounts(StoreMethod(p, m).methods) == MethodCounts(p.methods)[i :=
           if Ids(p.methods)[i] == m then MethodCounts(p.methods)[i] + 1 else 1]
  {
    hide Scan, HashMethod;
  }

  /** Storing a method keeps the table in order if and only if the method is not NULL. */
  lemma StoreMethodKeepsOrder(p: Profile, m: Word)
    requires MethodsInOrder(p)
    ensures MethodsInOrder(StoreMethod(p, m)) <==> m != 0
  {
    hide Scan, HashMethod, WellProbed;
    var i := MethodSlot(p, m);
    var p' := StoreMethod(p, m);
    if m == 0 {
      assert p'.methods[i].methodId == 0 && p'.methods[i].callCount > 0;
    } else {
      MethodUpdate(p, m);
      ProbeKeeps(Ids(p.methods), 0, MethodHome, m);
    }
  }

  /** Below capacity the table is the exact count of every method; beyond it, it is full. */
  ghost predicate MethodTable(p: Profile, hist: multiset<Word>)
  {
    && MethodsInOrder(p)
    && if |Support(hist)| <= MAX_CALLTRACES then Refines(Ids(p.methods), MethodCounts(p.methods), 0, hist)
       else 0 !in Ids(p.methods)
  }

  lemma MethodTableStep(p: Profile, hist: multiset<Word>, m: Word)
    requires MethodTable(p, hist) && m != 0
    ensures MethodTable(StoreMethod(p, m), hist + multiset{m})
  {
    hide WellProbed, Scan, HashMethod, MethodSlot, Refines, StoreMethod;
    var p' := StoreMethod(p, m);
    var ids, counts := Ids(p.methods), MethodCounts(p.methods);
    StoreMethodKeepsOrder(p, m);
    MethodUpdate(p, m);
    SupportGrows(hist, m);
    if |Support(hist)| <= MAX_CALLTRACES {
      if m in ids || 0 in ids {
        StoreRefines(ids, counts, 0, MethodHome, hist, m);
        MethodsFitTable(p', hist + multiset{m});
      } else {
        MethodsFitTable(p, hist);
        MissingMethod(p, hist, m);
      }
    }
  }

  lemma MethodsFitTable(p: Profile, hist: multiset<Word>)
    requires MethodsInOrder(p) && Refines(Ids(p.methods), MethodCounts(p.methods), 0, hist)
    ensures |Support(hist)| <= MAX_CALLTRACES
    ensures 0 !in Ids(p.methods) ==> |Support(hist)| == MAX_CALLTRACES
  {
    TableFits(Ids(p.methods), MethodCounts(p.methods), 0, hist);
  }

  lemma MissingMethod(p: Profile, hist: multiset<Word>, m: Word)
    requires Refines(Ids(p.methods), MethodCounts(p.methods), 0, hist) && m !in Ids(p.methods)
    ensures m !in Support(hist)
  {
  }

  lemma {:induction false} MethodTableHolds(ticks: seq<Tick>)
    requires AllLegal(ticks) && Topped(ticks)
    ensures MethodTable(Replay(ticks), Tops(ticks))
    decreases |ticks|
  {
    hide HashTrace, Record, Scan, WellProbed, Refines, StoreMethod, MethodSlot;
    if ticks == [] {
      MethodsCleared();
      assert Support(Tops(ticks)) == {};
    } else {
      MethodTableHolds(Front(ticks));
      var p, t := Replay(Front(ticks)), Last(ticks);
      RecordTables(p, t);
      if HasTrace(t) {
        var m := t.buffer[0].methodId;
        MethodTableStep(p, Tops(Front(ticks)), m);
        SameMethods(StoreMethod(p, m), Replay(ticks), Tops(ticks));
      } else {
        SameMethods(p, Replay(ticks), Tops(ticks));
      }
    }
  }

  lemma MethodsCleared()
    ensures MethodsInOrder(Cleared()) && Refines(Ids(Cleared().methods), MethodCounts(Cleared().methods), 0, multiset{})
  {
  }

  lemma SameMethods(p: Profile, q: Profile, hist: multiset<Word>)
    requires MethodTable(p, hist) && Shaped(q) && p.methods == q.methods
    ensures MethodTable(q, hist)
  {
  }

  /** Probing for a method gives the number of ticks that had it on top. */
  lemma MethodLookup(ticks: seq<Tick>, m: Word)
    requires AllLegal(ticks) && Topped(ticks) && MethodsFit(ticks) && m != 0
    ensures var p := Replay(ticks);
      Lookup(Ids(p.methods), MethodCounts(p.methods), 0, MethodHome, m) == Tops(ticks)[m]
  {
    MethodTableHolds(ticks);
    var p := Replay(ticks);
    LookupCounts(Ids(p.methods), MethodCounts(p.methods), 0, MethodHome, Tops(ticks), m);
  }

  // ---------------------------------------------------------------------------
  // Where a new key goes

  /** A new trace goes to the first empty slot from its hash's bucket on. */
  lemma NewTraceSlot(p: Profile, hash: Word) returns (d: nat)
    requires TracesInOrder(p) && hash != 0 && hash !in p.hashes && 0 in p.hashes
    ensures d < 32768 && TraceSlot(p, hash) == Slot(hash % 32768, d) && p.hashes[Slot(hash % 32768, d)] == 0
    ensures forall e :: 0 <= e < d ==> p.hashes[Slot(hash % 32768, e)] != 0
  {
    hide WellProbed, Scan;
    TraceSlotIsProbe(p, hash);
    ProbeFinds(p.hashes, 0, TraceHome, hash);
    d := Dist(TraceHome(hash), TraceSlot(p, hash));
  }

  /** In a full table it replaces the trace in its hash's bucket, and no other. */
  lemma FullTraceTable(p: Profile, hash: Word, frames: Trace)
    requires TracesInOrder(p) && hash != 0 && hash !in p.hashes && 0 !in p.hashes
    ensures var p' := StoreTrace(p, hash, frames);
      && p'.hashes == p.hashes[hash % 32768 := hash]
      && p'.traces == p.traces[hash % 32768 := CallTraceSample(1, frames)]
  {
    hide WellProbed, Scan;
    TraceSlotIsProbe(p, hash);
    ProbeFinds(p.hashes, 0, TraceHome, hash);
  }

  /** The same for the table of methods, whose buckets are those of `HashMethod`. */
  lemma NewMethodSlot(p: Profile, m: Word) returns (d: nat)
    requires MethodsInOrder(p) && m != 0 && m !in Ids(p.methods) && 0 in Ids(p.methods)
    ensures d < 32768 && MethodSlot(p, m) == Slot(HashMethod(m) % 32768, d)
    ensures Ids(p.methods)[Slot(HashMethod(m) % 32768, d)] == 0
    ensures forall e :: 0 <= e < d ==> Ids(p.methods)[Slot(HashMethod(m) % 32768, e)] != 0
  {
    hide WellProbed, Scan, HashMethod;
    MethodUpdate(p, m);
    ProbeFinds(Ids(p.methods), 0, MethodHome, m);
    d := Dist(MethodHome(m), MethodSlot(p, m));
  }

  lemma FullMethodTable(p: Profile, m: Word)
    requires MethodsInOrder(p) && m != 0 && m !in Ids(p.methods) && 0 !in Ids(p.methods)
    ensures StoreMethod(p, m).methods == p.methods[HashMethod(m) % 32768 := MethodSample(1, m)]
  {
    hide WellProbed, Scan, HashMethod;
    MethodUpdate(p, m);
    ProbeFinds(Ids(p.methods), 0, MethodHome, m);
    assert p.methods[MethodSlot(p, m)].methodId == Ids(p.methods)[MethodSlot(p, m)];
  }

  // ---------------------------------------------------------------------------
  // Which trace a count is credited to

  /** The first trace of the run with each hash. */
  ghost function FirstTraces(ticks: seq<Tick>): map<Word, Trace>
    requires AllLegal(ticks)
    decreases |ticks|
  {
    if ticks == [] then map[]
    else if HasTrace(Last(ticks)) then
      AddFirst(FirstTraces(Front(ticks)), HashTrace(TraceOf(Last(ticks))), TraceOf(Last(ticks)))
    else FirstTraces(Front(ticks))
  }

  ghost function AddFirst(first: map<Word, Trace>, hash: Word, frames: Trace): map<Word, Trace>
  {
    if hash in first then first else first[hash := frames]
  }

  /** What `f` makes of all ticks, when each one counts as the first trace with its hash. */
  ghost function Credit(ticks: seq<Tick>, f: Trace -> nat): nat
    requires AllLegal(ticks)
    decreases |ticks|
  {
    if ticks == [] then 0
    else if HasTrace(Last(ticks)) then
      var h, t := HashTrace(TraceOf(Last(ticks))), TraceOf(Last(ticks));
      Credit(Front(ticks), f) + f(AddFirst(FirstTraces(Front(ticks)), h, t)[h])
    else Credit(Front(ticks), f)
  }

  /** What `f` makes of all ticks, each one counting as itself. */
  ghost function Weigh(ticks: seq<Tick>, f: Trace -> nat): nat
    requires AllLegal(ticks)
    decreases |ticks|
  {
    if ticks == [] then 0
    else Weigh(Front(ticks), f) + if HasTrace(Last(ticks)) then f(TraceOf(Last(ticks))) else 0
  }

  ghost predicate Credited(p: Profile, first: map<Word, Trace>)
    requires Shaped(p)
  {
    forall i :: 0 <= i < MAX_CALLTRACES && p.hashes[i] != 0 ==>
      p.hashes[i] in first && p.traces[i].frames == first[p.hashes[i]]
  }

  lemma CreditStep(p: Profile, hist: multiset<Word>, first: map<Word, Trace>,
                   f: Trace -> nat, hash: Word, frames: Trace)
    requires TracesMean(p, hist) && Credited(p, first) && first.Keys == Support(hist)
    requires hash != 0 && (hash in p.hashes || 0 in p.hashes)
    ensures var first' := AddFirst(first, hash, frames);
      var p' := StoreTrace(p, hash, frames);
      && Credited(p', first')
      && Sum(p'.traces, f) == Sum(p.traces, f) + f(first'[hash])
  {
    hide WellProbed, Scan, Sum, TraceSlot;
    var i := TraceSlot(p, hash);
    TraceSlotIsProbe(p, hash);
    InHistory(p, hist, hash);
    TraceRoom(p, hist, hash);
    StoreConserves(p, hash, frames, f);
    assert TraceHit(p, hash, i) ==> hash in first && p.traces[i].frames == first[hash];
    assert !TraceHit(p, hash, i) ==> hash !in p.hashes by {
      ProbeFinds(p.hashes, 0, TraceHome, hash);
    }
  }

  lemma InHistory(p: Profile, hist: multiset<Word>, hash: Word)
    requires TracesMean(p, hist) && hash != 0
    ensures hash in p.hashes <==> hash in Support(hist)
  {
  }

  lemma {:induction false} FirstKeys(ticks: seq<Tick>)
    requires AllLegal(ticks)
    ensures FirstTraces(ticks).Keys == Support(Hashes(ticks))
    decreases |ticks|
  {
    hide HashTrace;
    if ticks != [] {
      FirstKeys(Front(ticks));
      if HasTrace(Last(ticks)) {
        SupportGrows(Hashes(Front(ticks)), HashTrace(TraceOf(Last(ticks))));
      }
    }
  }

  lemma FitsBefore(ticks: seq<Tick>)
    requires AllLegal(ticks) && ticks != [] && Fits(ticks)
    ensures Fits(Front(ticks))
  {
    hide HashTrace;
    if HasTrace(Last(ticks)) {
      SupportGrows(Hashes(Front(ticks)), HashTrace(TraceOf(Last(ticks))));
    }
  }

  /** Below capacity, the weight of the table is the weight of the ticks, each one under its first trace. */
  lemma {:induction false} CreditHolds(ticks: seq<Tick>, f: Trace -> nat)
    requires AllLegal(ticks) && Marked(ticks) && Fits(ticks)
    ensures Credited(Replay(ticks), FirstTraces(ticks))
    ensures Sum(Replay(ticks).traces, f) == Credit(ticks, f)
    decreases |ticks|
  {
    hide HashTrace, Record, Scan, WellProbed, Refines, StoreTrace, TraceSlot, Sum;
    if ticks == [] {
      SumOfZeros(Cleared().traces, f);
    } else {
      var p, t := Replay(Front(ticks)), Last(ticks);
      FitsBefore(ticks);
      CreditHolds(Front(ticks), f);
      RecordTables(p, t);
      if HasTrace(t) {
        var h := HashTrace(TraceOf(t));
        FirstKeys(Front(ticks));
        TraceTableHolds(Front(ticks));
        TraceRoom(p, Hashes(Front(ticks)), h);
        assert Hashes(ticks) == Hashes(Front(ticks)) + multiset{h};
        CreditStep(p, Hashes(Front(ticks)), FirstTraces(Front(ticks)), f, h, TraceOf(t));
      }
    }
  }

  /** The tick at `i` is the first of the run with its hash. */
  ghost predicate IsFirst(ticks: seq<Tick>, i: nat)
    requires AllLegal(ticks) && i < |ticks|
  {
    && HasTrace(ticks[i])
    && forall j :: 0 <= j < i && HasTrace(ticks[j]) ==> HashTrace(TraceOf(ticks[j])) != HashTrace(TraceOf(ticks[i]))
  }

  /** The trace that a hash is credited to is that of the first tick with this hash. */
  lemma {:induction false} FirstOccurs(ticks: seq<Tick>, h: Word) returns (j: nat)
    requires AllLegal(ticks) && h in FirstTraces(ticks)
    ensures j < |ticks| && IsFirst(ticks, j)
    ensures HashTrace(TraceOf(ticks[j])) == h && FirstTraces(ticks)[h] == TraceOf(ticks[j])
    decreases |ticks|
  {
    hide HashTrace;
    var n := |ticks| - 1;
    if h in FirstTraces(Front(ticks)) {
      j := FirstOccurs(Front(ticks), h);
      assert forall i :: 0 <= i < n ==> Front(ticks)[i] == ticks[i];
    } else {
      j := n;
      forall i | 0 <= i < n && HasTrace(ticks[i])
        ensures HashTrace(TraceOf(ticks[i])) != h
      {
        HashesCover(Front(ticks), i);
        FirstKeys(Front(ticks));
      }
    }
  }

  lemma {:induction false} HashesCover(ticks: seq<Tick>, i: nat)
    requires AllLegal(ticks) && i < |ticks| && HasTrace(ticks[i])
    ensures HashTrace(TraceOf(ticks[i])) in Hashes(ticks)
    decreases |ticks|
  {
    hide HashTrace;
    if i < |ticks| - 1 {
      HashesCover(Front(ticks), i);
    }
  }

  lemma {:induction false} CreditIsWeight(ticks: seq<Tick>, all: seq<Tick>, f: Trace -> nat)
    requires AllLegal(all) && Alike(all, f) && ticks <= all
    ensures AllLegal(ticks) && Credit(ticks, f) == Weigh(ticks, f)
    decreases |ticks|
  {
    hide HashTrace;
    if ticks != [] {
      var n := |ticks| - 1;
      CreditIsWeight(Front(ticks), all, f);
      assert Last(ticks) == all[n];
      if HasTrace(all[n]) {
        var h := HashTrace(TraceOf(all[n]));
        if h in FirstTraces(Front(ticks)) {
          var j := FirstOccurs(Front(ticks), h);
          assert Front(ticks)[j] == all[j];
        }
      }
    }
  }

  /** Below capacity the table weighs what the ticks weigh, if sharing a hash makes no difference. */
  lemma TableWeighsTicks(ticks: seq<Tick>, f: Trace -> nat)
    requires AllLegal(ticks) && Marked(ticks) && Fits(ticks) && Alike(ticks, f)
    ensures Sum(Replay(ticks).traces, f) == Weigh(ticks, f)
  {
    CreditHolds(ticks, f);
    CreditIsWeight(ticks, ticks, f);
  }
}
