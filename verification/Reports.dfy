/** The report that STOP sends: what it holds of the store, as functions of the sorted tables. */
module Reports {
  import opened Words
  import opened Hashing
  import opened Samples
  import opened Sorting

  datatype SampleInfo = SampleInfo(callCount: nat, frames: seq<Frame>)

  datatype ProfilingInfo = ProfilingInfo(
    total: nat, nonJava: nat, gc: nat, deopt: nat, unknown: nat,
    methods: seq<MethodSample>, samples: seq<SampleInfo>, methodInfos: seq<Word>)

  function TraceComparator(s1: CallTraceSample, s2: CallTraceSample): int { s2.callCount - s1.callCount }

  function MethodComparator(s1: MethodSample, s2: MethodSample): int { s2.callCount - s1.callCount }

  /** Frames without a method are not reported. */
  function NonNull(frames: Trace): Trace
  {
    if frames == [] then []
    else if Last(frames).methodId != 0 then NonNull(Front(frames)) + [Last(frames)]
    else NonNull(Front(frames))
  }

  function Info(s: CallTraceSample): SampleInfo
  {
    SampleInfo(s.callCount, NonNull(s.frames))
  }

  /** How far the report loop gets: up to the first count of zero. */
  function FirstZero(counts: seq<nat>): (n: nat)
    ensures n <= |counts| && (n < |counts| ==> counts[n] == 0)
    ensures forall k :: 0 <= k < n ==> counts[k] > 0
  {
    if counts == [] || counts[0] == 0 then 0 else 1 + FirstZero(counts[1..])
  }

  ghost function Infos(traces: seq<CallTraceSample>): seq<SampleInfo>
  {
    seq(|traces|, i requires 0 <= i < |traces| => Info(traces[i]))
  }

  /** The samples section, from the sorted traces. */
  ghost function SamplesSection(traces: seq<CallTraceSample>): seq<SampleInfo>
  {
    Infos(traces[..FirstZero(TraceCounts(traces))])
  }

  /** The methods section, from the sorted methods. */
  ghost function MethodsSection(methods: seq<MethodSample>): seq<MethodSample>
  {
    methods[..FirstZero(MethodCounts(methods))]
  }

  ghost function IdsOfFrames(frames: Trace): set<Word>
  {
    set i | 0 <= i < |frames| :: frames[i].methodId
  }

  ghost function IdsOfSamples(samples: seq<SampleInfo>): set<Word>
  {
    set i, j | 0 <= i < |samples| && 0 <= j < |samples[i].frames| :: samples[i].frames[j].methodId
  }

  ghost function IdsOfMethods(methods: seq<MethodSample>): set<Word>
  {
    set i | 0 <= i < |methods| :: methods[i].methodId
  }

  ghost predicate NoDuplicates<T>(s: seq<T>)
  {
    forall i, j :: 0 <= i < j < |s| ==> s[i] != s[j]
  }

  /**
    What the report says of a store: the counters, the two sorted tables up to their first zero, and
    one MethodInfo for each method id that either section mentions.
   */
  ghost predicate ReportsOn(info: ProfilingInfo, p: Profile)
  {
    && info.total == p.total && info.nonJava == p.nonJava && info.gc == p.gc
    && info.deopt == p.deopt && info.unknown == p.unknown
    && info.methods == MethodsSection(p.methods)
    && info.samples == SamplesSection(p.traces)
    && NoDuplicates(info.methodInfos)
    && (forall id :: id in info.methodInfos <==> id in IdsOfMethods(info.methods) + IdsOfSamples(info.samples))
  }

  /** `q` is `p` with both tables sorted in place; the hash array stays as it was. */
  ghost predicate SortedFrom(q: Profile, p: Profile)
    requires Shaped(p)
  {
    && q == p.(traces := q.traces, methods := q.methods) && Shaped(q)
    && multiset(q.traces) == multiset(p.traces) && multiset(q.methods) == multiset(p.methods)
    && Sorted(q.traces, TraceComparator) && Sorted(q.methods, MethodComparator)
  }
}
