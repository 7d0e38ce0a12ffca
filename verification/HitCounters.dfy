/** The every-N counter of the logging header, whose stored count wraps at 100000. */
module HitCounters {

  const MAX_LOG_PER_COUNTER: nat := 100000

  /** One call at a logging site: its file, its line and its `n`. */
  datatype Call = Call(filename: string, line: nat, n: nat)

  // ---------------------------------------------------------------------------
  // One counter

  function NextCount(count: nat, n: nat): nat
  {
    (if count >= MAX_LOG_PER_COUNTER then if n >= 1 then MAX_LOG_PER_COUNTER % n else 0 else count) + 1
  }

  predicate Fires(count: nat, n: nat)
  {
    n >= 1 && count != 0 && count % n == 0
  }

  /** The stored count after `k` calls with the same `n`. */
  function CountAfter(k: nat, n: nat): nat
  {
    if k == 0 then 0 else NextCount(CountAfter(k - 1, n), n)
  }

  predicate Divides(n: nat, k: nat)
  {
    n >= 1 && k % n == 0
  }

  lemma {:induction false} CountFollows(k: nat, n: nat)
    requires 1 <= n <= 100000
    ensures CountAfter(k, n) <= 100000
    ensures CountAfter(k, n) % n == k % n && (k > 0 ==> CountAfter(k, n) > 0)
  {
    if k > 0 {
      CountFollows(k - 1, n);
      var c := CountAfter(k - 1, n);
      var base := if c >= MAX_LOG_PER_COUNTER then MAX_LOG_PER_COUNTER % n else c;
      Residue(MAX_LOG_PER_COUNTER, n);
      NextResidue(base, k - 1, n);
      if c < MAX_LOG_PER_COUNTER {
      } else {
        Wraps(n);
      }
    }
  }

  lemma Residue(a: nat, n: nat)
    requires n >= 1
    ensures a % n % n == a % n && a % n < n
  {
  }

  lemma NextResidue(a: nat, b: nat, n: nat)
    requires n >= 1 && a % n == b % n
    ensures (a + 1) % n == (b + 1) % n
  {
    StepResidue(a, n);
    StepResidue(b, n);
  }

  lemma StepResidue(a: nat, n: nat)
    requires n >= 1
    ensures (a + 1) % n == if a % n == n - 1 then 0 else a % n + 1
  {
    var q, r := a / n, a % n;
    if r == n - 1 {
      assert a + 1 == (q + 1) * n + 0;
      ResidueUnique(a + 1, n, q + 1, 0);
    } else {
      ResidueUnique(a + 1, n, q, r + 1);
    }
  }

  lemma ResidueUnique(a: nat, n: nat, q: nat, r: nat)
    requires r < n && a == q * n + r
    ensures a % n == r
  {
    var q', r' := a / n, a % n;
    assert (q - q') * n == r' - r;
    if q > q' {
      AtLeast(q - q', n);
    } else if q < q' {
      AtLeast(q' - q, n);
    }
  }

  lemma AtLeast(k: nat, n: nat)
    requires k >= 1
    ensures k * n >= n
  {
  }

  lemma Wraps(n: nat)
    requires 1 <= n <= 100000
    ensures 100000 % n + 1 <= 100000
  {
  }

  /** Past the wrap, a counter that is asked for more than its limit stands still. */
  lemma {:induction false} CountStuck(k: nat, n: nat)
    requires n > 100000
    ensures CountAfter(k, n) == if k <= 100000 then k else 100001
  {
    if k > 0 {
      CountStuck(k - 1, n);
    }
  }

  /** The `k`-th call fires exactly when `n` divides `k`, for every `k`, if and only if `n` is at most the limit. */
  lemma EveryNthCall(n: nat)
    ensures (forall k :: k >= 1 ==> (Fires(CountAfter(k, n), n) <==> Divides(n, k))) <==> n <= 100000
  {
    if 1 <= n <= MAX_LOG_PER_COUNTER {
      forall k | k >= 1
        ensures Fires(CountAfter(k, n), n) <==> Divides(n, k)
      {
        CountFollows(k, n);
      }
    } else if n > MAX_LOG_PER_COUNTER {
      var k := if n == MAX_LOG_PER_COUNTER + 1 then n + 1 else n;
      CountStuck(k, n);
      assert Fires(CountAfter(k, n), n) != Divides(n, k);
    }
  }

  // ---------------------------------------------------------------------------
  // The registry of counters

  ghost predicate At(c: Call, filename: string, line: nat)
  {
    c.filename == filename && c.line == line
  }

  /** How many of the calls were made at a site. */
  ghost function Hits(calls: seq<Call>, filename: string, line: nat): nat
  {
    if calls == [] then 0
    else Hits(calls[..|calls| - 1], filename, line) + if At(calls[|calls| - 1], filename, line) then 1 else 0
  }

  /** What the counter of a site holds after the calls, whatever else was called in between. */
  ghost function SiteCount(calls: seq<Call>, filename: string, line: nat): nat
  {
    if calls == [] then 0
    else
      var before := SiteCount(calls[..|calls| - 1], filename, line);
      if At(calls[|calls| - 1], filename, line) then NextCount(before, calls[|calls| - 1].n) else before
  }

  /** Every call at the site asked for the same `n`. */
  ghost predicate Steady(calls: seq<Call>, filename: string, line: nat, n: nat)
  {
    forall i :: 0 <= i < |calls| && At(calls[i], filename, line) ==> calls[i].n == n
  }

  lemma {:induction false} SteadyCount(calls: seq<Call>, filename: string, line: nat, n: nat)
    requires Steady(calls, filename, line, n)
    ensures SiteCount(calls, filename, line) == CountAfter(Hits(calls, filename, line), n)
  {
    if calls != [] {
      SteadyCount(calls[..|calls| - 1], filename, line, n);
    }
  }

  class HitCounter {
    const filename: string
    const line: nat
    var hitCounts: nat

    constructor (filename: string, line: nat)
      ensures this.filename == filename && this.line == line && hitCounts == 0
    {
      this.filename, this.line, hitCounts := filename, line, 0;
    }

    method ValidateHitCounts(n: nat)
      modifies this
      ensures hitCounts == NextCount(old(hitCounts), n)
    {
      if hitCounts >= MAX_LOG_PER_COUNTER {
        hitCounts := if n >= 1 then MAX_LOG_PER_COUNTER % n else 0;
      }
      hitCounts := hitCounts + 1;
    }
  }

  class RegisteredHitCounters {
    var list: seq<HitCounter>
    ghost var calls: seq<Call>   // every call so far

    ghost predicate Registered(c: Call)
      reads this
    {
      exists j :: 0 <= j < |list| && At(c, list[j].filename, list[j].line)
    }

    ghost predicate Valid()
      reads this, list
    {
      && (forall i, j :: 0 <= i < j < |list| ==>
            list[i] != list[j] && !(list[i].filename == list[j].filename && list[i].line == list[j].line))
      && (forall i :: 0 <= i < |list| ==> list[i].hitCounts == SiteCount(calls, list[i].filename, list[i].line))
      && (forall i :: 0 <= i < |calls| ==> Registered(calls[i]))
    }

    constructor ()
      ensures Valid() && calls == []
    {
      list, calls := [], [];
    }

    /** The counter of a site, if there is one. */
    method Get(filename: string, line: nat) returns (counter: HitCounter?)
      ensures counter == null ==>
        forall i :: 0 <= i < |list| ==> !(list[i].filename == filename && list[i].line == line)
      ensures counter != null ==> counter in list && counter.filename == filename && counter.line == line
    {
      for i := 0 to |list|
        invariant forall k :: 0 <= k < i ==> !(list[k].filename == filename && list[k].line == line)
      {
        if list[i].filename == filename && list[i].line == line {
          return list[i];
        }
      }
      return null;
    }

    /** The counter of a site, registered now if it is new. */
    method Obtain(filename: string, line: nat) returns (counter: HitCounter)
      requires Valid()
      modifies this`list
      ensures Valid() && calls == old(calls) && old(list) <= list && fresh((set c | c in list) - set c | c in old(list))
      ensures counter in list && counter.filename == filename && counter.line == line
    {
      var found := Get(filename, line);
      if found != null {
        return found;
      }
      counter := new HitCounter(filename, line);
      NeverCalled(calls, filename, line);
      ghost var before := list;
      list := list + [counter];
      assert list[|before|] == counter;
      forall i | 0 <= i < |calls|
        ensures Registered(calls[i])
      {
        var j :| 0 <= j < |before| && At(calls[i], before[j].filename, before[j].line);
        assert list[j] == before[j];
      }
    }

    /**
      As long as a site keeps asking for one `n` within the limit, its call fires exactly when `n`
      divides the number of its calls, whatever the other sites do.
     */
    method ValidateEveryN(filename: string, line: nat, n: nat) returns (r: bool)
      requires Valid()
      modifies this, list
      ensures Valid() && calls == old(calls) + [Call(filename, line, n)]
      ensures r <==> Fires(SiteCount(calls, filename, line), n)
      ensures Steady(calls, filename, line, n) && n <= 100000 ==>
        (r <==> Divides(n, Hits(calls, filename, line)))
    {
      var counter := Obtain(filename, line);
      Hit(counter, n);
      r := n >= 1 && counter.hitCounts != 0 && counter.hitCounts % n == 0;
      SteadyFires(calls, filename, line, n);
    }

    method Hit(counter: HitCounter, n: nat)
      requires Valid() && counter in list
      modifies this`calls, counter
      ensures Valid() && calls == old(calls) + [Call(counter.filename, counter.line, n)]
      ensures counter.hitCounts == SiteCount(calls, counter.filename, counter.line)
      ensures Hits(calls, counter.filename, counter.line) >= 1
    {
      ghost var call := Call(counter.filename, counter.line, n);
      CallsGrow(calls, call);
      hide SiteCount, Hits;
      counter.ValidateHitCounts(n);
      calls := calls + [call];
    }
  }

  lemma SteadyFires(calls: seq<Call>, filename: string, line: nat, n: nat)
    requires Hits(calls, filename, line) >= 1
    ensures Steady(calls, filename, line, n) && n <= 100000 ==>
      (Fires(SiteCount(calls, filename, line), n) <==> Divides(n, Hits(calls, filename, line)))
  {
    if Steady(calls, filename, line, n) && n <= MAX_LOG_PER_COUNTER {
      SteadyCount(calls, filename, line, n);
      EveryNthCall(n);
    }
  }

  ghost function Counted(calls: seq<Call>, c: Call, filename: string, line: nat): nat
  {
    var before := SiteCount(calls, filename, line);
    if At(c, filename, line) then NextCount(before, c.n) else before
  }

  lemma CallsGrow(calls: seq<Call>, c: Call)
    ensures forall f, l :: SiteCount(calls + [c], f, l) == Counted(calls, c, f, l)
    ensures Hits(calls + [c], c.filename, c.line) >= 1
  {
    assert (calls + [c])[..|calls|] == calls;
  }

  lemma {:induction false} NeverCalled(calls: seq<Call>, filename: string, line: nat)
    requires forall i :: 0 <= i < |calls| ==> !At(calls[i], filename, line)
    ensures SiteCount(calls, filename, line) == 0
  {
    if calls != [] {
      NeverCalled(calls[..|calls| - 1], filename, line);
    }
  }
}
