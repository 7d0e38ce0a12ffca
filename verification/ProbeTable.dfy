/**
  Open addressing with linear probing, as both tables of the agent do it: start at the home bucket,
  walk cyclically until the key or an empty slot turns up, and settle for the home bucket when the
  walk comes full circle.
 */
module ProbeTable {

  const MAX_CALLTRACES: nat := 32768

  /** The slot `d` steps after bucket `b`, cyclically. */
  function Slot(b: nat, d: nat): (i: nat)
    requires b < MAX_CALLTRACES && d <= MAX_CALLTRACES
    ensures i < MAX_CALLTRACES
  {
    if b + d < MAX_CALLTRACES then b + d else b + d - MAX_CALLTRACES
  }

  /** The walk wraps around after 32768 slots. */
  lemma SlotWraps(b: nat, d: nat)
    requires b < 32768 && d <= 32768
    ensures Slot(b, d) == (b + d) % 32768
  {
  }

  /** How many steps lead from bucket `b` to slot `i`. */
  function Dist(b: nat, i: nat): (d: nat)
    requires b < MAX_CALLTRACES && i < MAX_CALLTRACES
    ensures d < MAX_CALLTRACES && Slot(b, d) == i
  {
    if b <= i then i - b else i + MAX_CALLTRACES - b
  }

  /** Where the probe loop ends when it stands `d` steps after `b`; `stop` marks the slots that end it. */
  function Scan(stop: seq<bool>, b: nat, d: nat): (i: nat)
    requires |stop| == MAX_CALLTRACES && b < MAX_CALLTRACES && d <= MAX_CALLTRACES
    ensures i < MAX_CALLTRACES
    decreases MAX_CALLTRACES - d
  {
    if d == MAX_CALLTRACES then b
    else if stop[Slot(b, d)] then Slot(b, d)
    else Scan(stop, b, d + 1)
  }

  lemma {:induction false} ScanEnds(stop: seq<bool>, b: nat, d: nat)
    requires |stop| == MAX_CALLTRACES && b < MAX_CALLTRACES && d <= MAX_CALLTRACES
    ensures var i := Scan(stop, b, d);
      if stop[i] && d <= Dist(b, i) then forall e :: d <= e < Dist(b, i) ==> !stop[Slot(b, e)]
      else i == b && forall e :: d <= e < MAX_CALLTRACES ==> !stop[Slot(b, e)]
    decreases MAX_CALLTRACES - d
  {
    if d < MAX_CALLTRACES && !stop[Slot(b, d)] {
      ScanEnds(stop, b, d + 1);
      var i := Scan(stop, b, d + 1);
      assert Dist(b, i) == d ==> i == Slot(b, d);
    }
  }

  // ---------------------------------------------------------------------------
  // The table invariant, for keys of any type with an empty mark and a hash

  ghost predicate Homes<K(!new)>(home: K -> nat)
  {
    forall k :: home(k) < MAX_CALLTRACES
  }

  /** No key sits in two slots. */
  ghost predicate Unique<K>(keys: seq<K>, empty: K)
  {
    forall i, j :: 0 <= i < j < |keys| && keys[i] != empty ==> keys[i] != keys[j]
  }

  /** Walking from the home bucket of an occupied slot to that slot meets no empty slot. */
  ghost predicate Chained<K(!new)>(keys: seq<K>, empty: K, home: K -> nat)
    requires |keys| == MAX_CALLTRACES && Homes(home)
  {
    forall i, d :: 0 <= i < MAX_CALLTRACES && keys[i] != empty && 0 <= d < Dist(home(keys[i]), i)
                   ==> keys[Slot(home(keys[i]), d)] != empty
  }

  ghost predicate WellProbed<K(!new)>(keys: seq<K>, empty: K, home: K -> nat)
  {
    && Homes(home) && |keys| == MAX_CALLTRACES
    && Unique(keys, empty) && Chained(keys, empty, home)
  }

  ghost function Stops<K>(keys: seq<K>, empty: K, key: K): (stop: seq<bool>)
    ensures |stop| == |keys|
  {
    seq(|keys|, i requires 0 <= i < |keys| => keys[i] == key || keys[i] == empty)
  }

  /** The slot at which probing for `key` ends. */
  ghost function Probe<K(!new)>(keys: seq<K>, empty: K, home: K -> nat, key: K): (i: nat)
    requires |keys| == MAX_CALLTRACES && Homes(home)
    ensures i < MAX_CALLTRACES
  {
    Scan(Stops(keys, empty, key), home(key), 0)
  }

  /** Probing finds the key if it is there, else an empty slot if there is one, else the home bucket. */
  lemma ProbeFinds<K(!new)>(keys: seq<K>, empty: K, home: K -> nat, key: K)
    requires WellProbed(keys, empty, home) && key != empty
    ensures var i := Probe(keys, empty, home, key);
      && (keys[i] == key <==> key in keys)
      && (key !in keys && empty in keys ==> keys[i] == empty)
      && (key !in keys && empty !in keys ==> i == home(key))
      && (keys[i] == empty ==> forall d :: 0 <= d < Dist(home(key), i) ==> keys[Slot(home(key), d)] != empty)
  {
    var stop, b := Stops(keys, empty, key), home(key);
    ScanEnds(stop, b, 0);
    hide Scan;
    if key in keys {
      var k :| 0 <= k < |keys| && keys[k] == key;
      ProbeReaches(keys, empty, home, k);
    }
    if empty in keys {
      var k :| 0 <= k < |keys| && keys[k] == empty;
      assert stop[Slot(b, Dist(b, k))];
    }
  }

  /** The walk for the key in slot `k` stops nowhere before `k`. */
  lemma ProbeReaches<K(!new)>(keys: seq<K>, empty: K, home: K -> nat, k: nat)
    requires WellProbed(keys, empty, home) && k < |keys| && keys[k] != empty
    ensures keys[Probe(keys, empty, home, keys[k])] == keys[k]
  {
    var stop, b := Stops(keys, empty, keys[k]), home(keys[k]);
    ScanEnds(stop, b, 0);
    hide Scan;
    assert stop[Slot(b, Dist(b, k))];
  }

  /** Writing the key where probing ends keeps the invariant, also when that evicts another key. */
  lemma ProbeKeeps<K(!new)>(keys: seq<K>, empty: K, home: K -> nat, key: K)
    requires WellProbed(keys, empty, home) && key != empty
    ensures WellProbed(keys[Probe(keys, empty, home, key) := key], empty, home)
  {
    ProbeFinds(keys, empty, home, key);
    var i := Probe(keys, empty, home, key);
    var keys' := keys[i := key];
    if keys[i] != key && empty !in keys {
      assert forall k :: 0 <= k < |keys| ==> keys[k] in keys;
    }
  }

  // ---------------------------------------------------------------------------
  // What a table means: how often each key was stored

  ghost function Support<K>(hist: multiset<K>): set<K>
  {
    set k | k in hist
  }

  ghost predicate Refines<K(!new)>(keys: seq<K>, counts: seq<nat>, empty: K, hist: multiset<K>)
  {
    && |counts| == |keys|
    && (forall i :: 0 <= i < |keys| && keys[i] != empty ==> keys[i] in hist && counts[i] == hist[keys[i]])
    && (forall i :: 0 <= i < |keys| && keys[i] == empty ==> counts[i] == 0)
    && (forall k :: k in hist ==> k != empty && k in keys)
  }

  /** What a reader of the table sees: the count at the slot where probing ends, if the key is there. */
  ghost function Lookup<K(!new)>(keys: seq<K>, counts: seq<nat>, empty: K, home: K -> nat, key: K): nat
    requires |keys| == |counts| == MAX_CALLTRACES && Homes(home)
  {
    var i := Probe(keys, empty, home, key);
    if keys[i] == key then counts[i] else 0
  }

  lemma LookupCounts<K(!new)>(keys: seq<K>, counts: seq<nat>, empty: K, home: K -> nat, hist: multiset<K>, key: K)
    requires WellProbed(keys, empty, home) && Refines(keys, counts, empty, hist) && key != empty
    ensures Lookup(keys, counts, empty, home, key) == hist[key]
  {
    ProbeFinds(keys, empty, home, key);
  }

  /** Storing a key for which there is room counts it once more and changes no other count. */
  lemma StoreRefines<K(!new)>(keys: seq<K>, counts: seq<nat>, empty: K, home: K -> nat, hist: multiset<K>, key: K)
    requires WellProbed(keys, empty, home) && Refines(keys, counts, empty, hist) && key != empty
    requires key in keys || empty in keys
    ensures var i := Probe(keys, empty, home, key);
      Refines(keys[i := key], counts[i := if keys[i] == key then counts[i] + 1 else 1], empty, hist + multiset{key})
  {
    var i := Probe(keys, empty, home, key);
    ProbeFinds(keys, empty, home, key);
    assert Unique(keys, empty);
    var keys' := keys[i := key];
    forall k | k in hist
      ensures k in keys'
    {
      var j :| 0 <= j < |keys| && keys[j] == k;
      assert j == i || keys'[j] == k;
      assert keys'[i] == key;
    }
    assert keys'[i] == key;
  }

  lemma {:induction false} UniqueCard<K>(s: seq<K>)
    requires forall i, j :: 0 <= i < j < |s| ==> s[i] != s[j]
    ensures |set k | k in s| == |s|
  {
    if s != [] {
      var t := s[..|s| - 1];
      UniqueCard(t);
      assert s == t + [s[|s| - 1]];
      assert (set k | k in s) == (set k | k in t) + {s[|s| - 1]};
    }
  }

  /** A refining table holds at most its size in keys; it is full only when that many were stored. */
  lemma TableFits<K(!new)>(keys: seq<K>, counts: seq<nat>, empty: K, hist: multiset<K>)
    requires Refines(keys, counts, empty, hist) && Unique(keys, empty)
    ensures |Support(hist)| <= |keys|
    ensures empty !in keys ==> |Support(hist)| == |keys|
  {
    var all := set k | k in keys;
    assert Support(hist) <= all;
    if empty !in keys {
      assert forall i :: 0 <= i < |keys| ==> keys[i] in keys;
      UniqueCard(keys);
      assert all == Support(hist);
    } else {
      SetCard(keys);
      CardMonotone(Support(hist), all);
    }
  }

  lemma {:induction false} SetCard<K>(s: seq<K>)
    ensures |set k | k in s| <= |s|
  {
    if s != [] {
      var t := s[..|s| - 1];
      SetCard(t);
      assert s == t + [s[|s| - 1]];
      assert (set k | k in s) == (set k | k in t) + {s[|s| - 1]};
    }
  }

  lemma CardMonotone<K>(a: set<K>, b: set<K>)
    requires a <= b
    ensures |a| <= |b|
  {
    assert b == a + (b - a);
  }
}
