/**
  The level configuration of the logging header: a plain list with one entry per level and type, and
  the compressed per-level map that is built from it, with fallback to the Global level.
 */
module LogConfigs {

  datatype Level = Global | Trace | Debug | Fatal | Error | Warning | Verbose | Info | Unknown

  datatype ConfigurationType =
    Enabled | ToFile | ToStandardOutput | Format | Filename | MillisecondsWidth | PerformanceTracking
    | MaxLogFileSize | LogFlushThreshold

  datatype Configuration = Configuration(level: Level, configurationType: ConfigurationType, value: string)

  datatype Option<T> = None | Some(value: T)

  const MIN_VALID: nat := 2      // Level::Trace
  const MAX_VALID: nat := 128    // Level::Info

  function CastFromInt(l: nat): Level
  {
    match l
    case 1 => Global
    case 2 => Trace
    case 4 => Debug
    case 8 => Fatal
    case 16 => Error
    case 32 => Warning
    case 64 => Verbose
    case 128 => Info
    case _ => Unknown
  }

  // ---------------------------------------------------------------------------
  // The list

  /** The position of the entry for a level and type, or the length of the list. */
  function Find(list: seq<Configuration>, level: Level, ty: ConfigurationType): (i: nat)
    ensures i <= |list|
    ensures i < |list| ==> list[i].level == level && list[i].configurationType == ty
    ensures forall k :: 0 <= k < i ==> !(list[k].level == level && list[k].configurationType == ty)
  {
    if list == [] || (list[0].level == level && list[0].configurationType == ty) then 0
    else 1 + Find(list[1..], level, ty)
  }

  function Get(list: seq<Configuration>, level: Level, ty: ConfigurationType): Option<string>
  {
    var i := Find(list, level, ty);
    if i < |list| then Some(list[i].value) else None
  }

  /** No level and type is listed twice. */
  ghost predicate NoPairTwice(list: seq<Configuration>)
  {
    forall i, j :: 0 <= i < j < |list| ==>
      !(list[i].level == list[j].level && list[i].configurationType == list[j].configurationType)
  }

  /** The level at which a type was registered first. */
  ghost function FirstLevel(list: seq<Configuration>, ty: ConfigurationType): Option<Level>
  {
    if list == [] then None
    else if list[0].configurationType == ty then Some(list[0].level)
    else FirstLevel(list[1..], ty)
  }

  /** Replace the entry for a level and type, or append one. */
  function Put(list: seq<Configuration>, level: Level, ty: ConfigurationType, value: string): seq<Configuration>
  {
    var i := Find(list, level, ty);
    if i < |list| then list[i := Configuration(level, ty, value)] else list + [Configuration(level, ty, value)]
  }

  /** What is read after a write of `value` that concerned the reader, or did not. */
  ghost function After<T>(concerned: bool, value: T, before: Option<T>): Option<T>
  {
    if concerned then Some(value) else before
  }

  /** The first level of a type once a write at `level` concerned the type, or did not. */
  ghost function FirstAfter(concerned: bool, level: Level, before: Option<Level>): Option<Level>
  {
    if before.Some? then before else if concerned then Some(level) else None
  }

  lemma PutSets(list: seq<Configuration>, level: Level, ty: ConfigurationType, value: string)
    requires NoPairTwice(list)
    ensures NoPairTwice(Put(list, level, ty, value))
    ensures var list' := Put(list, level, ty, value);
      forall l, t :: Get(list', l, t) == After(t == ty && l == level, value, Get(list, l, t))
  {
    var list' := Put(list, level, ty, value);
    assert list'[Find(list, level, ty)] == Configuration(level, ty, value);
    forall l, t
      ensures Get(list', l, t) == After(t == ty && l == level, value, Get(list, l, t))
    {
      var i, j, n := Find(list, l, t), Find(list', l, t), Find(list, level, ty);
      assert l == level && t == ty ==> j == n;
      assert !(l == level && t == ty) && i < |list| ==> list'[i] == list[i] && j == i;
      assert !(l == level && t == ty) && i == |list| ==> j == |list'|;
    }
  }

  /** `Put` never changes which level of a type comes first, once there is one. */
  lemma {:induction false} PutKeepsFirst(list: seq<Configuration>, level: Level, ty: ConfigurationType,
                                         value: string, t: ConfigurationType)
    ensures FirstLevel(Put(list, level, ty, value), t) == FirstAfter(t == ty, level, FirstLevel(list, t))
  {
    var list' := Put(list, level, ty, value);
    if list == [] {
      assert list' == [Configuration(level, ty, value)];
    } else {
      FirstOf(list, t);
      FirstOf(list', t);
      hide FirstLevel, Find;
      if list[0].level == level && list[0].configurationType == ty {
        PutHead(list, level, ty, value);
      } else {
        PutTail(list, level, ty, value);
        hide Put;
        PutKeepsFirst(list[1..], level, ty, value, t);
      }
    }
  }

  lemma FirstOf(list: seq<Configuration>, t: ConfigurationType)
    requires list != []
    ensures FirstLevel(list, t) ==
      if list[0].configurationType == t then Some(list[0].level) else FirstLevel(list[1..], t)
  {
  }

  lemma PutHead(list: seq<Configuration>, level: Level, ty: ConfigurationType, value: string)
    requires list != [] && list[0].level == level && list[0].configurationType == ty
    ensures var list' := Put(list, level, ty, value);
      list' != [] && list'[0] == Configuration(level, ty, value) && list'[1..] == list[1..]
  {
    assert Find(list, level, ty) == 0;
  }

  lemma PutTail(list: seq<Configuration>, level: Level, ty: ConfigurationType, value: string)
    requires list != [] && !(list[0].level == level && list[0].configurationType == ty)
    ensures var list' := Put(list, level, ty, value);
      list' != [] && list'[0] == list[0] && list'[1..] == Put(list[1..], level, ty, value)
  {
    assert Find(list, level, ty) == 1 + Find(list[1..], level, ty);
  }

  // ---------------------------------------------------------------------------
  // Setting

  /** Whether a `set` at `level` sets `l`: its own level, and from Global every valid one. */
  predicate Reaches(level: Level, l: Level)
  {
    l == level || (level == Global && l != Unknown)
  }

  /** What one `set` does to what the list answers. */
  ghost predicate SetDone(list: seq<Configuration>, list': seq<Configuration>, level: Level, ty: ConfigurationType,
                          value: string)
  {
    && NoPairTwice(list')
    && (forall l, t :: Get(list', l, t) == After(t == ty && Reaches(level, l), value, Get(list, l, t)))
    && (forall t :: FirstLevel(list', t) == FirstAfter(t == ty, level, FirstLevel(list, t)))
  }

  /** The levels that `forEachLevel` visits before it reaches `lIndex`. */
  predicate Visited(l: Level, lIndex: nat)
  {
    match l
    case Trace => 2 < lIndex
    case Debug => 4 < lIndex
    case Fatal => 8 < lIndex
    case Error => 16 < lIndex
    case Warning => 32 < lIndex
    case Verbose => 64 < lIndex
    case Info => 128 < lIndex
    case _ => false
  }

  predicate PowerOfTwo(lIndex: nat)
  {
    lIndex in {2, 4, 8, 16, 32, 64, 128, 256}
  }

  /** What `Put` does, short of what a `set` at Global does beyond it. */
  lemma PutIsSet(list: seq<Configuration>, level: Level, ty: ConfigurationType, value: string)
    requires NoPairTwice(list)
    ensures NoPairTwice(Put(list, level, ty, value))
    ensures PutDone(list, Put(list, level, ty, value), level, ty, value)
  {
    PutSets(list, level, ty, value);
    PutFirsts(list, level, ty, value);
    hide Get, FirstLevel, NoPairTwice, Put;
  }

  lemma PlainIsSet(list: seq<Configuration>, list': seq<Configuration>, level: Level, ty: ConfigurationType,
                   value: string)
    requires PutDone(list, list', level, ty, value) && NoPairTwice(list')
    ensures FirstLevel(list', ty).Some?
    ensures level != Global ==> SetDone(list, list', level, ty, value)
  {
    hide Get, FirstLevel, NoPairTwice;
  }

  ghost predicate PutDone(list: seq<Configuration>, list': seq<Configuration>, level: Level, ty: ConfigurationType,
                          value: string)
  {
    && (forall l, t :: Get(list', l, t) == After(t == ty && l == level, value, Get(list, l, t)))
    && (forall t :: FirstLevel(list', t) == FirstAfter(t == ty, level, FirstLevel(list, t)))
  }

  lemma GlobalIsSet(list: seq<Configuration>, list1: seq<Configuration>, list2: seq<Configuration>,
                    ty: ConfigurationType, value: string)
    requires PutDone(list, list1, Global, ty, value) && NoPairTwice(list2)
    requires forall l, t :: Get(list2, l, t) == After(t == ty && Visited(l, 2 * MAX_VALID), value, Get(list1, l, t))
    requires forall t :: FirstLevel(list2, t) == FirstAfter(t == ty, Global, FirstLevel(list1, t))
    ensures SetDone(list, list2, Global, ty, value)
  {
    hide Get, FirstLevel, NoPairTwice;
  }

  class Configurations {
    var list: seq<Configuration>

    constructor ()
      ensures list == []
    {
      list := [];
    }

    method UnsafeSet(level: Level, ty: ConfigurationType, value: string)
      requires NoPairTwice(list)
      modifies this
      ensures SetDone(old(list), list, level, ty, value)
      decreases if level == Global then 2 else 0
    {
      ghost var list0 := list;
      PutIsSet(list, level, ty, value);
      PlainIsSet(list, Put(list, level, ty, value), level, ty, value);
      hide Get, FirstLevel, NoPairTwice, SetDone, PutDone;
      var conf := Find(list, level, ty);
      if conf == |list| {
        list := list + [Configuration(level, ty, value)];
      } else {
        list := list[conf := Configuration(level, ty, value)];
      }
      assert list == Put(list0, level, ty, value);
      if level == Global {
        ghost var list1 := list;
        UnsafeSetGlobally(ty, value, false);
        GlobalIsSet(list0, list1, list, ty, value);
      }
    }

    method UnsafeSetGlobally(ty: ConfigurationType, value: string, includeGlobalLevel: bool)
      requires NoPairTwice(list)
      modifies this
      ensures NoPairTwice(list)
      ensures forall l, t :: Get(list, l, t) == After(
        t == ty && (Visited(l, 2 * MAX_VALID) || (l == Global && includeGlobalLevel)), value, Get(old(list), l, t))
      ensures var first := if includeGlobalLevel then Global else Trace;
        forall t :: FirstLevel(list, t) == FirstAfter(t == ty, first, FirstLevel(old(list), t))
      decreases if includeGlobalLevel then 3 else 1
    {
      hide Get, FirstLevel, NoPairTwice;
      if includeGlobalLevel {
        UnsafeSet(Global, ty, value);
      }
      ghost var before := list;
      var lIndex := MIN_VALID;
      while lIndex <= MAX_VALID
        invariant PowerOfTwo(lIndex) && NoPairTwice(list)
        invariant forall l, t :: Get(list, l, t) == After(t == ty && Visited(l, lIndex), value, Get(before, l, t))
        invariant var begun := lIndex > MIN_VALID;
          forall t :: FirstLevel(list, t) == FirstAfter(t == ty && begun, Trace, FirstLevel(before, t))
        decreases 256 - lIndex
      {
        UnsafeSet(CastFromInt(lIndex), ty, value);
        lIndex := lIndex * 2;
      }
    }

    method Set(level: Level, ty: ConfigurationType, value: string)
      requires NoPairTwice(list)
      modifies this
      ensures SetDone(old(list), list, level, ty, value)
    {
      UnsafeSet(level, ty, value);
      if level == Global {
        UnsafeSetGlobally(ty, value, false);
      }
    }
  }

  lemma PutFirsts(list: seq<Configuration>, level: Level, ty: ConfigurationType, value: string)
    ensures forall t :: FirstLevel(Put(list, level, ty, value), t) == FirstAfter(t == ty, level, FirstLevel(list, t))
  {
    forall t
      ensures FirstLevel(Put(list, level, ty, value), t) == FirstAfter(t == ty, level, FirstLevel(list, t))
    {
      PutKeepsFirst(list, level, ty, value, t);
    }
  }

  // ---------------------------------------------------------------------------
  // Runs of set calls

  /** A list that some sequence of calls to `Set` leaves behind. */
  ghost predicate SetRun(lists: seq<seq<Configuration>>, calls: seq<Configuration>)
  {
    && |lists| == |calls| + 1 && lists[0] == []
    && forall i :: 0 <= i < |calls| ==>
         SetDone(lists[i], lists[i + 1], calls[i].level, calls[i].configurationType, calls[i].value)
  }

  /** The value of the last call that reached a level and type. */
  ghost function LastSet(calls: seq<Configuration>, l: Level, t: ConfigurationType): Option<string>
  {
    if calls == [] then None
    else
      var c := calls[|calls| - 1];
      After(c.configurationType == t && Reaches(c.level, l), c.value, LastSet(calls[..|calls| - 1], l, t))
  }

  /** The level of the first call for a type. */
  ghost function FirstSet(calls: seq<Configuration>, t: ConfigurationType): Option<Level>
  {
    if calls == [] then None
    else
      var c := calls[|calls| - 1];
      FirstAfter(c.configurationType == t, c.level, FirstSet(calls[..|calls| - 1], t))
  }

  /** After any sequence of calls, each list entry holds the last value that reached it, and none is listed twice. */
  lemma {:induction false} RunAnswers(lists: seq<seq<Configuration>>, calls: seq<Configuration>, l: Level,
                                      t: ConfigurationType)
    requires SetRun(lists, calls)
    ensures NoPairTwice(lists[|calls|])
    ensures Get(lists[|calls|], l, t) == LastSet(calls, l, t)
    ensures FirstLevel(lists[|calls|], t) == FirstSet(calls, t)
    decreases |calls|
  {
    if calls != [] {
      hide Get, FirstLevel;
      var n := |calls| - 1;
      RunAnswers(lists[..n + 1], calls[..n], l, t);
      assert SetDone(lists[n], lists[n + 1], calls[n].level, calls[n].configurationType, calls[n].value);
    }
  }

  // ---------------------------------------------------------------------------
  // The compressed map

  /** `TypedConfigurations::setValue`, with the Global level allowed in an empty map. */
  function SetValue<T(==)>(m: map<Level, T>, level: Level, value: T): map<Level, T>
  {
    if m == map[] then map[Global := value]
    else if Global in m && m[Global] == value then m
    else m[level := value]
  }

  /** `build`, for one type whose values are read by `parse`. */
  function Build<T(==)>(list: seq<Configuration>, ty: ConfigurationType, parse: string -> T): map<Level, T>
  {
    if list == [] then map[]
    else
      var c, m := list[|list| - 1], Build(list[..|list| - 1], ty, parse);
      if c.configurationType == ty then SetValue(m, c.level, parse(c.value)) else m
  }

  /** `unsafeGetConfigByVal`: the level's own value, else the Global one, else the type's default. */
  function Answer<T>(m: map<Level, T>, level: Level, default: T): T
  {
    if level in m then m[level] else if Global in m then m[Global] else default
  }

  class TypedConfigurations<T(==)> {
    var confMap: map<Level, T>

    constructor (list: seq<Configuration>, ty: ConfigurationType, parse: string -> T)
      ensures confMap == Build(list, ty, parse)
    {
      confMap := map[];
      new;
      for i := 0 to |list|
        invariant confMap == Build(list[..i], ty, parse)
      {
        assert list[..i + 1][..i] == list[..i];
        if list[i].configurationType == ty {
          SetConf(list[i].level, parse(list[i].value));
        }
      }
      assert list[..|list|] == list;
    }

    method SetConf(level: Level, value: T)
      modifies this
      ensures confMap == SetValue(old(confMap), level, value)
    {
      if confMap == map[] {
        confMap := confMap[Global := value];
        return;
      }
      if Global in confMap && confMap[Global] == value {
        return;
      }
      confMap := confMap[level := value];
    }

    method GetConfigByVal(level: Level, default: T) returns (r: T)
      ensures r == Answer(confMap, level, default)
    {
      if level !in confMap {
        if Global in confMap {
          return confMap[Global];
        }
        return default;
      }
      return confMap[level];
    }
  }

  // ---------------------------------------------------------------------------
  // The map against the list

  /** The first entry of a type, if there is one. */
  ghost function FirstValue(list: seq<Configuration>, ty: ConfigurationType): Option<Configuration>
  {
    if list == [] then None
    else
      var c, first := list[|list| - 1], FirstValue(list[..|list| - 1], ty);
      if first.Some? then first else if c.configurationType == ty then Some(c) else None
  }

  lemma {:induction false} FirstValueLevel(list: seq<Configuration>, ty: ConfigurationType)
    ensures FirstValue(list, ty).Some? <==> FirstLevel(list, ty).Some?
    ensures FirstValue(list, ty).Some? ==>
      FirstValue(list, ty).value in list && FirstValue(list, ty).value.configurationType == ty
      && FirstLevel(list, ty) == Some(FirstValue(list, ty).value.level)
  {
    if list != [] {
      var front, c := list[..|list| - 1], list[|list| - 1];
      FirstValueLevel(front, ty);
      FirstAppend(front, c, ty);
      assert list == front + [c];
    }
  }

  lemma {:induction false} FirstAppend(list: seq<Configuration>, c: Configuration, ty: ConfigurationType)
    ensures FirstLevel(list + [c], ty) == FirstAfter(c.configurationType == ty, c.level, FirstLevel(list, ty))
  {
    if list == [] {
      assert list + [c] == [c];
      FirstOf([c], ty);
    } else {
      FirstOf(list, ty);
      FirstOf(list + [c], ty);
      hide FirstLevel;
      assert (list + [c])[1..] == list[1..] + [c];
      FirstAppend(list[1..], c, ty);
    }
  }

  /** The parsed value that the list has for each level of a type. */
  ghost function Parsed<T>(list: seq<Configuration>, ty: ConfigurationType, parse: string -> T): Level -> Option<T>
  {
    l => var v := Get(list, l, ty); if v.Some? then Some(parse(v.value)) else None
  }

  datatype Entry<T> = Entry(level: Level, value: T)

  ghost function FirstEntry<T>(list: seq<Configuration>, ty: ConfigurationType, parse: string -> T): Option<Entry<T>>
  {
    var first := FirstValue(list, ty);
    if first.Some? then Some(Entry(first.value.level, parse(first.value.value))) else None
  }

  /**
    What the map holds of a list that gives the values `get`, with `first` its first entry: at Global
    the Global value, or the first one while there is none; for every other listed level either its own
    value or nothing, the latter only for a value equal to the one at Global or to the first one.
   */
  ghost predicate Compressed<T>(get: Level -> Option<T>, first: Option<Entry<T>>, m: map<Level, T>)
  {
    match first
    case None => m == map[] && forall l :: get(l).None?
    case Some(e) =>
      && Global in m && m[Global] == (if get(Global).Some? then get(Global).value else e.value)
      && (forall l :: l in m && l != Global ==> get(l) == Some(m[l]))
      && (forall l :: l !in m && get(l).Some? ==> get(l).value == m[Global] || get(l).value == e.value)
      && get(e.level) == Some(e.value) && (e.level != Global ==> e.level !in m)
  }

  lemma CompressEntry<T>(get: Level -> Option<T>, get': Level -> Option<T>, first: Option<Entry<T>>,
                         m: map<Level, T>, level: Level, value: T)
    requires Compressed(get, first, m) && get(level).None?
    requires forall l :: get'(l) == After(l == level, value, get(l))
    ensures Compressed(get', if first.Some? then first else Some(Entry(level, value)), SetValue(m, level, value))
  {
  }

  lemma GetAppend(list: seq<Configuration>, c: Configuration, l: Level, ty: ConfigurationType)
    requires NoPairTwice(list + [c])
    ensures Get(list + [c], l, ty) == After(c.level == l && c.configurationType == ty, c.value, Get(list, l, ty))
    ensures c.level == l && c.configurationType == ty ==> Get(list, l, ty).None?
  {
    var all := list + [c];
    assert all[|list|] == c;
    var i, j := Find(list, l, ty), Find(all, l, ty);
    if i < |list| {
      assert all[i] == list[i];
      assert j == i;
    } else {
      assert forall k :: 0 <= k < |list| ==> all[k] == list[k];
      assert j >= |list|;
    }
  }

  lemma {:induction false} BuildCompresses<T>(list: seq<Configuration>, ty: ConfigurationType, parse: string -> T)
    requires NoPairTwice(list)
    ensures Compressed(Parsed(list, ty, parse), FirstEntry(list, ty, parse), Build(list, ty, parse))
  {
    if list == [] {
      assert forall l :: Get([], l, ty) == None;
    } else {
      var front, c := list[..|list| - 1], list[|list| - 1];
      BuildCompresses(front, ty, parse);
      assert front + [c] == list;
      hide Compressed, SetValue;
      var get, get' := Parsed(front, ty, parse), Parsed(list, ty, parse);
      forall l
        ensures get'(l) == After(c.level == l && c.configurationType == ty, parse(c.value), get(l))
        ensures c.level == l && c.configurationType == ty ==> get(l).None?
      {
        GetAppend(front, c, l, ty);
      }
      if c.configurationType == ty {
        CompressEntry(get, get', FirstEntry(front, ty, parse), Build(front, ty, parse), c.level, parse(c.value));
      } else {
        SameCompressed(get, get', FirstEntry(front, ty, parse), Build(front, ty, parse));
      }
    }
  }

  lemma SameCompressed<T>(get: Level -> Option<T>, get': Level -> Option<T>, first: Option<Entry<T>>, m: map<Level, T>)
    requires Compressed(get, first, m) && forall l :: get'(l) == get(l)
    ensures Compressed(get', first, m)
  {
  }

  /**
    The compressed map answers every listed level with that level's own value if and only if the first
    entry of the type is at Global, or Global is not listed, or both have the same value.
   */
  lemma CompressionExact<T>(list: seq<Configuration>, ty: ConfigurationType, parse: string -> T, default: T)
    requires NoPairTwice(list) && FirstValue(list, ty).Some?
    ensures var first := FirstValue(list, ty).value;
      (forall l :: Get(list, l, ty).Some? ==> Answers(list, ty, parse, default, l))
      <==> var global := Get(list, Global, ty);
        first.level == Global || global.None? || parse(first.value) == parse(global.value)
  {
    BuildCompresses(list, ty, parse);
    var get, first, m := Parsed(list, ty, parse), FirstEntry(list, ty, parse).value, Build(list, ty, parse);
    hide Get, Build;
    assert forall l :: Get(list, l, ty).Some? ==> get(l) == Some(parse(Get(list, l, ty).value));
    assert get(first.level) == Some(first.value);
    assert Answers(list, ty, parse, default, first.level) <==> Answer(m, first.level, default) == first.value;
  }

  /** The map gives the level the value that the list has for it. */
  ghost predicate Answers<T>(list: seq<Configuration>, ty: ConfigurationType, parse: string -> T, default: T, l: Level)
    requires Get(list, l, ty).Some?
  {
    Answer(Build(list, ty, parse), l, default) == parse(Get(list, l, ty).value)
  }

  /**
    After any calls to `set` whose first one for the type is at Global, the map answers every level with
    the last value that reached it, and the Unknown level, if nothing did, with the one of Global.
   */
  lemma LastSetWins<T>(lists: seq<seq<Configuration>>, calls: seq<Configuration>, ty: ConfigurationType,
                       parse: string -> T, default: T, l: Level)
    requires SetRun(lists, calls) && FirstSet(calls, ty) == Some(Global)
    ensures LastSet(calls, Global, ty).Some? && (l != Unknown ==> LastSet(calls, l, ty).Some?)
    ensures var m := Build(lists[|calls|], ty, parse);
      Answer(m, l, default) ==
        parse(if LastSet(calls, l, ty).Some? then LastSet(calls, l, ty).value else LastSet(calls, Global, ty).value)
  {
    var list := lists[|calls|];
    RunAnswers(lists, calls, l, ty);
    RunAnswers(lists, calls, Global, ty);
    FirstValueLevel(list, ty);
    ReachedAll(calls, ty, l);
    CompressionExact(list, ty, parse, default);
    BuildCompresses(list, ty, parse);
    hide Get, Build, LastSet, FirstLevel, FirstSet, FirstValue, SetRun, NoPairTwice;
    var get, m := Parsed(list, ty, parse), Build(list, ty, parse);
    assert Get(list, l, ty).Some? ==> Answers(list, ty, parse, default, l);
    assert Get(list, l, ty).None? ==> get(l).None?;
    assert Answers(list, ty, parse, default, Global);
  }

  /** A first call at Global reaches every valid level. */
  lemma {:induction false} ReachedAll(calls: seq<Configuration>, ty: ConfigurationType, l: Level)
    requires FirstSet(calls, ty) == Some(Global)
    ensures LastSet(calls, Global, ty).Some? && (l != Unknown ==> LastSet(calls, l, ty).Some?)
  {
    var front := calls[..|calls| - 1];
    if FirstSet(front, ty) == Some(Global) {
      ReachedAll(front, ty, l);
    }
  }

  /** After the calls, the map gives the level the last value that reached it. */
  ghost predicate AnswersLast<T>(list: seq<Configuration>, calls: seq<Configuration>, ty: ConfigurationType,
                                 parse: string -> T, default: T, l: Level)
    requires LastSet(calls, l, ty).Some?
  {
    Answer(Build(list, ty, parse), l, default) == parse(LastSet(calls, l, ty).value)
  }

  /**
    After any calls to `set`, the map answers every level that was set with the last value that reached
    it, if and only if the first call for the type was at Global, or none was, or the level of the first
    call was last set to the same value as Global.
   */
  lemma CallsExact<T>(lists: seq<seq<Configuration>>, calls: seq<Configuration>, ty: ConfigurationType,
                      parse: string -> T, default: T)
    requires SetRun(lists, calls) && FirstSet(calls, ty).Some?
    ensures LastSet(calls, FirstSet(calls, ty).value, ty).Some?
    ensures var first := FirstSet(calls, ty).value;
      var atFirst, atGlobal := LastSet(calls, first, ty).value, LastSet(calls, Global, ty);
      (forall l :: LastSet(calls, l, ty).Some? ==> AnswersLast(lists[|calls|], calls, ty, parse, default, l))
      <==> first == Global || atGlobal.None? || parse(atFirst) == parse(atGlobal.value)
  {
    var list := lists[|calls|];
    forall l
      ensures Get(list, l, ty) == LastSet(calls, l, ty) && FirstLevel(list, ty) == FirstSet(calls, ty)
      ensures NoPairTwice(list)
    {
      RunAnswers(lists, calls, l, ty);
    }
    assert Get(list, Global, ty) == LastSet(calls, Global, ty);
    FirstValueLevel(list, ty);
    CompressionExact(list, ty, parse, default);
    BuildCompresses(list, ty, parse);
    hide Get, Build, LastSet, FirstLevel, FirstSet, FirstValue, SetRun, NoPairTwice;
    var first := FirstValue(list, ty).value;
    assert Parsed(list, ty, parse)(first.level) == Some(parse(first.value));
    forall l | LastSet(calls, l, ty).Some?
      ensures Answers(list, ty, parse, default, l) <==> AnswersLast(list, calls, ty, parse, default, l)
    {
    }
  }

  /** What a level without a value of its own is answered: Global's, else the first level's, else the default. */
  lemma FallsBack<T>(lists: seq<seq<Configuration>>, calls: seq<Configuration>, ty: ConfigurationType,
                     parse: string -> T, default: T, l: Level)
    requires SetRun(lists, calls) && LastSet(calls, l, ty).None?
    ensures FirstSet(calls, ty).Some? ==> LastSet(calls, FirstSet(calls, ty).value, ty).Some?
    ensures Answer(Build(lists[|calls|], ty, parse), l, default) ==
      if FirstSet(calls, ty).None? then default
      else if LastSet(calls, Global, ty).Some? then parse(LastSet(calls, Global, ty).value)
      else parse(LastSet(calls, FirstSet(calls, ty).value, ty).value)
  {
    var list := lists[|calls|];
    forall k
      ensures Get(list, k, ty) == LastSet(calls, k, ty) && FirstLevel(list, ty) == FirstSet(calls, ty)
      ensures NoPairTwice(list)
    {
      RunAnswers(lists, calls, k, ty);
    }
    assert Get(list, l, ty).None? && Get(list, Global, ty) == LastSet(calls, Global, ty);
    FirstValueLevel(list, ty);
    BuildCompresses(list, ty, parse);
    hide Get, Build, LastSet, FirstLevel, FirstSet, FirstValue, SetRun, NoPairTwice;
    var get := Parsed(list, ty, parse);
    assert get(l).None?;
    if FirstValue(list, ty).Some? {
      var first := FirstValue(list, ty).value;
      assert get(first.level) == Some(parse(first.value));
    }
  }

  /** How `build` reads a value without blanks as a truth value. */
  predicate GetBool(value: string)
  {
    value == "TRUE" || value == "true" || value == "1"
  }

  /** Enabled at Debug, then disabled at Global, then enabled at Debug: the list says enabled, the map disabled. */
  method WrongAnswer() returns (listed: seq<Configuration>, answer: bool)
    ensures NoPairTwice(listed) && Get(listed, Debug, Enabled) == Some("true")
    ensures GetBool("true") && !answer
  {
    var confs := new Configurations();
    confs.Set(Debug, Enabled, "true");
    confs.Set(Global, Enabled, "false");
    confs.Set(Debug, Enabled, "true");
    listed := confs.list;
    assert Get(listed, Global, Enabled) == Some("false") && FirstLevel(listed, Enabled) == Some(Debug);
    var typed := new TypedConfigurations(listed, Enabled, GetBool);
    BuildCompresses(listed, Enabled, GetBool);
    FirstValueLevel(listed, Enabled);
    assert Parsed(listed, Enabled, GetBool)(Global) == Some(GetBool("false"));
    answer := typed.GetConfigByVal(Debug, false);
  }
}
