/**
  The C library's `qsort`, as far as its callers may rely on it: an in-place permutation that the
  comparator accepts.  The order of elements that compare equal is left open.
 */
module Sorting {

  ghost predicate TotalPreorder<T(!new)>(comparator: (T, T) -> int)
  {
    && (forall x, y :: comparator(x, y) <= 0 || comparator(y, x) <= 0)
    && (forall x, y, z :: comparator(x, y) <= 0 && comparator(y, z) <= 0 ==> comparator(x, z) <= 0)
  }

  ghost predicate Sorted<T>(s: seq<T>, comparator: (T, T) -> int)
  {
    forall i, j :: 0 <= i < j < |s| ==> comparator(s[i], s[j]) <= 0
  }

  function Insert<T>(x: T, s: seq<T>, comparator: (T, T) -> int): seq<T>
  {
    if s == [] || comparator(x, s[0]) <= 0 then [x] + s else [s[0]] + Insert(x, s[1..], comparator)
  }

  function Sort<T>(s: seq<T>, comparator: (T, T) -> int): seq<T>
  {
    if s == [] then [] else Insert(s[0], Sort(s[1..], comparator), comparator)
  }

  lemma {:induction false} InsertPermutes<T>(x: T, s: seq<T>, comparator: (T, T) -> int)
    ensures multiset(Insert(x, s, comparator)) == multiset{x} + multiset(s)
  {
    if !(s == [] || comparator(x, s[0]) <= 0) {
      InsertPermutes(x, s[1..], comparator);
      assert s == [s[0]] + s[1..];
    }
  }

  lemma {:induction false} InsertSorts<T(!new)>(x: T, s: seq<T>, comparator: (T, T) -> int)
    requires TotalPreorder(comparator) && Sorted(s, comparator)
    ensures Sorted(Insert(x, s, comparator), comparator)
  {
    if s == [] {
    } else if comparator(x, s[0]) <= 0 {
      assert forall j :: 0 <= j < |s| ==> comparator(x, s[j]) <= 0;
    } else {
      InsertSorts(x, s[1..], comparator);
      var t := Insert(x, s[1..], comparator);
      InsertPermutes(x, s[1..], comparator);
      forall j | 0 <= j < |t|
        ensures comparator(s[0], t[j]) <= 0
      {
        assert t[j] in multiset(t);
        assert t[j] == x || t[j] in s[1..];
      }
    }
  }

  lemma {:induction false} SortIsSorted<T(!new)>(s: seq<T>, comparator: (T, T) -> int)
    requires TotalPreorder(comparator)
    ensures Sorted(Sort(s, comparator), comparator) && multiset(Sort(s, comparator)) == multiset(s)
  {
    if s != [] {
      hide Sorted, TotalPreorder, Insert;
      SortIsSorted(s[1..], comparator);
      InsertSorts(s[0], Sort(s[1..], comparator), comparator);
      InsertPermutes(s[0], Sort(s[1..], comparator), comparator);
      assert s == [s[0]] + s[1..];
    }
  }

  method Qsort<T(!new)>(a: array<T>, comparator: (T, T) -> int)
    requires TotalPreorder(comparator)
    modifies a
    ensures Sorted(a[..], comparator) && multiset(a[..]) == multiset(old(a[..]))
  {
    var s := Sort(a[..], comparator);
    SortIsSorted(a[..], comparator);
    assert |s| == |multiset(s)| == |multiset(a[..])| == a.Length;
    forall i | 0 <= i < a.Length {
      a[i] := s[i];
    }
    assert a[..] == s;
  }
}
