// A stable descending sort by an integer key, and SQL's LIMIT and OFFSET.
module Sorting {
  import opened Sequences

  // Where x goes: behind everything with a larger key, before the first element without one.
  function Slot<T>(key: T -> int, x: T, s: seq<T>): (k: nat)
    ensures k <= |s|
    ensures forall j :: 0 <= j < k ==> key(s[j]) > key(x)
    ensures k < |s| ==> key(s[k]) <= key(x)
  {
    if s == [] || key(s[0]) <= key(x) then 0 else 1 + Slot(key, x, s[1..])
  }

  function Insert<T>(key: T -> int, x: T, s: seq<T>): seq<T> {
    s[..Slot(key, x, s)] + [x] + s[Slot(key, x, s)..]
  }

  function Sorted<T>(key: T -> int, s: seq<T>): seq<T> {
    if s == [] then [] else Insert(key, s[0], Sorted(key, s[1..]))
  }

  ghost predicate Descending<T>(key: T -> int, s: seq<T>) {
    forall i, j :: 0 <= i < j < |s| ==> key(s[i]) >= key(s[j])
  }

  function HasKey<T>(key: T -> int, v: int): T -> bool {
    (x: T) => key(x) == v
  }

  // Elements of one key come in the same order in both.
  ghost predicate SameTies<T>(key: T -> int, a: seq<T>, b: seq<T>) {
    forall v :: Filter(HasKey(key, v), a) == Filter(HasKey(key, v), b)
  }

  lemma InsertKeepsOrder<T>(key: T -> int, x: T, s: seq<T>)
    requires Descending(key, s)
    ensures Descending(key, Insert(key, x, s))
  {
  }

  lemma InsertAddsOne<T>(key: T -> int, x: T, s: seq<T>)
    ensures multiset(Insert(key, x, s)) == multiset{x} + multiset(s)
  {
    var k := Slot(key, x, s);
    assert s == s[..k] + s[k..];
  }

  lemma {:induction false} FilterNone<T>(p: T -> bool, s: seq<T>)
    requires forall i :: 0 <= i < |s| ==> !p(s[i])
    ensures Filter(p, s) == []
  {
    if s != [] {
      FilterNone(p, s[1..]);
    }
  }

  lemma FilterInsert<T>(p: T -> bool, newer: seq<T>, x: T, rest: seq<T>)
    requires p(x) ==> Filter(p, newer) == []
    ensures Filter(p, newer + [x] + rest) == Filter(p, [x]) + Filter(p, newer + rest)
  {
    FilterAppend(p, newer + [x], rest);
    FilterAppend(p, newer, [x]);
    FilterAppend(p, newer, rest);
    var front, mid := Filter(p, newer), Filter(p, [x]);
    assert Filter(p, newer + [x] + rest) == front + mid + Filter(p, rest);
    if !p(x) {
      assert mid == [] && front + mid == front;
    }
  }

  lemma InsertKeepsTies<T>(key: T -> int, x: T, s: seq<T>, v: int)
    ensures Filter(HasKey(key, v), Insert(key, x, s)) == Filter(HasKey(key, v), [x]) + Filter(HasKey(key, v), s)
  {
    var k := Slot(key, x, s);
    if key(x) == v {
      NoTieInFront(key, x, s);
    }
    FilterInsert(HasKey(key, v), s[..k], x, s[k..]);
    assert s == s[..k] + s[k..];
  }

  lemma NoTieInFront<T>(key: T -> int, x: T, s: seq<T>)
    ensures Filter(HasKey(key, key(x)), s[..Slot(key, x, s)]) == []
  {
    FilterNone(HasKey(key, key(x)), s[..Slot(key, x, s)]);
  }

  lemma {:induction false} SortedIsAStableSort<T>(key: T -> int, s: seq<T>)
    ensures Descending(key, Sorted(key, s))
    ensures multiset(Sorted(key, s)) == multiset(s)
    ensures |Sorted(key, s)| == |s|
    ensures SameTies(key, Sorted(key, s), s)
  {
    if s != [] {
      var rest := Sorted(key, s[1..]);
      SortedIsAStableSort(key, s[1..]);
      InsertKeepsOrder(key, s[0], rest);
      InsertAddsOne(key, s[0], rest);
      assert s == [s[0]] + s[1..];
      forall v ensures Filter(HasKey(key, v), Sorted(key, s)) == Filter(HasKey(key, v), s) {
        InsertKeepsTies(key, s[0], rest, v);
        FilterAppend(HasKey(key, v), [s[0]], s[1..]);
        assert Filter(HasKey(key, v), rest) == Filter(HasKey(key, v), s[1..]);
      }
    }
    assert |multiset(Sorted(key, s))| == |multiset(s)|;
  }

  lemma SortedHasTheSameElements<T>(key: T -> int, s: seq<T>, x: T)
    ensures x in Sorted(key, s) <==> x in s
  {
  }

  // Order, contents and tie order determine the sorted sequence.
  lemma {:induction false} StableOrderIsUnique<T>(key: T -> int, a: seq<T>, b: seq<T>)
    requires Descending(key, a) && Descending(key, b)
    requires multiset(a) == multiset(b) && SameTies(key, a, b)
    ensures a == b
  {
    assert |multiset(a)| == |multiset(b)|;
    if a != [] {
      SameHead(key, a, b);
      TailElementsAgree(a, b);
      TailTiesAgree(key, a, b);
      StableOrderIsUnique(key, a[1..], b[1..]);
      assert a == [a[0]] + a[1..] && b == [b[0]] + b[1..];
    }
  }

  lemma SameHead<T>(key: T -> int, a: seq<T>, b: seq<T>)
    requires a != [] && b != [] && Descending(key, a) && Descending(key, b)
    requires multiset(a) == multiset(b) && SameTies(key, a, b)
    ensures a[0] == b[0]
  {
    assert a[0] in multiset(b) && b[0] in multiset(a);
    var i :| 0 <= i < |b| && b[i] == a[0];
    var k :| 0 <= k < |a| && a[k] == b[0];
    assert key(b[0]) >= key(b[i]) && key(a[0]) >= key(a[k]);
    var p := HasKey(key, key(a[0]));
    assert Filter(p, a)[0] == a[0] && Filter(p, b)[0] == b[0];
  }

  lemma TailElementsAgree<T>(a: seq<T>, b: seq<T>)
    requires a != [] && b != [] && a[0] == b[0] && multiset(a) == multiset(b)
    ensures multiset(a[1..]) == multiset(b[1..])
  {
    assert a == [a[0]] + a[1..] && b == [b[0]] + b[1..];
    assert multiset(a[1..]) == multiset(a) - multiset{a[0]};
    assert multiset(b[1..]) == multiset(b) - multiset{b[0]};
  }

  lemma TailTiesAgree<T>(key: T -> int, a: seq<T>, b: seq<T>)
    requires a != [] && b != [] && a[0] == b[0] && SameTies(key, a, b)
    ensures SameTies(key, a[1..], b[1..])
  {
    forall v ensures Filter(HasKey(key, v), a[1..]) == Filter(HasKey(key, v), b[1..]) {
      FilterTail(HasKey(key, v), a, b);
    }
  }

  lemma FilterTail<T>(p: T -> bool, a: seq<T>, b: seq<T>)
    requires a != [] && b != [] && a[0] == b[0]
    requires Filter(p, a) == Filter(p, b)
    ensures Filter(p, a[1..]) == Filter(p, b[1..])
  {
    var n := if p(a[0]) then 1 else 0;
    assert Filter(p, a)[n..] == Filter(p, a[1..]);
    assert Filter(p, b)[n..] == Filter(p, b[1..]);
  }

  lemma {:induction false} SlotIs<T>(key: T -> int, x: T, s: seq<T>, k: nat)
    requires k <= |s| && (k < |s| ==> key(s[k]) <= key(x))
    requires forall j :: 0 <= j < k ==> key(s[j]) > key(x)
    ensures Slot(key, x, s) == k
  {
  }

  lemma SortedKeepsABound<T>(key: T -> int, x: T, s: seq<T>)
    requires forall j :: 0 <= j < |s| ==> key(x) < key(s[j])
    ensures forall j :: 0 <= j < |Sorted(key, s)| ==> key(x) < key(Sorted(key, s)[j])
  {
    forall j | 0 <= j < |Sorted(key, s)| ensures key(x) < key(Sorted(key, s)[j]) {
      SortedHasTheSameElements(key, s, Sorted(key, s)[j]);
    }
  }

  // What has larger keys is sorted in front of everything before it.
  lemma {:induction false} LargerKeysFirst<T>(key: T -> int, a: seq<T>, b: seq<T>)
    requires forall i, j :: 0 <= i < |a| && 0 <= j < |b| ==> key(a[i]) < key(b[j])
    ensures Sorted(key, a + b) == Sorted(key, b) + Sorted(key, a)
  {
    if a == [] {
      assert a + b == b;
    } else {
      assert (a + b)[1..] == a[1..] + b;
      LargerKeysFirst(key, a[1..], b);
      SortedKeepsABound(key, a[0], b);
      InsertBehind(key, a[0], Sorted(key, b), Sorted(key, a[1..]));
    }
  }

  lemma SlotBehind<T>(key: T -> int, x: T, front: seq<T>, rest: seq<T>)
    requires forall j :: 0 <= j < |front| ==> key(x) < key(front[j])
    ensures Slot(key, x, front + rest) == |front| + Slot(key, x, rest)
  {
    var k, all := Slot(key, x, rest), front + rest;
    forall j | 0 <= j < |front| + k ensures key(all[j]) > key(x) {
      assert j >= |front| ==> all[j] == rest[j - |front|];
    }
    SlotIs(key, x, all, |front| + k);
  }

  lemma InsertBehind<T>(key: T -> int, x: T, front: seq<T>, rest: seq<T>)
    requires forall j :: 0 <= j < |front| ==> key(x) < key(front[j])
    ensures Insert(key, x, front + rest) == front + Insert(key, x, rest)
  {
    SlotBehind(key, x, front, rest);
  }

  method Sort<T>(key: T -> int, s: seq<T>) returns (r: seq<T>)
    ensures r == Sorted(key, s)
  {
    r := [];
    var i := |s|;
    while i > 0
      invariant 0 <= i <= |s|
      invariant r == Sorted(key, s[i..])
    {
      i := i - 1;
      assert s[i..][1..] == s[i + 1..];
      var k := 0;
      while k < |r| && key(s[i]) < key(r[k])
        invariant k <= |r|
        invariant forall j :: 0 <= j < k ==> key(r[j]) > key(s[i])
      {
        k := k + 1;
      }
      SlotIs(key, s[i], r, k);
      r := r[..k] + [s[i]] + r[k..];
    }
    assert s[0..] == s;
  }

  method Select<T>(p: T -> bool, s: seq<T>) returns (r: seq<T>)
    ensures r == Filter(p, s)
  {
    r := [];
    for i := 0 to |s|
      invariant r == Filter(p, s[..i])
    {
      assert s[..i + 1] == s[..i] + [s[i]];
      FilterAppend(p, s[..i], [s[i]]);
      if p(s[i]) {
        r := r + [s[i]];
      }
    }
    assert s[..|s|] == s;
  }

  // LIMIT and OFFSET as SQLite reads them: a negative limit is no limit, a negative offset is 0.
  function Window<T>(s: seq<T>, limit: int, offset: int): seq<T> {
    var from := Min(Max(offset, 0), |s|);
    if limit < 0 then s[from..] else s[from..Min(from + limit, |s|)]
  }

  lemma WindowLength<T>(s: seq<T>, limit: int, offset: int)
    ensures limit >= 0 ==> |Window(s, limit, offset)| == Min(limit, Max(0, |s| - Max(0, offset)))
    ensures limit < 0 ==> |Window(s, limit, offset)| == Max(0, |s| - Max(0, offset))
  {
  }

  // Row by row; a limit or offset below zero as in SQLite.
  lemma WindowHolds<T>(s: seq<T>, limit: int, offset: int, i: nat)
    requires i < |Window(s, limit, offset)|
    ensures var from := if offset < 0 then 0 else offset;
      from + i < |s| && Window(s, limit, offset)[i] == s[from + i]
  {
  }

  lemma WindowsTile<T>(s: seq<T>, first: nat, second: nat)
    ensures Window(s, first, 0) + Window(s, second, first) == Window(s, first + second, 0)
  {
  }
}
