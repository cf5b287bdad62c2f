// Counting, filtering and summing over sequences, shared by the store and its readers.
module Sequences {

  datatype Option<+T> = None | Some(value: T)

  function Max(a: int, b: int): int {
    if a < b then b else a
  }

  function Min(a: int, b: int): int {
    if a < b then a else b
  }

  // The first of two texts that is not empty.
  function OrElse(s: string, otherwise: string): string {
    if s != "" then s else otherwise
  }

  function Filter<T>(p: T -> bool, s: seq<T>): seq<T> {
    if s == [] then [] else (if p(s[0]) then [s[0]] else []) + Filter(p, s[1..])
  }

  lemma {:induction false} FilterMembers<T>(p: T -> bool, s: seq<T>)
    ensures forall i :: 0 <= i < |Filter(p, s)| ==> Filter(p, s)[i] in s && p(Filter(p, s)[i])
    ensures forall i :: 0 <= i < |s| && p(s[i]) ==> s[i] in Filter(p, s)
  {
    if s != [] {
      FilterMembers(p, s[1..]);
    }
  }

  function Count<T>(p: T -> bool, s: seq<T>): nat {
    if s == [] then 0 else (if p(s[0]) then 1 else 0) + Count(p, s[1..])
  }

  ghost function Positions<T>(p: T -> bool, s: seq<T>): set<int> {
    set i | 0 <= i < |s| && p(s[i])
  }

  lemma {:induction false} CountIsCardinality<T>(p: T -> bool, s: seq<T>)
    ensures Count(p, s) == |Positions(p, s)|
  {
    if s != [] {
      var init, n := s[..|s| - 1], |s| - 1;
      assert s == init + [s[n]];
      CountIsCardinality(p, init);
      CountAppend(p, init, [s[n]]);
      assert Positions(p, s) == Positions(p, init) + if p(s[n]) then {n} else {};
    }
  }

  lemma CountOfTwo<T>(p: T -> bool, a: T, b: T)
    ensures Count(p, [a, b]) == (if p(a) then 1 else 0) + (if p(b) then 1 else 0)
  {
    assert [a, b][1..] == [b] && [b][1..] == [];
    assert Count(p, [b]) == if p(b) then 1 else 0;
  }

  function Sum<T>(f: T -> int, s: seq<T>): int {
    if s == [] then 0 else f(s[0]) + Sum(f, s[1..])
  }

  function Reverse<T>(s: seq<T>): (r: seq<T>)
    ensures |r| == |s|
    ensures forall i :: 0 <= i < |s| ==> r[i] == s[|s| - 1 - i]
  {
    if s == [] then [] else Reverse(s[1..]) + [s[0]]
  }

  lemma {:induction false} FilterAppend<T>(p: T -> bool, a: seq<T>, b: seq<T>)
    ensures Filter(p, a + b) == Filter(p, a) + Filter(p, b)
  {
    if a == [] {
      assert a + b == b;
    } else {
      var head := if p(a[0]) then [a[0]] else [];
      assert (a + b)[0] == a[0] && (a + b)[1..] == a[1..] + b;
      FilterAppend(p, a[1..], b);
      assert Filter(p, a + b) == head + Filter(p, a[1..] + b);
      assert Filter(p, a) == head + Filter(p, a[1..]);
    }
  }

  lemma {:induction false} CountAppend<T>(p: T -> bool, a: seq<T>, b: seq<T>)
    ensures Count(p, a + b) == Count(p, a) + Count(p, b)
  {
    if a == [] {
      assert a + b == b;
    } else {
      assert (a + b)[1..] == a[1..] + b;
      CountAppend(p, a[1..], b);
    }
  }

  lemma {:induction false} SumAppend<T>(f: T -> int, a: seq<T>, b: seq<T>)
    ensures Sum(f, a + b) == Sum(f, a) + Sum(f, b)
  {
    if a == [] {
      assert a + b == b;
    } else {
      assert (a + b)[1..] == a[1..] + b;
      SumAppend(f, a[1..], b);
    }
  }

  lemma {:induction false} CountUpdate<T>(p: T -> bool, s: seq<T>, i: nat, x: T)
    requires i < |s|
    ensures Count(p, s[i := x]) == Count(p, s) - (if p(s[i]) then 1 else 0) + (if p(x) then 1 else 0)
  {
    if i > 0 {
      assert s[i := x][1..] == s[1..][i - 1 := x];
      CountUpdate(p, s[1..], i - 1, x);
    } else {
      assert s[i := x][1..] == s[1..];
    }
  }

  // Two sequences of one length whose elements satisfy p at the same places are counted alike.
  lemma {:induction false} CountPointwise<T>(p: T -> bool, q: T -> bool, s: seq<T>, t: seq<T>)
    requires |s| == |t|
    requires forall i :: 0 <= i < |s| ==> p(s[i]) == q(t[i])
    ensures Count(p, s) == Count(q, t)
  {
    if s != [] {
      assert forall i :: 0 <= i < |s| - 1 ==> s[1..][i] == s[i + 1] && t[1..][i] == t[i + 1];
      CountPointwise(p, q, s[1..], t[1..]);
    }
  }

  lemma {:induction false} CountZero<T>(p: T -> bool, s: seq<T>)
    ensures Count(p, s) == 0 <==> forall x :: x in s ==> !p(x)
  {
    if s != [] {
      CountZero(p, s[1..]);
      assert s == [s[0]] + s[1..];
    }
  }

  lemma CountRemove<T>(p: T -> bool, s: seq<T>, i: nat)
    requires i < |s|
    ensures Count(p, s) == (if p(s[i]) then 1 else 0) + Count(p, s[..i] + s[i + 1..])
  {
    SplitAt(s, i);
    var front, back := s[..i], s[i + 1..];
    CountAppend(p, front, [s[i]] + back);
    CountAppend(p, [s[i]], back);
    CountAppend(p, front, back);
    assert Count(p, [s[i]]) == if p(s[i]) then 1 else 0;
  }

  lemma SplitAt<T>(s: seq<T>, i: nat)
    requires i < |s|
    ensures s == s[..i] + ([s[i]] + s[i + 1..])
  {
  }

  lemma MultisetRemove<T>(s: seq<T>, i: nat)
    requires i < |s|
    ensures multiset(s[..i] + s[i + 1..]) == multiset(s) - multiset{s[i]}
  {
    assert s == s[..i] + [s[i]] + s[i + 1..];
  }

  lemma RemoveFromBoth<T>(a: seq<T>, b: seq<T>, i: nat)
    requires a != [] && i < |b| && b[i] == a[0] && multiset(a) == multiset(b)
    ensures multiset(a[1..]) == multiset(b[..i] + b[i + 1..])
  {
    MultisetRemove(b, i);
    MultisetTail(a);
  }

  lemma MultisetTail<T>(s: seq<T>)
    requires s != []
    ensures multiset(s[1..]) == multiset(s) - multiset{s[0]}
  {
    assert s == [s[0]] + s[1..];
  }

  lemma {:induction false} CountIsPermutationInvariant<T>(p: T -> bool, a: seq<T>, b: seq<T>)
    requires multiset(a) == multiset(b)
    ensures Count(p, a) == Count(p, b)
  {
    assert |multiset(a)| == |multiset(b)|;
    if a != [] {
      assert a[0] in multiset(b);
      var i :| 0 <= i < |b| && b[i] == a[0];
      var rest := b[..i] + b[i + 1..];
      CountRemove(p, b, i);
      RemoveFromBoth(a, b, i);
      CountIsPermutationInvariant(p, a[1..], rest);
    }
  }

  lemma LastElementApart<T>(a: seq<T>, b: seq<T>)
    requires b != []
    ensures a + b == a + b[..|b| - 1] + [b[|b| - 1]]
  {
  }

  lemma {:induction false} FilterLength<T>(p: T -> bool, s: seq<T>)
    ensures |Filter(p, s)| == Count(p, s)
  {
    if s != [] {
      FilterLength(p, s[1..]);
    }
  }

  lemma {:induction false} FilterAll<T>(p: T -> bool, s: seq<T>)
    requires forall i :: 0 <= i < |s| ==> p(s[i])
    ensures Filter(p, s) == s
  {
    if s != [] {
      FilterAll(p, s[1..]);
    }
  }

  lemma {:induction false} FilterAddsNothing<T>(p: T -> bool, s: seq<T>)
    ensures multiset(Filter(p, s)) <= multiset(s)
  {
    if s != [] {
      FilterAddsNothing(p, s[1..]);
      assert s == [s[0]] + s[1..];
    }
  }

  lemma PrefixAddsNothing<T>(s: seq<T>, n: nat)
    requires n <= |s|
    ensures multiset(s[..n]) <= multiset(s)
  {
    assert s == s[..n] + s[n..];
  }

  lemma {:induction false} FilterPointwise<T>(p: T -> bool, q: T -> bool, s: seq<T>)
    requires forall i :: 0 <= i < |s| ==> p(s[i]) == q(s[i])
    ensures Filter(p, s) == Filter(q, s)
  {
    if s != [] {
      FilterPointwise(p, q, s[1..]);
    }
  }

  lemma {:induction false} CountOfFilter<T(!new)>(p: T -> bool, q: T -> bool, both: T -> bool, s: seq<T>)
    requires forall x :: both(x) <==> p(x) && q(x)
    ensures Count(p, Filter(q, s)) == Count(both, s)
  {
    if s != [] {
      CountOfFilter(p, q, both, s[1..]);
      CountAppend(p, if q(s[0]) then [s[0]] else [], Filter(q, s[1..]));
    }
  }

  ghost predicate NoRepeats<T>(s: seq<T>) {
    forall i, j :: 0 <= i < j < |s| ==> s[i] != s[j]
  }

  // The elements of an interval, counted inside a slice.
  lemma {:induction false} CountInterval<T>(p: T -> bool, s: seq<T>, from: nat, to: nat, lo: nat, hi: nat)
    requires from <= to <= |s| && lo <= hi
    requires forall q :: from <= q < to ==> (p(s[q]) <==> lo <= q < hi)
    ensures Count(p, s[from..to]) == Max(0, Min(to, hi) - Max(from, lo))
  {
    if from < to {
      assert s[from..to] == s[from..to - 1] + [s[to - 1]];
      CountAppend(p, s[from..to - 1], [s[to - 1]]);
      CountInterval(p, s, from, to - 1, lo, hi);
    }
  }

  lemma {:induction false} CountAtMostOne<T>(p: T -> bool, s: seq<T>)
    ensures Count(p, s) <= 1 <==> forall i, j :: 0 <= i < j < |s| && p(s[i]) ==> !p(s[j])
  {
    if s != [] {
      var rest := s[1..];
      CountAtMostOne(p, rest);
      CountZero(p, rest);
      assert forall i :: 0 <= i < |rest| ==> rest[i] == s[i + 1];
      if x :| x in rest && p(x) {
        var k :| 0 <= k < |rest| && rest[k] == x;
        assert p(s[k + 1]);
      }
      if forall i, j :: 0 <= i < j < |s| && p(s[i]) ==> !p(s[j]) {
        forall i, j | 0 <= i < j < |rest| && p(rest[i]) ensures !p(rest[j]) {
          assert s[i + 1] == rest[i] && s[j + 1] == rest[j];
        }
      }
    }
  }
}
