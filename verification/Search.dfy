// SearchByJID of daemon/storage/messages.go: LOWER(text) LIKE LOWER('%query%') without an
// ESCAPE clause. LOWER and LIKE fold ASCII letters only.
module Search {
  import opened Sequences
  import opened Sorting
  import opened Messages
  import opened Store
  import opened Queries

  function LowerChar(c: char): char {
    if 'A' <= c <= 'Z' then (c as int + 32) as char else c
  }

  predicate IsCasePair(upper: char, lower: char) {
    'A' <= upper <= 'Z' && 'a' <= lower <= 'z' && lower as int - upper as int == 'a' as int - 'A' as int
  }

  // Exactly the two cases of the 26 ASCII letters are identified.
  lemma FoldsAsciiCaseOnly(c: char, d: char)
    ensures LowerChar(c) == LowerChar(d) <==> c == d || IsCasePair(c, d) || IsCasePair(d, c)
  {
  }

  function Lower(s: string): (r: string)
    ensures |r| == |s| && forall i :: 0 <= i < |s| ==> r[i] == LowerChar(s[i])
  {
    if s == "" then "" else [LowerChar(s[0])] + Lower(s[1..])
  }

  // SQLite's LIKE: % stands for any run of characters, _ for any one character.
  predicate Like(p: string, s: string)
    decreases |p| + |s|
  {
    if p == "" then s == ""
    else if p[0] == '%' then Like(p[1..], s) || (s != "" && Like(p, s[1..]))
    else s != "" && (p[0] == '_' || LowerChar(p[0]) == LowerChar(s[0])) && Like(p[1..], s[1..])
  }

  // These equations determine LIKE.
  lemma LikeByCases(p: string, s: string)
    ensures Like("", s) <==> s == ""
    ensures Like("%" + p, s) <==> exists i :: 0 <= i <= |s| && Like(p, s[i..])
    ensures Like("_" + p, s) <==> s != "" && Like(p, s[1..])
    ensures forall c :: c != '%' && c != '_' ==>
      (Like([c] + p, s) <==> s != "" && SameLetter(c, s[0]) && Like(p, s[1..]))
  {
    assert ("_" + p)[1..] == p;
    forall c | c != '%' && c != '_' ensures Like([c] + p, s) <==> s != "" && SameLetter(c, s[0]) && Like(p, s[1..]) {
      assert ([c] + p)[0] == c && ([c] + p)[1..] == p;
      if s != "" {
        FoldsAsciiCaseOnly(c, s[0]);
      }
    }
    if Like("%" + p, s) {
      var i := PercentUnskips(p, s);
    }
    if i :| 0 <= i <= |s| && Like(p, s[i..]) {
      PercentSkips(p, s[..i], s[i..]);
      assert s[..i] + s[i..] == s;
    }
  }

  predicate SameLetter(c: char, d: char) {
    c == d || IsCasePair(c, d) || IsCasePair(d, c)
  }

  predicate TextMatches(text: string, query: string) {
    Like(Lower("%" + query + "%"), Lower(text))
  }

  ghost predicate OccursAt(s: string, q: string, i: nat) {
    i + |q| <= |s| && s[i..i + |q|] == q
  }

  ghost predicate Contains(s: string, q: string) {
    exists i: nat :: OccursAt(s, q, i)
  }

  predicate WildcardFree(q: string) {
    forall i :: 0 <= i < |q| ==> q[i] != '%' && q[i] != '_'
  }

  ghost predicate IsLower(s: string) {
    forall i :: 0 <= i < |s| ==> LowerChar(s[i]) == s[i]
  }

  lemma {:induction false} PercentMatchesAll(s: string)
    ensures Like("%", s)
  {
    if s == "" {
      assert Like("", "");
      assert "%"[1..] == "";
    } else {
      PercentMatchesAll(s[1..]);
    }
  }

  // A pattern matches its own text, wildcards or not.
  lemma {:induction false} PatternMatchesItself(q: string, rest: string)
    ensures Like(q + "%", q + rest)
  {
    if q == "" {
      assert "" + "%" == "%" && "" + rest == rest;
      PercentMatchesAll(rest);
    } else {
      PatternMatchesItself(q[1..], rest);
      assert (q + "%")[1..] == q[1..] + "%" && (q + rest)[1..] == q[1..] + rest;
      if q[0] == '%' {
        assert Like(q + "%", q[1..] + rest);
      }
    }
  }

  lemma {:induction false} PercentSkips(x: string, before: string, s: string)
    requires Like(x, s)
    ensures Like("%" + x, before + s)
  {
    assert ("%" + x)[1..] == x;
    if before == "" {
      assert before + s == s;
    } else {
      PercentSkips(x, before[1..], s);
      assert (before + s)[1..] == before[1..] + s;
    }
  }

  lemma {:induction false} PercentUnskips(x: string, s: string) returns (i: nat)
    requires Like("%" + x, s)
    ensures i <= |s| && Like(x, s[i..])
  {
    assert ("%" + x)[1..] == x;
    if Like(x, s) {
      i := 0;
      assert s[0..] == s;
    } else {
      var k := PercentUnskips(x, s[1..]);
      i := k + 1;
      assert s[1..][k..] == s[i..];
    }
  }

  lemma {:induction false} LiteralMatchIsPrefix(q: string, s: string)
    requires WildcardFree(q) && IsLower(q) && IsLower(s) && Like(q + "%", s)
    ensures q <= s
  {
    if q != "" {
      assert (q + "%")[1..] == q[1..] + "%";
      LiteralMatchIsPrefix(q[1..], s[1..]);
      assert q == [q[0]] + q[1..] && s == [s[0]] + s[1..];
    }
  }

  lemma LowerPattern(query: string)
    ensures Lower("%" + query + "%") == "%" + (Lower(query) + "%")
    ensures WildcardFree(Lower(query)) <==> WildcardFree(query)
    ensures IsLower(Lower(query))
  {
  }

  // Nothing that contains the query is missed, whatever the query looks like.
  lemma SubstringsMatch(text: string, query: string)
    requires Contains(Lower(text), Lower(query))
    ensures TextMatches(text, query)
  {
    LowerPattern(query);
    var s, q := Lower(text), Lower(query);
    var i: nat :| OccursAt(s, q, i);
    OccurrenceMatches(s, q, i);
  }

  lemma OccurrenceMatches(s: string, q: string, i: nat)
    requires OccursAt(s, q, i)
    ensures Like("%" + (q + "%"), s)
  {
    var rest := s[i + |q|..];
    PatternMatchesItself(q, rest);
    assert q + rest == s[i..];
    PercentSkips(q + "%", s[..i], s[i..]);
    assert s[..i] + s[i..] == s;
  }

  lemma LiteralsMatchOnlySubstrings(text: string, query: string)
    requires WildcardFree(query) && TextMatches(text, query)
    ensures Contains(Lower(text), Lower(query))
  {
    LowerPattern(query);
    LowerPattern(text);
    var s, q := Lower(text), Lower(query);
    var i := PercentUnskips(q + "%", s);
    LiteralMatchIsPrefix(q, s[i..]);
    assert s[i..i + |q|] == s[i..][..|q|];
    assert OccursAt(s, q, i);
  }

  lemma {:induction false} PercentAtTheEnd(q: string, s: string, j: nat)
    requires j <= |s| && Like(q, s[..j])
    ensures Like(q + "%", s)
    decreases |q| + j
  {
    if q == "" {
      assert "" + "%" == "%";
      PercentMatchesAll(s);
    } else {
      assert (q + "%")[1..] == q[1..] + "%";
      if q[0] == '%' && Like(q[1..], s[..j]) {
        PercentAtTheEnd(q[1..], s, j);
      } else {
        assert s[..j][1..] == s[1..][..j - 1];
        if q[0] == '%' {
          PercentAtTheEnd(q, s[1..], j - 1);
        } else {
          PercentAtTheEnd(q[1..], s[1..], j - 1);
        }
      }
    }
  }

  lemma {:induction false} EndBeforePercent(q: string, s: string) returns (j: nat)
    requires Like(q + "%", s)
    ensures j <= |s| && Like(q, s[..j])
    decreases |q| + |s|
  {
    if q == "" {
      j := 0;
    } else {
      assert (q + "%")[1..] == q[1..] + "%";
      if q[0] == '%' && Like(q[1..] + "%", s) {
        j := EndBeforePercent(q[1..], s);
      } else {
        var k;
        if q[0] == '%' {
          k := EndBeforePercent(q, s[1..]);
        } else {
          k := EndBeforePercent(q[1..], s[1..]);
        }
        j := k + 1;
        assert s[..j][1..] == s[1..][..k];
      }
    }
  }

  lemma PartMatches(s: string, q: string, i: nat, j: nat)
    requires i <= j <= |s| && Like(q, s[i..j])
    ensures Like("%" + (q + "%"), s)
  {
    assert s[i..][..j - i] == s[i..j];
    PercentAtTheEnd(q, s[i..], j - i);
    PercentSkips(q + "%", s[..i], s[i..]);
    assert s[..i] + s[i..] == s;
  }

  lemma MatchedPart(s: string, q: string) returns (i: nat, j: nat)
    requires Like("%" + (q + "%"), s)
    ensures i <= j <= |s| && Like(q, s[i..j])
  {
    i := PercentUnskips(q + "%", s);
    var k := EndBeforePercent(q, s[i..]);
    j := i + k;
    assert s[i..][..k] == s[i..j];
  }

  ghost predicate LikeSomePart(s: string, q: string) {
    exists i, j :: 0 <= i <= j <= |s| && Like(q, s[i..j])
  }

  // A text matches exactly when some part of it is LIKE the query.
  lemma MatchesSomePart(text: string, query: string)
    ensures TextMatches(text, query) <==> LikeSomePart(Lower(text), Lower(query))
  {
    LowerPattern(query);
    if TextMatches(text, query) {
      var i, j := MatchedPart(Lower(text), Lower(query));
    }
    if i, j :| 0 <= i <= j <= |Lower(text)| && Like(Lower(query), Lower(text)[i..j]) {
      PartMatches(Lower(text), Lower(query), i, j);
    }
  }

  // A text that a wildcard query matches although it does not contain the query.
  function Counterexample(q: string): (w: string)
    ensures |w| <= |q|
    ensures |w| == |q| ==> forall i :: 0 <= i < |q| ==> q[i] != '%' && (q[i] == '_' ==> w[i] == 'a')
  {
    if q == "" then ""
    else if q[0] == '%' then Counterexample(q[1..])
    else [if q[0] == '_' then 'a' else q[0]] + Counterexample(q[1..])
  }

  lemma {:induction false} CounterexampleMatches(q: string)
    ensures Like(q + "%", Counterexample(q))
  {
    if q == "" {
      assert "" + "%" == "%";
      PercentMatchesAll("");
    } else {
      CounterexampleMatches(q[1..]);
      assert (q + "%")[1..] == q[1..] + "%";
      assert q[0] != '%' ==> Counterexample(q)[1..] == Counterexample(q[1..]);
    }
  }

  lemma {:induction false} CounterexampleIsLower(q: string)
    requires IsLower(q)
    ensures Lower(Counterexample(q)) == Counterexample(q)
  {
    if q != "" {
      assert IsLower(q[1..]);
      CounterexampleIsLower(q[1..]);
    }
  }

  // The search is a case-insensitive substring search exactly for the queries that hold
  // no % and no _: for every other query some text shows the difference.
  lemma SearchIsSubstringSearchExactlyWhen(query: string)
    ensures (forall text :: TextMatches(text, query) <==> Contains(Lower(text), Lower(query))) <==> WildcardFree(query)
  {
    forall text ensures Contains(Lower(text), Lower(query)) ==> TextMatches(text, query) {
      if Contains(Lower(text), Lower(query)) {
        SubstringsMatch(text, query);
      }
    }
    if WildcardFree(query) {
      forall text ensures TextMatches(text, query) ==> Contains(Lower(text), Lower(query)) {
        if TextMatches(text, query) {
          LiteralsMatchOnlySubstrings(text, query);
        }
      }
    } else {
      WildcardQueryHasCounterexample(query);
    }
  }

  lemma WildcardQueryHasCounterexample(query: string)
    requires !WildcardFree(query)
    ensures var w := Counterexample(Lower(query)); TextMatches(w, query) && !Contains(Lower(w), Lower(query))
  {
    LowerPattern(query);
    var q := Lower(query);
    var w := Counterexample(q);
    CounterexampleIsLower(q);
    CounterexampleMatches(q);
    PercentSkips(q + "%", "", w);
    assert "" + w == w;
    CounterexampleDiffers(q);
    NotContainedInShorter(w, q);
  }

  lemma CounterexampleDiffers(q: string)
    requires !WildcardFree(q)
    ensures Counterexample(q) != q
  {
    var k :| 0 <= k < |q| && (q[k] == '%' || q[k] == '_');
  }

  lemma NotContainedInShorter(w: string, q: string)
    requires |w| <= |q| && w != q
    ensures !Contains(w, q)
  {
    forall i: nat ensures !OccursAt(w, q, i) {
      if i + |q| <= |w| {
        assert w[i..i + |q|] == w;
      }
    }
  }

  // ---- The query ----

  function Hits(jid: string, query: string): StoredMessage -> bool {
    (r: StoredMessage) => r.jid == jid && TextMatches(r.text, query)
  }

  function SearchResult(t: Table, jid: string, query: string, limit: int): Table {
    Window(Sorted(ByTime(), Filter(Hits(jid, query), t)), limit, 0)
  }

  method SearchByJID(t: Table, jid: string, query: string, limit: int) returns (found: Table)
    ensures found == SearchResult(t, jid, query, limit)
  {
    var hits := Select(Hits(jid, query), t);
    var newestFirst := Sort(ByTime(), hits);
    found := Window(newestFirst, limit, 0);
  }

  ghost function MatchingRows(t: Table, jid: string, query: string): set<int> {
    set i | 0 <= i < |t| && t[i].jid == jid && TextMatches(t[i].text, query)
  }

  lemma HitsAreCounted(t: Table, jid: string, query: string)
    ensures |Sorted(ByTime(), Filter(Hits(jid, query), t))| == |MatchingRows(t, jid, query)|
  {
    SortedIsAStableSort(ByTime(), Filter(Hits(jid, query), t));
    FilterLength(Hits(jid, query), t);
    CountIsCardinality(Hits(jid, query), t);
    assert forall i :: i in Positions(Hits(jid, query), t) <==> i in MatchingRows(t, jid, query);
    assert Positions(Hits(jid, query), t) == MatchingRows(t, jid, query);
  }

  lemma ResultIsACut(t: Table, jid: string, query: string, limit: int) returns (all: Table, cut: nat)
    ensures all == Sorted(ByTime(), Filter(Hits(jid, query), t)) && |all| == |MatchingRows(t, jid, query)|
    ensures cut == (if 0 <= limit < |all| then limit else |all|) && SearchResult(t, jid, query, limit) == all[..cut]
    ensures Descending(ByTime(), all) && multiset(all) == multiset(Filter(Hits(jid, query), t))
  {
    all := Sorted(ByTime(), Filter(Hits(jid, query), t));
    cut := if 0 <= limit < |all| then limit else |all|;
    HitsAreCounted(t, jid, query);
    SortedIsAStableSort(ByTime(), Filter(Hits(jid, query), t));
  }

  // For every query, also with wildcards: as many rows as the limit and the matches allow,
  // newest first, and none more often than it is stored. A negative limit is none.
  lemma SearchRespectsTheLimit(t: Table, jid: string, query: string, limit: int)
    ensures var found, n := SearchResult(t, jid, query, limit), |MatchingRows(t, jid, query)|;
      && |found| == (if 0 <= limit < n then limit else n)
      && multiset(found) <= multiset(t)
      && forall i, j :: 0 <= i < j < |found| ==> found[i].timestamp >= found[j].timestamp
  {
    var all, cut := ResultIsACut(t, jid, query, limit);
    PrefixAddsNothing(all, cut);
    FilterAddsNothing(Hits(jid, query), t);
    assert forall i :: 0 <= i < |all| ==> ByTime()(all[i]) == all[i].timestamp;
  }

  // They are matches of the chat, and a match left out is no newer than any of them.
  lemma SearchFindsTheNewestMatches(t: Table, jid: string, query: string, limit: int, r: StoredMessage)
    ensures var found := SearchResult(t, jid, query, limit);
      && (r in found ==> r in t && r.jid == jid && TextMatches(r.text, query))
      && (r in t && r.jid == jid && TextMatches(r.text, query) && r !in found ==>
           |found| == limit && forall q :: q in found ==> q.timestamp >= r.timestamp)
  {
    var all, cut := ResultIsACut(t, jid, query, limit);
    SortedHasTheSameElements(ByTime(), Filter(Hits(jid, query), t), r);
    FilterMembers(Hits(jid, query), t);
    assert r in all <==> r in t && Hits(jid, query)(r);
    if r in all && r !in all[..cut] {
      NotInTheCut(all, cut, r);
    }
  }

  // For a literal query the result is the newest `limit` messages of the chat that contain it.
  lemma LiteralSearchFindsTheNewestHits(t: Table, jid: string, query: string, limit: nat, r: StoredMessage)
    requires WildcardFree(query)
    ensures var found := SearchResult(t, jid, query, limit);
      && Descending(ByTime(), found)
      && (r in found ==> r in t && r.jid == jid && Contains(Lower(r.text), Lower(query)))
      && (r in t && r.jid == jid && Contains(Lower(r.text), Lower(query)) && r !in found ==>
           |found| == limit && forall q :: q in found ==> q.timestamp >= r.timestamp)
  {
    SearchIsSubstringSearchExactlyWhen(query);
    assert TextMatches(r.text, query) <==> Contains(Lower(r.text), Lower(query));
    SearchFindsTheNewestMatches(t, jid, query, limit, r);
    var all, cut := ResultIsACut(t, jid, query, limit);
  }
}
