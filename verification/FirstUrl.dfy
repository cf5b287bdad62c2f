// The first-URL scanner of daemon/storage/messages.go: leftmost match of
// https?://[^\s]+ followed by a right trim of punctuation.
module FirstUrl {

  // The class \s of Go's RE2 syntax is ASCII only.
  predicate IsSpace(c: char) {
    c == '\t' || c == '\n' || c == '\U{0C}' || c == '\r' || c == ' '
  }

  predicate InCutset(c: char) {
    c in ".,;:!?)]}\"'"
  }

  predicate HasPrefixAt(s: string, i: nat, prefix: string) {
    i + |prefix| <= |s| && s[i..i + |prefix|] == prefix
  }

  // Length of the scheme that starts at i, or 0.
  function SchemeLength(s: string, i: nat): (n: nat)
    ensures n == 0 || (7 <= n <= 8 && i + n <= |s|)
  {
    if HasPrefixAt(s, i, "https://") then 8 else if HasPrefixAt(s, i, "http://") then 7 else 0
  }

  // The expression matches at i: a scheme followed by at least one non-space character.
  predicate MatchesAt(s: string, i: nat) {
    var n := SchemeLength(s, i);
    n > 0 && i + n < |s| && !IsSpace(s[i + n])
  }

  // Where the greedy [^\s]* that starts at i stops.
  function RunEnd(s: string, i: nat): (e: nat)
    requires i <= |s|
    ensures i <= e <= |s|
    ensures forall k :: i <= k < e ==> !IsSpace(s[k])
    ensures e < |s| ==> IsSpace(s[e])
    decreases |s| - i
  {
    if i == |s| || IsSpace(s[i]) then i else RunEnd(s, i + 1)
  }

  // Leftmost match position at or after i; |s| when there is none.
  function FindFrom(s: string, i: nat): (k: nat)
    requires i <= |s|
    ensures i <= k <= |s|
    ensures forall j :: i <= j < k ==> !MatchesAt(s, j)
    ensures k < |s| ==> MatchesAt(s, k)
    decreases |s| - i
  {
    if i == |s| || MatchesAt(s, i) then i else FindFrom(s, i + 1)
  }

  function FindString(s: string): string {
    var i := FindFrom(s, 0);
    if i == |s| then "" else s[i..RunEnd(s, i + SchemeLength(s, i))]
  }

  function TrimRight(s: string): (r: string)
    ensures r <= s
    ensures r != "" ==> !InCutset(r[|r| - 1])
    ensures forall k :: |r| <= k < |s| ==> InCutset(s[k])
  {
    if s == "" || !InCutset(s[|s| - 1]) then s else TrimRight(s[..|s| - 1])
  }

  function ExtractFirstURL(text: string): string {
    TrimRight(FindString(text))
  }

  lemma SchemeText(s: string, i: nat)
    ensures SchemeLength(s, i) == 8 ==> s[i..i + 8] == "https://"
    ensures SchemeLength(s, i) == 7 ==> s[i..i + 7] == "http://"
    ensures forall k :: i <= k < i + SchemeLength(s, i) ==> !IsSpace(s[k])
    ensures SchemeLength(s, i) > 0 ==> !InCutset(s[i + SchemeLength(s, i) - 1])
  {
    var n := SchemeLength(s, i);
    if n > 0 {
      var p := s[i..i + n];
      assert p == "https://" || p == "http://";
      assert forall k :: 0 <= k < n ==> s[i + k] == p[k];
      assert forall k :: i <= k < i + n ==> s[k] == p[k - i];
    }
  }

  // The kept part ends at `end`: it is what remains of the maximal run s[start..stop]
  // once the trailing cutset characters are gone.
  ghost predicate IsFirstURL(s: string, start: nat, end: nat, stop: nat) {
    && MatchesAt(s, start)
    && (forall j :: 0 <= j < start ==> !MatchesAt(s, j))
    && start + SchemeLength(s, start) <= end <= stop <= |s|
    && (forall k :: start <= k < stop ==> !IsSpace(s[k]))
    && (stop < |s| ==> IsSpace(s[stop]))
    && (forall k :: end <= k < stop ==> InCutset(s[k]))
    && !InCutset(s[end - 1])
  }

  lemma TrimStopsAt(run: string, n: nat)
    requires 0 < n <= |run| && !InCutset(run[n - 1])
    ensures n <= |TrimRight(run)|
    ensures !InCutset(run[|TrimRight(run)| - 1])
  {
  }

  // The extracted text is empty when nothing matches; otherwise it is the maximal
  // whitespace-free run at the leftmost match less its trailing cutset, scheme kept whole.
  lemma FirstURLIsLeftmostMaximalRun(s: string) returns (start: nat, end: nat, stop: nat)
    ensures (forall j :: 0 <= j < |s| ==> !MatchesAt(s, j)) ==> ExtractFirstURL(s) == ""
    ensures (exists j :: 0 <= j < |s| && MatchesAt(s, j)) ==>
      IsFirstURL(s, start, end, stop) && ExtractFirstURL(s) == s[start..end]
  {
    start := FindFrom(s, 0);
    end, stop := 0, 0;
    if start < |s| {
      end, stop := RunIsFirstURL(s, start);
    } else {
      assert TrimRight("") == "";
    }
  }

  lemma TrimmedRun(s: string, start: nat, kept: nat, stop: nat) returns (end: nat)
    requires start < kept <= stop <= |s| && !InCutset(s[kept - 1])
    ensures kept <= end <= stop && TrimRight(s[start..stop]) == s[start..end]
    ensures forall k :: end <= k < stop ==> InCutset(s[k])
    ensures !InCutset(s[end - 1])
  {
    var run := s[start..stop];
    assert run[kept - start - 1] == s[kept - 1];
    TrimStopsAt(run, kept - start);
    end := start + |TrimRight(run)|;
    assert TrimRight(run) == run[..|TrimRight(run)|] == s[start..end];
    assert forall k :: end <= k < stop ==> s[k] == run[k - start];
  }

  lemma RunIsFirstURL(s: string, start: nat) returns (end: nat, stop: nat)
    requires MatchesAt(s, start)
    requires forall j :: 0 <= j < start ==> !MatchesAt(s, j)
    ensures stop == RunEnd(s, start + SchemeLength(s, start))
    ensures IsFirstURL(s, start, end, stop)
    ensures TrimRight(s[start..stop]) == s[start..end]
  {
    var n := SchemeLength(s, start);
    SchemeText(s, start);
    stop := RunEnd(s, start + n);
    end := TrimmedRun(s, start, start + n, stop);
  }

  // Two descriptions of the first URL agree, so IsFirstURL pins the result down.
  lemma FirstURLIsUnique(s: string, a: nat, b: nat, c: nat, a': nat, b': nat, c': nat)
    requires IsFirstURL(s, a, b, c) && IsFirstURL(s, a', b', c')
    ensures a == a' && b == b' && c == c'
  {
  }

  // The run after the scheme holds a character that survives the trim.
  ghost predicate KeepsMoreThanScheme(s: string) {
    var i := FindFrom(s, 0);
    i == |s| ||
    exists k :: i + SchemeLength(s, i) <= k < RunEnd(s, i + SchemeLength(s, i)) && !InCutset(s[k])
  }

  // Extracting again from a kept run that is longer than its scheme gives it back.
  lemma ExtractAgain(u: string)
    requires MatchesAt(u, 0)
    requires forall k :: 0 <= k < |u| ==> !IsSpace(u[k])
    requires !InCutset(u[|u| - 1])
    ensures ExtractFirstURL(u) == u
  {
  }

  lemma SliceOfSlice(s: string, i: nat, end: nat, n: nat)
    requires i + n <= end <= |s|
    ensures s[i..end][..n] == s[i..i + n] == s[i..end][0..n]
  {
  }

  lemma SchemeOfPrefix(s: string, i: nat, end: nat)
    requires SchemeLength(s, i) > 0 && i + SchemeLength(s, i) <= end <= |s|
    ensures SchemeLength(s[i..end], 0) == SchemeLength(s, i)
    ensures s[i..end][..SchemeLength(s, i)] == if SchemeLength(s, i) == 8 then "https://" else "http://"
  {
    var n, u := SchemeLength(s, i), s[i..end];
    SchemeText(s, i);
    SliceOfSlice(s, i, end, n);
    if n == 7 && |u| >= 8 {
      assert u[0..7][4] == u[0..8][4] && "http://"[4] != "https://"[4];
    }
  }

  lemma KeepsMoreMeansLongerThanScheme(s: string, end: nat, stop: nat)
    requires FindFrom(s, 0) < |s|
    requires IsFirstURL(s, FindFrom(s, 0), end, stop)
    requires stop == RunEnd(s, FindFrom(s, 0) + SchemeLength(s, FindFrom(s, 0)))
    ensures KeepsMoreThanScheme(s) <==> end > FindFrom(s, 0) + SchemeLength(s, FindFrom(s, 0))
  {
    var i := FindFrom(s, 0);
    var kept := i + SchemeLength(s, i);
    if end > kept {
      assert kept <= end - 1 < stop && !InCutset(s[end - 1]);
    }
    if KeepsMoreThanScheme(s) {
      var k :| kept <= k < stop && !InCutset(s[k]);
      assert k < end;
    }
  }

  // Extraction is idempotent exactly when more than the bare scheme is left.
  lemma ExtractTwice(s: string)
    ensures ExtractFirstURL(ExtractFirstURL(s)) == ExtractFirstURL(s) <==> KeepsMoreThanScheme(s)
  {
    var i := FindFrom(s, 0);
    if i == |s| {
      NothingInNothing();
    } else {
      var end, stop := RunIsFirstURL(s, i);
      KeepsMoreMeansLongerThanScheme(s, end, stop);
      ExtractKept(s, i, end, stop);
    }
  }

  lemma ExtractKept(s: string, i: nat, end: nat, stop: nat)
    requires IsFirstURL(s, i, end, stop)
    ensures ExtractFirstURL(s[i..end]) == s[i..end] <==> end > i + SchemeLength(s, i)
  {
    var u := s[i..end];
    SchemeOfPrefix(s, i, end);
    assert forall k :: 0 <= k < |u| ==> u[k] == s[i + k];
    if end > i + SchemeLength(s, i) {
      ExtractAgain(u);
    } else {
      assert u == u[..SchemeLength(s, i)];
    }
  }

  lemma NothingInNothing()
    ensures ExtractFirstURL("") == ""
  {
  }

  // A scheme followed by punctuation only is such a text: the second extraction loses it.
  lemma BareSchemeIsNotKept()
    ensures ExtractFirstURL("http://.") == "http://" && ExtractFirstURL("http://") == ""
    ensures !KeepsMoreThanScheme("http://.")
  {
    var s := "http://.";
    assert s[0..7] == "http://" && s[0..8][4] != "https://"[4] && s[7] == '.';
    assert SchemeLength(s, 0) == 7 && MatchesAt(s, 0);
    var end, stop := RunIsFirstURL(s, 0);
    ExtractTwice(s);
  }

  // ---- The same in literals ----

  // http:// or https://, of length n, followed by a non-space character.
  ghost predicate StartsURL(s: string, i: nat, n: nat) {
    && i + n < |s| && (s[i..i + n] == "http://" || s[i..i + n] == "https://")
    && s[i + n] !in " \t\n\U{0C}\r"
  }

  // s[start..stop] is the longest run without white space at the leftmost start, and
  // s[start..end] what is left of it without the punctuation at its end.
  ghost predicate URLSpan(s: string, start: nat, n: nat, end: nat, stop: nat) {
    && StartsURL(s, start, n) && (forall i: nat, m: nat :: i < start ==> !StartsURL(s, i, m))
    && start + n <= end <= stop <= |s|
    && (forall k :: start <= k < stop ==> s[k] !in " \t\n\U{0C}\r")
    && (stop < |s| ==> s[stop] in " \t\n\U{0C}\r")
    && (forall k :: end <= k < stop ==> s[k] in ".,;:!?)]}\"'")
    && s[end - 1] !in ".,;:!?)]}\"'"
  }

  ghost predicate IsFirstURLOf(s: string, url: string) {
    || (url == "" && forall i: nat, n: nat :: !StartsURL(s, i, n))
    || (exists start: nat, n: nat, end: nat, stop: nat ::
          URLSpan(s, start, n, end, stop) && url == s[start..end])
  }

  lemma StartsWhereItMatches(s: string, i: nat, n: nat)
    ensures StartsURL(s, i, n) <==> MatchesAt(s, i) && n == SchemeLength(s, i)
  {
    if StartsURL(s, i, n) {
      assert |s[i..i + n]| == n;
      assert n == 7 ==> s[i + 4] == s[i..i + 7][4] == ':';
      assert i + 8 <= |s| ==> s[i..i + 8][4] == s[i + 4];
    }
    SchemeText(s, i);
  }

  lemma SpanIsFirstURL(s: string, start: nat, n: nat, end: nat, stop: nat)
    ensures URLSpan(s, start, n, end, stop) <==> IsFirstURL(s, start, end, stop) && n == SchemeLength(s, start)
  {
    StartsWhereItMatches(s, start, n);
    forall i: nat, m: nat ensures StartsURL(s, i, m) <==> MatchesAt(s, i) && m == SchemeLength(s, i) {
      StartsWhereItMatches(s, i, m);
    }
    if IsFirstURL(s, start, end, stop) {
      assert forall i: nat, m: nat :: i < start ==> !StartsURL(s, i, m);
    }
    if URLSpan(s, start, n, end, stop) {
      forall j | 0 <= j < start ensures !MatchesAt(s, j) {
        assert !StartsURL(s, j, SchemeLength(s, j));
      }
    }
  }

  // For every text the result is the one these literals describe.
  lemma ExtractFirstURLInLiterals(s: string)
    ensures forall url :: url == ExtractFirstURL(s) <==> IsFirstURLOf(s, url)
  {
    ExtractedIsFirst(s);
    forall url | IsFirstURLOf(s, url) ensures url == ExtractFirstURL(s) {
      FirstIsExtracted(s, url);
    }
  }

  lemma ExtractedIsFirst(s: string)
    ensures IsFirstURLOf(s, ExtractFirstURL(s))
  {
    var start, end, stop := FirstURLIsLeftmostMaximalRun(s);
    forall i: nat, n: nat ensures StartsURL(s, i, n) <==> MatchesAt(s, i) && n == SchemeLength(s, i) {
      StartsWhereItMatches(s, i, n);
    }
    if exists j :: 0 <= j < |s| && MatchesAt(s, j) {
      SpanIsFirstURL(s, start, SchemeLength(s, start), end, stop);
    }
  }

  lemma FirstIsExtracted(s: string, url: string)
    requires IsFirstURLOf(s, url)
    ensures url == ExtractFirstURL(s)
  {
    var start, end, stop := FirstURLIsLeftmostMaximalRun(s);
    if a: nat, n: nat, b: nat, c: nat :| URLSpan(s, a, n, b, c) && url == s[a..b] {
      SpanIsFirstURL(s, a, n, b, c);
      assert MatchesAt(s, a);
      FirstURLIsUnique(s, start, end, stop, a, b, c);
    } else {
      forall j | 0 <= j < |s| ensures !MatchesAt(s, j) {
        StartsWhereItMatches(s, j, SchemeLength(s, j));
      }
    }
  }
}
