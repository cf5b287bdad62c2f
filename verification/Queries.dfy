// The read queries of daemon/storage/messages.go. ORDER BY timestamp DESC leaves ties open;
// here ties come in rowid order, which is what the (jid, timestamp DESC) index yields.
module Queries {
  import opened Sequences
  import opened Sorting
  import opened Messages
  import opened Store

  function ByTime(): StoredMessage -> int {
    (r: StoredMessage) => r.timestamp
  }

  function InChat(jid: string): StoredMessage -> bool {
    (r: StoredMessage) => r.jid == jid
  }

  // ---- Pages ----

  function ChatHistory(t: Table, jid: string): Table {
    Sorted(ByTime(), Filter(InChat(jid), t))
  }

  function Page(t: Table, jid: string, limit: int, offset: int): Table {
    Window(ChatHistory(t, jid), limit, offset)
  }

  lemma HistoryLength(t: Table, jid: string)
    ensures |ChatHistory(t, jid)| == Count(InChat(jid), t)
  {
    SortedIsAStableSort(ByTime(), Filter(InChat(jid), t));
    FilterLength(InChat(jid), t);
  }

  // Consecutive pages tile the history: no message is skipped and none is shown twice.
  lemma PagesTile(t: Table, jid: string, first: nat, second: nat)
    ensures Page(t, jid, first, 0) + Page(t, jid, second, first) == Page(t, jid, first + second, 0)
    ensures |Page(t, jid, first, 0)| == Min(first, Count(InChat(jid), t))
    ensures Descending(ByTime(), Page(t, jid, first + second, 0))
  {
    WindowsTile(ChatHistory(t, jid), first, second);
    SortedIsAStableSort(ByTime(), Filter(InChat(jid), t));
    HistoryLength(t, jid);
  }

  lemma HistoryHoldsTheChat(t: Table, jid: string, r: StoredMessage)
    ensures r in ChatHistory(t, jid) <==> r in t && r.jid == jid
  {
    SortedHasTheSameElements(ByTime(), Filter(InChat(jid), t), r);
    FilterMembers(InChat(jid), t);
  }

  // The first page holds the newest rows of its chat and nothing else: a row of the chat
  // that it leaves to later pages is at least as old as everything on it.
  lemma PageIsTheNewestCut(t: Table, jid: string, limit: nat, r: StoredMessage, q: StoredMessage)
    requires r in Page(t, jid, limit, 0)
    ensures r in t && r.jid == jid && multiset(Page(t, jid, limit, 0)) <= multiset(t)
    ensures q in t && q.jid == jid && q !in Page(t, jid, limit, 0) ==>
      q.timestamp <= r.timestamp && |Page(t, jid, limit, 0)| == limit
  {
    var all := ChatHistory(t, jid);
    var cut := Min(limit, |all|);
    SortedIsAStableSort(ByTime(), Filter(InChat(jid), t));
    HistoryHoldsTheChat(t, jid, r);
    HistoryHoldsTheChat(t, jid, q);
    assert Page(t, jid, limit, 0) == all[..cut];
    PrefixAddsNothing(all, cut);
    FilterAddsNothing(InChat(jid), t);
    if q in t && q.jid == jid && q !in all[..cut] {
      NotInTheCut(all, cut, q);
    }
  }

  lemma NotInTheCut(all: Table, cut: nat, r: StoredMessage)
    requires cut <= |all| && Descending(ByTime(), all) && r in all && r !in all[..cut]
    ensures cut < |all| && forall q :: q in all[..cut] ==> q.timestamp >= r.timestamp
  {
  }

  // ---- Newest row of every chat ----

  ghost predicate IsNewest(t: Table, r: StoredMessage) {
    forall q :: q in t && q.jid == r.jid ==> q.timestamp <= r.timestamp
  }

  // MAX(timestamp) of a chat that has rows.
  function LatestTime(t: Table, jid: string): (ts: int)
    requires exists r :: r in t && r.jid == jid
    ensures exists r :: r in t && r.jid == jid && r.timestamp == ts
    ensures forall r :: r in t && r.jid == jid ==> r.timestamp <= ts
  {
    var rest := t[1..];
    assert t == [t[0]] + rest;
    if t[0].jid != jid then
      LatestTime(rest, jid)
    else if (exists i :: 0 <= i < |rest| && rest[i].jid == jid) then
      Max(t[0].timestamp, LatestTime(rest, jid))
    else
      t[0].timestamp
  }

  // The join of the table with its own GROUP BY.
  function JoinsLatest(t: Table): StoredMessage -> bool {
    (r: StoredMessage) => r in t && r.timestamp == LatestTime(t, r.jid)
  }

  function RecentChats(t: Table): Table {
    Sorted(ByTime(), Filter(JoinsLatest(t), t))
  }

  function TiedInChat(t: Table, jid: string): StoredMessage -> bool {
    (r: StoredMessage) => r.jid == jid && JoinsLatest(t)(r)
  }

  // How many rows of the chat share its newest timestamp.
  function Ties(t: Table, jid: string): nat {
    Count(TiedInChat(t, jid), t)
  }

  lemma EveryChatHasATie(t: Table, r: StoredMessage)
    requires r in t
    ensures Ties(t, r.jid) >= 1
  {
    var jid := r.jid;
    var q :| q in t && q.jid == jid && q.timestamp == LatestTime(t, jid);
    assert JoinsLatest(t)(q);
    assert TiedInChat(t, jid)(q);
    CountZero(TiedInChat(t, jid), t);
  }

  lemma TiesOfRecentChats(t: Table, jid: string)
    ensures Count(InChat(jid), RecentChats(t)) == Ties(t, jid)
  {
    SortedIsAStableSort(ByTime(), Filter(JoinsLatest(t), t));
    CountIsPermutationInvariant(InChat(jid), RecentChats(t), Filter(JoinsLatest(t), t));
    CountOfFilter(InChat(jid), JoinsLatest(t), TiedInChat(t, jid), t);
  }

  ghost predicate HasOneNewestRow(t: Table, jid: string) {
    forall i, j :: 0 <= i < j < |t| && t[i].jid == jid == t[j].jid && IsNewest(t, t[i]) ==> !IsNewest(t, t[j])
  }

  lemma TiedMeansNewest(t: Table, jid: string, r: StoredMessage)
    requires r in t
    ensures TiedInChat(t, jid)(r) <==> r.jid == jid && IsNewest(t, r)
  {
    var newest :| newest in t && newest.jid == r.jid && newest.timestamp == LatestTime(t, r.jid);
    assert JoinsLatest(t)(r) <==> IsNewest(t, r);
  }

  lemma AtMostOneTie(t: Table, jid: string)
    ensures Ties(t, jid) <= 1 <==> HasOneNewestRow(t, jid)
  {
    CountAtMostOne(TiedInChat(t, jid), t);
    forall i | 0 <= i < |t| ensures TiedInChat(t, jid)(t[i]) <==> t[i].jid == jid && IsNewest(t, t[i]) {
      TiedMeansNewest(t, jid, t[i]);
    }
    if HasOneNewestRow(t, jid) {
      forall i, j | 0 <= i < j < |t| && TiedInChat(t, jid)(t[i]) ensures !TiedInChat(t, jid)(t[j]) {
      }
    } else {
      var i, j :| 0 <= i < j < |t| && t[i].jid == jid == t[j].jid && IsNewest(t, t[i]) && IsNewest(t, t[j]);
      assert TiedInChat(t, jid)(t[i]) && TiedInChat(t, jid)(t[j]);
    }
  }

  // GetRecentChats lists a chat once per row tied at its newest timestamp, so "one message
  // per chat" holds exactly for the chats whose newest row is unique.
  lemma RecentChatsListsEveryTie(t: Table, jid: string)
    ensures Count(InChat(jid), RecentChats(t)) == Ties(t, jid)
    ensures Ties(t, jid) >= 1 <==> exists r :: r in t && r.jid == jid
    ensures Ties(t, jid) <= 1 <==> HasOneNewestRow(t, jid)
    ensures Descending(ByTime(), RecentChats(t))
  {
    SortedIsAStableSort(ByTime(), Filter(JoinsLatest(t), t));
    TiesOfRecentChats(t, jid);
    CountZero(TiedInChat(t, jid), t);
    if r :| r in t && r.jid == jid {
      EveryChatHasATie(t, r);
    }
    AtMostOneTie(t, jid);
  }

  lemma RecentChatsAreTheNewestRows(t: Table, r: StoredMessage)
    ensures r in RecentChats(t) <==> r in t && IsNewest(t, r)
  {
    SortedHasTheSameElements(ByTime(), Filter(JoinsLatest(t), t), r);
    FilterMembers(JoinsLatest(t), t);
    if r in t {
      assert JoinsLatest(t)(r) <==> IsNewest(t, r);
    }
  }

  // ---- The queries as loops over the table ----

  method GetByJID(t: Table, jid: string, limit: int, offset: int) returns (page: Table)
    ensures page == Page(t, jid, limit, offset)
  {
    var chat := Select(InChat(jid), t);
    var newestFirst := Sort(ByTime(), chat);
    page := Window(newestFirst, limit, offset);
  }

  // latest is the GROUP BY jid of the rows seen so far.
  ghost predicate GroupsLatest(latest: map<string, int>, seen: Table) {
    && (forall r :: r in seen ==> r.jid in latest && r.timestamp <= latest[r.jid])
    && (forall j :: j in latest ==> exists r :: r in seen && r.jid == j && r.timestamp == latest[j])
  }

  method GroupByJID(t: Table) returns (latest: map<string, int>)
    ensures GroupsLatest(latest, t)
  {
    latest := map[];
    for i := 0 to |t|
      invariant GroupsLatest(latest, t[..i])
    {
      assert t[..i + 1] == t[..i] + [t[i]];
      if t[i].jid !in latest || latest[t[i].jid] < t[i].timestamp {
        latest := latest[t[i].jid := t[i].timestamp];
      }
    }
    assert t[..|t|] == t;
  }

  method GetRecentChats(t: Table) returns (recent: Table)
    ensures recent == RecentChats(t)
  {
    var latest := GroupByJID(t);
    forall i | 0 <= i < |t|
      ensures t[i].jid in latest && latest[t[i].jid] == LatestTime(t, t[i].jid)
    {
    }
    var onLatest := (r: StoredMessage) => r.jid in latest && r.timestamp == latest[r.jid];
    var joined := Select(onLatest, t);
    FilterPointwise(onLatest, JoinsLatest(t), t);
    recent := Sort(ByTime(), joined);
  }
}
