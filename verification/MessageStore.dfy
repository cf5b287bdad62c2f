// The MessageStore object of daemon/storage/messages.go: the table as a mutable field, the
// statements that rewrite it and the queries that read it.
module MessageDatabase {
  import opened Sequences
  import opened Messages
  import opened Store
  import opened History
  import opened Queries
  import opened Search
  import opened Unread

  class MessageStore {
    var rows: Table

    // Every operation since the database was created, in execution order.
    ghost var log: seq<Op>

    ghost predicate Valid()
      reads this
    {
      rows == Run(log)
    }

    constructor ()
      ensures Valid() && log == []
    {
      rows := [];
      log := [];
    }

    method Find(id: string) returns (k: nat)
      ensures k == IndexOf(rows, id)
    {
      k := 0;
      while k < |rows| && rows[k].id != id
        invariant k <= |rows|
        invariant forall j :: 0 <= j < k ==> rows[j].id != id
      {
        k := k + 1;
      }
      IndexOfIs(rows, id, k);
    }

    method Save(msg: StoredMessage)
      requires Valid()
      modifies this
      ensures Valid() && log == old(log) + [Store.Save(msg)]
      ensures rows == Apply(old(rows), Store.Save(msg))
    {
      var excluded := msg;
      if excluded.urlPreview == "" {
        excluded := excluded.(urlPreview := FirstUrl.ExtractFirstURL(excluded.text));
      }
      var k := Find(excluded.id);
      if k < |rows| {
        rows := rows[k := Merge(rows[k], excluded)];
      } else {
        rows := rows + [excluded];
      }
      log := log + [Store.Save(msg)];
      assert log[..|log| - 1] == old(log);
    }

    // One UPDATE statement: visits every row and rewrites those its WHERE clause selects.
    method Update(op: Op)
      requires Valid() && !op.Save?
      modifies this
      ensures Valid() && log == old(log) + [op]
      ensures rows == Apply(old(rows), op)
    {
      for i := 0 to |rows|
        invariant |rows| == |old(rows)| && log == old(log)
        invariant forall k :: 0 <= k < i ==> rows[k] == Touch(op, old(rows)[k])
        invariant forall k :: i <= k < |rows| ==> rows[k] == old(rows)[k]
      {
        rows := rows[i := Touch(op, rows[i])];
      }
      assert rows == TouchAll(op, old(rows));
      log := log + [op];
      assert log[..|log| - 1] == old(log);
    }

    method UpdateReceipt(id: string, receipt: int)
      requires Valid()
      modifies this
      ensures Valid() && log == old(log) + [Store.UpdateReceipt(id, receipt)]
      ensures |rows| == |old(rows)|
      ensures forall i :: 0 <= i < |rows| ==>
        rows[i] == if old(rows)[i].id == id && old(rows)[i].receipt < receipt
                   then old(rows)[i].(receipt := receipt) else old(rows)[i]
    {
      Update(Store.UpdateReceipt(id, receipt));
    }

    method UpdateLocalPath(id: string, path: string)
      requires Valid()
      modifies this
      ensures Valid() && log == old(log) + [Store.UpdateLocalPath(id, path)]
      ensures |rows| == |old(rows)|
      ensures forall i :: 0 <= i < |rows| ==>
        rows[i] == if old(rows)[i].id == id then old(rows)[i].(localPath := path) else old(rows)[i]
    {
      Update(Store.UpdateLocalPath(id, path));
    }

    method MarkJIDAsRead(jid: string)
      requires Valid()
      modifies this
      ensures Valid() && log == old(log) + [Store.MarkJIDAsRead(jid)]
      ensures |rows| == |old(rows)|
      ensures forall i :: 0 <= i < |rows| ==>
        rows[i] == if old(rows)[i].jid == jid && !old(rows)[i].fromMe
                   then old(rows)[i].(isRead := true) else old(rows)[i]
    {
      Update(Store.MarkJIDAsRead(jid));
    }

    method GetByID(id: string) returns (row: Option<StoredMessage>)
      requires Valid()
      ensures row == Lookup(rows, id)
    {
      var k := Find(id);
      row := if k < |rows| then Some(rows[k]) else None;
    }

    // Returns recent messages of one chat, newest first.
    method GetByJID(jid: string, limit: int, offset: int) returns (page: Table)
      requires Valid()
      ensures page == Page(rows, jid, limit, offset)
    {
      page := Queries.GetByJID(rows, jid, limit, offset);
    }

    method SearchByJID(jid: string, query: string, limit: int) returns (found: Table)
      requires Valid()
      ensures found == SearchResult(rows, jid, query, limit)
    {
      found := Search.SearchByJID(rows, jid, query, limit);
    }

    method GetRecentChats() returns (recent: Table)
      requires Valid()
      ensures recent == RecentChats(rows)
    {
      recent := Queries.GetRecentChats(rows);
    }

    method GetUnreadCount(jid: string) returns (count: nat)
      requires Valid()
      ensures count == UnreadCount(rows, jid)
    {
      count := Unread.GetUnreadCount(rows, jid);
    }

    // The row that any history of operations leaves under an id is the one it explains.
    lemma RowsAreExplained(id: string)
      requires Valid()
      ensures Lookup(rows, id).Some? <==> StoredBefore(log, |log|, id)
      ensures Lookup(rows, id).Some? ==> Explains(log, id, Lookup(rows, id).value)
    {
      HistoryRefinement(log, id);
    }
  }
}
