// The message table of daemon/storage/messages.go. Rows are kept in rowid order, which is
// the order of first insertion; no statement deletes a row.
module Store {
  import opened Sequences
  import opened Messages

  type Table = seq<StoredMessage>

  datatype Op =
    | Save(msg: StoredMessage)
    | UpdateReceipt(id: string, receipt: int)
    | UpdateLocalPath(id: string, path: string)
    | MarkJIDAsRead(jid: string)

  // id is the primary key.
  ghost predicate UniqueIds(t: Table) {
    forall i, j :: 0 <= i < j < |t| ==> t[i].id != t[j].id
  }

  function IndexOf(t: Table, id: string): (k: nat)
    ensures k <= |t|
    ensures k < |t| ==> t[k].id == id
    ensures forall j :: 0 <= j < k ==> t[j].id != id
  {
    if t == [] || t[0].id == id then 0 else 1 + IndexOf(t[1..], id)
  }

  function Lookup(t: Table, id: string): Option<StoredMessage> {
    var k := IndexOf(t, id);
    if k < |t| then Some(t[k]) else None
  }

  // What the three UPDATE statements do to one row.
  function Touch(op: Op, row: StoredMessage): StoredMessage {
    match op
    case Save(_) => row
    case UpdateReceipt(id, r) => if row.id == id then row.(receipt := Max(row.receipt, r)) else row
    case UpdateLocalPath(id, p) => if row.id == id then row.(localPath := p) else row
    case MarkJIDAsRead(j) => if row.jid == j && !row.fromMe then row.(isRead := true) else row
  }

  function TouchAll(op: Op, t: Table): (r: Table)
    ensures |r| == |t|
    ensures forall i :: 0 <= i < |t| ==> r[i] == Touch(op, t[i])
  {
    if t == [] then [] else [Touch(op, t[0])] + TouchAll(op, t[1..])
  }

  function Put(t: Table, m: StoredMessage): Table {
    var k := IndexOf(t, m.id);
    if k < |t| then t[k := Merge(t[k], m)] else t + [m]
  }

  function Apply(t: Table, op: Op): Table {
    if op.Save? then Put(t, FillPreview(op.msg)) else TouchAll(op, t)
  }

  function Run(log: seq<Op>): Table {
    if log == [] then [] else Apply(Run(log[..|log| - 1]), log[|log| - 1])
  }

  // What one operation does to the row stored under one id, whatever the other rows are.
  function RowStep(row: Option<StoredMessage>, op: Op, id: string): Option<StoredMessage> {
    if op.Save? then
      if op.msg.id != id then row
      else if row.None? then Some(FillPreview(op.msg))
      else Some(Merge(row.value, FillPreview(op.msg)))
    else if row.None? then None
    else Some(Touch(op, row.value))
  }

  lemma {:induction false} IndexOfIs(t: Table, id: string, k: nat)
    requires k <= |t| && (k < |t| ==> t[k].id == id)
    requires forall j :: 0 <= j < k ==> t[j].id != id
    ensures IndexOf(t, id) == k
  {
  }

  lemma ApplyKeepsIdsUnique(t: Table, op: Op)
    requires UniqueIds(t)
    ensures UniqueIds(Apply(t, op))
  {
  }

  // Rows stay where they are, and a new one is put behind them.
  lemma RowsKeepTheirPlace(t: Table, op: Op)
    ensures |t| <= |Apply(t, op)| <= |t| + 1
    ensures forall i :: 0 <= i < |t| ==> Apply(t, op)[i].id == t[i].id
    ensures |Apply(t, op)| > |t| <==> op.Save? && forall i :: 0 <= i < |t| ==> t[i].id != op.msg.id
    ensures |Apply(t, op)| > |t| ==> Apply(t, op)[|t|].id == op.msg.id
  {
  }

  lemma {:induction false} RunHasUniqueIds(log: seq<Op>)
    ensures UniqueIds(Run(log))
  {
    if log != [] {
      RunHasUniqueIds(log[..|log| - 1]);
      ApplyKeepsIdsUnique(Run(log[..|log| - 1]), log[|log| - 1]);
    }
  }

  lemma {:induction false} IndexOfAppend(t: Table, m: StoredMessage, id: string)
    ensures IndexOf(t + [m], id) == if IndexOf(t, id) < |t| then IndexOf(t, id) else if m.id == id then |t| else |t| + 1
  {
    var k := IndexOf(t + [m], id);
    assert forall j :: 0 <= j < |t| ==> (t + [m])[j] == t[j];
    assert (t + [m])[|t|] == m;
  }

  lemma IndexOfSameIds(t: Table, u: Table, id: string)
    requires |t| == |u| && forall i :: 0 <= i < |t| ==> t[i].id == u[i].id
    ensures IndexOf(t, id) == IndexOf(u, id)
  {
  }

  // Operations are local to ids: one statement about each row describes a whole step.
  lemma ApplyIsRowStep(t: Table, op: Op, id: string)
    requires UniqueIds(t)
    ensures Lookup(Apply(t, op), id) == RowStep(Lookup(t, id), op, id)
  {
    if op.Save? {
      var m := FillPreview(op.msg);
      if IndexOf(t, m.id) < |t| {
        IndexOfSameIds(t, Put(t, m), id);
      } else {
        IndexOfAppend(t, m, id);
      }
    } else {
      IndexOfSameIds(t, TouchAll(op, t), id);
    }
  }

  lemma RunOneMore(log: seq<Op>, op: Op, id: string)
    ensures Lookup(Run(log + [op]), id) == RowStep(Lookup(Run(log), id), op, id)
  {
    assert (log + [op])[..|log + [op]| - 1] == log;
    RunHasUniqueIds(log);
    ApplyIsRowStep(Run(log), op, id);
  }
}
