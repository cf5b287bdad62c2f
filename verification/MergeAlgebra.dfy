// The upsert of Save as an algebra: a left-regular band up to the NULL/empty blob distinction,
// so that replaying history (WhatsApp delivers events again after a reconnect) is harmless.
module MergeAlgebra {
  import opened Sequences
  import opened Messages
  import opened Store

  predicate SameCell(c: Cell, d: Cell) {
    c == d || (Blank(c) && Blank(d))
  }

  // Equal rows, except that an empty blob may stand for NULL.
  ghost predicate Same(a: StoredMessage, b: StoredMessage) {
    && a.id == b.id && a.jid == b.jid && a.fromMe == b.fromMe && a.text == b.text
    && a.timestamp == b.timestamp && a.receipt == b.receipt && a.isRead == b.isRead
    && forall f: Sticky :: SameCell(Get(a, f), Get(b, f))
  }

  lemma SamePlainCells(a: StoredMessage, b: StoredMessage)
    requires forall f: Sticky :: SameCell(Get(a, f), Get(b, f))
    ensures a.senderJid == b.senderJid && a.senderName == b.senderName && a.isGroup == b.isGroup
    ensures a.hasMedia == b.hasMedia && a.mediaType == b.mediaType && a.mediaMime == b.mediaMime
    ensures a.mediaSize == b.mediaSize && a.localPath == b.localPath && a.directPath == b.directPath
    ensures a.mediaUrl == b.mediaUrl && a.urlPreview == b.urlPreview
  {
    assert SameCell(Get(a, SenderJid), Get(b, SenderJid)) && SameCell(Get(a, SenderName), Get(b, SenderName));
    assert SameCell(Get(a, IsGroup), Get(b, IsGroup)) && SameCell(Get(a, HasMedia), Get(b, HasMedia));
    assert SameCell(Get(a, MediaType), Get(b, MediaType)) && SameCell(Get(a, MediaMime), Get(b, MediaMime));
    assert SameCell(Get(a, MediaSize), Get(b, MediaSize)) && SameCell(Get(a, LocalPath), Get(b, LocalPath));
    assert SameCell(Get(a, DirectPath), Get(b, DirectPath)) && SameCell(Get(a, MediaUrl), Get(b, MediaUrl));
    assert SameCell(Get(a, UrlPreview), Get(b, UrlPreview));
  }

  lemma SameMeansEqualButForBlobs(a: StoredMessage, b: StoredMessage)
    ensures Same(a, b) <==>
      && a == b.(mediaKey := a.mediaKey, fileEncSha256 := a.fileEncSha256, fileSha256 := a.fileSha256)
      && (a.mediaKey == b.mediaKey || (EmptyBlob(a.mediaKey) && EmptyBlob(b.mediaKey)))
      && (a.fileEncSha256 == b.fileEncSha256 || (EmptyBlob(a.fileEncSha256) && EmptyBlob(b.fileEncSha256)))
      && (a.fileSha256 == b.fileSha256 || (EmptyBlob(a.fileSha256) && EmptyBlob(b.fileSha256)))
  {
    if Same(a, b) {
      SamePlainCells(a, b);
      assert SameCell(Get(a, MediaKey), Get(b, MediaKey));
      assert SameCell(Get(a, FileEncSha256), Get(b, FileEncSha256)) && SameCell(Get(a, FileSha256), Get(b, FileSha256));
    }
  }

  lemma MergeIsABand(x: StoredMessage, y: StoredMessage, z: StoredMessage)
    requires x.id == y.id
    ensures Merge(Merge(x, y), z) == Merge(x, Merge(y, z))
    ensures Merge(x, x) == x
    ensures Same(Merge(Merge(x, y), x), Merge(y, x))
  {
    MergeCells(x, y);
    MergeCells(y, x);
    MergeCells(Merge(x, y), x);
  }

  // The NULL/empty distinction is real: without it x.y.x = y.x fails.
  lemma BlobsKeepTheLawFromBeingExact(x: StoredMessage, y: StoredMessage)
    requires x.id == y.id
    ensures Merge(Merge(x, y), x) == Merge(y, x) <==>
      && (EmptyBlob(x.mediaKey) && EmptyBlob(y.mediaKey) ==> x.mediaKey == y.mediaKey)
      && (EmptyBlob(x.fileEncSha256) && EmptyBlob(y.fileEncSha256) ==> x.fileEncSha256 == y.fileEncSha256)
      && (EmptyBlob(x.fileSha256) && EmptyBlob(y.fileSha256) ==> x.fileSha256 == y.fileSha256)
  {
  }

  // Saved as NULL, empty, NULL the key stays NULL; saved as empty, NULL it stays empty.
  lemma NullAndEmptyBlobBreakTheLaw() returns (x: StoredMessage, y: StoredMessage)
    ensures x.id == y.id && x.mediaKey == Null && y.mediaKey == Bytes([]) && y == x.(mediaKey := y.mediaKey)
    ensures Merge(Merge(x, y), x).mediaKey == Null && Merge(y, x).mediaKey == Bytes([])
  {
    x := EmptyMessage("", "", 0);
    y := x.(mediaKey := Bytes([]));
  }

  // ---- Whole logs ----

  ghost predicate SameRow(a: Option<StoredMessage>, b: Option<StoredMessage>) {
    a.Some? == b.Some? && (a.Some? ==> Same(a.value, b.value))
  }

  // u and v agree wherever a later x leaves the stored value alone.
  ghost predicate Covered(u: StoredMessage, v: StoredMessage, x: StoredMessage) {
    && u.id == v.id
    && Max(u.receipt, x.receipt) == Max(v.receipt, x.receipt)
    && (u.isRead || x.isRead) == (v.isRead || x.isRead)
    && forall f: Sticky :: Blank(Get(x, f)) ==> SameCell(Get(u, f), Get(v, f))
  }

  // x hides everything that u holds.
  ghost predicate Hidden(u: StoredMessage, x: StoredMessage) {
    && u.id == x.id && u.receipt <= x.receipt && (u.isRead ==> x.isRead)
    && forall f: Sticky :: Blank(Get(x, f)) ==> Blank(Get(u, f))
  }

  ghost predicate Redundant(a: Option<StoredMessage>, b: Option<StoredMessage>, x: StoredMessage) {
    a.Some? && if b.None? then Hidden(a.value, x) else Covered(a.value, b.value, x)
  }

  lemma RedundantStep(a: Option<StoredMessage>, b: Option<StoredMessage>, x: StoredMessage, y: StoredMessage)
    requires Redundant(a, b, x)
    ensures Redundant(RowStep(a, Save(y), x.id), RowStep(b, Save(y), x.id), x)
  {
    var y' := FillPreview(y);
    MergeCells(a.value, y');
    if b.Some? {
      MergeCells(b.value, y');
    }
  }

  lemma RedundantThenRepeated(a: Option<StoredMessage>, b: Option<StoredMessage>, msg: StoredMessage)
    requires Redundant(a, b, FillPreview(msg))
    ensures SameRow(RowStep(a, Save(msg), msg.id), RowStep(b, Save(msg), msg.id))
  {
    var x := FillPreview(msg);
    MergeCells(a.value, x);
    if b.Some? {
      MergeCells(b.value, x);
    }
  }

  lemma TouchChangesOnlyThePath(op: Op, a: StoredMessage, f: Sticky)
    ensures Get(Touch(op, a), f) ==
      if f == LocalPath && op.UpdateLocalPath? && op.id == a.id then Text(op.path) else Get(a, f)
  {
  }

  lemma SameTouch(a: StoredMessage, b: StoredMessage, op: Op)
    requires Same(a, b)
    ensures Same(Touch(op, a), Touch(op, b))
  {
    forall f: Sticky ensures SameCell(Get(Touch(op, a), f), Get(Touch(op, b), f)) {
      assert SameCell(Get(a, f), Get(b, f));
      TouchChangesOnlyThePath(op, a, f);
      TouchChangesOnlyThePath(op, b, f);
    }
  }

  lemma SameRowStep(a: Option<StoredMessage>, b: Option<StoredMessage>, op: Op, id: string)
    requires SameRow(a, b)
    ensures SameRow(RowStep(a, op, id), RowStep(b, op, id))
  {
    if a.Some? {
      if op.Save? {
        MergeCells(a.value, FillPreview(op.msg));
        MergeCells(b.value, FillPreview(op.msg));
      } else {
        SameTouch(a.value, b.value, op);
      }
    }
  }

  lemma {:induction false} StillRedundant(before: seq<Op>, msg: StoredMessage, between: seq<Op>)
    requires forall k :: 0 <= k < |between| ==> between[k].Save?
    ensures Redundant(Lookup(Run(before + [Save(msg)] + between), msg.id),
                      Lookup(Run(before + between), msg.id), FillPreview(msg))
  {
    if between == [] {
      assert before + [Save(msg)] + between == before + [Save(msg)] && before + between == before;
      RedundantAtFirst(before, msg);
    } else {
      var init, last := between[..|between| - 1], between[|between| - 1];
      StillRedundant(before, msg, init);
      assert last == Save(last.msg);
      LastElementApart(before + [Save(msg)], between);
      LastElementApart(before, between);
      RedundantAfterOneMore(before + [Save(msg)] + init, before + init, FillPreview(msg), last.msg);
    }
  }

  lemma {:induction false} OtherRowsUntouched(before: seq<Op>, msg: StoredMessage, between: seq<Op>, id: string)
    requires id != msg.id
    ensures Lookup(Run(before + [Save(msg)] + between), id) == Lookup(Run(before + between), id)
  {
    if between == [] {
      assert before + [Save(msg)] + between == before + [Save(msg)] && before + between == before;
      RunOneMore(before, Save(msg), id);
    } else {
      var init, last := between[..|between| - 1], between[|between| - 1];
      OtherRowsUntouched(before, msg, init, id);
      LastElementApart(before + [Save(msg)], between);
      LastElementApart(before, between);
      EqualAfterOneMore(before + [Save(msg)] + init, before + init, last, id);
    }
  }

  lemma EqualAfterOneMore(a: seq<Op>, b: seq<Op>, op: Op, id: string)
    requires Lookup(Run(a), id) == Lookup(Run(b), id)
    ensures Lookup(Run(a + [op]), id) == Lookup(Run(b + [op]), id)
  {
    RunOneMore(a, op, id);
    RunOneMore(b, op, id);
  }

  lemma RedundantAfterOneMore(a: seq<Op>, b: seq<Op>, x: StoredMessage, y: StoredMessage)
    requires Redundant(Lookup(Run(a), x.id), Lookup(Run(b), x.id), x)
    ensures Redundant(Lookup(Run(a + [Save(y)]), x.id), Lookup(Run(b + [Save(y)]), x.id), x)
  {
    RunOneMore(a, Save(y), x.id);
    RunOneMore(b, Save(y), x.id);
    RedundantStep(Lookup(Run(a), x.id), Lookup(Run(b), x.id), x, y);
  }

  lemma RedundantAtFirst(before: seq<Op>, msg: StoredMessage)
    ensures Redundant(Lookup(Run(before + [Save(msg)]), msg.id), Lookup(Run(before), msg.id), FillPreview(msg))
  {
    RunOneMore(before, Save(msg), msg.id);
    var row := Lookup(Run(before), msg.id);
    if row.Some? {
      MergeCells(row.value, FillPreview(msg));
    }
  }

  lemma SameAfterOneMore(a: seq<Op>, b: seq<Op>, op: Op, id: string)
    requires SameRow(Lookup(Run(a), id), Lookup(Run(b), id))
    ensures SameRow(Lookup(Run(a + [op]), id), Lookup(Run(b + [op]), id))
  {
    RunOneMore(a, op, id);
    RunOneMore(b, op, id);
    SameRowStep(Lookup(Run(a), id), Lookup(Run(b), id), op, id);
  }

  lemma {:induction false} SameRowsStay(a: seq<Op>, b: seq<Op>, after: seq<Op>, id: string)
    requires SameRow(Lookup(Run(a), id), Lookup(Run(b), id))
    ensures SameRow(Lookup(Run(a + after), id), Lookup(Run(b + after), id))
  {
    if after == [] {
      assert a + after == a && b + after == b;
    } else {
      var init, last := after[..|after| - 1], after[|after| - 1];
      SameRowsStay(a, b, init, id);
      LastElementApart(a, after);
      LastElementApart(b, after);
      SameAfterOneMore(a + init, b + init, last, id);
    }
  }

  // A save that is repeated later, with only saves in between, may be deleted from any log.
  lemma RepeatedSaveIsRedundant(before: seq<Op>, msg: StoredMessage, between: seq<Op>, after: seq<Op>, id: string)
    requires forall k :: 0 <= k < |between| ==> between[k].Save?
    ensures SameRow(Lookup(Run(before + [Save(msg)] + between + [Save(msg)] + after), id),
                    Lookup(Run(before + between + [Save(msg)] + after), id))
  {
    var with, without := before + [Save(msg)] + between, before + between;
    RunOneMore(with, Save(msg), id);
    RunOneMore(without, Save(msg), id);
    if id == msg.id {
      StillRedundant(before, msg, between);
      RedundantThenRepeated(Lookup(Run(with), id), Lookup(Run(without), id), msg);
    } else {
      OtherRowsUntouched(before, msg, between, id);
    }
    SameRowsStay(with + [Save(msg)], without + [Save(msg)], after, id);
  }
}
