// What a stored row says about the log of operations that produced it. The predicates that
// make up Explains know nothing of upserts and updates: each reads the log by position.
module History {
  import opened Sequences
  import opened Messages
  import opened Store

  predicate SaveAt(log: seq<Op>, k: int, id: string) {
    0 <= k < |log| && log[k].Save? && log[k].msg.id == id
  }

  ghost function PreviewOf(m: StoredMessage): (p: string)
    ensures IsPreview(m, p)
  {
    FilledPreview(m);
    assert IsPreview(m, FillPreview(m).urlPreview);
    var p :| IsPreview(m, p);
    p
  }

  // The message of a save, with its preview.
  ghost function Saved(log: seq<Op>, k: int): StoredMessage
    requires 0 <= k < |log| && log[k].Save?
  {
    log[k].msg.(urlPreview := PreviewOf(log[k].msg))
  }

  lemma SavedIsFilled(m: StoredMessage)
    ensures FillPreview(m) == m.(urlPreview := PreviewOf(m))
  {
    FilledPreview(m);
  }

  ghost predicate StoredBefore(log: seq<Op>, n: int, id: string) {
    exists k :: k < n && SaveAt(log, k, id)
  }

  // k is the last save of id among the first n operations.
  ghost predicate LastSaveBefore(log: seq<Op>, n: int, k: int, id: string) {
    k < n && SaveAt(log, k, id) && forall j :: k < j < n ==> !SaveAt(log, j, id)
  }

  ghost predicate FirstSave(log: seq<Op>, k: int, id: string) {
    SaveAt(log, k, id) && forall j :: j < k ==> !SaveAt(log, j, id)
  }

  // jid, direction, text and timestamp come from the last save.
  ghost predicate OverwrittenByLastSave(log: seq<Op>, id: string, row: StoredMessage) {
    exists k :: LastSaveBefore(log, |log|, k, id)
      && row.jid == log[k].msg.jid && row.fromMe == log[k].msg.fromMe
      && row.text == log[k].msg.text && row.timestamp == log[k].msg.timestamp
  }

  ghost predicate NonBlankAt(log: seq<Op>, k: int, id: string, f: Sticky) {
    SaveAt(log, k, id) && !Blank(Get(Saved(log, k), f))
  }

  // Value of a sticky column: the last non-blank save, or what the first save left there.
  ghost predicate StickyValue(log: seq<Op>, id: string, f: Sticky, c: Cell) {
    || (exists k :: NonBlankAt(log, k, id, f) && c == Get(Saved(log, k), f)
         && forall j :: k < j ==> !NonBlankAt(log, j, id, f))
    || (exists k :: FirstSave(log, k, id) && c == Get(Saved(log, k), f)
         && forall j :: !NonBlankAt(log, j, id, f))
  }

  // Saves count for the receipt from any position, updates only once the row exists.
  ghost predicate ReceiptAt(log: seq<Op>, k: int, id: string, r: int) {
    || (SaveAt(log, k, id) && r == log[k].msg.receipt)
    || (0 <= k < |log| && log[k] == UpdateReceipt(id, r) && StoredBefore(log, k, id))
  }

  ghost predicate ReceiptIsMaximum(log: seq<Op>, id: string, row: StoredMessage) {
    && (exists k :: ReceiptAt(log, k, id, row.receipt))
    && forall k, r :: ReceiptAt(log, k, id, r) ==> r <= row.receipt
  }

  // A chat was marked as read while the row was an incoming row of that chat.
  ghost predicate MarkedAt(log: seq<Op>, k: int, id: string) {
    && 0 <= k < |log| && log[k].MarkJIDAsRead?
    && exists s :: LastSaveBefore(log, k, s, id) && log[s].msg.jid == log[k].jid && !log[s].msg.fromMe
  }

  ghost predicate ReadAt(log: seq<Op>, k: int, id: string) {
    (SaveAt(log, k, id) && log[k].msg.isRead) || MarkedAt(log, k, id)
  }

  ghost predicate ReadFlagExplained(log: seq<Op>, id: string, row: StoredMessage) {
    row.isRead <==> exists k :: ReadAt(log, k, id)
  }

  // local_path is also set outright, to "" as well, by a download of a stored row.
  ghost predicate PathAt(log: seq<Op>, k: int, id: string, p: string) {
    || (SaveAt(log, k, id) && p == log[k].msg.localPath && p != "")
    || (0 <= k < |log| && log[k] == UpdateLocalPath(id, p) && StoredBefore(log, k, id))
  }

  ghost predicate LocalPathExplained(log: seq<Op>, id: string, row: StoredMessage) {
    || (exists k :: PathAt(log, k, id, row.localPath) && forall j, p :: PathAt(log, j, id, p) ==> j <= k)
    || (row.localPath == "" && forall j, p :: !PathAt(log, j, id, p))
  }

  ghost predicate Explains(log: seq<Op>, id: string, row: StoredMessage) {
    && row.id == id
    && OverwrittenByLastSave(log, id, row)
    && (forall f: Sticky :: f != LocalPath ==> StickyValue(log, id, f, Get(row, f)))
    && ReceiptIsMaximum(log, id, row)
    && ReadFlagExplained(log, id, row)
    && LocalPathExplained(log, id, row)
  }

  // ---- One more operation ----

  lemma PrefixFacts(log: seq<Op>, op: Op, id: string)
    ensures forall k :: k != |log| ==> SaveAt(log + [op], k, id) == SaveAt(log, k, id)
    ensures SaveAt(log + [op], |log|, id) <==> op.Save? && op.msg.id == id
    ensures forall k :: k < |log| && SaveAt(log, k, id) ==> Saved(log + [op], k) == Saved(log, k)
    ensures forall n :: n <= |log| ==> StoredBefore(log + [op], n, id) == StoredBefore(log, n, id)
  {
  }

  lemma OverwriteStep(log: seq<Op>, op: Op, id: string, row: StoredMessage, next: StoredMessage)
    requires OverwrittenByLastSave(log, id, row)
    requires Some(next) == RowStep(Some(row), op, id)
    ensures OverwrittenByLastSave(log + [op], id, next)
  {
    PrefixFacts(log, op, id);
    var more := log + [op];
    if op.Save? && op.msg.id == id {
      assert LastSaveBefore(more, |more|, |log|, id);
    } else {
      var k :| LastSaveBefore(log, |log|, k, id)
        && row.jid == log[k].msg.jid && row.fromMe == log[k].msg.fromMe
        && row.text == log[k].msg.text && row.timestamp == log[k].msg.timestamp;
      assert LastSaveBefore(more, |more|, k, id);
    }
  }

  lemma NonBlankPrefix(log: seq<Op>, op: Op, id: string, f: Sticky)
    ensures forall k :: k != |log| ==> NonBlankAt(log + [op], k, id, f) == NonBlankAt(log, k, id, f)
  {
  }

  // The value survives operations that bring no non-blank save.
  lemma StickyValueStays(log: seq<Op>, op: Op, id: string, f: Sticky, c: Cell)
    requires StickyValue(log, id, f, c) && !NonBlankAt(log + [op], |log|, id, f)
    ensures StickyValue(log + [op], id, f, c)
  {
    PrefixFacts(log, op, id);
    NonBlankPrefix(log, op, id, f);
    var more := log + [op];
    if k :| NonBlankAt(log, k, id, f) && c == Get(Saved(log, k), f)
              && forall j :: k < j ==> !NonBlankAt(log, j, id, f) {
      assert NonBlankAt(more, k, id, f) && c == Get(Saved(more, k), f);
    } else {
      var k :| FirstSave(log, k, id) && c == Get(Saved(log, k), f);
      assert FirstSave(more, k, id);
    }
  }

  lemma StickyCellStep(log: seq<Op>, op: Op, id: string, f: Sticky, c: Cell)
    requires StickyValue(log, id, f, c)
    ensures StickyValue(log + [op], id, f,
      if NonBlankAt(log + [op], |log|, id, f) then Get(FillPreview(op.msg), f) else c)
  {
    if NonBlankAt(log + [op], |log|, id, f) {
      SavedIsFilled(op.msg);
      assert Saved(log + [op], |log|) == FillPreview(op.msg);
    } else {
      StickyValueStays(log, op, id, f, c);
    }
  }

  lemma CellAfterRowStep(log: seq<Op>, op: Op, id: string, f: Sticky, row: StoredMessage, next: StoredMessage)
    requires f != LocalPath && Some(next) == RowStep(Some(row), op, id)
    ensures Get(next, f) == if NonBlankAt(log + [op], |log|, id, f) then Get(FillPreview(op.msg), f) else Get(row, f)
  {
    if op.Save? {
      SavedIsFilled(op.msg);
      MergeCells(row, FillPreview(op.msg));
    }
  }

  lemma StickyStep(log: seq<Op>, op: Op, id: string, f: Sticky, row: StoredMessage, next: StoredMessage)
    requires f != LocalPath && StickyValue(log, id, f, Get(row, f))
    requires Some(next) == RowStep(Some(row), op, id)
    ensures StickyValue(log + [op], id, f, Get(next, f))
  {
    StickyCellStep(log, op, id, f, Get(row, f));
    CellAfterRowStep(log, op, id, f, row, next);
  }

  lemma ReceiptPrefix(log: seq<Op>, op: Op, id: string)
    ensures forall k, r :: k != |log| ==> ReceiptAt(log + [op], k, id, r) == ReceiptAt(log, k, id, r)
    ensures StoredBefore(log, |log|, id) ==> forall r ::
      ReceiptAt(log + [op], |log|, id, r) <==>
        op == UpdateReceipt(id, r) || (op.Save? && op.msg.id == id && op.msg.receipt == r)
  {
    PrefixFacts(log, op, id);
    assert (log + [op])[|log|] == op;
  }

  lemma ReceiptStep(log: seq<Op>, op: Op, id: string, row: StoredMessage, next: StoredMessage)
    requires row.id == id && ReceiptIsMaximum(log, id, row) && StoredBefore(log, |log|, id)
    requires Some(next) == RowStep(Some(row), op, id)
    ensures ReceiptIsMaximum(log + [op], id, next)
  {
    ReceiptPrefix(log, op, id);
    var k :| ReceiptAt(log, k, id, row.receipt);
    assert ReceiptAt(log + [op], k, id, row.receipt);
    if op.Save? && op.msg.id == id {
      assert ReceiptAt(log + [op], |log|, id, op.msg.receipt);
    } else if op.UpdateReceipt? && op.id == id {
      assert ReceiptAt(log + [op], |log|, id, op.receipt);
    }
  }

  lemma ReadStep(log: seq<Op>, op: Op, id: string, row: StoredMessage, next: StoredMessage)
    requires row.id == id && ReadFlagExplained(log, id, row) && OverwrittenByLastSave(log, id, row)
    requires Some(next) == RowStep(Some(row), op, id)
    ensures ReadFlagExplained(log + [op], id, next)
  {
    PrefixFacts(log, op, id);
    var more := log + [op];
    assert forall n, k :: n <= |log| ==> LastSaveBefore(more, n, k, id) == LastSaveBefore(log, n, k, id);
    forall k | k != |log| ensures ReadAt(more, k, id) == ReadAt(log, k, id) {
      if 0 <= k < |log| {
        assert MarkedAt(more, k, id) == MarkedAt(log, k, id);
      }
    }
    var s :| LastSaveBefore(log, |log|, s, id)
      && row.jid == log[s].msg.jid && row.fromMe == log[s].msg.fromMe;
    if op.MarkJIDAsRead? {
      assert LastSaveBefore(more, |log|, s, id) && more[s] == log[s];
      if row.jid == op.jid && !row.fromMe {
        assert MarkedAt(more, |log|, id);
        assert ReadAt(more, |log|, id);
      } else {
        assert forall s' :: LastSaveBefore(more, |log|, s', id) ==> s' == s;
        assert !MarkedAt(more, |log|, id);
      }
    } else {
      assert !MarkedAt(more, |log|, id);
      if op.Save? && op.msg.id == id && op.msg.isRead {
        assert ReadAt(more, |log|, id);
      }
    }
    if row.isRead {
      var k :| ReadAt(log, k, id);
      assert ReadAt(more, k, id);
    }
  }

  lemma PathStep(log: seq<Op>, op: Op, id: string, row: StoredMessage, next: StoredMessage)
    requires row.id == id && LocalPathExplained(log, id, row) && StoredBefore(log, |log|, id)
    requires Some(next) == RowStep(Some(row), op, id)
    ensures LocalPathExplained(log + [op], id, next)
  {
    PrefixFacts(log, op, id);
    var more := log + [op];
    assert forall k, p :: k != |log| ==> PathAt(more, k, id, p) == PathAt(log, k, id, p);
    assert forall k, p :: PathAt(more, k, id, p) ==> k <= |log|;
    assert op.UpdateLocalPath? && op.id == id ==> PathAt(more, |log|, id, op.path);
    assert op.Save? && op.msg.id == id && op.msg.localPath != "" ==> PathAt(more, |log|, id, op.msg.localPath);
    if p :| PathAt(more, |log|, id, p) {
      assert next.localPath == p;
    } else {
      assert next.localPath == row.localPath;
      if k :| PathAt(log, k, id, row.localPath) && forall j, p :: PathAt(log, j, id, p) ==> j <= k {
        assert PathAt(more, k, id, next.localPath);
      }
    }
  }

  lemma FirstSaveExplained(log: seq<Op>, msg: StoredMessage)
    requires !StoredBefore(log, |log|, msg.id)
    ensures Explains(log + [Save(msg)], msg.id, FillPreview(msg))
  {
    var id, row, n := msg.id, FillPreview(msg), |log|;
    var more := log + [Save(msg)];
    PrefixFacts(log, Save(msg), id);
    SavedIsFilled(msg);
    assert Saved(more, n) == row;
    assert forall k :: SaveAt(more, k, id) <==> k == n;
    assert LastSaveBefore(more, |more|, n, id);
    assert FirstSave(more, n, id);
    forall f: Sticky | f != LocalPath ensures StickyValue(more, id, f, Get(row, f)) {
      if !Blank(Get(row, f)) {
        assert NonBlankAt(more, n, id, f);
      }
    }
    assert ReceiptAt(more, n, id, row.receipt);
    if row.isRead {
      assert ReadAt(more, n, id);
    }
    if row.localPath != "" {
      assert PathAt(more, n, id, row.localPath);
    }
  }

  lemma ExplainsStep(log: seq<Op>, op: Op, id: string, row: StoredMessage, next: StoredMessage)
    requires Explains(log, id, row) && StoredBefore(log, |log|, id) && Some(next) == RowStep(Some(row), op, id)
    ensures Explains(log + [op], id, next)
  {
    OverwriteStep(log, op, id, row, next);
    forall f: Sticky | f != LocalPath ensures StickyValue(log + [op], id, f, Get(next, f)) {
      StickyStep(log, op, id, f, row, next);
    }
    ReceiptStep(log, op, id, row, next);
    ReadStep(log, op, id, row, next);
    PathStep(log, op, id, row, next);
  }

  // Every run: a row exists exactly when its id was saved, and it is the one the log explains.
  lemma {:induction false} HistoryRefinement(log: seq<Op>, id: string)
    ensures Lookup(Run(log), id).Some? <==> StoredBefore(log, |log|, id)
    ensures Lookup(Run(log), id).Some? ==> Explains(log, id, Lookup(Run(log), id).value)
  {
    if log != [] {
      var before, op := log[..|log| - 1], log[|log| - 1];
      assert log == before + [op];
      HistoryRefinement(before, id);
      RunHasUniqueIds(before);
      ApplyIsRowStep(Run(before), op, id);
      PrefixFacts(before, op, id);
      var was, now := Lookup(Run(before), id), Lookup(Run(log), id);
      assert now == RowStep(was, op, id);
      if was.Some? {
        var k :| k < |before| && SaveAt(before, k, id);
        assert SaveAt(log, k, id);
        ExplainsStep(before, op, id, was.value, now.value);
      } else if op.Save? && op.msg.id == id {
        FirstSaveExplained(before, op.msg);
        assert SaveAt(log, |before|, id);
      }
    }
  }

  // A save of id has the preview p.
  ghost predicate PreviewAt(log: seq<Op>, k: int, id: string, p: string) {
    SaveAt(log, k, id) && IsPreview(log[k].msg, p)
  }

  ghost predicate PreviewExplained(log: seq<Op>, id: string, p: string) {
    if p == "" then forall k, q :: PreviewAt(log, k, id, q) ==> q == ""
    else exists k :: PreviewAt(log, k, id, p) && forall j, q :: k < j && PreviewAt(log, j, id, q) ==> q == ""
  }

  lemma PreviewCell(log: seq<Op>, k: int, id: string, q: string)
    requires SaveAt(log, k, id)
    ensures PreviewAt(log, k, id, q) <==> Get(Saved(log, k), UrlPreview) == Text(q)
    ensures NonBlankAt(log, k, id, UrlPreview) <==> !PreviewAt(log, k, id, "")
  {
    FilledPreview(log[k].msg);
    assert Get(Saved(log, k), UrlPreview) == Text(PreviewOf(log[k].msg));
  }

  lemma StickyPreview(log: seq<Op>, id: string, p: string)
    requires StickyValue(log, id, UrlPreview, Text(p))
    ensures PreviewExplained(log, id, p)
  {
    forall j, q | PreviewAt(log, j, id, q) && !NonBlankAt(log, j, id, UrlPreview) ensures q == "" {
      PreviewCell(log, j, id, q);
      PreviewCell(log, j, id, "");
    }
    if k :| NonBlankAt(log, k, id, UrlPreview) && Text(p) == Get(Saved(log, k), UrlPreview)
              && forall j :: k < j ==> !NonBlankAt(log, j, id, UrlPreview) {
      PreviewCell(log, k, id, p);
    } else {
      var k :| FirstSave(log, k, id) && Text(p) == Get(Saved(log, k), UrlPreview)
                 && forall j :: !NonBlankAt(log, j, id, UrlPreview);
      PreviewCell(log, k, id, p);
    }
  }

  // After every log url_preview is that of the last save which brought one along or has a URL
  // in its text, and empty when there is none.
  lemma PreviewIsReadOffTheLog(log: seq<Op>, id: string)
    requires Lookup(Run(log), id).Some?
    ensures PreviewExplained(log, id, Lookup(Run(log), id).value.urlPreview)
  {
    HistoryRefinement(log, id);
    var row := Lookup(Run(log), id).value;
    assert StickyValue(log, id, UrlPreview, Get(row, UrlPreview));
    StickyPreview(log, id, row.urlPreview);
  }

  // The explanation leaves no freedom: a log explains at most one row per id.
  lemma ExplainedRowIsUnique(log: seq<Op>, id: string, a: StoredMessage, b: StoredMessage)
    requires Explains(log, id, a) && Explains(log, id, b)
    ensures a == b
  {
    forall f: Sticky ensures Get(a, f) == Get(b, f) {
      if f == LocalPath {
      } else {
      }
    }
    SameCellsSameRow(a, b);
  }

  lemma SameCellsSameRow(a: StoredMessage, b: StoredMessage)
    requires forall f: Sticky :: Get(a, f) == Get(b, f)
    requires a.id == b.id && a.jid == b.jid && a.fromMe == b.fromMe && a.text == b.text
    requires a.timestamp == b.timestamp && a.receipt == b.receipt && a.isRead == b.isRead
    ensures a == b
  {
    SameTextCells(a, b);
    assert Get(a, IsGroup) == Get(b, IsGroup) && Get(a, HasMedia) == Get(b, HasMedia);
    assert Get(a, MediaSize) == Get(b, MediaSize) && Get(a, MediaKey) == Get(b, MediaKey);
    assert Get(a, FileEncSha256) == Get(b, FileEncSha256) && Get(a, FileSha256) == Get(b, FileSha256);
  }

  lemma SameTextCells(a: StoredMessage, b: StoredMessage)
    requires forall f: Sticky :: Get(a, f) == Get(b, f)
    ensures a.senderJid == b.senderJid && a.senderName == b.senderName && a.mediaType == b.mediaType
    ensures a.mediaMime == b.mediaMime && a.directPath == b.directPath && a.mediaUrl == b.mediaUrl
    ensures a.urlPreview == b.urlPreview && a.localPath == b.localPath
  {
    assert Get(a, SenderJid) == Get(b, SenderJid) && Get(a, SenderName) == Get(b, SenderName);
    assert Get(a, MediaType) == Get(b, MediaType) && Get(a, MediaMime) == Get(b, MediaMime);
    assert Get(a, DirectPath) == Get(b, DirectPath) && Get(a, MediaUrl) == Get(b, MediaUrl);
    assert Get(a, UrlPreview) == Get(b, UrlPreview) && Get(a, LocalPath) == Get(b, LocalPath);
  }

  ghost predicate RowKeptWithReceipt(t: Table, u: Table, id: string) {
    Lookup(t, id).Some? ==> Lookup(u, id).Some? && Lookup(t, id).value.receipt <= Lookup(u, id).value.receipt
  }

  lemma ReceiptKeptByOneOperation(log: seq<Op>, op: Op, id: string)
    ensures RowKeptWithReceipt(Run(log), Run(log + [op]), id)
  {
    RunOneMore(log, op, id);
  }

  // Receipts of a row only grow, whatever happens to the table, and rows stay.
  lemma {:induction false} ReceiptsNeverDecrease(log: seq<Op>, more: seq<Op>, id: string)
    ensures RowKeptWithReceipt(Run(log), Run(log + more), id)
  {
    if more == [] {
      assert log + more == log;
    } else {
      var init := log + more[..|more| - 1];
      assert log + more == init + [more[|more| - 1]];
      ReceiptsNeverDecrease(log, more[..|more| - 1], id);
      ReceiptKeptByOneOperation(init, more[|more| - 1], id);
    }
  }
}
