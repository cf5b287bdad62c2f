// Stored rows of daemon/storage/messages.go and the field-by-field upsert of Save.
module Messages {
  import opened Sequences
  import FirstUrl

  type byte = bv8

  // A nil Go slice is bound as NULL, an empty one as a zero-length blob.
  datatype Blob = Null | Bytes(bytes: seq<byte>)

  datatype StoredMessage = StoredMessage(
    id: string,
    jid: string,
    fromMe: bool,
    text: string,
    timestamp: int,
    senderJid: string,
    senderName: string,
    isGroup: bool,
    receipt: int,
    hasMedia: bool,
    mediaType: string,
    mediaMime: string,
    mediaSize: int,
    localPath: string,
    mediaKey: Blob,
    directPath: string,
    mediaUrl: string,
    fileEncSha256: Blob,
    fileSha256: Blob,
    isRead: bool,
    urlPreview: string)

  // Columns that a later save overwrites only with a non-blank value.
  datatype Sticky =
    | SenderJid | SenderName | IsGroup | HasMedia | MediaType | MediaMime | MediaSize | LocalPath
    | MediaKey | DirectPath | MediaUrl | FileEncSha256 | FileSha256 | UrlPreview

  datatype Cell = Text(s: string) | Number(n: int) | Flag(b: bool) | Data(blob: Blob)

  function Get(m: StoredMessage, f: Sticky): Cell {
    match f
    case SenderJid => Text(m.senderJid)
    case SenderName => Text(m.senderName)
    case IsGroup => Flag(m.isGroup)
    case HasMedia => Flag(m.hasMedia)
    case MediaType => Text(m.mediaType)
    case MediaMime => Text(m.mediaMime)
    case MediaSize => Number(m.mediaSize)
    case LocalPath => Text(m.localPath)
    case MediaKey => Data(m.mediaKey)
    case DirectPath => Text(m.directPath)
    case MediaUrl => Text(m.mediaUrl)
    case FileEncSha256 => Data(m.fileEncSha256)
    case FileSha256 => Data(m.fileSha256)
    case UrlPreview => Text(m.urlPreview)
  }

  predicate Blank(c: Cell) {
    match c
    case Text(s) => s == ""
    case Number(n) => n == 0
    case Flag(b) => !b
    case Data(blob) => blob.Null? || blob.bytes == []
  }

  predicate EmptyBlob(b: Blob) {
    b.Null? || b.bytes == []
  }

  function KeepBlob(excluded: Blob, stored: Blob): Blob {
    if !EmptyBlob(excluded) then excluded else stored
  }

  // Save fills a missing preview from the text before it writes.
  function FillPreview(m: StoredMessage): StoredMessage {
    if m.urlPreview == "" then m.(urlPreview := FirstUrl.ExtractFirstURL(m.text)) else m
  }

  // The preview given, or else the first URL of the text as FirstUrl describes it.
  ghost predicate IsPreview(m: StoredMessage, p: string) {
    if m.urlPreview != "" then p == m.urlPreview else FirstUrl.IsFirstURLOf(m.text, p)
  }

  // Filling the preview changes no other column.
  lemma FilledPreview(m: StoredMessage)
    ensures FillPreview(m) == m.(urlPreview := FillPreview(m).urlPreview)
    ensures forall p :: p == FillPreview(m).urlPreview <==> IsPreview(m, p)
  {
    FirstUrl.ExtractFirstURLInLiterals(m.text);
  }

  // The SET list of the upsert: `excluded` is the row that met the conflict.
  function Merge(stored: StoredMessage, excluded: StoredMessage): StoredMessage {
    StoredMessage(
      stored.id,
      excluded.jid,
      excluded.fromMe,
      excluded.text,
      excluded.timestamp,
      OrElse(excluded.senderJid, stored.senderJid),
      OrElse(excluded.senderName, stored.senderName),
      if excluded.isGroup then true else stored.isGroup,
      if excluded.receipt > stored.receipt then excluded.receipt else stored.receipt,
      if excluded.hasMedia then true else stored.hasMedia,
      OrElse(excluded.mediaType, stored.mediaType),
      OrElse(excluded.mediaMime, stored.mediaMime),
      if excluded.mediaSize != 0 then excluded.mediaSize else stored.mediaSize,
      OrElse(excluded.localPath, stored.localPath),
      KeepBlob(excluded.mediaKey, stored.mediaKey),
      OrElse(excluded.directPath, stored.directPath),
      OrElse(excluded.mediaUrl, stored.mediaUrl),
      KeepBlob(excluded.fileEncSha256, stored.fileEncSha256),
      KeepBlob(excluded.fileSha256, stored.fileSha256),
      if excluded.isRead then true else stored.isRead,
      OrElse(excluded.urlPreview, stored.urlPreview))
  }

  // A sticky column keeps its value when the new one is blank.
  lemma MergeCells(stored: StoredMessage, excluded: StoredMessage)
    ensures forall f: Sticky ::
      Get(Merge(stored, excluded), f) == if Blank(Get(excluded, f)) then Get(stored, f) else Get(excluded, f)
  {
  }

  // An incoming unread message with nothing in it.
  function EmptyMessage(id: string, jid: string, timestamp: int): StoredMessage {
    StoredMessage(id, jid, false, "", timestamp, jid, "", false, 0, false, "", "", 0, "", Null, "", "", Null, Null,
                  false, "")
  }

}
