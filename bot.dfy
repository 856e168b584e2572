/**
 The `message` handler of the bot: the gates every message passes, the
 dispatch to one command family, and what each family answers and changes.

 `Step` is the specification: the router's state before a message, the
 message and the outside facts in, the new state and the effects issued out.
 The `Router` class holds the same state in fields and `HandleMessage`
 updates them in place; its contract ties it to `Step`.
 */
module Bot {

  import opened Wrappers
  import opened Text
  import opened Jid
  import opened Access
  import opened Blacklist
  import opened Links
  import opened Commands
  import opened Settings
  import opened Sticker
  import opened Archive

  const StatusBroadcast: string := "status@broadcast"

  /** An incoming message: `id._serialized || id`, `from`, `author` ("" when absent), `body || ''`. */
  datatype Message = Message(id: string, from: string, author: string, body: string, hasQuotedMsg: bool)

  /** `msg.author || msg.from`: the member who wrote, or the chat in a one-to-one conversation. */
  function Sender(m: Message): (r: string)
    ensures m.author != "" ==> r == m.author
    ensures m.author == "" ==> r == m.from
  {
    if m.author != "" then m.author else m.from
  }

  /** The quoted message: its text, whether it has media, its type, and its contact's name fields. */
  datatype Quoted = Quoted(body: string, hasMedia: bool, kind: string, contact: Option<(string, string, string)>)

  /** How `downloadMedia` on a quoted photo ends. */
  datatype MediaResult = MediaThrows(error: string) | MediaMissing | MediaFetched

  /**
   What the outside world answers while one message is handled: the date, the
   directories on disk, the archive writer, the downloaded file's size (`None`
   for a null path), the transport's `sendMessage`, the quoted message, the
   image codec, and the group chat.
   */
  datatype Facts = Facts(
    today: string,
    existingDirs: set<string>,
    archiveError: Option<string>,
    download: Option<nat>,
    sendError: Option<string>,
    quoted: Quoted,
    renderError: Option<string>,
    media: MediaResult,
    convertError: Option<string>,
    isGroup: bool,
    senderIsGroupAdmin: bool,
    groupError: Option<string>)

  /** The replies the bot sends, one constructor per message text. */
  datatype Notice =
    | BackupDenied
    | BackupStarted
    | BackupDone(path: string)
    | BackupFailed(error: string)
    | Downloading
    | TooLarge(sizeBytes: nat, maxMB: int)
    | DownloadFailed(platform: string)
    | DownloadError(error: string)
    | QuoteText
    | QuotedTextMissing
    | TextStickerFailed(error: string)
    | QuotePhoto
    | PhotoDownloadFailed
    | WebpFailed(error: string)
    | StickerFailed(error: string)
    | AdminsOnly
    | BlacklistUsage
    | Blacklisted(jid: string)
    | AlreadyBlacklisted(jid: string)
    | MaxSizeUsage
    | MaxSizeInvalid
    | MaxSizeSet(mb: int)
    | UnblacklistUsage
    | Unblacklisted(jid: string)
    | NotBlacklisted(jid: string)
    | GroupOnly
    | KickUsage
    | KickInvalidNumber
    | GroupAdminsOnly
    | Kicked(phone: string)
    | KickFailed(error: string)
    | Locked
    | LockFailed(error: string)
    | Unlocked
    | UnlockFailed(error: string)

  /** The calls the handler issues, in order. A call that fails is still issued; its failure shows in the next reply. */
  datatype Effect =
    | Reply(notice: Notice)
    | WriteArchive(path: string, sources: seq<Source>)
    | Fetch(url: string, platform: string, maxMB: int)
    | SendVideo(chat: string)
    | RemoveTempFile
    | SendTextSticker(chat: string, lines: seq<string>, nameLines: seq<string>)
    | SendImageSticker(chat: string)
    | SaveBlacklist(entries: seq<string>)
    | SaveSettings(maxFileSizeMB: int)
    | RemoveParticipant(jid: string)
    | SetAdminsOnly(on: bool)

  /** What the handler remembers between messages. */
  datatype RouterState = RouterState(blacklist: seq<string>, processed: set<string>, maxFileSizeMB: int, admins: set<string>)

  /** The state after start-up: settings loaded, blacklist loaded, admins loaded, nothing processed. */
  function Initial(doc: SettingsDoc, stored: Stored, ownerEnv: string, adminsEnv: string): (st: RouterState)
    ensures NoDuplicates(st.blacklist) && st.processed == {}
  {
    RouterState(Load(stored), {}, LoadedMax(doc), AdminSet(SettingsAdmins(doc), adminsEnv, ownerEnv))
  }

  /** `messageText.trim().toLowerCase()`, the text the aliases are tested against. */
  function CommandText(body: string): (r: string)
    ensures |r| == |Trim(body)|
    ensures Trimmed(r)
    ensures forall k :: 0 <= k < |r| ==> !('A' <= r[k] <= 'Z')
  {
    ToLower(Trim(body))
  }

  /** The backup command: admins only; a start reply, the archive, then its path or the error. */
  function BackupEffects(admins: set<string>, m: Message, f: Facts): (r: seq<Effect>)
    ensures |r| >= 1 && r[0].Reply? && r[|r| - 1].Reply?
    ensures IsAdmin(admins, Sender(m)) ==> |r| == 3 && r[1] == WriteArchive(ArchivePath(f.today), Included(f.existingDirs))
    ensures !IsAdmin(admins, Sender(m)) ==> forall e :: e in r ==> e.Reply?
  {
    if !IsAdmin(admins, Sender(m)) then [Reply(BackupDenied)]
    else
      var path := ArchivePath(f.today);
      [Reply(BackupStarted), WriteArchive(path, Included(f.existingDirs))]
      + match f.archiveError
        case Some(e) => [Reply(BackupFailed(e))]
        case None => [Reply(BackupDone(path))]
  }

  /** A detected link: download, then admit the file by size, send it and remove it. */
  function VideoEffects(d: Detection, maxMB: int, chat: string, f: Facts): (r: seq<Effect>)
    ensures |r| >= 3 && r[..2] == [Reply(Downloading), Fetch(d.url, d.platform, maxMB)]
    ensures SendVideo(chat) in r <==> f.download.Some? && !Oversize(f.download.value, maxMB)
    ensures RemoveTempFile in r <==> f.download.Some? && (Oversize(f.download.value, maxMB) || f.sendError.None?)
  {
    [Reply(Downloading), Fetch(d.url, d.platform, maxMB)]
    + match f.download
      case None => [Reply(DownloadFailed(d.platform))]
      case Some(size) =>
        if Oversize(size, maxMB) then [Reply(TooLarge(size, maxMB)), RemoveTempFile]
        else
          match f.sendError
          case None => [SendVideo(chat), RemoveTempFile]
          case Some(e) => [SendVideo(chat), Reply(DownloadError(e))]
  }

  /** The quoted-text sticker. */
  function TextStickerEffects(m: Message, f: Facts): (r: seq<Effect>)
    ensures 1 <= |r| <= 2 && forall i :: 1 <= i < |r| ==> r[i].Reply?
    ensures r[0].SendTextSticker? <==> m.hasQuotedMsg && f.quoted.body != "" && f.renderError.None?
    ensures r[0].SendTextSticker? ==> r[0].chat == m.from && r[0].lines != []
  {
    if !m.hasQuotedMsg then [Reply(QuoteText)]
    else if f.quoted.body == "" then [Reply(QuotedTextMissing)]
    else
      match f.renderError
      case Some(e) => [Reply(TextStickerFailed(e))]
      case None =>
        [SendTextSticker(m.from, StickerLines(f.quoted.body), WrapTextSpec(PushName(f.quoted.contact), NameWrapWidth))]
        + match f.sendError
          case Some(e) => [Reply(TextStickerFailed(e))]
          case None => []
  }

  /** The photo sticker: the quoted message must be an image with media. */
  function ImageStickerEffects(m: Message, f: Facts): (r: seq<Effect>)
    ensures 1 <= |r| <= 2 && forall i :: 1 <= i < |r| ==> r[i].Reply?
    ensures r[0].SendImageSticker? <==>
      m.hasQuotedMsg && f.quoted.hasMedia && f.quoted.kind == "image" && f.media.MediaFetched? && f.convertError.None?
    ensures r[0].SendImageSticker? ==> r[0].chat == m.from
  {
    if !m.hasQuotedMsg then [Reply(QuotePhoto)]
    else if !f.quoted.hasMedia || f.quoted.kind != "image" then [Reply(QuotePhoto)]
    else
      match f.media
      case MediaThrows(e) => [Reply(StickerFailed(e))]
      case MediaMissing => [Reply(PhotoDownloadFailed)]
      case MediaFetched =>
        match f.convertError
        case Some(e) => [Reply(WebpFailed(e))]
        case None =>
          [SendImageSticker(m.from)]
          + match f.sendError
            case Some(e) => [Reply(StickerFailed(e))]
            case None => []
  }

  /** The add command: admins only, an argument, then `push` and save unless already listed. */
  function AddStep(st: RouterState, m: Message): (r: (RouterState, seq<Effect>))
    ensures r.0.(blacklist := st.blacklist) == st
    ensures |r.1| >= 1 && r.1[|r.1| - 1].Reply?
    ensures r.0.blacklist != st.blacklist ==> IsAdmin(st.admins, Sender(m)) && r.1[0] == SaveBlacklist(r.0.blacklist)
  {
    if !IsAdmin(st.admins, Sender(m)) then (st, [Reply(AdminsOnly)])
    else
      match Argument(m.body)
      case None => (st, [Reply(BlacklistUsage)])
      case Some(a) =>
        var j := NormalizeOrKeep(a);
        var bl := AddEntry(st.blacklist, j);
        if j !in st.blacklist then (st.(blacklist := bl), [SaveBlacklist(bl), Reply(Blacklisted(j))])
        else (st, [Reply(AlreadyBlacklisted(j))])
  }

  /** The max-size command: admins only, then the argument checks, then the floor is stored and saved. */
  function MaxSizeStep(st: RouterState, m: Message): (r: (RouterState, seq<Effect>))
    ensures r.0.(maxFileSizeMB := st.maxFileSizeMB) == st
    ensures |r.1| >= 1 && r.1[|r.1| - 1].Reply?
    ensures r.0.maxFileSizeMB != st.maxFileSizeMB ==> IsAdmin(st.admins, Sender(m)) && r.1[0] == SaveSettings(r.0.maxFileSizeMB)
  {
    if !IsAdmin(st.admins, Sender(m)) then (st, [Reply(AdminsOnly)])
    else
      match ValidateMaxSize(Argument(m.body))
      case MissingArgument => (st, [Reply(MaxSizeUsage)])
      case NotPositive => (st, [Reply(MaxSizeInvalid)])
      case Accepted(mb) => (st.(maxFileSizeMB := mb), [SaveSettings(mb), Reply(MaxSizeSet(mb))])
  }

  /** The remove command: admins only, an argument, then `filter` and save when listed. */
  function RemoveStep(st: RouterState, m: Message): (r: (RouterState, seq<Effect>))
    ensures r.0.(blacklist := st.blacklist) == st
    ensures |r.1| >= 1 && r.1[|r.1| - 1].Reply?
    ensures r.0.blacklist != st.blacklist ==> IsAdmin(st.admins, Sender(m)) && r.1[0] == SaveBlacklist(r.0.blacklist)
  {
    if !IsAdmin(st.admins, Sender(m)) then (st, [Reply(AdminsOnly)])
    else
      match Argument(m.body)
      case None => (st, [Reply(UnblacklistUsage)])
      case Some(a) =>
        var j := NormalizeOrKeep(a);
        if j in st.blacklist then
          var bl := RemoveEntry(st.blacklist, j);
          (st.(blacklist := bl), [SaveBlacklist(bl), Reply(Unblacklisted(j))])
        else (st, [Reply(NotBlacklisted(j))])
  }

  /** Group admin or bot admin, as the group commands require. */
  predicate MayModerate(admins: set<string>, m: Message, f: Facts)
    ensures f.senderIsGroupAdmin ==> MayModerate(admins, m, f)
    ensures IsAdmin(admins, Sender(m)) ==> MayModerate(admins, m, f)
    ensures !f.senderIsGroupAdmin && !IsAdmin(admins, Sender(m)) ==> !MayModerate(admins, m, f)
  {
    f.senderIsGroupAdmin || IsAdmin(admins, Sender(m))
  }

  /** The kick command: group, argument, number, then authorization, in that order. */
  function KickEffects(admins: set<string>, m: Message, f: Facts): (r: seq<Effect>)
    ensures |r| >= 1 && r[|r| - 1].Reply?
    ensures forall e :: e in r && !e.Reply? ==> e.RemoveParticipant? && f.isGroup && MayModerate(admins, m, f)
  {
    if !f.isGroup then [Reply(GroupOnly)]
    else
      match Argument(m.body)
      case None => [Reply(KickUsage)]
      case Some(a) =>
        match KickPhone(a)
        case None => [Reply(KickInvalidNumber)]
        case Some(phone) =>
          if !MayModerate(admins, m, f) then [Reply(GroupAdminsOnly)]
          else
            [RemoveParticipant(phone + UserSuffix)]
            + match f.groupError
              case Some(e) => [Reply(KickFailed(e))]
              case None => [Reply(Kicked(phone))]
  }

  /** Lock (`on`) and unlock: group, then authorization, then the setting. */
  function LockEffects(admins: set<string>, m: Message, f: Facts, on: bool): (r: seq<Effect>)
    ensures |r| >= 1 && r[|r| - 1].Reply?
    ensures SetAdminsOnly(on) in r <==> f.isGroup && MayModerate(admins, m, f)
    ensures forall e :: e in r && !e.Reply? ==> e == SetAdminsOnly(on)
  {
    if !f.isGroup then [Reply(GroupOnly)]
    else if !MayModerate(admins, m, f) then [Reply(GroupAdminsOnly)]
    else
      [SetAdminsOnly(on)]
      + match f.groupError
        case Some(e) => [Reply(if on then LockFailed(e) else UnlockFailed(e))]
        case None => [Reply(if on then Locked else Unlocked)]
  }

  /** A message that passed the gates, handed to the one family that claims it. */
  function Dispatch(st: RouterState, table: Table, m: Message, f: Facts): (r: (RouterState, seq<Effect>))
    ensures r.0.processed == st.processed && r.0.admins == st.admins
  {
    var lower := CommandText(m.body);
    var link := Detect(m.body, table);
    match Classify(lower, link.Some?)
    case Backup => (st, BackupEffects(st.admins, m, f))
    case VideoLink => VideoNeedsLink(lower, link.Some?); (st, VideoEffects(link.value, st.maxFileSizeMB, m.from, f))
    case TextSticker => (st, TextStickerEffects(m, f))
    case ImageSticker => (st, ImageStickerEffects(m, f))
    case BlacklistAdd => AddStep(st, m)
    case MaxFileSize => MaxSizeStep(st, m)
    case BlacklistRemove => RemoveStep(st, m)
    case Kick => (st, KickEffects(st.admins, m, f))
    case Lock => (st, LockEffects(st.admins, m, f, true))
    case Unlock => (st, LockEffects(st.admins, m, f, false))
    case Unmatched => (st, [])
  }

  /** A message that the blacklist, the status feed or an earlier delivery stops. */
  predicate Gated(st: RouterState, m: Message)
    ensures NormalizeOrKeep(m.from) in st.blacklist ==> Gated(st, m)
    ensures m.from == StatusBroadcast ==> Gated(st, m)
    ensures m.id in st.processed ==> Gated(st, m)
    ensures Gated(st, m) ==> NormalizeOrKeep(m.from) in st.blacklist || m.from == StatusBroadcast || m.id in st.processed
  {
    NormalizeOrKeep(m.from) in st.blacklist || m.from == StatusBroadcast || m.id in st.processed
  }

  /** One message through the handler: the gates in the source's order, the id recorded, then dispatch. */
  function Step(st: RouterState, table: Table, m: Message, f: Facts): (r: (RouterState, seq<Effect>))
    ensures Gated(st, m) ==> r == (st, [])
    ensures !Gated(st, m) ==> m.id in r.0.processed
    ensures r.0.admins == st.admins
  {
    if NormalizeOrKeep(m.from) in st.blacklist then (st, [])
    else if m.from == StatusBroadcast then (st, [])
    else if m.id in st.processed then (st, [])
    else
      var recorded := st.(processed := st.processed + {m.id});
      if m.body == "" then (recorded, [])
      else Dispatch(recorded, table, m, f)
  }
}
