/**
 The running bot's message handler: the blacklist array, the processed-id set,
 the settings field and the admin set updated in place, message by message.
 */
module MessageHandler {

  import opened Wrappers
  import opened Text
  import opened Jid
  import opened Access
  import opened Blacklist
  import opened Links
  import opened Commands
  import opened Settings
  import opened Sticker
  import opened Bot

  /** The quoted-text sticker with the source's loops: the bubble lines, then the name lines, then rendering. */
  method MakeTextSticker(m: Message, f: Facts) returns (effects: seq<Effect>)
    ensures effects == TextStickerEffects(m, f)
  {
    if !m.hasQuotedMsg {
      return [Reply(QuoteText)];
    }
    var quotedText := f.quoted.body;
    if quotedText == "" {
      return [Reply(QuotedTextMissing)];
    }
    var pushName := PushName(f.quoted.contact);
    var wrapped := ChunkLines(NonEmptyTrimmed(LinePieces(EscapeHtml(quotedText))));
    var nameLines := WrapText(pushName, NameWrapWidth);
    if f.renderError.Some? {
      return [Reply(TextStickerFailed(f.renderError.value))];
    }
    effects := [SendTextSticker(m.from, wrapped, nameLines)];
    if f.sendError.Some? {
      effects := effects + [Reply(TextStickerFailed(f.sendError.value))];
    }
  }

  class Router {
    var blacklist: seq<string>
    var processed: set<string>
    var maxFileSizeMB: int
    var admins: set<string>
    const table: Table

    function State(): RouterState
      reads this
    {
      RouterState(blacklist, processed, maxFileSizeMB, admins)
    }

    /** The blacklist holds each identity once. */
    predicate Valid()
      reads this
    {
      NoDuplicates(blacklist)
    }

    /** Start-up: settings, then the stored blacklist, then the admins. */
    constructor (doc: SettingsDoc, stored: Stored, ownerEnv: string, adminsEnv: string, matchers: seq<Matcher>)
      requires |matchers| == |Platforms|
      ensures Valid()
      ensures State() == Initial(doc, stored, ownerEnv, adminsEnv)
      ensures table == PatternTable(matchers)
    {
      table := PatternTable(matchers);
      maxFileSizeMB := LoadedMax(doc);
      blacklist := Load(stored);
      processed := {};
      admins := {};
      new;
      LoadAdmins(SettingsAdmins(doc), adminsEnv, ownerEnv);
    }

    /** `loadAdmins`: a fresh set, the settings entries, the environment entries, then the owner. */
    method LoadAdmins(settingsAdmins: Option<seq<Raw>>, adminsEnv: string, ownerEnv: string)
      modifies this
      ensures admins == AdminSet(settingsAdmins, adminsEnv, ownerEnv)
      ensures blacklist == old(blacklist) && processed == old(processed) && maxFileSizeMB == old(maxFileSizeMB)
    {
      admins := {};
      if settingsAdmins.Some? {
        AddEach(settingsAdmins.value, NormalizeJid);
      }
      AddEach(EnvEntries(adminsEnv), NormalizeJid);
      var owner := OwnerNormalized(ownerEnv);
      if owner.Some? {
        admins := admins + {owner.value};
      }
    }

    /** `xs.forEach(j => { const n = normalize(j); if (n) adminJids.add(n); })`. */
    method AddEach(xs: seq<Raw>, normalize: Raw -> Option<string>)
      modifies this
      ensures admins == old(admins) + Access.Accepted(xs, normalize)
      ensures blacklist == old(blacklist) && processed == old(processed) && maxFileSizeMB == old(maxFileSizeMB)
    {
      for i := 0 to |xs|
        invariant admins == old(admins) + Access.Accepted(xs[..i], normalize)
        invariant blacklist == old(blacklist) && processed == old(processed) && maxFileSizeMB == old(maxFileSizeMB)
      {
        var n := normalize(xs[i]);
        if n.Some? {
          admins := admins + {n.value};
        }
        assert xs[..i + 1][..i] == xs[..i];
      }
      assert xs[..|xs|] == xs;
    }

    /** The add command: `push` and save. */
    method AddCommand(m: Message) returns (effects: seq<Effect>)
      requires Valid()
      modifies this
      ensures Valid()
      ensures (State(), effects) == AddStep(old(State()), m)
    {
      if !IsAdmin(admins, Sender(m)) {
        return [Reply(AdminsOnly)];
      }
      var arg := Argument(m.body);
      if arg.None? {
        return [Reply(BlacklistUsage)];
      }
      var j := NormalizeOrKeep(arg.value);
      if j !in blacklist {
        AddKeepsDistinct(blacklist, j);
        blacklist := blacklist + [j];
        effects := [SaveBlacklist(blacklist), Reply(Blacklisted(j))];
      } else {
        effects := [Reply(AlreadyBlacklisted(j))];
      }
    }

    /** The max-size command: the field is assigned and the settings saved. */
    method MaxSizeCommand(m: Message) returns (effects: seq<Effect>)
      modifies this
      ensures (State(), effects) == MaxSizeStep(old(State()), m)
    {
      if !IsAdmin(admins, Sender(m)) {
        return [Reply(AdminsOnly)];
      }
      var parsed := ValidateMaxSize(Argument(m.body));
      match parsed
      case MissingArgument =>
        effects := [Reply(MaxSizeUsage)];
      case NotPositive =>
        effects := [Reply(MaxSizeInvalid)];
      case Accepted(mb) =>
        maxFileSizeMB := mb;
        effects := [SaveSettings(maxFileSizeMB), Reply(MaxSizeSet(maxFileSizeMB))];
    }

    /** The remove command: the list is reassigned to its filtered copy and saved. */
    method RemoveCommand(m: Message) returns (effects: seq<Effect>)
      requires Valid()
      modifies this
      ensures Valid()
      ensures (State(), effects) == RemoveStep(old(State()), m)
    {
      if !IsAdmin(admins, Sender(m)) {
        return [Reply(AdminsOnly)];
      }
      var arg := Argument(m.body);
      if arg.None? {
        return [Reply(UnblacklistUsage)];
      }
      var j := NormalizeOrKeep(arg.value);
      if j in blacklist {
        RemoveKeepsDistinct(blacklist, j);
        blacklist := RemoveEntry(blacklist, j);
        effects := [SaveBlacklist(blacklist), Reply(Unblacklisted(j))];
      } else {
        effects := [Reply(NotBlacklisted(j))];
      }
    }

    /** The `message` handler. */
    method HandleMessage(m: Message, f: Facts) returns (effects: seq<Effect>)
      requires Valid()
      modifies this
      ensures Valid()
      ensures (State(), effects) == Step(old(State()), table, m, f)
    {
      var incomingJid := NormalizeOrKeep(m.from);
      if incomingJid in blacklist {
        return [];
      }
      if m.from == StatusBroadcast {
        return [];
      }
      if m.id in processed {
        return [];
      }
      processed := processed + {m.id};
      var messageText := m.body;
      if messageText == "" {
        return [];
      }
      var msgLower := CommandText(messageText);
      if CmdIs(msgLower, BackupAliases) {
        return BackupEffects(admins, m, f);
      }
      var detectedVideo := DetectVideoUrl(messageText, table);
      if detectedVideo.Some? {
        return VideoEffects(detectedVideo.value, maxFileSizeMB, m.from, f);
      }
      AliasFamilies(msgLower);
      match FirstFamily(msgLower, AliasTable)
      case TextSticker =>
        effects := MakeTextSticker(m, f);
      case ImageSticker =>
        effects := ImageStickerEffects(m, f);
      case BlacklistAdd =>
        effects := AddCommand(m);
      case MaxFileSize =>
        effects := MaxSizeCommand(m);
      case BlacklistRemove =>
        effects := RemoveCommand(m);
      case Kick =>
        effects := KickEffects(admins, m, f);
      case Lock =>
        effects := LockEffects(admins, m, f, true);
      case Unlock =>
        effects := LockEffects(admins, m, f, false);
      case Unmatched =>
        effects := [];
      case Backup =>
        assert false;
      case VideoLink =>
        assert false;
    }
  }
}
