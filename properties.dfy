/**
 What the message handler guarantees, stated about `Bot.Step` and its parts:
 the gates, delivery at most once, who may change what, persistence of every
 change, the routing order, the size admission and the group commands.
 */
module Properties {

  import opened Wrappers
  import opened Text
  import opened Jid
  import opened Access
  import opened Blacklist
  import opened Links
  import opened Commands
  import opened Settings
  import opened Bot

  /** The state once a message's id has been recorded. */
  function Recorded(st: RouterState, m: Message): RouterState {
    st.(processed := st.processed + {m.id})
  }

  /** The dispatch of a message never touches the processed set or the admins. */
  lemma DispatchKeeps(st: RouterState, table: Table, m: Message, f: Facts)
    ensures Dispatch(st, table, m, f).0.processed == st.processed
    ensures Dispatch(st, table, m, f).0.admins == st.admins
  {
  }

  /** A blacklisted chat or the status feed is dropped before its id is recorded: nothing is sent and nothing changes. */
  lemma DroppedBeforeRecording(st: RouterState, table: Table, m: Message, f: Facts)
    requires NormalizeOrKeep(m.from) in st.blacklist || m.from == StatusBroadcast
    ensures Step(st, table, m, f) == (st, [])
  {
  }

  /** A message id seen before produces nothing. */
  lemma RedeliverySilent(st: RouterState, table: Table, m: Message, f: Facts)
    requires m.id in st.processed
    ensures Step(st, table, m, f) == (st, [])
  {
  }

  /** A message past the gates has its id recorded, and an empty one stops right after that. */
  lemma RecordedBeforeEmptyCheck(st: RouterState, table: Table, m: Message, f: Facts)
    requires !Gated(st, m)
    ensures Step(st, table, m, f).0.processed == st.processed + {m.id}
    ensures m.body == "" ==> Step(st, table, m, f) == (Recorded(st, m), [])
  {
    if m.body != "" {
      DispatchKeeps(Recorded(st, m), table, m, f);
    }
  }

  /** Whatever happens the first time, a second delivery of the same message does nothing. */
  lemma AtMostOnce(st: RouterState, table: Table, m: Message, f: Facts, g: Facts)
    ensures Step(Step(st, table, m, f).0, table, m, g) == (Step(st, table, m, f).0, [])
  {
    var s1 := Step(st, table, m, f).0;
    if !Gated(st, m) {
      RecordedBeforeEmptyCheck(st, table, m, f);
      assert m.id in s1.processed;
    } else {
      assert s1 == st;
    }
  }

  /** The admin set is fixed once loaded. */
  lemma AdminsFixed(st: RouterState, table: Table, m: Message, f: Facts)
    ensures Step(st, table, m, f).0.admins == st.admins
  {
    DispatchKeeps(Recorded(st, m), table, m, f);
  }

  /**
   Two spellings of one identity are treated alike: when they share a normal
   form, both are admins or neither is, and both are blacklisted or neither is.
   */
  lemma SpellingsAgree(st: RouterState, a: string, b: string)
    requires NormalizeJid(Str(a)).Some? && NormalizeJid(Str(a)) == NormalizeJid(Str(b))
    ensures IsAdmin(st.admins, a) <==> IsAdmin(st.admins, b)
    ensures NormalizeOrKeep(a) in st.blacklist <==> NormalizeOrKeep(b) in st.blacklist
  {
  }

  /** The family a message past the gates goes to. */
  function FamilyOf(table: Table, m: Message): Family {
    Classify(CommandText(m.body), Detect(m.body, table).Some?)
  }

  /** Only the add and remove commands change the blacklist, only the max-size command the ceiling, and only for an admin. */
  lemma ChangesNeedAdminCommand(st: RouterState, table: Table, m: Message, f: Facts)
    ensures Step(st, table, m, f).0.blacklist != st.blacklist ==>
              !Gated(st, m) && m.body != "" && IsAdmin(st.admins, Sender(m))
              && (FamilyOf(table, m) == BlacklistAdd || FamilyOf(table, m) == BlacklistRemove)
    ensures Step(st, table, m, f).0.maxFileSizeMB != st.maxFileSizeMB ==>
              !Gated(st, m) && m.body != "" && IsAdmin(st.admins, Sender(m))
              && FamilyOf(table, m) == MaxFileSize
  {
    if !Gated(st, m) && m.body != "" {
      DispatchChanges(Recorded(st, m), table, m, f);
    }
  }

  lemma DispatchChanges(st: RouterState, table: Table, m: Message, f: Facts)
    ensures Dispatch(st, table, m, f).0.blacklist != st.blacklist ==>
              IsAdmin(st.admins, Sender(m)) && (FamilyOf(table, m) == BlacklistAdd || FamilyOf(table, m) == BlacklistRemove)
    ensures Dispatch(st, table, m, f).0.maxFileSizeMB != st.maxFileSizeMB ==>
              IsAdmin(st.admins, Sender(m)) && FamilyOf(table, m) == MaxFileSize
  {
    match FamilyOf(table, m)
    case BlacklistAdd => AddStepProperties(st, m, f);
    case BlacklistRemove => RemoveStepProperties(st, m, f);
    case MaxFileSize => MaxSizeStepProperties(st, m, f);
    case VideoLink => VideoNeedsLink(CommandText(m.body), Detect(m.body, table).Some?);
    case _ =>
  }

  /**
   Every save in `effects` writes what is in memory in `r`, the blacklist is
   saved exactly when it changed from `st`, and a changed ceiling is saved.
   */
  ghost predicate SavesAgree(st: RouterState, r: RouterState, effects: seq<Effect>) {
    && (forall x :: SaveBlacklist(x) in effects ==> x == r.blacklist)
    && ((exists x :: SaveBlacklist(x) in effects) <==> r.blacklist != st.blacklist)
    && (forall x :: SaveSettings(x) in effects ==> x == r.maxFileSizeMB)
    && (r.maxFileSizeMB != st.maxFileSizeMB ==> SaveSettings(r.maxFileSizeMB) in effects)
  }

  /** The archive, the saves and the group changes in `effects` are there only for a sender allowed to ask for them. */
  predicate Guarded(admins: set<string>, m: Message, f: Facts, effects: seq<Effect>) {
    && (forall e :: e in effects && (e.WriteArchive? || e.SaveBlacklist? || e.SaveSettings?) ==> IsAdmin(admins, Sender(m)))
    && (forall e :: e in effects && (e.RemoveParticipant? || e.SetAdminsOnly?) ==> f.isGroup && MayModerate(admins, m, f))
  }

  lemma AddStepProperties(st: RouterState, m: Message, f: Facts)
    ensures AddStep(st, m).0.blacklist != st.blacklist ==> IsAdmin(st.admins, Sender(m))
    ensures SavesAgree(st, AddStep(st, m).0, AddStep(st, m).1)
    ensures Guarded(st.admins, m, f, AddStep(st, m).1)
    ensures AddStep(st, m).0 == st.(blacklist := AddStep(st, m).0.blacklist)
    ensures NoDuplicates(st.blacklist) ==> NoDuplicates(AddStep(st, m).0.blacklist)
  {
    var (r, effects) := AddStep(st, m);
    if IsAdmin(st.admins, Sender(m)) && Argument(m.body).Some? {
      var j := NormalizeOrKeep(Argument(m.body).value);
      if NoDuplicates(st.blacklist) {
        AddKeepsDistinct(st.blacklist, j);
      }
      if j !in st.blacklist {
        assert SaveBlacklist(r.blacklist) == effects[0];
        assert r.blacklist != st.blacklist by { assert j in r.blacklist; }
      }
    }
  }

  lemma RemoveStepProperties(st: RouterState, m: Message, f: Facts)
    ensures RemoveStep(st, m).0.blacklist != st.blacklist ==> IsAdmin(st.admins, Sender(m))
    ensures SavesAgree(st, RemoveStep(st, m).0, RemoveStep(st, m).1)
    ensures Guarded(st.admins, m, f, RemoveStep(st, m).1)
    ensures RemoveStep(st, m).0 == st.(blacklist := RemoveStep(st, m).0.blacklist)
    ensures NoDuplicates(st.blacklist) ==> NoDuplicates(RemoveStep(st, m).0.blacklist)
  {
    var (r, effects) := RemoveStep(st, m);
    if IsAdmin(st.admins, Sender(m)) && Argument(m.body).Some? {
      var j := NormalizeOrKeep(Argument(m.body).value);
      if NoDuplicates(st.blacklist) {
        RemoveKeepsDistinct(st.blacklist, j);
      }
      if j in st.blacklist {
        assert SaveBlacklist(r.blacklist) == effects[0];
        assert r.blacklist != st.blacklist by { assert j !in r.blacklist; }
      }
    }
  }

  lemma MaxSizeStepProperties(st: RouterState, m: Message, f: Facts)
    ensures MaxSizeStep(st, m).0.maxFileSizeMB != st.maxFileSizeMB ==> IsAdmin(st.admins, Sender(m))
    ensures SavesAgree(st, MaxSizeStep(st, m).0, MaxSizeStep(st, m).1)
    ensures Guarded(st.admins, m, f, MaxSizeStep(st, m).1)
    ensures MaxSizeStep(st, m).0 == st.(maxFileSizeMB := MaxSizeStep(st, m).0.maxFileSizeMB)
  {
    var (r, effects) := MaxSizeStep(st, m);
    if IsAdmin(st.admins, Sender(m)) && ValidateMaxSize(Argument(m.body)).Accepted? {
      assert SaveSettings(r.maxFileSizeMB) == effects[0];
    }
  }

  /** No save among `effects`. */
  predicate NoSaves(effects: seq<Effect>) {
    forall e :: e in effects ==> !e.SaveBlacklist? && !e.SaveSettings?
  }

  lemma NoSavesAgree(st: RouterState, effects: seq<Effect>)
    requires NoSaves(effects)
    ensures SavesAgree(st, st, effects)
  {
    assert forall x :: SaveBlacklist(x) !in effects;
    assert forall x :: SaveSettings(x) !in effects;
  }

  /** The families that change nothing issue no save, and issue the archive or a group change only when allowed. */
  lemma BackupProperties(admins: set<string>, m: Message, f: Facts)
    ensures NoSaves(BackupEffects(admins, m, f)) && Guarded(admins, m, f, BackupEffects(admins, m, f))
  {
  }

  lemma VideoProperties(admins: set<string>, d: Detection, maxMB: int, m: Message, f: Facts)
    ensures NoSaves(VideoEffects(d, maxMB, m.from, f)) && Guarded(admins, m, f, VideoEffects(d, maxMB, m.from, f))
  {
  }

  lemma StickerProperties(admins: set<string>, m: Message, f: Facts)
    ensures NoSaves(TextStickerEffects(m, f)) && Guarded(admins, m, f, TextStickerEffects(m, f))
    ensures NoSaves(ImageStickerEffects(m, f)) && Guarded(admins, m, f, ImageStickerEffects(m, f))
  {
  }

  lemma GroupProperties(admins: set<string>, m: Message, f: Facts, on: bool)
    ensures NoSaves(KickEffects(admins, m, f)) && Guarded(admins, m, f, KickEffects(admins, m, f))
    ensures NoSaves(LockEffects(admins, m, f, on)) && Guarded(admins, m, f, LockEffects(admins, m, f, on))
  {
  }

  lemma DispatchProperties(st: RouterState, table: Table, m: Message, f: Facts)
    ensures SavesAgree(st, Dispatch(st, table, m, f).0, Dispatch(st, table, m, f).1)
    ensures Guarded(st.admins, m, f, Dispatch(st, table, m, f).1)
    ensures NoDuplicates(st.blacklist) ==> NoDuplicates(Dispatch(st, table, m, f).0.blacklist)
  {
    var (r, effects) := Dispatch(st, table, m, f);
    var link := Detect(m.body, table);
    match FamilyOf(table, m)
    case Backup => BackupProperties(st.admins, m, f); NoSavesAgree(st, effects);
    case VideoLink =>
      VideoNeedsLink(CommandText(m.body), link.Some?);
      VideoProperties(st.admins, link.value, st.maxFileSizeMB, m, f);
      NoSavesAgree(st, effects);
    case TextSticker => StickerProperties(st.admins, m, f); NoSavesAgree(st, effects);
    case ImageSticker => StickerProperties(st.admins, m, f); NoSavesAgree(st, effects);
    case BlacklistAdd => AddStepProperties(st, m, f);
    case MaxFileSize => MaxSizeStepProperties(st, m, f);
    case BlacklistRemove => RemoveStepProperties(st, m, f);
    case Kick => GroupProperties(st.admins, m, f, true); NoSavesAgree(st, effects);
    case Lock => GroupProperties(st.admins, m, f, true); NoSavesAgree(st, effects);
    case Unlock => GroupProperties(st.admins, m, f, false); NoSavesAgree(st, effects);
    case Unmatched =>
  }

  /** Every save writes what is in memory afterwards, the blacklist is saved exactly when it changes, and a new ceiling is always saved. */
  lemma SavesMatchMemory(st: RouterState, table: Table, m: Message, f: Facts)
    ensures SavesAgree(st, Step(st, table, m, f).0, Step(st, table, m, f).1)
  {
    if !Gated(st, m) && m.body != "" {
      DispatchProperties(Recorded(st, m), table, m, f);
    }
  }

  /** The blacklist never gains a duplicate. */
  lemma StepKeepsDistinct(st: RouterState, table: Table, m: Message, f: Facts)
    requires NoDuplicates(st.blacklist)
    ensures NoDuplicates(Step(st, table, m, f).0.blacklist)
  {
    if !Gated(st, m) && m.body != "" {
      DispatchProperties(Recorded(st, m), table, m, f);
    }
  }

  /** The archive, the saves and the group changes are issued only for a sender allowed to ask for them. */
  lemma AuthorizationGuards(st: RouterState, table: Table, m: Message, f: Facts)
    ensures Guarded(st.admins, m, f, Step(st, table, m, f).1)
  {
    if !Gated(st, m) && m.body != "" {
      DispatchProperties(Recorded(st, m), table, m, f);
    }
  }

  /** A sender who is not an admin gets the refusal from the admin commands, and nothing changes but the processed set. */
  lemma NonAdminRefused(st: RouterState, table: Table, m: Message, f: Facts)
    requires !Gated(st, m) && m.body != "" && !IsAdmin(st.admins, Sender(m))
    ensures FamilyOf(table, m) == Backup ==> Step(st, table, m, f) == (Recorded(st, m), [Reply(BackupDenied)])
    ensures FamilyOf(table, m) in {BlacklistAdd, MaxFileSize, BlacklistRemove} ==> Step(st, table, m, f) == (Recorded(st, m), [Reply(AdminsOnly)])
  {
  }

  /** The max-size command from an admin: one error reply and no change, or the floor of the number stored and saved. */
  lemma MaxSizeOutcomes(st: RouterState, m: Message)
    requires IsAdmin(st.admins, Sender(m))
    ensures Argument(m.body).None? ==> MaxSizeStep(st, m) == (st, [Reply(MaxSizeUsage)])
    ensures Argument(m.body).Some? && !(ToNumberPositive(Argument(m.body).value)) ==> MaxSizeStep(st, m) == (st, [Reply(MaxSizeInvalid)])
    ensures Argument(m.body).Some? && ToNumberPositive(Argument(m.body).value) ==>
              var v := Numbers.ToNumber(Argument(m.body).value).v;
              && MaxSizeStep(st, m).0 == st.(maxFileSizeMB := v.Floor)
              && MaxSizeStep(st, m).1 == [SaveSettings(v.Floor), Reply(MaxSizeSet(v.Floor))]
              && v.Floor as real <= v < v.Floor as real + 1.0
  {
  }

  /** `Number(arg)` is a number above zero. */
  predicate ToNumberPositive(arg: string) {
    Numbers.ToNumber(arg).Finite? && Numbers.ToNumber(arg).v > 0.0
  }

  /** The remove command from an admin deletes every copy of the identity, and only it. */
  lemma RemoveOutcome(st: RouterState, m: Message)
    requires IsAdmin(st.admins, Sender(m)) && Argument(m.body).Some?
    ensures var j := NormalizeOrKeep(Argument(m.body).value);
            && (forall x :: x in RemoveStep(st, m).0.blacklist <==> x in st.blacklist && x != j)
            && (j !in st.blacklist ==> RemoveStep(st, m) == (st, [Reply(NotBlacklisted(j))]))
  {
  }

  /** Adding an unlisted identity and removing it again gives back the state before. */
  lemma AddThenRemoveRestores(st: RouterState, m1: Message, m2: Message)
    requires IsAdmin(st.admins, Sender(m1)) && IsAdmin(st.admins, Sender(m2))
    requires Argument(m1.body).Some? && Argument(m2.body).Some?
    requires NormalizeOrKeep(Argument(m1.body).value) == NormalizeOrKeep(Argument(m2.body).value)
    requires NormalizeOrKeep(Argument(m1.body).value) !in st.blacklist
    ensures RemoveStep(AddStep(st, m1).0, m2).0 == st
  {
    var j := NormalizeOrKeep(Argument(m1.body).value);
    AddThenRemove(st.blacklist, j);
  }

  /** A body starting with a Turkish remove alias adds its argument to the blacklist instead. */
  lemma TurkishRemoveReachesAdd(st: RouterState, table: Table, m: Message, f: Facts)
    requires !Gated(st, m) && m.body != ""
    requires "/karalistencikar" <= CommandText(m.body) || "/karalistedencikar" <= CommandText(m.body)
    requires Detect(m.body, table).None?
    ensures Step(st, table, m, f) == AddStep(Recorded(st, m), m)
  {
    TurkishRemoveAliasesAdd(CommandText(m.body), false);
  }

  /** A body starting with `/qm` and holding no link makes a text sticker. */
  lemma QmMakesTextSticker(st: RouterState, table: Table, m: Message, f: Facts)
    requires !Gated(st, m) && m.body != ""
    requires "/qm" <= CommandText(m.body)
    requires Detect(m.body, table).None?
    ensures Step(st, table, m, f) == (Recorded(st, m), TextStickerEffects(m, f))
  {
    QmNeverImageSticker(CommandText(m.body), false);
  }

  /** A link in a body that is not a backup command is downloaded against the current ceiling. */
  lemma LinkIsDownloaded(st: RouterState, table: Table, m: Message, f: Facts, d: Detection)
    requires !Gated(st, m) && m.body != ""
    requires !CmdIs(CommandText(m.body), BackupAliases) && Detect(m.body, table) == Some(d)
    ensures Step(st, table, m, f) == (Recorded(st, m), VideoEffects(d, st.maxFileSizeMB, m.from, f))
  {
    LinkBeforeAliases(CommandText(m.body));
  }

  /**
   The size admission: a downloaded file is sent exactly when it is within the
   ceiling, refused with the size reply otherwise, and removed unless sending
   it failed; without a file nothing is sent or removed.
   */
  lemma VideoAdmission(d: Detection, maxMB: int, chat: string, f: Facts)
    ensures f.download.None? ==>
              var e := VideoEffects(d, maxMB, chat, f);
              Reply(DownloadFailed(d.platform)) in e && RemoveTempFile !in e && SendVideo(chat) !in e
    ensures f.download.Some? ==>
              var e := VideoEffects(d, maxMB, chat, f);
              var size := f.download.value;
              && (SendVideo(chat) in e <==> !Oversize(size, maxMB))
              && (Reply(TooLarge(size, maxMB)) in e <==> Oversize(size, maxMB))
              && (RemoveTempFile in e <==> Oversize(size, maxMB) || f.sendError.None?)
  {
    var e := VideoEffects(d, maxMB, chat, f);
    assert e[0] == Reply(Downloading) && e[1] == Fetch(d.url, d.platform, maxMB);
  }

  /** With a 50 MB ceiling a 51 MB file is refused and a 49 MB file is sent; both are removed. */
  lemma FiftyMegabyteCeiling(d: Detection, chat: string, f: Facts)
    requires f.sendError.None?
    ensures f.download == Some(51 * MiB) ==> SendVideo(chat) !in VideoEffects(d, 50, chat, f) && RemoveTempFile in VideoEffects(d, 50, chat, f)
    ensures f.download == Some(49 * MiB) ==> SendVideo(chat) in VideoEffects(d, 50, chat, f) && RemoveTempFile in VideoEffects(d, 50, chat, f)
  {
    VideoAdmission(d, 50, chat, f);
  }

  /** Outside a group the group commands answer only that they need a group. */
  lemma GroupCommandsNeedGroup(admins: set<string>, m: Message, f: Facts, on: bool)
    requires !f.isGroup
    ensures KickEffects(admins, m, f) == [Reply(GroupOnly)]
    ensures LockEffects(admins, m, f, on) == [Reply(GroupOnly)]
  {
  }

  /** The number is checked before the sender: a short number is refused even for a sender with no rights. */
  lemma KickValidatesBeforeAuthorizing(admins: set<string>, m: Message, f: Facts)
    requires f.isGroup && Argument(m.body).Some? && |Digits(Argument(m.body).value)| < 10
    ensures KickEffects(admins, m, f) == [Reply(KickInvalidNumber)]
  {
  }

  /** A kick removes one participant, the prefixed phone of the argument, exactly when everything checks out. */
  lemma KickTarget(admins: set<string>, m: Message, f: Facts)
    ensures (exists j :: RemoveParticipant(j) in KickEffects(admins, m, f)) <==>
              f.isGroup && Argument(m.body).Some? && KickPhone(Argument(m.body).value).Some? && MayModerate(admins, m, f)
    ensures forall j :: RemoveParticipant(j) in KickEffects(admins, m, f) ==>
              j == KickPhone(Argument(m.body).value).value + UserSuffix && CountryPrefix <= j
  {
    var e := KickEffects(admins, m, f);
    var a := Argument(m.body);
    if !f.isGroup {
      assert e == [Reply(GroupOnly)];
    } else if a.None? {
      assert e == [Reply(KickUsage)];
    } else if KickPhone(a.value).None? {
      assert e == [Reply(KickInvalidNumber)];
    } else if !MayModerate(admins, m, f) {
      assert e == [Reply(GroupAdminsOnly)];
    } else {
      var j := KickPhone(a.value).value + UserSuffix;
      assert |e| == 2 && e[0] == RemoveParticipant(j) && e[1].Reply?;
    }
  }

  /** Lock and unlock change the group setting, to the requested value, exactly for an allowed sender in a group. */
  lemma LockTarget(admins: set<string>, m: Message, f: Facts, on: bool)
    ensures (exists b :: SetAdminsOnly(b) in LockEffects(admins, m, f, on)) <==> f.isGroup && MayModerate(admins, m, f)
    ensures forall b :: SetAdminsOnly(b) in LockEffects(admins, m, f, on) ==> b == on
  {
    var e := LockEffects(admins, m, f, on);
    if f.isGroup && MayModerate(admins, m, f) {
      assert SetAdminsOnly(on) == e[0];
    }
  }
}
