# WhatsApp bot message handler — a Dafny model

This project models the message-handling core of `bot.js`, a WhatsApp bot.
For every incoming message the bot:

- drops messages from blacklisted chats and the `status@broadcast` feed;
- drops a message it has already processed, and otherwise records its id;
- then routes the message, by case-insensitive prefix, to exactly one
  command family.

The families are:

- on-demand backup;
- video-link download with a size ceiling;
- the quoted-text sticker;
- the photo sticker;
- blacklist add and remove;
- setting the maximum file size;
- group kick, lock and unlock.

Identities are normalised WhatsApp ids (`normalizeJid`). The admin set is built
from the settings file, the `ADMIN_JIDS` environment list and the owner.

The model is split by concern. Every module is one file:

- `Text`: JavaScript's `trim`, `\s`, `toLowerCase`, `split` and `\D`.
- `Jid`: `normalizeJid` and the kick command's phone rule.
- `Access`: the admin set and `isAdmin`.
- `Blacklist`: the load-time de-duplication, add and remove.
- `Links`: `detectVideoUrl` over an ordered table of opaque matchers.
- `Commands`: the alias table and the order in which families are tested.
- `Numbers`: the subset of `Number()` used by the max-size command.
- `Settings`: the settings file, the size-argument checks and the size admission.
- `Sticker`: HTML escaping, line chunking and `wrapText`.
- `Archive`: what the backup includes and where it is written.
- `Bot`: the specification. `Step` maps a state, a message and the outside facts to a new state and a list of effects.
- `Properties`: the lemmas about `Step`.
- `MessageHandler`: the `Router` class. Its fields are updated in place by `HandleMessage`, whose contract ties it to `Step`.

Replies, saves, downloads, sends, archive writes and group changes are values of `Bot.Effect` in the order the handler issues them.
Whatever the outside world answers is a `Bot.Facts` value:

- whether the chat is a group;
- whether the sender is a group admin;
- the downloaded file's size, or none for a null path;
- the errors thrown by the transport, the archiver or the image codec;
- the quoted message;
- the date.

A save (`saveBlacklist`, `saveSettings`) is the effect `SaveBlacklist(list)` or `SaveSettings(mb)`. It carries the value written.

Behaviour of the code worth knowing, which the model states as written:

- A `sendMessage` failure jumps to the `catch` block at bot.js:358-362, so the temporary video is not removed in that case (`Properties.VideoAdmission`).
- The max-size command is tested before blacklist remove (bot.js:537, 558). The two alias sets do not overlap, so the order shows only in `Commands.AliasTable`.
- The backup command sends two replies: a start reply, then the result reply.
- `Math.floor` of a positive fraction below one stores a ceiling of 0 MB. `Settings.FractionBelowOneStoresZero` states this.

## Model

| member | source | states |
|---|---|---|
| Jid.NormalizeJid | bot.js:177-190 | a result, when present, contains `@` and has no surrounding white space |
| Jid.NormalizeJidCases | bot.js:177-190 | null exactly for a non-string, or for an input without `@` and with fewer than ten digits; an input with `@` comes back trimmed and unchanged; otherwise the digits, with `90` in front only for exactly ten digits not starting `90`, then `@c.us` |
| Jid.NormalizeIdempotent | bot.js:177-190 | normalising a non-null result again returns it unchanged |
| Jid.NormalizeByDigits | bot.js:177-190 | a trimmed input without `@` whose digits number ten or more normalises to those digits, with the country prefix rule, and `@c.us` |
| Jid.CanonicalIsFixed | bot.js:179-181 | a trimmed id containing `@` is its own normal form |
| Jid.NormalizeOrKeep | bot.js:297 | the normal form of `x` when `normalizeJid` gives one, otherwise `x` itself; either way `x` or an id in normal form |
| Jid.KickPhone | bot.js:594-599 | rejected exactly below ten digits; otherwise all digits, starting with `90`: the digits themselves when they already start with `90`, otherwise `90` followed by the digits |
| Jid.KickAgreesOnTenDigits | bot.js:594-600 | for a ten-digit argument the kick target equals `normalizeJid`'s id |
| Jid.KickDiffersAboveTenDigits | bot.js:594-600 | above ten digits not starting `90`, the kick target and `normalizeJid` differ |
| Access.EnvEntries | bot.js:216-217 | no entries for an unset variable; otherwise one string entry per comma-separated piece, that piece trimmed, so no entry has white space at its ends or a comma |
| Access.Accepted | bot.js:212-217 | nothing from no entries, and every collected id is what the normaliser gives some entry |
| Access.Normalized | bot.js:212-217 | every collected id is the normal form of some entry, and every entry that normalises contributes its normal form |
| Access.AcceptedMembers | bot.js:212-217 | an id is collected exactly when the normaliser gives it for some entry |
| Access.NormalizedMembers | bot.js:212-217 | an id is in the normalised list exactly when some entry normalises to it |
| Access.OwnerJid | bot.js:193 | the owner is never empty, and is the environment's value whenever that is set |
| Access.NormalizedCanonical | bot.js:212-217 | every id the normaliser collects is in normal form |
| Access.AdminSet | bot.js:209-221 | every admin id is in normal form; the normalised owner and every normalised environment entry are admins |
| Access.IsAdmin | bot.js:223-226 | a sender that does not normalise is never an admin; a sender already in normal form is an admin exactly when listed |
| Access.OwnerIsAdmin | bot.js:209-226 | whatever the settings and environment lists hold, an owner that normalises is an admin |
| Access.DefaultOwnerIsAdmin | bot.js:193-220 | with no `OWNER_JID` the placeholder owner is an admin |
| Access.SettingsEntryIsAdmin | bot.js:212-226 | every settings entry that normalises is an admin |
| Access.AdminUnderNormalization | bot.js:223-226 | when the sender is an admin, so is its normal form |
| Blacklist.Dedup | bot.js:200 | `Array.from(new Set(...))` keeps every member, drops repeats and never lengthens the list |
| Blacklist.DedupKeepsFirstOrder | bot.js:200 | kept ids are in first-occurrence order: the earlier one occurs in the input before the later one first does |
| Blacklist.DedupOfDistinct | bot.js:200 | a list without repeats is kept as it is |
| Blacklist.NormalizedEntries | bot.js:200 | all results are in normal form, and an id is among them exactly when some stored entry normalises to it |
| Blacklist.Load | bot.js:196-205 | the loaded blacklist has no repeats and holds only ids in normal form; from a stored array, an id is loaded exactly when some entry normalises to it; a missing or malformed file gives the empty list |
| Blacklist.AddEntry | bot.js:529-530 | the id is present afterwards; appended when absent, list unchanged when present |
| Blacklist.RemoveEntry | bot.js:573 | exactly the entries other than the id remain |
| Blacklist.RemoveAbsent | bot.js:572-573 | removing an absent id leaves the list unchanged |
| Blacklist.AddThenRemove | bot.js:529-573 | adding an absent id and removing it restores the list |
| Blacklist.AddKeepsDistinct | bot.js:529-530 | adding never creates a repeat |
| Blacklist.RemoveKeepsDistinct | bot.js:573 | removing never creates a repeat |
| Links.PatternTable | bot.js:70-92 | the table has one matcher per platform, in the source's key order |
| Links.PlatformsUnique | bot.js:70-92 | no platform name occurs twice |
| Links.WithScheme | bot.js:136 | the url starts with `http`: unchanged if the match already does, else `https://` in front |
| Links.FirstHit | bot.js:129-141 | a detected url always starts with `http` |
| Links.Detect | bot.js:127-142 | nothing for empty text or an empty table; a detected url starts with `http` |
| Links.DetectFirst | bot.js:127-142 | for non-empty text, the first entry that matches gives the platform and the url |
| Links.DetectNone | bot.js:127-142 | no detection exactly for empty text or when no entry matches |
| Links.DetectSingleMatch | bot.js:129-141 | when two different entries match, the earlier one wins |
| Links.DetectVideoUrl | bot.js:127-142 | the loop returns the first hit of the table |
| Commands.CmdIs | bot.js:317 | any alias that is a prefix of the lower-cased body makes the test succeed; an empty alias list never does |
| Commands.FirstFamily | bot.js:363-676 | a chosen family comes from a table entry whose aliases match |
| Commands.Classify | bot.js:320-676 | backup is chosen exactly when a backup alias matches; the link family exactly when no backup alias matches and a link was detected |
| Commands.FirstFamilyAt | bot.js:363-676 | the first family in the chain with a matching alias is chosen |
| Commands.FirstFamilyWitness | bot.js:363-676 | a chosen family has a matching alias, and no earlier family matches |
| Commands.FirstFamilyNone | bot.js:363-676 | no family is chosen exactly when no alias matches |
| Commands.FirstFamilyAvoids | bot.js:363-676 | a family absent from the chain is never chosen by it |
| Commands.AliasFamilies | bot.js:320-363 | the chain never yields backup or a link; those come only from the tests in front of it |
| Commands.VideoNeedsLink | bot.js:337-338 | the link family is chosen only when a link was detected |
| Commands.LinkBeforeAliases | bot.js:320-338 | a detected link wins over every alias except backup |
| Commands.QmNeverImageSticker | bot.js:363-476 | a body starting `/qm` goes to the text sticker (or a link), never to the photo sticker |
| Commands.ImageStickerNeedsNoQm | bot.js:363-476 | the photo sticker is reached only by bodies not starting `/qm` |
| Commands.TurkishRemoveAliasesAdd | bot.js:515-558 | bodies starting `/karalistencikar`, `/karalistedencikar` or `/karalisteçikar` route to blacklist add |
| Commands.RemoveOnlyByUnblacklist | bot.js:515-558 | blacklist remove is reached only by bodies starting `/unblacklist` |
| Commands.RemoveReached | bot.js:558 | routing to remove means one of its aliases matched |
| Numbers.DigitsValueBound | bot.js:549 | a numeral of n digits is below 10^n |
| Numbers.UnsignedValue | bot.js:549 | the empty text is `NaN`, and a finite value of an unsigned literal is never negative |
| Numbers.ToNumber | bot.js:549 | `Number("")` is 0, and only a leading `-` gives a negative value |
| Numbers.NumeralValue | bot.js:549 | `Number` of a plain decimal numeral is its value |
| Numbers.UnsignedFloor | bot.js:549-554 | for an unsigned decimal the value is non-negative and its floor is the integer part |
| Settings.LoadedMax | bot.js:150-161 | the ceiling is the file's value when it has one, otherwise the default 50 |
| Settings.SettingsAdmins | bot.js:212 | the settings admin list is the file's array when the file was read, and absent otherwise |
| Settings.Oversize | bot.js:345-346 | an oversize file has at least the ceiling in whole megabytes, and a file with more whole megabytes than the ceiling is oversize |
| Settings.OversizeIsDivision | bot.js:345-346 | the integer test `size > max * 1048576` agrees with `size / (1024*1024) > max` |
| Settings.ValidateMaxSize | bot.js:545-554 | an accepted value is the floor of a parsed number, so non-negative and within one below it |
| Settings.WholeNumberAccepted | bot.js:549-554 | a positive whole number is stored as it is |
| Settings.ZeroRefused | bot.js:550 | `0` is refused |
| Settings.FractionBelowOneStoresZero | bot.js:550-554 | `0.5` passes the check and stores 0 |
| Sticker.ReplaceChar | bot.js:410 | the replaced character is gone when the replacement lacks it; other characters are kept |
| Sticker.EscapeHtml | bot.js:410 | the escaped text holds no `<` or `>` |
| Sticker.EscapeHtmlPerChar | bot.js:410 | the three chained replacements equal escaping each character on its own |
| Sticker.EscapeRoundTrip | bot.js:410 | decoding the three entities gives back the quoted text |
| Sticker.LinePieces | bot.js:412 | one piece per line-feed-separated part, and no piece holds a line feed |
| Sticker.LinePiecesSingle | bot.js:412 | text without a line feed is a single piece |
| Sticker.LinePiecesLf | bot.js:412 | text up to a bare line feed is the first piece as it stands, the rest split on |
| Sticker.LinePiecesCrLf | bot.js:412 | text up to a carriage return and line feed is the first piece without the carriage return, the rest split on |
| Sticker.LinePiecesVisible | bot.js:412 | the split drops only line feeds and carriage returns: every other character survives, in order |
| Sticker.NonEmptyTrimmed | bot.js:412 | every kept line is non-empty and trimmed |
| Sticker.NonEmptyTrimmedAppend | bot.js:412 | the filter works piece by piece: the kept lines of two lists are the kept lines of each, in order |
| Sticker.NonEmptyTrimmedOne | bot.js:412 | one piece is kept, trimmed, exactly when its trim is not empty |
| Sticker.NonEmptyTrimmedMembers | bot.js:412 | a line is kept exactly when it is the non-empty trim of some piece |
| Sticker.NonEmptyTrimmedVisible | bot.js:412 | trimming and dropping blank lines drop only white space |
| Sticker.Chunks | bot.js:415-421 | every piece of a line has 1 to 32 characters |
| Sticker.ChunksShape | bot.js:415-421 | each piece of a line has 1 to 32 characters, and the pieces spell the line |
| Sticker.WrapLinesShape | bot.js:414-422 | all pieces have 1 to 32 characters and together spell the lines in order |
| Sticker.BubbleLines | bot.js:414-423 | the bubble is never empty; it is exactly the wrapped pieces when some line has text, and the single space when every line is empty |
| Sticker.WrapLinesEmpty | bot.js:414-422 | wrapping gives no piece exactly when every line is empty |
| Sticker.BubbleVisible | bot.js:414-423 | the bubble holds the visible characters of its lines, in order, and no others |
| Sticker.FallbackOnlyWhenEmpty | bot.js:412-423 | the single-space fallback appears exactly when no line has text |
| Sticker.StickerLines | bot.js:410-423 | the bubble of a quoted text is never empty, and each of its lines has 1 to 32 characters |
| Sticker.StickerKeepsText | bot.js:410-423 | the bubble's lines put back together hold exactly the non-white-space characters of the escaped quoted text, in order |
| Sticker.ChunkLines | bot.js:414-423 | the loop yields the specified bubble lines |
| Sticker.WrapWords | bot.js:440-448 | the lines already pushed stay, in order, at the front of the result |
| Sticker.WrapTextSpec | bot.js:436-450 | an empty name gives no lines, and a name without spaces gives exactly one line, however long |
| Sticker.WrapTextShape | bot.js:436-450 | every name line is non-empty and fits in the width unless it is one over-long word |
| Sticker.WrapTextLetters | bot.js:436-450 | the lines put back together hold exactly the name's characters other than spaces, in their order |
| Sticker.WrapWordsJoin | bot.js:438-448 | with non-empty words, the lines produced from a state, joined with spaces, equal the closed lines and the remaining words joined with spaces |
| Sticker.WrapTextJoin | bot.js:436-450 | a name with its words separated by single spaces, and none at its ends, comes back exactly when its lines are joined with spaces |
| Sticker.WrapText | bot.js:436-450 | the loop yields the specified word wrap |
| Sticker.PushName | bot.js:379-385 | the displayed name is the push name when set, else the saved name, else the number, else `Kullanıcı` (also when there is no contact); never empty |
| Archive.Existing | bot.js:51-53 | at most the listed sources, each one listed and present on disk |
| Archive.ExistingMembers | bot.js:51-53 | a directory is archived exactly when it is listed and exists |
| Archive.IncludedIff | bot.js:51-53 | the backup holds exactly the known directories that exist |
| Archive.AllExisting | bot.js:51-53 | with all three present, all three are archived in the source's order |
| Archive.ArchivePath | bot.js:42-43 | the path starts with `backups/backup-`, then holds exactly the day, then ends with `.zip` |
| Archive.ArchivePathInjective | bot.js:42-43 | two backups have the same path exactly when made on the same day |
| Bot.Sender | bot.js:321 | the sender is the message's author when set, otherwise the chat it came from |
| Bot.CommandText | bot.js:316 | the command text is the trimmed body in lower case: as long as the trimmed body, with no white space at its ends and no capital A-Z |
| Bot.Gated | bot.js:297-311 | a message is dropped exactly when its chat is blacklisted, it is a status broadcast, or its id was already processed |
| Bot.MayModerate | bot.js:603-608 | a group admin or a bot admin may moderate, and a sender that is neither may not |
| Bot.BackupEffects | bot.js:320-335 | a non-admin gets replies only; for an admin a start reply, the archive write of the existing directories to the day's path, then a result reply |
| Bot.VideoEffects | bot.js:339-362 | reply then download first; the file is sent exactly when one was downloaded within the ceiling, and removed exactly when it was refused or sent without error |
| Bot.TextStickerEffects | bot.js:363-475 | the sticker is sent to the chat, with a non-empty bubble, exactly when there is a quoted message with text and rendering succeeds; anything after it is a reply |
| Bot.ImageStickerEffects | bot.js:476-514 | the sticker is sent to the chat exactly when the quoted message is an image whose media is fetched and converted; anything after it is a reply |
| Bot.AddStep | bot.js:515-536 | only the blacklist may change, only for an admin, and a change is saved first; the command ends with a reply |
| Bot.MaxSizeStep | bot.js:537-557 | only the ceiling may change, only for an admin, and a change is saved first; the command ends with a reply |
| Bot.RemoveStep | bot.js:558-579 | only the blacklist may change, only for an admin, and a change is saved first; the command ends with a reply |
| Bot.KickEffects | bot.js:580-620 | the command ends with a reply, and its only other effect is a participant removal, in a group and for an allowed sender |
| Bot.LockEffects | bot.js:621-676 | the command ends with a reply; the admins-only setting is changed, to the requested value, exactly in a group for an allowed sender, and nothing else is |
| Bot.Dispatch | bot.js:320-676 | no family changes the processed set or the admins |
| Bot.Step | bot.js:292-677 | a gated message produces nothing and changes nothing; any other has its id recorded; the admins never change |
| Bot.Initial | bot.js:149-221 | start with no repeats in the blacklist and nothing processed |
| Properties.DispatchKeeps | bot.js:320-676 | no command changes the processed set or the admins |
| Properties.DroppedBeforeRecording | bot.js:297-304 | a blacklisted chat or the status feed produces nothing and changes nothing, the processed set included |
| Properties.RedeliverySilent | bot.js:307-311 | a processed id produces nothing and changes nothing |
| Properties.RecordedBeforeEmptyCheck | bot.js:312-315 | past the gates the id is recorded, and an empty body stops right after |
| Properties.AtMostOnce | bot.js:297-315 | a second delivery of a message produces nothing and changes nothing |
| Properties.SpellingsAgree | bot.js:223-226 | two spellings with one normal form are both admins or neither, and both blacklisted or neither |
| Properties.AdminsFixed | bot.js:292-676 | handling a message never changes the admin set |
| Properties.ChangesNeedAdminCommand | bot.js:515-579 | only an admin's add or remove changes the blacklist, only an admin's max-size command the ceiling |
| Properties.DispatchChanges | bot.js:515-579 | within the dispatch, only an admin's add or remove changes the blacklist and only an admin's max-size command the ceiling |
| Properties.AddStepProperties | bot.js:515-536 | the add command saves exactly when it changes the list, issues nothing else that needs rights, and keeps the list free of repeats |
| Properties.RemoveStepProperties | bot.js:558-579 | the same for the remove command |
| Properties.MaxSizeStepProperties | bot.js:537-557 | the max-size command saves the value it stores and changes nothing else |
| Properties.BackupProperties | bot.js:320-335 | the backup saves nothing, and writes the archive only for an admin |
| Properties.VideoProperties | bot.js:337-362 | the video branch saves nothing and changes no group |
| Properties.StickerProperties | bot.js:363-514 | the sticker branches save nothing and change no group |
| Properties.GroupProperties | bot.js:580-676 | the group commands save nothing, and change the group only in a group and for an allowed sender |
| Properties.DispatchProperties | bot.js:320-676 | every family keeps saves in step with memory, respects the rights checks, and keeps the blacklist free of repeats |
| Properties.SavesMatchMemory | bot.js:529-575 | every save writes the value in memory afterwards; the blacklist is saved exactly when it changes; a changed ceiling is saved |
| Properties.StepKeepsDistinct | bot.js:529-573 | the blacklist never gains a repeat |
| Properties.AuthorizationGuards | bot.js:320-676 | archive writes and saves only for an admin; kicks and locks only in a group, for a group admin or an admin |
| Properties.NonAdminRefused | bot.js:320-563 | a non-admin gets the refusal reply from backup, add, max-size and remove, and only the processed set changes |
| Properties.MaxSizeOutcomes | bot.js:544-556 | from an admin: a missing argument or one not above zero gives one error reply and no change; otherwise the floor is stored, saved and reported |
| Properties.RemoveOutcome | bot.js:571-578 | remove deletes every copy of the id and nothing else; an absent id gives the "not listed" reply and no change |
| Properties.AddThenRemoveRestores | bot.js:529-573 | an admin's add of an unlisted id followed by its remove gives back the state before |
| Properties.TurkishRemoveReachesAdd | bot.js:515-558 | a link-free body starting with one of those Turkish remove aliases runs the add command |
| Properties.QmMakesTextSticker | bot.js:363-476 | a link-free body starting `/qm` makes a text sticker |
| Properties.LinkIsDownloaded | bot.js:320-338 | a detected link in a non-backup body is downloaded with the ceiling in force when the message arrived as the size hint |
| Properties.VideoAdmission | bot.js:339-362 | a downloaded file is sent exactly when within the ceiling and refused with the size reply exactly when above it. It is removed unless sending failed. With no file, nothing is sent or removed and the failure reply is given |
| Properties.FiftyMegabyteCeiling | bot.js:345-353 | with the default 50 MB ceiling a 51 MB file is refused and a 49 MB file sent, both removed |
| Properties.GroupCommandsNeedGroup | bot.js:580-655 | outside a group, kick, lock and unlock only answer that they need a group |
| Properties.KickValidatesBeforeAuthorizing | bot.js:594-611 | a number below ten digits is refused before the sender's rights are looked at |
| Properties.KickTarget | bot.js:582-619 | a participant is removed exactly when the checks pass; it is the prefixed phone with `@c.us` |
| Properties.LockTarget | bot.js:621-676 | the group setting changes, to the requested value, exactly for an allowed sender in a group |
| MessageHandler.MakeTextSticker | bot.js:363-475 | the text-sticker branch with its loops issues the specified effects |
| MessageHandler.Router.constructor | bot.js:149-229 | the fields start as loaded from settings, the blacklist file and the admin sources |
| MessageHandler.Router.LoadAdmins | bot.js:209-221 | the rebuilt set is the union of the normalised settings list, the normalised environment list and the normalised owner |
| MessageHandler.Router.AddEach | bot.js:212-217 | each `forEach` adds exactly the entries that normalise |
| MessageHandler.Router.AddCommand | bot.js:515-536 | the in-place `push` and save match the add step |
| MessageHandler.Router.MaxSizeCommand | bot.js:537-557 | the field assignment and save match the max-size step |
| MessageHandler.Router.RemoveCommand | bot.js:558-579 | the filtered reassignment and save match the remove step |
| MessageHandler.Router.HandleMessage | bot.js:292-677 | the handler's new fields and effects are those of `Step`, and the blacklist stays free of repeats |
| Text.Trim | bot.js:179 | a trimmed result has no white space at either end |
| Text.TrimSlice | bot.js:179 | the trimmed result is a slice of the input with only white space before and after it |
| Text.TrimFixed | bot.js:179 | trimming a trimmed string changes nothing |
| Text.TrimIdempotent | bot.js:179 | trimming twice is trimming once |
| Text.ToLower | bot.js:316 | lower-casing maps each character and keeps the length |
| Text.Digits | bot.js:182 | only digits are kept |
| Text.DigitsChar | bot.js:182 | one character is kept exactly when it is a digit |
| Text.DigitsAppend | bot.js:182 | the digits of a concatenation are the digits of each part, in order |
| Text.DigitsOfDigits | bot.js:182 | a string of digits keeps all of them |
| Text.Split | bot.js:217 | a split gives at least one piece, none containing the separator |
| Text.JoinSplit | bot.js:217 | joining the pieces with the separator gives back the string |
| Text.SplitAtFirst | bot.js:217 | the text before the first separator is the first piece, and the rest is split on |
| Text.JoinMerge | bot.js:438-448 | joining two neighbouring parts with the separator and joining them in place give the same text |
| Text.Words | bot.js:522 | `split(/\s+/)` of a trimmed text gives non-empty pieces without white space |
| Text.Argument | bot.js:522-527 | the command's argument, when there is one, is non-empty and holds no white space |
| Text.WordsOfJoin | bot.js:522 | splitting non-empty space-free words joined by single spaces gives the words back |
| Text.ArgumentOfJoin | bot.js:522-527 | for two or more such words, the argument is the second word |

## Left out

- The transport is not modelled: the WhatsApp client, QR and connection events, puppeteer options and start-up (bot.js:239-285, 679-688). Replies and sends are effects, and their failures are facts.
- Failures of `msg.reply`, `fs.stat`, `fs.remove`, `getChat` and `getQuotedMessage` are not modelled. The code does not catch most of them, or catches them in the surrounding video `catch`.
- `downloadVideo` is modelled only by its outcome: the downloaded file's size in bytes, or none for a null path. The `yt-dlp` call and the directory scan (bot.js:94-125) are left out.
- The regular expressions of `urlPatterns` (bot.js:70-92) are opaque matchers in the source's key order. Regex semantics are not proved.
- SVG construction, `sharp`/webp encoding, the profile-picture fetch and the sticker clock (bot.js:387-406, 424-434, 453-471, 497-505): media rendering, network and time. They show as the facts `renderError` and `convertError`.
- Zip writing, the cron schedule and the date-based file name (bot.js:40-67) are left out. The date is the fact `today`; the covered parts are which directories the archive includes and the archive's path.
- Log files, the settings and blacklist file writes, and the SIGINT cleanup (bot.js:23-38, 165-171, 231-237, 690-695) are file I/O. A save is an effect carrying the value written; a failed save is not modelled, since it is only logged.
- Settings.SettingsDoc: the `settings.json` fields are taken as an optional integer ceiling and an optional admin list. Other JSON values that `Object.assign` would copy in are not modelled.
- Numbers.UnsignedValue: `Number()` is modelled for signed decimal numerals with an optional fraction only. Any other argument is read as `NaN`, so `/maksimumdosyasınırı 1e2`, `0x10` or `Infinity` is refused with the invalid-number reply, whereas the bot would store 100, 16 or `Infinity`. (Surrounding white space cannot occur, since a command argument holds none.)
- Numbers.ToNumber: values are exact rationals, not binary64 doubles. JavaScript rounds `0.99999999999999999` to 1, which the command stores as 1 where the model stores 0, and rounds integers above 2^53; neither rounding is modelled.
- The oversize reply's `toFixed(1)` rendering (bot.js:347) is not modelled; the reply carries the byte size and the ceiling.
- Text.ToLower: `toLowerCase` is modelled for ASCII, Latin-1 capitals, `Ğ` and `Ş`. Other Unicode case mappings are not.
- Sticker.Chunks: lengths count Unicode code points rather than UTF-16 code units. This affects `l.length > 32` and the slices, and the same holds for `Sticker.WrapWords` and `maxLen`, only for characters outside the Basic Multilingual Plane.
- The `isGroupAdmin` lookup over `chat.participants` (bot.js:603-606, 631-633, 659-661) is the fact `senderIsGroupAdmin`.
- Each message is modelled as handled to completion before the next one starts. The handler awaits the reply, the download and `fs.stat`, and only then reads `settings.maxFileSizeMB`: once in `downloadVideo` (bot.js:103) and again for the size test (bot.js:346-347). A max-size command handled in between changes those readings; the model uses the ceiling in force when the message arrived, for the download hint and the test alike. Likewise the blacklist and processed-set changes of interleaved handlers are not modelled.
- The weekly cron job running the same backup (bot.js:58-67) is not modelled; it runs outside the message handler.

