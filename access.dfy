/**
 The bot-admin set: normalised `settings.adminJids`, the normalised entries of
 the comma-separated environment list, and the owner.
 */
module Access {

  import opened Wrappers
  import opened Text
  import opened Jid

  /** The owner used when the environment provides none. */
  const DefaultOwner: string := "905xxxxxxxx@c.us"

  /** `process.env.OWNER_JID || '905xxxxxxxx@c.us'` (an unset variable is the empty string here). */
  function OwnerJid(ownerEnv: string): (r: string)
    ensures r != ""
    ensures ownerEnv != "" ==> r == ownerEnv
  {
    if ownerEnv == "" then DefaultOwner else ownerEnv
  }

  /** The set a `Some` adds; nothing for `None`. */
  function Present(n: Option<string>): set<string> {
    match n
    case Some(j) => {j}
    case None => {}
  }

  /** The values `f` accepts among `xs`. */
  function Accepted(xs: seq<Raw>, f: Raw -> Option<string>): (r: set<string>)
    ensures xs == [] ==> r == {}
    ensures forall j :: j in r ==> exists i :: 0 <= i < |xs| && f(xs[i]) == Some(j)
  {
    if xs == [] then {} else Accepted(xs[..|xs| - 1], f) + Present(f(xs[|xs| - 1]))
  }

  /** A value is accepted exactly when `f` gives it for some entry of `xs`. */
  lemma {:induction false} AcceptedMembers(xs: seq<Raw>, f: Raw -> Option<string>, j: string)
    ensures j in Accepted(xs, f) <==> exists i :: 0 <= i < |xs| && f(xs[i]) == Some(j)
  {
    if xs != [] {
      var init, last := xs[..|xs| - 1], xs[|xs| - 1];
      AcceptedMembers(init, f, j);
      if j in Accepted(init, f) {
        var i :| 0 <= i < |init| && f(init[i]) == Some(j);
        assert xs[i] == init[i];
      }
      if i :| 0 <= i < |xs| && f(xs[i]) == Some(j) {
        if i < |init| {
          assert init[i] == xs[i];
        }
      }
    }
  }

  /** The identities `normalizeJid` accepts among `xs`, each in normal form. */
  function Normalized(xs: seq<Raw>): (r: set<string>)
    ensures forall j :: j in r ==> exists i :: 0 <= i < |xs| && NormalizeJid(xs[i]) == Some(j)
    ensures forall i :: 0 <= i < |xs| && NormalizeJid(xs[i]).Some? ==> NormalizeJid(xs[i]).value in r
  {
    forall i | 0 <= i < |xs| && NormalizeJid(xs[i]).Some?
      ensures NormalizeJid(xs[i]).value in Accepted(xs, NormalizeJid)
    {
      AcceptedMembers(xs, NormalizeJid, NormalizeJid(xs[i]).value);
    }
    Accepted(xs, NormalizeJid)
  }

  /** An identity is in `Normalized(xs)` exactly when some entry of `xs` normalises to it. */
  lemma NormalizedMembers(xs: seq<Raw>, j: string)
    ensures j in Normalized(xs) <==> exists i :: 0 <= i < |xs| && NormalizeJid(xs[i]) == Some(j)
  {
    AcceptedMembers(xs, NormalizeJid, j);
  }

  /** Whatever `normalizeJid` accepts is in normal form. */
  lemma NormalizedCanonical(xs: seq<Raw>)
    ensures forall j :: j in Normalized(xs) ==> Canonical(j)
  {
    forall j | j in Normalized(xs) ensures Canonical(j) {
      NormalizedMembers(xs, j);
      var i :| 0 <= i < |xs| && NormalizeJid(xs[i]) == Some(j);
      NormalizeIdempotent(xs[i]);
    }
  }

  /** `ADMIN_JIDS.split(',').map(s => s.trim())`, or no entries when the variable is unset or empty. */
  function EnvEntries(adminsEnv: string): (r: seq<Raw>)
    ensures forall i :: 0 <= i < |r| ==> r[i].Str? && Trimmed(r[i].s) && ',' !in r[i].s
    ensures adminsEnv == "" ==> r == []
    ensures adminsEnv != "" ==> |r| == |Split(adminsEnv, ',')|
    ensures adminsEnv != "" ==> forall i :: 0 <= i < |r| ==> r[i] == Str(Trim(Split(adminsEnv, ',')[i]))
  {
    if adminsEnv == "" then []
    else
      var parts := Split(adminsEnv, ',');
      assert forall i :: 0 <= i < |parts| ==> ',' !in Trim(parts[i]) by {
        forall i | 0 <= i < |parts| {
          TrimChars(parts[i], ',');
        }
      }
      seq(|parts|, i requires 0 <= i < |parts| => Str(Trim(parts[i])))
  }

  /** The owner in normal form, `null` when `normalizeJid` rejects the configured owner. */
  function OwnerNormalized(ownerEnv: string): Option<string> {
    NormalizeJid(Str(OwnerJid(ownerEnv)))
  }

  /** What `loadAdmins` builds. `settingsAdmins` is `None` when `settings.adminJids` is not an array. */
  function AdminSet(settingsAdmins: Option<seq<Raw>>, adminsEnv: string, ownerEnv: string): (r: set<string>)
    ensures forall j :: j in r ==> Canonical(j)
    ensures OwnerNormalized(ownerEnv).Some? ==> OwnerNormalized(ownerEnv).value in r
    ensures forall j :: j in Normalized(EnvEntries(adminsEnv)) ==> j in r
  {
    NormalizedCanonical(if settingsAdmins.Some? then settingsAdmins.value else []);
    NormalizedCanonical(EnvEntries(adminsEnv));
    NormalizeIdempotent(Str(OwnerJid(ownerEnv)));
    (match settingsAdmins case Some(xs) => Normalized(xs) case None => {})
    + Normalized(EnvEntries(adminsEnv))
    + Present(OwnerNormalized(ownerEnv))
  }

  /** `isAdmin`: the sender is normalised first; a sender that does not normalise is never an admin. */
  predicate IsAdmin(admins: set<string>, sender: string)
    ensures NormalizeJid(Str(sender)).None? ==> !IsAdmin(admins, sender)
    ensures Canonical(sender) ==> (IsAdmin(admins, sender) <==> sender in admins)
  {
    var n := NormalizeJid(Str(sender));
    n.Some? && n.value in admins
  }

  /** Whatever the settings and the environment hold, the owner is an admin once `normalizeJid` accepts it. */
  lemma OwnerIsAdmin(settingsAdmins: Option<seq<Raw>>, adminsEnv: string, ownerEnv: string)
    requires OwnerNormalized(ownerEnv).Some?
    ensures IsAdmin(AdminSet(settingsAdmins, adminsEnv, ownerEnv), OwnerJid(ownerEnv))
  {
  }

  /** The default owner always normalises, so without an owner in the environment it is always an admin. */
  lemma DefaultOwnerIsAdmin(settingsAdmins: Option<seq<Raw>>, adminsEnv: string)
    ensures IsAdmin(AdminSet(settingsAdmins, adminsEnv, ""), DefaultOwner)
  {
    assert Trim(DefaultOwner) == DefaultOwner by { TrimFixed(DefaultOwner); }
    assert '@' in DefaultOwner by { assert DefaultOwner[11] == '@'; }
  }

  /** Every settings entry that normalises names an admin, whatever the raw spelling. */
  lemma SettingsEntryIsAdmin(xs: seq<Raw>, adminsEnv: string, ownerEnv: string, i: nat)
    requires i < |xs| && xs[i].Str? && NormalizeJid(xs[i]).Some?
    ensures IsAdmin(AdminSet(Some(xs), adminsEnv, ownerEnv), xs[i].s)
  {
    NormalizedMembers(xs, NormalizeJid(xs[i]).value);
  }

  /** An admin stays an admin when it writes its identity in normal form. */
  lemma AdminUnderNormalization(admins: set<string>, sender: string)
    requires IsAdmin(admins, sender)
    ensures IsAdmin(admins, NormalizeJid(Str(sender)).value)
  {
    NormalizeIdempotent(Str(sender));
  }
}
