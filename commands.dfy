/**
 Command classification. The trimmed, lower-cased body is tested against
 alias prefixes; first match wins, in the order of the handler's `if` chain:
 the backup aliases, then any detected link, then the alias table below.
 */
module Commands {

  import opened Text

  datatype Family =
    | Backup
    | VideoLink
    | TextSticker
    | ImageSticker
    | BlacklistAdd
    | MaxFileSize
    | BlacklistRemove
    | Kick
    | Lock
    | Unlock
    | Unmatched

  /** `cmdIs(...aliases)`: the lower-cased body starts with one of the aliases. */
  predicate CmdIs(lower: string, aliases: seq<string>)
    ensures forall i :: 0 <= i < |aliases| && aliases[i] <= lower ==> CmdIs(lower, aliases)
    ensures aliases == [] ==> !CmdIs(lower, aliases)
  {
    assert forall i :: 0 <= i < |aliases| ==> aliases[i] in aliases;
    exists a :: a in aliases && a <= lower
  }

  const BackupAliases: seq<string> := ["/yedekle", "/backup"]

  /** The alias families after link detection, in the order the handler tests them. */
  const AliasTable: seq<(Family, seq<string>)> := [
    (TextSticker, ["/qm", "/çıkar"]),
    (ImageSticker, ["/q", "/foto", "/fotoçıkar"]),
    (BlacklistAdd, ["/blacklist", "/karaliste"]),
    (MaxFileSize, ["/maksimumdosyasınırı"]),
    (BlacklistRemove, ["/unblacklist", "/karalistencikar", "/karalistedencikar", "/karalisteçikar"]),
    (Kick, ["/kick", "/at"]),
    (Lock, ["/lockall"]),
    (Unlock, ["/unlock", "/kilitac", "/kilitaç"])
  ]

  /** The family of the first table entry with a matching alias. */
  function FirstFamily(lower: string, table: seq<(Family, seq<string>)>): (r: Family)
    ensures r != Unmatched ==> exists i :: 0 <= i < |table| && table[i].0 == r && CmdIs(lower, table[i].1)
  {
    if table == [] then Unmatched
    else if CmdIs(lower, table[0].1) then table[0].0
    else FirstFamily(lower, table[1..])
  }

  /** The family that claims a message: backup, then a detected link, then the alias table. */
  function Classify(lower: string, linkFound: bool): (r: Family)
    ensures r == Backup <==> CmdIs(lower, BackupAliases)
    ensures r == VideoLink <==> !CmdIs(lower, BackupAliases) && linkFound
  {
    AliasFamilies(lower);
    if CmdIs(lower, BackupAliases) then Backup
    else if linkFound then VideoLink
    else FirstFamily(lower, AliasTable)
  }

  /** First match wins: entry `i` matches and none before it, so entry `i`'s family is chosen. */
  lemma {:induction false} FirstFamilyAt(lower: string, table: seq<(Family, seq<string>)>, i: nat)
    requires i < |table| && CmdIs(lower, table[i].1)
    requires forall k :: 0 <= k < i ==> !CmdIs(lower, table[k].1)
    ensures FirstFamily(lower, table) == table[i].0
  {
    if i > 0 {
      assert !CmdIs(lower, table[0].1);
      var tail := table[1..];
      forall k | 0 <= k < i - 1 ensures !CmdIs(lower, tail[k].1) {
        assert tail[k] == table[k + 1];
      }
      FirstFamilyAt(lower, tail, i - 1);
    }
  }

  /** The chosen family comes from an entry whose aliases match, with no earlier entry matching. */
  lemma {:induction false} FirstFamilyWitness(lower: string, table: seq<(Family, seq<string>)>) returns (i: nat)
    requires FirstFamily(lower, table) != Unmatched
    ensures i < |table| && table[i].0 == FirstFamily(lower, table) && CmdIs(lower, table[i].1)
    ensures forall k :: 0 <= k < i ==> !CmdIs(lower, table[k].1)
  {
    if CmdIs(lower, table[0].1) {
      i := 0;
    } else {
      var tail := table[1..];
      var j := FirstFamilyWitness(lower, tail);
      i := j + 1;
      forall k | 0 <= k < i ensures !CmdIs(lower, table[k].1) {
        if k > 0 {
          assert table[k] == tail[k - 1];
        }
      }
    }
  }

  /** No alias of the table matches exactly when no family is chosen. */
  lemma {:induction false} FirstFamilyNone(lower: string, table: seq<(Family, seq<string>)>)
    requires forall k :: 0 <= k < |table| ==> table[k].0 != Unmatched
    ensures FirstFamily(lower, table) == Unmatched <==> forall k :: 0 <= k < |table| ==> !CmdIs(lower, table[k].1)
  {
    if FirstFamily(lower, table) != Unmatched {
      var i := FirstFamilyWitness(lower, table);
    } else if table != [] {
      var tail := table[1..];
      FirstFamilyNone(lower, tail);
      assert forall k :: 1 <= k < |table| ==> table[k] == tail[k - 1];
    }
  }

  /** A family that no table entry names is never chosen by the table. */
  lemma {:induction false} FirstFamilyAvoids(lower: string, table: seq<(Family, seq<string>)>, fam: Family)
    requires fam != Unmatched
    requires forall k :: 0 <= k < |table| ==> table[k].0 != fam
    ensures FirstFamily(lower, table) != fam
  {
    if table != [] && !CmdIs(lower, table[0].1) {
      var tail := table[1..];
      assert forall k :: 0 <= k < |tail| ==> tail[k] == table[k + 1];
      FirstFamilyAvoids(lower, tail, fam);
    }
  }

  /** The alias chain claims neither backup nor a link: those come only from the two tests in front of it. */
  lemma AliasFamilies(lower: string)
    ensures FirstFamily(lower, AliasTable) != Backup && FirstFamily(lower, AliasTable) != VideoLink
  {
    FirstFamilyAvoids(lower, AliasTable, Backup);
    FirstFamilyAvoids(lower, AliasTable, VideoLink);
  }

  /** The link family is chosen only when a link was found. */
  lemma VideoNeedsLink(lower: string, linkFound: bool)
    ensures Classify(lower, linkFound) == VideoLink ==> linkFound
  {
    AliasFamilies(lower);
  }

  /** The prefix relation is transitive: a body starting with a longer alias starts with its prefix too. */
  lemma PrefixTransitive(a: string, b: string, s: string)
    requires a <= b && b <= s
    ensures a <= s
  {
    assert s[..|a|] == b[..|a|];
  }

  lemma NotBackup(lower: string)
    requires |lower| >= 2 && lower[0] == '/' && lower[1] != 'y' && lower[1] != 'b'
    ensures !CmdIs(lower, BackupAliases)
  {
    forall a | a in BackupAliases ensures !(a <= lower) {
      assert a[1] == 'y' || a[1] == 'b';
    }
  }

  /** A link is claimed before every alias family except backup. */
  lemma LinkBeforeAliases(lower: string)
    requires !CmdIs(lower, BackupAliases)
    ensures Classify(lower, true) == VideoLink
  {
  }

  /** `/qm` is tested before its prefix `/q`: a body starting with `/qm` never reaches the photo sticker. */
  lemma QmNeverImageSticker(lower: string, linkFound: bool)
    requires "/qm" <= lower
    ensures Classify(lower, linkFound) == (if linkFound then VideoLink else TextSticker)
  {
    assert lower[0] == '/' && lower[1] == 'q';
    NotBackup(lower);
    assert CmdIs(lower, AliasTable[0].1) by { assert "/qm" in AliasTable[0].1; }
    FirstFamilyAt(lower, AliasTable, 0);
  }

  /** The photo-sticker family is reached only by bodies that do not start with `/qm`. */
  lemma ImageStickerNeedsNoQm(lower: string, linkFound: bool)
    requires Classify(lower, linkFound) == ImageSticker
    ensures !("/qm" <= lower)
  {
    if "/qm" <= lower {
      QmNeverImageSticker(lower, linkFound);
    }
  }

  /**
   `/karaliste` is a prefix of the Turkish remove aliases, and the add family is
   tested first: those bodies add to the blacklist.
   */
  lemma TurkishRemoveAliasesAdd(lower: string, linkFound: bool)
    requires "/karalistencikar" <= lower || "/karalistedencikar" <= lower || "/karalisteçikar" <= lower
    ensures Classify(lower, linkFound) == (if linkFound then VideoLink else BlacklistAdd)
  {
    if "/karalistencikar" <= lower {
      PrefixTransitive("/karaliste", "/karalistencikar", lower);
    } else if "/karalistedencikar" <= lower {
      PrefixTransitive("/karaliste", "/karalistedencikar", lower);
    } else {
      PrefixTransitive("/karaliste", "/karalisteçikar", lower);
    }
    assert lower[0] == '/' && lower[1] == 'k';
    NotBackup(lower);
    assert !CmdIs(lower, AliasTable[0].1) by {
      forall a | a in AliasTable[0].1 ensures !(a <= lower) { assert a[1] != 'k'; }
    }
    assert !CmdIs(lower, AliasTable[1].1) by {
      forall a | a in AliasTable[1].1 ensures !(a <= lower) { assert a[1] != 'k'; }
    }
    assert CmdIs(lower, AliasTable[2].1) by { assert "/karaliste" in AliasTable[2].1; }
    FirstFamilyAt(lower, AliasTable, 2);
  }

  /** So the remove family is only ever reached through `/unblacklist`. */
  lemma RemoveOnlyByUnblacklist(lower: string, linkFound: bool)
    requires Classify(lower, linkFound) == BlacklistRemove
    ensures "/unblacklist" <= lower
  {
    if !("/unblacklist" <= lower) {
      var a :| a in AliasTable[4].1 && a <= lower by {
        RemoveReached(lower, linkFound);
      }
      TurkishRemoveAliasesAdd(lower, linkFound);
    }
  }

  lemma RemoveReached(lower: string, linkFound: bool)
    requires Classify(lower, linkFound) == BlacklistRemove
    ensures CmdIs(lower, AliasTable[4].1)
  {
    var i := FirstFamilyWitness(lower, AliasTable);
    assert AliasTable[i].0 == BlacklistRemove;
    assert i == 4;
  }
}
