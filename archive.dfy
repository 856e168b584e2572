/**
 What the backup command puts in its zip: the source directories that exist,
 each under its name in the archive, and the archive's dated path.
 */
module Archive {

  /** A directory the backup may include: the path tested, the directory added, its name in the archive. */
  datatype Source = Source(tested: string, dir: string, name: string)

  /** The `existsSync` / `archive.directory` pairs of `createWeeklyBackup`, in order. */
  const Sources: seq<Source> := [
    Source(".wwebjs_auth", ".wwebjs_auth/", "wwebjs_auth"),
    Source("./logs", "./logs/", "logs"),
    Source("./videos", "./videos/", "videos")
  ]

  /** The sources of `srcs` whose tested path exists, in their order. */
  function Existing(srcs: seq<Source>, existing: set<string>): (r: seq<Source>)
    ensures |r| <= |srcs|
    ensures forall i :: 0 <= i < |r| ==> r[i] in srcs && r[i].tested in existing
  {
    if srcs == [] then []
    else (if srcs[0].tested in existing then [srcs[0]] else []) + Existing(srcs[1..], existing)
  }

  /** The archive's contents: the known sources whose directory exists. */
  function Included(existing: set<string>): seq<Source> {
    Existing(Sources, existing)
  }

  /** A source is archived exactly when it is one of the listed ones and its directory exists. */
  lemma {:induction false} ExistingMembers(srcs: seq<Source>, existing: set<string>, x: Source)
    ensures x in Existing(srcs, existing) <==> x in srcs && x.tested in existing
  {
    if srcs != [] {
      ExistingMembers(srcs[1..], existing, x);
      assert srcs == [srcs[0]] + srcs[1..];
    }
  }

  lemma IncludedIff(existing: set<string>, x: Source)
    ensures x in Included(existing) <==> x in Sources && x.tested in existing
  {
    ExistingMembers(Sources, existing, x);
  }

  /** With every directory present all three are archived, in the source's order. */
  lemma AllExisting()
    ensures Included({".wwebjs_auth", "./logs", "./videos"}) == Sources
  {
    var e := {".wwebjs_auth", "./logs", "./videos"};
    assert Sources[1..][1..][1..] == [];
    assert Existing(Sources[1..][1..], e) == [Sources[2]];
    assert Existing(Sources[1..], e) == [Sources[1], Sources[2]];
  }

  const ArchivePrefix: string := "backups/backup-"
  const ArchiveSuffix: string := ".zip"

  /** `path.join('./backups', 'backup-' + day + '.zip')`, `day` being the `YYYY-MM-DD` of the current time. */
  function ArchivePath(day: string): (p: string)
    ensures ArchivePrefix <= p && |p| == |ArchivePrefix| + |day| + |ArchiveSuffix|
    ensures p[|ArchivePrefix|..|p| - |ArchiveSuffix|] == day
    ensures p[|p| - |ArchiveSuffix|..] == ArchiveSuffix
  {
    ArchivePrefix + day + ArchiveSuffix
  }

  /** Distinct days give distinct archives; two backups on one day write the same file. */
  lemma ArchivePathInjective(d1: string, d2: string)
    ensures ArchivePath(d1) == ArchivePath(d2) <==> d1 == d2
  {
    if ArchivePath(d1) == ArchivePath(d2) {
      var n := |ArchivePrefix|;
      assert |d1| == |d2|;
      assert d1 == ArchivePath(d1)[n..n + |d1|];
      assert d2 == ArchivePath(d2)[n..n + |d2|];
    }
  }
}
