/**
 Settings: the download size ceiling in megabytes (default 50) and the
 optional admin list, read from `settings.json`; the max-size command's
 argument validation; and the size-admission rule applied after a download.
 */
module Settings {

  import opened Wrappers
  import opened Text
  import opened Jid
  import opened Numbers

  const DefaultMaxFileSizeMB: int := 50

  /** Bytes per megabyte in `stats.size / (1024 * 1024)`. */
  const MiB: nat := 1024 * 1024

  /** The parsed `settings.json`, with the two fields the bot reads. */
  datatype SettingsDoc =
    | NoSettings                                             // no file
    | BadSettings                                            // unreadable or not JSON
    | Doc(maxFileSizeMB: Option<int>, adminJids: Option<seq<Raw>>)   // `adminJids` is None unless it is an array

  /** `Object.assign(settings, data)`: the file's ceiling replaces the default when present. */
  function LoadedMax(doc: SettingsDoc): (mb: int)
    ensures doc.Doc? && doc.maxFileSizeMB.Some? ==> mb == doc.maxFileSizeMB.value
    ensures !doc.Doc? || doc.maxFileSizeMB.None? ==> mb == DefaultMaxFileSizeMB
  {
    match doc
    case Doc(Some(mb), _) => mb
    case _ => DefaultMaxFileSizeMB
  }

  /** `settings.adminJids` when it is an array. */
  function SettingsAdmins(doc: SettingsDoc): (r: Option<seq<Raw>>)
    ensures doc.Doc? ==> r == doc.adminJids
    ensures !doc.Doc? ==> r.None?
  {
    match doc
    case Doc(_, admins) => admins
    case _ => None
  }

  /** The admission test `stats.size / (1024 * 1024) > settings.maxFileSizeMB`, on integers. */
  predicate Oversize(sizeBytes: nat, maxMB: int)
    ensures Oversize(sizeBytes, maxMB) ==> sizeBytes / MiB >= maxMB
    ensures sizeBytes / MiB > maxMB ==> Oversize(sizeBytes, maxMB)
  {
    sizeBytes > maxMB * MiB
  }

  /** The integer test agrees with the source's division of the byte size by a megabyte. */
  lemma OversizeIsDivision(sizeBytes: nat, maxMB: int)
    ensures Oversize(sizeBytes, maxMB) <==> sizeBytes as real / MiB as real > maxMB as real
  {
    var q := sizeBytes as real / MiB as real;
    assert q * MiB as real == sizeBytes as real;
    if Oversize(sizeBytes, maxMB) {
      assert sizeBytes as real > maxMB as real * MiB as real;
    } else {
      assert sizeBytes as real <= maxMB as real * MiB as real;
    }
  }

  datatype SizeArgument =
    | MissingArgument   // no second word
    | NotPositive       // `Number.isNaN(parsed) || parsed <= 0`
    | Accepted(mb: int) // `Math.floor(parsed)`

  /** The max-size command's checks on `parts[1]`, in the source's order. */
  function ValidateMaxSize(arg: Option<string>): (r: SizeArgument)
    ensures r.Accepted? ==> 0 <= r.mb
    ensures r.Accepted? ==> arg.Some? && ToNumber(arg.value).Finite?
                            && r.mb as real <= ToNumber(arg.value).v < r.mb as real + 1.0
  {
    match arg
    case None => MissingArgument
    case Some(a) =>
      match ToNumber(a)
      case NaN => NotPositive
      case Finite(v) => if v <= 0.0 then NotPositive else Accepted(v.Floor)
  }

  /** A positive whole number is stored as it is. */
  lemma WholeNumberAccepted(a: string)
    requires a != "" && AllDigits(a) && DigitsValue(a) > 0
    ensures ValidateMaxSize(Some(a)) == Accepted(DigitsValue(a))
  {
    NumeralValue(a);
  }

  /** Zero is not positive and is refused. */
  lemma ZeroRefused()
    ensures ValidateMaxSize(Some("0")) == NotPositive
  {
    NumeralValue("0");
  }

  /** A positive fraction below one passes the check and is floored to 0: the stored ceiling can be 0. */
  lemma FractionBelowOneStoresZero()
    ensures ValidateMaxSize(Some("0.5")) == Accepted(0)
  {
    assert Split("0.5", '.') == ["0", "5"] by {
      var s := "0.5";
      assert s[0] == '0' && s[1..] == ".5" && s[1..][1..] == "5";
      SplitWithoutSeparator("5", '.');
      var rest := Split(".5", '.');
      assert rest == [""] + ["5"];
      assert rest[0] == "" && rest[1..] == ["5"];
      assert [s[0]] + rest[0] == "0";
      assert Split(s, '.') == [[s[0]] + rest[0]] + rest[1..];
    }
    assert DigitsValue("0") == 0 && DigitsValue("5") == 5;
  }
}
