/**
 The link detector: an ordered table of (platform, matcher) entries, tried in
 order; the first entry whose pattern matches the message text wins. The
 regular expressions themselves are opaque matchers that return the matched
 text (`match[0]`) or nothing.
 */
module Links {

  import opened Wrappers

  /** A pattern of the table: the text of its first match, or `None`. */
  type Matcher = string -> Option<string>

  type Table = seq<(string, Matcher)>

  datatype Detection = Detection(platform: string, url: string)

  /** The platform tags of `urlPatterns`, in the order the object's entries are enumerated. */
  const Platforms: seq<string> := [
    "youtube", "instagram", "tiktok", "twitter", "facebook", "vimeo", "dailymotion",
    "pinterest", "reddit", "likee", "kwai",
    "pornhub", "xvideos", "xnxx", "xhamster", "redtube", "youporn"
  ]

  /** The table built from the platform tags and one matcher per tag. */
  function PatternTable(matchers: seq<Matcher>): (t: Table)
    requires |matchers| == |Platforms|
    ensures |t| == |Platforms|
    ensures forall i :: 0 <= i < |t| ==> t[i].0 == Platforms[i] && t[i].1 == matchers[i]
  {
    seq(|Platforms|, i requires 0 <= i < |Platforms| => (Platforms[i], matchers[i]))
  }

  /** Platform tags are unique, so a detection names exactly one entry of the table. */
  lemma PlatformsUnique()
    ensures forall i, j :: 0 <= i < j < |Platforms| ==> Platforms[i] != Platforms[j]
  {
  }

  /** The matched text, with `https://` put in front unless it already starts with `http`. */
  function WithScheme(m: string): (u: string)
    ensures "http" <= u
    ensures "http" <= m ==> u == m
    ensures !("http" <= m) ==> u == "https://" + m
  {
    if "http" <= m then m else "https://" + m
  }

  /** The result of the first entry of `table` that matches `text`. */
  function FirstHit(text: string, table: Table): (r: Option<Detection>)
    ensures r.Some? ==> "http" <= r.value.url
  {
    if table == [] then None
    else
      match table[0].1(text)
      case Some(m) => Some(Detection(table[0].0, WithScheme(m)))
      case None => FirstHit(text, table[1..])
  }

  /** `detectVideoUrl`: nothing for empty text, otherwise the first hit of the table. */
  function Detect(text: string, table: Table): (r: Option<Detection>)
    ensures text == "" ==> r.None?
    ensures table == [] ==> r.None?
    ensures r.Some? ==> "http" <= r.value.url
  {
    if text == "" then None else FirstHit(text, table)
  }

  /** The entry at `i` matches and none before it does, so the detection is entry `i`'s. */
  lemma {:induction false} DetectFirst(text: string, table: Table, i: nat)
    requires text != "" && i < |table| && table[i].1(text).Some?
    requires forall k :: 0 <= k < i ==> table[k].1(text).None?
    ensures Detect(text, table) == Some(Detection(table[i].0, WithScheme(table[i].1(text).value)))
  {
    FirstHitAt(text, table, i);
  }

  lemma {:induction false} FirstHitAt(text: string, table: Table, i: nat)
    requires i < |table| && table[i].1(text).Some?
    requires forall k :: 0 <= k < i ==> table[k].1(text).None?
    ensures FirstHit(text, table) == Some(Detection(table[i].0, WithScheme(table[i].1(text).value)))
  {
    if i > 0 {
      assert table[0].1(text).None?;
      var tail := table[1..];
      forall k | 0 <= k < i - 1 ensures tail[k].1(text).None? {
        assert tail[k] == table[k + 1];
      }
      FirstHitAt(text, tail, i - 1);
    }
  }

  /** Nothing is detected exactly when the text is empty or no entry matches. */
  lemma DetectNone(text: string, table: Table)
    ensures Detect(text, table).None? <==> text == "" || forall k :: 0 <= k < |table| ==> table[k].1(text).None?
  {
    if text != "" {
      FirstHitNone(text, table);
    }
  }

  lemma {:induction false} FirstHitNone(text: string, table: Table)
    ensures FirstHit(text, table).None? <==> forall k :: 0 <= k < |table| ==> table[k].1(text).None?
  {
    if table != [] {
      var tail := table[1..];
      FirstHitNone(text, tail);
      assert forall k :: 1 <= k < |table| ==> table[k] == tail[k - 1];
    }
  }

  /**
   Single match: when two entries match, the detection is the earlier one's
   (given that nothing before it matches), never the later one's.
   */
  lemma DetectSingleMatch(text: string, table: Table, i: nat, j: nat)
    requires text != "" && i < j < |table| && table[i].1(text).Some? && table[j].1(text).Some?
    requires forall k :: 0 <= k < i ==> table[k].1(text).None?
    requires table[i].0 != table[j].0
    ensures Detect(text, table).Some? && Detect(text, table).value.platform == table[i].0
    ensures Detect(text, table).value.platform != table[j].0
  {
    DetectFirst(text, table, i);
  }

  /** `detectVideoUrl` as the source writes it: a loop that returns its first hit. */
  method DetectVideoUrl(text: string, table: Table) returns (r: Option<Detection>)
    ensures r == Detect(text, table)
  {
    if text == "" {
      return None;
    }
    var i := 0;
    while i < |table|
      invariant 0 <= i <= |table|
      invariant FirstHit(text, table[i..]) == FirstHit(text, table)
    {
      var hit := table[i].1(text);
      if hit.Some? {
        return Some(Detection(table[i].0, WithScheme(hit.value)));
      }
      assert table[i..][1..] == table[i + 1..];
      i := i + 1;
    }
    return None;
  }
}
