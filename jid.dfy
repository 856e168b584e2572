/**
 Chat identities (JIDs). `normalizeJid` turns raw input (a phone number with
 punctuation, or a full JID) into the canonical form every membership check
 compares; the kick command builds its target with a different rule.
 */
module Jid {

  import opened Wrappers
  import opened Text

  /** A value handed to `normalizeJid`: a string, or anything else a JSON document holds. */
  datatype Raw = Str(s: string) | NonString

  const UserSuffix: string := "@c.us"
  const CountryPrefix: string := "90"

  /** The local part `normalizeJid` builds from the digits of a number that has at least ten. */
  function LocalPart(digits: string): string {
    if |digits| == 10 && !(CountryPrefix <= digits) then CountryPrefix + digits else digits
  }

  /** `normalizeJid`: `None` stands for the JavaScript `null`. Every result is a full JID in trimmed form. */
  function NormalizeJid(raw: Raw): (r: Option<string>)
    ensures r.Some? ==> '@' in r.value && Trimmed(r.value)
  {
    match raw
    case NonString => None
    case Str(s) =>
      if s == "" then None
      else
        var t := Trim(s);
        if '@' in t then Some(t)
        else
          var d := Digits(t);
          if |d| >= 10 then
            var j := LocalPart(d) + UserSuffix;
            assert j[|j| - 1] == 's';
            Some(j)
          else None
  }

  /** The cases of `normalizeJid`, stated on the trimmed input. */
  lemma NormalizeJidCases(raw: Raw)
    // a non-string, or a string whose trimmed form neither has '@' nor ten digits, is rejected
    ensures NormalizeJid(raw).None? <==> raw.NonString? || ('@' !in Trim(raw.s) && |Digits(Trim(raw.s))| < 10)
    // a string that already holds a domain marker passes through, trimmed
    ensures raw.Str? && '@' in Trim(raw.s) ==> NormalizeJid(raw) == Some(Trim(raw.s))
    // otherwise the digits gain the country prefix only when there are exactly ten not starting with it
    ensures raw.Str? && '@' !in Trim(raw.s) && NormalizeJid(raw).Some? ==>
              var d := Digits(Trim(raw.s));
              && NormalizeJid(raw).value == LocalPart(d) + UserSuffix
              && (if |d| == 10 && !(CountryPrefix <= d) then LocalPart(d) == CountryPrefix + d else LocalPart(d) == d)
  {
  }

  /** A trimmed input without '@' whose digits are `d`, at least ten of them, normalises to `LocalPart(d)` and the suffix. */
  lemma NormalizeByDigits(s: string, d: string)
    requires s != "" && Trimmed(s) && '@' !in s && Digits(s) == d && |d| >= 10
    ensures NormalizeJid(Str(s)) == Some(LocalPart(d) + UserSuffix)
  {
    TrimFixed(s);
  }

  /** Normalising a normalised JID changes nothing. */
  lemma NormalizeIdempotent(raw: Raw)
    ensures NormalizeJid(raw).Some? ==> NormalizeJid(Str(NormalizeJid(raw).value)) == NormalizeJid(raw)
  {
    if NormalizeJid(raw).Some? {
      CanonicalIsFixed(NormalizeJid(raw).value);
    }
  }

  /** A trimmed string holding '@' is left as it is. */
  lemma CanonicalIsFixed(j: string)
    requires '@' in j && Trimmed(j)
    ensures NormalizeJid(Str(j)) == Some(j)
  {
    TrimFixed(j);
    assert Trim(j) == j && j != "";
    assert '@' in Trim(j);
  }

  /** A canonical JID as every result of `normalizeJid` is. */
  predicate Canonical(j: string) {
    NormalizeJid(Str(j)) == Some(j)
  }

  /** `normalizeJid(x) || x`: the form the blacklist gate and commands compare. */
  function NormalizeOrKeep(s: string): (r: string)
    ensures r == s || Canonical(r)
    ensures NormalizeJid(Str(s)).Some? ==> r == NormalizeJid(Str(s)).value
    ensures NormalizeJid(Str(s)).None? ==> r == s
  {
    NormalizeIdempotent(Str(s));
    match NormalizeJid(Str(s))
    case Some(j) => j
    case None => s
  }

  /**
   The kick command's phone number: the digits of the argument, rejected below
   ten digits, with the country prefix put in front of every number that does not
   already start with it, whatever its length.
   */
  function KickPhone(arg: string): (r: Option<string>)
    ensures r.None? <==> |Digits(arg)| < 10
    ensures r.Some? ==> CountryPrefix <= r.value && forall k :: 0 <= k < |r.value| ==> IsDigit(r.value[k])
    ensures r.Some? ==> r.value == (if CountryPrefix <= Digits(arg) then Digits(arg) else CountryPrefix + Digits(arg))
  {
    var phone := Digits(arg);
    if |phone| < 10 then None
    else if CountryPrefix <= phone then Some(phone)
    else Some(CountryPrefix + phone)
  }

  /** On a ten-digit number the kick target and `normalizeJid` agree. */
  lemma KickAgreesOnTenDigits(arg: string)
    requires arg != [] && NoSpace(arg) && '@' !in arg
    requires |Digits(arg)| == 10
    ensures KickPhone(arg).Some? && NormalizeJid(Str(arg)) == Some(KickPhone(arg).value + UserSuffix)
  {
    TrimFixed(arg);
  }

  /** Above ten digits the two rules part: the kick command still adds the prefix, `normalizeJid` does not. */
  lemma KickDiffersAboveTenDigits(arg: string)
    requires arg != [] && NoSpace(arg) && '@' !in arg
    requires |Digits(arg)| > 10 && !(CountryPrefix <= Digits(arg))
    ensures KickPhone(arg).Some? && NormalizeJid(Str(arg)).Some?
    ensures NormalizeJid(Str(arg)).value != KickPhone(arg).value + UserSuffix
  {
    TrimFixed(arg);
    var d := Digits(arg);
    var a := NormalizeJid(Str(arg)).value;
    var b := KickPhone(arg).value + UserSuffix;
    assert |a| == |d| + 5 && |b| == |d| + 7;
  }
}
