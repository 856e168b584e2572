/**
 The blacklist: an ordered list of chat identities, loaded from a JSON array
 (normalised, nulls dropped, duplicates removed), grown by `push` when an
 identity is absent and shrunk by `filter` when it is present.
 */
module Blacklist {

  import opened Wrappers
  import opened Jid

  predicate NoDuplicates(s: seq<string>) {
    forall i, j :: 0 <= i < j < |s| ==> s[i] != s[j]
  }

  /** `Array.from(new Set(s))`: the first occurrence of each element, in order. */
  function Dedup(s: seq<string>): (r: seq<string>)
    ensures NoDuplicates(r)
    ensures forall x :: x in r <==> x in s
    ensures |r| <= |s|
  {
    if s == [] then []
    else
      var d := Dedup(s[..|s| - 1]);
      var x := s[|s| - 1];
      if x in d then d else d + [x]
  }

  /** A list without duplicates is its own deduplication. */
  lemma {:induction false} DedupOfDistinct(s: seq<string>)
    requires NoDuplicates(s)
    ensures Dedup(s) == s
  {
    if s != [] {
      var init := s[..|s| - 1];
      assert NoDuplicates(init);
      DedupOfDistinct(init);
      assert s[|s| - 1] !in init;
      assert init + [s[|s| - 1]] == s;
    }
  }

  /**
   The set keeps first-occurrence order: of two kept identities, the earlier one
   occurs in the input before the later one first does.
   */
  lemma {:induction false} DedupKeepsFirstOrder(s: seq<string>, i: nat, j: nat)
    requires i < j < |Dedup(s)|
    ensures exists k :: 0 <= k < |s| && s[k] == Dedup(s)[i] && Dedup(s)[j] !in s[..k]
  {
    var init, x := s[..|s| - 1], s[|s| - 1];
    var d := Dedup(init);
    if j < |d| {
      assert Dedup(s)[i] == d[i] && Dedup(s)[j] == d[j];
      DedupKeepsFirstOrder(init, i, j);
      var k :| 0 <= k < |init| && init[k] == d[i] && d[j] !in init[..k];
      assert s[k] == init[k] && s[..k] == init[..k];
    } else {
      assert Dedup(s) == d + [x] && Dedup(s)[j] == x && x !in init;
      assert d[i] in init;
      var k :| 0 <= k < |init| && init[k] == d[i];
      assert s[k] == init[k] && s[..k] == init[..k];
    }
  }

  /** `data.map(normalizeJid).filter(Boolean)`. */
  function NormalizedEntries(xs: seq<Raw>): (r: seq<string>)
    ensures forall i :: 0 <= i < |r| ==> Canonical(r[i])
    ensures forall j :: j in r <==> exists i :: 0 <= i < |xs| && NormalizeJid(xs[i]) == Some(j)
  {
    if xs == [] then []
    else
      var rest := NormalizedEntries(xs[1..]);
      NormalizeIdempotent(xs[0]);
      var r := match NormalizeJid(xs[0])
        case Some(j) => [j] + rest
        case None => rest;
      assert forall j :: j in r <==> exists i :: 0 <= i < |xs| && NormalizeJid(xs[i]) == Some(j) by {
        forall j ensures j in r <==> exists i :: 0 <= i < |xs| && NormalizeJid(xs[i]) == Some(j) {
          if j in rest {
            var i :| 0 <= i < |xs[1..]| && NormalizeJid(xs[1..][i]) == Some(j);
            assert NormalizeJid(xs[i + 1]) == Some(j);
          }
          if i :| 0 <= i < |xs| && NormalizeJid(xs[i]) == Some(j) {
            if i > 0 {
              assert NormalizeJid(xs[1..][i - 1]) == Some(j);
            }
          }
        }
      }
      r
  }

  /** What `blacklist.json` holds when the bot starts. */
  datatype Stored =
    | Absent              // no file
    | Malformed           // unreadable, not JSON, or JSON that is not an array
    | Entries(items: seq<Raw>)

  /** The blacklist after the start-up load. */
  function Load(stored: Stored): (r: seq<string>)
    ensures NoDuplicates(r)
    ensures forall i :: 0 <= i < |r| ==> Canonical(r[i])
    ensures stored.Entries? ==>
      forall j :: j in r <==> exists i :: 0 <= i < |stored.items| && NormalizeJid(stored.items[i]) == Some(j)
    ensures !stored.Entries? ==> r == []
  {
    match stored
    case Absent => []
    case Malformed => []
    case Entries(xs) =>
      var r := Dedup(NormalizedEntries(xs));
      assert forall x :: x in r ==> Canonical(x);
      r
  }

  /** The add command: `push` when absent, otherwise the list is left alone. */
  function AddEntry(bl: seq<string>, j: string): (r: seq<string>)
    ensures j in r
    ensures j !in bl ==> r == bl + [j]
    ensures j in bl ==> r == bl
  {
    if j !in bl then bl + [j] else bl
  }

  /** The remove command: `blacklist.filter(x => x !== j)`. */
  function RemoveEntry(bl: seq<string>, j: string): (r: seq<string>)
    ensures forall x :: x in r <==> x in bl && x != j
    ensures |r| <= |bl|
  {
    if bl == [] then []
    else (if bl[0] == j then [] else [bl[0]]) + RemoveEntry(bl[1..], j)
  }

  /** Removing an absent identity leaves the list as it was. */
  lemma {:induction false} RemoveAbsent(bl: seq<string>, j: string)
    requires j !in bl
    ensures RemoveEntry(bl, j) == bl
  {
    if bl != [] {
      RemoveAbsent(bl[1..], j);
      assert [bl[0]] + bl[1..] == bl;
    }
  }

  lemma {:induction false} RemoveAppend(a: seq<string>, b: seq<string>, j: string)
    ensures RemoveEntry(a + b, j) == RemoveEntry(a, j) + RemoveEntry(b, j)
  {
    if a != [] {
      assert (a + b)[1..] == a[1..] + b;
      RemoveAppend(a[1..], b, j);
    } else {
      assert a + b == b;
    }
  }

  /** Adding an absent identity and then removing it restores the original list. */
  lemma AddThenRemove(bl: seq<string>, j: string)
    requires j !in bl
    ensures RemoveEntry(AddEntry(bl, j), j) == bl
  {
    RemoveAppend(bl, [j], j);
    RemoveAbsent(bl, j);
    assert RemoveEntry([j], j) == [];
  }

  /** The filter keeps the survivors in order, so it never creates a duplicate. */
  lemma {:induction false} RemoveKeepsDistinct(bl: seq<string>, j: string)
    requires NoDuplicates(bl)
    ensures NoDuplicates(RemoveEntry(bl, j))
  {
    if bl != [] {
      var tail := bl[1..];
      assert NoDuplicates(tail);
      RemoveKeepsDistinct(tail, j);
      assert bl[0] !in tail;
      assert bl[0] !in RemoveEntry(tail, j);
    }
  }

  /** Adding never creates a duplicate either. */
  lemma AddKeepsDistinct(bl: seq<string>, j: string)
    requires NoDuplicates(bl)
    ensures NoDuplicates(AddEntry(bl, j))
  {
  }
}
