/** Cleaning up the scopes a caller asks for. The vocabulary is any list of words. */
module Scopes {
  import opened Prelude
  import opened Text

  datatype Cleaned = Accepted(scopes: seq<string>) | Refused(bad: string)

  function Clean(raw: string, lower: char -> char): string { Lowered(Trim(raw), lower) }

  function CleanAll(raw: seq<string>, lower: char -> char): seq<string> {
    seq(|raw|, i requires 0 <= i < |raw| => Clean(raw[i], lower))
  }

  function FirstIndex(s: seq<string>, x: string): (k: nat)
    requires x in s
    ensures k < |s| && s[k] == x && x !in s[..k]
  {
    if s[0] == x then 0 else
      var k := FirstIndex(s[1..], x) + 1;
      assert s[..k] == [s[0]] + s[1..][..k - 1];
      k
  }

  /** Each word once, where it first stands. */
  function Dedup(s: seq<string>): (r: seq<string>)
    ensures forall x :: x in r <==> x in s
    ensures Distinct(r)
  {
    if s == [] then [] else
      var front := s[..|s| - 1];
      assert s == front + [s[|s| - 1]];
      var d := Dedup(front);
      if s[|s| - 1] in d then d else d + [s[|s| - 1]]
  }

  predicate AllKnown(s: seq<string>, vocabulary: seq<string>) {
    forall x :: x in s ==> x != "" && x in vocabulary
  }

  /** The i-th word is the first that is blank or unknown. */
  predicate FirstBad(s: seq<string>, vocabulary: seq<string>, i: nat) {
    i < |s| && (s[i] == "" || s[i] !in vocabulary) && AllKnown(s[..i], vocabulary)
  }

  ghost predicate RefusedFor(s: seq<string>, vocabulary: seq<string>, bad: string) {
    exists i :: 0 <= i < |s| && FirstBad(s, vocabulary, i) && s[i] == bad
  }

  lemma NothingToDedup(vocabulary: seq<string>)
    ensures Dedup([]) == [] && AllKnown([], vocabulary)
  {
  }

  lemma DedupNext(s: seq<string>, i: nat, vocabulary: seq<string>)
    requires i < |s|
    ensures var d := Dedup(s[..i]); Dedup(s[..i + 1]) == if s[i] in d then d else d + [s[i]]
    ensures AllKnown(s[..i + 1], vocabulary) <==> AllKnown(s[..i], vocabulary) && s[i] != "" && s[i] in vocabulary
  {
    assert s[..i + 1][..i] == s[..i] && s[..i + 1][i] == s[i];
    hide Distinct;
    KnownNext(s, i, vocabulary);
    hide AllKnown;
  }

  lemma KnownNext(s: seq<string>, i: nat, vocabulary: seq<string>)
    requires i < |s|
    ensures AllKnown(s[..i + 1], vocabulary) <==> AllKnown(s[..i], vocabulary) && s[i] != "" && s[i] in vocabulary
  {
    var a, b := s[..i], s[..i + 1];
    assert b == a + [s[i]];
    assert s[i] in b && forall x :: x in a ==> x in b;
  }

  lemma BadMeansNotAllKnown(s: seq<string>, vocabulary: seq<string>, i: nat)
    requires FirstBad(s, vocabulary, i)
    ensures !AllKnown(s, vocabulary)
  {
    assert s[i] in s;
  }

  lemma CleanedWords(raw: seq<string>, vocabulary: seq<string>, lower: char -> char)
    ensures var words := CleanAll(raw, lower);
            && (AllKnown(words, vocabulary) <==>
                  forall i :: 0 <= i < |raw| ==> Lowered(Trim(raw[i]), lower) in vocabulary && Trim(raw[i]) != "")
            && (forall x :: x in Dedup(words) <==> exists i :: 0 <= i < |raw| && x == Lowered(Trim(raw[i]), lower))
            && Distinct(Dedup(words))
  {
    hide Trim, Dedup, Lowered;
    var words := CleanAll(raw, lower);
    assert forall i :: 0 <= i < |raw| ==> words[i] == Lowered(Trim(raw[i]), lower);
    if AllKnown(words, vocabulary) {
      forall i | 0 <= i < |raw| ensures Lowered(Trim(raw[i]), lower) in vocabulary && Trim(raw[i]) != "" {
        assert words[i] in words;
      }
    }
  }

  /** Trimmed and lowered, every entry must be a known scope; each is then kept once. */
  method NormalizeScopes(raw: seq<string>, vocabulary: seq<string>, lower: char -> char) returns (r: Cleaned)
    ensures r.Accepted? <==> AllKnown(CleanAll(raw, lower), vocabulary)
    ensures r.Accepted? ==> r.scopes == Dedup(CleanAll(raw, lower))
    ensures r.Refused? ==> RefusedFor(CleanAll(raw, lower), vocabulary, r.bad)
    ensures r.Accepted? <==>
              forall i :: 0 <= i < |raw| ==> Lowered(Trim(raw[i]), lower) in vocabulary && Trim(raw[i]) != ""
    ensures r.Accepted? ==>
              Distinct(r.scopes)
              && forall x :: x in r.scopes <==> exists i :: 0 <= i < |raw| && x == Lowered(Trim(raw[i]), lower)
  {
    CleanedWords(raw, vocabulary, lower);
    hide Clean, Dedup, AllKnown, Distinct;
    ghost var words := CleanAll(raw, lower);
    NothingToDedup(vocabulary);
    assert words[..0] == [];
    var seen: set<string> := {};
    var out: seq<string> := [];
    for i := 0 to |raw|
      invariant out == Dedup(words[..i]) && AllKnown(words[..i], vocabulary)
      invariant forall x :: x in seen <==> x in out
    {
      DedupNext(words, i, vocabulary);
      var s := Clean(raw[i], lower);
      assert words[i] == s;
      if s == "" || s !in vocabulary {
        assert FirstBad(words, vocabulary, i);
        BadMeansNotAllKnown(words, vocabulary, i);
        assert RefusedFor(words, vocabulary, s);
        return Refused(s);
      }
      if s in seen {
        continue;
      }
      seen := seen + {s};
      out := out + [s];
    }
    assert words[..|raw|] == words;
    return Accepted(out);
  }

  lemma {:induction false} DistinctIsItsOwnDedup(s: seq<string>)
    requires Distinct(s)
    ensures Dedup(s) == s
  {
    if s != [] {
      var front := s[..|s| - 1];
      DistinctIsItsOwnDedup(front);
      assert s == front + [s[|s| - 1]];
    }
  }

  lemma {:induction false} FirstIndexIsFirst(s: seq<string>, x: string, k: nat)
    requires k < |s| && s[k] == x && x !in s[..k]
    ensures FirstIndex(s, x) == k
  {
    if k > 0 {
      assert s[0] in s[..k];
      assert s[1..][..k - 1] == s[..k][1..];
      FirstIndexIsFirst(s[1..], x, k - 1);
    }
  }

  lemma SameFirst(front: seq<string>, last: string, x: string)
    requires x in front
    ensures FirstIndex(front + [last], x) == FirstIndex(front, x)
  {
    hide FirstIndex;
    var k := FirstIndex(front, x);
    assert (front + [last])[..k] == front[..k];
    FirstIndexIsFirst(front + [last], x, k);
  }

  /** What survives keeps the order of first mention. */
  lemma {:induction false} FirstMentionOrder(s: seq<string>, i: nat, j: nat)
    requires i < j < |Dedup(s)|
    ensures FirstIndex(s, Dedup(s)[i]) < FirstIndex(s, Dedup(s)[j])
  {
    hide FirstIndex;
    var front, last := s[..|s| - 1], s[|s| - 1];
    assert s == front + [last];
    var d := Dedup(front);
    var x, y := Dedup(s)[i], Dedup(s)[j];
    assert x == d[i] && x in d;
    SameFirst(front, last, x);
    if j < |d| {
      FirstMentionOrder(front, i, j);
      assert y == d[j] && y in d;
      SameFirst(front, last, y);
    } else {
      assert y == last && y !in front;
      assert s[..|front|] == front;
      FirstIndexIsFirst(s, y, |front|);
    }
  }

  /** The vocabulary is written the way entries are cleaned. */
  ghost predicate CleanVocabulary(vocabulary: seq<string>, lower: char -> char) {
    forall v :: v in vocabulary ==> v != "" && Clean(v, lower) == v
  }

  /** Normalizing again changes nothing, and no list is longer than the vocabulary. */
  lemma NormalFormIsStable(raw: seq<string>, vocabulary: seq<string>, lower: char -> char)
    requires CleanVocabulary(vocabulary, lower) && AllKnown(CleanAll(raw, lower), vocabulary)
    ensures var out := Dedup(CleanAll(raw, lower));
            && AllKnown(CleanAll(out, lower), vocabulary)
            && Dedup(CleanAll(out, lower)) == out
            && |out| <= |vocabulary|
  {
    hide Clean, Dedup;
    var words := CleanAll(raw, lower);
    var out := Dedup(words);
    forall i | 0 <= i < |out| ensures out[i] in vocabulary && Clean(out[i], lower) == out[i] && out[i] != "" {
      assert out[i] in words;
      var j :| 0 <= j < |words| && words[j] == out[i];
    }
    assert CleanAll(out, lower) == out;
    forall x | x in out ensures x in vocabulary && x != "" {
      var i :| 0 <= i < |out| && out[i] == x;
    }
    DistinctIsItsOwnDedup(out);
    FewerThan(out, vocabulary);
  }

  lemma {:induction false} FewerThan(a: seq<string>, b: seq<string>)
    requires Distinct(a) && forall x :: x in a ==> x in b
    ensures |a| <= |b|
  {
    if a != [] {
      var x := a[0];
      assert x in b;
      var i :| 0 <= i < |b| && b[i] == x;
      var rest := b[..i] + b[i + 1..];
      forall y | y in a[1..] ensures y in rest {
        assert y in b && y != x;
        var k :| 0 <= k < |b| && b[k] == y;
        if k < i { assert rest[k] == y; } else { assert rest[k - 1] == y; }
      }
      FewerThan(a[1..], rest);
    }
  }

  /** Whether the words match, one by one and in any order: a list accepted in one
      order is accepted in any, with the same scopes. */
  lemma OrderOnlyOrders(a: seq<string>, b: seq<string>, vocabulary: seq<string>)
    requires multiset(a) == multiset(b)
    ensures AllKnown(a, vocabulary) <==> AllKnown(b, vocabulary)
    ensures multiset(Dedup(a)) == multiset(Dedup(b))
  {
    hide Dedup;
    SameElements(a, b);
    SameMembersSameBag(Dedup(a), Dedup(b));
  }

  // ---------------------------------------------------------------------
  // The vocabulary in use
  // ---------------------------------------------------------------------

  const AllScopes: seq<string> := [
    "users:read", "users:write", "roles:read", "roles:write", "sessions:read", "sessions:revoke",
    "invitations:read", "invitations:write", "audit:read"]

  /** Its words need no trimming; that lowering leaves them alone is taken from Unicode. */
  lemma ScopesAreClean(lower: char -> char)
    requires forall v :: v in AllScopes ==> Lowered(v, lower) == v
    ensures CleanVocabulary(AllScopes, lower) && |AllScopes| == 9
  {
    ScopesAreTrimmed();
    hide Trim, Lowered, Trimmed;
    forall v | v in AllScopes ensures v != "" && Clean(v, lower) == v {
      TrimTrims(v);
    }
  }

  /** What a credential stores: at most the nine scopes, each of them a real one, and
      normalizing the stored list again gives it back. */
  lemma CredentialScopesAreStable(raw: seq<string>, lower: char -> char)
    requires forall v :: v in AllScopes ==> Lowered(v, lower) == v
    requires AllKnown(CleanAll(raw, lower), AllScopes)
    ensures var out := Dedup(CleanAll(raw, lower));
            && |out| <= 9
            && (forall x :: x in out ==> x in AllScopes)
            && AllKnown(CleanAll(out, lower), AllScopes)
            && Dedup(CleanAll(out, lower)) == out
  {
    ScopesAreClean(lower);
    hide Clean, Dedup, Lowered;
    NormalFormIsStable(raw, AllScopes, lower);
  }

  lemma ScopesAreTrimmed()
    ensures forall v :: v in AllScopes ==> v != "" && Trimmed(v)
  {
  }
}
