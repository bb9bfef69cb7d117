/** What may enter the audit table: a closed vocabulary of reasons, an allowlist of
    metadata, and nothing else that came from a request. */
module Redaction {
  import opened Prelude
  import opened Text
  import opened Utf8

  // ---------------------------------------------------------------------
  // Reason codes
  // ---------------------------------------------------------------------

  const UNCLASSIFIED := "unclassified_error"

  predicate ContainsAt(s: string, sub: string, i: nat) { i + |sub| <= |s| && s[i..i + |sub|] == sub }

  ghost predicate Contains(s: string, sub: string) { exists i: nat :: ContainsAt(s, sub, i) }

  method IndexSearch(s: string, sub: string) returns (found: bool)
    ensures found <==> Contains(s, sub)
  {
    var i := 0;
    while i + |sub| <= |s|
      invariant forall j: nat :: j < i ==> !ContainsAt(s, sub, j)
    {
      if s[i..i + |sub|] == sub {
        assert ContainsAt(s, sub, i);
        return true;
      }
      i := i + 1;
    }
    return false;
  }

  /** Where the first code that the text contains stands in the vocabulary. */
  ghost function FirstMatch(vocabulary: seq<string>, text: string, from: nat): (k: nat)
    requires from <= |vocabulary|
    ensures from <= k <= |vocabulary|
    ensures k < |vocabulary| ==> Contains(text, vocabulary[k])
    ensures forall j :: from <= j < k ==> !Contains(text, vocabulary[j])
    decreases |vocabulary| - from
  {
    if from == |vocabulary| || Contains(text, vocabulary[from]) then from
    else FirstMatch(vocabulary, text, from + 1)
  }

  ghost function CodeFor(vocabulary: seq<string>, lower: char -> char, reason: string): string {
    if reason == "" then ""
    else
      var k := FirstMatch(vocabulary, Lowered(reason, lower), 0);
      if k < |vocabulary| then vocabulary[k] else UNCLASSIFIED
  }

  method ReasonCodeFor(vocabulary: seq<string>, lower: char -> char, reason: string) returns (code: string)
    ensures code == CodeFor(vocabulary, lower, reason)
  {
    if reason == "" {
      return "";
    }
    var text := Lowered(reason, lower);
    for k := 0 to |vocabulary|
      invariant FirstMatch(vocabulary, text, 0) == FirstMatch(vocabulary, text, k)
    {
      var found := IndexSearch(text, vocabulary[k]);
      if found {
        return vocabulary[k];
      }
    }
    return UNCLASSIFIED;
  }

  /** A text contains another when it reads the same with something before and after. */
  lemma ContainsIff(s: string, sub: string)
    ensures Contains(s, sub) <==> exists a: string, b: string :: s == a + sub + b
  {
    if i: nat :| ContainsAt(s, sub, i) {
      assert s == s[..i] + sub + s[i + |sub|..];
    }
    if a: string, b: string :| s == a + sub + b {
      assert ContainsAt(s, sub, |a|);
    }
  }

  /** Exactly which code a failure's text is stored under: the first of the vocabulary that
      stands anywhere in it, in whatever case, and the marker when none does. */
  lemma CodeForIff(vocabulary: seq<string>, lower: char -> char, reason: string, code: string)
    ensures var text := Lowered(reason, lower);
            CodeFor(vocabulary, lower, reason) == code <==>
            if reason == "" then code == ""
            else
              || (exists k :: 0 <= k < |vocabulary| && vocabulary[k] == code && Contains(text, code)
                              && forall j :: 0 <= j < k ==> !Contains(text, vocabulary[j]))
              || (code == "unclassified_error" && forall j :: 0 <= j < |vocabulary| ==> !Contains(text, vocabulary[j]))
  {
    hide Contains, Lowered;
  }

  /** So a code is found inside a longer text, unless an earlier one is in it too. */
  lemma CodeInTextIsFound(vocabulary: seq<string>, lower: char -> char, reason: string, before: string, k: nat,
                          after: string)
    requires k < |vocabulary| && reason != "" && Lowered(reason, lower) == before + vocabulary[k] + after
    requires forall j :: 0 <= j < k ==> !Contains(Lowered(reason, lower), vocabulary[j])
    ensures CodeFor(vocabulary, lower, reason) == vocabulary[k]
  {
    ContainsIff(Lowered(reason, lower), vocabulary[k]);
    CodeForIff(vocabulary, lower, reason, vocabulary[k]);
    hide CodeFor, Contains;
  }

  lemma ContainsTransitive(a: string, b: string, c: string)
    requires Contains(a, b) && Contains(b, c)
    ensures Contains(a, c)
  {
    var i: nat :| ContainsAt(a, b, i);
    var j: nat :| ContainsAt(b, c, j);
    forall k | 0 <= k < |c| ensures a[i + j + k] == c[k] {
      assert a[i..i + |b|][j + k] == a[i + j + k];
      assert b[j..j + |c|][k] == b[j + k];
    }
    assert ContainsAt(a, c, i + j);
  }

  lemma ContainsItself(a: string)
    ensures Contains(a, a)
  {
    assert ContainsAt(a, a, 0);
  }

  lemma CharactersOfPart(text: string, part: string)
    requires Contains(text, part)
    ensures forall c :: c in part ==> c in text
  {
    var i: nat :| ContainsAt(text, part, i);
    forall c | c in part ensures c in text {
      var j :| 0 <= j < |part| && part[j] == c;
      assert text[i..i + |part|][j] == text[i + j];
    }
  }

  /** A code holding a character the text does not have is not in the text. */
  lemma ForeignCharacter(text: string, code: string, c: char)
    requires c in code && c !in text
    ensures !Contains(text, code)
  {
    hide Contains;
    if Contains(text, code) { CharactersOfPart(text, code); }
  }

  /** The vocabulary is written in letters that lowering leaves alone, no code is
      empty, and the marker for everything else is not one of them in disguise. */
  ghost predicate GoodVocabulary(vocabulary: seq<string>, lower: char -> char) {
    && (forall code :: code in vocabulary ==> code != "" && Lowered(code, lower) == code)
    && Lowered(UNCLASSIFIED, lower) == UNCLASSIFIED
    && (forall code :: code in vocabulary ==> !Contains(UNCLASSIFIED, code))
  }

  /** The stored reason comes from a closed set, and storing it again is idempotent:
      a code that is ever produced maps to itself. */
  lemma ReasonsAreClosedAndStable(vocabulary: seq<string>, lower: char -> char, reason: string)
    requires GoodVocabulary(vocabulary, lower)
    ensures var code := CodeFor(vocabulary, lower, reason);
            && (code == "" <==> reason == "")
            && (code == "" || code == UNCLASSIFIED || code in vocabulary)
            && CodeFor(vocabulary, lower, code) == code
  {
    hide Contains, Lowered;
    var code := CodeFor(vocabulary, lower, reason);
    var text := Lowered(reason, lower);
    var k := FirstMatch(vocabulary, text, 0);
    if reason != "" && k < |vocabulary| {
      assert vocabulary[k] in vocabulary;
      ContainsItself(code);
      forall j | 0 <= j < k ensures !Contains(code, vocabulary[j]) {
        if Contains(code, vocabulary[j]) { ContainsTransitive(text, code, vocabulary[j]); }
      }
    }
  }

  /** Which codes map to themselves: those that contain no earlier code. */
  lemma CodeIsKeptIff(vocabulary: seq<string>, lower: char -> char, k: nat)
    requires GoodVocabulary(vocabulary, lower) && k < |vocabulary| && Distinct(vocabulary)
    ensures CodeFor(vocabulary, lower, vocabulary[k]) == vocabulary[k]
            <==> forall j :: 0 <= j < k ==> !Contains(vocabulary[k], vocabulary[j])
  {
    hide Contains, Lowered;
    assert vocabulary[k] in vocabulary;
    ContainsItself(vocabulary[k]);
  }

  /** A code that contains an earlier one is never stored, whatever the text says. */
  lemma ShadowedCodeIsNeverStored(vocabulary: seq<string>, lower: char -> char, reason: string, j: nat, k: nat)
    requires GoodVocabulary(vocabulary, lower)
    requires j < k < |vocabulary| && Contains(vocabulary[k], vocabulary[j])
    requires forall i :: 0 <= i <= j ==> vocabulary[i] != vocabulary[k]
    ensures CodeFor(vocabulary, lower, reason) != vocabulary[k]
  {
    hide Contains, Lowered;
    assert vocabulary[k] in vocabulary;
    var text := Lowered(reason, lower);
    var m := FirstMatch(vocabulary, text, 0);
    ContainsItself(vocabulary[k]);
    if m < |vocabulary| && vocabulary[m] == vocabulary[k] {
      ContainsTransitive(text, vocabulary[k], vocabulary[j]);
    }
  }

  // ---------------------------------------------------------------------
  // The published vocabulary
  // ---------------------------------------------------------------------

  const AUTHORIZATION_CODES: seq<string> := [
    "workspace_mismatch", "insufficient_scope", "operator_only", "role_privileged", "forbidden"]

  const PROVIDER_CODES: seq<string> := [
    "provider_forbidden", "provider_unavailable", "provider_credentials_unavailable", "connection_read_only",
    "workspace_connection_missing", "workspace_connection_unusable"]

  const LOOKUP_CODES: seq<string> := [
    "workspace_not_found", "workspace_archived", "user_not_found", "role_not_found", "session_not_found",
    "invitation_not_found", "project_not_found", "project_archived"]

  const RESOURCE_CODES: seq<string> := [
    "credential_not_found", "credential_already_revoked", "credential_limit_reached", "role_already_exists",
    "role_reserved", "project_name_taken", "workspace_slug_taken"]

  const REQUEST_CODES: seq<string> := [
    "invalid_request", "invalid_scope", "invalid_workspace_id", "invalid_user_id", "invalid_role_name",
    "invalid_session_id", "internal_error"]

  /** In the order they are looked for. */
  const KnownReasonCodes :=
    AUTHORIZATION_CODES + PROVIDER_CODES + LOOKUP_CODES + RESOURCE_CODES + REQUEST_CODES

  lemma VocabularySize()
    ensures |KnownReasonCodes| == 33
  {
  }

  /** Holds a letter the marker for everything else lacks. */
  predicate ForeignCode(code: string) {
    'w' in code || 'p' in code || 'b' in code || 'v' in code || 't' in code
  }

  lemma AuthorizationCodesAreForeign()
    ensures forall code :: code in AUTHORIZATION_CODES ==> ForeignCode(code) && code != ""
  {
    assert "workspace_mismatch"[0] == 'w';
    assert "insufficient_scope"[11] == 't';
    assert "operator_only"[1] == 'p';
    assert "role_privileged"[5] == 'p';
    assert "forbidden"[3] == 'b';
  }

  lemma ProviderCodesAreForeign()
    ensures forall code :: code in PROVIDER_CODES ==> ForeignCode(code) && code != ""
  {
    assert "provider_forbidden"[0] == 'p';
    assert "provider_unavailable"[0] == 'p';
    assert "provider_credentials_unavailable"[0] == 'p';
    assert "connection_read_only"[6] == 't';
    assert "workspace_connection_missing"[0] == 'w';
    assert "workspace_connection_unusable"[0] == 'w';
  }

  lemma LookupCodesAreForeign()
    ensures forall code :: code in LOOKUP_CODES ==> ForeignCode(code) && code != ""
  {
    assert "workspace_not_found"[0] == 'w';
    assert "workspace_archived"[0] == 'w';
    assert "user_not_found"[7] == 't';
    assert "role_not_found"[7] == 't';
    assert "session_not_found"[10] == 't';
    assert "invitation_not_found"[2] == 'v';
    assert "project_not_found"[0] == 'p';
    assert "project_archived"[0] == 'p';
  }

  lemma ResourceCodesAreForeign()
    ensures forall code :: code in RESOURCE_CODES ==> ForeignCode(code) && code != ""
  {
    assert "credential_not_found"[6] == 't';
    assert "credential_already_revoked"[6] == 't';
    assert "credential_limit_reached"[6] == 't';
    assert "role_already_exists"[17] == 't';
    assert "role_reserved"[10] == 'v';
    assert "project_name_taken"[0] == 'p';
    assert "workspace_slug_taken"[0] == 'w';
  }

  lemma RequestCodesAreForeign()
    ensures forall code :: code in REQUEST_CODES ==> ForeignCode(code) && code != ""
  {
    assert "invalid_request"[2] == 'v';
    assert "invalid_scope"[2] == 'v';
    assert "invalid_workspace_id"[2] == 'v';
    assert "invalid_user_id"[2] == 'v';
    assert "invalid_role_name"[2] == 'v';
    assert "invalid_session_id"[2] == 'v';
    assert "internal_error"[2] == 't';
  }

  /** Lower-casing leaves the vocabulary as it is: its codes are written in lower case. */
  ghost predicate LeavesCodesAlone(lower: char -> char) {
    && (forall code :: code in KnownReasonCodes ==> Lowered(code, lower) == code)
    && Lowered(UNCLASSIFIED, lower) == UNCLASSIFIED
  }

  lemma ForeignCodeIsNotInMarker(code: string)
    requires ForeignCode(code)
    ensures !Contains(UNCLASSIFIED, code)
  {
    MarkerLacksLetters();
    var c := if 'w' in code then 'w' else if 'p' in code then 'p' else if 'b' in code then 'b'
             else if 'v' in code then 'v' else 't';
    hide Contains;
    ForeignCharacter(UNCLASSIFIED, code, c);
  }

  lemma MarkerLacksLetters()
    ensures 'w' !in UNCLASSIFIED && 'p' !in UNCLASSIFIED && 'b' !in UNCLASSIFIED
    ensures 'v' !in UNCLASSIFIED && 't' !in UNCLASSIFIED
  {
  }

  /** So the closed-and-stable law holds of the codes in use. */
  lemma KnownVocabularyIsGood(lower: char -> char)
    requires LeavesCodesAlone(lower)
    ensures GoodVocabulary(KnownReasonCodes, lower)
  {
    hide ForeignCode, Lowered, Contains;
    AuthorizationCodesAreForeign();
    ProviderCodesAreForeign();
    LookupCodesAreForeign();
    ResourceCodesAreForeign();
    RequestCodesAreForeign();
    forall code | code in KnownReasonCodes ensures code != "" && !Contains(UNCLASSIFIED, code) {
      ForeignCodeIsNotInMarker(code);
    }
  }

  /** "forbidden" stands before "provider_forbidden", so the latter is never stored:
      a provider's refusal is filed under the caller's. */
  lemma ProviderForbiddenIsNeverStored(lower: char -> char, reason: string)
    requires LeavesCodesAlone(lower)
    ensures CodeFor(KnownReasonCodes, lower, reason) != "provider_forbidden"
    ensures "provider_forbidden" in KnownReasonCodes
  {
    KnownVocabularyIsGood(lower);
    ForbiddenComesFirst();
    hide GoodVocabulary, Contains, LeavesCodesAlone;
    ShadowedCodeIsNeverStored(KnownReasonCodes, lower, reason, 4, 5);
  }

  lemma ForbiddenComesFirst()
    ensures |KnownReasonCodes| > 5 && KnownReasonCodes[5] == "provider_forbidden"
    ensures Contains(KnownReasonCodes[5], KnownReasonCodes[4])
    ensures forall i :: 0 <= i <= 4 ==> KnownReasonCodes[i] != KnownReasonCodes[5]
  {
    assert ContainsAt("provider_forbidden", "forbidden", 9);
    assert |"workspace_mismatch"| == 18 && "workspace_mismatch"[0] == 'w' && "provider_forbidden"[0] == 'p';
    assert |"insufficient_scope"| == 18 && "insufficient_scope"[0] == 'i';
    assert |"operator_only"| == 13 && |"role_privileged"| == 15 && |"forbidden"| == 9;
    assert |"provider_forbidden"| == 18;
  }

  // ---------------------------------------------------------------------
  // Metadata
  // ---------------------------------------------------------------------

  const MAX_VALUES := 8
  const MAX_STRING := 256

  /** What a caller may put under a metadata key. */
  datatype Value = Str(s: Bytes) | Scalar(bits: int) | Strs(items: seq<Bytes>) | Nested(depth: nat)

  type Metadata = map<string, Value>

  function TruncatedItems(items: seq<Bytes>): (r: seq<Bytes>)
    ensures |r| == |items| && forall i :: 0 <= i < |r| ==> r[i] == Truncated(items[i], MAX_STRING)
  {
    if items == [] then [] else [Truncated(items[0], MAX_STRING)] + TruncatedItems(items[1..])
  }

  function SafeValue(v: Value): Option<Value> {
    match v
    case Str(s) => Some(Str(Truncated(s, MAX_STRING)))
    case Scalar(_) => Some(v)
    case Strs(items) => Some(Strs(TruncatedItems(if |items| > MAX_VALUES then items[..MAX_VALUES] else items)))
    case Nested(_) => None
  }

  /** Scalars as they are, a string cut to 256 bytes, of a list the first eight so cut, and
      nothing nested. */
  method SafeMetadataValue(v: Value) returns (r: Option<Value>)
    ensures r == SafeValue(v)
    ensures v.Scalar? ==> r == Some(v)
    ensures v.Str? ==> r == Some(Str(Truncated(v.s, 256)))
    ensures v.Strs? ==>
              && r.Some? && r.value.Strs?
              && |r.value.items| == (if |v.items| > 8 then 8 else |v.items|)
              && forall i :: 0 <= i < |r.value.items| ==> r.value.items[i] == Truncated(v.items[i], 256)
    ensures v.Nested? ==> r == None
  {
    match v
    case Str(s) =>
      var t := Truncate(s, MAX_STRING);
      return Some(Str(t));
    case Scalar(_) => return Some(v);
    case Strs(items) =>
      var value := items;
      if |value| > MAX_VALUES {
        value := value[..MAX_VALUES];
      }
      var out: seq<Bytes> := [];
      for i := 0 to |value|
        invariant |out| == i && forall j :: 0 <= j < i ==> out[j] == Truncated(value[j], MAX_STRING)
      {
        var t := Truncate(value[i], MAX_STRING);
        out := out + [t];
      }
      assert out == TruncatedItems(value);
      return Some(Strs(out));
    case Nested(_) => return None;
  }

  predicate Bounded(v: Value) {
    match v
    case Str(s) => |s| <= MAX_STRING
    case Scalar(_) => true
    case Strs(items) => |items| <= MAX_VALUES && forall i :: 0 <= i < |items| ==> |items[i]| <= MAX_STRING
    case Nested(_) => false
  }

  /** What is stored is bounded, and is what would be stored again. */
  lemma SafeValuesAreBounded(v: Value)
    ensures SafeValue(v).None? <==> v.Nested?
    ensures SafeValue(v).Some? ==> Bounded(SafeValue(v).value) && SafeValue(SafeValue(v).value) == SafeValue(v)
    ensures Bounded(v) ==> SafeValue(v) == Some(v)
  {
    match v
    case Str(s) => TruncateTwice(s, MAX_STRING);
    case Scalar(_) =>
    case Strs(items) =>
      var kept := if |items| > MAX_VALUES then items[..MAX_VALUES] else items;
      var once := TruncatedItems(kept);
      forall i | 0 <= i < |kept| ensures |once[i]| <= MAX_STRING && Truncated(once[i], MAX_STRING) == once[i] {
        TruncateTwice(kept[i], MAX_STRING);
      }
      assert TruncatedItems(once) == once;
      if Bounded(v) { assert TruncatedItems(items) == items; }
    case Nested(_) =>
  }

  /** Everything the allowlist lets through, size aside. */
  function Permitted(allowed: set<string>, extra: Metadata): Metadata {
    map k | k in extra && k in allowed && SafeValue(extra[k]).Some? :: SafeValue(extra[k]).value
  }

  function OrNull(m: Metadata): Option<Metadata> { if m == map[] then None else Some(m) }

  /** The keys come in whatever order the map yields them. Up to eight survivors the
      order cannot show; past eight, eight of them are kept. */
  method FilterMetadata(allowed: set<string>, extra: Metadata) returns (r: Option<Metadata>)
    ensures |Permitted(allowed, extra)| <= MAX_VALUES ==> r == OrNull(Permitted(allowed, extra))
    ensures |Permitted(allowed, extra)| > MAX_VALUES ==>
              r.Some? && |r.value| == MAX_VALUES && r.value.Items <= Permitted(allowed, extra).Items
  {
    hide SafeValue, Permitted;
    NothingToPermit(allowed, extra);
    if extra == map[] || allowed == {} {
      return None;
    }
    var out: Metadata := map[];
    var rest := extra.Keys;
    while rest != {}
      invariant rest <= extra.Keys
      invariant out == Permitted(allowed, extra - rest) && |out| < MAX_VALUES
      decreases |rest|
    {
      var key := PickElement(rest);
      OneMoreKey(allowed, extra, rest, key);
      rest := rest - {key};
      if key !in allowed {
        continue;
      }
      var safe := SafeMetadataValue(extra[key]);
      if safe.None? {
        continue;
      }
      out := out[key := safe.value];
      if |out| >= MAX_VALUES {
        break;
      }
    }
    SubMap(allowed, extra, rest);
    if rest == {} {
      assert extra - rest == extra;
    }
    if |out| == 0 {
      return None;
    }
    return Some(out);
  }

  lemma NothingToPermit(allowed: set<string>, extra: Metadata)
    ensures extra == map[] || allowed == {} ==> Permitted(allowed, extra) == map[]
    ensures Permitted(allowed, extra - extra.Keys) == map[]
  {
  }

  lemma OneMoreKey(allowed: set<string>, extra: Metadata, rest: set<string>, key: string)
    requires key in rest && rest <= extra.Keys
    ensures var before, after := Permitted(allowed, extra - rest), Permitted(allowed, extra - (rest - {key}));
            && key !in before
            && after == if key in allowed && SafeValue(extra[key]).Some?
                        then before[key := SafeValue(extra[key]).value] else before
  {
    hide SafeValue;
  }

  /** A partial sweep collects part of what is permitted; as large means all of it. */
  lemma SubMap(allowed: set<string>, extra: Metadata, rest: set<string>)
    requires rest <= extra.Keys
    ensures var part, all := Permitted(allowed, extra - rest), Permitted(allowed, extra);
            && part.Items <= all.Items && |part| <= |all|
            && (|part| == |all| ==> part == all)
  {
    hide SafeValue;
    var part, all := Permitted(allowed, extra - rest), Permitted(allowed, extra);
    assert part.Keys <= all.Keys;
    assert |part.Keys| == |part| && |all.Keys| == |all|;
    SmallerSubset(part.Keys, all.Keys);
  }

  lemma SmallerSubset<T>(a: set<T>, b: set<T>)
    requires a <= b
    ensures |a| <= |b| && (|a| == |b| ==> a == b)
  {
    assert b == a + (b - a);
    assert |b| == |a| + |b - a|;
  }

  /** Per event type, which keys may be stored. */
  const Allowlist: map<string, set<string>> := map["project_credential.created" := {"scopes"}]

  function AllowedKeys(eventType: string): set<string> {
    if eventType in Allowlist then Allowlist[eventType] else {}
  }

  /** With this allowlist the outcome never depends on the order of the map. */
  method AllowlistMetadata(eventType: string, extra: Metadata) returns (r: Option<Metadata>)
    ensures r == OrNull(Permitted(AllowedKeys(eventType), extra))
    ensures eventType != "project_credential.created" || "scopes" !in extra || extra["scopes"].Nested? ==> r == None
    ensures eventType == "project_credential.created" && "scopes" in extra && !extra["scopes"].Nested? ==>
              SafeValue(extra["scopes"]).Some? && r == Some(map["scopes" := SafeValue(extra["scopes"]).value])
  {
    OnlyScopes(eventType, extra);
    hide Permitted, SafeValue;
    var allowed := AllowedKeys(eventType);
    FewKeysFewSurvivors(allowed, extra);
    assert |{"scopes"}| == 1;
    r := FilterMetadata(allowed, extra);
  }

  /** The one key one event may store. */
  lemma OnlyScopes(eventType: string, extra: Metadata)
    ensures var all := Permitted(AllowedKeys(eventType), extra);
            if eventType == "project_credential.created" && "scopes" in extra && SafeValue(extra["scopes"]).Some?
            then all == map["scopes" := SafeValue(extra["scopes"]).value] else all == map[]
    ensures "scopes" in extra ==> (SafeValue(extra["scopes"]).Some? <==> !extra["scopes"].Nested?)
  {
    if "scopes" in extra { SafeValuesAreBounded(extra["scopes"]); }
    hide SafeValue;
  }

  lemma FewKeysFewSurvivors(allowed: set<string>, extra: Metadata)
    ensures |Permitted(allowed, extra)| <= |allowed|
  {
    hide SafeValue;
    assert |Permitted(allowed, extra).Keys| == |Permitted(allowed, extra)|;
    SmallerSubset(Permitted(allowed, extra).Keys, allowed);
  }
}
