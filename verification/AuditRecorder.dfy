/** From an emitted event to a stored row: what is kept, what is dropped, and when
    a row is written at all. */
module AuditRecorder {
  import opened Prelude
  import opened Text
  import opened Redaction
  import PublicId

  datatype ActorType = OperatorActor | ProjectActor | Unattributed

  datatype Actor = Actor(kind: ActorType, subject: string, email: string, projectId: string, credentialId: string)

  datatype Target = Target(kind: string, id: string, name: string)

  datatype Event = Event(action: string, actor: Actor, target: Target, workspace: string, ip: string,
                         requestId: string, userAgent: string, timestamp: int, reason: string,
                         extra: Metadata, persistedInTransaction: bool)

  datatype Outcome = Success | Failure

  datatype Row = Row(id: string, workspaceId: string, eventType: string, outcome: Outcome,
                     actorType: ActorType, actorSubject: string, actorEmail: string,
                     actorProjectId: string, actorCredentialId: string,
                     resourceType: string, resourceId: string, reasonCode: string,
                     requestId: string, sourceIp: string, metadata: Option<Metadata>, occurredAt: int)

  /** What the code asks of others: the Unicode lower-casing and the address parser. */
  datatype World = World(lower: char -> char, isIp: string -> bool)

  const ZERO_TIME := 0

  const ResourceTypes := {"workspace", "connection", "project", "project_credential",
                          "user", "role", "session", "invitation"}

  predicate IsKnownResourceType(kind: string) { kind in ResourceTypes }

  /** The code stored for a failure's text. */
  ghost function StoredCode(w: World, reason: string): string { CodeFor(KnownReasonCodes, w.lower, reason) }

  /** What is stored of an event's extra keys. */
  function StoredMetadata(e: Event): Option<Metadata> { OrNull(Permitted(AllowedKeys(e.action), e.extra)) }

  function ValidIp(w: World, s: string): string { if w.isIp(Trim(s)) then s else "" }

  function OutcomeOf(e: Event): Outcome { if e.reason != "" then Failure else Success }

  /** Whether, and in which workspace, an event may be stored. */
  function Attribution(e: Event): Option<string> {
    if e.actor.kind.Unattributed? || (e.actor.kind.ProjectActor? && e.actor.projectId == "") then None
    else if e.workspace == "" then Some("")
    else match PublicId.Parse(PublicId.WORKSPACE_PREFIX, e.workspace)
      case Err(_) => None
      case Ok(uuid) => Some(uuid)
  }

  /** The row an event maps to; an event nobody can be named for maps to none. */
  ghost function RowFor(w: World, e: Event, id: Option<string>): Option<Row> {
    if id.None? || Attribution(e).None? then None
    else
      var operator := e.actor.kind.OperatorActor?;
      Some(Row(
        id.value, Attribution(e).value, e.action, OutcomeOf(e), e.actor.kind,
        if operator then e.actor.subject else "", if operator then e.actor.email else "",
        if operator then "" else e.actor.projectId, if operator then "" else e.actor.credentialId,
        if IsKnownResourceType(e.target.kind) then e.target.kind else "",
        if e.target.kind != "" then e.target.id else "",
        StoredCode(w, e.reason),
        e.requestId, ValidIp(w, e.ip), StoredMetadata(e), e.timestamp))
  }

  method ToRecord(w: World, e: Event, id: Option<string>) returns (r: Option<Row>)
    ensures r == RowFor(w, e, id)
  {
    hide StoredCode, StoredMetadata, ValidIp, IsKnownResourceType, PublicId.Parse;
    if id.None? {
      return None;
    }
    var row := Row(id.value, "", e.action, OutcomeOf(e), Unattributed, "", "", "", "", "", "", "",
                   e.requestId, ValidIp(w, e.ip), None, e.timestamp);
    if e.workspace != "" {
      var uuid := PublicId.Parse(PublicId.WORKSPACE_PREFIX, e.workspace);
      if uuid.Err? {
        return None;
      }
      row := row.(workspaceId := uuid.value);
    }
    match e.actor.kind {
      case OperatorActor =>
        row := row.(actorType := OperatorActor, actorSubject := e.actor.subject, actorEmail := e.actor.email);
      case ProjectActor =>
        row := row.(actorType := ProjectActor, actorProjectId := e.actor.projectId,
                    actorCredentialId := e.actor.credentialId);
        if row.actorProjectId == "" {
          return None;
        }
      case Unattributed =>
        return None;
    }
    if e.target.kind != "" {
      if IsKnownResourceType(e.target.kind) {
        row := row.(resourceType := e.target.kind);
      }
      row := row.(resourceId := e.target.id);
    } else {
      NoKindIsKnown();
    }
    if row.outcome.Failure? {
      var code := CodeOf(w, e.reason);
      row := row.(reasonCode := code);
    } else {
      NoReasonNoCode(w);
    }
    var metadata := MetadataOf(e);
    row := row.(metadata := metadata);
    return Some(row);
  }

  method CodeOf(w: World, reason: string) returns (code: string)
    ensures code == StoredCode(w, reason)
  {
    code := ReasonCodeFor(KnownReasonCodes, w.lower, reason);
  }

  method MetadataOf(e: Event) returns (m: Option<Metadata>)
    ensures m == StoredMetadata(e)
  {
    m := AllowlistMetadata(e.action, e.extra);
  }

  lemma NoKindIsKnown()
    ensures !IsKnownResourceType("")
  {
  }

  lemma NoReasonNoCode(w: World)
    ensures StoredCode(w, "") == ""
  {
  }

  // ---------------------------------------------------------------------
  // What a row can and cannot reveal
  // ---------------------------------------------------------------------

  lemma CodesAreClosed(w: World, reason: string)
    requires LeavesCodesAlone(w.lower)
    ensures var code := StoredCode(w, reason);
            && (code == "" <==> reason == "")
            && (code == "" || code == UNCLASSIFIED || code in KnownReasonCodes)
            && StoredCode(w, code) == code
  {
    hide CodeFor, GoodVocabulary, LeavesCodesAlone;
    KnownVocabularyIsGood(w.lower);
    ReasonsAreClosedAndStable(KnownReasonCodes, w.lower, reason);
  }

  lemma RowsAgree(w: World, e: Event, f: Event, id: string, other: string)
    requires f.action == e.action && f.actor == e.actor && f.workspace == e.workspace && f.ip == e.ip
    requires f.target.kind == e.target.kind && f.target.id == e.target.id
    requires f.requestId == e.requestId && f.timestamp == e.timestamp
    requires OutcomeOf(f) == OutcomeOf(e) && StoredMetadata(f) == StoredMetadata(e)
    requires StoredCode(w, f.reason) == StoredCode(w, e.reason)
    ensures var a, b := RowFor(w, e, Some(id)), RowFor(w, f, Some(other));
            && (a.Some? <==> b.Some?)
            && (a.Some? ==> b.value == a.value.(id := other))
  {
    hide StoredCode, StoredMetadata, ValidIp, IsKnownResourceType, PublicId.Parse, OutcomeOf;
    assert Attribution(f) == Attribution(e);
  }

  /** The target's name, the user agent, the wording of a failure with the same code
      and metadata outside the allowlist leave no trace: rows differ in id alone. */
  lemma UnstoredTextLeavesNoTrace(w: World, e: Event, name: string, agent: string, reason: string,
                                  extra: Metadata, flag: bool, id: string, other: string)
    requires LeavesCodesAlone(w.lower) && StoredCode(w, reason) == StoredCode(w, e.reason)
    requires StoredMetadata(e.(extra := extra)) == StoredMetadata(e)
    ensures var f := e.(target := e.target.(name := name), userAgent := agent, reason := reason,
                        extra := extra, persistedInTransaction := flag);
            var a, b := RowFor(w, e, Some(id)), RowFor(w, f, Some(other));
            && (a.Some? <==> b.Some?)
            && (a.Some? ==> b.value == a.value.(id := other))
  {
    hide RowFor, StoredCode, LeavesCodesAlone, Permitted, AllowedKeys;
    CodesAreClosed(w, e.reason);
    CodesAreClosed(w, reason);
    var f := e.(target := e.target.(name := name), userAgent := agent, reason := reason,
                extra := extra, persistedInTransaction := flag);
    assert StoredMetadata(f) == StoredMetadata(e.(extra := extra));
    RowsAgree(w, e, f, id, other);
  }

  lemma StoredMetadataIsBounded(e: Event)
    ensures var m := StoredMetadata(e);
            m.Some? ==>
              && m.value != map[] && m.value.Keys <= AllowedKeys(e.action)
              && forall k :: k in m.value ==> Bounded(m.value[k])
  {
    hide SafeValue, Bounded, AllowedKeys;
    var all := Permitted(AllowedKeys(e.action), e.extra);
    forall k | k in all ensures Bounded(all[k]) { SafeValuesAreBounded(e.extra[k]); }
  }

  /** What each column of a stored row can hold. The reason, the resource kind and the
      address are from a closed set or parsed; metadata is allowlisted and bounded; a
      machine is never recorded as a person. The identifiers, that is event type, request
      id, resource id and the actor's own, are copied as emitted and are not bounded
      here. Nothing else of the event is in the row. */
  lemma RowsAreRedacted(w: World, e: Event, id: Option<string>)
    requires LeavesCodesAlone(w.lower) && RowFor(w, e, id).Some?
    ensures var r := RowFor(w, e, id).value;
            && (r.reasonCode == "" <==> r.outcome.Success?)
            && (r.reasonCode == "" || r.reasonCode == UNCLASSIFIED || r.reasonCode in KnownReasonCodes)
            && (r.resourceType == "" || IsKnownResourceType(r.resourceType))
            && (r.sourceIp == "" || w.isIp(Trim(r.sourceIp)))
            && (r.actorType.OperatorActor? ==> r.actorProjectId == "" && r.actorCredentialId == "")
            && (r.actorType.ProjectActor? ==> r.actorSubject == "" && r.actorEmail == "" && r.actorProjectId != "")
            && !r.actorType.Unattributed? && r.actorType == e.actor.kind
            && (r.actorType.OperatorActor? ==> r.actorSubject == e.actor.subject && r.actorEmail == e.actor.email)
            && (r.actorType.ProjectActor? ==>
                  r.actorProjectId == e.actor.projectId && r.actorCredentialId == e.actor.credentialId)
            && r.eventType == e.action && r.requestId == e.requestId && r.occurredAt == e.timestamp
            && (r.resourceId == "" || r.resourceId == e.target.id)
            && (r.workspaceId == "" <==> e.workspace == "")
            && (r.metadata.Some? ==>
                  r.metadata.value != map[] && r.metadata.value.Keys <= AllowedKeys(e.action)
                  && forall k :: k in r.metadata.value ==> Bounded(r.metadata.value[k]))
  {
    CodesAreClosed(w, e.reason);
    StoredMetadataIsBounded(e);
    ParsedIsNotEmpty(e.workspace);
    hide StoredCode, StoredMetadata, IsKnownResourceType, PublicId.Parse, LeavesCodesAlone, Bounded, Trim, AllowedKeys;
  }

  /** When an event has a row, and what the row says: who did what, in which workspace, to
      what, from where and how it went, each read off the event. */
  lemma RowsSayWhatHappened(w: World, e: Event, id: Option<string>)
    ensures RowFor(w, e, id).Some? <==>
            && id.Some? && (e.actor.kind.OperatorActor? || (e.actor.kind.ProjectActor? && e.actor.projectId != ""))
            && (e.workspace == "" || PublicId.Parse("ws", e.workspace).Ok?)
    ensures RowFor(w, e, id).Some? ==>
              var r := RowFor(w, e, id).value;
              && r.id == id.value && r.eventType == e.action
              && r.workspaceId == (if e.workspace == "" then "" else PublicId.Parse("ws", e.workspace).value)
              && (r.outcome.Failure? <==> e.reason != "")
              && r.reasonCode == CodeFor(KnownReasonCodes, w.lower, e.reason)
              && r.resourceType == (if e.target.kind in ["workspace", "connection", "project", "project_credential",
                                                         "user", "role", "session", "invitation"]
                                    then e.target.kind else "")
              && r.resourceId == (if e.target.kind == "" then "" else e.target.id)
              && r.sourceIp == (if w.isIp(Trim(e.ip)) then e.ip else "")
              && r.metadata == (if e.action == "project_credential.created" && "scopes" in e.extra
                                   && SafeValue(e.extra["scopes"]).Some?
                                then Some(map["scopes" := SafeValue(e.extra["scopes"]).value]) else None)
  {
    OnlyScopes(e.action, e.extra);
    KnownKinds(e.target.kind);
    NoReasonNoCode(w);
    var all := Permitted(AllowedKeys(e.action), e.extra);
    assert "scopes" in all ==> all != map[];
    hide CodeFor, PublicId.Parse, Permitted, AllowedKeys, SafeValue, Trim, IsKnownResourceType;
  }

  lemma KnownKinds(kind: string)
    ensures IsKnownResourceType(kind) <==> kind in ["workspace", "connection", "project", "project_credential",
                                                    "user", "role", "session", "invitation"]
  {
  }

  lemma ParsedIsNotEmpty(s: string)
    ensures var r := PublicId.Parse(PublicId.WORKSPACE_PREFIX, s);
            r.Ok? ==> r.value != ""
  {
    hide PublicId.Parse;
    assert PublicId.GoodPrefix(PublicId.WORKSPACE_PREFIX);
    PublicId.ParseOfFormat(PublicId.WORKSPACE_PREFIX, "", s);
  }

  // ---------------------------------------------------------------------
  // Writing rows
  // ---------------------------------------------------------------------

  class Recorder {
    const world: World
    var rows: seq<Row>

    constructor (w: World)
      ensures world == w && rows == []
    {
      world := w;
      rows := [];
    }

    /** Best effort: an event already written, or nobody's, or refused by the store
        is passed over in silence. */
    method Record(e: Event, id: Option<string>, storeFails: bool)
      modifies this`rows
      ensures rows == old(rows) + Written(RowFor(world, e, id), e.persistedInTransaction || storeFails)
    {
      if e.persistedInTransaction {
        return;
      }
      var row := ToRecord(world, e, id);
      if row.None? {
        return;
      }
      if storeFails {
        return;
      }
      rows := rows + [row.value];
    }

    /** Inside the caller's transaction: no row is an error, and the caller rolls back. */
    method RecordTx(e: Event, id: Option<string>, now: int, storeFails: bool) returns (ok: bool)
      modifies this`rows
      ensures var stamped := Stamped(e, now);
              && rows == old(rows) + Written(RowFor(world, stamped, id), storeFails)
              && (ok <==> RowFor(world, stamped, id).Some? && !storeFails)
    {
      var stamped := e;
      if stamped.timestamp == ZERO_TIME {
        stamped := stamped.(timestamp := now);
      }
      var row := ToRecord(world, stamped, id);
      if row.None? {
        return false;
      }
      if storeFails {
        return false;
      }
      rows := rows + [row.value];
      return true;
    }
  }

  /** A control-plane service: its own table, beside the audit table in one database. */
  class ControlPlane<D> {
    const recorder: Recorder
    var domain: D

    constructor (r: Recorder, d: D)
      ensures recorder == r && domain == d
    {
      recorder := r;
      domain := d;
    }

    /** One mutation in one transaction, and the emission that closes it. `refused` is
        the domain's own error, `lost` the database's at commit. An event the audit
        table could not take rolls the mutation back and is not emitted again; any other
        failure is emitted, best effort, as a failure. */
    method Mutate(next: D, e: Event, id: Option<string>, second: Option<string>, now: int,
                  refused: Option<string>, storeFails: bool, lost: Option<string>, failsAgain: bool)
      returns (committed: bool)
      requires e.reason == "" && refused != Some("") && lost != Some("")
      modifies this`domain, recorder`rows
      ensures committed <==> refused.None? && id.Some? && Attribution(e).Some? && !storeFails && lost.None?
      ensures domain == if committed then next else old(domain)
      ensures committed ==>
        && RowFor(recorder.world, Stamped(e, now), id).Some?
        && RowFor(recorder.world, Stamped(e, now), id).value.outcome == Success
        && recorder.rows == old(recorder.rows) + [RowFor(recorder.world, Stamped(e, now), id).value]
      ensures refused.None? && (id.None? || Attribution(e).None? || storeFails) ==> recorder.rows == old(recorder.rows)
      ensures !committed ==>
        || recorder.rows == old(recorder.rows)
        || exists row :: recorder.rows == old(recorder.rows) + [row] && row.outcome == Failure
    {
      hide StoredCode, StoredMetadata, ValidIp, IsKnownResourceType;
      var domainBefore, rowsBefore := domain, recorder.rows;
      var reason := "";
      if refused.Some? {
        reason := refused.value;
      } else {
        domain := next;
        var recorded := recorder.RecordTx(e, id, now, storeFails);
        if recorded && lost.None? {
          recorder.Record(e.(persistedInTransaction := true), second, failsAgain);
          return true;
        }
        domain := domainBefore;
        recorder.rows := rowsBefore;
        if !recorded {
          return false;
        }
        reason := lost.value;
      }
      var failure := e.(reason := reason);
      recorder.Record(failure, second, failsAgain);
      assert RowFor(recorder.world, failure, second).Some? ==>
          RowFor(recorder.world, failure, second).value.outcome == Failure;
      return false;
    }
  }

  function Stamped(e: Event, now: int): Event {
    if e.timestamp == ZERO_TIME then e.(timestamp := now) else e
  }

  function Written(row: Option<Row>, lost: bool): seq<Row> {
    if row.None? || lost then [] else [row.value]
  }
}
