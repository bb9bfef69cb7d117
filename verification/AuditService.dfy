/** The read side of the audit API: what a request's parameters mean, which are
    refused, and what an accepted request is answered with. */
module AuditService {
  import opened Prelude
  import opened Text
  import opened TextOrder
  import opened AuditPaging
  import opened CursorCodec

  /** A request's parameters as they arrive; empty means not given. */
  datatype ListParams = ListParams(eventType: string, actorType: string, outcome: string,
                                   from: string, to: string, cursor: string, limit: string)

  /** The parameter a refusal names. */
  datatype Field = LimitField | EventField | ActorTypeField | OutcomeField | FromField | ToField | CursorField

  const MAX_EVENT_TYPE := 100

  /** Go's zero time, midnight on the first of January of year 1, in Unix nanoseconds.
      A bound parsed to it is indistinguishable from none. */
  const ZERO_TIME := -62_135_596_800_000_000_000

  predicate KnownActorType(s: string) { s == "operator" || s == "project" }

  predicate KnownOutcome(s: string) { s == "success" || s == "failure" }

  /** A time bound: not given, malformed, or an instant. The RFC 3339 parser is a parameter. */
  function BoundOf(raw: string, parseTime: string -> Option<int>): Option<int> {
    if raw == "" then None
    else match parseTime(raw)
      case None => None
      case Some(t) => if t == ZERO_TIME then None else Some(t)
  }

  /** Whether a parameter is unacceptable. */
  predicate Refuses(p: ListParams, f: Field, parseTime: string -> Option<int>) {
    match f
    case LimitField => ParseLimit(p.limit).None?
    case EventField => |p.eventType| > MAX_EVENT_TYPE
    case ActorTypeField => p.actorType != "" && !KnownActorType(p.actorType)
    case OutcomeField => p.outcome != "" && !KnownOutcome(p.outcome)
    case FromField =>
      || (p.from != "" && parseTime(p.from).None?)
      || (BoundOf(p.from, parseTime).Some? && BoundOf(p.to, parseTime).Some?
          && BoundOf(p.from, parseTime).value > BoundOf(p.to, parseTime).value)
    case ToField => p.to != "" && parseTime(p.to).None?
    case CursorField => p.cursor != "" && DecodeCursor(p.cursor).None?
  }

  ghost predicate Acceptable(p: ListParams, parseTime: string -> Option<int>) {
    forall f: Field :: !Refuses(p, f, parseTime)
  }

  function CursorOf(p: ListParams): Option<Cursor> {
    if p.cursor == "" then None else DecodeCursor(p.cursor)
  }

  /** Parameter by parameter; a refusal names one that is unacceptable. */
  method BuildQuery(workspaceId: string, p: ListParams, parseTime: string -> Option<int>)
    returns (r: Result<Query, Field>)
    ensures r.Ok? <==> Acceptable(p, parseTime)
    ensures r.Err? ==> Refuses(p, r.error, parseTime)
    ensures r.Ok? ==>
      && 1 <= r.value.limit <= MAX_PAGE_SIZE && ParseLimit(p.limit) == Some(r.value.limit)
      && r.value == Query(workspaceId, p.eventType, p.actorType, p.outcome, BoundOf(p.from, parseTime),
                          BoundOf(p.to, parseTime), CursorOf(p), r.value.limit)
  {
    hide DecodeCursor;
    LimitsAreInRange(p.limit);
    hide ParseLimit;
    var q := Query(workspaceId, "", "", "", None, None, None, 0);
    var limit := ParseLimit(p.limit);
    if limit.None? {
      assert Refuses(p, LimitField, parseTime);
      return Err(LimitField);
    }
    q := q.(limit := limit.value);
    if p.eventType != "" {
      if |p.eventType| > MAX_EVENT_TYPE {
        assert Refuses(p, EventField, parseTime);
        return Err(EventField);
      }
      q := q.(eventType := p.eventType);
    }
    if p.actorType != "" {
      if !KnownActorType(p.actorType) {
        assert Refuses(p, ActorTypeField, parseTime);
        return Err(ActorTypeField);
      }
      q := q.(actorType := p.actorType);
    }
    if p.outcome != "" {
      if !KnownOutcome(p.outcome) {
        assert Refuses(p, OutcomeField, parseTime);
        return Err(OutcomeField);
      }
      q := q.(outcome := p.outcome);
    }
    var from, to := ZERO_TIME, ZERO_TIME;
    if p.from != "" {
      var t := parseTime(p.from);
      if t.None? {
        assert Refuses(p, FromField, parseTime);
        return Err(FromField);
      }
      from := t.value;
    }
    if p.to != "" {
      var t := parseTime(p.to);
      if t.None? {
        assert Refuses(p, ToField, parseTime);
        return Err(ToField);
      }
      to := t.value;
    }
    q := q.(from := if from == ZERO_TIME then None else Some(from), to := if to == ZERO_TIME then None else Some(to));
    if from != ZERO_TIME && to != ZERO_TIME && from > to {
      assert Refuses(p, FromField, parseTime);
      return Err(FromField);
    }
    if p.cursor != "" {
      var cursor := DecodeCursor(p.cursor);
      if cursor.None? {
        assert Refuses(p, CursorField, parseTime);
        return Err(CursorField);
      }
      q := q.(after := cursor);
    }
    return Ok(q);
  }

  lemma LimitsAreInRange(raw: string)
    ensures ParseLimit(raw).Some? ==> 1 <= ParseLimit(raw).value <= MAX_PAGE_SIZE
  {
  }

  /** One request: refused, or answered with the page its query selects. */
  method List(store: AuditStore, workspaceId: string, p: ListParams, parseTime: string -> Option<int>)
    returns (r: Result<Page, Field>)
    ensures r.Ok? <==> Acceptable(p, parseTime)
    ensures r.Err? ==> Refuses(p, r.error, parseTime)
    ensures r.Ok? ==>
      exists q :: Asks(q, workspaceId, p, parseTime) && r.value == PageOf(store.rows, q)
  {
    hide Acceptable, Refuses, PageOf, ParseLimit, DecodeCursor;
    var built := BuildQuery(workspaceId, p, parseTime);
    if built.Err? {
      return Err(built.error);
    }
    var page := store.List(built.value);
    assert Asks(built.value, workspaceId, p, parseTime);
    return Ok(page);
  }

  /** The query an acceptable request asks. */
  ghost predicate Asks(q: Query, workspaceId: string, p: ListParams, parseTime: string -> Option<int>) {
    && q == Query(workspaceId, p.eventType, p.actorType, p.outcome, BoundOf(p.from, parseTime),
                  BoundOf(p.to, parseTime), CursorOf(p), q.limit)
    && ParseLimit(p.limit) == Some(q.limit)
  }

  /** Which requests are answered: a page size of 1 to 200 or none, an event type of at
      most a hundred characters, an actor type and an outcome from the vocabulary, times
      that parse and are in order, and a cursor that decodes. */
  lemma AcceptableIff(p: ListParams, parseTime: string -> Option<int>)
    ensures Acceptable(p, parseTime) <==>
            && (p.limit == "" || (ParseInt(Trim(p.limit)).Some? && 1 <= ParseInt(Trim(p.limit)).value <= 200))
            && |p.eventType| <= 100
            && p.actorType in ["", "operator", "project"] && p.outcome in ["", "success", "failure"]
            && (p.from != "" ==> parseTime(p.from).Some?) && (p.to != "" ==> parseTime(p.to).Some?)
            && (Given(p.from, parseTime) && Given(p.to, parseTime) ==>
                  parseTime(p.from).value <= parseTime(p.to).value)
            && (p.cursor != "" ==> DecodeCursor(p.cursor).Some?)
  {
    hide DecodeCursor, ParseInt, Trim;
    if Acceptable(p, parseTime) {
      assert !Refuses(p, LimitField, parseTime) && !Refuses(p, EventField, parseTime);
      assert !Refuses(p, ActorTypeField, parseTime) && !Refuses(p, OutcomeField, parseTime);
      assert !Refuses(p, FromField, parseTime) && !Refuses(p, ToField, parseTime);
      assert !Refuses(p, CursorField, parseTime);
    }
  }

  /** A bound that was given and is not the zero time, which reads as none. */
  predicate Given(raw: string, parseTime: string -> Option<int>) {
    raw != "" && parseTime(raw).Some? && parseTime(raw) != Some(-62_135_596_800_000_000_000)
  }

  /** Strictly older than a position: earlier, or as early under a lesser id. */
  predicate Before(e: Event, c: Cursor) {
    e.occurredAt < c.occurredAt || (e.occurredAt == c.occurredAt && LexLess(e.id, c.id))
  }

  /** A row the request's parameters ask for: of the caller's workspace, equal to every
      filter given, inside the bounds given, ends included, and past the cursor given. */
  ghost predicate Wants(p: ListParams, workspaceId: string, parseTime: string -> Option<int>, e: Event) {
    && workspaceId != "" && e.workspaceId == Some(workspaceId)
    && (p.eventType == "" || e.eventType == p.eventType)
    && (p.actorType == "" || e.actorType == p.actorType)
    && (p.outcome == "" || e.outcome == p.outcome)
    && (Given(p.from, parseTime) ==> parseTime(p.from).value <= e.occurredAt)
    && (Given(p.to, parseTime) ==> e.occurredAt <= parseTime(p.to).value)
    && (p.cursor == "" || (DecodeCursor(p.cursor).Some? && Before(e, DecodeCursor(p.cursor).value)))
  }

  lemma WantedIsSelected(q: Query, workspaceId: string, p: ListParams, parseTime: string -> Option<int>, e: Event)
    requires Acceptable(p, parseTime) && Asks(q, workspaceId, p, parseTime)
    ensures Selected(q, e) <==> Wants(p, workspaceId, parseTime, e)
  {
    AcceptableIff(p, parseTime);
    hide DecodeCursor, ParseLimit, ParseInt, Trim, LexLess, Acceptable;
  }

  /** How many rows a request asks for at most. */
  lemma LimitAsked(q: Query, workspaceId: string, p: ListParams, parseTime: string -> Option<int>)
    requires Asks(q, workspaceId, p, parseTime)
    ensures PageSize(q) == q.limit == if p.limit == "" then 50 else ParseInt(Trim(p.limit)).value
    ensures 1 <= q.limit <= 200
  {
    hide ParseInt, Trim, DecodeCursor;
  }

  /** What an answer means in terms of the request. The page holds exactly the rows asked
      for that are not past its next cursor, newest first; there is a next cursor, the
      position of the last row, exactly when the page is full and more rows are asked for
      past it. */
  lemma AnswersMeanWhatWasAsked(t: Rows, q: Query, workspaceId: string, p: ListParams, parseTime: string -> Option<int>)
    requires UniqueIds(t) && Acceptable(p, parseTime) && Asks(q, workspaceId, p, parseTime)
    ensures var page := PageOf(t, q);
            var limit := if p.limit == "" then 50 else ParseInt(Trim(p.limit)).value;
            && |page.items| <= limit <= 200
            && (forall e :: e in page.items <==>
                  e in t && Wants(p, workspaceId, parseTime, e) && (page.next.Some? ==> !Before(e, page.next.value)))
            && (forall i, j :: 0 <= i < j < |page.items| ==> Before(page.items[j], Key(page.items[i])))
            && (page.next.Some? ==>
                  && |page.items| == limit && page.next.value == Key(page.items[limit - 1])
                  && exists e :: e in t && Wants(p, workspaceId, parseTime, e) && Before(e, page.next.value))
  {
    LimitAsked(q, workspaceId, p, parseTime);
    PageIsCut(t, q);
    hide PageOf, PageSize, Asks, Acceptable, Wants, Selected, UniqueIds, ParseInt, Trim, LexLess, Before, Older;
    var page := PageOf(t, q);
    forall e ensures Selected(q, e) <==> Wants(p, workspaceId, parseTime, e) {
      WantedIsSelected(q, workspaceId, p, parseTime, e);
    }
    forall e, c ensures Before(e, c) <==> Older(Key(e), c) { BeforeIsOlder(e, c); }
  }

  lemma BeforeIsOlder(e: Event, c: Cursor)
    ensures Before(e, c) <==> Older(Key(e), c)
  {
    hide LexLess;
  }

  /** The page is the selection cut at the limit. */
  lemma PageIsCut(t: Rows, q: Query)
    requires UniqueIds(t)
    ensures var page := PageOf(t, q);
            && |page.items| <= PageSize(q)
            && Descending(page.items)
            && (forall e :: e in page.items <==>
                  e in t && Selected(q, e) && (page.next.Some? ==> !Older(Key(e), page.next.value)))
            && (page.next.Some? ==>
                  && |page.items| == PageSize(q) > 0 && page.next.value == Key(page.items[|page.items| - 1])
                  && exists e :: e in t && Selected(q, e) && Older(Key(e), page.next.value))
  {
    SortedDescends(t, q);
    PageFacts(t, q);
    PageSizes(t, q);
    hide PageSize, PageOf, Sorted, Selected, Older, UniqueIds;
    var page := PageOf(t, q);
    if page.next.Some? {
      var last := page.items[|page.items| - 1];
      forall e | e in page.items ensures !Older(Key(e), page.next.value) {
        var i :| 0 <= i < |page.items| && page.items[i] == e;
        OlderTotal(Key(e), Key(last));
      }
      var more := Sorted(t, q)[PageSize(q)];
      assert more in Sorted(t, q);
    }
  }

  lemma PageSizes(t: Rows, q: Query)
    requires Descending(Sorted(t, q))
    ensures var page, all := PageOf(t, q), Sorted(t, q);
            && PageSize(q) > 0 && |page.items| <= PageSize(q)
            && (page.next.Some? ==>
                  |page.items| == PageSize(q) < |all| && Older(Key(all[PageSize(q)]), page.next.value))
  {
    hide Sorted, Older;
  }

  /** A row asked for that is in the table at every request is received, whatever is
      inserted or deleted around it. */
  lemma NothingAskedForIsMissed(tables: seq<Rows>, q: Query, workspaceId: string, p: ListParams,
                                parseTime: string -> Option<int>, e: Event)
    requires Acceptable(p, parseTime) && Asks(q, workspaceId, p, parseTime)
    requires AllUnique(tables) && Finished(Follow(tables, q))
    requires forall i :: 0 <= i < |tables| && i < |Follow(tables, q)| ==> e in tables[i]
    requires Wants(p, workspaceId, parseTime, e)
    ensures e in Items(Follow(tables, q))
  {
    WantedIsSelected(q, workspaceId, p, parseTime, e);
    hide Acceptable, Asks, Wants, Selected;
    NothingMissed(tables, q, e);
  }

  /** And nothing else is: every row received was asked for, and in the table its request
      found. */
  lemma OnlyWhatWasAskedFor(tables: seq<Rows>, q: Query, workspaceId: string, p: ListParams,
                            parseTime: string -> Option<int>, e: Event)
    requires Acceptable(p, parseTime) && Asks(q, workspaceId, p, parseTime) && AllUnique(tables)
    requires e in Items(Follow(tables, q))
    ensures Wants(p, workspaceId, parseTime, e)
  {
    WantedIsSelected(q, workspaceId, p, parseTime, e);
    hide Acceptable, Asks, Wants, Selected, Items, Follow;
    NeverTwice(tables, q);
  }
}
