/** Keyset pagination over the durable audit trail. */
module AuditPaging {
  import opened Prelude
  import opened TextOrder

  // ---------------------------------------------------------------------
  // Positions
  // ---------------------------------------------------------------------

  /** A position in the descending (occurred_at, id) order. */
  datatype Cursor = Cursor(occurredAt: int, id: string)

  predicate Older(a: Cursor, b: Cursor) {
    a.occurredAt < b.occurredAt || (a.occurredAt == b.occurredAt && LexLess(a.id, b.id))
  }

  lemma OlderTotal(a: Cursor, b: Cursor)
    ensures Older(a, b) || Older(b, a) || a == b
    ensures !(Older(a, b) && Older(b, a)) && !Older(a, a)
  {
    LexTotal(a.id, b.id);
  }

  lemma OlderTransitive(a: Cursor, b: Cursor, c: Cursor)
    requires Older(a, b) && Older(b, c)
    ensures Older(a, c)
  {
    if a.occurredAt == c.occurredAt { LexTransitive(a.id, b.id, c.id); }
  }

  // ---------------------------------------------------------------------
  // The table and the query
  // ---------------------------------------------------------------------

  datatype Event = Event(id: string, workspaceId: Option<string>, eventType: string,
                         actorType: string, outcome: string, occurredAt: int)

  /** Empty text is stored as NULL and read back as empty. */
  function Nullable(s: string): Option<string> { if s == "" then None else Some(s) }

  function Deref(o: Option<string>): string { match o case None => "" case Some(s) => s }

  lemma NullableRoundTrip(s: string, o: Option<string>)
    ensures Deref(Nullable(s)) == s
    ensures Nullable(Deref(o)) == o <==> o != Some("")
  {
  }

  function Key(e: Event): Cursor { Cursor(e.occurredAt, e.id) }

  datatype Query = Query(workspaceId: string, eventType: string, actorType: string, outcome: string,
                         from: Option<int>, to: Option<int>, after: Option<Cursor>, limit: int)

  const DEFAULT_PAGE_SIZE := 50
  const MAX_PAGE_SIZE := 200

  function PageSize(q: Query): nat { if q.limit <= 0 then DEFAULT_PAGE_SIZE else q.limit }

  /** The workspace boundary and the filters. */
  predicate InScope(q: Query, e: Event) {
    && q.workspaceId != "" && e.workspaceId == Some(q.workspaceId)
    && (q.eventType != "" ==> e.eventType == q.eventType)
    && (q.actorType != "" ==> e.actorType == q.actorType)
    && (q.outcome != "" ==> e.outcome == q.outcome)
    && (q.from.Some? ==> e.occurredAt >= q.from.value)
    && (q.to.Some? ==> e.occurredAt <= q.to.value)
  }

  /** The cursor predicate as the query states it: a range part and a tie part. */
  predicate PastCursor(c: Cursor, e: Event) {
    e.occurredAt <= c.occurredAt && (e.occurredAt < c.occurredAt || LexLess(e.id, c.id))
  }

  predicate Selected(q: Query, e: Event) {
    InScope(q, e) && (q.after.Some? ==> PastCursor(q.after.value, e))
  }

  /** Range and tie together are the row comparison (occurred_at, id) < (t, i). */
  lemma SplitIsLexicographic(c: Cursor, e: Event)
    ensures PastCursor(c, e) <==> Older(Key(e), c)
  {
  }

  type Rows = seq<Event>

  ghost predicate UniqueIds(t: Rows) {
    forall i, j :: 0 <= i < j < |t| ==> t[i].id != t[j].id
  }

  function Where(t: Rows, q: Query): Rows {
    if t == [] then [] else
      var rest := Where(t[1..], q);
      if Selected(q, t[0]) then [t[0]] + rest else rest
  }

  predicate NewerFirst(a: Event, b: Event) { Key(a) == Key(b) || Older(Key(b), Key(a)) }

  /** Everything the query selects, in ORDER BY occurred_at DESC, id DESC. */
  function Sorted(t: Rows, q: Query): Rows { SortBy(Where(t, q), NewerFirst) }

  function Take<T>(s: seq<T>, n: nat): seq<T> { if |s| <= n then s else s[..n] }

  datatype Page = Page(items: Rows, next: Option<Cursor>)

  /** The first page of what is selected, and where the next one starts. */
  function PageOf(t: Rows, q: Query): Page {
    var all := Sorted(t, q);
    var items := Take(all, PageSize(q));
    Page(items, if |all| > PageSize(q) then Some(Key(items[PageSize(q) - 1])) else None)
  }

  lemma NewerFirstIsTotal()
    ensures TotalPreorder(NewerFirst)
  {
    forall x, y ensures NewerFirst(x, y) || NewerFirst(y, x) {
      OlderTotal(Key(x), Key(y));
    }
    forall x, y, z | NewerFirst(x, y) && NewerFirst(y, z) ensures NewerFirst(x, z) {
      if Key(x) != Key(y) && Key(y) != Key(z) { OlderTransitive(Key(z), Key(y), Key(x)); }
    }
  }

  lemma {:induction false} WhereSelects(t: Rows, q: Query)
    ensures forall e :: e in Where(t, q) <==> e in t && Selected(q, e)
    ensures UniqueIds(t) ==> UniqueIds(Where(t, q))
  {
    if t != [] {
      WhereSelects(t[1..], q);
      assert t == [t[0]] + t[1..];
      var rest := Where(t[1..], q);
      if UniqueIds(t) {
        assert UniqueIds(t[1..]);
        forall e | e in rest ensures e.id != t[0].id { assert e in t[1..]; }
      }
    }
  }

  lemma UniqueIsDistinct(t: Rows)
    requires UniqueIds(t)
    ensures Distinct(t)
  {
  }

  ghost predicate Descending(s: Rows) {
    forall i, j :: 0 <= i < j < |s| ==> Older(Key(s[j]), Key(s[i]))
  }

  /** The sorted selection: exactly the selected rows, strictly descending. */
  lemma SortedDescends(t: Rows, q: Query)
    requires UniqueIds(t)
    ensures Descending(Sorted(t, q)) && Distinct(Sorted(t, q))
    ensures forall e :: e in Sorted(t, q) <==> e in t && Selected(q, e)
  {
    hide Older, Selected, Where, InScope;
    var w, s := Where(t, q), Sorted(t, q);
    WhereSelects(t, q);
    NewerFirstIsTotal();
    SortIsSorted(w, NewerFirst);
    SameElements(s, w);
    UniqueIsDistinct(w);
    DistinctIffSingleCopies(w);
    DistinctIffSingleCopies(s);
    hide SortBy, Distinct;
    forall i, j | 0 <= i < j < |s| ensures Older(Key(s[j]), Key(s[i])) {
      assert NewerFirst(s[i], s[j]);
      assert s[i] in w && s[j] in w;
      DistinctElements(s, i, j);
      DifferentIds(w, s[i], s[j]);
    }
  }

  lemma DistinctElements<T>(s: seq<T>, i: nat, j: nat)
    requires Distinct(s) && i < j < |s|
    ensures s[i] != s[j]
  {
  }

  lemma DifferentIds(t: Rows, a: Event, b: Event)
    requires UniqueIds(t) && a in t && b in t && a != b
    ensures a.id != b.id
  {
    var i, j :| 0 <= i < |t| && 0 <= j < |t| && t[i] == a && t[j] == b;
    assert i < j || j < i;
  }

  lemma {:induction false} ForeignRowIsNotSelected(a: Rows, e: Event, b: Rows, q: Query)
    requires e.workspaceId != Some(q.workspaceId)
    ensures Where(a + [e] + b, q) == Where(a + b, q)
  {
    if a == [] {
      assert ([] + [e] + b)[1..] == b && [] + b == b;
    } else {
      ForeignRowIsNotSelected(a[1..], e, b, q);
      assert (a + [e] + b)[1..] == a[1..] + [e] + b && (a + b)[1..] == a[1..] + b;
    }
  }

  /** The workspace boundary: what other workspaces, or no workspace, have in the
      table shows nowhere in a page, neither in its rows nor in its next cursor. */
  lemma OtherWorkspacesAreInvisible(a: Rows, e: Event, b: Rows, q: Query)
    requires e.workspaceId != Some(q.workspaceId)
    ensures PageOf(a + [e] + b, q) == PageOf(a + b, q)
  {
    hide Where;
    ForeignRowIsNotSelected(a, e, b, q);
  }

  // ---------------------------------------------------------------------
  // The store
  // ---------------------------------------------------------------------

  class AuditStore {
    var rows: Rows

    constructor ()
      ensures rows == []
    {
      rows := [];
    }

    /** The primary key refuses a second event with the same id. */
    method Record(e: Event) returns (ok: bool)
      requires UniqueIds(rows)
      modifies this
      ensures UniqueIds(rows)
      ensures ok <==> forall r :: r in old(rows) ==> r.id != e.id
      ensures rows == if ok then old(rows) + [e] else old(rows)
    {
      var i := 0;
      while i < |rows|
        invariant 0 <= i <= |rows| && rows == old(rows)
        invariant forall j :: 0 <= j < i ==> rows[j].id != e.id
      {
        if rows[i].id == e.id {
          assert rows[i] in rows;
          return false;
        }
        i := i + 1;
      }
      rows := rows + [e];
      return true;
    }

    /** One page: fetch one row more than fits, and let that row decide whether
        there is a next page. */
    method List(q: Query) returns (page: Page)
      ensures page == PageOf(rows, q)
    {
      if q.workspaceId == "" {
        NoWorkspaceNoRows(rows, q);
        return Page([], None);
      }
      var limit := if q.limit <= 0 then DEFAULT_PAGE_SIZE else q.limit;
      var fetched := Take(Sorted(rows, q), limit + 1);
      OneRowMore(rows, q, limit, fetched);
      hide Sorted, PageOf, Take;
      var hasMore := |fetched| > limit;
      if hasMore {
        fetched := fetched[..limit];
      }
      var items: Rows := [];
      for i := 0 to |fetched|
        invariant items == fetched[..i]
      {
        items := items + [fetched[i]];
      }
      page := Page(items, None);
      if hasMore && |page.items| > 0 {
        page := page.(next := Some(Key(page.items[|page.items| - 1])));
      }
    }

    /** Retention: strictly older than the cutoff goes, the cutoff itself stays. */
    method DeleteOlderThan(cutoff: int) returns (deleted: nat)
      requires UniqueIds(rows)
      modifies this
      ensures UniqueIds(rows)
      ensures forall e :: e in rows <==> e in old(rows) && e.occurredAt >= cutoff
      ensures |rows| + deleted == |old(rows)|
    {
      var kept: Rows := [];
      for i := 0 to |rows|
        invariant rows == old(rows)
        invariant forall e :: e in kept <==> e in rows[..i] && e.occurredAt >= cutoff
        invariant |kept| <= i
        invariant UniqueIds(kept)
      {
        assert rows[..i + 1] == rows[..i] + [rows[i]];
        if rows[i].occurredAt >= cutoff {
          forall e | e in kept ensures e.id != rows[i].id { assert e in rows[..i]; }
          kept := kept + [rows[i]];
        }
      }
      assert rows[..|rows|] == rows;
      deleted := |rows| - |kept|;
      rows := kept;
    }

    /** The sweep; a non-positive window deletes nothing. */
    method Purge(now: int, retention: int) returns (deleted: nat)
      requires UniqueIds(rows)
      modifies this
      ensures UniqueIds(rows)
      ensures forall e :: e in rows <==> e in old(rows) && (retention <= 0 || now - e.occurredAt <= retention)
      ensures |rows| + deleted == |old(rows)|
    {
      if retention <= 0 {
        return 0;
      }
      deleted := DeleteOlderThan(now - retention);
    }
  }

  /** One row more than fits says all there is to know about the page. */
  lemma OneRowMore(t: Rows, q: Query, limit: nat, fetched: Rows)
    requires limit == PageSize(q) && limit > 0 && fetched == Take(Sorted(t, q), limit + 1)
    ensures |fetched| <= limit + 1
    ensures PageOf(t, q) ==
            if |fetched| > limit then Page(fetched[..limit], Some(Key(fetched[limit - 1]))) else Page(fetched, None)
  {
    hide Sorted;
    var all := Sorted(t, q);
    assert |all| > limit ==> fetched[..limit] == all[..limit];
  }

  lemma {:induction false} NoWorkspaceNoRows(t: Rows, q: Query)
    requires q.workspaceId == ""
    ensures Where(t, q) == [] && PageOf(t, q) == Page([], None)
  {
    if t != [] { NoWorkspaceNoRows(t[1..], q); }
  }

  // ---------------------------------------------------------------------
  // A client following next_cursor
  // ---------------------------------------------------------------------

  /** The pages a client receives when the k-th request finds the table in the
      state tables[k]; it stops at the first page without a next cursor. */
  function Follow(tables: seq<Rows>, q: Query): seq<Page>
    decreases |tables|
  {
    if tables == [] then [] else
      var p := PageOf(tables[0], q);
      if p.next.None? then [p] else [p] + Follow(tables[1..], q.(after := p.next))
  }

  function Items(pages: seq<Page>): Rows {
    if pages == [] then [] else pages[0].items + Items(pages[1..])
  }

  predicate Finished(pages: seq<Page>) {
    pages != [] && pages[|pages| - 1].next.None?
  }

  lemma PagesGoOn(tables: seq<Rows>, q: Query)
    requires tables != []
    ensures var p := PageOf(tables[0], q);
            Follow(tables, q) == [p] + if p.next.None? then [] else Follow(tables[1..], q.(after := p.next))
  {
  }

  lemma ItemsOfMore(p: Page, rest: seq<Page>)
    ensures Items([p] + rest) == p.items + Items(rest)
  {
    assert ([p] + rest)[1..] == rest;
  }

  lemma FinishedMore(p: Page, rest: seq<Page>)
    requires Finished(rest)
    ensures Finished([p] + rest)
  {
  }

  lemma FollowOn(tables: seq<Rows>, q: Query)
    requires tables != [] && PageOf(tables[0], q).next.Some?
    ensures var p := PageOf(tables[0], q);
            var rest := Follow(tables[1..], q.(after := p.next));
            && Follow(tables, q) == [p] + rest
            && Items(Follow(tables, q)) == p.items + Items(rest)
            && (Finished(rest) ==> Finished(Follow(tables, q)))
  {
    hide PageOf;
    PagesGoOn(tables, q);
    var p := PageOf(tables[0], q);
    var rest := Follow(tables[1..], q.(after := p.next));
    hide Follow, Items, Finished;
    ItemsOfMore(p, rest);
    if Finished(rest) { FinishedMore(p, rest); }
  }

  ghost predicate AllUnique(tables: seq<Rows>) {
    forall i :: 0 <= i < |tables| ==> UniqueIds(tables[i])
  }

  lemma Beyond<T>(s: seq<T>, n: nat, x: T)
    requires x in s && x !in Take(s, n)
    ensures |s| > n && exists i :: n <= i < |s| && s[i] == x
  {
    assert |s| > n;
    assert s == s[..n] + s[n..];
    var j :| 0 <= j < |s[n..]| && s[n..][j] == x;
    assert s[n + j] == x;
  }

  lemma PageFacts(t: Rows, q: Query)
    requires UniqueIds(t)
    ensures var p := PageOf(t, q);
            && Descending(p.items)
            && (forall e :: e in p.items ==> e in t && Selected(q, e))
            && (p.next.Some? ==> |p.items| > 0 && p.next.value == Key(p.items[|p.items| - 1]))
            && (forall e :: e in t && Selected(q, e) && e !in p.items ==>
                  p.next.Some? && Older(Key(e), p.next.value))
  {
    SortedDescends(t, q);
    hide Sorted, Selected, Older, UniqueIds;
    var all, p := Sorted(t, q), PageOf(t, q);
    assert p.items <= all;
    assert forall e :: e in p.items ==> e in all;
    forall e | e in t && Selected(q, e) && e !in p.items ensures p.next.Some? && Older(Key(e), p.next.value) {
      Beyond(all, PageSize(q), e);
    }
  }

  predicate PageFrom(p: Page, t: Rows, q: Query) {
    forall e :: e in p.items ==> e in t && Selected(q, e)
  }

  /** The k-th page holds rows the query selects, out of the table its request found. */
  ghost predicate Honest(pages: seq<Page>, tables: seq<Rows>, q: Query) {
    && |pages| <= |tables|
    && forall k :: 0 <= k < |pages| ==> PageFrom(pages[k], tables[k], q)
  }

  /** The pages a resumed query gets are pages of the query it resumes. */
  lemma ResumedPages(p: Page, rest: seq<Page>, tables: seq<Rows>, q: Query)
    requires |p.items| > 0 && p.next == Some(Key(p.items[|p.items| - 1]))
    requires Selected(q, p.items[|p.items| - 1]) && Honest(rest, tables, q.(after := p.next))
    ensures Honest(rest, tables, q)
  {
    hide Selected;
    forall k | 0 <= k < |rest| ensures PageFrom(rest[k], tables[k], q) {
      assert PageFrom(rest[k], tables[k], q.(after := p.next));
      forall e | e in rest[k].items ensures Selected(q, e) { LaterPageIsSelected(q, p, e); }
    }
  }

  lemma HonestMore(p: Page, rest: seq<Page>, t: Rows, tables: seq<Rows>, q: Query)
    requires PageFrom(p, t, q) && Honest(rest, tables, q)
    ensures Honest([p] + rest, [t] + tables, q)
  {
    hide PageFrom;
  }

  lemma {:induction false} PagesAreHonest(tables: seq<Rows>, q: Query)
    requires AllUnique(tables)
    ensures Honest(Follow(tables, q), tables, q)
    decreases |tables|
  {
    if tables != [] {
      hide PageOf, InScope, Selected, UniqueIds, Descending, Honest, Follow;
      var p := PageOf(tables[0], q);
      PageFacts(tables[0], q);
      PagesGoOn(tables, q);
      assert tables == [tables[0]] + tables[1..];
      if p.next.None? {
        NoPagesAreHonest(tables[1..], q);
        HonestMore(p, [], tables[0], tables[1..], q);
      } else {
        PagesAreHonest(tables[1..], q.(after := p.next));
        var rest := Follow(tables[1..], q.(after := p.next));
        ResumedPages(p, rest, tables[1..], q);
        HonestMore(p, rest, tables[0], tables[1..], q);
      }
    }
  }

  lemma NoPagesAreHonest(tables: seq<Rows>, q: Query)
    ensures Honest([], tables, q)
  {
  }

  lemma LaterPageIsSelected(q: Query, p: Page, e: Event)
    requires |p.items| > 0 && p.next == Some(Key(p.items[|p.items| - 1]))
    requires Selected(q, p.items[|p.items| - 1]) && Selected(q.(after := p.next), e)
    ensures Selected(q, e) && Older(Key(e), p.next.value)
  {
    ResumedScope(q, p.next.value, e);
    BeyondLaterCursor(q, p.items[|p.items| - 1], e);
  }

  /** Whatever happens to the table between requests, the rows a client receives
      are strictly descending, so none comes twice; each was selected, and in the table
      the request that returned it found. */
  lemma {:induction false} NeverTwice(tables: seq<Rows>, q: Query)
    requires AllUnique(tables)
    ensures Descending(Items(Follow(tables, q)))
    ensures forall e :: e in Items(Follow(tables, q)) ==> Selected(q, e)
    ensures Honest(Follow(tables, q), tables, q)
    decreases |tables|
  {
    PagesAreHonest(tables, q);
    hide PageOf, InScope, Selected, Older, UniqueIds, Descending, Honest;
    if tables == [] {
      NothingDescends();
    } else {
      var p := PageOf(tables[0], q);
      PageFacts(tables[0], q);
      if p.next.None? {
        assert Items([p]) == p.items;
      } else {
        var q' := q.(after := p.next);
        var tail := Items(Follow(tables[1..], q'));
        NeverTwice(tables[1..], q');
        FollowOn(tables, q);
        hide Follow, Items;
        forall e | e in tail ensures Older(Key(e), p.next.value) && Selected(q, e) {
          assert p.items[|p.items| - 1] in p.items;
          LaterPageIsSelected(q, p, e);
        }
        DescendingJoin(p.items, tail);
      }
    }
  }

  lemma NothingDescends()
    ensures Descending([])
  {
  }

  /** Resuming moves the cursor and nothing else. */
  lemma ResumedScope(q: Query, c: Cursor, e: Event)
    ensures Selected(q.(after := Some(c)), e) <==> InScope(q, e) && Older(Key(e), c)
    ensures Selected(q, e) ==> InScope(q, e)
  {
    SplitIsLexicographic(c, e);
  }

  lemma BeyondLaterCursor(q: Query, last: Event, e: Event)
    requires Selected(q, last) && InScope(q, e) && Older(Key(e), Key(last))
    ensures Selected(q, e)
  {
    if q.after.Some? {
      SplitIsLexicographic(q.after.value, last);
      SplitIsLexicographic(q.after.value, e);
      OlderTransitive(Key(e), Key(last), q.after.value);
    }
  }

  lemma DescendingJoin(a: Rows, b: Rows)
    requires Descending(a) && Descending(b) && |a| > 0
    requires forall e :: e in b ==> Older(Key(e), Key(a[|a| - 1]))
    ensures Descending(a + b)
  {
    var s := a + b;
    forall i, j | 0 <= i < j < |s| ensures Older(Key(s[j]), Key(s[i])) {
      if i < |a| && |a| <= j {
        assert s[j] in b;
        if i < |a| - 1 { OlderTransitive(Key(s[j]), Key(a[|a| - 1]), Key(a[i])); }
      }
    }
  }

  lemma RequestMade(tables: seq<Rows>, q: Query)
    requires Follow(tables, q) != []
    ensures tables != []
  {
  }

  /** A row that matches and is there at every request is received, whatever is
      inserted or deleted around it. */
  lemma {:induction false} NothingMissed(tables: seq<Rows>, q: Query, e: Event)
    requires AllUnique(tables) && Finished(Follow(tables, q))
    requires forall i :: 0 <= i < |tables| && i < |Follow(tables, q)| ==> e in tables[i]
    requires Selected(q, e)
    ensures e in Items(Follow(tables, q))
    decreases |tables|
  {
    hide PageOf, InScope, Selected, Older, UniqueIds, Descending;
    RequestMade(tables, q);
    var p := PageOf(tables[0], q);
    PageFacts(tables[0], q);
    PagesGoOn(tables, q);
    hide Follow, Items;
    assert e in tables[0];
    if p.next.None? {
      ItemsOfMore(p, []);
    } else {
      var q' := q.(after := p.next);
      var rest := Follow(tables[1..], q');
      ItemsOfMore(p, rest);
      if e !in p.items {
        ResumedScope(q, p.next.value, e);
        assert rest != [];
        assert rest[|rest| - 1] == Follow(tables, q)[|rest|];
        forall i | 0 <= i < |tables[1..]| && i < |rest| ensures e in tables[1..][i] {
          assert tables[1..][i] == tables[i + 1];
        }
        NothingMissed(tables[1..], q', e);
      }
    }
  }

  // ---------------------------------------------------------------------
  // A table nobody changes
  // ---------------------------------------------------------------------

  lemma DescendingHasOneOrder(s: Rows)
    requires Descending(s)
    ensures Distinct(s) && SortedBy(s, NewerFirst) && AntisymmetricOn(s, NewerFirst)
  {
    forall i, j | 0 <= i < j < |s| ensures s[i] != s[j] {
      OlderTotal(Key(s[i]), Key(s[j]));
    }
    forall x, y | x in s && y in s && NewerFirst(x, y) && NewerFirst(y, x) ensures x == y {
      OlderTotal(Key(x), Key(y));
      var a, b :| 0 <= a < |s| && 0 <= b < |s| && s[a] == x && s[b] == y;
      assert a == b;
    }
  }

  /** In a descending list the rows older than the j-th are those after it. */
  lemma AfterPosition(s: Rows, j: nat, e: Event)
    requires Descending(s) && j < |s|
    ensures e in s[j + 1..] <==> e in s && Older(Key(e), Key(s[j]))
  {
    if e in s && Older(Key(e), Key(s[j])) {
      var i :| 0 <= i < |s| && s[i] == e;
      OlderTotal(Key(s[i]), Key(s[j]));
      assert s[j + 1..][i - j - 1] == e;
    }
  }

  /** Resuming after a row of the selection selects exactly what follows it. */
  lemma ResumeIsSuffix(t: Rows, q: Query, j: nat)
    requires UniqueIds(t) && j < |Sorted(t, q)|
    ensures Sorted(t, q.(after := Some(Key(Sorted(t, q)[j])))) == Sorted(t, q)[j + 1..]
  {
    var all := Sorted(t, q);
    var q' := q.(after := Some(Key(all[j])));
    var want, got := all[j + 1..], Sorted(t, q');
    SortedDescends(t, q);
    SortedDescends(t, q');
    assert all[j] in all;
    forall e ensures e in got <==> e in want {
      AfterPosition(all, j, e);
      SplitIsLexicographic(Key(all[j]), e);
      if e in got { BeyondLaterCursor(q, all[j], e); }
    }
    assert Descending(want);
    DescendingHasOneOrder(want);
    DescendingHasOneOrder(got);
    SameMembersSameBag(got, want);
    SortedUnique(got, want, NewerFirst);
  }

  /** How many requests it takes to read n rows. */
  function Requests(n: nat, limit: nat): nat
    requires limit > 0
  {
    if n <= limit then 1 else 1 + Requests(n - limit, limit)
  }

  lemma {:induction false} RequestsIsCeiling(n: nat, limit: nat)
    requires limit > 0
    ensures Requests(n, limit) >= 1
    ensures n <= Requests(n, limit) * limit
    ensures n > 0 ==> (Requests(n, limit) - 1) * limit < n
    decreases n
  {
    if n > limit {
      RequestsIsCeiling(n - limit, limit);
      assert Requests(n, limit) * limit == Requests(n - limit, limit) * limit + limit;
    }
  }

  /** A list cut into pages, each naming its last row when there is more. */
  function CutIntoPages(all: Rows, limit: nat): seq<Page>
    requires limit > 0
  {
    if |all| <= limit then [Page(all, None)]
    else [Page(all[..limit], Some(Key(all[limit - 1])))] + CutIntoPages(all[limit..], limit)
  }

  lemma {:induction false} PagesCount(all: Rows, limit: nat)
    requires limit > 0
    ensures |CutIntoPages(all, limit)| == Requests(|all|, limit)
  {
    if |all| > limit {
      var rest := all[limit..];
      assert |rest| == |all| - limit;
      PagesCount(rest, limit);
    }
  }

  lemma CutMore(all: Rows, limit: nat)
    requires limit > 0
    ensures CutIntoPages(all, limit) ==
            if |all| <= limit then [Page(all, None)]
            else [Page(all[..limit], Some(Key(all[limit - 1])))] + CutIntoPages(all[limit..], limit)
  {
  }

  lemma LastPage(all: Rows)
    ensures Items([Page(all, None)]) == all && Finished([Page(all, None)])
  {
    ItemsOfMore(Page(all, None), []);
    assert [Page(all, None)] + [] == [Page(all, None)];
  }

  lemma {:induction false} PagesCover(all: Rows, limit: nat)
    requires limit > 0
    ensures Items(CutIntoPages(all, limit)) == all
    ensures Finished(CutIntoPages(all, limit))
  {
    hide CutIntoPages, Items, Finished;
    CutMore(all, limit);
    if |all| <= limit {
      LastPage(all);
    } else {
      var rest := CutIntoPages(all[limit..], limit);
      PagesCover(all[limit..], limit);
      var p := Page(all[..limit], Some(Key(all[limit - 1])));
      ItemsOfMore(p, rest);
      FinishedMore(p, rest);
      assert all[..limit] + all[limit..] == all;
    }
  }

  lemma NextPageStartsAfter(t: Rows, q: Query, limit: nat)
    requires limit == PageSize(q) && |Sorted(t, q)| > limit
    ensures PageOf(t, q) == Page(Sorted(t, q)[..limit], Some(Key(Sorted(t, q)[limit - 1])))
  {
  }

  lemma OnlyPage(t: Rows, q: Query, limit: nat)
    requires limit == PageSize(q) && |Sorted(t, q)| <= limit
    ensures PageOf(t, q) == Page(Sorted(t, q), None)
  {
  }

  /** On an unchanging table the client receives the sorted selection, cut. */
  lemma {:induction false} StaticPages(t: Rows, q: Query, tables: seq<Rows>, all: Rows, limit: nat)
    requires UniqueIds(t) && forall i :: 0 <= i < |tables| ==> tables[i] == t
    requires all == Sorted(t, q) && limit == PageSize(q)
    requires |tables| >= Requests(|all|, limit)
    ensures Follow(tables, q) == CutIntoPages(all, limit)
    decreases |tables|
  {
    hide Sorted, PageOf, UniqueIds;
    assert tables[0] == t;
    if |all| <= limit {
      OnlyPage(t, q, limit);
    } else {
      NextPageStartsAfter(t, q, limit);
      var q' := q.(after := Some(Key(all[limit - 1])));
      ResumeIsSuffix(t, q, limit - 1);
      FollowOn(tables, q);
      StaticPages(t, q', tables[1..], all[limit..], limit);
    }
  }

  /** The pages add up to the sorted selection, and the run takes
      max(1, ceil(n / limit)) requests, exact multiples included. */
  lemma StaticRun(t: Rows, q: Query, tables: seq<Rows>)
    requires UniqueIds(t) && forall i :: 0 <= i < |tables| ==> tables[i] == t
    requires |tables| >= Requests(|Sorted(t, q)|, PageSize(q))
    ensures Items(Follow(tables, q)) == Sorted(t, q)
    ensures |Follow(tables, q)| == Requests(|Sorted(t, q)|, PageSize(q))
    ensures Finished(Follow(tables, q))
  {
    StaticPages(t, q, tables, Sorted(t, q), PageSize(q));
    PagesCover(Sorted(t, q), PageSize(q));
    PagesCount(Sorted(t, q), PageSize(q));
  }
}
