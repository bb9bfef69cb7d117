/** The bounded in-memory window onto recent audit events. */
module AuditMemory {
  import opened Prelude

  /** No timestamp stands for Go's zero time. */
  datatype Event = Event(action: string, actor: string, target: string, timestamp: Option<int>)

  const UINT64 := 0x1_0000_0000_0000_0000

  function Stamp(e: Event, now: int): Event {
    if e.timestamp.None? then e.(timestamp := Some(now)) else e
  }

  // ---------------------------------------------------------------------
  // What a snapshot shows of everything ever recorded
  // ---------------------------------------------------------------------

  function Min(a: nat, b: nat): nat { if a < b then a else b }

  /** The newest n events of a log, newest first. */
  function Newest(log: seq<Event>, n: nat): (r: seq<Event>)
    requires n <= |log|
    ensures |r| == n && forall i :: 0 <= i < n ==> r[i] == log[|log| - 1 - i]
  {
    seq(n, i requires 0 <= i < n => log[|log| - 1 - i])
  }

  predicate After(e: Event, since: Option<int>) {
    since.Some? ==> e.timestamp.Some? && e.timestamp.value > since.value
  }

  /** The events before the first one that is not after `since`. */
  function Recent(s: seq<Event>, since: Option<int>): seq<Event> {
    if s == [] || !After(s[0], since) then [] else [s[0]] + Recent(s[1..], since)
  }

  function AtMost(s: seq<Event>, limit: int): seq<Event> {
    if limit > 0 && |s| > limit then s[..limit] else s
  }

  function Window(log: seq<Event>, capacity: nat, limit: int, since: Option<int>): seq<Event> {
    AtMost(Recent(Newest(log, Min(|log|, capacity)), since), limit)
  }

  function Evicted(log: seq<Event>, capacity: nat): nat {
    if |log| > capacity then |log| - capacity else 0
  }

  /** A prefix of events all after `since`, ending where that stops or the list ends. */
  lemma {:induction false} RecentIsPrefix(s: seq<Event>, since: Option<int>, k: nat)
    requires k <= |s| && forall i :: 0 <= i < k ==> After(s[i], since)
    ensures s[..k] <= Recent(s, since)
    ensures k == |s| || !After(s[k], since) ==> Recent(s, since) == s[..k]
  {
    if k > 0 {
      RecentIsPrefix(s[1..], since, k - 1);
      assert s[..k] == [s[0]] + s[1..][..k - 1];
    }
  }

  /** Walking the newest events up to the first that is too old, or to the limit,
      collects the window. */
  lemma WalkIsWindow(log: seq<Event>, capacity: nat, limit: int, since: Option<int>, k: nat)
    requires k <= Min(|log|, capacity) && (limit > 0 ==> k <= limit)
    requires var newest := Newest(log, Min(|log|, capacity));
             && (forall i :: 0 <= i < k ==> After(newest[i], since))
             && (k == |newest| || !After(newest[k], since) || k == limit > 0)
    ensures Window(log, capacity, limit, since) == Newest(log, Min(|log|, capacity))[..k]
  {
    var newest := Newest(log, Min(|log|, capacity));
    RecentIsPrefix(newest, since, k);
    if k == limit && k > 0 {
      assert AtMost(Recent(newest, since), limit) == newest[..k];
    }
  }

  lemma {:induction false} RecentStops(s: seq<Event>, since: Option<int>)
    ensures var r := Recent(s, since);
            && r <= s && (forall i :: 0 <= i < |r| ==> After(s[i], since))
            && (|r| < |s| ==> !After(s[|r|], since))
  {
    if s != [] && After(s[0], since) {
      RecentStops(s[1..], since);
      assert s == [s[0]] + s[1..];
    }
  }

  /** A snapshot is the newest events, newest first, every one after `since`, as many as
      the ring holds and the limit allows, and it stops short of that only at an event that
      is not after `since`. */
  lemma WindowIsExact(log: seq<Event>, capacity: nat, limit: int, since: Option<int>)
    ensures var out := Window(log, capacity, limit, since);
            && |out| <= |log| && |out| <= capacity && (limit > 0 ==> |out| <= limit)
            && (forall k :: 0 <= k < |out| ==>
                  && out[k] == log[|log| - 1 - k]
                  && (since.Some? ==> out[k].timestamp.Some? && out[k].timestamp.value > since.value))
            && (|out| < |log| && |out| < capacity && (limit > 0 ==> |out| < limit) ==>
                  && since.Some?
                  && var next := log[|log| - 1 - |out|];
                     next.timestamp.None? || next.timestamp.value <= since.value)
    ensures Evicted(log, capacity) + Min(|log|, capacity) == |log|
  {
    RecentStops(Newest(log, Min(|log|, capacity)), since);
    hide Recent;
  }

  function Filter(s: seq<Event>, since: Option<int>): seq<Event> {
    if s == [] then []
    else if After(s[0], since) then [s[0]] + Filter(s[1..], since) else Filter(s[1..], since)
  }

  /** Nothing after `since` stands behind something that is not. */
  predicate NoGap(s: seq<Event>, since: Option<int>) {
    forall i, j :: 0 <= i < j < |s| && After(s[j], since) ==> After(s[i], since)
  }

  lemma {:induction false} NothingAfter(s: seq<Event>, since: Option<int>)
    ensures Filter(s, since) == [] <==> forall i :: 0 <= i < |s| ==> !After(s[i], since)
  {
    if s != [] { NothingAfter(s[1..], since); }
  }

  /** What stopping early collects is the beginning of what the filter does, and all
      of it exactly when there is no gap. */
  lemma {:induction false} EarlyStopIsPrefix(s: seq<Event>, since: Option<int>)
    ensures Recent(s, since) <= Filter(s, since)
    ensures Recent(s, since) == Filter(s, since) <==> NoGap(s, since)
  {
    if s != [] {
      var rest := s[1..];
      if After(s[0], since) {
        EarlyStopIsPrefix(rest, since);
        GapAfterHead(s, since);
      } else {
        NothingAfter(rest, since);
      }
    }
  }

  lemma GapAfterHead(s: seq<Event>, since: Option<int>)
    requires s != [] && After(s[0], since)
    ensures NoGap(s, since) <==> NoGap(s[1..], since)
  {
    if NoGap(s[1..], since) {
      forall i, j | 0 <= i < j < |s| && After(s[j], since) ensures After(s[i], since) {
        if i > 0 { assert After(s[1..][j - 1], since); }
      }
    }
  }

  /** A snapshot is exactly the retained events after `since`, newest first, cut at
      the limit, if and only if the limit is reached before the early stop or no
      retained event after `since` was recorded before one that is not. */
  lemma SnapshotIsFilterIff(log: seq<Event>, capacity: nat, limit: int, since: Option<int>)
    ensures var newest := Newest(log, Min(|log|, capacity));
            Window(log, capacity, limit, since) == AtMost(Filter(newest, since), limit)
            <==> (limit > 0 && |Recent(newest, since)| >= limit) || NoGap(newest, since)
  {
    var newest := Newest(log, Min(|log|, capacity));
    EarlyStopIsPrefix(newest, since);
  }

  ghost predicate TimeOrdered(log: seq<Event>) {
    && (forall i :: 0 <= i < |log| ==> log[i].timestamp.Some?)
    && (forall i, j :: 0 <= i < j < |log| ==> log[i].timestamp.value <= log[j].timestamp.value)
  }

  /** Events recorded in time order leave no gap, whatever `since` is. */
  lemma SnapshotIsFilter(log: seq<Event>, capacity: nat, limit: int, since: Option<int>)
    requires TimeOrdered(log)
    ensures Window(log, capacity, limit, since)
            == AtMost(Filter(Newest(log, Min(|log|, capacity)), since), limit)
  {
    SnapshotIsFilterIff(log, capacity, limit, since);
  }

  /** Out of order, the early stop can hide an event the filter would show. */
  lemma EarlyStopCanHide(early: Event, late: Event, t: int)
    requires early.timestamp == Some(t) && late.timestamp == Some(t + 1)
    ensures Window([late, early], 2, 0, Some(t)) == []
    ensures Filter(Newest([late, early], 2), Some(t)) == [late]
  {
    var s := Newest([late, early], 2);
    assert s == [early, late];
    assert s[1..] == [late] && [late][1..] == [];
    assert Filter([late], Some(t)) == [late] + Filter([], Some(t));
  }

  // ---------------------------------------------------------------------
  // The ring
  // ---------------------------------------------------------------------

  /** Where the k-th newest event sits when the next write goes to `head`. */
  function Slot(head: nat, k: nat, capacity: nat): int {
    if k < head then head - 1 - k else head - 1 - k + capacity
  }

  lemma SlotIsModular(head: nat, k: nat, capacity: nat)
    requires head < capacity && k < capacity
    ensures (head - 1 - k + capacity) % capacity == Slot(head, k, capacity)
    ensures 0 <= Slot(head, k, capacity) < capacity
  {
    if k < head {
      ModOnce(head - 1 - k, capacity);
    }
  }

  /** Advancing the head ages every event by one and leaves its slot alone. */
  lemma SlotAges(head: nat, next: nat, k: nat, capacity: nat)
    requires head < capacity && k < capacity && next == if head + 1 == capacity then 0 else head + 1
    ensures k == 0 ==> Slot(next, k, capacity) == head
    ensures k > 0 ==> Slot(next, k, capacity) == Slot(head, k - 1, capacity) != head
    ensures 0 <= Slot(next, k, capacity) < capacity
  {
  }

  lemma ModOnce(x: nat, m: nat)
    requires x < m
    ensures (x + m) % m == x
  {
    assert x + m == 1 * m + x;
  }

  lemma CountWraps(n: nat)
    ensures (n % UINT64 + 1) % UINT64 == (n + 1) % UINT64
  {
  }

  class MemoryRecorder {
    const capacity: nat
    const buf: array<Event>
    var head: nat
    var full: bool
    var dropped: nat
    ghost var log: seq<Event>   // everything ever recorded

    ghost predicate Valid()
      reads this, buf
    {
      && capacity >= 1 && buf.Length == capacity && head < capacity
      && (full <==> |log| >= capacity)
      && (!full ==> head == |log|)
      && dropped == Evicted(log, capacity) % UINT64
      && forall k :: 0 <= k < Min(|log|, capacity) ==>
           0 <= Slot(head, k, capacity) < capacity && buf[Slot(head, k, capacity)] == log[|log| - 1 - k]
    }

    constructor (requested: int)
      ensures Valid() && log == [] && fresh(buf)
      ensures capacity == if requested < 1 then 1 else requested
    {
      var size := if requested < 1 then 1 else requested;
      capacity := size;
      buf := new Event[size](_ => Event("", "", "", None));
      head := 0;
      full := false;
      dropped := 0;
      log := [];
    }

    method Record(e: Event, now: int)
      requires Valid()
      modifies this, buf
      ensures Valid()
      ensures log == old(log) + [Stamp(e, now)]
      ensures var stored := log[|log| - 1];
              && (e.timestamp.None? ==> stored == e.(timestamp := Some(now)))
              && (e.timestamp.Some? ==> stored == e)
    {
      var stamped := Stamp(e, now);
      if full {
        CountWraps(Evicted(log, capacity));
        dropped := (dropped + 1) % UINT64;
      }
      buf[head] := stamped;
      head := head + 1;
      if head >= capacity {
        head := 0;
        full := true;
      }
      log := log + [stamped];
      forall k | 0 <= k < Min(|log|, capacity)
        ensures 0 <= Slot(head, k, capacity) < capacity && buf[Slot(head, k, capacity)] == log[|log| - 1 - k]
      {
        SlotAges(old(head), head, k, capacity);
      }
    }

    method Snapshot(limit: int, since: Option<int>) returns (out: seq<Event>, evicted: nat)
      requires Valid()
      ensures out == Window(log, capacity, limit, since)
      ensures evicted == Evicted(log, capacity) % UINT64
    {
      var count := if full then capacity else head;
      evicted := dropped;
      out := [];
      ghost var newest := Newest(log, Min(|log|, capacity));
      assert forall k :: 0 <= k < count ==> buf[Slot(head, k, capacity)] == newest[k];
      var i := 0;
      while i < count
        invariant 0 <= i <= count == |newest|
        invariant out == newest[..i]
        invariant forall j :: 0 <= j < i ==> After(newest[j], since)
        invariant limit > 0 ==> i < limit
      {
        SlotIsModular(head, i, capacity);
        var e := buf[(head - 1 - i + capacity) % capacity];
        assert e == newest[i];
        if since.Some? && !After(e, since) {
          break;
        }
        out := out + [e];
        i := i + 1;
        if limit > 0 && |out| >= limit {
          break;
        }
      }
      WalkIsWindow(log, capacity, limit, since, i);
    }
  }
}
