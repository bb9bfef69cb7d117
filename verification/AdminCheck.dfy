/** The cached live-admin check: an approximation of an oracle that may change
    its mind at any time, with a bound on how stale an answer can be. */
module AdminCheck {
  import opened Prelude

  const DEFAULT_ADMIN_TTL := 30_000_000_000

  datatype Entry = Entry(isAdmin: bool, expiresAt: int)

  datatype Upstream = Answered(isAdmin: bool) | Unavailable

  function EffectiveTtl(requested: int): int { if requested <= 0 then DEFAULT_ADMIN_TTL else requested }

  predicate Fresh(e: Option<Entry>, now: int) { e.Some? && now < e.value.expiresAt }

  function Lookup(entries: map<string, Entry>, subject: string): Option<Entry> {
    if subject in entries then Some(entries[subject]) else None
  }

  /** The cache as one caller at a time sees it. */
  class CachedAdminChecker {
    const ttl: int
    var entries: map<string, Entry>

    constructor (requested: int)
      ensures ttl == (if requested > 0 then requested else 30_000_000_000) && ttl > 0 && entries == map[]
    {
      ttl := EffectiveTtl(requested);
      entries := map[];
    }

    /** An entry answers until it expires, and then the provider does, whose answer is kept
        for the ttl; an error is passed on and never kept.
        `asked` and `stored` are the clock at the freshness test and at the write;
        `upstream` is what the identity provider would say if consulted. */
    method IsAdmin(subject: string, asked: int, upstream: Upstream, stored: int) returns (r: Result<bool, ()>)
      modifies this
      ensures subject == "" ==> r == Ok(false) && entries == old(entries)
      ensures subject in old(entries) && asked < old(entries)[subject].expiresAt && subject != "" ==>
                r == Ok(old(entries)[subject].isAdmin) && entries == old(entries)
      ensures (subject !in old(entries) || asked >= old(entries)[subject].expiresAt) && subject != "" ==>
                match upstream
                case Unavailable => r.Err? && entries == old(entries)
                case Answered(a) => r == Ok(a) && entries == old(entries)[subject := Entry(a, stored + ttl)]
    {
      if subject == "" {
        return Ok(false);
      }
      var e := Lookup(entries, subject);
      if Fresh(e, asked) {
        return Ok(e.value.isAdmin);
      }
      match upstream {
        case Unavailable => return Err(());
        case Answered(a) =>
          entries := entries[subject := Entry(a, stored + ttl)];
          return Ok(a);
      }
    }

    method Invalidate(subject: string)
      modifies this
      ensures entries == if subject == "" then old(entries) else old(entries) - {subject}
    {
      if subject == "" {
        return;
      }
      entries := entries - {subject};
    }

    method InvalidateAll()
      modifies this
      ensures entries == map[]
    {
      entries := map[];
    }
  }

  // ---------------------------------------------------------------------
  // Concurrent lookups
  // ---------------------------------------------------------------------

  /** Where a cached or returned answer came from: the clock and the position in
      the run when its lookup began, when upstream was sampled, when it was stored. */
  datatype Origin = Origin(beganAt: int, began: nat, sampledAt: int, sampled: nat, storedAt: int, stored: nat)

  /** A lookup between its steps. */
  datatype Flight =
    | Begun(subject: string, beganAt: int, began: nat)
    | Read(subject: string, beganAt: int, began: nat, entry: Option<Entry>, origin: Origin)
    | Asking(subject: string, beganAt: int, began: nat)
    | Sampled(subject: string, beganAt: int, began: nat, isAdmin: bool, sampledAt: int, sampled: nat)

  datatype Answer = Answer(subject: string, isAdmin: bool, failed: bool, at: int, began: nat, origin: Origin)

  /** An invalidation of one subject, or of all. */
  datatype Dropped = Dropped(subject: Option<string>, step: nat)

  datatype State = State(
    now: int,
    step: nat,
    entries: map<string, Entry>,
    origins: map<string, Origin>,
    flights: map<nat, Flight>,
    answers: set<Answer>,
    drops: set<Dropped>)

  datatype Step =
    | Tick(passed: nat)
    | Start(l: nat, subject: string)
    | ReadEntry(l: nat)
    | Decide(l: nat)
    | Ask(l: nat)
    | Fail(l: nat)
    | Store(l: nat)
    | Invalidate(subject: string)
    | InvalidateAll

  const NoOrigin := Origin(0, 0, 0, 0, 0, 0)

  predicate Enabled(s: State, step: Step) {
    match step
    case Start(l, x) => l !in s.flights && x != ""
    case ReadEntry(l) => l in s.flights && s.flights[l].Begun?
    case Decide(l) => l in s.flights && s.flights[l].Read?
    case Ask(l) => l in s.flights && s.flights[l].Asking?
    case Fail(l) => l in s.flights && s.flights[l].Asking?
    case Store(l) => l in s.flights && s.flights[l].Sampled?
    case Invalidate(x) => x != ""
    case _ => true
  }

  /** `up` is the truth: what upstream would answer about a subject at a time. */
  function Next(s: State, step: Step, ttl: int, up: (string, int) -> bool): State
    requires Enabled(s, step)
  {
    var n := s.(step := s.step + 1);
    match step
    case Tick(passed) => n.(now := s.now + passed)
    case Start(l, x) => n.(flights := s.flights[l := Begun(x, s.now, s.step)])
    case ReadEntry(l) =>
      var f := s.flights[l];
      n.(flights := s.flights[l := Read(f.subject, f.beganAt, f.began, Lookup(s.entries, f.subject),
                                        if f.subject in s.origins then s.origins[f.subject] else NoOrigin)])
    case Decide(l) =>
      var f := s.flights[l];
      if Fresh(f.entry, s.now) then
        n.(flights := s.flights - {l},
           answers := s.answers + {Answer(f.subject, f.entry.value.isAdmin, false, s.now, f.began, f.origin)})
      else n.(flights := s.flights[l := Asking(f.subject, f.beganAt, f.began)])
    case Ask(l) =>
      var f := s.flights[l];
      n.(flights := s.flights[l := Sampled(f.subject, f.beganAt, f.began, up(f.subject, s.now), s.now, s.step)])
    case Fail(l) =>
      var f := s.flights[l];
      n.(flights := s.flights - {l},
         answers := s.answers + {Answer(f.subject, false, true, s.now, f.began, NoOrigin)})
    case Store(l) =>
      var f := s.flights[l];
      var o := Origin(f.beganAt, f.began, f.sampledAt, f.sampled, s.now, s.step);
      n.(flights := s.flights - {l},
         entries := s.entries[f.subject := Entry(f.isAdmin, s.now + ttl)],
         origins := s.origins[f.subject := o],
         answers := s.answers + {Answer(f.subject, f.isAdmin, false, s.now, f.began, o)})
    case Invalidate(x) =>
      n.(entries := s.entries - {x}, origins := s.origins - {x}, drops := s.drops + {Dropped(Some(x), s.step)})
    case InvalidateAll => n.(entries := map[], origins := map[], drops := s.drops + {Dropped(None, s.step)})
  }

  const Initial := State(0, 0, map[], map[], map[], {}, {})

  // ---------------------------------------------------------------------
  // One lookup with nobody in between
  // ---------------------------------------------------------------------

  /** An entry that has not expired answers, upstream is not asked, and the cache stays;
      one that has, or none, leads to asking. */
  lemma CachedLookup(s: State, l: nat, x: string, ttl: int, up: (string, int) -> bool)
    requires l !in s.flights && x != ""
    ensures Enabled(s, Start(l, x)) && Enabled(Next(s, Start(l, x), ttl, up), ReadEntry(l))
    ensures Enabled(Next(Next(s, Start(l, x), ttl, up), ReadEntry(l), ttl, up), Decide(l))
    ensures var s' := Next(Next(Next(s, Start(l, x), ttl, up), ReadEntry(l), ttl, up), Decide(l), ttl, up);
            && s'.entries == s.entries && s'.now == s.now
            && if x in s.entries && s.now < s.entries[x].expiresAt then
                 && l !in s'.flights
                 && var o := if x in s.origins then s.origins[x] else NoOrigin;
                    s'.answers == s.answers + {Answer(x, s.entries[x].isAdmin, false, s.now, s.step, o)}
               else
                 s'.answers == s.answers && l in s'.flights && s'.flights[l] == Asking(x, s.now, s.step)
  {
    var b := Next(Next(s, Start(l, x), ttl, up), ReadEntry(l), ttl, up);
    assert b.flights[l].subject == x && b.flights[l].entry == Lookup(s.entries, x);
  }

  /** Asking, `taken` after the sample its answer is stored for the ttl and given to the
      caller; a failure to answer is passed on and nothing is stored. */
  lemma UncachedLookup(s: State, l: nat, x: string, taken: nat, ttl: int, up: (string, int) -> bool)
    requires l in s.flights && s.flights[l].Asking? && s.flights[l].subject == x
    ensures Enabled(s, Ask(l)) && Enabled(Next(Next(s, Ask(l), ttl, up), Tick(taken), ttl, up), Store(l))
    ensures var s' := Next(Next(Next(s, Ask(l), ttl, up), Tick(taken), ttl, up), Store(l), ttl, up);
            && s'.now == s.now + taken && l !in s'.flights
            && s'.entries == s.entries[x := Entry(up(x, s.now), s.now + taken + ttl)]
            && var f := s.flights[l];
               var o := Origin(f.beganAt, f.began, s.now, s.step, s.now + taken, s.step + 2);
               s'.answers == s.answers + {Answer(x, up(x, s.now), false, s.now + taken, f.began, o)}
    ensures Enabled(s, Fail(l))
    ensures var s' := Next(s, Fail(l), ttl, up);
            && l !in s'.flights && s'.entries == s.entries
            && s'.answers == s.answers + {Answer(x, false, true, s.now, s.flights[l].began, NoOrigin)}
  {
  }

  // ---------------------------------------------------------------------
  // The invariant
  // ---------------------------------------------------------------------

  predicate Covers(d: Dropped, subject: string) { d.subject.None? || d.subject.value == subject }

  /** An entry tells the truth of its sample and was stored after it. */
  ghost predicate Genuine(s: State, x: string, e: Entry, o: Origin, ttl: int, up: (string, int) -> bool) {
    && e.isAdmin == up(x, o.sampledAt)
    && e.expiresAt == o.storedAt + ttl
    && o.beganAt <= o.sampledAt <= o.storedAt <= s.now
    && o.began < o.sampled < o.stored < s.step
  }

  /** No invalidation covering x fell between storing o and step `until`. */
  ghost predicate Undropped(s: State, x: string, o: Origin, until: nat) {
    forall d :: d in s.drops && Covers(d, x) && d.step < until ==> d.step < o.stored
  }

  ghost predicate FlightOk(s: State, f: Flight, ttl: int, up: (string, int) -> bool) {
    && f.subject != "" && f.began < s.step && f.beganAt <= s.now
    && (f.Read? && f.entry.Some? ==>
          Genuine(s, f.subject, f.entry.value, f.origin, ttl, up) && Undropped(s, f.subject, f.origin, f.began))
    && (f.Sampled? ==>
          && f.isAdmin == up(f.subject, f.sampledAt)
          && f.beganAt <= f.sampledAt <= s.now && f.began < f.sampled < s.step)
  }

  /** An answer no older than the ttl plus the time its sample took to be stored. */
  ghost predicate AnswerOk(s: State, a: Answer, ttl: int, up: (string, int) -> bool) {
    if a.failed then !a.isAdmin
    else
      && a.isAdmin == up(a.subject, a.origin.sampledAt)
      && a.origin.beganAt <= a.origin.sampledAt <= a.origin.storedAt <= a.at < a.origin.storedAt + ttl
      && a.origin.began < a.origin.sampled < a.origin.stored
      && Undropped(s, a.subject, a.origin, a.began)
      && a.began < s.step
  }

  ghost predicate Inv(s: State, ttl: int, up: (string, int) -> bool) {
    && s.entries.Keys == s.origins.Keys
    && (forall d :: d in s.drops ==> d.step < s.step)
    && (forall x :: x in s.entries ==>
          Genuine(s, x, s.entries[x], s.origins[x], ttl, up) && Undropped(s, x, s.origins[x], s.step))
    && (forall l :: l in s.flights ==> FlightOk(s, s.flights[l], ttl, up))
    && (forall a :: a in s.answers ==> AnswerOk(s, a, ttl, up))
  }

  /** Time, the run and the invalidations only grow; what was established about
      the past stays established. */
  lemma PastIsSettled(s: State, s': State, ttl: int, up: (string, int) -> bool, f: Flight, a: Answer)
    requires s.now <= s'.now && s.step < s'.step && s.drops <= s'.drops
    requires forall d :: d in s'.drops && d !in s.drops ==> d.step == s.step
    ensures FlightOk(s, f, ttl, up) ==> FlightOk(s', f, ttl, up)
    ensures AnswerOk(s, a, ttl, up) ==> AnswerOk(s', a, ttl, up)
  {
  }

  lemma FlightsCarryOn(s: State, step: Step, ttl: int, up: (string, int) -> bool, l: nat)
    requires Inv(s, ttl, up) && ttl > 0 && Enabled(s, step)
    requires l in Next(s, step, ttl, up).flights
    ensures FlightOk(Next(s, step, ttl, up), Next(s, step, ttl, up).flights[l], ttl, up)
  {
    var s' := Next(s, step, ttl, up);
    if l in s.flights {
      PastIsSettled(s, s', ttl, up, s.flights[l], Answer("", false, true, 0, 0, NoOrigin));
    }
  }

  lemma AnswersHold(s: State, step: Step, ttl: int, up: (string, int) -> bool, a: Answer)
    requires Inv(s, ttl, up) && ttl > 0 && Enabled(s, step)
    requires a in Next(s, step, ttl, up).answers
    ensures AnswerOk(Next(s, step, ttl, up), a, ttl, up)
  {
    var s' := Next(s, step, ttl, up);
    if a in s.answers {
      PastIsSettled(s, s', ttl, up, Begun("", 0, 0), a);
    } else {
      assert FlightOk(s, s.flights[step.l], ttl, up);
    }
  }

  lemma EntriesHold(s: State, step: Step, ttl: int, up: (string, int) -> bool, x: string)
    requires Inv(s, ttl, up) && ttl > 0 && Enabled(s, step)
    requires x in Next(s, step, ttl, up).entries
    ensures var s' := Next(s, step, ttl, up);
            Genuine(s', x, s'.entries[x], s'.origins[x], ttl, up) && Undropped(s', x, s'.origins[x], s'.step)
  {
    if step.Store? {
      assert FlightOk(s, s.flights[step.l], ttl, up);
    }
  }

  lemma StepKeepsInv(s: State, step: Step, ttl: int, up: (string, int) -> bool)
    requires Inv(s, ttl, up) && ttl > 0 && Enabled(s, step)
    ensures Inv(Next(s, step, ttl, up), ttl, up)
  {
    var s' := Next(s, step, ttl, up);
    forall x | x in s'.entries
      ensures Genuine(s', x, s'.entries[x], s'.origins[x], ttl, up) && Undropped(s', x, s'.origins[x], s'.step)
    {
      EntriesHold(s, step, ttl, up, x);
    }
    forall l | l in s'.flights ensures FlightOk(s', s'.flights[l], ttl, up) {
      FlightsCarryOn(s, step, ttl, up, l);
    }
    forall a | a in s'.answers ensures AnswerOk(s', a, ttl, up) {
      AnswersHold(s, step, ttl, up, a);
    }
  }

  ghost predicate IsRun(states: seq<State>, steps: seq<Step>, ttl: int, up: (string, int) -> bool) {
    && |states| == |steps| + 1
    && states[0] == Initial
    && forall i :: 0 <= i < |steps| ==>
         Enabled(states[i], steps[i]) && states[i + 1] == Next(states[i], steps[i], ttl, up)
  }

  lemma {:induction false} RunKeepsInv(states: seq<State>, steps: seq<Step>, ttl: int,
                                           up: (string, int) -> bool, i: nat)
    requires ttl > 0 && IsRun(states, steps, ttl, up) && i < |states|
    ensures Inv(states[i], ttl, up)
  {
    if i > 0 {
      RunKeepsInv(states, steps, ttl, up, i - 1);
      StepKeepsInv(states[i - 1], steps[i - 1], ttl, up);
    }
  }

  /** Every answer that is not an error is what upstream said at a moment less
      than the ttl before the answer, plus the time from that sample to its being
      stored, which is what was left of the upstream call; every error answers false. */
  lemma StalenessBound(states: seq<State>, steps: seq<Step>, ttl: int, up: (string, int) -> bool, i: nat, a: Answer)
    requires ttl > 0 && IsRun(states, steps, ttl, up) && i < |states| && a in states[i].answers
    ensures a.failed ==> !a.isAdmin
    ensures !a.failed ==>
              && a.isAdmin == up(a.subject, a.origin.sampledAt)
              && a.origin.sampledAt <= a.at
              && a.at - a.origin.sampledAt < ttl + (a.origin.storedAt - a.origin.sampledAt)
  {
    RunKeepsInv(states, steps, ttl, up, i);
    assert AnswerOk(states[i], a, ttl, up);
  }

  /** An answer to a lookup begun after an invalidation rests on a sample taken
      after it too, unless the lookup that took the sample was itself in flight
      when the invalidation happened. */
  lemma InvalidationTakesHold(states: seq<State>, steps: seq<Step>, ttl: int, up: (string, int) -> bool,
                              i: nat, a: Answer, d: Dropped)
    requires ttl > 0 && IsRun(states, steps, ttl, up) && i < |states|
    requires a in states[i].answers && !a.failed && d in states[i].drops && Covers(d, a.subject)
    requires d.step < a.began
    ensures d.step < a.origin.stored
    ensures d.step < a.origin.sampled || a.origin.began < d.step
  {
    RunKeepsInv(states, steps, ttl, up, i);
    assert AnswerOk(states[i], a, ttl, up);
  }
}
