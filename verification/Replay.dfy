/**
 Replay safety of the durable ledger over whole runs. A submission is let through to the ledger only when its signed
 timestamp lies within `skew` of the verifier's clock; its row is meant to be kept until the timestamp plus four times
 `skew`, but that end is written, and compared, in the zone of the timestamp, so it moves by the zone's offset. The
 ledger reads the clock a second time, so a run carries two readings per submission. Clocks are UTC microseconds.
*/
module Replay {
  import opened Text
  import opened IsoTime
  import opened NonceLedger

  datatype Event =
    | Submission(key: Key, stamp: Stamp, verifier: int, ledger: int, audit: Audit, up: bool)
    | Sweep(now: int, up: bool)
    | Rejected // a submission refused before it reached the ledger

  /** The acceptance window, and clocks and expiries inside Python's range. */
  predicate WellTimed(e: Event, skew: nat) {
    match e
    case Submission(_, stamp, verifier, ledger, _, _) =>
      && verifier - skew <= stamp.utc <= verifier + skew
      && ValidStamp(stamp) && InRange(ledger) && ValidStamp(Expiry(stamp, skew))
    case Sweep(now, _) => InRange(now)
    case Rejected => true
  }

  predicate AllWellTimed(events: seq<Event>, skew: nat) {
    forall i :: 0 <= i < |events| ==> WellTimed(events[i], skew)
  }

  function TaskOf(e: Event, skew: nat): Task
    requires WellTimed(e, skew)
  {
    match e
    case Submission(key, stamp, _, ledger, audit, up) =>
      if up then ClaimTask(key, stamp, skew, ledger, audit) else Aborted
    case Sweep(now, up) => if up then Cleanup(IsoFormat(now)) else Aborted
    case Rejected => Aborted
  }

  function TasksOf(events: seq<Event>, skew: nat): seq<Task>
    requires AllWellTimed(events, skew)
  {
    seq(|events|, i requires 0 <= i < |events| => TaskOf(events[i], skew))
  }

  /** The clock reading the event's delete compares against. */
  function Reading(e: Event): int
    requires !e.Rejected?
  {
    if e.Submission? then e.ledger else e.now
  }

  predicate Accepts(t: Table, events: seq<Event>, skew: nat, i: nat)
    requires AllWellTimed(events, skew) && i < |events|
  {
    events[i].Submission? && Commits(t, TasksOf(events, skew), i)
  }

  predicate SameKey(a: Event, b: Event) {
    a.Submission? && b.Submission? && a.key == b.key
  }

  /** One instant, in whatever zone it is written. */
  predicate SameSubmission(a: Event, b: Event) {
    SameKey(a, b) && a.stamp.utc == b.stamp.utc
  }

  lemma ExpiryText(e: Event, skew: nat)
    requires WellTimed(e, skew) && TaskOf(e, skew).Claim?
    ensures e.Submission? && TaskOf(e, skew).row.expiryAt == IsoStamp(Expiry(e.stamp, skew))
  {
    hide IsoFormat, IsoStamp;
  }

  lemma ClockText(f: Event, skew: nat)
    requires WellTimed(f, skew) && !TaskOf(f, skew).Aborted?
    ensures !f.Rejected? && InRange(Reading(f)) && TaskOf(f, skew).now == IsoFormat(Reading(f))
  {
    hide IsoFormat, IsoStamp;
  }

  /** The text comparison the DELETE makes compares the clock with the shown end of the retention. */
  lemma LateTextIsLateClock(e: Event, f: Event, skew: nat)
    requires WellTimed(e, skew) && WellTimed(f, skew)
    requires TaskOf(e, skew).Claim? && !TaskOf(f, skew).Aborted?
    ensures Less(TaskOf(e, skew).row.expiryAt, TaskOf(f, skew).now) <==> Reading(f) > KeptUntil(e.stamp, skew)
  {
    hide IsoFormat, IsoStamp;
    ExpiryText(e, skew);
    ClockText(f, skew);
    LocalOrder(Expiry(e.stamp, skew), Reading(f));
  }

  /** Between two acceptances of one key some delete read a clock past the time the first row was kept until. */
  lemma LateReadingBetween(t: Table, events: seq<Event>, skew: nat, i: nat, j: nat) returns (k: nat)
    requires AllWellTimed(events, skew) && i < j < |events| && SameKey(events[i], events[j])
    requires Accepts(t, events, skew, i) && Accepts(t, events, skew, j)
    ensures i < k <= j && !events[k].Rejected?
    ensures Reading(events[k]) > KeptUntil(events[i].stamp, skew)
  {
    hide IsoFormat, IsoStamp;
    var tasks := TasksOf(events, skew);
    k := TwoClaimsNeedLateClock(t, tasks, i, j);
    assert tasks[i] == TaskOf(events[i], skew) && tasks[k] == TaskOf(events[k], skew);
    LateTextIsLateClock(events[i], events[k], skew);
  }

  /** So some reading lies more than three skews, and the first stamp's offset, past the first verifier's. */
  lemma AcceptancesFarApart(t: Table, events: seq<Event>, skew: nat, i: nat, j: nat) returns (k: nat)
    requires AllWellTimed(events, skew) && i < j < |events| && SameKey(events[i], events[j])
    requires Accepts(t, events, skew, i) && Accepts(t, events, skew, j)
    ensures i < k <= j && !events[k].Rejected?
    ensures Reading(events[k]) > events[i].verifier + 3 * skew + events[i].stamp.offset
  {
    k := LateReadingBetween(t, events, skew, i, j);
  }

  /**
   No clock the ledger reads in `(i, j]` is more than three skews, and the offset of the first stamp's zone, ahead of
   the second verifier's. In UTC the offset is zero; a zone ahead of UTC leaves more room, one behind it less.
  */
  predicate ClocksAgree(events: seq<Event>, skew: nat, i: nat, j: nat)
    requires i < |events| && j < |events| && events[i].Submission? && events[j].Submission?
  {
    forall k :: i < k <= j && !events[k].Rejected? ==>
                  Reading(events[k]) <= events[j].verifier + 3 * skew + events[i].stamp.offset
  }

  /** Replay safety: the same producer, nonce and timestamp are never accepted twice. */
  lemma NeverAcceptedTwice(t: Table, events: seq<Event>, skew: nat, i: nat, j: nat)
    requires AllWellTimed(events, skew) && i < j < |events|
    requires SameSubmission(events[i], events[j]) && ClocksAgree(events, skew, i, j)
    ensures !(Accepts(t, events, skew, i) && Accepts(t, events, skew, j))
  {
    if Accepts(t, events, skew, i) && Accepts(t, events, skew, j) {
      var k := LateReadingBetween(t, events, skew, i, j);
    }
  }

  /** The event's delete takes effect and reads a clock past the time the row of event `i` is kept until. */
  predicate LateDelete(t: Table, events: seq<Event>, skew: nat, i: nat, k: nat)
    requires AllWellTimed(events, skew) && i < |events| && k < |events| && events[i].Submission?
  {
    && !events[k].Rejected?
    && Commits(t, TasksOf(events, skew), k)
    && Reading(events[k]) > KeptUntil(events[i].stamp, skew)
  }

  lemma OutdatesIsLateDelete(t: Table, events: seq<Event>, skew: nat, i: nat, k: nat)
    requires AllWellTimed(events, skew) && i < |events| && k < |events|
    requires TaskOf(events[i], skew).Claim?
    ensures Outdates(t, TasksOf(events, skew), k, TaskOf(events[i], skew).row.expiryAt)
            <==> LateDelete(t, events, skew, i, k)
  {
    hide IsoFormat, IsoStamp;
    var tasks := TasksOf(events, skew);
    assert tasks[k] == TaskOf(events[k], skew);
    if !tasks[k].Aborted? { LateTextIsLateClock(events[i], events[k], skew); }
  }

  /**
   Exactly when a used key is accepted again: with no acceptance of it in between, when the ledger answers and a
   delete since then, or this claim's own, reads a clock past the time the first row is kept until.
  */
  lemma AcceptedAgainIff(t: Table, events: seq<Event>, skew: nat, i: nat, j: nat)
    requires AllWellTimed(events, skew) && i < j < |events| && SameKey(events[i], events[j])
    requires Accepts(t, events, skew, i)
    requires forall k :: i < k < j && SameKey(events[k], events[i]) ==> !Accepts(t, events, skew, k)
    ensures Accepts(t, events, skew, j) <==>
            events[j].up && (events[j].ledger > KeptUntil(events[i].stamp, skew)
                             || exists k :: i < k < j && LateDelete(t, events, skew, i, k))
  {
    hide IsoFormat, IsoStamp;
    if events[j].up {
      var tasks := TasksOf(events, skew);
      forall k | i < k < j && ClaimsKey(tasks[k], tasks[i].key) ensures !Commits(t, tasks, k) {
        assert SameKey(events[k], events[i]);
      }
      assert tasks[i] == TaskOf(events[i], skew) && tasks[j] == TaskOf(events[j], skew);
      ReclaimedIff(t, tasks, i, j);
      LateTextIsLateClock(events[i], events[j], skew);
      forall k | i < k < j
        ensures Outdates(t, tasks, k, tasks[i].row.expiryAt) <==> LateDelete(t, events, skew, i, k)
      {
        OutdatesIsLateDelete(t, events, skew, i, k);
      }
    }
  }

  /** The row of event `i` is gone by the time event `j` inserts, unless something put it there again. */
  predicate Forgotten(events: seq<Event>, skew: nat, i: nat, j: nat)
    requires AllWellTimed(events, skew) && i < j < |events| && events[i].Submission? && events[j].Submission?
  {
    || events[j].ledger > KeptUntil(events[i].stamp, skew)
    || exists k :: i < k < j && LateDelete(map[], events, skew, i, k)
  }

  /**
   Exactly which submissions are accepted, over any history from an empty ledger: those the ledger answers, each earlier
   acceptance of whose producer and nonce has been forgotten.
  */
  lemma AcceptedIff(events: seq<Event>, skew: nat, j: nat)
    requires AllWellTimed(events, skew) && j < |events| && events[j].Submission?
    ensures Accepts(map[], events, skew, j) <==>
            events[j].up
            && forall i :: 0 <= i < j && SameKey(events[i], events[j]) && Accepts(map[], events, skew, i) ==>
                 Forgotten(events, skew, i, j)
  {
    var tasks := TasksOf(events, skew);
    assert tasks[j] == TaskOf(events[j], skew);
    hide IsoFormat, IsoStamp, Forgotten, OutdatesBy, After, Expire;
    if events[j].up {
      CommitsIff(tasks, j);
      hide Commits;
      forall i | 0 <= i < j
        ensures ClaimsKey(tasks[i], tasks[j].key) && Commits(map[], tasks, i)
                <==> SameKey(events[i], events[j]) && Accepts(map[], events, skew, i)
        ensures ClaimsKey(tasks[i], tasks[j].key) ==>
                  ((exists k :: i < k <= j && OutdatesBy(map[], tasks, k, j, tasks[i].row.expiryAt))
                   <==> Forgotten(events, skew, i, j))
      {
        EarlierEvent(events, skew, i, j);
      }
    }
  }

  /** What an earlier event is to submission `j`, and its transaction to that of `j`. */
  lemma EarlierEvent(events: seq<Event>, skew: nat, i: nat, j: nat)
    requires AllWellTimed(events, skew) && i < j < |events| && events[j].Submission? && events[j].up
    ensures var tasks := TasksOf(events, skew);
            && tasks[j].Claim?
            && (ClaimsKey(tasks[i], tasks[j].key) && Commits(map[], tasks, i)
                <==> SameKey(events[i], events[j]) && Accepts(map[], events, skew, i))
            && (ClaimsKey(tasks[i], tasks[j].key) ==>
                  ((exists k :: i < k <= j && OutdatesBy(map[], tasks, k, j, tasks[i].row.expiryAt))
                   <==> Forgotten(events, skew, i, j)))
  {
    hide IsoFormat, IsoStamp, Forgotten, OutdatesBy, After, Expire;
    var tasks := TasksOf(events, skew);
    assert tasks[i] == TaskOf(events[i], skew) && tasks[j] == TaskOf(events[j], skew);
    if ClaimsKey(tasks[i], tasks[j].key) { ForgottenIsOutdated(events, skew, i, j); }
  }

  lemma ForgottenIsOutdated(events: seq<Event>, skew: nat, i: nat, j: nat)
    requires AllWellTimed(events, skew) && i < j < |events| && events[j].Submission? && events[j].up
    requires events[i].Submission? && TaskOf(events[i], skew).Claim?
    ensures var tasks := TasksOf(events, skew);
            (exists k :: i < k <= j && OutdatesBy(map[], tasks, k, j, tasks[i].row.expiryAt))
            <==> Forgotten(events, skew, i, j)
  {
    hide IsoFormat, IsoStamp, Commits;
    var tasks := TasksOf(events, skew);
    assert tasks[i] == TaskOf(events[i], skew) && tasks[j] == TaskOf(events[j], skew);
    LateTextIsLateClock(events[i], events[j], skew);
    assert OutdatesBy(map[], tasks, j, j, tasks[i].row.expiryAt)
        <==> events[j].ledger > KeptUntil(events[i].stamp, skew);
    forall k | i < k < j
      ensures OutdatesBy(map[], tasks, k, j, tasks[i].row.expiryAt) <==> LateDelete(map[], events, skew, i, k)
    {
      OutdatesIsLateDelete(map[], events, skew, i, k);
    }
  }

  /**
   The bound is tight in every zone: a submission stamped `skew` ahead of the first verifier, sent again while still
   inside the window of the second one, is accepted twice when the ledger's clock is one microsecond past the bound.
  */
  lemma BoundIsTight(skew: nat, v: int, offset: int, key: Key, audit: Audit) returns (events: seq<Event>)
    requires InRange(v) && ValidStamp(Stamp(v + skew, offset)) && ValidStamp(Stamp(v + 5 * skew, offset))
    requires InRange(v + 5 * skew + offset + 1)
    ensures AllWellTimed(events, skew) && |events| == 2 && SameSubmission(events[0], events[1])
    ensures events[0].stamp.offset == offset
    ensures Reading(events[1]) == events[1].verifier + 3 * skew + offset + 1
    ensures Accepts(map[], events, skew, 0) && Accepts(map[], events, skew, 1)
  {
    hide IsoFormat, IsoStamp;
    var stamp := Stamp(v + skew, offset);
    events := [Submission(key, stamp, v, v, audit, true),
               Submission(key, stamp, v + 2 * skew, v + 5 * skew + offset + 1, audit, true)];
    var tasks := TasksOf(events, skew);
    assert tasks[..0] == [] && After(map[], tasks[..0]) == map[];
    assert Accepts(map[], events, skew, 0);
    AcceptedAgainIff(map[], events, skew, 0, 1);
  }

  // ----- which zones are safe -----

  /** No ledger or cleanup clock up to submission `j` is ahead of its verifier's at all. */
  predicate Punctual(events: seq<Event>, i: nat, j: nat)
    requires i < |events| && j < |events| && events[j].Submission?
  {
    forall k :: i < k <= j && !events[k].Rejected? ==> Reading(events[k]) <= events[j].verifier
  }

  /** From an empty ledger, with punctual clocks, one submission with this offset is accepted twice. */
  ghost predicate ReplayedPunctually(events: seq<Event>, skew: nat, offset: int) {
    && AllWellTimed(events, skew)
    && exists i, j :: 0 <= i < j < |events| && SameSubmission(events[i], events[j]) && events[i].stamp.offset == offset
                      && Punctual(events, i, j)
                      && Accepts(map[], events, skew, i) && Accepts(map[], events, skew, j)
  }

  /**
   The code accepts timestamps of every zone, but a row is kept as promised in UTC only. With clocks that agree, a
   submission can be accepted twice if and only if its zone is more than three skews behind UTC.
  */
  lemma ZoneIsSafeIff(skew: nat, v: int, offset: int, key: Key, audit: Audit) returns (events: seq<Event>)
    requires InRange(v) && InRange(v + 2 * skew)
    requires ValidStamp(Stamp(v + skew, offset)) && ValidStamp(Stamp(v + 5 * skew, offset))
    ensures offset >= -3 * skew ==> forall es :: !ReplayedPunctually(es, skew, offset)
    ensures offset < -3 * skew ==> ReplayedPunctually(events, skew, offset)
  {
    hide IsoFormat, IsoStamp;
    events := [];
    if offset >= -3 * skew {
      forall es ensures !ReplayedPunctually(es, skew, offset) { NearZoneIsSafe(es, skew, offset); }
    } else {
      events := FarZoneReplays(skew, v, offset, key, audit);
    }
  }

  lemma NearZoneIsSafe(events: seq<Event>, skew: nat, offset: int)
    requires offset >= -3 * skew
    ensures !ReplayedPunctually(events, skew, offset)
  {
    hide Accepts, AllWellTimed;
    if ReplayedPunctually(events, skew, offset) {
      var i, j :| 0 <= i < j < |events| && SameSubmission(events[i], events[j]) && events[i].stamp.offset == offset
                  && Punctual(events, i, j)
                  && Accepts(map[], events, skew, i) && Accepts(map[], events, skew, j);
      NeverAcceptedTwice(map[], events, skew, i, j);
    }
  }

  lemma FarZoneReplays(skew: nat, v: int, offset: int, key: Key, audit: Audit) returns (events: seq<Event>)
    requires InRange(v) && InRange(v + 2 * skew) && offset < -3 * skew
    requires ValidStamp(Stamp(v + skew, offset)) && ValidStamp(Stamp(v + 5 * skew, offset))
    ensures ReplayedPunctually(events, skew, offset)
  {
    hide IsoFormat, IsoStamp;
    var stamp := Stamp(v + skew, offset);
    events := [Submission(key, stamp, v, v, audit, true),
               Submission(key, stamp, v + 2 * skew, v + 2 * skew, audit, true)];
    var tasks := TasksOf(events, skew);
    assert tasks[..0] == [] && After(map[], tasks[..0]) == map[];
    assert Accepts(map[], events, skew, 0);
    AcceptedAgainIff(map[], events, skew, 0, 1);
    assert SameSubmission(events[0], events[1]) && Punctual(events, 0, 1);
  }
}
