/**
 Replay safety for submissions claimed concurrently. The commit order of an interleaving is itself a run of the durable
 ledger, so whatever Replay proves of runs holds of every interleaving.
*/
module InterleavedReplay {
  import opened NonceLedger
  import opened ClaimProtocol
  import Replay

  /** Claimant `i` runs the transaction of event `i`; every event here reaches an answering ledger. */
  predicate RunsEvents(c: Setup, events: seq<Replay.Event>, skew: nat) {
    && ValidSetup(c) && |events| == |c.tasks|
    && Replay.AllWellTimed(events, skew)
    && forall i :: 0 <= i < |events| ==> c.tasks[i] == Replay.TaskOf(events[i], skew)
  }

  /** The committed events, in commit order. */
  function Committed(events: seq<Replay.Event>, log: seq<nat>): (run: seq<Replay.Event>)
    requires forall m :: 0 <= m < |log| ==> log[m] < |events|
    ensures |run| == |log| && forall m :: 0 <= m < |log| ==> run[m] == events[log[m]]
  {
    seq(|log|, m requires 0 <= m < |log| => events[log[m]])
  }

  /** The committed events, taken one after the other, make the committed table, and every one of them commits. */
  lemma CommitOrderIsRun(c: Setup, events: seq<Replay.Event>, skew: nat, t: Table, s: ClaimProtocol.State)
    requires RunsEvents(c, events, skew) && LogInRange(c, s.log) && Refines(c, t, s)
    ensures var run := Committed(events, s.log);
            && Replay.AllWellTimed(run, skew)
            && s.rows == After(t, Replay.TasksOf(run, skew))
            && forall m :: 0 <= m < |run| && run[m].Submission? ==> Replay.Accepts(t, run, skew, m)
  {
    hide Replay.TaskOf, Perform, After;
    var run := Committed(events, s.log);
    assert Replay.TasksOf(run, skew) == LogTasks(c, s.log);
  }

  /** What Replay says of two acceptances in a run, at two places of the commit order. */
  lemma LateReadingInLog(c: Setup, events: seq<Replay.Event>, skew: nat, t: Table, s: ClaimProtocol.State,
                         m: nat, n: nat)
    returns (k: nat)
    requires RunsEvents(c, events, skew) && LogInRange(c, s.log) && Refines(c, t, s)
    requires m < n < |s.log| && Replay.SameKey(events[s.log[m]], events[s.log[n]])
    ensures m < k <= n && !events[s.log[k]].Rejected?
    ensures Replay.Reading(events[s.log[k]]) > KeptUntil(events[s.log[m]].stamp, skew)
  {
    CommitOrderIsRun(c, events, skew, t, s);
    var run := Committed(events, s.log);
    assert run[m].Submission? && run[n].Submission? && Replay.SameKey(run[m], run[n]);
    hide *;
    k := Replay.LateReadingBetween(t, run, skew, m, n);
  }

  /**
   However any number of claims and cleanups interleave, fail or crash: when two claimants of one producer and nonce are
   both accepted, a delete that committed after the first (at `m`) and no later than the second (at `n`) read a clock
   past the time the first one's row is kept until, so more than three skews, and the offset of its zone, past its
   verifier's; and when the timestamps are one instant too, as much past the second one's verifier's.
  */
  lemma ConcurrentReplaySafety(c: Setup, events: seq<Replay.Event>, skew: nat, t: Table, steps: seq<Step>,
                               s: ClaimProtocol.State, i: nat, j: nat)
    returns (m: nat, n: nat, k: nat)
    requires RunsEvents(c, events, skew) && Reaches(c, Initial(c, t), steps, s)
    requires i < |events| && j < |events| && i != j && Replay.SameKey(events[i], events[j])
    requires Ended(s, i, Won) && Ended(s, j, Won)
    ensures LogInRange(c, s.log) && m < k <= n < |s.log| && !events[s.log[k]].Rejected?
    ensures (s.log[m] == i && s.log[n] == j) || (s.log[m] == j && s.log[n] == i)
    ensures var first, second, reading := events[s.log[m]], events[s.log[n]], Replay.Reading(events[s.log[k]]);
            && reading > KeptUntil(first.stamp, skew) && reading > first.verifier + 3 * skew + first.stamp.offset
            && (Replay.SameSubmission(first, second) ==> reading > second.verifier + 3 * skew + first.stamp.offset)
  {
    assert Replay.WellTimed(events[i], skew) && Replay.WellTimed(events[j], skew);
    hide RunsEvents, Reaches, Refines, Replay.WellTimed;
    m, n := WinnersInOrder(c, t, steps, s, i, j);
    k := LateReadingInLog(c, events, skew, t, s, m, n);
    WindowLeavesThree(events[s.log[m]], skew);
    WindowLeavesThree(events[s.log[n]], skew);
  }

  lemma WindowLeavesThree(e: Replay.Event, skew: nat)
    requires Replay.WellTimed(e, skew) && e.Submission?
    ensures e.stamp.utc + Retention(skew) >= e.verifier + 3 * skew
  {
  }
}
