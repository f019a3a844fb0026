/**
 The claim transaction taken apart: lock, BEGIN IMMEDIATE, DELETE, INSERT, COMMIT or ROLLBACK, unlock, for any number
 of claimants in any number of processes, with SQLite errors and process crashes at every step. Every interleaving
 refines the one-piece transactions of NonceLedger, taken in commit order.
*/
module ClaimProtocol {
  import opened Text
  import opened NonceLedger

  /** Which transaction each claimant runs, through which store object, in which process. */
  datatype Setup = Setup(tasks: seq<Task>, store: seq<nat>, process: seq<nat>)

  predicate ValidSetup(c: Setup) {
    && |c.store| == |c.tasks| && |c.process| == |c.tasks|
    && (forall i :: 0 <= i < |c.tasks| ==> !c.tasks[i].Aborted?)
    && (forall i, j :: 0 <= i < |c.tasks| && 0 <= j < |c.tasks| && c.store[i] == c.store[j]
                       ==> c.process[i] == c.process[j])
  }

  datatype Outcome = Won | Lost | Failed

  datatype Pc =
    | Waiting
    | Locked      // holds the store object's lock
    | Begun       // BEGIN IMMEDIATE succeeded
    | Deleted     // expired rows deleted
    | Inserted
    | Conflicted  // INSERT raised IntegrityError
    | Committed
    | RolledBack
    | Finished(outcome: Outcome)
    | Crashed

  /** `log` records the claimants in commit order. */
  datatype State = State(
    rows: Table,           // the committed table
    working: Table,        // what the open write transaction sees
    writer: Option<nat>,   // who holds SQLite's write lock
    locks: map<nat, nat>,  // store object -> claimant holding its lock
    pcs: seq<Pc>,
    log: seq<nat>)

  datatype Step =
    | Acquire(i: nat) | Begin(i: nat) | Delete(i: nat) | Insert(i: nat) | Conflict(i: nat) | Commit(i: nat)
    | Rollback(i: nat) | Return(i: nat) | Fail(i: nat) | Crash(process: nat)

  predicate InTransaction(pc: Pc) {
    pc.Begun? || pc.Deleted? || pc.Inserted? || pc.Conflicted?
  }

  predicate HoldsLock(pc: Pc) {
    pc.Locked? || InTransaction(pc) || pc.Committed? || pc.RolledBack?
  }

  function Initial(c: Setup, t: Table): State {
    State(t, t, None, map[], seq(|c.tasks|, i => Waiting), [])
  }

  predicate Enabled(c: Setup, s: State, step: Step)
    requires ValidSetup(c) && |s.pcs| == |c.tasks|
  {
    if step.Crash? then true
    else
      && step.i < |c.tasks|
      && var pc := s.pcs[step.i];
         match step
         case Acquire(i) => pc.Waiting? && c.store[i] !in s.locks
         case Begin(i) => pc.Locked? && s.writer.None?
         case Delete(i) => pc.Begun?
         case Insert(i) => pc.Deleted? && c.tasks[i].Claim? && c.tasks[i].key !in s.working
         case Conflict(i) => pc.Deleted? && c.tasks[i].Claim? && c.tasks[i].key in s.working
         case Commit(i) => pc.Inserted? || (pc.Deleted? && c.tasks[i].Cleanup?)
         case Rollback(i) => pc.Conflicted?
         case Return(i) => pc.Committed? || pc.RolledBack?
         case Fail(i) => pc.Locked? || InTransaction(pc)
         case Crash(_) => true
  }

  function Released(s: State, i: nat): Option<nat> {
    if s.writer == Some(i) then None else s.writer
  }

  /** A dying process loses its locks, and SQLite rolls its open transaction back. */
  function AfterCrash(c: Setup, s: State, process: nat): State
    requires ValidSetup(c) && |s.pcs| == |c.tasks|
  {
    s.(pcs := seq(|s.pcs|, i requires 0 <= i < |s.pcs| =>
                    if c.process[i] == process && !s.pcs[i].Finished? then Crashed else s.pcs[i]),
       writer := if s.writer.Some? && s.writer.value < |c.tasks| && c.process[s.writer.value] == process
                 then None else s.writer,
       locks := map k | k in s.locks && !(s.locks[k] < |c.tasks| && c.process[s.locks[k]] == process) :: s.locks[k])
  }

  function Apply(c: Setup, s: State, step: Step): State
    requires ValidSetup(c) && |s.pcs| == |c.tasks| && Enabled(c, s, step)
  {
    match step
    case Acquire(i) => s.(pcs := s.pcs[i := Locked], locks := s.locks[c.store[i] := i])
    case Begin(i) => s.(pcs := s.pcs[i := Begun], writer := Some(i), working := s.rows)
    case Delete(i) => s.(pcs := s.pcs[i := Deleted], working := Expire(s.working, c.tasks[i].now))
    case Insert(i) => s.(pcs := s.pcs[i := Inserted], working := s.working[c.tasks[i].key := c.tasks[i].row])
    case Conflict(i) => s.(pcs := s.pcs[i := Conflicted])
    case Commit(i) => s.(pcs := s.pcs[i := Committed], rows := s.working, writer := None, log := s.log + [i])
    case Rollback(i) => s.(pcs := s.pcs[i := RolledBack], writer := None)
    case Return(i) =>
      s.(pcs := s.pcs[i := Finished(if s.pcs[i].Committed? then Won else Lost)], locks := s.locks - {c.store[i]})
    case Fail(i) =>
      s.(pcs := s.pcs[i := Finished(Failed)], writer := Released(s, i), locks := s.locks - {c.store[i]})
    case Crash(p) => AfterCrash(c, s, p)
  }

  ghost predicate Reaches(c: Setup, s: State, steps: seq<Step>, s': State)
    requires ValidSetup(c)
    decreases |steps|
  {
    && |s.pcs| == |c.tasks|
    && if |steps| == 0 then s' == s
       else Enabled(c, s, steps[0]) && Reaches(c, Apply(c, s, steps[0]), steps[1..], s')
  }

  // ----- the invariant -----

  function LogTasks(c: Setup, log: seq<nat>): seq<Task>
    requires forall m :: 0 <= m < |log| ==> log[m] < |c.tasks|
  {
    seq(|log|, m requires 0 <= m < |log| => c.tasks[log[m]])
  }

  /** What the open transaction has done so far to its copy of the table. */
  predicate WorkingMatches(s: State, task: Task, pc: Pc) {
    match pc
    case Begun => s.working == s.rows && !task.Aborted?
    case Deleted => !task.Aborted? && s.working == Expire(s.rows, task.now)
    case Inserted => task.Claim? && task.key !in Expire(s.rows, task.now)
                     && s.working == Expire(s.rows, task.now)[task.key := task.row]
    case Conflicted => task.Claim? && task.key in Expire(s.rows, task.now)
    case _ => true
  }

  /** Only the claimant holding the write lock is inside a transaction. */
  predicate OneWriter(c: Setup, s: State) {
    && |s.pcs| == |c.tasks|
    && (forall i :: 0 <= i < |s.pcs| && InTransaction(s.pcs[i]) ==> s.writer == Some(i))
    && (s.writer.Some? ==> s.writer.value < |s.pcs| && s.writer.value < |c.tasks|
                           && WorkingMatches(s, c.tasks[s.writer.value], s.pcs[s.writer.value]))
  }

  /** The log names each committed claimant once, and nobody who lost, failed or has not committed. */
  predicate LogFaithful(c: Setup, s: State) {
    && |s.pcs| == |c.tasks|
    && (forall m :: 0 <= m < |s.log| ==>
          s.log[m] < |s.pcs|
          && (s.pcs[s.log[m]].Committed? || s.pcs[s.log[m]] == Finished(Won) || s.pcs[s.log[m]].Crashed?))
    && (forall m, n :: 0 <= m < n < |s.log| ==> s.log[m] != s.log[n])
    && (forall i :: 0 <= i < |s.pcs| && (s.pcs[i].Committed? || s.pcs[i] == Finished(Won)) ==> i in s.log)
  }

  /** The committed table is what the logged transactions, each in one piece and in log order, make of `t`. */
  predicate Refines(c: Setup, t: Table, s: State)
    requires forall m :: 0 <= m < |s.log| ==> s.log[m] < |c.tasks|
  {
    var tasks := LogTasks(c, s.log);
    s.rows == After(t, tasks) && forall m :: 0 <= m < |tasks| ==> Commits(t, tasks, m)
  }

  /** Each store object's lock is held by the claimant that took it. */
  predicate LocksHeld(c: Setup, s: State)
    requires ValidSetup(c)
  {
    && |s.pcs| == |c.tasks|
    && (forall i :: 0 <= i < |s.pcs| && HoldsLock(s.pcs[i]) ==> c.store[i] in s.locks && s.locks[c.store[i]] == i)
    && (forall k :: k in s.locks ==> s.locks[k] < |c.tasks| && c.store[s.locks[k]] == k)
  }

  predicate Invariant(c: Setup, t: Table, s: State)
    requires ValidSetup(c)
  {
    OneWriter(c, s) && LogFaithful(c, s) && Refines(c, t, s) && LocksHeld(c, s)
  }

  lemma StepKeepsWriter(c: Setup, s: State, step: Step)
    requires ValidSetup(c) && OneWriter(c, s) && Enabled(c, s, step)
    ensures OneWriter(c, Apply(c, s, step))
  {
    hide Expire;
  }

  lemma StepKeepsLog(c: Setup, s: State, step: Step)
    requires ValidSetup(c) && LogFaithful(c, s) && Enabled(c, s, step)
    ensures LogFaithful(c, Apply(c, s, step))
  {
    hide Expire;
    var s' := Apply(c, s, step);
    if step.Commit? {
      assert step.i !in s.log;
      assert s'.log == s.log + [step.i];
      forall i | 0 <= i < |s'.pcs| && (s'.pcs[i].Committed? || s'.pcs[i] == Finished(Won)) ensures i in s'.log {
        if i != step.i { assert i in s.log; }
      }
    }
  }

  lemma StepKeepsLocks(c: Setup, s: State, step: Step)
    requires ValidSetup(c) && LocksHeld(c, s) && Enabled(c, s, step)
    ensures LocksHeld(c, Apply(c, s, step))
  {
    hide Expire;
  }

  /** Only COMMIT changes the table or the log. */
  lemma OnlyCommitWrites(c: Setup, s: State, step: Step)
    requires ValidSetup(c) && |s.pcs| == |c.tasks| && Enabled(c, s, step) && !step.Commit?
    ensures Apply(c, s, step).rows == s.rows && Apply(c, s, step).log == s.log
  {
  }

  /** COMMIT performs the claimant's whole transaction on the committed table. */
  lemma CommitPerforms(c: Setup, s: State, i: nat)
    requires ValidSetup(c) && OneWriter(c, s) && Enabled(c, s, Commit(i))
    ensures Perform(s.rows, c.tasks[i]) == (Apply(c, s, Commit(i)).rows, true)
  {
  }

  lemma StepKeepsRefinement(c: Setup, t: Table, s: State, step: Step)
    requires ValidSetup(c) && OneWriter(c, s) && LogFaithful(c, s) && Refines(c, t, s) && Enabled(c, s, step)
    requires LogFaithful(c, Apply(c, s, step))
    ensures Refines(c, t, Apply(c, s, step))
  {
    if step.Commit? {
      CommitPerforms(c, s, step.i);
      var tasks, tasks' := LogTasks(c, s.log), LogTasks(c, s.log + [step.i]);
      assert tasks' == tasks + [c.tasks[step.i]];
      assert tasks'[..|tasks|] == tasks;
      forall m | 0 <= m < |tasks'| ensures Commits(t, tasks', m) {
        if m < |tasks| { assert tasks'[..m] == tasks[..m] && Commits(t, tasks, m); }
      }
    } else {
      OnlyCommitWrites(c, s, step);
    }
  }

  lemma {:induction false} InvariantHolds(c: Setup, t: Table, s: State, steps: seq<Step>, s': State)
    requires ValidSetup(c) && Invariant(c, t, s) && Reaches(c, s, steps, s')
    ensures Invariant(c, t, s')
    decreases |steps|
  {
    if |steps| > 0 {
      StepKeepsWriter(c, s, steps[0]);
      StepKeepsLog(c, s, steps[0]);
      StepKeepsRefinement(c, t, s, steps[0]);
      StepKeepsLocks(c, s, steps[0]);
      InvariantHolds(c, t, Apply(c, s, steps[0]), steps[1..], s');
    }
  }

  /** Claimant `i` has returned with this outcome. */
  predicate Ended(s: State, i: nat, outcome: Outcome) {
    i < |s.pcs| && s.pcs[i] == Finished(outcome)
  }

  // ----- the results, for every reachable state -----

  /** Every interleaving, with failures and crashes anywhere, refines one-piece transactions in commit order. */
  lemma EveryInterleavingRefines(c: Setup, t: Table, steps: seq<Step>, s: State)
    requires ValidSetup(c) && Reaches(c, Initial(c, t), steps, s)
    ensures Invariant(c, t, s)
  {
    InvariantHolds(c, t, Initial(c, t), steps, s);
  }

  predicate LogInRange(c: Setup, log: seq<nat>) {
    forall m :: 0 <= m < |log| ==> log[m] < |c.tasks|
  }

  /** A transaction committed after log position `m`, and no later than position `n`, read a clock past `expiry`. */
  predicate OutdatedWithin(c: Setup, log: seq<nat>, m: nat, n: nat, expiry: string)
    requires LogInRange(c, log)
  {
    exists k :: m < k <= n && k < |log| && !c.tasks[log[k]].Aborted? && Less(expiry, c.tasks[log[k]].now)
  }

  /** Between two committed claims of one key, in commit order, some clock is past the expiry of the first row. */
  lemma CommitsOfOneKey(c: Setup, t: Table, s: State, m: nat, n: nat)
    requires LogInRange(c, s.log) && Refines(c, t, s) && m < n < |s.log|
    requires c.tasks[s.log[m]].Claim? && ClaimsKey(c.tasks[s.log[n]], c.tasks[s.log[m]].key)
    ensures OutdatedWithin(c, s.log, m, n, c.tasks[s.log[m]].row.expiryAt)
  {
    hide Perform, After, Less;
    var tasks := LogTasks(c, s.log);
    var k := TwoClaimsNeedLateClock(t, tasks, m, n);
    assert tasks[k] == c.tasks[s.log[k]];
  }

  /** Two winners, in the order they committed in. */
  lemma WinnersInOrder(c: Setup, t: Table, steps: seq<Step>, s: State, i: nat, j: nat) returns (m: nat, n: nat)
    requires ValidSetup(c) && Reaches(c, Initial(c, t), steps, s)
    requires i < |c.tasks| && j < |c.tasks| && i != j && Ended(s, i, Won) && Ended(s, j, Won)
    ensures LogInRange(c, s.log) && Refines(c, t, s) && m < n < |s.log|
    ensures (s.log[m] == i && s.log[n] == j) || (s.log[m] == j && s.log[n] == i)
  {
    EveryInterleavingRefines(c, t, steps, s);
    hide Reaches, OneWriter, LocksHeld, Refines;
    m :| 0 <= m < |s.log| && s.log[m] == i;
    n :| 0 <= n < |s.log| && s.log[n] == j;
    if n < m { m, n := n, m; }
  }

  /**
   Of any number of claimants of one key no two win, unless a transaction committed after the first of the two, and no
   later than the second, read a clock past the first one's expiry. `m` and `n` are their places in the commit order.
  */
  lemma AtMostOneWins(c: Setup, t: Table, steps: seq<Step>, s: State, i: nat, j: nat) returns (m: nat, n: nat)
    requires ValidSetup(c) && Reaches(c, Initial(c, t), steps, s)
    requires i < |c.tasks| && j < |c.tasks| && i != j
    requires c.tasks[i].Claim? && ClaimsKey(c.tasks[j], c.tasks[i].key)
    requires Ended(s, i, Won) && Ended(s, j, Won)
    ensures LogInRange(c, s.log) && m < n < |s.log|
    ensures (s.log[m] == i && s.log[n] == j) || (s.log[m] == j && s.log[n] == i)
    ensures OutdatedWithin(c, s.log, m, n, c.tasks[s.log[m]].row.expiryAt)
  {
    hide Reaches, Refines, OutdatedWithin;
    m, n := WinnersInOrder(c, t, steps, s, i, j);
    CommitsOfOneKey(c, t, s, m, n);
  }

  /**
   A winner's row is in the committed table, until a transaction committed after it reads a clock past its expiry; and
   as long as nobody claims the key again, that is exactly when it is gone. `m` is the winner's place in the commit
   order.
  */
  lemma WinnersRowIsCommitted(c: Setup, t: Table, steps: seq<Step>, s: State, i: nat) returns (m: nat)
    requires ValidSetup(c) && Reaches(c, Initial(c, t), steps, s)
    requires i < |c.tasks| && c.tasks[i].Claim? && Ended(s, i, Won)
    ensures LogInRange(c, s.log) && m < |s.log| && s.log[m] == i
    ensures OutdatedWithin(c, s.log, m, |s.log|, c.tasks[i].row.expiryAt)
            || (c.tasks[i].key in s.rows && s.rows[c.tasks[i].key] == c.tasks[i].row)
    ensures (forall n :: m < n < |s.log| ==> !ClaimsKey(c.tasks[s.log[n]], c.tasks[i].key)) ==>
              (OutdatedWithin(c, s.log, m, |s.log|, c.tasks[i].row.expiryAt) <==> c.tasks[i].key !in s.rows)
  {
    EveryInterleavingRefines(c, t, steps, s);
    hide Reaches, OneWriter, LocksHeld, Refines, Less, Perform, After;
    m :| 0 <= m < |s.log| && s.log[m] == i;
    if n :| m < n < |s.log| && ClaimsKey(c.tasks[s.log[n]], c.tasks[i].key) {
      CommitsOfOneKey(c, t, s, m, n);
    } else {
      UnclaimedRow(c, t, s, m);
    }
  }

  lemma UnclaimedRow(c: Setup, t: Table, s: State, m: nat)
    requires LogInRange(c, s.log) && Refines(c, t, s) && m < |s.log| && c.tasks[s.log[m]].Claim?
    requires forall n :: m < n < |s.log| ==> !ClaimsKey(c.tasks[s.log[n]], c.tasks[s.log[m]].key)
    ensures var task := c.tasks[s.log[m]];
            if OutdatedWithin(c, s.log, m, |s.log|, task.row.expiryAt) then task.key !in s.rows
            else task.key in s.rows && s.rows[task.key] == task.row
  {
    hide Perform, After, Less;
    var tasks := LogTasks(c, s.log);
    var expiry := tasks[m].row.expiryAt;
    RowUntilOutdated(t, tasks, m, |tasks|);
    assert tasks[..|tasks|] == tasks;
    if k :| m < k < |tasks| && Outdates(t, tasks, k, expiry) {
      assert tasks[k] == c.tasks[s.log[k]];
    }
    if OutdatedWithin(c, s.log, m, |s.log|, expiry) {
      var k :| m < k < |s.log| && !c.tasks[s.log[k]].Aborted? && Less(expiry, c.tasks[s.log[k]].now);
      assert tasks[k] == c.tasks[s.log[k]] && Outdates(t, tasks, k, expiry);
    }
  }

  /** A loser, and a claimant whose ledger failed, never reached the table: the log that makes it leaves them out. */
  lemma LosersLeaveNoTrace(c: Setup, t: Table, steps: seq<Step>, s: State, i: nat)
    requires ValidSetup(c) && Reaches(c, Initial(c, t), steps, s)
    requires Ended(s, i, Lost) || Ended(s, i, Failed)
    ensures LogFaithful(c, s) && i !in s.log
    ensures s.rows == After(t, LogTasks(c, s.log))
  {
    EveryInterleavingRefines(c, t, steps, s);
  }

  /** Two claimants that share a store object are never both between acquiring and releasing its lock. */
  lemma LockExcludes(c: Setup, t: Table, steps: seq<Step>, s: State, i: nat, j: nat)
    requires ValidSetup(c) && Reaches(c, Initial(c, t), steps, s)
    requires i < j < |c.tasks| && c.store[i] == c.store[j]
    ensures |s.pcs| == |c.tasks| && !(HoldsLock(s.pcs[i]) && HoldsLock(s.pcs[j]))
  {
    EveryInterleavingRefines(c, t, steps, s);
  }
}
