/**
 The durable replay ledger: one SQLite table keyed by (producer, nonce). Every claim first deletes the rows whose
 expiry text lies before its own clock text, then inserts; a conflict rolls the whole transaction back.
*/
module NonceLedger {
  import opened Text
  import opened IsoTime

  type Key = (string, string)

  datatype Audit = Audit(
    requestId: Option<string>, routeId: Option<string>, subject: Option<string>, digestHex: Option<string>)

  datatype Row = Row(audit: Audit, assertionTimestamp: string, acceptedAt: string, expiryAt: string)

  type Table = map<Key, Row>

  /** `DELETE FROM nonce_ledger WHERE expiry_at < ?` */
  function Expire(t: Table, now: string): Table {
    map k | k in t && !Less(t[k].expiryAt, now) :: t[k]
  }

  /** A transaction on the ledger; clock readings appear as the text they are compared as. */
  datatype Task =
    | Claim(key: Key, row: Row, now: string)
    | Cleanup(now: string)
    | Aborted // no transaction, or one SQLite failed

  /** The table after the transaction, and whether it committed. */
  function Perform(t: Table, task: Task): (Table, bool) {
    match task
    case Claim(key, row, now) =>
      var live := Expire(t, now);
      if key in live then (t, false) else (live[key := row], true)
    case Cleanup(now) => (Expire(t, now), true)
    case Aborted => (t, false)
  }

  function After(t: Table, tasks: seq<Task>): Table {
    if |tasks| == 0 then t
    else Perform(After(t, tasks[..|tasks| - 1]), tasks[|tasks| - 1]).0
  }

  /** Whether transaction `i` of the sequence commits. */
  predicate Commits(t: Table, tasks: seq<Task>, i: nat)
    requires i < |tasks|
  {
    Perform(After(t, tasks[..i]), tasks[i]).1
  }

  predicate ClaimsKey(task: Task, key: Key) {
    task.Claim? && task.key == key
  }

  /** Transaction `k` throws out rows with this expiry. */
  predicate Outdates(t: Table, tasks: seq<Task>, k: nat, expiry: string)
    requires k < |tasks|
  {
    Commits(t, tasks, k) && !tasks[k].Aborted? && Less(expiry, tasks[k].now)
  }

  predicate NoClaimBetween(t: Table, tasks: seq<Task>, key: Key, i: nat, j: nat)
    requires j <= |tasks|
  {
    forall k :: i < k < j && ClaimsKey(tasks[k], key) ==> !Commits(t, tasks, k)
  }

  lemma AfterStep(t: Table, tasks: seq<Task>, i: nat)
    requires i < |tasks|
    ensures After(t, tasks[..i + 1]) == Perform(After(t, tasks[..i]), tasks[i]).0
  {
    assert tasks[..i + 1][..i] == tasks[..i];
  }

  /** What a transaction that does not claim `key` does to the row of `key`. */
  lemma RowAcrossTask(t: Table, task: Task, key: Key)
    requires !(ClaimsKey(task, key) && Perform(t, task).1)
    ensures var (rows, committed) := Perform(t, task);
            if key in t && !(committed && !task.Aborted? && Less(t[key].expiryAt, task.now))
            then key in rows && rows[key] == t[key]
            else key !in rows
  {
  }

  /** A claimed row stays until a committed transaction outdates it. */
  lemma {:induction false} RowUntilOutdated(t: Table, tasks: seq<Task>, i: nat, j: nat)
    requires i < j <= |tasks| && tasks[i].Claim? && Commits(t, tasks, i)
    requires NoClaimBetween(t, tasks, tasks[i].key, i, j)
    ensures var rows := After(t, tasks[..j]);
            if exists k :: i < k < j && Outdates(t, tasks, k, tasks[i].row.expiryAt)
            then tasks[i].key !in rows
            else tasks[i].key in rows && rows[tasks[i].key] == tasks[i].row
    decreases j
  {
    hide After, Less, Expire;
    AfterStep(t, tasks, j - 1);
    if j > i + 1 {
      hide Perform;
      RowUntilOutdated(t, tasks, i, j - 1);
      RowAcrossTask(After(t, tasks[..j - 1]), tasks[j - 1], tasks[i].key);
      assert Outdates(t, tasks, j - 1, tasks[i].row.expiryAt) ==>
          exists k :: i < k < j && Outdates(t, tasks, k, tasks[i].row.expiryAt);
    }
  }

  /**
   When the same key is claimed again, with no claim of it committed in between, the second claim commits exactly
   when some committed transaction since the first, or the second claim's own delete, has a clock text past the
   first row's expiry text.
  */
  lemma ReclaimedIff(t: Table, tasks: seq<Task>, i: nat, j: nat)
    requires i < j < |tasks| && tasks[i].Claim? && ClaimsKey(tasks[j], tasks[i].key)
    requires Commits(t, tasks, i) && NoClaimBetween(t, tasks, tasks[i].key, i, j)
    ensures Commits(t, tasks, j) <==>
            Less(tasks[i].row.expiryAt, tasks[j].now)
            || exists k :: i < k < j && Outdates(t, tasks, k, tasks[i].row.expiryAt)
  {
    RowUntilOutdated(t, tasks, i, j);
  }

  /** Any two committed claims of one key have a clock text past the first row's expiry between them. */
  lemma {:induction false} TwoClaimsNeedLateClock(t: Table, tasks: seq<Task>, i: nat, j: nat) returns (k: nat)
    requires i < j < |tasks| && tasks[i].Claim? && ClaimsKey(tasks[j], tasks[i].key)
    requires Commits(t, tasks, i) && Commits(t, tasks, j)
    ensures i < k <= j && Outdates(t, tasks, k, tasks[i].row.expiryAt)
    decreases j
  {
    if m :| i < m < j && ClaimsKey(tasks[m], tasks[i].key) && Commits(t, tasks, m) {
      k := TwoClaimsNeedLateClock(t, tasks, i, m);
    } else {
      ReclaimedIff(t, tasks, i, j);
      if Less(tasks[i].row.expiryAt, tasks[j].now) {
        k := j;
      } else {
        k :| i < k < j && Outdates(t, tasks, k, tasks[i].row.expiryAt);
      }
    }
  }

  // ----- exactly which claims commit -----

  /** The delete of transaction `k` took effect, or is about to for the claim `j` itself, with a clock past `expiry`. */
  predicate OutdatesBy(t: Table, tasks: seq<Task>, k: nat, j: nat, expiry: string)
    requires k <= j < |tasks|
  {
    if k < j then Outdates(t, tasks, k, expiry) else !tasks[j].Aborted? && Less(expiry, tasks[j].now)
  }

  /** A row was put there by some claim, which no committed claim of its key followed. */
  lemma {:induction false} RowHasClaim(tasks: seq<Task>, j: nat, key: Key) returns (i: nat)
    requires j <= |tasks| && key in After(map[], tasks[..j])
    ensures i < j && ClaimsKey(tasks[i], key) && Commits(map[], tasks, i) && NoClaimBetween(map[], tasks, key, i, j)
    decreases j
  {
    assert j > 0;
    hide After, Perform, Expire;
    AfterStep(map[], tasks, j - 1);
    if ClaimsKey(tasks[j - 1], key) && Commits(map[], tasks, j - 1) {
      i := j - 1;
    } else {
      RowAcrossTask(After(map[], tasks[..j - 1]), tasks[j - 1], key);
      i := RowHasClaim(tasks, j - 1, key);
    }
  }

  /**
   From an empty table, over any history: a claim commits exactly when every claim of its key that committed before it
   has since been outdated, at the latest by this claim's own delete.
  */
  lemma CommitsIff(tasks: seq<Task>, j: nat)
    requires j < |tasks| && tasks[j].Claim?
    ensures Commits(map[], tasks, j) <==>
            forall i :: 0 <= i < j && ClaimsKey(tasks[i], tasks[j].key) && Commits(map[], tasks, i) ==>
              exists k :: i < k <= j && OutdatesBy(map[], tasks, k, j, tasks[i].row.expiryAt)
  {
    hide After, Less, Expire;
    if Commits(map[], tasks, j) {
      forall i | 0 <= i < j && ClaimsKey(tasks[i], tasks[j].key) && Commits(map[], tasks, i)
        ensures exists k :: i < k <= j && OutdatesBy(map[], tasks, k, j, tasks[i].row.expiryAt)
      {
        hide Perform;
        var k := TwoClaimsNeedLateClock(map[], tasks, i, j);
        assert OutdatesBy(map[], tasks, k, j, tasks[i].row.expiryAt);
      }
    } else {
      assert tasks[j].key in After(map[], tasks[..j]) by { ConflictHasRow(After(map[], tasks[..j]), tasks[j]); }
      hide Perform;
      var i := RowHasClaim(tasks, j, tasks[j].key);
      ReclaimedIff(map[], tasks, i, j);
      assert forall k :: i < k <= j ==> !OutdatesBy(map[], tasks, k, j, tasks[i].row.expiryAt);
    }
  }

  lemma ConflictHasRow(t: Table, task: Task)
    requires task.Claim? && !Perform(t, task).1
    ensures task.key in t
  {
  }

  /** How a claim ends; `OutOfRange` is the overflow of `timestamp + retention` past year 9999. */
  datatype ClaimResult = Accepted | Replayed | Unavailable | OutOfRange

  /** `max_skew * RETENTION_SKEW_MULTIPLE` */
  function Retention(maxSkew: nat): nat {
    4 * maxSkew
  }

  /** When a row's retention ends, in the stamp's own zone. */
  function Expiry(stamp: Stamp, maxSkew: nat): Stamp {
    Later(stamp, Retention(maxSkew))
  }

  /** The transaction `check_and_record` runs for these readings; both texts of the stamp keep its zone. */
  function ClaimTask(key: Key, stamp: Stamp, maxSkew: nat, now: int, audit: Audit): Task
    requires ValidStamp(stamp) && InRange(now) && ValidStamp(Expiry(stamp, maxSkew))
  {
    Claim(key,
          Row(audit, IsoStamp(stamp), IsoFormat(now), IsoStamp(Expiry(stamp, maxSkew))),
          IsoFormat(now))
  }

  /** What `check_and_record` leaves in the table and reports; `up` is false when SQLite raises. */
  function ClaimSpec(t: Table, key: Key, stamp: Stamp, maxSkew: nat, now: int, audit: Audit, up: bool)
    : (Table, ClaimResult)
    requires ValidStamp(stamp) && InRange(now)
  {
    if !ValidStamp(Expiry(stamp, maxSkew)) then (t, OutOfRange)
    else if !up then (t, Unavailable)
    else
      var r := Perform(t, ClaimTask(key, stamp, maxSkew, now, audit));
      (r.0, if r.1 then Accepted else Replayed)
  }

  /** How a claim ends, and that only an accepted one changes the table. */
  lemma ClaimAnswers(t: Table, key: Key, stamp: Stamp, maxSkew: nat, now: int, audit: Audit, up: bool)
    requires ValidStamp(stamp) && InRange(now)
    ensures var (rows, result) := ClaimSpec(t, key, stamp, maxSkew, now, audit, up);
            var held := key in t && !Less(t[key].expiryAt, IsoFormat(now));
            var fits := ValidStamp(Stamp(stamp.utc + 4 * maxSkew, stamp.offset));
            && (result == OutOfRange <==> !fits)
            && (result == Unavailable <==> fits && !up)
            && (result == Replayed <==> fits && up && held)
            && (result == Accepted <==> fits && up && !held)
            && (result != Accepted ==> rows == t)
  {
    hide IsoStamp, IsoFormat, Less, ValidStamp;
    assert Expiry(stamp, maxSkew) == Stamp(stamp.utc + 4 * maxSkew, stamp.offset);
  }

  /** What an accepted claim writes, and that every other row is kept exactly when it is not past its expiry. */
  lemma ClaimWrites(t: Table, key: Key, stamp: Stamp, maxSkew: nat, now: int, audit: Audit, up: bool)
    requires ValidStamp(stamp) && InRange(now) && ClaimSpec(t, key, stamp, maxSkew, now, audit, up).1 == Accepted
    ensures var rows := ClaimSpec(t, key, stamp, maxSkew, now, audit, up).0;
            var ends := Stamp(stamp.utc + 4 * maxSkew, stamp.offset);
            && up && ValidStamp(ends)
            && key in rows && rows[key] == Row(audit, IsoStamp(stamp), IsoFormat(now), IsoStamp(ends))
            && forall k :: k != key ==>
                 (k in rows <==> k in t && !Less(t[k].expiryAt, IsoFormat(now))) && (k in rows ==> rows[k] == t[k])
  {
    hide IsoStamp, IsoFormat, Less;
    assert Expiry(stamp, maxSkew) == Stamp(stamp.utc + 4 * maxSkew, stamp.offset);
  }

  /**
   How long a row really stays: until the clock is past the local time its expiry shows, which is the end of the
   retention moved by the offset of the stamp's zone.
  */
  function KeptUntil(stamp: Stamp, maxSkew: nat): int {
    stamp.utc + stamp.offset + Retention(maxSkew)
  }

  /** A delete at `now` throws out exactly the rows it is past; in UTC those whose retention of four skews is over. */
  lemma ExpireIsExact(t: Table, key: Key, stamp: Stamp, maxSkew: nat, now: int)
    requires ValidStamp(Expiry(stamp, maxSkew)) && InRange(now)
    requires key in t && t[key].expiryAt == IsoStamp(Expiry(stamp, maxSkew))
    ensures key in Expire(t, IsoFormat(now)) <==> now <= KeptUntil(stamp, maxSkew)
  {
    hide IsoFormat, IsoStamp;
    LocalOrder(Expiry(stamp, maxSkew), now);
  }

  class SqliteNonceStore {
    /** The committed rows of the database file; they survive a restart. */
    var rows: Table

    constructor ()
      ensures rows == map[]
    {
      rows := map[];
    }

    /** `check_and_record` with its transaction in one piece (ClaimProtocol takes it apart). */
    method CheckAndRecord(key: Key, stamp: Stamp, maxSkew: nat, now: int, audit: Audit, up: bool)
      returns (result: ClaimResult)
      requires ValidStamp(stamp) && InRange(now)
      modifies this
      ensures (rows, result) == ClaimSpec(old(rows), key, stamp, maxSkew, now, audit, up)
      ensures result != Accepted ==> rows == old(rows)
      ensures result == Accepted ==> key in rows && rows[key].assertionTimestamp == IsoStamp(stamp)
    {
      hide IsoFormat, IsoStamp;
      if !ValidStamp(Expiry(stamp, maxSkew)) {
        return OutOfRange;
      }
      var acceptedAt := IsoFormat(now);
      var expiryAt := IsoStamp(Expiry(stamp, maxSkew));
      if !up {
        return Unavailable;
      }
      var working := Expire(rows, acceptedAt);
      if key in working {
        return Replayed;
      }
      working := working[key := Row(audit, IsoStamp(stamp), acceptedAt, expiryAt)];
      rows := working;
      result := Accepted;
    }

  /** `cleanup`: how many rows it deleted, or `None` when SQLite raises. */
    method CleanUp(now: int, up: bool) returns (deleted: Option<nat>)
      requires InRange(now)
      modifies this
      ensures up ==> rows == Perform(old(rows), Cleanup(IsoFormat(now))).0
                     && deleted == Some(|old(rows)| - |rows|)
      ensures !up ==> rows == old(rows) && deleted == None
    {
      hide IsoFormat;
      if !up {
        return None;
      }
      var before := rows;
      rows := Expire(rows, IsoFormat(now));
      assert rows.Keys <= before.Keys;
      SubsetSize(rows.Keys, before.Keys);
      deleted := Some(|before| - |rows|);
    }
  }

  lemma SubsetSize<T>(a: set<T>, b: set<T>)
    requires a <= b
    ensures |a| <= |b|
  {
    assert b == a + (b - a);
  }
}
