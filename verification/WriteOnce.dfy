/**
 The write-once store the service uses four times: validate, look the key up by a scan of the whole ledger, then append,
 accept an equal record again without writing, or refuse a different one. A ledger holding a line separator inside a
 string cannot be read back (Jsonl.LedgerRoundTrip), so every lookup on it fails.
*/
module WriteOnce {
  import opened Text
  import opened JsonValue
  import opened JsonText
  import opened CanonicalJson
  import opened Jsonl

  /** What differs between the stores: the key field, the keys worth looking up, and the shape check. */
  datatype Policy = Policy(keyField: string, validKey: string -> bool, validate: Json -> Option<string>)

  /** A record that passes the check is an object carrying its key in the key field. */
  ghost predicate Lawful(p: Policy) {
    forall r :: p.validate(r).Some? ==>
                  r.Obj? && r.Get(p.keyField) == Str(p.validate(r).value) && p.validKey(p.validate(r).value)
  }

  datatype Outcome =
    | Stored(wrote: bool)
    | Invalid
    | Conflict
    | Unreadable // reading the ledger raised

  // ----- readability of records -----

  /** No string or key at any level holds one of the three unescaped line ends. */
  predicate CleanValue(v: Json) {
    match v
    case Str(s) => CleanText(s)
    case Arr(items) => forall i :: 0 <= i < |items| ==> CleanValue(items[i])
    case Obj(fields) => forall k :: k in fields ==> CleanText(k) && CleanValue(fields[k])
    case _ => true
  }

  /** Whether a record reads back does not depend on the order its keys were written in. */
  lemma {:induction false} CleanIsOfValue(d: Doc)
    requires Proper(d)
    ensures Clean(d) <==> CleanValue(ValueOf(d))
  {
    match d
    case DArr(items) =>
      forall i | 0 <= i < |items| ensures Clean(items[i]) <==> CleanValue(ValueOf(items[i])) {
        CleanIsOfValue(items[i]);
      }
      var vs := ValuesOf(items);
      assert (forall i :: 0 <= i < |items| ==> Clean(items[i])) <==> forall i :: 0 <= i < |vs| ==> CleanValue(vs[i]);
    case DObj(ms) =>
      forall i | 0 <= i < |ms| ensures Clean(ms[i].val) <==> CleanValue(ValueOf(ms[i].val)) {
        CleanIsOfValue(ms[i].val);
      }
      CleanMembers(ms);
    case _ =>
  }

  lemma CleanMembers(ms: seq<Member>)
    requires DistinctKeys(ms)
    requires forall i :: 0 <= i < |ms| ==> (Clean(ms[i].val) <==> CleanValue(ValueOf(ms[i].val)))
    ensures Clean(DObj(ms)) <==> CleanValue(Obj(FieldsOf(ms)))
  {
    hide ValueOf, FieldsOf, CleanText;
    FieldsOfDistinct(ms);
    var fields := FieldsOf(ms);
    if Clean(DObj(ms)) {
      forall k | k in fields ensures CleanText(k) && CleanValue(fields[k]) {
        var m :| m in ms && m.key == k;
        var i :| 0 <= i < |ms| && ms[i] == m;
      }
    }
    if CleanValue(Obj(fields)) {
      forall i | 0 <= i < |ms| ensures CleanText(ms[i].key) && Clean(ms[i].val) {
        assert ms[i].key in fields;
      }
    }
  }

  predicate Readable(records: seq<Json>) {
    forall i :: 0 <= i < |records| ==> CleanValue(records[i])
  }

  function ValuesOfAll(ds: seq<Doc>): (r: seq<Json>)
    ensures |r| == |ds| && forall i :: 0 <= i < |ds| ==> r[i] == ValueOf(ds[i])
  {
    seq(|ds|, i requires 0 <= i < |ds| => ValueOf(ds[i]))
  }

  /** A ledger file reads back, and to the same values, exactly when its values are readable. */
  lemma FileReadable(ds: seq<Doc>)
    requires forall i :: 0 <= i < |ds| ==> Proper(ds[i]) && ds[i].DObj?
    ensures var read := ReadLines(SplitLines(FileText(ds)));
            if Readable(ValuesOfAll(ds)) then read == Some(ds) else read == None
  {
    hide CleanValue, Clean, Proper, ValueOf, ReadLines, SplitLines, FileText;
    LedgerReads(ds);
    forall i | 0 <= i < |ds| ensures Clean(ds[i]) <==> CleanValue(ValuesOfAll(ds)[i]) { CleanIsOfValue(ds[i]); }
  }

  // ----- lookup and store -----

  predicate Matches(p: Policy, record: Json, key: string) {
    record.Get(p.keyField) == Str(key)
  }

  /** The last record under the key. */
  function Latest(p: Policy, records: seq<Json>, key: string): Option<Json> {
    if |records| == 0 then None
    else if Matches(p, records[|records| - 1], key) then Some(records[|records| - 1])
    else Latest(p, records[..|records| - 1], key)
  }

  /** `get_*`; the outer `None` is a read error. A key of the wrong form is not even looked up. */
  function Lookup(p: Policy, records: seq<Json>, key: string): Option<Option<Json>> {
    if !p.validKey(key) then Some(None)
    else if !Readable(records) then None
    else Some(Latest(p, records, key))
  }

  /** `store_*` */
  function StoreSpec(p: Policy, records: seq<Json>, record: Json): (seq<Json>, Outcome) {
    match p.validate(record)
    case None => (records, Invalid)
    case Some(key) =>
      match Lookup(p, records, key)
      case None => (records, Unreadable)
      case Some(None) => (records + [record], Stored(true))
      case Some(Some(existing)) =>
        if Canonical(existing) == Canonical(record) then (records, Stored(false)) else (records, Conflict)
  }

  class Ledger {
    var records: seq<Json>

    constructor ()
      ensures records == []
    {
      records := [];
    }

    /** Scans the ledger from its start, keeping the latest match. */
    method Get(p: Policy, key: string) returns (found: Option<Option<Json>>)
      ensures found == Lookup(p, records, key)
    {
      if !p.validKey(key) {
        return Some(None);
      }
      if !Readable(records) {
        return None;
      }
      var latest: Option<Json> := None;
      var i := 0;
      while i < |records|
        invariant 0 <= i <= |records|
        invariant latest == Latest(p, records[..i], key)
      {
        assert records[..i + 1][..i] == records[..i];
        if records[i].Get(p.keyField) == Str(key) {
          latest := Some(records[i]);
        }
        i := i + 1;
      }
      assert records[..i] == records;
      found := Some(latest);
    }

    method Store(p: Policy, record: Json) returns (outcome: Outcome)
      modifies this
      ensures (records, outcome) == StoreSpec(p, old(records), record)
      ensures outcome == Stored(true) ==> records == old(records) + [record]
      ensures outcome != Stored(true) ==> records == old(records)
    {
      var key := p.validate(record);
      if key.None? {
        return Invalid;
      }
      var existing := Get(p, key.value);
      if existing.None? {
        return Unreadable;
      }
      if existing.value.Some? {
        if Canonical(existing.value.value) == Canonical(record) {
          return Stored(false);
        }
        return Conflict;
      }
      records := records + [record];
      outcome := Stored(true);
    }
  }

  /** A store call leaves the ledger alone or appends the record. */
  lemma StoreAppends(p: Policy, records: seq<Json>, record: Json)
    ensures var (after, outcome) := StoreSpec(p, records, record);
            after == if outcome == Stored(true) then records + [record] else records
  {
  }

  // ----- what every store keeps -----

  /** Every record passes the check, and no two share a key. */
  predicate OnePerKey(p: Policy, records: seq<Json>) {
    && (forall i :: 0 <= i < |records| ==> p.validate(records[i]).Some?)
    && forall i, j :: 0 <= i < j < |records| ==> p.validate(records[i]) != p.validate(records[j])
  }

  lemma {:induction false} LatestIs(p: Policy, records: seq<Json>, key: string)
    ensures match Latest(p, records, key)
            case None => forall i :: 0 <= i < |records| ==> !Matches(p, records[i], key)
            case Some(r) => exists i :: 0 <= i < |records| && records[i] == r && Matches(p, r, key)
                                        && forall j :: i < j < |records| ==> !Matches(p, records[j], key)
  {
    if |records| > 0 {
      var n := |records| - 1;
      if Matches(p, records[n], key) {
        assert records[n] == records[n];
      } else {
        LatestIs(p, records[..n], key);
        if r: Json :| Latest(p, records[..n], key) == Some(r) {
          var i :| 0 <= i < n && records[..n][i] == r && Matches(p, r, key)
                   && forall j :: i < j < n ==> !Matches(p, records[..n][j], key);
          assert records[i] == r && forall j :: i < j < |records| ==> !Matches(p, records[j], key);
        }
      }
    }
  }

  /** In a one-per-key ledger, a key's record is the one the scan finds. */
  lemma LatestOfStored(p: Policy, records: seq<Json>, i: nat)
    requires Lawful(p) && OnePerKey(p, records) && i < |records|
    ensures Latest(p, records, p.validate(records[i]).value) == Some(records[i])
  {
    var key := p.validate(records[i]).value;
    assert Matches(p, records[i], key);
    LatestIs(p, records, key);
    var j :| 0 <= j < |records| && Latest(p, records, key) == Some(records[j]) && Matches(p, records[j], key);
    assert p.validate(records[j]) == Some(key);
    assert p.validate(records[i]) == Some(key) && i == j;
  }

  lemma StoreKeepsOnePerKey(p: Policy, records: seq<Json>, record: Json)
    requires Lawful(p) && OnePerKey(p, records)
    ensures OnePerKey(p, StoreSpec(p, records, record).0)
    ensures records <= StoreSpec(p, records, record).0
  {
    WritesIff(p, records, record);
    StoreAppends(p, records, record);
    hide StoreSpec, Lawful, Readable;
  }

  /**
   Storing against an existing record: equal values are accepted again, different ones refused, nothing is written.
  */
  lemma StoreAgain(p: Policy, records: seq<Json>, i: nat, record: Json)
    requires Lawful(p) && OnePerKey(p, records) && i < |records| && Readable(records)
    requires p.validate(record) == p.validate(records[i])
    ensures StoreSpec(p, records, record)
            == (records, if record == records[i] then Stored(false) else Conflict)
  {
    LatestOfStored(p, records, i);
    CanonicalInjective(records[i], record);
  }

  /** A store call writes exactly when the record is valid, the ledger readable and the key new. */
  lemma WritesIff(p: Policy, records: seq<Json>, record: Json)
    requires Lawful(p) && OnePerKey(p, records)
    ensures StoreSpec(p, records, record).1 == Stored(true) <==>
            p.validate(record).Some? && Readable(records)
            && forall i :: 0 <= i < |records| ==> p.validate(records[i]) != p.validate(record)
  {
    if p.validate(record).Some? {
      var key := p.validate(record).value;
      LatestIs(p, records, key);
      forall i | 0 <= i < |records|
        ensures Matches(p, records[i], key) <==> p.validate(records[i]) == Some(key)
      {
        assert records[i].Get(p.keyField) == Str(p.validate(records[i]).value);
      }
    }
  }

  /**
   How a store call ends: refused for its shape, for the ledger, for a different record of its key, or found again.
  */
  lemma OutcomeIff(p: Policy, records: seq<Json>, record: Json)
    requires Lawful(p) && OnePerKey(p, records)
    ensures var outcome, key := StoreSpec(p, records, record).1, p.validate(record);
            && (outcome == Invalid <==> key.None?)
            && (outcome == Unreadable <==> key.Some? && !Readable(records))
            && (outcome == Stored(false) <==> key.Some? && Readable(records) && record in records)
            && (outcome == Conflict <==>
                key.Some? && Readable(records) && record !in records
                && exists i :: 0 <= i < |records| && p.validate(records[i]) == key)
  {
    UnstoredOutcome(p, records, record);
    hide StoreSpec, Readable, Lawful;
    if p.validate(record).Some? && Readable(records) {
      WritesIff(p, records, record);
      if i :| 0 <= i < |records| && p.validate(records[i]) == p.validate(record) {
        StoreAgain(p, records, i, record);
        if j :| 0 <= j < |records| && records[j] == record {
          assert p.validate(records[j]) == p.validate(records[i]) && i == j;
        }
      } else {
        assert forall j :: 0 <= j < |records| ==> records[j] != record;
      }
    }
  }

  lemma UnstoredOutcome(p: Policy, records: seq<Json>, record: Json)
    requires Lawful(p)
    ensures StoreSpec(p, records, record).1 == Invalid <==> p.validate(record).None?
    ensures StoreSpec(p, records, record).1 == Unreadable <==> p.validate(record).Some? && !Readable(records)
  {
    hide Readable, Latest;
  }

  /** The ledger after any sequence of submissions. */
  function StoreAll(p: Policy, records: seq<Json>, submissions: seq<Json>): seq<Json>
    decreases |submissions|
  {
    if |submissions| == 0 then records
    else StoreAll(p, StoreSpec(p, records, submissions[0]).0, submissions[1..])
  }

  /** Over every run: append only, one record per key, and once stored a record is what its key finds for good. */
  lemma {:induction false} WriteOnceRun(p: Policy, records: seq<Json>, submissions: seq<Json>)
    requires Lawful(p) && OnePerKey(p, records)
    ensures OnePerKey(p, StoreAll(p, records, submissions))
    ensures records <= StoreAll(p, records, submissions)
    ensures forall i :: 0 <= i < |records| ==>
              Latest(p, StoreAll(p, records, submissions), p.validate(records[i]).value) == Some(records[i])
    decreases |submissions|
  {
    if |submissions| > 0 {
      StoreKeepsOnePerKey(p, records, submissions[0]);
      WriteOnceRun(p, StoreSpec(p, records, submissions[0]).0, submissions[1..]);
    }
    var end := StoreAll(p, records, submissions);
    forall i | 0 <= i < |records| ensures Latest(p, end, p.validate(records[i]).value) == Some(records[i]) {
      LatestOfStored(p, end, i);
      assert end[i] == records[i];
    }
  }
}
