/**
 The in-memory nonce store. It prunes with the submission's own timestamp as "now", so what it tolerates is
 disagreement between verifier clocks, not between a verifier and the ledger.
*/
module MemoryNonceStore {
  import opened NonceLedger

  type Seen = map<Key, int>

  /** `_prune`: entries older than four skews before `now` are dropped. */
  function Pruned(seen: Seen, now: int, maxSkew: nat): Seen {
    map k | k in seen && seen[k] >= now - Retention(maxSkew) :: seen[k]
  }

  /** The entries after a claim, which are pruned even when the claim fails, and whether it was accepted. */
  function Claimed(seen: Seen, key: Key, timestamp: int, maxSkew: nat): (Seen, bool) {
    var kept := Pruned(seen, timestamp, maxSkew);
    if key in kept then (kept, false) else (kept[key := timestamp], true)
  }

  class NonceStore {
    var seen: Seen

    constructor ()
      ensures seen == map[]
    {
      seen := map[];
    }

    /** Collects the stale keys, then deletes them one by one. */
    method Prune(now: int, maxSkew: nat)
      modifies this
      ensures seen == Pruned(old(seen), now, maxSkew)
    {
      var cutoff := now - Retention(maxSkew);
      var stale := set k | k in seen && seen[k] < cutoff;
      while stale != {}
        invariant seen == map k | k in old(seen) && (k in stale || old(seen)[k] >= cutoff) :: old(seen)[k]
        invariant forall k :: k in stale ==> k in old(seen) && old(seen)[k] < cutoff
        decreases stale
      {
        var k :| k in stale;
        seen := seen - {k};
        stale := stale - {k};
      }
    }

    method CheckAndRecord(key: Key, timestamp: int, maxSkew: nat) returns (accepted: bool)
      modifies this
      ensures (seen, accepted) == Claimed(old(seen), key, timestamp, maxSkew)
    {
      Prune(timestamp, maxSkew);
      if key in seen {
        return false;
      }
      seen := seen[key := timestamp];
      accepted := true;
    }
  }

  /** A submission that passed the window check of a verifier reading `verifier`. */
  datatype Attempt = Attempt(key: Key, timestamp: int, verifier: int)

  predicate InWindow(a: Attempt, skew: nat) {
    a.verifier - skew <= a.timestamp <= a.verifier + skew
  }

  function After(seen: Seen, run: seq<Attempt>, skew: nat): Seen {
    if |run| == 0 then seen
    else
      var last := run[|run| - 1];
      Claimed(After(seen, run[..|run| - 1], skew), last.key, last.timestamp, skew).0
  }

  predicate Accepts(seen: Seen, run: seq<Attempt>, skew: nat, i: nat)
    requires i < |run|
  {
    Claimed(After(seen, run[..i], skew), run[i].key, run[i].timestamp, skew).1
  }

  /** Attempt `k` carries a timestamp that prunes entries stamped `timestamp`. */
  predicate Prunes(run: seq<Attempt>, skew: nat, k: nat, timestamp: int)
    requires k < |run|
  {
    run[k].timestamp - Retention(skew) > timestamp
  }

  /** What a claim does to the entry of `key`, unless it is an accepted claim of `key`. */
  lemma EntryAcrossClaim(seen: Seen, a: Attempt, key: Key, skew: nat)
    requires !(a.key == key && Claimed(seen, a.key, a.timestamp, skew).1)
    ensures var entries := Claimed(seen, a.key, a.timestamp, skew).0;
            if key in seen && seen[key] >= a.timestamp - Retention(skew)
            then key in entries && entries[key] == seen[key]
            else key !in entries
  {
  }

  lemma {:induction false} EntryUntilPruned(seen: Seen, run: seq<Attempt>, skew: nat, i: nat, j: nat)
    requires i < j <= |run| && Accepts(seen, run, skew, i)
    requires forall k :: i < k < j && run[k].key == run[i].key ==> !Accepts(seen, run, skew, k)
    ensures var entries := After(seen, run[..j], skew);
            if exists k :: i < k < j && Prunes(run, skew, k, run[i].timestamp)
            then run[i].key !in entries
            else run[i].key in entries && entries[run[i].key] == run[i].timestamp
    decreases j
  {
    assert run[..j][..j - 1] == run[..j - 1];
    if j > i + 1 {
      EntryUntilPruned(seen, run, skew, i, j - 1);
      hide Claimed;
      EntryAcrossClaim(After(seen, run[..j - 1], skew), run[j - 1], run[i].key, skew);
      assert Prunes(run, skew, j - 1, run[i].timestamp) ==>
          exists k :: i < k < j && Prunes(run, skew, k, run[i].timestamp);
    }
  }

  /** Exactly when a used key is accepted again, given no acceptance of it in between. */
  lemma AcceptedAgainIff(seen: Seen, run: seq<Attempt>, skew: nat, i: nat, j: nat)
    requires i < j < |run| && run[j].key == run[i].key && Accepts(seen, run, skew, i)
    requires forall k :: i < k < j && run[k].key == run[i].key ==> !Accepts(seen, run, skew, k)
    ensures Accepts(seen, run, skew, j) <==> exists k :: i < k <= j && Prunes(run, skew, k, run[i].timestamp)
  {
    EntryUntilPruned(seen, run, skew, i, j);
    if Accepts(seen, run, skew, j) && !Prunes(run, skew, j, run[i].timestamp) {
      assert exists k :: i < k < j && Prunes(run, skew, k, run[i].timestamp);
    }
  }

  lemma {:induction false} PruningBetween(seen: Seen, run: seq<Attempt>, skew: nat, i: nat, j: nat) returns (k: nat)
    requires i < j < |run| && run[j].key == run[i].key
    requires Accepts(seen, run, skew, i) && Accepts(seen, run, skew, j)
    ensures i < k <= j && Prunes(run, skew, k, run[i].timestamp)
    decreases j
  {
    if m :| i < m < j && run[m].key == run[i].key && Accepts(seen, run, skew, m) {
      k := PruningBetween(seen, run, skew, i, m);
    } else {
      AcceptedAgainIff(seen, run, skew, i, j);
      k :| i < k <= j && Prunes(run, skew, k, run[i].timestamp);
    }
  }

  /**
   The same producer, nonce and timestamp are accepted twice only if an earlier verifier's clock was more than two
   skews ahead of a later one's.
  */
  lemma AcceptedTwiceNeedsClockStep(seen: Seen, run: seq<Attempt>, skew: nat, i: nat, j: nat) returns (k: nat)
    requires forall m :: 0 <= m < |run| ==> InWindow(run[m], skew)
    requires i < j < |run| && run[j].key == run[i].key && run[j].timestamp == run[i].timestamp
    requires Accepts(seen, run, skew, i) && Accepts(seen, run, skew, j)
    ensures i < k < j && run[k].verifier > run[j].verifier + 2 * skew
  {
    k := PruningBetween(seen, run, skew, i, j);
  }

  /** Two skews are the best bound: one more microsecond and the submission is accepted a second time. */
  lemma BoundIsTight(skew: nat, v: int, key: Key, other: Key) returns (run: seq<Attempt>)
    requires key != other
    ensures |run| == 3 && forall m :: 0 <= m < 3 ==> InWindow(run[m], skew)
    ensures run[0].key == run[2].key == key && run[0].timestamp == run[2].timestamp
    ensures run[1].verifier == run[2].verifier + 2 * skew + 1
    ensures Accepts(map[], run, skew, 0) && Accepts(map[], run, skew, 2)
  {
    var late := v + 3 * skew + 1;
    run := [Attempt(key, v, v), Attempt(other, late + skew, late), Attempt(key, v, v + skew)];
    assert run[..0] == [] && Accepts(map[], run, skew, 0);
    assert Prunes(run, skew, 1, run[0].timestamp);
    AcceptedAgainIff(map[], run, skew, 0, 2);
  }
}
