/** The per-IP sliding window in front of the public demo route. Times are seconds, as reals. */
module RateLimiter {

  const MAX_PER_IP := 5

  /** `[t for t in hits if t >= cutoff]` */
  function Kept(hits: seq<real>, cutoff: real): (r: seq<real>)
    ensures |r| <= |hits|
  {
    if |hits| == 0 then []
    else
      var before := Kept(hits[..|hits| - 1], cutoff);
      if hits[|hits| - 1] >= cutoff then before + [hits[|hits| - 1]] else before
  }

  /** The list left for the caller's IP and whether the call is refused. */
  function Decide(hits: seq<real>, now: real): (seq<real>, bool) {
    var kept := Kept(hits, now - 60.0);
    if |kept| >= MAX_PER_IP then (kept, true) else (kept + [now], false)
  }

  type Table = map<string, seq<real>>

  function HitsOf(t: Table, ip: string): seq<real> {
    if ip in t then t[ip] else []
  }

  class DemoRateLimiter {
    var state: Table

    constructor ()
      ensures state == map[]
    {
      state := map[];
    }

    /** `_demo_rate_limited` */
    method RateLimited(ip: string, now: real) returns (limited: bool)
      modifies this
      ensures state == old(state)[ip := Decide(HitsOf(old(state), ip), now).0]
      ensures limited == Decide(HitsOf(old(state), ip), now).1
    {
      var hits := Kept(HitsOf(state, ip), now - 60.0);
      limited := |hits| >= MAX_PER_IP;
      if !limited {
        hits := hits + [now];
      }
      state := state[ip := hits];
    }
  }

  // ----- call histories -----

  datatype Call = Call(ip: string, now: real)

  predicate ClockNeverBack(calls: seq<Call>) {
    forall i, j :: 0 <= i < j < |calls| ==> calls[i].now <= calls[j].now
  }

  function After(calls: seq<Call>): Table {
    if |calls| == 0 then map[]
    else
      var t, last := After(calls[..|calls| - 1]), calls[|calls| - 1];
      t[last.ip := Decide(HitsOf(t, last.ip), last.now).0]
  }

  /** Whether the last call of the history is refused. */
  predicate LastRefused(calls: seq<Call>)
    requires |calls| > 0
  {
    var last := calls[|calls| - 1];
    Decide(HitsOf(After(calls[..|calls| - 1]), last.ip), last.now).1
  }

  /** When this IP's accepted calls were made. */
  function Accepted(calls: seq<Call>, ip: string): seq<real> {
    if |calls| == 0 then []
    else
      var before, last := Accepted(calls[..|calls| - 1], ip), calls[|calls| - 1];
      if last.ip == ip && !LastRefused(calls) then before + [last.now] else before
  }

  /** The times inside a closed interval. */
  function Window(times: seq<real>, from: real, to: real): seq<real> {
    if |times| == 0 then []
    else
      var before, last := Window(times[..|times| - 1], from, to), times[|times| - 1];
      if from <= last <= to then before + [last] else before
  }

  lemma {:induction false} KeptTwice(hits: seq<real>, c: real, d: real)
    requires c <= d
    ensures Kept(Kept(hits, c), d) == Kept(hits, d)
  {
    if |hits| > 0 {
      KeptTwice(hits[..|hits| - 1], c, d);
      KeptSnoc(Kept(hits[..|hits| - 1], c), hits[|hits| - 1], d);
    }
  }

  lemma KeptSnoc(hits: seq<real>, t: real, c: real)
    ensures Kept(hits + [t], c) == if t >= c then Kept(hits, c) + [t] else Kept(hits, c)
  {
    assert (hits + [t])[..|hits|] == hits;
  }

  function IfFrom(t: real, c: real): seq<real> {
    if t >= c then [t] else []
  }

  /** What a later cutoff sees of the list a call leaves. */
  lemma DecideThenKept(hits: seq<real>, now: real, c: real)
    requires now - 60.0 <= c
    ensures Kept(Decide(hits, now).0, c)
            == Kept(hits, c) + if Decide(hits, now).1 then [] else IfFrom(now, c)
  {
    KeptTwice(hits, now - 60.0, c);
    KeptSnoc(Kept(hits, now - 60.0), now, c);
    hide Kept;
  }

  lemma AfterLast(calls: seq<Call>, ip: string)
    requires |calls| > 0
    ensures var n := |calls| - 1;
            HitsOf(After(calls), ip)
            == if calls[n].ip == ip then Decide(HitsOf(After(calls[..n]), ip), calls[n].now).0
               else HitsOf(After(calls[..n]), ip)
  {
    hide Decide;
  }

  lemma AcceptedLast(calls: seq<Call>, ip: string, c: real)
    requires |calls| > 0
    ensures var n := |calls| - 1;
            Kept(Accepted(calls, ip), c)
            == Kept(Accepted(calls[..n], ip), c)
               + if calls[n].ip == ip && !LastRefused(calls) then IfFrom(calls[n].now, c) else []
  {
    hide LastRefused;
    var n := |calls| - 1;
    KeptSnoc(Accepted(calls[..n], ip), calls[n].now, c);
    hide Kept;
  }

  /** The stored list and the accepted calls agree from every cutoff no call of this IP has moved past. */
  lemma {:induction false} StoredIsAccepted(calls: seq<Call>, ip: string, c: real)
    requires forall i :: 0 <= i < |calls| && calls[i].ip == ip ==> calls[i].now - 60.0 <= c
    ensures Kept(HitsOf(After(calls), ip), c) == Kept(Accepted(calls, ip), c)
  {
    if |calls| > 0 {
      var n := |calls| - 1;
      assert forall i :: 0 <= i < n ==> calls[..n][i] == calls[i];
      StoredIsAccepted(calls[..n], ip, c);
      AfterLast(calls, ip);
      AcceptedLast(calls, ip, c);
      hide Kept, After, Accepted, Decide, HitsOf;
      if calls[n].ip == ip {
        DecideThenKept(HitsOf(After(calls[..n]), ip), calls[n].now, c);
      }
    }
  }

  lemma {:induction false} AcceptedAreCalls(calls: seq<Call>, ip: string, t: real)
    requires t in Accepted(calls, ip)
    ensures exists i :: 0 <= i < |calls| && calls[i] == Call(ip, t)
  {
    var n := |calls| - 1;
    if t in Accepted(calls[..n], ip) {
      AcceptedAreCalls(calls[..n], ip, t);
      var i :| 0 <= i < n && calls[..n][i] == Call(ip, t);
      assert calls[i] == Call(ip, t);
    } else {
      assert calls[n] == Call(ip, t);
    }
  }

  lemma {:induction false} WindowIsKept(times: seq<real>, from: real, to: real)
    requires forall t :: t in times ==> t <= to
    ensures Window(times, from, to) == Kept(times, from)
  {
    if |times| > 0 {
      var n := |times| - 1;
      assert forall t :: t in times[..n] ==> t in times;
      assert times[n] in times;
      WindowIsKept(times[..n], from, to);
    }
  }

  lemma {:induction false} WindowWithinKept(times: seq<real>, from: real, to: real, c: real)
    requires c <= from
    ensures |Window(times, from, to)| <= |Kept(times, c)|
  {
    if |times| > 0 { WindowWithinKept(times[..|times| - 1], from, to, c); }
  }

  lemma AcceptedNotLater(calls: seq<Call>, ip: string, now: real)
    requires forall i :: 0 <= i < |calls| ==> calls[i].now <= now
    ensures forall t :: t in Accepted(calls, ip) ==> t <= now
  {
    hide Accepted;
    forall t | t in Accepted(calls, ip) ensures t <= now {
      AcceptedAreCalls(calls, ip, t);
      var i :| 0 <= i < |calls| && calls[i] == Call(ip, t);
    }
  }

  /** The last call decides on its IP's accepted calls of the 60 seconds before it. */
  lemma LastSeesAccepted(calls: seq<Call>)
    requires |calls| > 0 && ClockNeverBack(calls)
    ensures var n := |calls| - 1;
            Kept(HitsOf(After(calls[..n]), calls[n].ip), calls[n].now - 60.0)
            == Kept(Accepted(calls[..n], calls[n].ip), calls[n].now - 60.0)
  {
    hide Kept, After, Accepted, HitsOf;
    var n := |calls| - 1;
    var ip, now, before := calls[n].ip, calls[n].now, calls[..n];
    forall i | 0 <= i < |before| && before[i].ip == ip ensures before[i].now - 60.0 <= now - 60.0 {
      assert before[i] == calls[i];
    }
    StoredIsAccepted(before, ip, now - 60.0);
  }

  /** How many of the caller's accepted calls the last call still sees. */
  lemma SeenByLast(calls: seq<Call>)
    requires |calls| > 0 && ClockNeverBack(calls)
    ensures var n := |calls| - 1;
            Kept(HitsOf(After(calls[..n]), calls[n].ip), calls[n].now - 60.0)
            == Window(Accepted(calls[..n], calls[n].ip), calls[n].now - 60.0, calls[n].now)
  {
    hide Kept, After, Accepted, HitsOf, Window;
    var n := |calls| - 1;
    LastSeesAccepted(calls);
    forall i | 0 <= i < n ensures calls[..n][i].now <= calls[n].now {
      assert calls[..n][i] == calls[i];
    }
    AcceptedNotLater(calls[..n], calls[n].ip, calls[n].now);
    WindowIsKept(Accepted(calls[..n], calls[n].ip), calls[n].now - 60.0, calls[n].now);
  }

  /** An accepted call found room: fewer than five accepted calls in any window it falls into. */
  lemma RoomInWindow(calls: seq<Call>, from: real)
    requires |calls| > 0 && ClockNeverBack(calls) && !LastRefused(calls)
    requires from <= calls[|calls| - 1].now <= from + 60.0
    ensures |Window(Accepted(calls[..|calls| - 1], calls[|calls| - 1].ip), from, from + 60.0)| < 5
  {
    var n := |calls| - 1;
    hide Kept, After, Accepted, HitsOf, Window, ClockNeverBack;
    LastSeesAccepted(calls);
    WindowWithinKept(Accepted(calls[..n], calls[n].ip), from, from + 60.0, calls[n].now - 60.0);
  }

  lemma WindowSnoc(times: seq<real>, t: real, from: real, to: real)
    ensures |Window(times + [t], from, to)| == |Window(times, from, to)| + if from <= t <= to then 1 else 0
  {
    assert (times + [t])[..|times|] == times;
  }

  /** Every closed 60-second window holds at most five accepted calls of an IP, over every history. */
  lemma {:induction false} AtMostFivePerWindow(calls: seq<Call>, ip: string, from: real)
    requires ClockNeverBack(calls)
    ensures |Window(Accepted(calls, ip), from, from + 60.0)| <= 5
  {
    if |calls| > 0 {
      var n := |calls| - 1;
      AtMostFivePerWindow(calls[..n], ip, from);
      var now := calls[n].now;
      if calls[n].ip == ip && !LastRefused(calls) {
        WindowSnoc(Accepted(calls[..n], ip), now, from, from + 60.0);
        hide Window, LastRefused;
        if from <= now <= from + 60.0 { RoomInWindow(calls, from); }
      }
    }
  }

  /** A call is refused exactly when five accepted calls of its IP lie in the 60 seconds up to it. */
  lemma RefusedIff(calls: seq<Call>)
    requires |calls| > 0 && ClockNeverBack(calls)
    ensures var n := |calls| - 1;
            LastRefused(calls) <==>
            |Window(Accepted(calls[..n], calls[n].ip), calls[n].now - 60.0, calls[n].now)| == 5
  {
    hide Kept, After, Accepted, HitsOf, Window;
    var n := |calls| - 1;
    SeenByLast(calls);
    assert calls[n].now - 60.0 + 60.0 == calls[n].now;
    AtMostFivePerWindow(calls[..n], calls[n].ip, calls[n].now - 60.0);
  }

  /** The stored list never exceeds five entries, whatever the clock does. */
  lemma {:induction false} StoredAtMostFive(calls: seq<Call>, ip: string)
    ensures |HitsOf(After(calls), ip)| <= 5
  {
    if |calls| > 0 { StoredAtMostFive(calls[..|calls| - 1], ip); }
  }
}
