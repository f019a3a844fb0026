/** The pinned producer registry: who may submit what about whom. */
module ProducerRegistry {
  import opened Text

  datatype Entry = Entry(
    producerId: string, publicKey: string, submissionTypes: seq<string>, namespaces: seq<string>,
    routes: seq<string>, status: string, validFrom: Option<string>, validUntil: Option<string>)

  datatype Registry = Registry(entries: seq<Entry>, sha256: string, byId: map<string, Entry>)

  datatype RegistryError =
    | Malformed | UnknownProducer | Lifecycle | NotYetValid | Expired | OutOfScope
    | UnreadableDate // a validity bound that is not ISO 8601: an uncaught ValueError

  const LIFECYCLE_STATES := ["reserved", "active", "suspended", "retired", "revoked"]

  predicate DistinctIds(entries: seq<Entry>) {
    forall i, j :: 0 <= i < j < |entries| ==> entries[i].producerId != entries[j].producerId
  }

  /** `{e.producer_id: e for e in entries}` */
  function Index(entries: seq<Entry>): map<string, Entry> {
    if |entries| == 0 then map[]
    else Index(entries[..|entries| - 1])[entries[|entries| - 1].producerId := entries[|entries| - 1]]
  }

  /** The end of `load_pinned_registry`: known statuses and no producer listed twice. */
  function Load(entries: seq<Entry>, sha256: string): Result<Registry, RegistryError> {
    if exists i :: 0 <= i < |entries| && entries[i].status !in LIFECYCLE_STATES then Err(Malformed)
    else if !DistinctIds(entries) then Err(Malformed)
    else Ok(Registry(entries, sha256, Index(entries)))
  }

  /** A document loads exactly when every status is one of the five and no producer is listed twice. */
  lemma LoadsIff(entries: seq<Entry>, sha256: string)
    ensures Load(entries, sha256).Ok? <==>
            && (forall e :: e in entries ==>
                  || e.status == "reserved" || e.status == "active" || e.status == "suspended"
                  || e.status == "retired" || e.status == "revoked")
            && forall i, j :: 0 <= i < j < |entries| ==> entries[i].producerId != entries[j].producerId
    ensures Load(entries, sha256).Ok? ==>
              Load(entries, sha256).value.sha256 == sha256 && Load(entries, sha256).value.entries == entries
  {
    assert LIFECYCLE_STATES[0] == "reserved" && LIFECYCLE_STATES[1] == "active";
    assert LIFECYCLE_STATES[2] == "suspended" && LIFECYCLE_STATES[3] == "retired" && LIFECYCLE_STATES[4] == "revoked";
    assert |LIFECYCLE_STATES| == 5;
    forall i | 0 <= i < |entries| ensures entries[i] in entries {}
  }

  lemma {:induction false} IndexIsExact(entries: seq<Entry>, id: string)
    requires DistinctIds(entries)
    ensures id in Index(entries) ==> Index(entries)[id] in entries && Index(entries)[id].producerId == id
    ensures forall e :: e in entries && e.producerId == id ==> id in Index(entries) && Index(entries)[id] == e
  {
    if |entries| > 0 {
      var n := |entries| - 1;
      IndexIsExact(entries[..n], id);
      assert entries == entries[..n] + [entries[n]];
      forall e | e in entries && e.producerId == id ensures id in Index(entries) && Index(entries)[id] == e {
        if e != entries[n] { assert e in entries[..n]; }
      }
    }
  }

  /** A loaded registry finds an entry by id exactly when the document lists it. */
  lemma LoadedIndex(entries: seq<Entry>, sha256: string, id: string, e: Entry)
    requires Load(entries, sha256).Ok?
    ensures var r := Load(entries, sha256).value;
            (id in r.byId && r.byId[id] == e) <==> (e in entries && e.producerId == id)
  {
    IndexIsExact(entries, id);
  }

  // ----- subject namespaces -----

  function WithoutLast(s: string): string
    requires |s| > 0
  {
    s[..|s| - 1]
  }

  predicate NamespaceMatches(subject: string, ns: string) {
    if EndsWith(ns, '*') then
      var prefix := WithoutLast(ns);
      if EndsWith(prefix, ':') then StartsWith(subject, prefix)
      else subject == prefix || StartsWith(subject, prefix + ":")
    else subject == ns
  }

  predicate SubjectInNamespace(subject: string, namespaces: seq<string>) {
    |namespaces| > 0 && (NamespaceMatches(subject, namespaces[0]) || SubjectInNamespace(subject, namespaces[1..]))
  }

  /** The colon-separated segments a wildcard stands for, and whether it needs at least one more. */
  predicate SegmentsMatch(subject: string, ns: string) {
    var segments := Split(subject, ':');
    if EndsWith(ns, '*') then
      var prefix := WithoutLast(ns);
      if EndsWith(prefix, ':') then Split(WithoutLast(prefix), ':') < segments
      else Split(prefix, ':') <= segments
    else segments == Split(ns, ':')
  }

  lemma {:induction false} JoinConcat(a: seq<string>, b: seq<string>, sep: char)
    requires |a| > 0 && |b| > 0
    ensures Join(a + b, sep) == Join(a, sep) + [sep] + Join(b, sep)
  {
    if |a| == 1 {
      assert (a + b)[1..] == b;
    } else {
      assert (a + b)[1..] == a[1..] + b;
      JoinConcat(a[1..], b, sep);
      assert a[0] + [sep] + (Join(a[1..], sep) + [sep] + Join(b, sep))
          == (a[0] + [sep] + Join(a[1..], sep)) + [sep] + Join(b, sep);
    }
  }

  /** Starting with `q:` is having the segments of `q` and at least one more. */
  lemma ProperSegmentPrefix(subject: string, q: string)
    ensures StartsWith(subject, q + ":") <==> Split(q, ':') < Split(subject, ':')
  {
    hide Split, Join;
    var qs, ss := Split(q, ':'), Split(subject, ':');
    if StartsWith(subject, q + ":") {
      var t := subject[|q| + 1..];
      assert subject == q + ":" + t;
      SplitAtSeparator(q, t, ':');
    }
    if qs < ss {
      var rest := ss[|qs|..];
      assert ss == qs + rest;
      JoinConcat(qs, rest, ':');
      JoinOfSplit(q, ':');
      JoinOfSplit(subject, ':');
      assert q + ":" <= subject;
    }
  }

  lemma SameSegments(s: string, t: string)
    ensures s == t <==> Split(s, ':') == Split(t, ':')
  {
    JoinOfSplit(s, ':');
    JoinOfSplit(t, ':');
  }

  /** The string tests are exactly the segment reading, for every subject and namespace. */
  lemma MatchingIsBySegments(subject: string, ns: string)
    ensures NamespaceMatches(subject, ns) <==> SegmentsMatch(subject, ns)
  {
    if EndsWith(ns, '*') {
      var prefix := WithoutLast(ns);
      if EndsWith(prefix, ':') {
        assert prefix == WithoutLast(prefix) + ":";
        ProperSegmentPrefix(subject, WithoutLast(prefix));
      } else {
        ProperSegmentPrefix(subject, prefix);
        SameSegments(subject, prefix);
      }
    } else {
      SameSegments(subject, ns);
    }
  }

  lemma {:induction false} InNamespaceIff(subject: string, namespaces: seq<string>)
    ensures SubjectInNamespace(subject, namespaces) <==>
            exists i :: 0 <= i < |namespaces| && SegmentsMatch(subject, namespaces[i])
  {
    if |namespaces| > 0 {
      MatchingIsBySegments(subject, namespaces[0]);
      InNamespaceIff(subject, namespaces[1..]);
      if i :| 0 <= i < |namespaces[1..]| && SegmentsMatch(subject, namespaces[1..][i]) {
        assert SegmentsMatch(subject, namespaces[i + 1]);
      }
      if i :| 0 <= i < |namespaces| && SegmentsMatch(subject, namespaces[i]) && i > 0 {
        assert namespaces[1..][i - 1] == namespaces[i];
      }
    }
  }

  // ----- resolution -----

  function Present(date: Option<string>): bool {
    date.Some? && date.value != ""
  }

  /** `resolve_and_authorize_producer`; `parse` is the ISO 8601 reader. */
  function Resolve(r: Registry, parse: string -> Option<int>, id: string, route: string, kind: string,
                   subject: string, now: int): Result<Entry, RegistryError>
  {
    if id !in r.byId then Err(UnknownProducer)
    else
      var e := r.byId[id];
      if e.status != "active" then Err(Lifecycle)
      else if Present(e.validFrom) && parse(e.validFrom.value).None? then Err(UnreadableDate)
      else if Present(e.validFrom) && now < parse(e.validFrom.value).value then Err(NotYetValid)
      else if Present(e.validUntil) && parse(e.validUntil.value).None? then Err(UnreadableDate)
      else if Present(e.validUntil) && now >= parse(e.validUntil.value).value then Err(Expired)
      else if route !in e.routes then Err(OutOfScope)
      else if kind !in e.submissionTypes then Err(OutOfScope)
      else if !SubjectInNamespace(subject, e.namespaces) then Err(OutOfScope)
      else Ok(e)
  }

  /**
   What an entry must allow: it is active, inside its validity, and scoped to the route, type and subject segments.
  */
  predicate Authorizes(e: Entry, parse: string -> Option<int>, route: string, kind: string, subject: string, now: int) {
    && e.status == "active" && route in e.routes && kind in e.submissionTypes
    && (exists i :: 0 <= i < |e.namespaces| && SegmentsMatch(subject, e.namespaces[i]))
    && (Present(e.validFrom) ==> parse(e.validFrom.value).Some? && parse(e.validFrom.value).value <= now)
    && (Present(e.validUntil) ==> parse(e.validUntil.value).Some? && now < parse(e.validUntil.value).value)
  }

  /** A producer is resolved to an entry exactly when the registry finds it under that id and it authorizes the rest. */
  lemma ResolvedIff(r: Registry, parse: string -> Option<int>, id: string, route: string, kind: string,
                    subject: string, now: int, e: Entry)
    ensures Resolve(r, parse, id, route, kind, subject, now) == Ok(e) <==>
            id in r.byId && r.byId[id] == e && Authorizes(e, parse, route, kind, subject, now)
  {
    if id in r.byId { InNamespaceIff(subject, r.byId[id].namespaces); }
    hide SegmentsMatch, SubjectInNamespace;
  }

  /** A resolved producer is the one listed entry of that id, and authorizes the submission. */
  lemma ResolvedIsAuthorized(entries: seq<Entry>, sha256: string, parse: string -> Option<int>, id: string,
                             route: string, kind: string, subject: string, now: int)
    requires Load(entries, sha256).Ok?
    requires Resolve(Load(entries, sha256).value, parse, id, route, kind, subject, now).Ok?
    ensures var e := Resolve(Load(entries, sha256).value, parse, id, route, kind, subject, now).value;
            && e in entries && e.producerId == id
            && (forall f :: f in entries && f.producerId == id ==> f == e)
            && Authorizes(e, parse, route, kind, subject, now)
  {
    IndexIsExact(entries, id);
    var r := Load(entries, sha256).value;
    ResolvedIff(r, parse, id, route, kind, subject, now, Resolve(r, parse, id, route, kind, subject, now).value);
  }

  /** Why a producer is not resolved: the first of these that applies, in this order. */
  lemma RejectionOrder(r: Registry, parse: string -> Option<int>, id: string, route: string, kind: string,
                       subject: string, now: int)
    ensures var result := Resolve(r, parse, id, route, kind, subject, now);
            && (result == Err(UnknownProducer) <==> id !in r.byId)
            && (id in r.byId ==> (result == Err(Lifecycle) <==> r.byId[id].status != "active"))
            && (id in r.byId && r.byId[id].status == "active" ==>
                  var from, until := r.byId[id].validFrom, r.byId[id].validUntil;
                  var begins := if Present(from) then parse(from.value) else Some(now);
                  var ends := if Present(until) then parse(until.value) else Some(now + 1);
                  && (result == Err(UnreadableDate) <==> begins.None? || (begins.value <= now && ends.None?))
                  && (result == Err(NotYetValid) <==> begins.Some? && now < begins.value)
                  && (result == Err(Expired) <==>
                      begins.Some? && begins.value <= now && ends.Some? && ends.value <= now))
  {
    hide SubjectInNamespace;
  }
}
