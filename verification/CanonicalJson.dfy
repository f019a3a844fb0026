/**
 `canonical_json_bytes`: sorted keys, compact separators, UTF-8. The main result is that two documents have the
 same canonical bytes exactly when they are equal as values, so comparing or hashing those bytes compares values.
*/
module CanonicalJson {
  import opened Text
  import opened JsonValue
  import opened JsonText
  import opened Utf8

  /** The value of a document: objects become maps. */
  function ValueOf(d: Doc): Json
    decreases d, 1
  {
    match d
    case DNull => Null
    case DBool(b) => Bool(b)
    case DInt(n) => Int(n)
    case DStr(s) => Str(s)
    case DArr(items) => Arr(ValuesOf(items))
    case DObj(ms) => Obj(FieldsOf(ms))
  }

  function ValuesOf(items: seq<Doc>): (r: seq<Json>)
    ensures |r| == |items|
    ensures forall i :: 0 <= i < |items| ==> r[i] == ValueOf(items[i])
    decreases items, 0
  {
    if |items| == 0 then [] else [ValueOf(items[0])] + ValuesOf(items[1..])
  }

  function FieldsOf(ms: seq<Member>): map<string, Json>
    decreases ms, 0
  {
    if |ms| == 0 then map[]
    else FieldsOf(ms[..|ms| - 1])[ms[|ms| - 1].key := ValueOf(ms[|ms| - 1].val)]
  }

  // ----- sort_keys=True on a document -----

  function InsertMember(m: Member, ms: seq<Member>): seq<Member> {
    if |ms| == 0 || Less(m.key, ms[0].key) then [m] + ms
    else [ms[0]] + InsertMember(m, ms[1..])
  }

  function SortMembers(ms: seq<Member>): seq<Member> {
    if |ms| == 0 then [] else InsertMember(ms[0], SortMembers(ms[1..]))
  }

  /** Every object's members in key order, at every level. */
  function SortKeys(d: Doc): Doc
    decreases d, 1
  {
    match d
    case DArr(items) => DArr(SortItems(items))
    case DObj(ms) => DObj(SortMembers(SortVals(ms)))
    case _ => d
  }

  function SortItems(items: seq<Doc>): (r: seq<Doc>)
    ensures |r| == |items|
    ensures forall i :: 0 <= i < |items| ==> r[i] == SortKeys(items[i])
    decreases items, 0
  {
    if |items| == 0 then [] else [SortKeys(items[0])] + SortItems(items[1..])
  }

  function SortVals(ms: seq<Member>): (r: seq<Member>)
    ensures |r| == |ms|
    ensures forall i :: 0 <= i < |ms| ==> r[i] == Member(ms[i].key, SortKeys(ms[i].val))
    decreases ms, 0
  {
    if |ms| == 0 then [] else [Member(ms[0].key, SortKeys(ms[0].val))] + SortVals(ms[1..])
  }

  /** `json.dumps(obj, sort_keys=True, separators=(",", ":"), ensure_ascii=False).encode("utf-8")` */
  function DumpsCanonical(d: Doc): Bytes {
    Encode(Dumps(SortKeys(d)))
  }

  // ----- the canonical document of a value -----

  function Arrange(v: Json): Doc
    decreases v, 1, 0
  {
    match v
    case Null => DNull
    case Bool(b) => DBool(b)
    case Int(n) => DInt(n)
    case Str(s) => DStr(s)
    case Arr(items) => DArr(ArrangeItems(items))
    case Obj(fields) => DObj(ArrangeFields(v, SortedKeys(fields.Keys)))
  }

  function ArrangeItems(items: seq<Json>): (r: seq<Doc>)
    ensures |r| == |items|
    ensures forall i :: 0 <= i < |items| ==> r[i] == Arrange(items[i])
    decreases items, 0, 0
  {
    if |items| == 0 then [] else [Arrange(items[0])] + ArrangeItems(items[1..])
  }

  function ArrangeFields(v: Json, ks: seq<string>): (r: seq<Member>)
    requires v.Obj? && forall k :: k in ks ==> k in v.fields
    ensures |r| == |ks|
    ensures forall i :: 0 <= i < |ks| ==> r[i] == Member(ks[i], Arrange(v.fields[ks[i]]))
    decreases v, 0, |ks|
  {
    if |ks| == 0 then []
    else
      assert ks[0] in ks;
      [Member(ks[0], Arrange(v.fields[ks[0]]))] + ArrangeFields(v, ks[1..])
  }

  /** The canonical bytes of a value; `CanonicalOfDoc` shows that every document of that value has them. */
  function Canonical(v: Json): Bytes {
    Encode(Dumps(Arrange(v)))
  }

  // ----- facts about fields -----

  lemma {:induction false} FieldsOfDistinct(ms: seq<Member>)
    requires DistinctKeys(ms)
    ensures FieldsOf(ms).Keys == set m | m in ms :: m.key
    ensures forall i :: 0 <= i < |ms| ==> ms[i].key in FieldsOf(ms) && FieldsOf(ms)[ms[i].key] == ValueOf(ms[i].val)
  {
    if |ms| > 0 {
      var n := |ms| - 1;
      FieldsOfDistinct(ms[..n]);
      assert ms == ms[..n] + [ms[n]];
      forall i | 0 <= i < |ms|
        ensures ms[i].key in FieldsOf(ms) && FieldsOf(ms)[ms[i].key] == ValueOf(ms[i].val)
      {
        if i < n { assert ms[..n][i] == ms[i]; }
      }
    }
  }

  /** Members listed by sorted keys that hold a map's values give the map back. */
  lemma FieldsBySortedKeys(ms: seq<Member>, ks: seq<string>, fields: map<string, Json>)
    requires |ms| == |ks| && Ascending(ks) && forall k :: k in ks <==> k in fields
    requires forall i :: 0 <= i < |ks| ==> ms[i].key == ks[i] && ValueOf(ms[i].val) == fields[ks[i]]
    ensures DistinctKeys(ms) && FieldsOf(ms) == fields
  {
    hide ValueOf, FieldsOf, Less;
    forall i, j | 0 <= i < j < |ms| ensures ms[i].key != ms[j].key { LessTotal(ks[i], ks[j]); }
    FieldsOfDistinct(ms);
    forall k | k in fields ensures k in FieldsOf(ms) && FieldsOf(ms)[k] == fields[k] {
      var i :| 0 <= i < |ks| && ks[i] == k;
      assert ms[i].key == k;
    }
    forall k | k in FieldsOf(ms) ensures k in fields {
      var m :| m in ms && m.key == k;
      var i :| 0 <= i < |ms| && ms[i] == m;
      assert ks[i] in ks;
    }
  }

  lemma ArrangedFields(v: Json)
    requires v.Obj?
    requires forall k :: k in v.fields ==> Proper(Arrange(v.fields[k])) && ValueOf(Arrange(v.fields[k])) == v.fields[k]
    ensures var ms := ArrangeFields(v, SortedKeys(v.fields.Keys));
            Proper(DObj(ms)) && FieldsOf(ms) == v.fields
  {
    hide Arrange, ArrangeFields, FieldsOf, ValueOf, SortedKeys, Less;
    var ks := SortedKeys(v.fields.Keys);
    var ms := ArrangeFields(v, ks);
    forall i | 0 <= i < |ks|
      ensures ks[i] in v.fields && Proper(ms[i].val) && ValueOf(ms[i].val) == v.fields[ks[i]]
    {
      assert ks[i] in ks;
    }
    FieldsBySortedKeys(ms, ks, v.fields);
  }

  lemma {:induction false} ArrangeProper(v: Json)
    ensures Proper(Arrange(v)) && ValueOf(Arrange(v)) == v
  {
    match v
    case Arr(items) =>
      forall i | 0 <= i < |items| ensures Proper(Arrange(items[i])) && ValueOf(Arrange(items[i])) == items[i] {
        ArrangeProper(items[i]);
      }
      assert ValuesOf(ArrangeItems(items)) == items;
    case Obj(fields) =>
      forall k | k in fields ensures Proper(Arrange(fields[k])) && ValueOf(Arrange(fields[k])) == fields[k] {
        ArrangeProper(fields[k]);
      }
      ArrangedFields(v);
    case _ =>
  }

  // ----- sorting a document arranges its value -----

  predicate KeysAscend(ms: seq<Member>) {
    forall i, j :: 0 <= i < j < |ms| ==> Less(ms[i].key, ms[j].key)
  }

  lemma {:induction false} InsertMemberSorts(m: Member, ms: seq<Member>)
    requires KeysAscend(ms) && forall i :: 0 <= i < |ms| ==> ms[i].key != m.key
    ensures KeysAscend(InsertMember(m, ms))
    ensures forall x :: x in InsertMember(m, ms) <==> x == m || x in ms
  {
    if |ms| > 0 {
      LessTotal(m.key, ms[0].key);
      var r := InsertMember(m, ms);
      if Less(m.key, ms[0].key) {
        forall j | 0 < j < |r| ensures Less(r[0].key, r[j].key) {
          if j > 1 { LessTransitive(m.key, ms[0].key, ms[j - 1].key); }
        }
      } else {
        InsertMemberSorts(m, ms[1..]);
        var t := InsertMember(m, ms[1..]);
        forall j | 0 < j < |r| ensures Less(r[0].key, r[j].key) {
          assert r[j] == t[j - 1] && t[j - 1] in t;
        }
      }
    }
  }

  lemma {:induction false} SortMembersSorts(ms: seq<Member>)
    requires DistinctKeys(ms)
    ensures KeysAscend(SortMembers(ms))
    ensures forall x :: x in SortMembers(ms) <==> x in ms
  {
    if |ms| > 0 {
      SortMembersSorts(ms[1..]);
      var rest := SortMembers(ms[1..]);
      forall i | 0 <= i < |rest| ensures rest[i].key != ms[0].key {
        assert rest[i] in ms[1..];
      }
      InsertMemberSorts(ms[0], rest);
    }
  }

  lemma {:induction false} SortKeysArranges(d: Doc)
    requires Proper(d)
    ensures SortKeys(d) == Arrange(ValueOf(d))
  {
    match d
    case DArr(items) =>
      forall i | 0 <= i < |items| ensures SortKeys(items[i]) == Arrange(ValueOf(items[i])) {
        SortKeysArranges(items[i]);
      }
      assert SortItems(items) == ArrangeItems(ValuesOf(items));
    case DObj(ms) =>
      forall i | 0 <= i < |ms| ensures SortKeys(ms[i].val) == Arrange(ValueOf(ms[i].val)) {
        SortKeysArranges(ms[i].val);
      }
      ObjectArranged(ms);
    case _ =>
  }

  /** Members in ascending key order that hold the arranged fields of a map are its arrangement. */
  lemma AscendingIsArranged(rs: seq<Member>, fields: map<string, Json>)
    requires KeysAscend(rs)
    requires forall i :: 0 <= i < |rs| ==> rs[i].key in fields && rs[i].val == Arrange(fields[rs[i].key])
    requires forall k :: k in fields ==> exists i :: 0 <= i < |rs| && rs[i].key == k
    ensures rs == ArrangeFields(Obj(fields), SortedKeys(fields.Keys))
  {
    hide Arrange, Less, ArrangeFields, SortedKeys;
    var ks := seq(|rs|, i requires 0 <= i < |rs| => rs[i].key);
    forall k ensures k in ks <==> k in fields.Keys {
      if k in fields {
        var i :| 0 <= i < |rs| && rs[i].key == k;
        assert ks[i] == k;
      }
    }
    SortedKeysUnique(ks, fields.Keys);
    SameMembers(rs, ks, fields);
  }

  lemma SameMembers(rs: seq<Member>, ks: seq<string>, fields: map<string, Json>)
    requires |rs| == |ks| && forall k :: k in ks ==> k in fields
    requires forall i :: 0 <= i < |rs| ==> rs[i].key == ks[i] && ks[i] in fields && rs[i].val == Arrange(fields[ks[i]])
    ensures rs == ArrangeFields(Obj(fields), ks)
  {
  }

  lemma SortedValMembers(ms: seq<Member>, i: nat)
    requires DistinctKeys(ms) && i < |SortMembers(SortVals(ms))|
    ensures var r := SortMembers(SortVals(ms))[i];
            exists j :: 0 <= j < |ms| && r == Member(ms[j].key, SortKeys(ms[j].val))
  {
    var vals := SortVals(ms);
    SortMembersSorts(vals);
    assert SortMembers(vals)[i] in vals;
    var j :| 0 <= j < |vals| && vals[j] == SortMembers(vals)[i];
  }

  lemma SortedValKeys(ms: seq<Member>, k: string)
    requires DistinctKeys(ms) && k in FieldsOf(ms)
    ensures exists i :: 0 <= i < |SortMembers(SortVals(ms))| && SortMembers(SortVals(ms))[i].key == k
  {
    var vals := SortVals(ms);
    SortMembersSorts(vals);
    FieldsOfDistinct(ms);
    var m :| m in ms && m.key == k;
    var j :| 0 <= j < |ms| && ms[j] == m;
    assert vals[j] in SortMembers(vals);
  }

  lemma ObjectArranged(ms: seq<Member>)
    requires DistinctKeys(ms)
    requires forall i :: 0 <= i < |ms| ==> SortKeys(ms[i].val) == Arrange(ValueOf(ms[i].val))
    ensures SortMembers(SortVals(ms)) == ArrangeFields(Obj(FieldsOf(ms)), SortedKeys(FieldsOf(ms).Keys))
  {
    var fields, rs := FieldsOf(ms), SortMembers(SortVals(ms));
    SortMembersSorts(SortVals(ms));
    FieldsOfDistinct(ms);
    forall i | 0 <= i < |rs| ensures rs[i].key in fields && rs[i].val == Arrange(fields[rs[i].key]) {
      SortedValMembers(ms, i);
    }
    forall k | k in fields ensures exists i :: 0 <= i < |rs| && rs[i].key == k {
      SortedValKeys(ms, k);
    }
    AscendingIsArranged(rs, fields);
  }

  /** Key order never matters: the canonical bytes of a document depend on its value only. */
  lemma CanonicalOfDoc(d: Doc)
    requires Proper(d)
    ensures DumpsCanonical(d) == Canonical(ValueOf(d))
  {
    SortKeysArranges(d);
  }

  /** Canonical bytes decide equality of values; this is what `_deep_equal` and the stores compare. */
  lemma CanonicalInjective(v: Json, w: Json)
    ensures Canonical(v) == Canonical(w) <==> v == w
  {
    if Canonical(v) == Canonical(w) {
      EncodeInjective(Dumps(Arrange(v)), Dumps(Arrange(w)));
      ArrangeProper(v);
      ArrangeProper(w);
      LoadsInvertsDumps(Arrange(v));
      LoadsInvertsDumps(Arrange(w));
    }
  }

  /** Two documents print to the same canonical bytes exactly when they are equal as values. */
  lemma CanonicalDecidesEquality(a: Doc, b: Doc)
    requires Proper(a) && Proper(b)
    ensures DumpsCanonical(a) == DumpsCanonical(b) <==> ValueOf(a) == ValueOf(b)
  {
    CanonicalOfDoc(a);
    CanonicalOfDoc(b);
    CanonicalInjective(ValueOf(a), ValueOf(b));
  }

  // ----- the exact bytes -----

  /** The canonical text of a value, before it is encoded. */
  function CanonicalText(v: Json): string {
    Dumps(Arrange(v))
  }

  function CanonicalMembers(fields: map<string, Json>, ks: seq<string>): (r: seq<string>)
    requires forall k :: k in ks ==> k in fields
    ensures |r| == |ks|
    ensures forall i :: 0 <= i < |ks| ==> r[i] == Dumps(DStr(ks[i])) + ":" + CanonicalText(fields[ks[i]])
  {
    seq(|ks|, i requires 0 <= i < |ks| => assert ks[i] in ks; Dumps(DStr(ks[i])) + ":" + CanonicalText(fields[ks[i]]))
  }

  /**
   An object's canonical bytes are the UTF-8 of its members in ascending key order, with no space anywhere; `ks` is
   whatever list of the keys ascends.
  */
  lemma CanonicalOfObject(fields: map<string, Json>, ks: seq<string>)
    requires |ks| > 0 && Ascending(ks) && forall k :: k in ks <==> k in fields
    ensures Canonical(Obj(fields)) == Encode("{" + Join(CanonicalMembers(fields, ks), ',') + "}")
  {
    var ms := ArrangeFields(Obj(fields), ks);
    ArrangedObject(fields, ks);
    ObjectText(ms);
    MembersArranged(fields, ks);
    hide Dumps, Arrange, ArrangeFields, MemberTexts, CanonicalMembers, Join, Ascending;
  }

  lemma ArrangedObject(fields: map<string, Json>, ks: seq<string>)
    requires Ascending(ks) && forall k :: k in ks <==> k in fields
    ensures Arrange(Obj(fields)) == DObj(ArrangeFields(Obj(fields), ks))
  {
    SortedKeysUnique(ks, fields.Keys);
    hide Ascending, SortedKeys;
  }

  lemma MembersArranged(fields: map<string, Json>, ks: seq<string>)
    requires forall k :: k in ks ==> k in fields
    ensures MemberTexts(ArrangeFields(Obj(fields), ks)) == CanonicalMembers(fields, ks)
  {
    hide Dumps, Arrange;
  }

  function CanonicalItems(items: seq<Json>): (r: seq<string>)
    ensures |r| == |items| && forall i :: 0 <= i < |items| ==> r[i] == CanonicalText(items[i])
  {
    seq(|items|, i requires 0 <= i < |items| => CanonicalText(items[i]))
  }

  /** An array's are its items' in the given order, and a text's are the quoted text's. */
  lemma CanonicalOfArray(items: seq<Json>)
    requires |items| > 0
    ensures Canonical(Arr(items)) == Encode("[" + Join(CanonicalItems(items), ',') + "]")
  {
    var docs := ArrangeItems(items);
    ArrayText(docs);
    hide Dumps;
    assert ItemTexts(docs) == CanonicalItems(items);
  }

  /** The canonical bytes of scalars are the UTF-8 of their printed text. */
  lemma CanonicalOfScalar(s: string, n: int, b: bool)
    ensures Canonical(Null) == Encode("null") && Canonical(Bool(b)) == Encode(if b then "true" else "false")
    ensures Canonical(Int(n)) == Encode(Dumps(DInt(n))) && Canonical(Str(s)) == Encode(Dumps(DStr(s)))
    ensures Canonical(Arr([])) == Encode("[]") && Canonical(Obj(map[])) == Encode("{}")
  {
    ArrangedScalars(s, n, b);
    ArrayText([]);
    ObjectText([]);
    ScalarTexts(n);
    hide Arrange, Dumps;
  }

  lemma ArrangedScalars(s: string, n: int, b: bool)
    ensures Arrange(Null) == DNull && Arrange(Bool(b)) == DBool(b) && Arrange(Int(n)) == DInt(n)
    ensures Arrange(Str(s)) == DStr(s) && Arrange(Arr([])) == DArr([]) && Arrange(Obj(map[])) == DObj([])
  {
    assert SortedKeys({}) == [];
  }

  // ----- repeated keys -----

  /** A repeated key takes its last value, as in a dictionary filled pair by pair, and is there once. */
  lemma {:induction false} RepeatedKeys(pairs: seq<Member>)
    ensures DistinctKeys(DictOf(pairs)) && FieldsOf(DictOf(pairs)) == FieldsOf(pairs)
  {
    if |pairs| > 0 {
      var n := |pairs| - 1;
      RepeatedKeys(pairs[..n]);
      SetIsDistinct(DictOf(pairs[..n]), pairs[n]);
      SetFields(DictOf(pairs[..n]), pairs[n]);
    }
  }

  lemma SetIsDistinct(ms: seq<Member>, m: Member)
    requires DistinctKeys(ms)
    ensures DistinctKeys(SetMember(ms, m.key, m.val))
  {
    PlaceOf(ms, m);
    hide SetMember;
  }

  lemma {:induction false} FieldsFront(ms: seq<Member>)
    requires |ms| > 0
    ensures FieldsOf(ms) == map[ms[0].key := ValueOf(ms[0].val)] + FieldsOf(ms[1..])
  {
    var n := |ms| - 1;
    if n == 0 {
      assert FieldsOf(ms[..0]) == map[];
    } else {
      FieldsFront(ms[..n]);
      assert ms[..n][1..] == ms[1..][..n - 1];
    }
  }

  lemma Override<K, V>(first: K, x: V, rest: map<K, V>, key: K, y: V)
    ensures first != key ==> (map[first := x] + rest)[key := y] == map[first := x] + rest[key := y]
    ensures key !in rest ==> (map[key := x] + rest)[key := y] == map[key := y] + rest
  {
  }

  lemma {:induction false} SetFields(ms: seq<Member>, m: Member)
    requires DistinctKeys(ms)
    ensures FieldsOf(SetMember(ms, m.key, m.val)) == FieldsOf(ms)[m.key := ValueOf(m.val)]
  {
    if |ms| == 0 {
      assert FieldsOf([m]) == FieldsOf([])[m.key := ValueOf(m.val)] by { assert [m][..0] == []; }
    } else {
      SetFieldsFront(ms, m);
      if ms[0].key != m.key { SetFields(ms[1..], m); }
      FieldsFront(ms);
      KeyIsGone(ms);
      Override(ms[0].key, ValueOf(ms[0].val), FieldsOf(ms[1..]), m.key, ValueOf(m.val));
      hide *;
    }
  }

  lemma SetFieldsFront(ms: seq<Member>, m: Member)
    requires |ms| > 0
    ensures FieldsOf(SetMember(ms, m.key, m.val))
            == if ms[0].key == m.key then map[m.key := ValueOf(m.val)] + FieldsOf(ms[1..])
               else map[ms[0].key := ValueOf(ms[0].val)] + FieldsOf(SetMember(ms[1..], m.key, m.val))
  {
    var r := SetMember(ms, m.key, m.val);
    FieldsFront(r);
    hide FieldsOf, ValueOf;
    if ms[0].key == m.key {
      assert r[1..] == ms[1..];
    } else {
      assert r[1..] == SetMember(ms[1..], m.key, m.val);
    }
  }

  lemma KeyIsGone(ms: seq<Member>)
    requires |ms| > 0 && DistinctKeys(ms)
    ensures ms[0].key !in FieldsOf(ms[1..])
  {
    FieldsOfDistinct(ms[1..]);
    hide FieldsOf;
  }

  /** Setting a member replaces the one of its key or goes to the end; every other one keeps its place. */
  lemma {:induction false} PlaceOf(ms: seq<Member>, m: Member)
    requires DistinctKeys(ms)
    ensures var r := SetMember(ms, m.key, m.val);
            && |ms| <= |r| <= |ms| + 1 && (exists i :: 0 <= i < |r| && r[i] == m)
            && (|r| == |ms| + 1 ==> r == ms + [m] && forall i :: 0 <= i < |ms| ==> ms[i].key != m.key)
            && (|r| == |ms| ==> forall i :: 0 <= i < |ms| ==> r[i] == if ms[i].key == m.key then m else ms[i])
  {
    var r := SetMember(ms, m.key, m.val);
    if |ms| == 0 {
      assert r[0] == m;
    } else if ms[0].key == m.key {
      assert r[0] == m;
    } else {
      PlaceOf(ms[1..], m);
      var rest := SetMember(ms[1..], m.key, m.val);
      var i :| 0 <= i < |rest| && rest[i] == m;
      assert r[i + 1] == m && ms == [ms[0]] + ms[1..];
      forall j | 0 <= j < |ms| ensures |rest| == |ms| ==> ms[j].key != m.key {
        if j > 0 { assert ms[1..][j - 1] == ms[j]; }
      }
      forall j | 0 <= j < |ms| ensures |r| == |ms| ==> r[j] == if ms[j].key == m.key then m else ms[j] {
        if j > 0 { assert ms[1..][j - 1] == ms[j] && r[j] == rest[j - 1]; }
      }
    }
  }
}
