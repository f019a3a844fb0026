/**
 The text form of JSON: `json.dumps` with compact separators and `ensure_ascii=False`, `json.loads` on such
 text, and the sorted-keys canonical form that every digest, signature and equality test of the service uses.
*/
module JsonText {
  import opened Text

  /** A document keeps the insertion order of its objects, as a Python dictionary does. */
  datatype Doc =
    | DNull
    | DBool(b: bool)
    | DInt(n: int)
    | DStr(s: string)
    | DArr(items: seq<Doc>)
    | DObj(members: seq<Member>)

  datatype Member = Member(key: string, val: Doc)

  predicate DistinctKeys(ms: seq<Member>) {
    forall i, j :: 0 <= i < j < |ms| ==> ms[i].key != ms[j].key
  }

  /** Dictionary keys are distinct at every level. */
  predicate Proper(d: Doc) {
    match d
    case DArr(items) => forall i :: 0 <= i < |items| ==> Proper(items[i])
    case DObj(ms) => DistinctKeys(ms) && forall i :: 0 <= i < |ms| ==> Proper(ms[i].val)
    case _ => true
  }

  // ----- printing -----

  function Digit(d: nat): char
    requires d < 10
  {
    "0123456789"[d]
  }

  function NatText(n: nat): (s: string)
    ensures |s| > 0
  {
    if n < 10 then [Digit(n)] else NatText(n / 10) + [Digit(n % 10)]
  }

  function IntText(n: int): string {
    if n < 0 then "-" + NatText(-n) else NatText(n)
  }

  function HexDigit(d: nat): char
    requires d < 16
  {
    "0123456789abcdef"[d]
  }

  /** One character inside a string literal; everything from U+0020 on is verbatim except `"` and `\`. */
  function EscapeChar(c: char): string {
    if c == '"' then "\\\""
    else if c == '\\' then "\\\\"
    else if c == '\n' then "\\n"
    else if c == '\r' then "\\r"
    else if c == '\t' then "\\t"
    else if c == '\U{08}' then "\\b"
    else if c == '\U{0c}' then "\\f"
    else if c < ' ' then "\\u00" + [HexDigit(c as int / 16)] + [HexDigit(c as int % 16)]
    else [c]
  }

  function Escape(s: string): string {
    if |s| == 0 then "" else EscapeChar(s[0]) + Escape(s[1..])
  }

  function Quote(s: string): string {
    "\"" + Escape(s) + "\""
  }

  /** `json.dumps(value, separators=(",", ":"), ensure_ascii=False)` */
  function Dumps(d: Doc): (s: string)
    ensures |s| > 0
    decreases d, 1
  {
    match d
    case DNull => "null"
    case DBool(b) => if b then "true" else "false"
    case DInt(n) => IntText(n)
    case DStr(s) => Quote(s)
    case DArr(items) => "[" + DumpsItems(items) + "]"
    case DObj(ms) => "{" + DumpsMembers(ms) + "}"
  }

  function DumpsItems(items: seq<Doc>): string
    decreases items, 0
  {
    if |items| == 0 then ""
    else if |items| == 1 then Dumps(items[0])
    else Dumps(items[0]) + "," + DumpsItems(items[1..])
  }

  function DumpsMembers(ms: seq<Member>): string
    decreases ms, 0
  {
    if |ms| == 0 then ""
    else
      var first := Quote(ms[0].key) + ":" + Dumps(ms[0].val);
      if |ms| == 1 then first else first + "," + DumpsMembers(ms[1..])
  }

  // ----- reading -----

  predicate IsDigit(c: char) {
    '0' <= c <= '9'
  }

  function TakeDigits(s: string): (r: string)
    ensures r <= s
    ensures |r| < |s| ==> !IsDigit(s[|r|])
    ensures forall i :: 0 <= i < |r| ==> IsDigit(r[i])
  {
    if |s| > 0 && IsDigit(s[0]) then [s[0]] + TakeDigits(s[1..]) else ""
  }

  function DigitsValue(ds: string): nat
    requires forall i :: 0 <= i < |ds| ==> IsDigit(ds[i])
  {
    if |ds| == 0 then 0
    else
      assert IsDigit(ds[|ds| - 1]);
      DigitsValue(ds[..|ds| - 1]) * 10 + (ds[|ds| - 1] as int - '0' as int)
  }

  /** A number of the integer grammar; a fraction or an exponent would make it a float, which is not modelled. */
  function LoadsNat(s: string): (r: Option<(nat, string)>)
    ensures r.Some? ==> |r.value.1| < |s|
  {
    var ds := TakeDigits(s);
    if |ds| == 0 then None
    else
      var used := if ds[0] == '0' then ds[..1] else ds;
      var rest := s[|used|..];
      if |rest| > 0 && rest[0] in ".eE" then None
      else Some((DigitsValue(used), rest))
  }

  function HexValue(c: char): Option<nat> {
    if '0' <= c <= '9' then Some(c as int - '0' as int)
    else if 'a' <= c <= 'f' then Some(c as int - 'a' as int + 10)
    else if 'A' <= c <= 'F' then Some(c as int - 'A' as int + 10)
    else None
  }

  /** The character a backslash escape stands for and the text after it (`s` starts after the backslash). */
  function LoadsEscape(s: string): (r: Option<(char, string)>)
    ensures r.Some? ==> |r.value.1| < |s|
  {
    if |s| == 0 then None
    else if s[0] == '"' || s[0] == '\\' || s[0] == '/' then Some((s[0], s[1..]))
    else if s[0] == 'n' then Some(('\n', s[1..]))
    else if s[0] == 'r' then Some(('\r', s[1..]))
    else if s[0] == 't' then Some(('\t', s[1..]))
    else if s[0] == 'b' then Some(('\U{08}', s[1..]))
    else if s[0] == 'f' then Some(('\U{0c}', s[1..]))
    else if s[0] == 'u' && |s| >= 5 then
      match CodeUnit(s[1], s[2], s[3], s[4])
      case Some(c) => Some((c, s[5..]))
      case None => None
    else None
  }

  /** The character of four hexadecimal digits; surrogates have none. */
  function CodeUnit(w: char, x: char, y: char, z: char): Option<char> {
    match (HexValue(w), HexValue(x), HexValue(y), HexValue(z))
    case (Some(a), Some(b), Some(c), Some(d)) =>
      var code := ((a * 16 + b) * 16 + c) * 16 + d;
      if 0 <= code < 0xD800 || 0xE000 <= code < 0x10000 then Some(code as char) else None
    case _ => None
  }

  /** The rest of a string literal, after its opening quote. Raw control characters are errors. */
  function LoadsChars(s: string): (r: Option<(string, string)>)
    ensures r.Some? ==> |r.value.1| < |s|
    decreases |s|
  {
    if |s| == 0 then None
    else if s[0] == '"' then Some(("", s[1..]))
    else if s[0] == '\\' then
      match LoadsEscape(s[1..])
      case None => None
      case Some((c, rest)) =>
        match LoadsChars(rest)
        case None => None
        case Some((cs, rest')) => Some(([c] + cs, rest'))
    else if s[0] < ' ' then None
    else
      match LoadsChars(s[1..])
      case None => None
      case Some((cs, rest)) => Some(([s[0]] + cs, rest))
  }

  /** `dict(pairs)`: a repeated key keeps its first place and takes the last value. */
  function SetMember(ms: seq<Member>, key: string, val: Doc): seq<Member> {
    if |ms| == 0 then [Member(key, val)]
    else if ms[0].key == key then [Member(key, val)] + ms[1..]
    else [ms[0]] + SetMember(ms[1..], key, val)
  }

  function DictOf(pairs: seq<Member>): seq<Member> {
    if |pairs| == 0 then []
    else SetMember(DictOf(pairs[..|pairs| - 1]), pairs[|pairs| - 1].key, pairs[|pairs| - 1].val)
  }

  function LoadsInt(s: string): (r: Option<(int, string)>)
    ensures r.Some? ==> |r.value.1| < |s|
  {
    if |s| > 0 && s[0] == '-' then
      match LoadsNat(s[1..])
      case None => None
      case Some((n, rest)) => Some((0 - n, rest))
    else
      match LoadsNat(s)
      case None => None
      case Some((n, rest)) => Some((n as int, rest))
  }

  function LoadsScalar(s: string): (r: Option<(Doc, string)>)
    ensures r.Some? ==> |r.value.1| < |s|
  {
    if "null" <= s then Some((DNull, s[4..]))
    else if "true" <= s then Some((DBool(true), s[4..]))
    else if "false" <= s then Some((DBool(false), s[5..]))
    else
      match LoadsInt(s)
      case None => None
      case Some((n, rest)) => Some((DInt(n), rest))
  }

  /** Reads one value from the front of compact text; the second part is the text left over. */
  function LoadsValue(s: string): (r: Option<(Doc, string)>)
    ensures r.Some? ==> |r.value.1| < |s|
    decreases |s|, 0
  {
    if |s| == 0 then None
    else if s[0] == '"' then
      match LoadsChars(s[1..])
      case None => None
      case Some((cs, rest)) => Some((DStr(cs), rest))
    else if s[0] == '[' then
      if |s| > 1 && s[1] == ']' then Some((DArr([]), s[2..]))
      else
        match LoadsItems(s[1..])
        case None => None
        case Some((items, rest)) => Some((DArr(items), rest))
    else if s[0] == '{' then
      if |s| > 1 && s[1] == '}' then Some((DObj([]), s[2..]))
      else
        match LoadsMembers(s[1..])
        case None => None
        case Some((ms, rest)) => Some((DObj(DictOf(ms)), rest))
    else LoadsScalar(s)
  }

  /** Comma-separated values up to and including the closing bracket. */
  function LoadsItems(s: string): (r: Option<(seq<Doc>, string)>)
    ensures r.Some? ==> |r.value.1| < |s|
    decreases |s|, 1
  {
    match LoadsValue(s)
    case None => None
    case Some((d, rest)) =>
      if |rest| > 0 && rest[0] == ']' then Some(([d], rest[1..]))
      else if |rest| > 0 && rest[0] == ',' then
        match LoadsItems(rest[1..])
        case None => None
        case Some((ds, rest')) => Some(([d] + ds, rest'))
      else None
  }

  /** One `"key":value` pair. */
  function LoadsMember(s: string): (r: Option<(Member, string)>)
    ensures r.Some? ==> |r.value.1| < |s|
    decreases |s|, 1
  {
    if |s| == 0 || s[0] != '"' then None
    else
      match LoadsChars(s[1..])
      case None => None
      case Some((key, rest)) =>
        if |rest| == 0 || rest[0] != ':' then None
        else
          match LoadsValue(rest[1..])
          case None => None
          case Some((d, rest')) => Some((Member(key, d), rest'))
  }

  function LoadsMembers(s: string): (r: Option<(seq<Member>, string)>)
    ensures r.Some? ==> |r.value.1| < |s|
    decreases |s|, 2
  {
    match LoadsMember(s)
    case None => None
    case Some((m, rest)) =>
      if |rest| > 0 && rest[0] == '}' then Some(([m], rest[1..]))
      else if |rest| > 0 && rest[0] == ',' then
        match LoadsMembers(rest[1..])
        case None => None
        case Some((ms, rest')) => Some(([m] + ms, rest'))
      else None
  }

  /** `json.loads`: the whole text must be one value. */
  function Loads(s: string): Option<Doc> {
    match LoadsValue(s)
    case Some((d, "")) => Some(d)
    case _ => None
  }

  // ----- reading inverts printing -----

  lemma {:induction false} NatTextDigits(n: nat)
    ensures forall i :: 0 <= i < |NatText(n)| ==> IsDigit(NatText(n)[i])
    ensures DigitsValue(NatText(n)) == n
    ensures NatText(n)[0] == '0' <==> n == 0
  {
    if n >= 10 {
      NatTextDigits(n / 10);
      var s := NatText(n);
      assert s[..|s| - 1] == NatText(n / 10);
      assert s[0] == NatText(n / 10)[0];
    }
  }

  lemma {:induction false} TakeDigitsOfDigits(ds: string, rest: string)
    requires forall i :: 0 <= i < |ds| ==> IsDigit(ds[i])
    requires |rest| > 0 ==> !IsDigit(rest[0])
    ensures TakeDigits(ds + rest) == ds
  {
    if |ds| > 0 {
      assert (ds + rest)[1..] == ds[1..] + rest;
      TakeDigitsOfDigits(ds[1..], rest);
    } else {
      assert ds + rest == rest;
    }
  }

  /** What may follow a value inside compact text. */
  predicate Delimited(rest: string) {
    |rest| > 0 ==> rest[0] in ",]}"
  }

  lemma NatRoundTrip(n: nat, rest: string)
    requires Delimited(rest)
    ensures LoadsNat(NatText(n) + rest) == Some((n, rest))
  {
    NatTextDigits(n);
    TakeDigitsOfDigits(NatText(n), rest);
    var s := NatText(n) + rest;
    if n == 0 {
      assert NatText(n) == "0";
    }
    assert s[|NatText(n)|..] == rest;
  }

  predicate Escaped(c: char) {
    c == '"' || c == '\\' || c < ' '
  }

  lemma HexOfControl(c: char)
    requires c < ' '
    ensures CodeUnit('0', '0', HexDigit(c as int / 16), HexDigit(c as int % 16)) == Some(c)
  {
  }

  lemma HexRoundTrip(c: char, t: string)
    requires c < ' '
    ensures LoadsEscape("u00" + [HexDigit(c as int / 16)] + [HexDigit(c as int % 16)] + t) == Some((c, t))
  {
    HexOfControl(c);
    hide CodeUnit, HexDigit;
    var s := "u00" + [HexDigit(c as int / 16)] + [HexDigit(c as int % 16)] + t;
    assert s[5..] == t && s[0] == 'u' && s[1] == '0' && s[2] == '0';
    assert s[3] == HexDigit(c as int / 16) && s[4] == HexDigit(c as int % 16);
  }

  lemma EscapeRoundTrip(c: char, t: string)
    requires Escaped(c)
    ensures EscapeChar(c)[0] == '\\' && LoadsEscape(EscapeChar(c)[1..] + t) == Some((c, t))
  {
    hide CodeUnit, HexDigit;
    var f := EscapeChar(c)[1..] + t;
    if |EscapeChar(c)| == 2 {
      assert f[1..] == t;
    } else {
      HexRoundTrip(c, t);
      assert EscapeChar(c)[1..] == "u00" + [HexDigit(c as int / 16)] + [HexDigit(c as int % 16)];
    }
  }

  lemma OneCharRoundTrip(c: char, t: string)
    requires LoadsChars(t).Some?
    ensures LoadsChars(EscapeChar(c) + t) == Some(([c] + LoadsChars(t).value.0, LoadsChars(t).value.1))
  {
    var all := EscapeChar(c) + t;
    if Escaped(c) {
      EscapeRoundTrip(c, t);
      hide EscapeChar, LoadsEscape;
      assert all[0] == EscapeChar(c)[0] && all[1..] == EscapeChar(c)[1..] + t;
    } else {
      assert all == [c] + t && all[1..] == t;
    }
  }

  lemma {:induction false} CharsRoundTrip(s: string, rest: string)
    ensures LoadsChars(Escape(s) + "\"" + rest) == Some((s, rest))
  {
    var all := Escape(s) + "\"" + rest;
    if |s| == 0 {
      assert all == "\"" + rest && all[1..] == rest;
    } else {
      var t := Escape(s[1..]) + "\"" + rest;
      CharsRoundTrip(s[1..], rest);
      hide EscapeChar, LoadsEscape, LoadsChars;
      assert all == EscapeChar(s[0]) + t;
      OneCharRoundTrip(s[0], t);
      assert [s[0]] + s[1..] == s;
    }
  }

  lemma QuoteRoundTrip(s: string, rest: string)
    ensures LoadsChars((Quote(s) + rest)[1..]) == Some((s, rest))
  {
    hide LoadsChars, Escape;
    CharsRoundTrip(s, rest);
    assert (Quote(s) + rest)[1..] == Escape(s) + "\"" + rest;
  }

  lemma {:induction false} SetMemberAppends(ms: seq<Member>, m: Member)
    requires forall i :: 0 <= i < |ms| ==> ms[i].key != m.key
    ensures SetMember(ms, m.key, m.val) == ms + [m]
  {
    if |ms| > 0 {
      SetMemberAppends(ms[1..], m);
      assert ms + [m] == [ms[0]] + (ms[1..] + [m]);
    }
  }

  lemma {:induction false} DictOfDistinct(ms: seq<Member>)
    requires DistinctKeys(ms)
    ensures DictOf(ms) == ms
  {
    if |ms| > 0 {
      var n := |ms| - 1;
      DictOfDistinct(ms[..n]);
      SetMemberAppends(ms[..n], ms[n]);
      assert ms == ms[..n] + [ms[n]];
    }
  }

  lemma LiteralRoundTrip(d: Doc, rest: string)
    requires d.DNull? || d.DBool?
    ensures LoadsValue(Dumps(d) + rest) == Some((d, rest))
  {
    var s := Dumps(d) + rest;
    assert s[|Dumps(d)|..] == rest;
  }

  lemma IntRoundTrip(n: int, rest: string)
    requires Delimited(rest)
    ensures LoadsInt(IntText(n) + rest) == Some((n, rest))
    ensures IntText(n)[0] == '-' || IsDigit(IntText(n)[0])
  {
    hide LoadsNat, NatText;
    var s := IntText(n) + rest;
    if n < 0 {
      assert s[1..] == NatText(-n) + rest;
      NatRoundTrip(-n, rest);
    } else {
      NatTextDigits(n);
      assert s[0] == NatText(n)[0] && IsDigit(s[0]);
      NatRoundTrip(n, rest);
    }
  }

  lemma ScalarRoundTrip(d: Doc, rest: string)
    requires d.DInt? || d.DStr?
    requires Delimited(rest)
    ensures LoadsValue(Dumps(d) + rest) == Some((d, rest))
  {
    var s := Dumps(d) + rest;
    if d.DInt? {
      IntRoundTrip(d.n, rest);
      assert s[0] == IntText(d.n)[0];
      assert LoadsValue(s) == LoadsScalar(s);
    } else {
      QuoteRoundTrip(d.s, rest);
      assert s == Quote(d.s) + rest && s[0] == '"';
    }
  }

  lemma {:induction false} ValueRoundTrip(d: Doc, rest: string)
    requires Proper(d) && Delimited(rest)
    ensures LoadsValue(Dumps(d) + rest) == Some((d, rest))
    decreases d, 1
  {
    if d.DArr? {
      ArrayRoundTrip(d.items, rest);
    } else if d.DObj? {
      ObjectRoundTrip(d.members, rest);
    } else if d.DInt? || d.DStr? {
      ScalarRoundTrip(d, rest);
    } else {
      LiteralRoundTrip(d, rest);
    }
  }

  lemma ReadObject(body: string)
    requires |body| > 0 && body[0] != '}'
    requires LoadsMembers(body).Some?
    ensures LoadsValue("{" + body) == Some((DObj(DictOf(LoadsMembers(body).value.0)), LoadsMembers(body).value.1))
  {
    assert ("{" + body)[1..] == body;
  }

  lemma {:induction false} ArrayRoundTrip(items: seq<Doc>, rest: string)
    requires forall i :: 0 <= i < |items| ==> Proper(items[i])
    ensures LoadsValue("[" + DumpsItems(items) + "]" + rest) == Some((DArr(items), rest))
    decreases items, 1
  {
    var s := "[" + DumpsItems(items) + "]" + rest;
    if |items| == 0 {
      assert s == "[]" + rest && s[2..] == rest;
    } else {
      assert s[1..] == DumpsItems(items) + "]" + rest;
      ItemsRoundTrip(items, rest);
      ItemsStart(items, "]" + rest);
      assert s[1] == (DumpsItems(items) + ("]" + rest))[0];
    }
  }

  lemma {:induction false} ObjectRoundTrip(ms: seq<Member>, rest: string)
    requires DistinctKeys(ms) && forall i :: 0 <= i < |ms| ==> Proper(ms[i].val)
    ensures LoadsValue("{" + DumpsMembers(ms) + "}" + rest) == Some((DObj(ms), rest))
    decreases ms, 1
  {
    var s := "{" + DumpsMembers(ms) + "}" + rest;
    if |ms| == 0 {
      assert s == "{}" + rest && s[2..] == rest;
    } else {
      var body := DumpsMembers(ms) + "}" + rest;
      assert s == "{" + body;
      MembersStart(ms);
      MembersRoundTrip(ms, rest);
      DictOfDistinct(ms);
      ReadObject(body);
    }
  }

  /** No value starts with a closing bracket. */
  lemma ItemsStart(items: seq<Doc>, rest: string)
    requires |items| > 0
    ensures (DumpsItems(items) + rest)[0] != ']'
  {
    assert DumpsItems(items)[0] == Dumps(items[0])[0];
    match items[0]
    case DInt(n) => NatTextDigits(if n < 0 then -n else n);
    case _ =>
  }

  lemma MembersStart(ms: seq<Member>)
    requires |ms| > 0
    ensures |DumpsMembers(ms)| > 0 && DumpsMembers(ms)[0] == '"'
  {
    assert Quote(ms[0].key)[0] == '"';
  }

  lemma {:induction false} ItemsRoundTrip(items: seq<Doc>, rest: string)
    requires |items| > 0 && forall i :: 0 <= i < |items| ==> Proper(items[i])
    ensures LoadsItems(DumpsItems(items) + "]" + rest) == Some((items, rest))
    decreases items, 0
  {
    var s := DumpsItems(items) + "]" + rest;
    if |items| == 1 {
      var tail := "]" + rest;
      assert s == Dumps(items[0]) + tail;
      ValueRoundTrip(items[0], tail);
      assert tail[1..] == rest && [items[0]] == items;
    } else {
      var tail := "," + (DumpsItems(items[1..]) + "]" + rest);
      assert s == Dumps(items[0]) + tail;
      ValueRoundTrip(items[0], tail);
      assert tail[1..] == DumpsItems(items[1..]) + "]" + rest;
      ItemsRoundTrip(items[1..], rest);
      assert [items[0]] + items[1..] == items;
    }
  }

  lemma {:induction false} MemberRoundTrip(m: Member, rest: string)
    requires Proper(m.val) && Delimited(rest)
    ensures LoadsMember(Quote(m.key) + ":" + Dumps(m.val) + rest) == Some((m, rest))
    decreases m, 2
  {
    var tail := ":" + (Dumps(m.val) + rest);
    var s := Quote(m.key) + ":" + Dumps(m.val) + rest;
    assert Quote(m.key)[0] == '"';
    hide Quote, Dumps, LoadsChars, LoadsValue, Proper;
    assert s == Quote(m.key) + tail;
    QuoteRoundTrip(m.key, tail);
    assert tail[1..] == Dumps(m.val) + rest;
    ValueRoundTrip(m.val, rest);
  }

  lemma {:induction false} MembersRoundTrip(ms: seq<Member>, rest: string)
    requires |ms| > 0 && forall i :: 0 <= i < |ms| ==> Proper(ms[i].val)
    ensures LoadsMembers(DumpsMembers(ms) + "}" + rest) == Some((ms, rest))
    decreases ms, 0
  {
    hide LoadsMember, Dumps, Quote;
    var s := DumpsMembers(ms) + "}" + rest;
    var first := Quote(ms[0].key) + ":" + Dumps(ms[0].val);
    if |ms| == 1 {
      var tail := "}" + rest;
      assert s == first + tail;
      MemberRoundTrip(ms[0], tail);
      assert tail[1..] == rest && [ms[0]] == ms;
    } else {
      var tail := "," + (DumpsMembers(ms[1..]) + "}" + rest);
      assert s == first + tail;
      MemberRoundTrip(ms[0], tail);
      assert tail[1..] == DumpsMembers(ms[1..]) + "}" + rest;
      MembersRoundTrip(ms[1..], rest);
      assert [ms[0]] + ms[1..] == ms;
    }
  }

  /** Reading what was printed gives the same document back, member order included. */
  lemma LoadsInvertsDumps(d: Doc)
    requires Proper(d)
    ensures Loads(Dumps(d)) == Some(d)
  {
    ValueRoundTrip(d, "");
    assert Dumps(d) + "" == Dumps(d);
  }

  // ----- the exact text -----

  /** Text without quotes, backslashes and control characters is printed as it is, slashes and all. */
  lemma PlainTextIsVerbatim(s: string)
    requires forall i :: 0 <= i < |s| ==> s[i] >= ' ' && s[i] != '"' && s[i] != '\\'
    ensures Dumps(DStr(s)) == "\"" + s + "\""
  {
    PlainEscape(s);
  }

  lemma {:induction false} PlainEscape(s: string)
    requires forall i :: 0 <= i < |s| ==> s[i] >= ' ' && s[i] != '"' && s[i] != '\\'
    ensures Escape(s) == s
  {
    if |s| > 0 {
      PlainEscape(s[1..]);
      assert s == [s[0]] + s[1..];
    }
  }

  lemma {:induction false} EscapeConcat(s: string, t: string)
    ensures Escape(s + t) == Escape(s) + Escape(t)
  {
    if |s| == 0 {
      assert s + t == t;
    } else {
      assert (s + t)[0] == s[0] && (s + t)[1..] == s[1..] + t;
      EscapeConcat(s[1..], t);
    }
  }

  /** The spelling of the seven characters with a short escape (section 7 of RFC 8259). */
  lemma ShortEscapes()
    ensures Escape("\"") == "\\\"" && Escape("\\") == "\\\\" && Escape("\n") == "\\n" && Escape("\r") == "\\r"
    ensures Escape("\t") == "\\t" && Escape("\U{08}") == "\\b" && Escape("\U{0c}") == "\\f"
  {
    OneEscape('"');
    OneEscape('\\');
    OneEscape('\n');
    OneEscape('\r');
    OneEscape('\t');
    OneEscape('\U{08}');
    OneEscape('\U{0c}');
  }

  lemma OneEscape(c: char)
    ensures Escape([c]) == EscapeChar(c)
  {
    assert [c][1..] == "" && Escape([c]) == EscapeChar(c) + Escape("");
  }

  /** Every other control character is `\u00` and two lower-case digits. */
  lemma LongEscapes(c: char)
    requires c < ' ' && c != '\n' && c != '\r' && c != '\t' && c != '\U{08}' && c != '\U{0c}'
    ensures Escape([c]) == "\\u00" + ["0123456789abcdef"[c as int / 16], "0123456789abcdef"[c as int % 16]]
  {
    OneEscape(c);
  }

  function ItemTexts(items: seq<Doc>): (r: seq<string>)
    ensures |r| == |items| && forall i :: 0 <= i < |items| ==> r[i] == Dumps(items[i])
  {
    seq(|items|, i requires 0 <= i < |items| => Dumps(items[i]))
  }

  function MemberTexts(ms: seq<Member>): (r: seq<string>)
    ensures |r| == |ms| && forall i :: 0 <= i < |ms| ==> r[i] == Dumps(DStr(ms[i].key)) + ":" + Dumps(ms[i].val)
  {
    seq(|ms|, i requires 0 <= i < |ms| => Dumps(DStr(ms[i].key)) + ":" + Dumps(ms[i].val))
  }

  /** Arrays are their items between brackets, joined by bare commas. */
  lemma ArrayText(items: seq<Doc>)
    ensures Dumps(DArr([])) == "[]"
    ensures |items| > 0 ==> Dumps(DArr(items)) == "[" + Join(ItemTexts(items), ',') + "]"
  {
    if |items| > 0 { ItemsJoined(items); }
  }

  lemma {:induction false} ItemsJoined(items: seq<Doc>)
    requires |items| > 0
    ensures DumpsItems(items) == Join(ItemTexts(items), ',')
  {
    if |items| > 1 {
      ItemsJoined(items[1..]);
      assert ItemTexts(items)[1..] == ItemTexts(items[1..]);
    }
  }

  /** Objects are their members in braces, each a quoted key, a bare colon and the value, joined by bare commas. */
  lemma ObjectText(ms: seq<Member>)
    ensures Dumps(DObj([])) == "{}"
    ensures |ms| > 0 ==> Dumps(DObj(ms)) == "{" + Join(MemberTexts(ms), ',') + "}"
  {
    if |ms| > 0 { MembersJoined(ms); }
  }

  lemma {:induction false} MembersJoined(ms: seq<Member>)
    requires |ms| > 0
    ensures DumpsMembers(ms) == Join(MemberTexts(ms), ',')
  {
    if |ms| > 1 {
      MembersJoined(ms[1..]);
      assert MemberTexts(ms)[1..] == MemberTexts(ms[1..]);
    }
  }

  /** A digit is the character of that code point, and only the ten are digits. */
  lemma DigitIs(d: nat, c: char)
    requires d < 10
    ensures Digit(d) as int == 48 + d
    ensures IsDigit(c) <==> 48 <= c as int <= 57
    ensures IsDigit(c) ==> DigitsValue([c]) == c as int - 48
  {
    var digits := "0123456789";
    assert digits[d] as int == 48 + d;
  }

  /** The constants, and integers in plain decimal: no leading zero, no plus sign, no minus before zero. */
  lemma ScalarTexts(n: int)
    ensures Dumps(DNull) == "null" && Dumps(DBool(true)) == "true" && Dumps(DBool(false)) == "false"
    ensures Dumps(DInt(0)) == "0"
    ensures n > 0 ==> var s := Dumps(DInt(n));
                      s[0] != '0' && (forall i :: 0 <= i < |s| ==> '0' <= s[i] <= '9') && DigitsValue(s) == n
    ensures n > 0 ==> Dumps(DInt(-n)) == "-" + Dumps(DInt(n))
  {
    if n > 0 { NatTextDigits(n); }
  }

  /**
   What the reader makes of each escape, whatever follows it; it takes a bare or escaped solidus and both hex cases.
  */
  lemma EscapesRead(t: string)
    ensures LoadsEscape("\"" + t) == Some(('"', t)) && LoadsEscape("\\" + t) == Some(('\\', t))
    ensures LoadsEscape("/" + t) == Some(('/', t)) && LoadsEscape("n" + t) == Some(('\n', t))
    ensures LoadsEscape("r" + t) == Some(('\r', t)) && LoadsEscape("t" + t) == Some(('\t', t))
    ensures LoadsEscape("b" + t) == Some(('\U{08}', t)) && LoadsEscape("f" + t) == Some(('\U{0c}', t))
  {
    assert ("\"" + t)[1..] == t && ("\\" + t)[1..] == t && ("/" + t)[1..] == t && ("n" + t)[1..] == t;
    assert ("r" + t)[1..] == t && ("t" + t)[1..] == t && ("b" + t)[1..] == t && ("f" + t)[1..] == t;
  }
}
