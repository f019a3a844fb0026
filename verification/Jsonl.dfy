/**
 The append-only `*_master.jsonl` ledgers as text: one compact `json.dumps` line per record, read back with
 `splitlines`, `strip` and `json.loads`. `json.dumps` escapes every line end below U+0020 but leaves U+0085, U+2028
 and U+2029 as they are, and `splitlines` treats those as line ends; the read returns the records exactly when no
 string holds one of the three.
*/
module Jsonl {
  import opened Text
  import opened JsonText

  /** The line boundaries of `str.splitlines`. */
  predicate IsLineBreak(c: char) {
    c == '\n' || c == '\r' || c == '\U{0b}' || c == '\U{0c}' || c == '\U{1c}' || c == '\U{1d}' || c == '\U{1e}'
    || UnescapedBreak(c)
  }

  predicate UnescapedBreak(c: char) {
    c == '\U{85}' || c == '\U{2028}' || c == '\U{2029}'
  }

  /** The whitespace of `str.strip`. */
  predicate IsSpace(c: char) {
    '\t' <= c <= '\r' || '\U{1c}' <= c <= ' ' || c == '\U{85}' || c == '\U{a0}' || c == '\U{1680}'
    || '\U{2000}' <= c <= '\U{200a}' || c == '\U{2028}' || c == '\U{2029}' || c == '\U{202f}' || c == '\U{205f}'
    || c == '\U{3000}'
  }

  function FirstBreak(s: string): (i: nat)
    ensures i <= |s|
    ensures forall k :: 0 <= k < i ==> !IsLineBreak(s[k])
    ensures i < |s| ==> IsLineBreak(s[i])
  {
    if |s| == 0 || IsLineBreak(s[0]) then 0 else 1 + FirstBreak(s[1..])
  }

  function SplitLines(s: string): seq<string> {
    if |s| == 0 then []
    else
      var i := FirstBreak(s);
      if i == |s| then [s]
      else if s[i] == '\r' && i + 1 < |s| && s[i + 1] == '\n' then [s[..i]] + SplitLines(s[i + 2..])
      else [s[..i]] + SplitLines(s[i + 1..])
  }

  function StripRight(s: string): (r: string)
    ensures r <= s
  {
    if |s| > 0 && IsSpace(s[|s| - 1]) then StripRight(s[..|s| - 1]) else s
  }

  function Strip(s: string): string {
    if |s| > 0 && IsSpace(s[0]) then Strip(s[1..]) else StripRight(s)
  }

  /** What one line contributes: nothing when blank, one record when it loads. */
  function ReadLine(raw: string): Option<seq<Doc>> {
    var line := Strip(raw);
    if line == "" then Some([])
    else
      match Loads(line)
      case None => None
      case Some(d) => Some([d])
  }

  function Chain(a: Option<seq<Doc>>, b: Option<seq<Doc>>): Option<seq<Doc>> {
    if a.Some? && b.Some? then Some(a.value + b.value) else None
  }

  /** The records of the lines in order; one line that does not load makes the whole read fail. */
  function ReadLines(lines: seq<string>): Option<seq<Doc>> {
    if |lines| == 0 then Some([]) else Chain(ReadLine(lines[0]), ReadLines(lines[1..]))
  }

  /** The file after these records were appended to an absent or empty one. */
  function FileText(ds: seq<Doc>): string {
    if |ds| == 0 then "" else Dumps(ds[0]) + "\n" + FileText(ds[1..])
  }

  lemma {:induction false} FileTextAppend(ds: seq<Doc>, d: Doc)
    ensures FileText(ds + [d]) == FileText(ds) + Dumps(d) + "\n"
  {
    if |ds| == 0 {
      assert ds + [d] == [d];
      assert FileText([d]) == Dumps(d) + "\n" + FileText([]);
    } else {
      assert (ds + [d])[1..] == ds[1..] + [d];
      FileTextAppend(ds[1..], d);
    }
  }

  lemma ChainAssociative(a: Option<seq<Doc>>, b: Option<seq<Doc>>, c: Option<seq<Doc>>)
    ensures Chain(a, Chain(b, c)) == Chain(Chain(a, b), c)
  {
    if a.Some? && b.Some? && c.Some? {
      assert a.value + (b.value + c.value) == (a.value + b.value) + c.value;
    }
  }

  lemma {:induction false} ReadLinesAppend(xs: seq<string>, ys: seq<string>)
    ensures ReadLines(xs + ys) == Chain(ReadLines(xs), ReadLines(ys))
  {
    if |xs| == 0 {
      assert xs + ys == ys;
      if ReadLines(ys).Some? { assert [] + ReadLines(ys).value == ReadLines(ys).value; }
    } else {
      assert (xs + ys)[1..] == xs[1..] + ys;
      ReadLinesAppend(xs[1..], ys);
      ChainAssociative(ReadLine(xs[0]), ReadLines(xs[1..]), ReadLines(ys));
    }
  }

  lemma ReadLinesSingle(line: string)
    ensures ReadLines([line]) == ReadLine(line)
  {
    assert [line][1..] == [];
    if ReadLine(line).Some? { assert ReadLine(line).value + [] == ReadLine(line).value; }
  }

  lemma ReadNothing()
    ensures ReadLines([]) == Some([])
  {
  }

  /** A ledger file: text on disk, grown only at its end. */
  class JsonlFile {
    var text: string

    constructor ()
      ensures text == FileText([])
    {
      text := "";
    }

    /** `_append_jsonl` */
    method Append(record: Doc, ghost written: seq<Doc>)
      requires text == FileText(written)
      modifies this
      ensures text == FileText(written + [record])
    {
      FileTextAppend(written, record);
      text := text + (Dumps(record) + "\n");
      assert text == FileText(written) + Dumps(record) + "\n";
    }

    /** `_read_jsonl`: `None` is the `JSONDecodeError` a bad line raises. */
    method Read() returns (out: Option<seq<Doc>>)
      ensures out == ReadLines(SplitLines(text))
    {
      hide SplitLines, ReadLines, Strip, Loads;
      assert ReadLines([]) == Some([]) by { ReadNothing(); }
      var lines := SplitLines(text);
      var docs: seq<Doc> := [];
      assert lines[..0] == [];
      var i := 0;
      while i < |lines|
        invariant 0 <= i <= |lines|
        invariant ReadLines(lines[..i]) == Some(docs)
      {
        var line := Strip(lines[i]);
        assert lines[..i + 1] == lines[..i] + [lines[i]];
        ReadLinesAppend(lines[..i], [lines[i]]);
        ReadLinesSingle(lines[i]);
        assert ReadLines(lines[..i + 1]) == Chain(Some(docs), ReadLine(lines[i]));
        if line != "" {
          match Loads(line)
          case None =>
            assert lines == lines[..i + 1] + lines[i + 1..];
            ReadLinesAppend(lines[..i + 1], lines[i + 1..]);
            return None;
          case Some(d) => docs := docs + [d];
        } else {
          assert docs + [] == docs;
        }
        i := i + 1;
      }
      assert lines[..i] == lines;
      out := Some(docs);
    }
  }

  // ----- which documents print on one line -----

  predicate CleanText(s: string) {
    forall i :: 0 <= i < |s| ==> !UnescapedBreak(s[i])
  }

  /** No string or key of the document holds U+0085, U+2028 or U+2029. */
  predicate Clean(d: Doc)
    decreases d
  {
    match d
    case DStr(s) => CleanText(s)
    case DArr(items) => forall i :: 0 <= i < |items| ==> Clean(items[i])
    case DObj(ms) => forall i :: 0 <= i < |ms| ==> CleanText(ms[i].key) && Clean(ms[i].val)
    case _ => true
  }

  predicate OneLine(s: string) {
    forall i :: 0 <= i < |s| ==> !IsLineBreak(s[i])
  }

  lemma OneLineConcat(s: string, t: string)
    ensures OneLine(s + t) <==> OneLine(s) && OneLine(t)
  {
    if OneLine(s + t) {
      forall i | 0 <= i < |s| ensures !IsLineBreak(s[i]) { assert (s + t)[i] == s[i]; }
      forall i | 0 <= i < |t| ensures !IsLineBreak(t[i]) { assert (s + t)[|s| + i] == t[i]; }
    }
  }

  lemma EscapeCharOneLine(c: char)
    ensures OneLine(EscapeChar(c)) <==> !UnescapedBreak(c)
  {
    if UnescapedBreak(c) {
      assert IsLineBreak(EscapeChar(c)[0]);
    } else if c < ' ' {
      HexIsNoBreak(c as int / 16);
      HexIsNoBreak(c as int % 16);
      hide HexDigit;
    }
  }

  lemma HexIsNoBreak(d: nat)
    requires d < 16
    ensures !IsLineBreak(HexDigit(d))
  {
  }

  lemma {:induction false} EscapeOneLine(s: string)
    ensures OneLine(Escape(s)) <==> CleanText(s)
  {
    if |s| > 0 {
      EscapeOneLine(s[1..]);
      EscapeCharOneLine(s[0]);
      OneLineConcat(EscapeChar(s[0]), Escape(s[1..]));
      assert forall i :: 1 <= i < |s| ==> s[i] == s[1..][i - 1];
    }
  }

  lemma QuoteOneLine(s: string)
    ensures OneLine(Quote(s)) <==> CleanText(s)
  {
    EscapeOneLine(s);
    OneLineConcat("\"", Escape(s));
    OneLineConcat("\"" + Escape(s), "\"");
  }

  lemma {:induction false} NatOneLine(n: nat)
    ensures OneLine(NatText(n))
  {
    if n >= 10 { NatOneLine(n / 10); }
  }

  lemma PunctuationOneLine()
    ensures OneLine("") && OneLine("null") && OneLine("true") && OneLine("false") && OneLine("-")
    ensures OneLine("[") && OneLine("]") && OneLine("{") && OneLine("}") && OneLine(",") && OneLine(":")
  {
  }

  lemma {:induction false} DumpsOneLine(d: Doc)
    ensures OneLine(Dumps(d)) <==> Clean(d)
    decreases d, 1
  {
    PunctuationOneLine();
    hide OneLine, NatText, Quote, DumpsItems, DumpsMembers;
    match d
    case DInt(n) =>
      NatOneLine(if n < 0 then -n else n);
      OneLineConcat("-", NatText(if n < 0 then -n else n));
    case DStr(s) => QuoteOneLine(s);
    case DArr(items) =>
      ItemsOneLine(items);
      OneLineConcat("[", DumpsItems(items));
      OneLineConcat("[" + DumpsItems(items), "]");
    case DObj(ms) =>
      MembersOneLine(ms);
      OneLineConcat("{", DumpsMembers(ms));
      OneLineConcat("{" + DumpsMembers(ms), "}");
    case _ =>
  }

  lemma {:induction false} ItemsOneLine(items: seq<Doc>)
    ensures OneLine(DumpsItems(items)) <==> forall i :: 0 <= i < |items| ==> Clean(items[i])
    decreases items, 0
  {
    PunctuationOneLine();
    hide OneLine, Dumps, Clean;
    if |items| > 0 {
      DumpsOneLine(items[0]);
      ItemsOneLine(items[1..]);
      OneLineConcat(Dumps(items[0]), ",");
      OneLineConcat(Dumps(items[0]) + ",", DumpsItems(items[1..]));
      assert forall i :: 1 <= i < |items| ==> items[i] == items[1..][i - 1];
    }
  }

  lemma {:induction false} MembersOneLine(ms: seq<Member>)
    ensures OneLine(DumpsMembers(ms)) <==>
            forall i :: 0 <= i < |ms| ==> CleanText(ms[i].key) && Clean(ms[i].val)
    decreases ms, 0
  {
    PunctuationOneLine();
    hide OneLine, Dumps, Clean, Quote, CleanText;
    if |ms| > 0 {
      QuoteOneLine(ms[0].key);
      DumpsOneLine(ms[0].val);
      MembersOneLine(ms[1..]);
      var k, v := Quote(ms[0].key), Dumps(ms[0].val);
      OneLineConcat(k, ":");
      OneLineConcat(k + ":", v);
      OneLineConcat(k + ":" + v, ",");
      OneLineConcat(k + ":" + v + ",", DumpsMembers(ms[1..]));
      assert forall i :: 1 <= i < |ms| ==> ms[i] == ms[1..][i - 1];
    }
  }

  // ----- more text after a complete value does not change how it is read -----

  lemma {:induction false} TakeDigitsExtends(s: string, t: string)
    ensures |TakeDigits(s)| < |s| ==> TakeDigits(s + t) == TakeDigits(s)
    ensures TakeDigits(s) <= TakeDigits(s + t)
  {
    if |s| > 0 && IsDigit(s[0]) {
      assert (s + t)[1..] == s[1..] + t;
      TakeDigitsExtends(s[1..], t);
    }
  }

  lemma NatExtends(s: string, t: string)
    requires LoadsNat(s).Some? && LoadsNat(s).value.1 != ""
    ensures LoadsNat(s + t) == Some((LoadsNat(s).value.0, LoadsNat(s).value.1 + t))
  {
    TakeDigitsExtends(s, t);
    var ds, es := TakeDigits(s), TakeDigits(s + t);
    if ds[0] == '0' {
      assert es[..1] == ds[..1];
      assert (s + t)[1..] == s[1..] + t;
    } else {
      assert (s + t)[|ds|..] == s[|ds|..] + t;
    }
  }

  lemma EscapeExtends(s: string, t: string)
    requires LoadsEscape(s).Some?
    ensures LoadsEscape(s + t) == Some((LoadsEscape(s).value.0, LoadsEscape(s).value.1 + t))
  {
    hide CodeUnit;
    assert (s + t)[1..] == s[1..] + t;
    if |s| >= 5 { assert (s + t)[5..] == s[5..] + t; }
  }

  lemma {:induction false} CharsExtend(s: string, t: string)
    requires LoadsChars(s).Some?
    ensures LoadsChars(s + t) == Some((LoadsChars(s).value.0, LoadsChars(s).value.1 + t))
    decreases |s|
  {
    assert (s + t)[0] == s[0] && (s + t)[1..] == s[1..] + t;
    if s[0] == '\\' {
      EscapeExtends(s[1..], t);
      CharsExtend(LoadsEscape(s[1..]).value.1, t);
    } else if s[0] != '"' {
      CharsExtend(s[1..], t);
    }
  }

  lemma IntExtends(s: string, t: string)
    requires LoadsInt(s).Some? && LoadsInt(s).value.1 != ""
    ensures LoadsInt(s + t) == Some((LoadsInt(s).value.0, LoadsInt(s).value.1 + t))
  {
    assert (s + t)[0] == s[0];
    if s[0] == '-' {
      assert (s + t)[1..] == s[1..] + t;
      NatExtends(s[1..], t);
    } else {
      NatExtends(s, t);
    }
  }

  predicate IsLiteral(s: string) {
    "null" <= s || "true" <= s || "false" <= s
  }

  lemma IntIsNotLiteral(s: string, t: string)
    requires LoadsInt(s).Some?
    ensures |s| > 0 && !IsLiteral(s) && !IsLiteral(s + t)
  {
    assert s[0] == '-' || (TakeDigits(s) <= s && TakeDigits(s)[0] == s[0]);
    assert (s + t)[0] == s[0];
  }

  lemma ScalarExtends(s: string, t: string)
    requires LoadsScalar(s).Some? && LoadsScalar(s).value.1 != ""
    ensures LoadsScalar(s + t) == Some((LoadsScalar(s).value.0, LoadsScalar(s).value.1 + t))
  {
    if "null" <= s || "true" <= s {
      assert (s + t)[4..] == s[4..] + t;
      assert (s + t)[..4] == s[..4];
    } else if "false" <= s {
      assert (s + t)[5..] == s[5..] + t;
      assert (s + t)[..5] == s[..5];
    } else {
      IntExtends(s, t);
      IntIsNotLiteral(s, t);
    }
  }

  /** A value that ends before its text does, or that is an object, reads the same with text added. */
  lemma {:induction false} ValueExtends(s: string, t: string)
    requires LoadsValue(s).Some? && (LoadsValue(s).value.1 != "" || s[0] == '{')
    ensures LoadsValue(s + t) == Some((LoadsValue(s).value.0, LoadsValue(s).value.1 + t))
    decreases |s|, 0
  {
    assert (s + t)[0] == s[0] && (s + t)[1..] == s[1..] + t;
    if s[0] == '"' {
      CharsExtend(s[1..], t);
    } else if s[0] == '[' || s[0] == '{' {
      assert |s| > 1 && (s + t)[1] == s[1];
      if s[0] == '[' && s[1] != ']' {
        ItemsExtend(s[1..], t);
      } else if s[0] == '{' && s[1] != '}' {
        MembersExtend(s[1..], t);
      } else {
        assert (s + t)[2..] == s[2..] + t;
      }
    } else {
      ScalarExtends(s, t);
    }
  }

  lemma {:induction false} ItemsExtend(s: string, t: string)
    requires LoadsItems(s).Some?
    ensures LoadsItems(s + t) == Some((LoadsItems(s).value.0, LoadsItems(s).value.1 + t))
    decreases |s|, 1
  {
    ValueExtends(s, t);
    var rest := LoadsValue(s).value.1;
    assert (rest + t)[0] == rest[0] && (rest + t)[1..] == rest[1..] + t;
    if rest[0] == ',' { ItemsExtend(rest[1..], t); }
  }

  lemma {:induction false} MemberExtends(s: string, t: string)
    requires LoadsMember(s).Some? && LoadsMember(s).value.1 != ""
    ensures LoadsMember(s + t) == Some((LoadsMember(s).value.0, LoadsMember(s).value.1 + t))
    decreases |s|, 1
  {
    hide LoadsChars, LoadsValue;
    assert (s + t)[0] == s[0] && (s + t)[1..] == s[1..] + t;
    CharsExtend(s[1..], t);
    var rest := LoadsChars(s[1..]).value.1;
    assert (rest + t)[0] == rest[0] && (rest + t)[1..] == rest[1..] + t;
    ValueExtends(rest[1..], t);
  }

  lemma {:induction false} MembersExtend(s: string, t: string)
    requires LoadsMembers(s).Some?
    ensures LoadsMembers(s + t) == Some((LoadsMembers(s).value.0, LoadsMembers(s).value.1 + t))
    decreases |s|, 2
  {
    MemberExtends(s, t);
    var rest := LoadsMember(s).value.1;
    assert (rest + t)[0] == rest[0] && (rest + t)[1..] == rest[1..] + t;
    if rest[0] == ',' { MembersExtend(rest[1..], t); }
  }

  /** A record cut short never loads: the text of an object has no complete value as a proper prefix. */
  lemma PrefixDoesNotLoad(d: Doc, p: string)
    requires Proper(d) && d.DObj? && p < Dumps(d) && p != ""
    ensures Loads(p) == None
  {
    if Loads(p).Some? {
      var t := Dumps(d)[|p|..];
      assert p + t == Dumps(d) && p[0] == Dumps(d)[0] == '{';
      ValueExtends(p, t);
      assert LoadsValue(Dumps(d)).value.1 == t by { assert "" + t == t; }
      LoadsInvertsDumps(d);
    }
  }

  // ----- the round trip -----

  lemma {:induction false} SplitFirstLine(line: string, rest: string)
    requires OneLine(line)
    ensures SplitLines(line + "\n" + rest) == [line] + SplitLines(rest)
  {
    var s := line + "\n" + rest;
    assert s[|line|] == '\n';
    var i := FirstBreak(s);
    assert forall k :: 0 <= k < |line| ==> s[k] == line[k];
    assert i == |line|;
    assert s[..i] == line && s[i + 1..] == rest;
  }

  lemma StripKeepsRecord(d: Doc)
    requires d.DObj?
    ensures Strip(Dumps(d)) == Dumps(d)
  {
    var s := Dumps(d);
    assert s[0] == '{' && s[|s| - 1] == '}';
  }

  lemma {:induction false} StripRightKeepsHead(s: string)
    requires |s| > 0 && !IsSpace(s[0])
    ensures StripRight(s) != ""
  {
    if IsSpace(s[|s| - 1]) { StripRightKeepsHead(s[..|s| - 1]); }
  }

  /** A line broken inside a string makes the whole read fail. */
  lemma BrokenLineFails(d: Doc, rest: string)
    requires Proper(d) && d.DObj? && !Clean(d)
    ensures ReadLines(SplitLines(Dumps(d) + "\n" + rest)) == None
  {
    DumpsOneLine(d);
    var s := Dumps(d) + "\n" + rest;
    var k :| 0 <= k < |Dumps(d)| && IsLineBreak(Dumps(d)[k]);
    var i := FirstBreak(s);
    assert s[k] == Dumps(d)[k];
    assert i <= k && s[0] == Dumps(d)[0] == '{';
    var head := s[..i];
    assert |SplitLines(s)| > 0 && SplitLines(s)[0] == head;
    assert head < Dumps(d);
    StripRightKeepsHead(head);
    PrefixDoesNotLoad(d, StripRight(head));
    assert Strip(head) == StripRight(head);
  }

  lemma CleanLineReads(d: Doc, rest: string)
    requires Proper(d) && d.DObj? && Clean(d)
    ensures ReadLines(SplitLines(Dumps(d) + "\n" + rest)) == Chain(Some([d]), ReadLines(SplitLines(rest)))
  {
    DumpsOneLine(d);
    SplitFirstLine(Dumps(d), rest);
    StripKeepsRecord(d);
    LoadsInvertsDumps(d);
    hide SplitLines, Strip, Loads, Dumps, Clean, Proper;
    var lines := [Dumps(d)] + SplitLines(rest);
    assert lines[1..] == SplitLines(rest);
    assert ReadLine(Dumps(d)) == Some([d]);
  }

  predicate AllClean(ds: seq<Doc>) {
    forall i :: 0 <= i < |ds| ==> Clean(ds[i])
  }

  lemma AllCleanNext(ds: seq<Doc>)
    requires |ds| > 0
    ensures AllClean(ds) <==> Clean(ds[0]) && AllClean(ds[1..])
  {
    hide Clean;
    assert forall i :: 1 <= i < |ds| ==> ds[i] == ds[1..][i - 1];
  }

  lemma {:induction false} LedgerReads(ds: seq<Doc>)
    requires forall i :: 0 <= i < |ds| ==> Proper(ds[i]) && ds[i].DObj?
    ensures ReadLines(SplitLines(FileText(ds))) == if AllClean(ds) then Some(ds) else None
  {
    hide Clean, Proper, SplitLines, ReadLines, AllClean;
    if |ds| > 0 {
      LedgerReads(ds[1..]);
      AllCleanNext(ds);
      if Clean(ds[0]) {
        CleanLineReads(ds[0], FileText(ds[1..]));
        assert ds == [ds[0]] + ds[1..];
      } else {
        BrokenLineFails(ds[0], FileText(ds[1..]));
      }
    } else {
      EmptyLedgerReads();
    }
  }

  lemma EmptyLedgerReads()
    ensures ReadLines(SplitLines(FileText([]))) == Some([]) && AllClean([])
  {
  }

  /** Reading a ledger returns exactly the records appended, in order, if and only if every record is clean. */
  lemma LedgerRoundTrip(ds: seq<Doc>)
    requires forall i :: 0 <= i < |ds| ==> Proper(ds[i]) && ds[i].DObj?
    ensures (forall i :: 0 <= i < |ds| ==> Clean(ds[i])) <==> ReadLines(SplitLines(FileText(ds))) == Some(ds)
    ensures (exists i :: 0 <= i < |ds| && !Clean(ds[i])) <==> ReadLines(SplitLines(FileText(ds))) == None
  {
    hide Clean, Proper, SplitLines, ReadLines, FileText;
    LedgerReads(ds);
  }

  /** The least such ledger: one record whose only string is U+2028 alone is written, and never read again. */
  lemma SeparatorBreaksLedger(rest: seq<Doc>)
    requires forall i :: 0 <= i < |rest| ==> Proper(rest[i]) && rest[i].DObj?
    ensures var d := DObj([Member("note", DStr("\U{2028}"))]);
            Proper(d) && ReadLines(SplitLines(FileText([d] + rest))) == None
  {
    hide SplitLines, ReadLines, FileText;
    var d := DObj([Member("note", DStr("\U{2028}"))]);
    var ds := [d] + rest;
    assert UnescapedBreak("\U{2028}"[0]);
    assert d.members[0].val == DStr("\U{2028}") && !Clean(d);
    assert !Clean(ds[0]) && forall i :: 0 < i < |ds| ==> ds[i] == rest[i - 1];
    LedgerRoundTrip(ds);
  }

  // ----- the character classes by code point -----

  /** Only U+0085, U+2028 and U+2029 make a text unclean. */
  lemma CleanTextIff(s: string)
    ensures CleanText(s) <==>
            forall i :: 0 <= i < |s| ==> s[i] as int != 0x85 && s[i] as int != 0x2028 && s[i] as int != 0x2029
  {
    forall i | 0 <= i < |s|
      ensures UnescapedBreak(s[i]) <==> s[i] as int == 0x85 || s[i] as int == 0x2028 || s[i] as int == 0x2029
    {
      BreakIff(s[i]);
    }
  }

  lemma BreakIff(c: char)
    ensures UnescapedBreak(c) <==> c as int in {0x85, 0x2028, 0x2029}
    ensures IsLineBreak(c) <==> c as int in {10, 11, 12, 13, 28, 29, 30, 0x85, 0x2028, 0x2029}
  {
  }

  /** The 29 characters `str.strip` takes off. */
  lemma SpaceIff(c: char)
    ensures IsSpace(c) <==>
            || 9 <= c as int <= 13 || 28 <= c as int <= 32 || 0x2000 <= c as int <= 0x200a
            || c as int in {0x85, 0xa0, 0x1680, 0x2028, 0x2029, 0x202f, 0x205f, 0x3000}
  {
  }

  predicate AllSpace(s: string) {
    forall i :: 0 <= i < |s| ==> IsSpace(s[i])
  }

  /** What is stripped is white space on both sides, and what remains neither begins nor ends with any. */
  lemma {:induction false} StripIs(s: string) returns (before: string, after: string)
    ensures s == before + Strip(s) + after && AllSpace(before) && AllSpace(after)
    ensures Strip(s) != "" ==> !IsSpace(Strip(s)[0]) && !IsSpace(Strip(s)[|Strip(s)| - 1])
  {
    if |s| > 0 && IsSpace(s[0]) {
      var rest;
      rest, after := StripIs(s[1..]);
      before := [s[0]] + rest;
      assert s == [s[0]] + s[1..];
    } else {
      before := "";
      after := StripRightIs(s);
    }
  }

  lemma {:induction false} StripRightIs(s: string) returns (after: string)
    ensures s == StripRight(s) + after && AllSpace(after)
    ensures StripRight(s) != "" ==> !IsSpace(StripRight(s)[|StripRight(s)| - 1])
  {
    if |s| > 0 && IsSpace(s[|s| - 1]) {
      var rest := StripRightIs(s[..|s| - 1]);
      after := rest + [s[|s| - 1]];
      assert s == s[..|s| - 1] + [s[|s| - 1]];
    } else {
      after := "";
    }
  }

  /** A line ends at a line break, and `\r\n` is one break. */
  lemma SplitAtBreak(line: string, c: char, rest: string)
    requires OneLine(line)
    ensures SplitLines(line) == if line == "" then [] else [line]
    ensures SplitLines(line + "\r\n" + rest) == [line] + SplitLines(rest)
    ensures IsLineBreak(c) && !(c == '\r' && |rest| > 0 && rest[0] == '\n') ==>
              SplitLines(line + [c] + rest) == [line] + SplitLines(rest)
  {
    BreakAt(line, "");
    assert line + "" == line;
    var s := line + "\r\n" + rest;
    assert s == line + ("\r\n" + rest);
    BreakAt(line, "\r\n" + rest);
    assert s[..|line|] == line && s[|line| + 2..] == rest;
    if IsLineBreak(c) && !(c == '\r' && |rest| > 0 && rest[0] == '\n') {
      var t := line + [c] + rest;
      assert t == line + ([c] + rest);
      BreakAt(line, [c] + rest);
      assert t[..|line|] == line && t[|line| + 1..] == rest;
    }
  }

  lemma BreakAt(line: string, rest: string)
    requires OneLine(line) && (|rest| > 0 ==> IsLineBreak(rest[0]))
    ensures FirstBreak(line + rest) == |line|
  {
    var s := line + rest;
    assert forall k :: 0 <= k < |line| ==> s[k] == line[k];
    assert |rest| > 0 ==> s[|line|] == rest[0];
  }

  /** Blank lines are skipped, and only those. */
  lemma BlankLineIff(raw: string)
    ensures ReadLine(raw) == Some([]) <==> AllSpace(raw)
  {
    var before, after := StripIs(raw);
    var kept := Strip(raw);
    assert kept != "" ==> raw[|before|] == kept[0];
    hide Strip, Loads;
  }
}
