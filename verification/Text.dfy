/** Python `str` operations the service relies on: code-point order, sorted keys, `split` and `join`. */
module Text {

  datatype Option<+T> = None | Some(value: T)

  datatype Result<+T, +E> = Ok(value: T) | Err(error: E)

  /** `a < b` on Python strings: the first differing code point decides, a proper prefix comes first. */
  predicate Less(a: string, b: string) {
    if |b| == 0 then false
    else if |a| == 0 then true
    else a[0] < b[0] || (a[0] == b[0] && Less(a[1..], b[1..]))
  }

  lemma {:induction false} LessTotal(a: string, b: string)
    ensures a == b || Less(a, b) || Less(b, a)
    ensures !(Less(a, b) && Less(b, a))
    ensures Less(a, b) ==> a != b
  {
    if |a| > 0 && |b| > 0 && a[0] == b[0] {
      LessTotal(a[1..], b[1..]);
      if a[1..] == b[1..] {
        assert a == [a[0]] + a[1..] && b == [b[0]] + b[1..];
      }
    }
  }

  lemma {:induction false} LessTransitive(a: string, b: string, c: string)
    requires Less(a, b) && Less(b, c)
    ensures Less(a, c)
  {
    if |a| > 0 && a[0] == b[0] && b[0] == c[0] {
      LessTransitive(a[1..], b[1..], c[1..]);
    }
  }

  lemma {:induction false} LessAfterCommonPrefix(p: string, a: string, b: string)
    ensures Less(p + a, p + b) <==> Less(a, b)
  {
    if |p| == 0 {
      assert p + a == a && p + b == b;
    } else {
      assert (p + a)[1..] == p[1..] + a && (p + b)[1..] == p[1..] + b;
      LessAfterCommonPrefix(p[1..], a, b);
    }
  }

  /** Strings that differ within equally long heads are ordered by those heads. */
  lemma {:induction false} LessByHeads(a: string, b: string, x: string, y: string)
    requires |a| == |b| && a != b
    ensures Less(a + x, b + y) <==> Less(a, b)
  {
    if a[0] == b[0] {
      assert a == [a[0]] + a[1..] && b == [b[0]] + b[1..];
      assert (a + x)[1..] == a[1..] + x && (b + y)[1..] == b[1..] + y;
      LessByHeads(a[1..], b[1..], x, y);
    }
  }

  predicate IsLeast(m: string, ks: set<string>) {
    m in ks && forall k :: k in ks && k != m ==> Less(m, k)
  }

  lemma {:induction false} LeastExists(ks: set<string>)
    requires ks != {}
    ensures exists m :: IsLeast(m, ks)
    decreases |ks|
  {
    var x :| x in ks;
    if ks == {x} {
      assert IsLeast(x, ks);
    } else {
      LeastExists(ks - {x});
      var m :| IsLeast(m, ks - {x});
      LessTotal(x, m);
      if Less(x, m) {
        forall k | k in ks && k != x ensures Less(x, k) {
          if k != m { LessTransitive(x, m, k); }
        }
        assert IsLeast(x, ks);
      } else {
        assert IsLeast(m, ks);
      }
    }
  }

  lemma LeastUnique(m: string, n: string, ks: set<string>)
    requires IsLeast(m, ks) && IsLeast(n, ks)
    ensures m == n
  {
    LessTotal(m, n);
  }

  function Least(ks: set<string>): (m: string)
    requires ks != {}
    ensures IsLeast(m, ks)
  {
    LeastExists(ks);
    assert forall m, n :: IsLeast(m, ks) && IsLeast(n, ks) ==> m == n by {
      forall m, n | IsLeast(m, ks) && IsLeast(n, ks) ensures m == n { LeastUnique(m, n, ks); }
    }
    var m :| m in ks && IsLeast(m, ks);
    m
  }

  predicate Ascending(ks: seq<string>) {
    forall i, j :: 0 <= i < j < |ks| ==> Less(ks[i], ks[j])
  }

  /** `sorted(ks)` for a set of distinct keys. */
  function SortedKeys(ks: set<string>): (r: seq<string>)
    ensures |r| == |ks|
    ensures forall k :: k in r <==> k in ks
    ensures Ascending(r)
    decreases |ks|
  {
    if ks == {} then []
    else
      var m := Least(ks);
      var rest := SortedKeys(ks - {m});
      assert forall i :: 0 <= i < |rest| ==> rest[i] in rest;
      [m] + rest
  }

  /** A strictly ascending list is the sorted list of its own elements. */
  lemma {:induction false} SortedKeysUnique(ks: seq<string>, all: set<string>)
    requires Ascending(ks)
    requires forall k :: k in ks <==> k in all
    ensures SortedKeys(all) == ks
    decreases |ks|
  {
    if |ks| == 0 {
      assert all == {};
    } else {
      var tail := ks[1..];
      assert ks == [ks[0]] + tail;
      assert ks[0] in ks;
      forall k | k in all && k != ks[0] ensures Less(ks[0], k) {
        assert k in ks;
      }
      LeastUnique(ks[0], Least(all), all);
      LessTotal(ks[0], ks[0]);
      assert ks[0] !in tail;
      SortedKeysUnique(tail, all - {ks[0]});
    }
  }

  /** `s.split(sep)` for a one-character separator: never empty. */
  function Split(s: string, sep: char): (r: seq<string>)
    ensures |r| > 0
    ensures forall i :: 0 <= i < |r| ==> sep !in r[i]
  {
    if |s| == 0 then [""]
    else
      var rest := Split(s[1..], sep);
      if s[0] == sep then [""] + rest
      else [[s[0]] + rest[0]] + rest[1..]
  }

  function Join(parts: seq<string>, sep: char): string
    requires |parts| > 0
  {
    if |parts| == 1 then parts[0]
    else parts[0] + [sep] + Join(parts[1..], sep)
  }

  lemma {:induction false} SplitWithoutSeparator(s: string, sep: char)
    requires sep !in s
    ensures Split(s, sep) == [s]
  {
    if |s| > 0 {
      SplitWithoutSeparator(s[1..], sep);
      assert s == [s[0]] + s[1..];
    }
  }

  lemma SplitStep(s: string, sep: char)
    requires |s| > 0
    ensures Split(s, sep) ==
            var rest := Split(s[1..], sep);
            if s[0] == sep then [""] + rest else [[s[0]] + rest[0]] + rest[1..]
  {
  }

  lemma {:induction false} SplitAtSeparator(p: string, t: string, sep: char)
    ensures Split(p + [sep] + t, sep) == Split(p, sep) + Split(t, sep)
  {
    var s := p + [sep] + t;
    if |p| == 0 {
      assert s[1..] == t;
    } else {
      assert s[1..] == p[1..] + [sep] + t;
      SplitAtSeparator(p[1..], t, sep);
      SplitStep(p, sep);
      SplitStep(s, sep);
      hide Split;
      assert s[0] == p[0];
      PartsConcat(p[0], Split(p[1..], sep), Split(t, sep));
    }
  }

  /** A new first part, or a character more in the first part, leaves the later parts alone. */
  lemma PartsConcat(c: char, a: seq<string>, b: seq<string>)
    requires |a| > 0
    ensures [""] + (a + b) == ([""] + a) + b
    ensures [[c] + (a + b)[0]] + (a + b)[1..] == ([[c] + a[0]] + a[1..]) + b
  {
    assert (a + b)[1..] == a[1..] + b;
  }

  lemma {:induction false} SplitOfJoin(parts: seq<string>, sep: char)
    requires |parts| > 0 && forall i :: 0 <= i < |parts| ==> sep !in parts[i]
    ensures Split(Join(parts, sep), sep) == parts
  {
    SplitWithoutSeparator(parts[0], sep);
    if |parts| > 1 {
      SplitAtSeparator(parts[0], Join(parts[1..], sep), sep);
      SplitOfJoin(parts[1..], sep);
    }
  }

  lemma {:induction false} JoinOfSplit(s: string, sep: char)
    ensures Join(Split(s, sep), sep) == s
  {
    if |s| > 0 {
      JoinOfSplit(s[1..], sep);
      var rest := Split(s[1..], sep);
      var all := Split(s, sep);
      if s[0] == sep {
        assert all[1..] == rest;
        assert all[0] + [sep] + s[1..] == s;
      } else {
        assert all[0] == [s[0]] + rest[0];
        if |rest| > 1 {
          assert all[1..] == rest[1..];
          assert s == [s[0]] + (rest[0] + [sep] + Join(rest[1..], sep));
          assert Join(all, sep) == ([s[0]] + rest[0]) + [sep] + Join(rest[1..], sep);
        } else {
          assert s == [s[0]] + rest[0];
        }
      }
    }
  }

  predicate StartsWith(s: string, p: string) {
    p <= s
  }

  predicate EndsWith(s: string, c: char) {
    |s| > 0 && s[|s| - 1] == c
  }

  /** The strings agree up to here, and then `a` ends or has the smaller code point. */
  predicate DecidedAt(a: string, b: string, i: int) {
    0 <= i <= |a| && i < |b| && a[..i] == b[..i] && (i == |a| || a[i] < b[i])
  }

  /** String order written out. */
  lemma {:induction false} LessIff(a: string, b: string)
    ensures Less(a, b) <==> exists i :: DecidedAt(a, b, i)
  {
    hide DecidedAt;
    if |a| > 0 && |b| > 0 && a[0] == b[0] {
      LessIff(a[1..], b[1..]);
      if i :| DecidedAt(a[1..], b[1..], i) { DecidedLater(a, b, i + 1); }
      if i :| DecidedAt(a, b, i) { DecidedLater(a, b, i); }
    } else {
      forall i ensures DecidedAt(a, b, i) <==> i == 0 && Less(a, b) { DecidedAtOnce(a, b, i); }
      assert Less(a, b) ==> DecidedAt(a, b, 0);
    }
  }

  lemma DecidedLater(a: string, b: string, i: int)
    requires |a| > 0 && |b| > 0 && a[0] == b[0]
    ensures DecidedAt(a, b, i) <==> DecidedAt(a[1..], b[1..], i - 1)
  {
    if 0 < i <= |a| && i < |b| {
      assert a[..i] == [a[0]] + a[1..][..i - 1] && b[..i] == [b[0]] + b[1..][..i - 1];
      assert a[1..][..i - 1] == a[..i][1..] && b[1..][..i - 1] == b[..i][1..];
    }
  }

  lemma DecidedAtOnce(a: string, b: string, i: int)
    requires |a| == 0 || |b| == 0 || a[0] != b[0]
    ensures DecidedAt(a, b, i) <==> i == 0 && Less(a, b)
  {
    if 0 < i <= |a| && i < |b| {
      assert a[..i][0] == a[0] && b[..i][0] == b[0];
    }
  }
}
