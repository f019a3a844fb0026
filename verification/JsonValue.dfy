/** JSON values as the service compares them: objects are maps, numbers are integers. */
module JsonValue {

  datatype Json =
    | Null
    | Bool(b: bool)
    | Int(n: int)
    | Str(s: string)
    | Arr(items: seq<Json>)
    | Obj(fields: map<string, Json>)
  {
    /** Python `d.get(key)`: `None` stands both for a missing key and for a null; a non-object has no keys. */
    function Get(key: string): Json {
      if Obj? && key in fields then fields[key] else Null
    }

    predicate Has(key: string) {
      Obj? && key in fields
    }

    /** `isinstance(v, str) and v` */
    predicate NonEmptyStr() {
      Str? && s != ""
    }

    /** Python truthiness. */
    predicate Truthy() {
      match this
      case Null => false
      case Bool(b) => b
      case Int(n) => n != 0
      case Str(s) => s != ""
      case Arr(items) => items != []
      case Obj(fields) => fields != map[]
    }

    /** Lists and dictionaries cannot be dictionary keys or set members. */
    predicate Hashable() {
      !Arr? && !Obj?
    }
  }

  const SHA256_PREFIX := "sha256:"

  predicate IsHexDigit(c: char) {
    '0' <= c <= '9' || 'a' <= c <= 'f'
  }

  predicate IsPlainSha256(s: string) {
    |s| == 71 && SHA256_PREFIX <= s && forall i :: 7 <= i < 71 ==> IsHexDigit(s[i])
  }

  /** `_SHA256_RE.match(value)`: the `$` of the pattern also accepts one final newline. */
  predicate IsSha256Text(s: string) {
    IsPlainSha256(s) || (|s| == 72 && s[71] == '\n' && IsPlainSha256(s[..71]))
  }

  predicate IsSha256(v: Json) {
    v.Str? && IsSha256Text(v.s)
  }

  /** `sha256:` and 64 lower-case hexadecimal digits, with at most one newline after them. */
  lemma Sha256TextIff(s: string)
    ensures IsSha256Text(s) <==>
            (exists d: string :: (s == "sha256:" + d || s == "sha256:" + d + "\n")
                                 && |d| == 64 && forall i :: 0 <= i < 64 ==> d[i] in "0123456789abcdef")
  {
    forall c ensures IsHexDigit(c) <==> c in "0123456789abcdef" { DigitIff(c); }
    assert |"sha256:"| == 7;
    if IsPlainSha256(s) {
      assert s == "sha256:" + s[7..];
    } else if IsSha256Text(s) {
      assert s == "sha256:" + s[7..71] + "\n";
    }
    if d: string :| (s == "sha256:" + d || s == "sha256:" + d + "\n") && |d| == 64
                    && forall i :: 0 <= i < 64 ==> d[i] in "0123456789abcdef"
    {
      assert ("sha256:" + d)[..7] == "sha256:";
      assert forall i :: 7 <= i < 71 ==> ("sha256:" + d)[i] == d[i - 7];
      assert s == "sha256:" + d || s[..71] == "sha256:" + d;
    }
  }

  lemma DigitIff(c: char)
    ensures IsHexDigit(c) <==> c in "0123456789abcdef"
  {
    var digits := "0123456789abcdef";
    assert forall i :: 0 <= i < 16 ==> IsHexDigit(digits[i]);
    if '0' <= c <= '9' {
      assert digits[c as int - 48] == c;
    } else if 'a' <= c <= 'f' {
      assert digits[c as int - 87] == c;
    }
  }
}
