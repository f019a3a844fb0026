/**
 Cryptography and other machinery the service calls, as parameters: nothing is assumed of them unless a lemma says so.
*/
module Crypto {
  import opened Utf8
  import opened JsonText
  import opened JsonValue
  import opened CanonicalJson

  datatype Platform = Platform(
    sha256: Bytes -> Bytes,
    publicOf: string -> string,               // private key -> public key, as text
    sign: (string, Bytes) -> string,          // private key, message -> signature text
    verify: (string, string, Bytes) -> bool,  // public key, signature text, message
    render: Json -> string)                   // Python's str() of a value that is not a string

  /** Ed25519 accepts what was signed (RFC 8032, section 5.1). */
  ghost predicate AcceptsOwnSignatures(p: Platform) {
    forall key, m :: p.verify(p.publicOf(key), p.sign(key, m), m)
  }

  /** The ideal signature oracle: a signature verifies under `publicKey` only for a message in `signed`. */
  ghost predicate OnlySigned(p: Platform, publicKey: string, signed: iset<Bytes>) {
    forall signature, m :: p.verify(publicKey, signature, m) ==> m in signed
  }

  /** How an f-string shows a value. */
  function Shown(p: Platform, v: Json): string {
    if v.Str? then v.s else p.render(v)
  }

  function Hex(b: Bytes): string {
    if |b| == 0 then "" else [HexDigit(b[0] as int / 16)] + ([HexDigit(b[0] as int % 16)] + Hex(b[1..]))
  }

  lemma {:induction false} HexInjective(a: Bytes, b: Bytes)
    requires Hex(a) == Hex(b)
    ensures a == b
  {
    if |a| > 0 && |b| > 0 {
      var x, y := Hex(a), Hex(b);
      assert x[0] == y[0] && x[1] == y[1];
      HexDigitInjective(a[0] as int / 16, b[0] as int / 16);
      HexDigitInjective(a[0] as int % 16, b[0] as int % 16);
      assert a[0] as int == b[0] as int && a[0] == b[0];
      assert x[2..] == Hex(a[1..]) && y[2..] == Hex(b[1..]);
      HexInjective(a[1..], b[1..]);
      assert a == [a[0]] + a[1..] && b == [b[0]] + b[1..];
    }
  }

  lemma HexDigitInjective(m: nat, n: nat)
    requires m < 16 && n < 16
    ensures HexDigit(m) == HexDigit(n) <==> m == n
  {
  }

  /** `"sha256:" + hashlib.sha256(canonical_json_bytes(v)).hexdigest()` */
  function Digest(p: Platform, v: Json): string {
    SHA256_PREFIX + Hex(p.sha256(Canonical(v)))
  }

  /** Two different byte strings with one digest. */
  predicate Collision(p: Platform, x: Bytes, y: Bytes) {
    x != y && p.sha256(x) == p.sha256(y)
  }

  /** Values with equal digests are equal, or their canonical bytes collide. */
  lemma DigestBinds(p: Platform, v: Json, w: Json)
    requires Digest(p, v) == Digest(p, w)
    ensures v == w || Collision(p, Canonical(v), Canonical(w))
  {
    assert Digest(p, v)[7..] == Hex(p.sha256(Canonical(v))) && Digest(p, w)[7..] == Hex(p.sha256(Canonical(w)));
    HexInjective(p.sha256(Canonical(v)), p.sha256(Canonical(w)));
    CanonicalInjective(v, w);
  }

  /** Two lower-case digits a byte, the high half first. */
  lemma {:induction false} HexText(b: Bytes)
    ensures |Hex(b)| == 2 * |b|
    ensures forall i :: 0 <= i < |b| ==>
              Hex(b)[2 * i] == "0123456789abcdef"[b[i] as int / 16]
              && Hex(b)[2 * i + 1] == "0123456789abcdef"[b[i] as int % 16]
  {
    if |b| > 0 {
      HexText(b[1..]);
      var h := Hex(b);
      assert h == [h[0], h[1]] + Hex(b[1..]);
      forall i | 1 <= i < |b|
        ensures h[2 * i] == "0123456789abcdef"[b[i] as int / 16] && h[2 * i + 1] == "0123456789abcdef"[b[i] as int % 16]
      {
        assert b[i] == b[1..][i - 1] && h[2 * i] == Hex(b[1..])[2 * (i - 1)];
        assert h[2 * i + 1] == Hex(b[1..])[2 * (i - 1) + 1];
      }
    }
  }

  /** A digest is `sha256:` and the digits of the hash of the canonical bytes. */
  lemma DigestText(p: Platform, v: Json)
    ensures Digest(p, v) == "sha256:" + Hex(p.sha256(Canonical(v)))
  {
    hide Canonical, Hex;
  }
}
