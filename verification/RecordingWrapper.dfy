/** SAR-402 recording wrappers: build, verify, and the shape their write-once store asks for. */
module RecordingWrapper {
  import opened Text
  import opened Utf8
  import opened JsonValue
  import opened CanonicalJson
  import opened Crypto
  import opened Jsonl
  import opened WriteOnce

  const WRAPPER_TYPE := "sar402_recording_attribution"
  const WRAPPER_VERSION := "sar402_recording_wrapper_v1"
  const RECORDED_BY := "defaultverifier"
  const SIGNATURE_ALG := "Ed25519"
  const ATTESTS_TO := "recording_attribution_only"
  const EVIDENCE_BY := "resource_server"

  predicate AllowedContext(v: Json) {
    v == Str("observation") || v == Str("ingestion")
  }

  // ----- what a wrapper disclaims -----

  /** `str.lower` as far as it matters here: no other character lowers into the three words compared with. */
  function Lower(s: string): string {
    seq(|s|, i requires 0 <= i < |s| => if 'A' <= s[i] <= 'Z' then s[i] + 32 as char else s[i])
  }

  /** `_is_testnet`; `None` is the `AttributeError` of an environment that is not a string. */
  function IsTestnet(receipt: Json): Option<bool> {
    var env := receipt.Get("issuer").Get("environment");
    if !env.Truthy() then Some(true)
    else if !env.Str? then None
    else
      var word := Lower(Strip(env.s));
      Some(word != "mainnet" && word != "production" && word != "prod")
  }

  /**
   Only an issuer environment that reads as one of three words, whatever its case and surrounding blanks, is not a
   testnet; a missing or empty one is, and one that is not a text is an exception.
  */
  lemma TestnetIff(receipt: Json)
    ensures var env := receipt.Get("issuer").Get("environment");
            && (IsTestnet(receipt) == None <==> env.Truthy() && !env.Str?)
            && (IsTestnet(receipt) == Some(false) <==>
                env.Str? && var word := Lower(Strip(env.s));
                            word == "mainnet" || word == "production" || word == "prod")
  {
    hide Lower, Strip;
    assert Lower(Strip("")) == "" by { NothingLeft(); }
    assert |"mainnet"| == 7 && |"production"| == 10 && |"prod"| == 4;
  }

  lemma NothingLeft()
    ensures Lower(Strip("")) == ""
  {
  }

  /** Letters change case one by one. */
  lemma LowerIs(s: string)
    ensures |Lower(s)| == |s|
    ensures forall i :: 0 <= i < |s| && 'A' <= s[i] <= 'Z' ==>
              Lower(s)[i] == "abcdefghijklmnopqrstuvwxyz"[s[i] as int - 'A' as int]
    ensures forall i :: 0 <= i < |s| && !('A' <= s[i] <= 'Z') ==> Lower(s)[i] == s[i]
  {
    var letters := "abcdefghijklmnopqrstuvwxyz";
    assert |letters| == 26;
    forall i | 0 <= i < |s| && 'A' <= s[i] <= 'Z' ensures Lower(s)[i] == letters[s[i] as int - 'A' as int] {
      LetterIs(s[i] as int - 'A' as int);
    }
  }

  lemma LetterIs(k: nat)
    requires k < 26
    ensures |"abcdefghijklmnopqrstuvwxyz"| == 26
    ensures "abcdefghijklmnopqrstuvwxyz"[k] == (97 + k) as char
  {
  }

  const DISCLAIMED := [
    Str("resource_delivery"), Str("payment_execution"), Str("access_authorization"), Str("release_control"),
    Str("legal_payment_finality")]

  function Disclaimers(testnet: bool): seq<Json> {
    if testnet then DISCLAIMED + [Str("mainnet_settlement")] else DISCLAIMED
  }

  function AuthorityBlock(testnet: bool): Json {
    Obj(map["signature_attests_to" := Str(ATTESTS_TO), "does_not_attest_to" := Arr(Disclaimers(testnet)),
            "verifier_has_execution_authority" := Bool(false), "verifier_controls_resource_release" := Bool(false),
            "source_evidence_created_by" := Str(EVIDENCE_BY)])
  }

  /** What is always disclaimed, and what a testnet receipt's wrapper disclaims besides. */
  lemma DisclaimersAre(testnet: bool, d: Json)
    ensures d in Disclaimers(testnet) <==>
            || d == Str("resource_delivery") || d == Str("payment_execution") || d == Str("access_authorization")
            || d == Str("release_control") || d == Str("legal_payment_finality")
            || (testnet && d == Str("mainnet_settlement"))
  {
    assert DISCLAIMED[0] == Str("resource_delivery") && DISCLAIMED[1] == Str("payment_execution");
    assert DISCLAIMED[2] == Str("access_authorization") && DISCLAIMED[3] == Str("release_control");
    assert DISCLAIMED[4] == Str("legal_payment_finality") && |DISCLAIMED| == 5;
    assert testnet ==> Disclaimers(testnet)[5] == Str("mainnet_settlement");
    assert forall i :: 0 <= i < 5 ==> Disclaimers(testnet)[i] == DISCLAIMED[i];
  }

  /** `_authority_boundary_ok`; `None` is an exception, from the environment or from an unhashable disclaimer. */
  function BoundaryOk(boundary: Json, receipt: Json): Option<bool> {
    if !boundary.Obj? || boundary.Get("signature_attests_to") != Str(ATTESTS_TO)
       || boundary.Get("verifier_has_execution_authority") != Bool(false)
       || boundary.Get("verifier_controls_resource_release") != Bool(false)
       || boundary.Get("source_evidence_created_by") != Str(EVIDENCE_BY)
       || !boundary.Get("does_not_attest_to").Arr? then Some(false)
    else
      var disclaimed := boundary.Get("does_not_attest_to").items;
      match IsTestnet(receipt)
      case None => None
      case Some(testnet) =>
        if exists i :: 0 <= i < |disclaimed| && !disclaimed[i].Hashable() then None
        else Some(forall d :: d in Disclaimers(testnet) ==> d in disclaimed)
  }

  /** Each of the disclaimers, by name, is in the list. */
  predicate Disclaims(list: seq<Json>, testnet: bool) {
    && Str("resource_delivery") in list && Str("payment_execution") in list && Str("access_authorization") in list
    && Str("release_control") in list && Str("legal_payment_finality") in list
    && (testnet ==> Str("mainnet_settlement") in list)
  }

  lemma DisclaimsIff(list: seq<Json>, testnet: bool)
    ensures (forall d :: d in Disclaimers(testnet) ==> d in list) <==> Disclaims(list, testnet)
  {
    hide Disclaimers;
    forall d
      ensures d in Disclaimers(testnet) <==>
              || d == Str("resource_delivery") || d == Str("payment_execution") || d == Str("access_authorization")
              || d == Str("release_control") || d == Str("legal_payment_finality")
              || (testnet && d == Str("mainnet_settlement"))
    {
      DisclaimersAre(testnet, d);
    }
  }

  /** When an authority block passes: no authority claimed, and nothing required left out. */
  lemma BoundaryIff(boundary: Json, receipt: Json)
    ensures BoundaryOk(boundary, receipt) == Some(true) <==>
            && boundary.Get("signature_attests_to") == Str("recording_attribution_only")
            && boundary.Get("source_evidence_created_by") == Str("resource_server")
            && boundary.Get("verifier_has_execution_authority") == Bool(false)
            && boundary.Get("verifier_controls_resource_release") == Bool(false)
            && boundary.Get("does_not_attest_to").Arr? && IsTestnet(receipt).Some?
            && var list := boundary.Get("does_not_attest_to").items;
               Disclaims(list, IsTestnet(receipt).value) && forall i :: 0 <= i < |list| ==> list[i].Hashable()
  {
    hide IsTestnet, Disclaims, Disclaimers;
    if boundary.Get("does_not_attest_to").Arr? && IsTestnet(receipt).Some? {
      DisclaimsIff(boundary.Get("does_not_attest_to").items, IsTestnet(receipt).value);
    }
  }

  // ----- adopting the inner receipt's identity -----

  function InnerDigestValue(receipt: Json): Json {
    receipt.Get("integrity").Get("digest")
  }

  /** `_inner_receipt_id`; `None` is the `ValueError`. */
  function InnerId(receipt: Json): Option<string> {
    var digest, explicit := InnerDigestValue(receipt), receipt.Get("receipt_id");
    var id := if explicit.Truthy() then explicit else digest;
    if !id.NonEmptyStr() then None
    else if explicit.Truthy() && digest.Truthy() && explicit != digest then None
    else Some(id.s)
  }

  function InnerDigest(receipt: Json): Option<string> {
    if InnerDigestValue(receipt).NonEmptyStr() then Some(InnerDigestValue(receipt).s) else None
  }

  /** The adopted id: the explicit one, or the digest; where both are given they are the same text. */
  lemma InnerIdIff(receipt: Json, id: string)
    ensures var digest, explicit := receipt.Get("integrity").Get("digest"), receipt.Get("receipt_id");
            InnerId(receipt) == Some(id) <==>
            id != "" && ((explicit == Str(id) && (digest == Str(id) || !digest.Truthy()))
                         || (!explicit.Truthy() && digest == Str(id)))
    ensures InnerDigest(receipt) == Some(id) <==> receipt.Get("integrity").Get("digest") == Str(id) && id != ""
  {
  }

  // ----- build -----

  /** The caller's choices and the times it supplies or the clock gives. */
  datatype Recording = Recording(
    kid: string, context: string, eventId: string, service: string, observedAt: string, recordedAt: string,
    signedAt: string)

  function View(receipt: Json, rec: Recording, id: string, digest: string, testnet: bool): Json {
    Obj(map["wrapper_type" := Str(WRAPPER_TYPE), "wrapper_version" := Str(WRAPPER_VERSION),
            "recording_event_id" := Str(rec.eventId), "recording_context" := Str(rec.context),
            "recorded_by" := Str(RECORDED_BY), "recording_service" := Str(rec.service),
            "recording_key_id" := Str(rec.kid), "wrapped_receipt_id" := Str(id),
            "wrapped_receipt_digest" := Str(digest), "observed_at" := Str(rec.observedAt),
            "recorded_at" := Str(rec.recordedAt), "signed_at" := Str(rec.signedAt),
            "signature_alg" := Str(SIGNATURE_ALG), "authority_boundary" := AuthorityBlock(testnet),
            "receipt" := receipt])
  }

  function SignatureOf(kid: string, signature: string): Json {
    Obj(map["alg" := Str(SIGNATURE_ALG), "kid" := Str(kid), "signature" := Str(signature)])
  }

  /** `build_recording_wrapper`; `None` is an exception. */
  function Build(p: Platform, receipt: Json, privateKey: string, rec: Recording): Option<Json> {
    if !receipt.Obj? || rec.kid == "" || !AllowedContext(Str(rec.context)) then None
    else
      match (InnerId(receipt), InnerDigest(receipt), IsTestnet(receipt))
      case (Some(id), Some(digest), Some(testnet)) =>
        var view := View(receipt, rec, id, digest, testnet);
        Some(Obj(view.fields["recording_signature" := SignatureOf(rec.kid, p.sign(privateKey, Canonical(view)))]))
      case _ => None
  }

  /** `_signing_view` */
  function SigningView(wrapper: Json): Json {
    if wrapper.Obj? then Obj(wrapper.fields - {"recording_signature"}) else wrapper
  }

  // ----- verify -----

  predicate HeaderOk(w: Json) {
    && w.Get("wrapper_type") == Str(WRAPPER_TYPE) && w.Get("wrapper_version") == Str(WRAPPER_VERSION)
    && w.Get("recorded_by") == Str(RECORDED_BY) && w.Get("signature_alg") == Str(SIGNATURE_ALG)
    && AllowedContext(w.Get("recording_context"))
  }

  predicate KeyBindingOk(w: Json) {
    var sig := w.Get("recording_signature");
    sig.Obj? && sig.Get("alg") == w.Get("signature_alg") && sig.Get("kid") == w.Get("recording_key_id")
  }

  predicate IdentityOk(w: Json) {
    var receipt := w.Get("receipt");
    && receipt.Obj? && InnerId(receipt).Some? && InnerDigest(receipt).Some?
    && w.Get("wrapped_receipt_id") == Str(InnerId(receipt).value)
    && w.Get("wrapped_receipt_digest") == Str(InnerDigest(receipt).value)
  }

  /** `verify_recording_wrapper`; `None` is an exception. */
  function Verify(p: Platform, w: Json, publicKey: string): Option<bool> {
    if !w.Obj? || !HeaderOk(w) || !KeyBindingOk(w) || !IdentityOk(w) then Some(false)
    else
      match BoundaryOk(w.Get("authority_boundary"), w.Get("receipt"))
      case None => None
      case Some(false) => Some(false)
      case Some(true) =>
        var signature := w.Get("recording_signature").Get("signature");
        Some(signature.Str? && p.verify(publicKey, signature.s, Canonical(SigningView(w))))
  }

  /** When a wrapper verifies, constant by constant. */
  lemma VerifiesIff(p: Platform, w: Json, publicKey: string)
    ensures Verify(p, w, publicKey) == Some(true) <==>
            var sig, receipt := w.Get("recording_signature"), w.Get("receipt");
            && w.Get("wrapper_type") == Str("sar402_recording_attribution")
            && w.Get("wrapper_version") == Str("sar402_recording_wrapper_v1")
            && w.Get("recorded_by") == Str("defaultverifier") && w.Get("signature_alg") == Str("Ed25519")
            && (w.Get("recording_context") == Str("observation") || w.Get("recording_context") == Str("ingestion"))
            && sig.Get("alg") == Str("Ed25519") && sig.Get("kid") == w.Get("recording_key_id")
            && receipt.Obj? && InnerId(receipt).Some? && InnerDigest(receipt).Some?
            && w.Get("wrapped_receipt_id") == Str(InnerId(receipt).value)
            && w.Get("wrapped_receipt_digest") == Str(InnerDigest(receipt).value)
            && BoundaryOk(w.Get("authority_boundary"), receipt) == Some(true)
            && sig.Get("signature").Str?
            && p.verify(publicKey, sig.Get("signature").s, Canonical(Obj(w.fields - {"recording_signature"})))
  {
    hide BoundaryOk, InnerId, InnerDigest, Canonical;
  }

  // ----- the fields of a built wrapper -----

  lemma ViewHeader(receipt: Json, rec: Recording, id: string, digest: string, testnet: bool, sig: Json)
    ensures var w := Obj(View(receipt, rec, id, digest, testnet).fields["recording_signature" := sig]);
            && w.Get("wrapper_type") == Str(WRAPPER_TYPE) && w.Get("wrapper_version") == Str(WRAPPER_VERSION)
            && w.Get("recorded_by") == Str(RECORDED_BY) && w.Get("signature_alg") == Str(SIGNATURE_ALG)
            && w.Get("recording_context") == Str(rec.context)
  {
    hide AuthorityBlock;
  }

  lemma ViewBody(receipt: Json, rec: Recording, id: string, digest: string, testnet: bool, sig: Json)
    ensures var w := Obj(View(receipt, rec, id, digest, testnet).fields["recording_signature" := sig]);
            && w.Get("recording_signature") == sig && w.Get("recording_key_id") == Str(rec.kid)
            && w.Get("receipt") == receipt && w.Get("wrapped_receipt_id") == Str(id)
            && w.Get("wrapped_receipt_digest") == Str(digest)
            && w.Get("authority_boundary") == AuthorityBlock(testnet)
  {
    hide AuthorityBlock;
  }

  lemma ViewUnsigned(receipt: Json, rec: Recording, id: string, digest: string, testnet: bool)
    ensures !View(receipt, rec, id, digest, testnet).Has("recording_signature")
  {
    hide AuthorityBlock;
  }

  lemma SignatureFields(kid: string, signature: string)
    ensures var sig := SignatureOf(kid, signature);
            sig.Obj? && sig.Get("alg") == Str(SIGNATURE_ALG) && sig.Get("kid") == Str(kid)
            && sig.Get("signature") == Str(signature)
  {
  }

  lemma OwnBoundaryOk(receipt: Json, testnet: bool)
    requires IsTestnet(receipt) == Some(testnet)
    ensures BoundaryOk(AuthorityBlock(testnet), receipt) == Some(true)
  {
    hide IsTestnet;
    var b := AuthorityBlock(testnet);
    assert b.Get("does_not_attest_to") == Arr(Disclaimers(testnet));
    forall i | 0 <= i < |Disclaimers(testnet)| ensures Disclaimers(testnet)[i].Hashable() {
    }
  }

  lemma SigningViewOfSigned(view: Json, sig: Json)
    requires view.Obj? && !view.Has("recording_signature")
    ensures SigningView(Obj(view.fields["recording_signature" := sig])) == view
  {
    assert view.fields["recording_signature" := sig] - {"recording_signature"} == view.fields;
  }

  /** Round trip: every built wrapper verifies under the matching key. */
  lemma BuiltVerifies(p: Platform, receipt: Json, privateKey: string, rec: Recording)
    requires AcceptsOwnSignatures(p) && Build(p, receipt, privateKey, rec).Some?
    ensures Verify(p, Build(p, receipt, privateKey, rec).value, p.publicOf(privateKey)) == Some(true)
  {
    hide View, AuthorityBlock, BoundaryOk, SignatureOf, Canonical, InnerId, InnerDigest, IsTestnet, SigningView,
      Json.Get;
    var id, digest := InnerId(receipt).value, InnerDigest(receipt).value;
    var testnet := IsTestnet(receipt).value;
    var view := View(receipt, rec, id, digest, testnet);
    var sig := SignatureOf(rec.kid, p.sign(privateKey, Canonical(view)));
    ViewHeader(receipt, rec, id, digest, testnet, sig);
    ViewBody(receipt, rec, id, digest, testnet, sig);
    ViewUnsigned(receipt, rec, id, digest, testnet);
    SignatureFields(rec.kid, p.sign(privateKey, Canonical(view)));
    OwnBoundaryOk(receipt, testnet);
    ViewIsObject(receipt, rec, id, digest, testnet);
    SigningViewOfSigned(view, sig);
    assert p.verify(p.publicOf(privateKey), p.sign(privateKey, Canonical(view)), Canonical(view));
  }

  lemma ViewIsObject(receipt: Json, rec: Recording, id: string, digest: string, testnet: bool)
    ensures View(receipt, rec, id, digest, testnet).Obj?
  {
  }

  /** Agreement on every field outside `recording_signature`. */
  ghost predicate SameRecording(v: Json, w: Json) {
    v.Obj? && w.Obj? && forall k :: k != "recording_signature" ==>
                          (k in v.fields <==> k in w.fields) && (k in v.fields ==> v.fields[k] == w.fields[k])
  }

  /**
   Tamper evidence: when the key only ever signed the signing views of `built` wrappers, a wrapper that verifies agrees
   with one of them on every field outside `recording_signature`, with no appeal to collisions.
  */
  lemma VerifiedWasBuilt(p: Platform, w: Json, publicKey: string, signed: iset<Bytes>, built: set<Json>)
    returns (origin: Json)
    requires Verify(p, w, publicKey) == Some(true) && OnlySigned(p, publicKey, signed)
    requires forall b :: b in built ==> b.Obj?
    requires forall m :: m in signed ==> exists b :: b in built && m == Canonical(SigningView(b))
    ensures origin in built && SameRecording(w, origin)
  {
    hide Canonical, HeaderOk, KeyBindingOk, IdentityOk, BoundaryOk;
    var m := Canonical(SigningView(w));
    assert m in signed;
    origin :| origin in built && m == Canonical(SigningView(origin));
    CanonicalInjective(SigningView(w), SigningView(origin));
    var a, b := w.fields - {"recording_signature"}, origin.fields - {"recording_signature"};
    assert a == b;
    forall k | k != "recording_signature"
      ensures (k in w.fields <==> k in origin.fields) && (k in w.fields ==> w.fields[k] == origin.fields[k])
    {
      assert k in w.fields <==> k in a;
      assert k in origin.fields <==> k in b;
      if k in a { assert a[k] == b[k]; }
    }
  }

  // ----- the store -----

  /** `validate_wrapper_shape`: the wrapped receipt id, or `None` for a wrapper error. */
  function Validate(w: Json): Option<string> {
    if !w.Obj? || w.Get("wrapper_type") != Str(WRAPPER_TYPE)
       || w.Get("wrapper_version") != Str(WRAPPER_VERSION) then None
    else if !AllowedContext(w.Get("recording_context")) || !w.Get("wrapped_receipt_id").NonEmptyStr() then None
    else if !w.Get("wrapped_receipt_digest").NonEmptyStr() || !w.Get("recording_key_id").NonEmptyStr()
            || !w.Get("recording_signature").Obj? then None
    else Some(w.Get("wrapped_receipt_id").s)
  }

  const STORE := Policy("wrapped_receipt_id", s => s != "", Validate)

  lemma StoreLawful()
    ensures Lawful(STORE)
  {
    hide AllowedContext;
  }

  /** A built wrapper passes the store's shape check under its inner receipt's id. */
  lemma BuiltIsStorable(p: Platform, receipt: Json, privateKey: string, rec: Recording)
    requires Build(p, receipt, privateKey, rec).Some?
    ensures Validate(Build(p, receipt, privateKey, rec).value) == InnerId(receipt)
  {
    var id, digest := InnerId(receipt).value, InnerDigest(receipt).value;
    assert id != "" && digest != "";
    hide View, AuthorityBlock, SignatureOf, Canonical, InnerId, InnerDigest, IsTestnet, Json.Get;
    var testnet := IsTestnet(receipt).value;
    var view := View(receipt, rec, id, digest, testnet);
    var sig := SignatureOf(rec.kid, p.sign(privateKey, Canonical(view)));
    ViewHeader(receipt, rec, id, digest, testnet, sig);
    ViewBody(receipt, rec, id, digest, testnet, sig);
    SignatureFields(rec.kid, p.sign(privateKey, Canonical(view)));
  }

  /** A built wrapper, field by field: the caller's choices under their own names, the receipt as it came. */
  lemma BuiltSays(p: Platform, receipt: Json, privateKey: string, rec: Recording)
    requires Build(p, receipt, privateKey, rec).Some?
    ensures IsTestnet(receipt).Some? && InnerId(receipt).Some? && InnerDigest(receipt).Some?
    ensures var w := Build(p, receipt, privateKey, rec).value;
            && w.Get("receipt") == receipt
            && w.Get("wrapped_receipt_id") == Str(InnerId(receipt).value)
            && w.Get("wrapped_receipt_digest") == Str(InnerDigest(receipt).value)
            && w.Get("recording_event_id") == Str(rec.eventId) && w.Get("recording_context") == Str(rec.context)
            && w.Get("recording_service") == Str(rec.service) && w.Get("recording_key_id") == Str(rec.kid)
            && w.Get("observed_at") == Str(rec.observedAt) && w.Get("recorded_at") == Str(rec.recordedAt)
            && w.Get("signed_at") == Str(rec.signedAt)
            && w.Get("authority_boundary") == AuthorityBlock(IsTestnet(receipt).value)
  {
    hide AuthorityBlock, SignatureOf, Canonical, InnerId, InnerDigest, IsTestnet, Json.Get;
    var id, digest, testnet := InnerId(receipt).value, InnerDigest(receipt).value, IsTestnet(receipt).value;
    var sig := SignatureOf(rec.kid, p.sign(privateKey, Canonical(View(receipt, rec, id, digest, testnet))));
    ViewTimes(receipt, rec, id, digest, testnet, sig);
    ViewHeader(receipt, rec, id, digest, testnet, sig);
    ViewBody(receipt, rec, id, digest, testnet, sig);
    hide *;
  }

  lemma ViewTimes(receipt: Json, rec: Recording, id: string, digest: string, testnet: bool, sig: Json)
    ensures var w := Obj(View(receipt, rec, id, digest, testnet).fields["recording_signature" := sig]);
            && w.Get("recording_event_id") == Str(rec.eventId) && w.Get("recording_service") == Str(rec.service)
            && w.Get("observed_at") == Str(rec.observedAt) && w.Get("recorded_at") == Str(rec.recordedAt)
            && w.Get("signed_at") == Str(rec.signedAt)
  {
  }

  /** When a wrapper can be built. */
  lemma BuildsIff(p: Platform, receipt: Json, privateKey: string, rec: Recording)
    ensures Build(p, receipt, privateKey, rec).Some? <==>
            && receipt.Obj? && rec.kid != "" && (rec.context == "observation" || rec.context == "ingestion")
            && InnerId(receipt).Some? && InnerDigest(receipt).Some? && IsTestnet(receipt).Some?
  {
    hide View, SignatureOf, Canonical, InnerId, InnerDigest, IsTestnet;
  }

  /** When the store takes a wrapper, and under which key. */
  lemma StorableIff(w: Json, key: string)
    ensures Validate(w) == Some(key) <==>
            && w.Get("wrapper_type") == Str("sar402_recording_attribution")
            && w.Get("wrapper_version") == Str("sar402_recording_wrapper_v1")
            && (w.Get("recording_context") == Str("observation") || w.Get("recording_context") == Str("ingestion"))
            && w.Get("wrapped_receipt_id") == Str(key) && key != ""
            && w.Get("wrapped_receipt_digest").NonEmptyStr() && w.Get("recording_key_id").NonEmptyStr()
            && w.Get("recording_signature").Obj?
  {
  }

  /** What an authority block says. */
  lemma AuthoritySays(testnet: bool)
    ensures var block := AuthorityBlock(testnet);
            && block.Get("signature_attests_to") == Str("recording_attribution_only")
            && block.Get("source_evidence_created_by") == Str("resource_server")
            && block.Get("verifier_has_execution_authority") == Bool(false)
            && block.Get("verifier_controls_resource_release") == Bool(false)
            && block.Get("does_not_attest_to") == Arr(Disclaimers(testnet))
  {
    hide Disclaimers;
  }
}
