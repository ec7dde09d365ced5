/** The enrollment envelope: what is sealed opens again, and every envelope has one spelling. */
module Enroll {
  import opened Wrappers
  import opened Json
  import opened Encodings

  type Object = map<string, Json>

  const ENVELOPE_FORMAT := "kantaq-enroll/v1"
  const PAYLOAD_FORMAT := "kantaq-enroll-payload/v1"
  const KDF_NAME := "argon2id"
  const SALT_BYTES := 16
  const NONCE_BYTES := 24
  const MAX_BUNDLE_BYTES := 0x10000
  const OPSLIMIT_MIN := 1
  const MAX_KDF_OPSLIMIT := 3
  const MEMLIMIT_MIN := 8192
  const MAX_KDF_MEMLIMIT := 0x1000_0000
  const BACKEND_MODE_POSTGRES := "postgres"

  datatype EnrollError = BundleFormatError | BundleDecryptError

  // ---------------------------------------------------------------------------------- envelope

  datatype Envelope = Envelope(salt: seq<byte>, opslimit: int, memlimit: int, nonce: seq<byte>, ciphertext: seq<byte>)

  predicate IsWithinLimits(e: Envelope) {
    && |e.salt| == SALT_BYTES && |e.nonce| == NONCE_BYTES
    && OPSLIMIT_MIN <= e.opslimit <= MAX_KDF_OPSLIMIT
    && MEMLIMIT_MIN <= e.memlimit <= MAX_KDF_MEMLIMIT && e.memlimit % 1024 == 0
  }

  const ENVELOPE_KEYS := {"format", "kdf", "salt", "opslimit", "memlimit", "nonce", "ciphertext"}

  function WriteHeader(e: Envelope): Object {
    map["format" := Str(ENVELOPE_FORMAT), "kdf" := Str(KDF_NAME), "salt" := Str(ToHex(e.salt)),
        "opslimit" := Int(e.opslimit), "memlimit" := Int(e.memlimit), "nonce" := Str(ToHex(e.nonce)),
        "ciphertext" := Str(ToBase64(e.ciphertext))]
  }

  function HexField(value: Json, length: nat): Option<seq<byte>> {
    if !value.Str? then None
    else
      var raw := FromHex(value.text);
      if raw.None? || |raw.value| != length || value.text != ToHex(raw.value) then None else raw
  }

  function Base64Field(value: Json): Option<seq<byte>> {
    if !value.Str? then None
    else
      var raw := FromBase64(value.text);
      if raw.None? || ToBase64(raw.value) != value.text then None else raw
  }

  function ParseHeader(header: Object): Result<Envelope, EnrollError> {
    if header.Keys != ENVELOPE_KEYS then Err(BundleFormatError)
    else if header["format"] != Str(ENVELOPE_FORMAT) then Err(BundleFormatError)
    else if header["kdf"] != Str(KDF_NAME) then Err(BundleFormatError)
    else
      var opslimit, memlimit := header["opslimit"], header["memlimit"];
      if !opslimit.Int? || !memlimit.Int? then Err(BundleFormatError)
      else if !(OPSLIMIT_MIN <= opslimit.number <= MAX_KDF_OPSLIMIT) then Err(BundleFormatError)
      else if !(MEMLIMIT_MIN <= memlimit.number <= MAX_KDF_MEMLIMIT) then Err(BundleFormatError)
      else if memlimit.number % 1024 != 0 then Err(BundleFormatError)
      else
        var salt, nonce := HexField(header["salt"], SALT_BYTES), HexField(header["nonce"], NONCE_BYTES);
        var ciphertext := Base64Field(header["ciphertext"]);
        if salt.None? || nonce.None? || ciphertext.None? then Err(BundleFormatError)
        else Ok(Envelope(salt.value, opslimit.number, memlimit.number, nonce.value, ciphertext.value))
  }

  lemma HexFieldExactly(value: Json, length: nat, raw: seq<byte>)
    ensures HexField(value, length) == Some(raw) <==> |raw| == length && value == Str(ToHex(raw))
  {
    HexReadsBack(raw);
  }

  lemma Base64FieldExactly(value: Json, raw: seq<byte>)
    ensures Base64Field(value) == Some(raw) <==> value == Str(ToBase64(raw))
  {
    Base64ReadsBack(raw);
  }

  /** A header means an envelope exactly when it is the one spelling of it, and the envelope is within the limits. */
  lemma HeaderIsCanonical(header: Object, e: Envelope)
    ensures ParseHeader(header) == Ok(e) <==> IsWithinLimits(e) && header == WriteHeader(e)
  {
    if header.Keys == ENVELOPE_KEYS {
      HexFieldExactly(header["salt"], SALT_BYTES, e.salt);
      HexFieldExactly(header["nonce"], NONCE_BYTES, e.nonce);
      Base64FieldExactly(header["ciphertext"], e.ciphertext);
      HeaderByField(header, e);
    } else {
      assert WriteHeader(e).Keys == ENVELOPE_KEYS;
    }
  }

  /** Written out: seven members, two names, three bounds on what the key costs, and two lengths. */
  lemma HeaderMeans(header: Object, e: Envelope)
    ensures ParseHeader(header) == Ok(e) <==>
              && header.Keys == {"format", "kdf", "salt", "opslimit", "memlimit", "nonce", "ciphertext"}
              && header["format"] == Str("kantaq-enroll/v1") && header["kdf"] == Str("argon2id")
              && header["opslimit"] == Int(e.opslimit) && 1 <= e.opslimit <= 3
              && header["memlimit"] == Int(e.memlimit) && 8_192 <= e.memlimit <= 268_435_456 && e.memlimit % 1_024 == 0
              && header["salt"] == Str(ToHex(e.salt)) && |e.salt| == 16
              && header["nonce"] == Str(ToHex(e.nonce)) && |e.nonce| == 24
              && header["ciphertext"] == Str(ToBase64(e.ciphertext))
  {
    HeaderIsCanonical(header, e);
    if header.Keys == ENVELOPE_KEYS {
      HeaderByField(header, e);
    } else {
      assert WriteHeader(e).Keys == ENVELOPE_KEYS;
    }
  }

  lemma HeaderByField(header: Object, e: Envelope)
    requires header.Keys == ENVELOPE_KEYS
    ensures header == WriteHeader(e) <==>
              && header["format"] == Str(ENVELOPE_FORMAT) && header["kdf"] == Str(KDF_NAME)
              && header["salt"] == Str(ToHex(e.salt)) && header["nonce"] == Str(ToHex(e.nonce))
              && header["opslimit"] == Int(e.opslimit) && header["memlimit"] == Int(e.memlimit)
              && header["ciphertext"] == Str(ToBase64(e.ciphertext))
  {
    var written := WriteHeader(e);
    assert written.Keys == ENVELOPE_KEYS;
    assert written["format"] == Str(ENVELOPE_FORMAT) && written["kdf"] == Str(KDF_NAME);
    assert written["salt"] == Str(ToHex(e.salt)) && written["nonce"] == Str(ToHex(e.nonce));
    assert written["opslimit"] == Int(e.opslimit) && written["memlimit"] == Int(e.memlimit);
  }

  /** No two headers mean the same envelope. */
  lemma HeadersDoNotCoincide(a: Object, b: Object)
    requires ParseHeader(a).Ok? && ParseHeader(a) == ParseHeader(b)
    ensures a == b
  {
    HeaderIsCanonical(a, ParseHeader(a).value);
    HeaderIsCanonical(b, ParseHeader(b).value);
  }

  // ----------------------------------------------------------------------------------- payload

  datatype EnrollPayload = EnrollPayload(
    backendMode: string,
    hubUrl: string,
    hubToken: string,
    memberId: string,
    memberEmail: string,
    workspaceId: string,
    workspaceName: string,
    issuedAt: int,
    expiresAt: int)

  const PAYLOAD_STR_FIELDS :=
    {"backend_mode", "hub_url", "hub_token", "member_id", "member_email", "workspace_id", "workspace_name"}
  const PAYLOAD_INT_FIELDS := {"issued_at", "expires_at"}

  function WritePayload(p: EnrollPayload): Object {
    map["format" := Str(PAYLOAD_FORMAT), "backend_mode" := Str(p.backendMode), "hub_url" := Str(p.hubUrl),
        "hub_token" := Str(p.hubToken), "member_id" := Str(p.memberId), "member_email" := Str(p.memberEmail),
        "workspace_id" := Str(p.workspaceId), "workspace_name" := Str(p.workspaceName),
        "issued_at" := Int(p.issuedAt), "expires_at" := Int(p.expiresAt)]
  }

  predicate IsHttpUrl(url: string) {
    "http://" <= url || "https://" <= url
  }

  /** What the parser asks of a payload. */
  predicate MeetsRules(p: EnrollPayload) {
    && p.backendMode == BACKEND_MODE_POSTGRES && IsHttpUrl(p.hubUrl) && p.hubToken != "" && p.memberId != ""
    && p.memberEmail != "" && p.workspaceId != "" && p.workspaceName != "" && p.expiresAt > p.issuedAt
  }

  function ParsePayload(body: Object): Result<EnrollPayload, EnrollError> {
    if body.Keys != {"format"} + PAYLOAD_STR_FIELDS + PAYLOAD_INT_FIELDS then Err(BundleFormatError)
    else if body["format"] != Str(PAYLOAD_FORMAT) then Err(BundleFormatError)
    else if exists key :: key in PAYLOAD_STR_FIELDS && (!body[key].Str? || body[key].text == "") then Err(BundleFormatError)
    else if exists key :: key in PAYLOAD_INT_FIELDS && !body[key].Int? then Err(BundleFormatError)
    else if !IsHttpUrl(body["hub_url"].text) then Err(BundleFormatError)
    else if body["expires_at"].number <= body["issued_at"].number then Err(BundleFormatError)
    else if body["backend_mode"].text != BACKEND_MODE_POSTGRES then Err(BundleFormatError)
    else
      Ok(EnrollPayload(body["backend_mode"].text, body["hub_url"].text, body["hub_token"].text, body["member_id"].text,
                       body["member_email"].text, body["workspace_id"].text, body["workspace_name"].text,
                       body["issued_at"].number, body["expires_at"].number))
  }

  /** A body means a payload exactly when it is the one spelling of it, and the payload meets the rules. */
  lemma PayloadIsCanonical(body: Object, p: EnrollPayload)
    ensures ParsePayload(body) == Ok(p) <==> MeetsRules(p) && body == WritePayload(p)
  {
    if body.Keys == {"format"} + PAYLOAD_STR_FIELDS + PAYLOAD_INT_FIELDS {
      PayloadByField(body, p);
    } else {
      assert WritePayload(p).Keys == {"format"} + PAYLOAD_STR_FIELDS + PAYLOAD_INT_FIELDS;
    }
  }

  /** The spelling of a payload, member by member. */
  lemma BodyMeans(body: Object, p: EnrollPayload)
    ensures body == WritePayload(p) <==>
              && body.Keys == {"format", "backend_mode", "hub_url", "hub_token", "member_id", "member_email", "workspace_id",
                               "workspace_name", "issued_at", "expires_at"}
              && body["format"] == Str("kantaq-enroll-payload/v1")
              && body["backend_mode"] == Str(p.backendMode) && body["hub_url"] == Str(p.hubUrl)
              && body["hub_token"] == Str(p.hubToken) && body["member_id"] == Str(p.memberId)
              && body["member_email"] == Str(p.memberEmail) && body["workspace_id"] == Str(p.workspaceId)
              && body["workspace_name"] == Str(p.workspaceName)
              && body["issued_at"] == Int(p.issuedAt) && body["expires_at"] == Int(p.expiresAt)
  {
    if body.Keys == {"format"} + PAYLOAD_STR_FIELDS + PAYLOAD_INT_FIELDS {
      PayloadByField(body, p);
    } else {
      assert WritePayload(p).Keys == {"format"} + PAYLOAD_STR_FIELDS + PAYLOAD_INT_FIELDS;
    }
  }

  /** Written out: ten members, of which seven hold some text, and a validity that is not over when it begins. */
  lemma PayloadMeans(body: Object, p: EnrollPayload)
    ensures ParsePayload(body) == Ok(p) <==>
              && body.Keys == {"format", "backend_mode", "hub_url", "hub_token", "member_id", "member_email", "workspace_id",
                               "workspace_name", "issued_at", "expires_at"}
              && body["format"] == Str("kantaq-enroll-payload/v1") && body["backend_mode"] == Str("postgres") == Str(p.backendMode)
              && body["hub_url"] == Str(p.hubUrl)
              && ((|p.hubUrl| >= 7 && p.hubUrl[..7] == "http://") || (|p.hubUrl| >= 8 && p.hubUrl[..8] == "https://"))
              && body["hub_token"] == Str(p.hubToken) && p.hubToken != ""
              && body["member_id"] == Str(p.memberId) && p.memberId != ""
              && body["member_email"] == Str(p.memberEmail) && p.memberEmail != ""
              && body["workspace_id"] == Str(p.workspaceId) && p.workspaceId != ""
              && body["workspace_name"] == Str(p.workspaceName) && p.workspaceName != ""
              && body["issued_at"] == Int(p.issuedAt) && body["expires_at"] == Int(p.expiresAt) && p.issuedAt < p.expiresAt
  {
    PayloadIsCanonical(body, p);
    BodyMeans(body, p);
  }

  lemma PayloadByField(body: Object, p: EnrollPayload)
    requires body.Keys == {"format"} + PAYLOAD_STR_FIELDS + PAYLOAD_INT_FIELDS
    ensures body == WritePayload(p) <==>
              && body["format"] == Str(PAYLOAD_FORMAT)
              && body["backend_mode"] == Str(p.backendMode) && body["hub_url"] == Str(p.hubUrl)
              && body["hub_token"] == Str(p.hubToken) && body["member_id"] == Str(p.memberId)
              && body["member_email"] == Str(p.memberEmail) && body["workspace_id"] == Str(p.workspaceId)
              && body["workspace_name"] == Str(p.workspaceName)
              && body["issued_at"] == Int(p.issuedAt) && body["expires_at"] == Int(p.expiresAt)
  {
    var written := WritePayload(p);
    assert written.Keys == body.Keys;
    assert written["format"] == Str(PAYLOAD_FORMAT);
    assert written["backend_mode"] == Str(p.backendMode) && written["hub_url"] == Str(p.hubUrl);
    assert written["hub_token"] == Str(p.hubToken) && written["member_id"] == Str(p.memberId);
    assert written["member_email"] == Str(p.memberEmail) && written["workspace_id"] == Str(p.workspaceId);
    assert written["workspace_name"] == Str(p.workspaceName);
    assert written["issued_at"] == Int(p.issuedAt) && written["expires_at"] == Int(p.expiresAt);
  }

  const FIELD_NAMES := [
    "format", "backend_mode", "hub_url", "hub_token", "member_id", "member_email", "workspace_id", "workspace_name",
    "issued_at", "expires_at"]

  // ---------------------------------------------------------------------------- seal and unseal

  type Key = seq<byte>

  /** JSON text, key derivation, and authenticated encryption. */
  datatype Tools = Tools(
    dump: Object -> seq<byte>,
    load: seq<byte> -> Option<Json>,
    derive: (string, seq<byte>, int, int) -> Key,
    encrypt: (Key, seq<byte>, seq<byte>) -> seq<byte>,
    decrypt: (Key, seq<byte>, seq<byte>) -> Option<seq<byte>>)

  /**
   The text of a header and of a payload reads back, and decryption opens what was encrypted under
   the key and the nonce, and nothing else.
   */
  ghost predicate AreSound(t: Tools) {
    && (forall e :: t.load(t.dump(WriteHeader(e))) == Some(Obj(WriteHeader(e))))
    && (forall p :: t.load(t.dump(WritePayload(p))) == Some(Obj(WritePayload(p))))
    && (forall k, n, c, m :: t.decrypt(k, n, c) == Some(m) <==> c == t.encrypt(k, n, m))
  }

  /** The costs that sealing uses: the moderate profile, or the fast one. */
  datatype Profile = Moderate | Fast

  function Limits(profile: Profile): (int, int) {
    if profile.Moderate? then (MAX_KDF_OPSLIMIT, MAX_KDF_MEMLIMIT) else (OPSLIMIT_MIN, MEMLIMIT_MIN)
  }

  function Sealed(t: Tools, p: EnrollPayload, passcode: string, profile: Profile, salt: seq<byte>, nonce: seq<byte>): Envelope {
    var (opslimit, memlimit) := Limits(profile);
    var key := t.derive(passcode, salt, opslimit, memlimit);
    Envelope(salt, opslimit, memlimit, nonce, t.encrypt(key, nonce, t.dump(WritePayload(p))))
  }

  /** Salt and nonce are drawn at random. */
  function Seal(t: Tools, p: EnrollPayload, passcode: string, profile: Profile, salt: seq<byte>, nonce: seq<byte>): seq<byte> {
    t.dump(WriteHeader(Sealed(t, p, passcode, profile, salt, nonce)))
  }

  function ParseEnvelope(t: Tools, data: seq<byte>): Result<Envelope, EnrollError> {
    if |data| > MAX_BUNDLE_BYTES then Err(BundleFormatError)
    else
      var header := t.load(data);
      if header.None? || !header.value.Obj? then Err(BundleFormatError) else ParseHeader(header.value.fields)
  }

  function Unseal(t: Tools, data: seq<byte>, passcode: string): Result<EnrollPayload, EnrollError> {
    match ParseEnvelope(t, data)
    case Err(error) => Err(error)
    case Ok(e) =>
      var plaintext := t.decrypt(t.derive(passcode, e.salt, e.opslimit, e.memlimit), e.nonce, e.ciphertext);
      if plaintext.None? then Err(BundleDecryptError)
      else
        var body := t.load(plaintext.value);
        if body.None? || !body.value.Obj? then Err(BundleFormatError) else ParsePayload(body.value.fields)
  }

  /**
   What is sealed opens, to the same payload, exactly when the payload meets the parser's rules
   and the sealed bytes are within the size cap, neither of which sealing checks.
   */
  lemma SealThenUnsealIff(t: Tools, p: EnrollPayload, passcode: string, profile: Profile, salt: seq<byte>, nonce: seq<byte>)
    requires AreSound(t) && |salt| == SALT_BYTES && |nonce| == NONCE_BYTES
    ensures var data := Seal(t, p, passcode, profile, salt, nonce);
            && (Unseal(t, data, passcode) == Ok(p) <==> MeetsRules(p) && |data| <= MAX_BUNDLE_BYTES)
            && (Unseal(t, data, passcode).Ok? ==> Unseal(t, data, passcode) == Ok(p))
  {
    var e := Sealed(t, p, passcode, profile, salt, nonce);
    EnvelopeReadsBack(t, e);
    PayloadIsCanonical(WritePayload(p), p);
    OnlySpelling(p);
    var key, text := t.derive(passcode, e.salt, e.opslimit, e.memlimit), t.dump(WritePayload(p));
    assert t.decrypt(key, nonce, e.ciphertext) == Some(text);
    assert t.load(text) == Some(Obj(WritePayload(p)));
  }

  lemma EnvelopeReadsBack(t: Tools, e: Envelope)
    requires AreSound(t) && IsWithinLimits(e)
    ensures var data := t.dump(WriteHeader(e));
            ParseEnvelope(t, data) == if |data| <= MAX_BUNDLE_BYTES then Ok(e) else Err(BundleFormatError)
  {
    HeaderIsCanonical(WriteHeader(e), e);
  }

  /** A payload without a token is sealed without complaint, and what is sealed does not open. */
  lemma EmptyTokenDoesNotOpen(t: Tools, p: EnrollPayload, passcode: string, profile: Profile, salt: seq<byte>, nonce: seq<byte>)
    requires AreSound(t) && |salt| == SALT_BYTES && |nonce| == NONCE_BYTES && p.hubToken == ""
    ensures Unseal(t, Seal(t, p, passcode, profile, salt, nonce), passcode).Err?
  {
    SealThenUnsealIff(t, p, passcode, profile, salt, nonce);
  }

  /** A payload's spelling means no other payload. */
  lemma OnlySpelling(p: EnrollPayload)
    ensures ParsePayload(WritePayload(p)).Ok? ==> ParsePayload(WritePayload(p)) == Ok(p)
  {
    PayloadByField(WritePayload(p), p) by {
      assert WritePayload(p).Keys == {"format"} + PAYLOAD_STR_FIELDS + PAYLOAD_INT_FIELDS;
    }
  }

  /** What opens was sealed: the header is the one spelling of an encryption, under the passcode, of the payload's text. */
  lemma UnsealedWasSealed(t: Tools, data: seq<byte>, passcode: string, p: EnrollPayload)
    requires AreSound(t) && Unseal(t, data, passcode) == Ok(p)
    ensures |data| <= MAX_BUNDLE_BYTES && MeetsRules(p)
    ensures exists e, text :: t.load(data) == Some(Obj(WriteHeader(e))) && WasSealed(t, passcode, e, text, p)
  {
    var e := ParseEnvelope(t, data).value;
    var header := t.load(data).value.fields;
    HeaderIsCanonical(header, e);
    var key := t.derive(passcode, e.salt, e.opslimit, e.memlimit);
    var text := t.decrypt(key, e.nonce, e.ciphertext).value;
    assert t.decrypt(key, e.nonce, e.ciphertext) == Some(text);
    PayloadIsCanonical(t.load(text).value.fields, p);
    assert WasSealed(t, passcode, e, text, p);
  }

  /** Exactly what was sealed by the passcode opens, if it is in the one spelling, short enough and meets the rules. */
  lemma UnsealIff(t: Tools, data: seq<byte>, passcode: string, p: EnrollPayload)
    requires AreSound(t)
    ensures Unseal(t, data, passcode) == Ok(p) <==>
              && |data| <= 65_536 && MeetsRules(p)
              && exists e, text :: t.load(data) == Some(Obj(WriteHeader(e))) && WasSealed(t, passcode, e, text, p)
    ensures Unseal(t, data, passcode) == Err(BundleDecryptError) <==>
              && |data| <= 65_536
              && exists e :: t.load(data) == Some(Obj(WriteHeader(e))) && IsWithinLimits(e) && DoesNotOpen(t, passcode, e)
  {
    if Unseal(t, data, passcode) == Ok(p) {
      UnsealedWasSealed(t, data, passcode, p);
    }
    if e, text :| t.load(data) == Some(Obj(WriteHeader(e))) && WasSealed(t, passcode, e, text, p) {
      HeaderIsCanonical(WriteHeader(e), e);
      var key := t.derive(passcode, e.salt, e.opslimit, e.memlimit);
      assert t.decrypt(key, e.nonce, e.ciphertext) == Some(text);
      PayloadIsCanonical(WritePayload(p), p);
    }
    if e :| t.load(data) == Some(Obj(WriteHeader(e))) && IsWithinLimits(e) && DoesNotOpen(t, passcode, e) {
      HeaderIsCanonical(WriteHeader(e), e);
    }
    if Unseal(t, data, passcode) == Err(BundleDecryptError) {
      var e := ParseEnvelope(t, data).value;
      HeaderIsCanonical(t.load(data).value.fields, e);
      assert DoesNotOpen(t, passcode, e);
    }
  }

  /** Nothing encrypted under the passcode is the ciphertext. */
  predicate DoesNotOpen(t: Tools, passcode: string, e: Envelope) {
    t.decrypt(t.derive(passcode, e.salt, e.opslimit, e.memlimit), e.nonce, e.ciphertext).None?
  }

  /** The moderate profile is three passes over 256 mebibytes, the fast one a pass over 8 kibibytes. */
  lemma SealedCosts(t: Tools, p: EnrollPayload, passcode: string, profile: Profile, salt: seq<byte>, nonce: seq<byte>)
    ensures var e := Sealed(t, p, passcode, profile, salt, nonce);
            && e.opslimit == (match profile case Moderate => 3 case Fast => 1)
            && e.memlimit == (match profile case Moderate => 268_435_456 case Fast => 8_192)
            && e.salt == salt && e.nonce == nonce
  {
  }

  predicate WasSealed(t: Tools, passcode: string, e: Envelope, text: seq<byte>, p: EnrollPayload) {
    && IsWithinLimits(e)
    && e.ciphertext == t.encrypt(t.derive(passcode, e.salt, e.opslimit, e.memlimit), e.nonce, text)
    && t.load(text) == Some(Obj(WritePayload(p)))
  }
}
