/** The `import/<name>` update handler of the transit engine: an existence
    guard, then a decoder from a base64-encoded JSON object to a policy. */
module KeyImport {
  import opened Wrappers
  import opened KeysUtil
  import opened JsonValues
  import opened Logical

  /** The decoders the handler calls, passed in as uninterpreted functions. */
  datatype Externals = Externals(
    /** `base64.StdEncoding.DecodeString`: the bytes, or the error's text */
    decodeBase64: string -> Result<seq<byte>, string>,
    /** `jsonutil.DecodeJSON` into a `map[string]interface{}` */
    decodeJson: seq<byte> -> Result<map<string, Json>, string>)

  /** The key-type switch of the decoder. */
  function ParseKeyType(s: string): (r: Option<KeyType>)
    ensures r.Some? ==> TypeName(r.value) == s
    ensures r.None? <==> s !in {"aes256-gcm96", "ecdsa-p256", "ed25519", "rsa-2048", "rsa-4096"}
  {
    if s == "aes256-gcm96" then Some(Aes256Gcm96)
    else if s == "ecdsa-p256" then Some(EcdsaP256)
    else if s == "ed25519" then Some(Ed25519)
    else if s == "rsa-2048" then Some(Rsa2048)
    else if s == "rsa-4096" then Some(Rsa4096)
    else None
  }

  /** The mapping is one-to-one: every family is imported under its own name. */
  lemma ParseTypeName(t: KeyType)
    ensures ParseKeyType(TypeName(t)) == Some(t)
  {
  }

  /** The fields the decoder requires after `type`, in the order it checks them. */
  const RequiredFields: seq<string> :=
    ["derived", "exportable", "deletion_allowed", "min_decryption_version", "min_encryption_version"]

  function MissingField(f: string): string {
    "missing " + Quote(f) + " in data"
  }

  function AlreadyExists(name: string): string {
    "key " + Quote(name) + " already exists"
  }

  function UnknownKeyType(s: string): string {
    "unknown key type " + Quote(s)
  }

  function AsString(v: Json): Option<string> {
    if v.JString? then Some(v.s) else None
  }

  function AsBool(v: Json): Option<bool> {
    if v.JBool? then Some(v.b) else None
  }

  /** How a decoded JSON number is turned into a Go `int`. */
  datatype IntCast =
    /** `v.(int)`, as the handler writes it: a JSON decoder yields `json.Number`
        or `float64` for numbers and never an `int`, so the assertion fails on
        every value */
    | TypeAssertion
    /** the evidently intended conversion of a JSON number to its integer value */
    | NumberValue

  function AsInt(how: IntCast, v: Json): (r: Option<int>)
    ensures how == TypeAssertion ==> r == None
    ensures how == NumberValue ==> (r.Some? <==> v.JNumber?)
    ensures how == NumberValue && v.JNumber? ==> r == Some(v.n)
  {
    match how
    case TypeAssertion => None
    case NumberValue => if v.JNumber? then Some(v.n) else None
  }

  /** Reads one required field: missing is an error response, present with
      the wrong kind is a failed type assertion. */
  function Field<T>(m: map<string, Json>, f: string, cast: Json -> Option<T>): (r: Result<T, Reply<()>>)
    ensures f !in m ==> r == Failure(ErrorResponse(MissingField(f)))
    ensures f in m && cast(m[f]).None? ==> r == Failure(Panic(f))
    ensures f in m && cast(m[f]).Some? ==> r == Success(cast(m[f]).value)
  {
    if f !in m then Failure(ErrorResponse(MissingField(f)))
    else match cast(m[f])
      case None => Failure(Panic(f))
      case Some(v) => Success(v)
  }

  /** The decoder: `type`, then the required fields in order, then a policy
      with the request's name, no versions and latest version zero. */
  function DecodeWith(how: IntCast, name: string, m: map<string, Json>): (r: Result<Policy, Reply<()>>)
    ensures "type" !in m ==> r == Failure(ErrorResponse(MissingField("type")))
    ensures "type" in m && !m["type"].JString? ==> r == Failure(Panic("type"))
    ensures "type" in m && m["type"].JString? && ParseKeyType(m["type"].s).None? ==>
              r == Failure(InvalidRequest(UnknownKeyType(m["type"].s)))
    ensures r.Success? ==>
              && r.value.name == name
              && "type" in m && m["type"] == JString(TypeName(r.value.keyType))
              && "derived" in m && m["derived"] == JBool(r.value.derived)
              && "exportable" in m && m["exportable"] == JBool(r.value.exportable)
              && "deletion_allowed" in m && m["deletion_allowed"] == JBool(r.value.deletionAllowed)
              && "min_decryption_version" in m
              && AsInt(how, m["min_decryption_version"]) == Some(r.value.minDecryptionVersion)
              && "min_encryption_version" in m
              && AsInt(how, m["min_encryption_version"]) == Some(r.value.minEncryptionVersion)
              && r.value.latestVersion == 0
              && r.value.keys == map[]
  {
    var typeName :- Field(m, "type", AsString);
    var keyType :- match ParseKeyType(typeName)
                   case None => Failure(InvalidRequest(UnknownKeyType(typeName)))
                   case Some(t) => Success(t);
    var derived :- Field(m, "derived", AsBool);
    var exportable :- Field(m, "exportable", AsBool);
    var deletionAllowed :- Field(m, "deletion_allowed", AsBool);
    var minDecryptionVersion :- Field(m, "min_decryption_version", v => AsInt(how, v));
    var minEncryptionVersion :- Field(m, "min_encryption_version", v => AsInt(how, v));
    Success(Policy(name, keyType, derived, exportable, deletionAllowed,
                   minDecryptionVersion, minEncryptionVersion, 0, map[]))
  }

  /** Reference definition of an acceptable payload: a known type name, and
      every required field present with the kind the decoder expects. */
  predicate WellFormed(m: map<string, Json>) {
    && "type" in m && m["type"].JString? && ParseKeyType(m["type"].s).Some?
    && "derived" in m && m["derived"].JBool?
    && "exportable" in m && m["exportable"].JBool?
    && "deletion_allowed" in m && m["deletion_allowed"].JBool?
    && "min_decryption_version" in m && m["min_decryption_version"].JNumber?
    && "min_encryption_version" in m && m["min_encryption_version"].JNumber?
  }

  /** The decoder as the handler is written: no payload is ever accepted, and
      one that gets past the boolean fields fails the `min_decryption_version`
      assertion. */
  function DecodeAsWritten(name: string, m: map<string, Json>): (r: Result<Policy, Reply<()>>)
    ensures r.Failure?
    ensures WellFormed(m) ==> r == Failure(Panic("min_decryption_version"))
  {
    DecodeWith(TypeAssertion, name, m)
  }

  /** The decoder with the integer fields read as JSON numbers: it accepts
      exactly the well-formed payloads. */
  function Decode(name: string, m: map<string, Json>): (r: Result<Policy, Reply<()>>)
    ensures r.Success? <==> WellFormed(m)
  {
    DecodeWith(NumberValue, name, m)
  }

  /** A payload carrying a policy's settings in the fields the decoder reads. */
  function SettingsPayload(p: Policy): map<string, Json> {
    map[
      "type" := JString(TypeName(p.keyType)),
      "derived" := JBool(p.derived),
      "exportable" := JBool(p.exportable),
      "deletion_allowed" := JBool(p.deletionAllowed),
      "min_decryption_version" := JNumber(p.minDecryptionVersion),
      "min_encryption_version" := JNumber(p.minEncryptionVersion)]
  }

  /** Decoding a policy's settings payload rebuilds those settings under the
      requested name, with no versions. */
  lemma DecodeSettingsPayload(name: string, p: Policy)
    ensures Decode(name, SettingsPayload(p))
            == Success(p.(name := name, latestVersion := 0, keys := map[]))
  {
  }

  /** A field value has the kind the decoder asserts for the j-th required field. */
  predicate KindOk(how: IntCast, j: nat, v: Json) {
    if j < 3 then v.JBool? else AsInt(how, v).Some?
  }

  /** With a known type and every earlier field present with the right kind,
      the error names the first required field that is missing, whatever the
      later fields hold. The handler as written reaches this for the first four
      fields; the corrected decoder for all five. */
  lemma FirstMissingReported(how: IntCast, name: string, m: map<string, Json>, i: nat)
    requires how == NumberValue || i < 4
    requires "type" in m && m["type"].JString? && ParseKeyType(m["type"].s).Some?
    requires i < |RequiredFields| && RequiredFields[i] !in m
    requires forall j | 0 <= j < i :: RequiredFields[j] in m && KindOk(how, j, m[RequiredFields[j]])
    ensures DecodeWith(how, name, m) == Failure(ErrorResponse(MissingField(RequiredFields[i])))
  {
    var f := RequiredFields;
    assert f[0] == "derived" && f[1] == "exportable" && f[2] == "deletion_allowed";
    assert f[3] == "min_decryption_version" && f[4] == "min_encryption_version";
    if i > 0 { assert f[0] in m; }
    if i > 1 { assert f[1] in m; }
    if i > 2 { assert f[2] in m; }
    if i > 3 { assert f[3] in m; }
  }

  /** With a known type and the earlier fields present with the right kind, a
      present field of the wrong kind fails its type assertion, which names it. */
  lemma WrongKindPanics(how: IntCast, name: string, m: map<string, Json>, i: nat)
    requires "type" in m && m["type"].JString? && ParseKeyType(m["type"].s).Some?
    requires i < |RequiredFields| && RequiredFields[i] in m && !KindOk(how, i, m[RequiredFields[i]])
    requires forall j | 0 <= j < i :: RequiredFields[j] in m && KindOk(how, j, m[RequiredFields[j]])
    ensures DecodeWith(how, name, m) == Failure(Panic(RequiredFields[i]))
  {
    var f := RequiredFields;
    assert f[0] == "derived" && f[1] == "exportable" && f[2] == "deletion_allowed";
    assert f[3] == "min_decryption_version" && f[4] == "min_encryption_version";
    if i > 0 { assert f[0] in m && KindOk(how, 0, m[f[0]]); }
    if i > 1 { assert f[1] in m && KindOk(how, 1, m[f[1]]); }
    if i > 2 { assert f[2] in m && KindOk(how, 2, m[f[2]]); }
    if i > 3 { assert f[3] in m && KindOk(how, 3, m[f[3]]); }
  }

  /** The handler, with the integer fields read as `how` says: the existence
      guard runs before the payload is looked at; success returns no response,
      and the policy it built is discarded. */
  function ImportUpdate(how: IntCast, x: Externals, store: map<string, Policy>, name: string, data: string)
    : (r: Reply<()>)
    ensures name in store ==> r == ErrorResponse(AlreadyExists(name))
    ensures name !in store && x.decodeBase64(data).Failure? ==>
              r == ErrorResponse("unable to base64 decode 'data': " + Quote(x.decodeBase64(data).error))
    ensures name !in store && x.decodeBase64(data).Success? && x.decodeJson(x.decodeBase64(data).value).Failure? ==>
              r == InternalError(x.decodeJson(x.decodeBase64(data).value).error)
    ensures name !in store && x.decodeBase64(data).Success? && x.decodeJson(x.decodeBase64(data).value).Success? &&
            DecodeWith(how, name, x.decodeJson(x.decodeBase64(data).value).value).Failure? ==>
              r == DecodeWith(how, name, x.decodeJson(x.decodeBase64(data).value).value).error
    ensures how == NumberValue ==>
              (r == Nothing <==>
                 && name !in store
                 && x.decodeBase64(data).Success?
                 && x.decodeJson(x.decodeBase64(data).value).Success?
                 && WellFormed(x.decodeJson(x.decodeBase64(data).value).value))
    ensures how == TypeAssertion ==> r != Nothing
  {
    if name in store then ErrorResponse(AlreadyExists(name))
    else match x.decodeBase64(data)
      case Failure(e) => ErrorResponse("unable to base64 decode 'data': " + Quote(e))
      case Success(bytes) =>
        match x.decodeJson(bytes)
        case Failure(e) => InternalError(e)
        case Success(m) =>
          assert how == NumberValue ==> DecodeWith(how, name, m) == Decode(name, m);
          assert how == TypeAssertion ==> DecodeWith(how, name, m) == DecodeAsWritten(name, m);
          match DecodeWith(how, name, m)
          case Failure(reply) => reply
          case Success(_) => Nothing
  }

  /** The example payload: an exportable aes256-gcm96 key with both minimum versions 1. */
  function ExamplePayload(): map<string, Json> {
    map[
      "type" := JString("aes256-gcm96"),
      "derived" := JBool(false),
      "exportable" := JBool(true),
      "deletion_allowed" := JBool(false),
      "min_decryption_version" := JNumber(1),
      "min_encryption_version" := JNumber(1)]
  }

  /** On the example payload the handler as written panics, while the
      corrected decoder builds the described policy. */
  lemma ExamplePayloadDiscrepancy()
    ensures DecodeAsWritten("k1", ExamplePayload()) == Failure(Panic("min_decryption_version"))
    ensures Decode("k1", ExamplePayload())
            == Success(Policy("k1", Aes256Gcm96, false, true, false, 1, 1, 0, map[]))
  {
  }
}
