/** The `export/<type>/<name>[/<version>]` read handler of the transit engine
    and the per-entry rendering it dispatches to. */
module KeyExport {
  import opened Wrappers
  import opened Strconv
  import opened KeysUtil
  import opened JsonValues
  import opened Logical

  /** The fixed enumeration of export classes. */
  datatype ExportClass = EncryptionKey | SigningKey | HmacKey | All

  function ClassName(c: ExportClass): string {
    match c
    case EncryptionKey => "encryption-key"
    case SigningKey => "signing-key"
    case HmacKey => "hmac-key"
    case All => "all"
  }

  /** The class-name switch at the top of the handler. */
  function ParseExportClass(s: string): (r: Option<ExportClass>)
    ensures r.None? <==> s !in {"encryption-key", "signing-key", "hmac-key", "all"}
    ensures r.Some? ==> ClassName(r.value) == s
  {
    if s == "encryption-key" then Some(EncryptionKey)
    else if s == "signing-key" then Some(SigningKey)
    else if s == "hmac-key" then Some(HmacKey)
    else if s == "all" then Some(All)
    else None
  }

  /** Every class is recognised under its own name. */
  lemma ParseClassName(c: ExportClass)
    ensures ParseExportClass(ClassName(c)) == Some(c)
  {
  }

  /** The keysutil operations the handler calls but whose code is not part of
      this model, passed in as uninterpreted functions. */
  datatype Externals = Externals(
    /** `strings.TrimSpace(base64.StdEncoding.EncodeToString(b))` */
    base64: seq<byte> -> string,
    /** `keysutil.EncodeRSAPrivateKey` */
    rsaPem: seq<byte> -> string,
    /** `keysutil.KeyEntryToECPrivateKey(entry, elliptic.P256())`; it may fail */
    ecPem: KeyEntry -> Result<string, string>,
    /** `p.Map(nil, true)`; it may fail */
    policyMap: Policy -> Result<map<string, Json>, string>,
    /** `KeyType.EncryptionSupported()` */
    encryptionSupported: KeyType -> bool,
    /** `KeyType.SigningSupported()` */
    signingSupported: KeyType -> bool)

  /** What a successful export returns: the rendered keys of a key class, or
      the whole policy for the class `all`. */
  datatype ExportData =
    | KeySet(name: string, typeName: string, keys: map<string, string>)
    | PolicyDump(fields: map<string, Json>)

  const NotExportable := "key is not exportable"
  const EncryptionUnsupported := "encryption not supported for the key"
  const SigningUnsupported := "signing not supported for the key"
  const InvalidVersion := "invalid key version"
  const BelowMinimum := "version for export is below minimun decryption version"
  const VersionMissing := "version does not exist or cannot be found"

  function InvalidExportType(s: string): string {
    "invalid export type: " + s
  }

  function UnknownKeyType(t: KeyType): string {
    "unknown key type " + TypeName(t)
  }

  /** The (class, family) pairs the rendering switch has a case for. */
  predicate HasRenderRule(c: ExportClass, t: KeyType) {
    || c == HmacKey
    || (c == EncryptionKey && t in {Aes256Gcm96, Rsa2048, Rsa4096})
    || (c == SigningKey && t in {EcdsaP256, Ed25519, Rsa2048, Rsa4096})
  }

  /** Renders one key entry of policy p for export class c. */
  function ExportKey(x: Externals, p: Policy, e: KeyEntry, c: ExportClass): (r: Result<string, string>)
    ensures c == HmacKey ==> r == Success(x.base64(e.hmacKey))
    ensures c == EncryptionKey && p.keyType == Aes256Gcm96 ==> r == Success(x.base64(e.key))
    ensures c == SigningKey && p.keyType == Ed25519 ==> r == Success(x.base64(e.key))
    ensures c in {EncryptionKey, SigningKey} && p.keyType.IsRsa() ==> r == Success(x.rsaPem(e.rsaKey))
    ensures c == SigningKey && p.keyType == EcdsaP256 ==> r == x.ecPem(e)
    ensures !HasRenderRule(c, p.keyType) ==> r == Failure(UnknownKeyType(p.keyType))
  {
    match c
    case HmacKey => Success(x.base64(e.hmacKey))
    case EncryptionKey =>
      (match p.keyType
       case Aes256Gcm96 => Success(x.base64(e.key))
       case Rsa2048 => Success(x.rsaPem(e.rsaKey))
       case Rsa4096 => Success(x.rsaPem(e.rsaKey))
       case _ => Failure(UnknownKeyType(p.keyType)))
    case SigningKey =>
      (match p.keyType
       case EcdsaP256 => x.ecPem(e)
       case Ed25519 => Success(x.base64(e.key))
       case Rsa2048 => Success(x.rsaPem(e.rsaKey))
       case Rsa4096 => Success(x.rsaPem(e.rsaKey))
       case _ => Failure(UnknownKeyType(p.keyType)))
    case All => Failure(UnknownKeyType(p.keyType))
  }

  /** The capability gate: the refusal message, if the family cannot serve the class. */
  function CapabilityRefusal(x: Externals, t: KeyType, c: ExportClass): (r: Option<string>)
    ensures r.Some? <==> (c == EncryptionKey && !x.encryptionSupported(t)) || (c == SigningKey && !x.signingSupported(t))
    ensures r.Some? ==> r.value == (if c == EncryptionKey then EncryptionUnsupported else SigningUnsupported)
  {
    match c
    case EncryptionKey => if x.encryptionSupported(t) then None else Some(EncryptionUnsupported)
    case SigningKey => if x.signingSupported(t) then None else Some(SigningUnsupported)
    case _ => None
  }

  /** `strings.TrimPrefix(s, "v")`: removes one leading `v` when there is one. */
  function TrimV(s: string): (r: string)
    ensures if |s| > 0 && s[0] == 'v' then "v" + r == s else r == s
  {
    if |s| > 0 && s[0] == 'v' then s[1..] else s
  }

  /** Resolves a non-empty version selector: `latest`, or an optionally
      `v`-prefixed decimal number. None is an unparsable selector. */
  function ResolveVersion(version: string, latest: int): (r: Option<int>)
    ensures version == "latest" ==> r == Some(latest)
    ensures version != "latest" ==>
              (r.Some? <==> IsDecimalLiteral(TrimV(version)) && InInt64(LiteralValue(TrimV(version))))
    ensures version != "latest" && r.Some? ==> r.value == LiteralValue(TrimV(version)) && InInt64(r.value)
  {
    if version == "latest" then Some(latest) else Atoi(TrimV(version))
  }

  /** The decimal form of any 64-bit version selects that version, with or without one `v`. */
  lemma SelectByNumber(n: int, latest: int)
    requires InInt64(n)
    ensures ResolveVersion(Itoa(n), latest) == Some(n)
    ensures ResolveVersion("v" + Itoa(n), latest) == Some(n)
  {
    ItoaShape(n);
    AtoiItoa(n);
    assert ("v" + Itoa(n))[1..] == Itoa(n);
  }

  /** One leading `v` is optional: `vS` and `S` select the same version
      unless S is empty, `latest`, or itself starts with `v`. */
  lemma PrefixIsOptional(s: string, latest: int)
    requires s != "" && s != "latest" && s[0] != 'v'
    ensures ResolveVersion("v" + s, latest) == ResolveVersion(s, latest)
  {
    var t := "v" + s;
    assert t[0] == 'v' && t[1..] == s;
    assert t != "latest" by { assert "latest"[0] == 'l'; }
  }

  /** Only one `v` is stripped: a selector starting with `vv` never resolves. */
  lemma DoublePrefixRejected(s: string, latest: int)
    ensures ResolveVersion("vv" + s, latest) == None
  {
    var t := "vv" + s;
    assert t[0] == 'v' && t[1..] == "v" + s && (t[1..])[0] == 'v';
    assert t != "latest" by { assert "latest"[0] == 'l'; }
    assert !IsDecimalLiteral(t[1..]);
  }

  /** Every version of p renders successfully for class c. */
  ghost predicate AllRender(x: Externals, p: Policy, c: ExportClass) {
    forall k | k in p.keys :: ExportKey(x, p, p.keys[k], c).Success?
  }

  /** Reference definition of the collection export: every version of p,
      labelled by its decimal form, mapped to its rendering. */
  function RenderedVersions(x: Externals, p: Policy, c: ExportClass): (m: map<string, string>)
    requires AllRender(x, p, c)
    ensures m.Keys == set k | k in p.keys :: Itoa(k)
    ensures forall k | k in p.keys :: m[Itoa(k)] == ExportKey(x, p, p.keys[k], c).value
  {
    assert forall a, b :: Itoa(a) == Itoa(b) ==> a == b by {
      forall a, b { ItoaInjective(a, b); }
    }
    map k | k in p.keys :: Itoa(k) := ExportKey(x, p, p.keys[k], c).value
  }

  /** The outcomes the collection export may produce: the full rendered set
      when every version renders, otherwise the error of some version that
      does not (Go visits a map in no fixed order). */
  ghost predicate ListsEveryVersion(x: Externals, p: Policy, c: ExportClass, r: Reply<ExportData>) {
    && (AllRender(x, p, c) ==> r == Data(KeySet(p.name, TypeName(p.keyType), RenderedVersions(x, p, c))))
    && (!AllRender(x, p, c) ==>
          exists k | k in p.keys :: ExportKey(x, p, p.keys[k], c).Failure? && r == InternalError(ExportKey(x, p, p.keys[k], c).error))
  }

  /** A non-empty set of versions has a member to visit next. */
  lemma HasMember(s: set<int>)
    requires s != {}
    ensures exists k :: k in s
  {
    if forall k :: k !in s {
      assert false;
    }
  }

  /** Export with no version selector: every version, in arbitrary order,
      stopping at the first one that fails to render. */
  method ExportAllVersions(x: Externals, p: Policy, c: ExportClass) returns (r: Reply<ExportData>)
    ensures ListsEveryVersion(x, p, c, r)
  {
    var remaining := p.keys.Keys;
    var rendered: map<string, string> := map[];
    while remaining != {}
      invariant remaining <= p.keys.Keys
      invariant forall k | k in p.keys && k !in remaining :: ExportKey(x, p, p.keys[k], c).Success?
      invariant rendered.Keys == set k | k in p.keys && k !in remaining :: Itoa(k)
      invariant forall k | k in p.keys && k !in remaining :: rendered[Itoa(k)] == ExportKey(x, p, p.keys[k], c).value
      decreases remaining
    {
      HasMember(remaining);
      var k :| k in remaining;
      var out := ExportKey(x, p, p.keys[k], c);
      if out.Failure? {
        return InternalError(out.error);
      }
      rendered := rendered[Itoa(k) := out.value];
      forall j | j in p.keys && j !in remaining - {k}
        ensures rendered[Itoa(j)] == ExportKey(x, p, p.keys[j], c).value
      {
        ItoaInjective(j, k);
      }
      remaining := remaining - {k};
    }
    assert rendered == RenderedVersions(x, p, c);
    r := Data(KeySet(p.name, TypeName(p.keyType), rendered));
  }

  /** Export of one resolved version v: the minimum-version check comes
      before the existence check. */
  function ExportVersion(x: Externals, p: Policy, c: ExportClass, v: int): (r: Reply<ExportData>)
    ensures v < p.minDecryptionVersion ==> r == InvalidRequest(BelowMinimum)
    ensures v >= p.minDecryptionVersion && v !in p.keys ==> r == InvalidRequest(VersionMissing)
    ensures r.Data? <==> v >= p.minDecryptionVersion && v in p.keys && ExportKey(x, p, p.keys[v], c).Success?
    ensures v >= p.minDecryptionVersion && v in p.keys && ExportKey(x, p, p.keys[v], c).Failure? ==>
              r == InternalError(ExportKey(x, p, p.keys[v], c).error)
    ensures r.Data? ==>
              r.data == KeySet(p.name, TypeName(p.keyType), map[Itoa(v) := ExportKey(x, p, p.keys[v], c).value])
  {
    if v < p.minDecryptionVersion then InvalidRequest(BelowMinimum)
    else if v !in p.keys then InvalidRequest(VersionMissing)
    else match ExportKey(x, p, p.keys[v], c)
      case Failure(err) => InternalError(err)
      case Success(s) => Data(KeySet(p.name, TypeName(p.keyType), map[Itoa(v) := s]))
  }

  /** Every version number of p fits a 64-bit Go `int`. */
  predicate ValidVersions(p: Policy) {
    forall k | k in p.keys :: InInt64(k)
  }

  /** Every label of the collection export reads back as a version of p
      whose decimal form it is; with the domain stated by `RenderedVersions`,
      the listing holds exactly the versions of p, those below the minimum
      decryption version included. */
  lemma ListedLabelsAreVersions(x: Externals, p: Policy, c: ExportClass, s: string)
    requires ValidVersions(p) && AllRender(x, p, c) && s in RenderedVersions(x, p, c)
    ensures Atoi(s).Some? && Atoi(s).value in p.keys && Itoa(Atoi(s).value) == s
  {
    var k :| k in p.keys && Itoa(k) == s;
    AtoiItoa(k);
  }

  /** Selecting one listed version by its label yields that version's entry
      of the full listing, provided it is not below the minimum. */
  lemma SingleAgreesWithList(x: Externals, p: Policy, c: ExportClass, k: int)
    requires AllRender(x, p, c) && k in p.keys && InInt64(k)
    requires k >= p.minDecryptionVersion
    ensures ResolveVersion(Itoa(k), p.latestVersion) == Some(k)
    ensures ExportVersion(x, p, c, k)
            == Data(KeySet(p.name, TypeName(p.keyType), map[Itoa(k) := RenderedVersions(x, p, c)[Itoa(k)]]))
  {
    SelectByNumber(k, p.latestVersion);
  }

  /** Key material is only ever produced for a (class, family) pair that the
      rendering switch covers, whatever the capability predicates say. */
  lemma RenderedPairHasRule(x: Externals, p: Policy, c: ExportClass, version: string, r: Reply<ExportData>)
    requires RendersAs(x, p, c, version, r) && r.Data? && c != All
    requires version != "" || p.keys != map[]
    ensures HasRenderRule(c, p.keyType)
  {
    if version == "" {
      HasMember(p.keys.Keys);
      var k :| k in p.keys;
      assert ExportKey(x, p, p.keys[k], c).Success?;
    }
  }

  /** What the handler does once the policy is found, exportable, and has
      passed the capability gate. */
  ghost predicate RendersAs(x: Externals, p: Policy, c: ExportClass, version: string, r: Reply<ExportData>) {
    if c == All then
      r == (match x.policyMap(p)
            case Success(m) => Data(PolicyDump(m))
            case Failure(e) => InternalError("failed to create policy map: " + e))
    else if version == "" then ListsEveryVersion(x, p, c, r)
    else match ResolveVersion(version, p.latestVersion)
      case None => r == InvalidRequest(InvalidVersion)
      case Some(v) => r == ExportVersion(x, p, c, v)
  }

  /** The export handler over a store of policies: class check, lookup,
      exportable flag, capability gate, then rendering. */
  method ExportRead(x: Externals, store: map<string, Policy>, exportType: string, name: string, version: string)
    returns (r: Reply<ExportData>)
    ensures ParseExportClass(exportType).None? ==> r == InvalidRequest(InvalidExportType(exportType))
    ensures ParseExportClass(exportType).Some? && name !in store ==> r == Nothing
    ensures ParseExportClass(exportType).Some? && name in store && !store[name].exportable ==>
              r == ErrorResponse(NotExportable)
    ensures ParseExportClass(exportType).Some? && name in store && store[name].exportable ==>
              var c, p := ParseExportClass(exportType).value, store[name];
              match CapabilityRefusal(x, p.keyType, c)
              case Some(msg) => r == InvalidRequest(msg)
              case None => RendersAs(x, p, c, version, r)
  {
    var cls := ParseExportClass(exportType);
    if cls.None? {
      return InvalidRequest(InvalidExportType(exportType));
    }
    var c := cls.value;
    if name !in store {
      return Nothing;
    }
    var p := store[name];
    if !p.exportable {
      return ErrorResponse(NotExportable);
    }
    var refusal := CapabilityRefusal(x, p.keyType, c);
    if refusal.Some? {
      return InvalidRequest(refusal.value);
    }
    if c == All {
      match x.policyMap(p)
      case Success(m) => r := Data(PolicyDump(m));
      case Failure(e) => r := InternalError("failed to create policy map: " + e);
    } else if version == "" {
      r := ExportAllVersions(x, p, c);
    } else {
      var v := ResolveVersion(version, p.latestVersion);
      if v.None? {
        return InvalidRequest(InvalidVersion);
      }
      r := ExportVersion(x, p, c, v.value);
    }
  }
}
