# Transit key export and import, modelled in Dafny

This project models two request handlers of Vault's transit secrets engine:

- **Export** (`export/<type>/<name>[/<version>]`). It validates the export class, looks the key policy up, and applies the exportable flag and the family's capability check. It then resolves the optional version selector, applies the minimum decryption version, and renders key material per (class, family) pair.
- **Import** (`import/<name>`). It refuses a name that already has a policy. It base64-decodes and JSON-decodes the payload, maps the `type` string onto a key family, reads the required fields in a fixed order, and builds a policy record.

Both handlers are pure decision procedures over a policy record. The policy store is a `map<string, Policy>`. A handler's `(response, error)` pair is the sum type `Logical.Reply`.

Files:

- `keysutil.dfy` (`KeysUtil`): the five key families, `KeyEntry`, `Policy`.
- `strconv.dfy` (`Strconv`): Go's `strconv.Itoa` and `strconv.Atoi` on a 64-bit platform, including Atoi's range error.
- `export.dfy` (`KeyExport`): the export handler and its rendering switch.
- `import.dfy` (`KeyImport`): the import handler and its payload decoder.
- `json.dfy`, `logical.dfy`, `wrappers.dfy`: decoded JSON values, the reply type, `Option`/`Result`.

Several operations belong to keysutil, Vault's jsonutil helper, or the standard library, and their code is not part of this model:

- the capability predicates `EncryptionSupported` and `SigningSupported`;
- `EncodeRSAPrivateKey` and `KeyEntryToECPrivateKey`;
- `Policy.Map`;
- base64 encoding and decoding;
- `jsonutil.DecodeJSON`.

Each appears as a function-typed field of an `Externals` record passed to the handler. The contracts therefore hold for every choice of those functions.

Behaviour of the code worth noting:

- Import builds the policy and then discards it. Nothing is written to the store, and success returns no response.
- Import stops at the first missing required field. It does not report every missing field.
- A capability refusal is an invalid-request error response. It is not a separate "unsupported operation" error.
- Exporting `latest` succeeds only when the latest version exists in the policy and is not below the minimum decryption version.
- The collection export (no version selector) applies no minimum-version filter.

## Model

| member | source | states |
|---|---|---|
| KeyExport.ParseExportClass | builtin/logical/transit/path_export.go:56-63 | Exactly the four names `encryption-key`, `signing-key`, `hmac-key` and `all` are accepted, each as the class of that name. |
| KeyExport.ParseClassName | builtin/logical/transit/path_export.go:16-21 | Every export class is recognised under its own constant name. |
| KeyExport.ExportKey | builtin/logical/transit/path_export.go:152-188 | The rendering table. `hmac-key` is the base64 of the HMAC key for every family. `encryption-key` is base64 of the key for AES256-GCM96 and the RSA encoding for RSA. `signing-key` is the EC encoder's result for ECDSA-P256, base64 of the key for Ed25519, and the RSA encoding for RSA. Every other pair fails with `unknown key type <family>`. |
| KeyExport.CapabilityRefusal | builtin/logical/transit/path_export.go:80-89 | A refusal happens exactly when `encryption-key` meets a family without encryption support, or `signing-key` meets one without signing support. `hmac-key` and `all` are never refused. |
| KeyExport.TrimV | builtin/logical/transit/path_export.go:109 | A leading `v`, when present, is removed, and only one; any other string is returned unchanged. |
| KeyExport.ResolveVersion | builtin/logical/transit/path_export.go:105-114 | `latest` resolves to the latest version. Any other selector, after one leading `v` is removed, resolves exactly when it is an optionally signed decimal literal whose value fits 64 bits, and then to that value; otherwise it does not resolve, which the handler reports as `invalid key version`. |
| KeyExport.SelectByNumber | builtin/logical/transit/path_export.go:105-114 | The decimal form of any 64-bit version selects that version, with or without one `v` prefix. |
| KeyExport.PrefixIsOptional | builtin/logical/transit/path_export.go:109-110 | `vS` and `S` resolve alike for every non-empty S that is not `latest` and does not itself start with `v`. |
| KeyExport.DoublePrefixRejected | builtin/logical/transit/path_export.go:109-113 | A selector starting with `vv` never resolves, because only one `v` is stripped. |
| KeyExport.RenderedVersions | builtin/logical/transit/path_export.go:94-102 | Reference map for the collection export. Its domain is the decimal forms of exactly the versions in the policy, and each maps to that version's rendering. |
| KeyExport.ExportAllVersions | builtin/logical/transit/path_export.go:94-102 | If every version renders, the result is the name, the family name and the reference map. Otherwise it is the internal error of some version that fails to render, since map iteration order is unspecified. |
| KeyExport.ListedLabelsAreVersions | builtin/logical/transit/path_export.go:96-101 | For a policy whose versions all fit a 64-bit Go `int` (as keys of Go's `map[int]KeyEntry` do), every label in the map a successful collection export returns (`RenderedVersions`, as `ExportAllVersions` ensures) parses back with Atoi to a version of the policy whose decimal form it is. With that map's domain, the listing holds exactly the policy's versions, including those below the minimum decryption version. |
| KeyExport.ExportVersion | builtin/logical/transit/path_export.go:116-129 | A version below the minimum decryption version is refused before the existence check. A missing version is refused. Success yields exactly one entry, keyed by the decimal form of the version. A rendering failure is passed up as an internal error. |
| KeyExport.SingleAgreesWithList | builtin/logical/transit/path_export.go:116-129 | Selecting a listed version by its label gives that version's entry of the full listing, when the version is not below the minimum. |
| KeyExport.RenderedPairHasRule | builtin/logical/transit/path_export.go:157-187 | Key material is produced only for a (class, family) pair the rendering switch covers, whatever the capability predicates answer. |
| KeyExport.ExportRead | builtin/logical/transit/path_export.go:50-150 | Guard order: an invalid class is rejected before the lookup. A missing policy gives no response and no error. A non-exportable policy is refused for every class and selector. The capability gate follows. `all` then returns the policy map. An empty selector lists every version, and any other selector resolves a single version or is rejected as `invalid key version`. |
| Strconv.Atoi | builtin/logical/transit/path_export.go:110 | A string is accepted exactly when it is an optionally signed, non-empty run of decimal digits whose value fits 64 bits. The result is that value. |
| Strconv.AtoiItoa | builtin/logical/transit/path_export.go:110 | Atoi inverts Itoa on every 64-bit integer. |
| Strconv.ItoaInjective | builtin/logical/transit/path_export.go:101 | Distinct versions get distinct labels in the exported map. |
| Strconv.ValueOfDigitsOf | builtin/logical/transit/path_export.go:129 | Reading back the digits Itoa writes for a non-negative n gives n. |
| KeyImport.ParseKeyType | builtin/logical/transit/path_import.go:86-100 | Exactly the five names `aes256-gcm96`, `ecdsa-p256`, `ed25519`, `rsa-2048` and `rsa-4096` map to a family, and each maps to the family of that name. |
| KeyImport.ParseTypeName | builtin/logical/transit/path_import.go:86-100 | The type mapping is one-to-one: every family is reached from its own name. |
| KeyImport.AsInt | builtin/logical/transit/path_import.go:135 | As written, the `int` assertion fails on every decoded JSON value. The corrected conversion succeeds exactly on numbers. |
| KeyImport.DecodeWith | builtin/logical/transit/path_import.go:79-152 | A missing `type` is reported as missing. A non-string `type` is a failed assertion. An unknown name is an invalid request. A decoded policy has the request's name, the family whose name is the `type` string, and flags and minimum versions equal to the payload's fields. Its latest version is zero and it has no keys. |
| KeyImport.DecodeAsWritten | builtin/logical/transit/path_import.go:130-135 | As written, no payload is ever accepted. A well-formed payload fails the `min_decryption_version` assertion. |
| KeyImport.Decode | builtin/logical/transit/path_import.go:79-152 | The corrected decoder succeeds exactly on well-formed payloads: a known type name, boolean flags, and numeric minimum versions. |
| KeyImport.DecodeSettingsPayload | builtin/logical/transit/path_import.go:143-152 | Decoding the settings payload of any policy rebuilds its family, flags and minimum versions under the requested name, with no versions. |
| KeyImport.FirstMissingReported | builtin/logical/transit/path_import.go:104-141 | With a known type and every earlier field present with the right kind, the error names the first missing field, whatever the later fields hold, in the order `derived`, `exportable`, `deletion_allowed`, `min_decryption_version`, `min_encryption_version`. This holds for the handler as written up to `min_decryption_version`, and for the corrected decoder for all five fields. |
| KeyImport.WrongKindPanics | builtin/logical/transit/path_import.go:104-141 | With a known type and the earlier fields present with the right kind, a present required field of the wrong kind fails its type assertion, and the failure names that field. This holds for both integer conversions. |
| KeyImport.ImportUpdate | builtin/logical/transit/path_import.go:37-157 | An existing name gives `key "<name>" already exists` whatever the payload. Invalid base64 gives an error response. A JSON decoding failure is an internal error. A decoder failure is returned as the handler's reply. With the integer assertion as written, the handler never returns its success reply. With the corrected conversion, it returns no response and no error exactly when the name is free and the payload decodes to a well-formed object. It returns no store, so the store is unchanged. |
| KeyImport.ExamplePayloadDiscrepancy | builtin/logical/transit/path_import.go:130-141 | On an exportable aes256-gcm96 payload with both minimum versions 1, the handler as written panics, while the corrected decoder builds the described policy. |

## Findings

| source | as written | input that shows it | evidently intended | confidence | as-written member | corrected member |
|---|---|---|---|---|---|---|
| builtin/logical/transit/path_import.go:135 | `minDecryptionVersionRaw.(int)` (and the same at line 141) asserts a Go `int`. A value decoded from JSON into `interface{}` is a `json.Number` or `float64`, never an `int`, so the assertion panics. | `{"type":"aes256-gcm96","derived":false,"exportable":true,"deletion_allowed":false,"min_decryption_version":1,"min_encryption_version":1}` | Convert the JSON number to its integer value, so that a well-formed payload decodes to a policy | high (not executed) | KeyImport.DecodeAsWritten | KeyImport.Decode |

## Left out

- Locking: `GetPolicyShared` and `RUnlock` are concurrency plumbing. The lookup is modelled as a pure map read.
- Storage errors: a failing `GetPolicyShared` makes both handlers return that error. The store is a plain map, so this case is not modelled.
- Restore (`path_restore.go`): it decodes by reflection through mapstructure and calls a restore routine whose code is not part of this model.
- keysutil: the capability predicates, the RSA and EC private-key encoders and `Policy.Map` are not part of this model and are uninterpreted parameters. `KeyType.String()` is modelled by `TypeName`, assumed to print the five names the import switch maps.
- Base64 and JSON: encoding and decoding are uninterpreted parameters. JSON numbers are modelled by their integer value only.
- Debug output: the `json.MarshalIndent` call and the `fmt.Print` calls in the import handler have no effect on the outcome. A map freshly decoded from JSON always marshals, so that error path is not modelled.
- The nil-policy guard in `getExportKey` is not modelled: the handler only calls it with a policy it has found.
- Failed type assertions on `type`, the boolean fields and the two minimum-version fields are modelled as a `Panic` reply that names the field. Go's recovery of the panic is not modelled.
- Go's `%q` escaping is modelled only as surrounding double quotes. Escaping of quotes, backslashes and non-printable characters inside key names is not modelled.
- KeyExport.ExportAllVersions: when several versions fail to render, the contract names only "some failing version". Go's map iteration order is unspecified, so the code promises no more.
