/** The key policy record of the transit engine: the algorithm family, one
    key entry per version, and the policy-wide flags and version bounds. */
module KeysUtil {

  type byte = b: int | 0 <= b < 256

  /** The five algorithm families a policy can hold. */
  datatype KeyType = Aes256Gcm96 | EcdsaP256 | Ed25519 | Rsa2048 | Rsa4096 {

    predicate IsRsa() {
      this == Rsa2048 || this == Rsa4096
    }
  }

  /** The name of a family as `KeyType.String()` prints it. */
  function TypeName(t: KeyType): (s: string)
    ensures |s| > 0
  {
    match t
    case Aes256Gcm96 => "aes256-gcm96"
    case EcdsaP256 => "ecdsa-p256"
    case Ed25519 => "ed25519"
    case Rsa2048 => "rsa-2048"
    case Rsa4096 => "rsa-4096"
  }

  /** One version's key material. Which fields are meaningful depends on the
      owning policy's family; `rsaKey` stands for the encoded RSA private key
      and (ecX, ecY, ecD) for the elliptic-curve point and scalar. */
  datatype KeyEntry = KeyEntry(
    key: seq<byte>,
    hmacKey: seq<byte>,
    rsaKey: seq<byte>,
    ecX: int,
    ecY: int,
    ecD: int,
    creationTime: int)

  /** A named, versioned key. `keys` maps version numbers to entries. */
  datatype Policy = Policy(
    name: string,
    keyType: KeyType,
    derived: bool,
    exportable: bool,
    deletionAllowed: bool,
    minDecryptionVersion: int,
    minEncryptionVersion: int,
    latestVersion: int,
    keys: map<int, KeyEntry>)
}
