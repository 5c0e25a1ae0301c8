/**
 * The encrypted vault format: salt(32) || nonce(12) || AES-256-GCM ciphertext
 * with its 16-byte tag, over the JSON of { _pwcheck: "valid", entries }.
 *
 * Argon2id, AES-256-GCM, UTF-8 and serde_json are foreign code. They are the
 * function-valued fields of `Primitives`; the only facts the model uses about
 * them are the laws below (round trips and the tag length), taken as hypotheses.
 */
module Crypto {
  import opened Wrappers
  import opened Errors
  import opened Structs

  newtype byte = b: int | 0 <= b < 256

  const SALT_LEN: nat := 32
  const NONCE_LEN: nat := 12
  /** AES-GCM authentication tag length (128 bits). */
  const TAG_LEN: nat := 16
  const KEY_LEN: nat := 32
  /** Offset of the ciphertext in a vault file. */
  const HEADER_LEN: nat := SALT_LEN + NONCE_LEN
  /** Shortest input `decrypt_database` accepts: 32 + 12 + 16. */
  const MIN_VAULT_LEN: nat := 60

  /** The integrity marker stored in `_pwcheck`. */
  const MARKER: string := "valid"

  type Salt = s: seq<byte> | |s| == SALT_LEN witness seq(SALT_LEN, _ => 0)
  type Nonce = s: seq<byte> | |s| == NONCE_LEN witness seq(NONCE_LEN, _ => 0)
  type Key = s: seq<byte> | |s| == KEY_LEN witness seq(KEY_LEN, _ => 0)

  /** Argon2 algorithm parameters: memory in KiB, iterations, lanes, output length, version. */
  datatype Argon2Params = Argon2Params(memoryKib: nat, iterations: nat, parallelism: nat, outputLen: nat, version: nat)

  /** The fixed parameters of `derive_key` (Argon2id, version 0x13). */
  const KDF_PARAMS: Argon2Params := Argon2Params(65536, 3, 4, 32, 0x13)

  /** `DatabaseWrapper`: the marker and the entries, as serialised. */
  datatype DatabaseWrapper = DatabaseWrapper(pwcheck: string, entries: seq<PasswordEntry>)

  /** The foreign primitives the vault format is built on. */
  datatype Primitives = Primitives(
    argon2id: (Argon2Params, seq<byte>, Salt) -> Option<Key>,
    seal: (Key, Nonce, seq<byte>) -> Option<seq<byte>>,
    open: (Key, Nonce, seq<byte>) -> Option<seq<byte>>,
    toUtf8: string -> seq<byte>,
    fromUtf8: seq<byte> -> Option<string>,
    toJson: DatabaseWrapper -> Result<string, JsonFailure>,
    fromJson: string -> Result<DatabaseWrapper, JsonFailure>)

  /** AEAD: a sealed text is the plaintext plus a 16-byte tag, and opens under the same key and nonce. */
  ghost predicate SealLaw(p: Primitives)
  {
    forall k, n, pt {:trigger p.seal(k, n, pt)} :: p.seal(k, n, pt).Some? ==>
      && |p.seal(k, n, pt).value| == |pt| + TAG_LEN
      && p.open(k, n, p.seal(k, n, pt).value) == Some(pt)
  }

  /** `str::from_utf8` accepts what `as_bytes` produced and gives the same text back. */
  ghost predicate Utf8Law(p: Primitives)
  {
    forall s {:trigger p.toUtf8(s)} :: p.fromUtf8(p.toUtf8(s)) == Some(s)
  }

  /** `serde_json::from_str` parses what `to_string` produced back to the same wrapper. */
  ghost predicate JsonLaw(p: Primitives)
  {
    forall w {:trigger p.toJson(w)} :: p.toJson(w).Ok? ==> p.fromJson(p.toJson(w).value) == Ok(w)
  }

  ghost predicate Lawful(p: Primitives)
  {
    SealLaw(p) && Utf8Law(p) && JsonLaw(p)
  }

  /** `derive_key`: Argon2id over the password's bytes with the fixed parameters; a failure is `EncryptionFailed`. */
  function DeriveKey(p: Primitives, password: string, salt: Salt): (r: Result<Key, FortressError>)
    ensures r.Err? ==> r.error == EncryptionFailed
    ensures r.Ok? <==> p.argon2id(KDF_PARAMS, p.toUtf8(password), salt).Some?
    ensures r.Ok? ==> r.value == p.argon2id(KDF_PARAMS, p.toUtf8(password), salt).value
  {
    match p.argon2id(KDF_PARAMS, p.toUtf8(password), salt)
    case None => Err(EncryptionFailed)
    case Some(key) => Ok(key)
  }

  /** The on-disk layout: salt, then nonce, then ciphertext and tag. */
  function Frame(salt: Salt, nonce: Nonce, ciphertext: seq<byte>): (bytes: seq<byte>)
    ensures |bytes| == HEADER_LEN + |ciphertext|
    ensures bytes[..SALT_LEN] == salt
    ensures bytes[SALT_LEN..HEADER_LEN] == nonce
    ensures bytes[HEADER_LEN..] == ciphertext
  {
    salt + nonce + ciphertext
  }

  /** The length guard and the fixed-offset slicing of `decrypt_database`. */
  function Unframe(bytes: seq<byte>): (r: Result<(Salt, Nonce, seq<byte>), FortressError>)
    ensures r.Err? <==> |bytes| < MIN_VAULT_LEN
    ensures r.Err? ==> r.error == CorruptedVault
    ensures r.Ok? ==> |r.value.2| >= TAG_LEN && Frame(r.value.0, r.value.1, r.value.2) == bytes
  {
    if |bytes| < MIN_VAULT_LEN then Err(CorruptedVault)
    else
      var salt: Salt := bytes[..SALT_LEN];
      var nonce: Nonce := bytes[SALT_LEN..HEADER_LEN];
      var ciphertext := bytes[HEADER_LEN..];
      assert salt + nonce + ciphertext == bytes;
      Ok((salt, nonce, ciphertext))
  }

  /** Slicing exactly inverts the layout whenever the ciphertext carries at least a tag. */
  lemma UnframeFrame(salt: Salt, nonce: Nonce, ciphertext: seq<byte>)
    requires |ciphertext| >= TAG_LEN
    ensures Unframe(Frame(salt, nonce, ciphertext)) == Ok((salt, nonce, ciphertext))
  {
    var bytes := Frame(salt, nonce, ciphertext);
    assert bytes[..SALT_LEN] == salt;
  }

  /**
   * `encrypt_database`: wrap with marker "valid", serialise, derive the key from
   * the given salt, seal under the given nonce, and lay out the file.
   */
  function EncryptDatabase(p: Primitives, entries: seq<PasswordEntry>, password: string,
                           salt: Salt, nonce: Nonce): (r: Result<seq<byte>, FortressError>)
    ensures r.Ok? ==> |r.value| >= HEADER_LEN && r.value[..SALT_LEN] == salt && r.value[SALT_LEN..HEADER_LEN] == nonce
    ensures r.Err? ==> r.error == EncryptionFailed || r.error.SerializationError?
    ensures p.toJson(DatabaseWrapper(MARKER, entries)).Err? ==>
      r == Err(SerializationError(p.toJson(DatabaseWrapper(MARKER, entries)).error))
    ensures p.toJson(DatabaseWrapper(MARKER, entries)).Ok? && r.Err? ==> r.error == EncryptionFailed
    ensures r.Ok? <==>
      && p.toJson(DatabaseWrapper(MARKER, entries)).Ok?
      && DeriveKey(p, password, salt).Ok?
      && p.seal(DeriveKey(p, password, salt).value, nonce, p.toUtf8(p.toJson(DatabaseWrapper(MARKER, entries)).value)).Some?
    ensures SealLaw(p) && r.Ok? ==> |r.value| >= MIN_VAULT_LEN
  {
    var wrapper := DatabaseWrapper(MARKER, entries);
    match p.toJson(wrapper)
    case Err(e) => Err(FromJson(e))
    case Ok(json) =>
      match DeriveKey(p, password, salt)
      case Err(e) => Err(e)
      case Ok(key) =>
        match p.seal(key, nonce, p.toUtf8(json))
        case None => Err(EncryptionFailed)
        case Some(ciphertext) => Ok(Frame(salt, nonce, ciphertext))
  }

  /**
   * `decrypt_database`: length guard, slicing, key derivation, authenticated
   * decryption, UTF-8 check, JSON parse and marker check, in this order.
   */
  function DecryptDatabase(p: Primitives, bytes: seq<byte>, password: string): (r: Result<seq<PasswordEntry>, FortressError>)
    ensures |bytes| < MIN_VAULT_LEN ==> r == Err(CorruptedVault)
    ensures r.Err? ==> r.error in {CorruptedVault, InvalidMasterPassword, EncryptionFailed} || r.error.SerializationError?
  {
    match Unframe(bytes)
    case Err(e) => Err(e)
    case Ok((salt, nonce, ciphertext)) =>
      match DeriveKey(p, password, salt)
      case Err(e) => Err(e)
      case Ok(key) =>
        match p.open(key, nonce, ciphertext)
        case None => Err(InvalidMasterPassword)
        case Some(plaintext) =>
          match p.fromUtf8(plaintext)
          case None => Err(CorruptedVault)
          case Some(json) =>
            match p.fromJson(json)
            case Err(e) => Err(FromJson(e))
            case Ok(wrapper) =>
              if wrapper.pwcheck != MARKER then Err(InvalidMasterPassword) else Ok(wrapper.entries)
  }

  /** A short input is rejected whatever the primitives would do: nothing is derived or decrypted. */
  lemma ShortInputNeverReachesCrypto(p1: Primitives, p2: Primitives, bytes: seq<byte>, password1: string, password2: string)
    requires |bytes| < MIN_VAULT_LEN
    ensures DecryptDatabase(p1, bytes, password1) == DecryptDatabase(p2, bytes, password2) == Err(CorruptedVault)
  {
  }

  /**
   * Authentication failure (wrong master password or tampered bytes, which the
   * AEAD cannot tell apart) is reported as `InvalidMasterPassword`.
   */
  lemma AuthFailureIsInvalidPassword(p: Primitives, bytes: seq<byte>, password: string, key: Key)
    requires |bytes| >= MIN_VAULT_LEN
    requires DeriveKey(p, password, bytes[..SALT_LEN]) == Ok(key)
    requires p.open(key, bytes[SALT_LEN..HEADER_LEN], bytes[HEADER_LEN..]).None?
    ensures DecryptDatabase(p, bytes, password) == Err(InvalidMasterPassword)
  {
  }

  /** A key-derivation failure on an input that passed the length guard is `EncryptionFailed`, before any decryption. */
  lemma KdfFailureIsEncryptionFailed(p: Primitives, bytes: seq<byte>, password: string)
    requires |bytes| >= MIN_VAULT_LEN
    requires DeriveKey(p, password, bytes[..SALT_LEN]).Err?
    ensures DecryptDatabase(p, bytes, password) == Err(EncryptionFailed)
  {
  }

  /** Decrypted bytes that are not UTF-8 make the vault `CorruptedVault`. */
  lemma NotUtf8IsCorrupted(p: Primitives, bytes: seq<byte>, password: string, key: Key, plaintext: seq<byte>)
    requires |bytes| >= MIN_VAULT_LEN
    requires DeriveKey(p, password, bytes[..SALT_LEN]) == Ok(key)
    requires p.open(key, bytes[SALT_LEN..HEADER_LEN], bytes[HEADER_LEN..]) == Some(plaintext)
    requires p.fromUtf8(plaintext).None?
    ensures DecryptDatabase(p, bytes, password) == Err(CorruptedVault)
  {
  }

  /** A JSON parse failure is `SerializationError` carrying the parser's error. */
  lemma BadJsonIsSerializationError(p: Primitives, bytes: seq<byte>, password: string, key: Key,
                                    plaintext: seq<byte>, json: string, e: JsonFailure)
    requires |bytes| >= MIN_VAULT_LEN
    requires DeriveKey(p, password, bytes[..SALT_LEN]) == Ok(key)
    requires p.open(key, bytes[SALT_LEN..HEADER_LEN], bytes[HEADER_LEN..]) == Some(plaintext)
    requires p.fromUtf8(plaintext) == Some(json)
    requires p.fromJson(json) == Err(e)
    ensures DecryptDatabase(p, bytes, password) == Err(SerializationError(e))
  {
  }

  /** Decryption succeeds exactly when every stage passes and the marker is "valid"; it returns the parsed entries. */
  lemma DecryptAccepts(p: Primitives, bytes: seq<byte>, password: string)
    ensures DecryptDatabase(p, bytes, password).Ok? <==>
      && |bytes| >= MIN_VAULT_LEN
      && DeriveKey(p, password, bytes[..SALT_LEN]).Ok?
      && var key := DeriveKey(p, password, bytes[..SALT_LEN]).value;
         && p.open(key, bytes[SALT_LEN..HEADER_LEN], bytes[HEADER_LEN..]).Some?
         && var plaintext := p.open(key, bytes[SALT_LEN..HEADER_LEN], bytes[HEADER_LEN..]).value;
            && p.fromUtf8(plaintext).Some?
            && p.fromJson(p.fromUtf8(plaintext).value).Ok?
            && p.fromJson(p.fromUtf8(plaintext).value).value.pwcheck == MARKER
    ensures DecryptDatabase(p, bytes, password).Ok? ==>
      var key := DeriveKey(p, password, bytes[..SALT_LEN]).value;
      var plaintext := p.open(key, bytes[SALT_LEN..HEADER_LEN], bytes[HEADER_LEN..]).value;
      DecryptDatabase(p, bytes, password) == Ok(p.fromJson(p.fromUtf8(plaintext).value).value.entries)
  {
    if |bytes| >= MIN_VAULT_LEN {
      assert Unframe(bytes) == Ok((bytes[..SALT_LEN], bytes[SALT_LEN..HEADER_LEN], bytes[HEADER_LEN..]));
    }
  }

  /** Every encryption passes the decrypt length guard: 32 + 12 + |plaintext| + 16 >= 60. */
  lemma EncryptedPassesGuard(p: Primitives, entries: seq<PasswordEntry>, password: string, salt: Salt, nonce: Nonce)
    requires SealLaw(p)
    requires EncryptDatabase(p, entries, password, salt, nonce).Ok?
    ensures Unframe(EncryptDatabase(p, entries, password, salt, nonce).value).Ok?
  {
  }

  /** Round trip: decrypting an encryption with the same password gives back the same entries in the same order. */
  lemma DecryptEncrypt(p: Primitives, entries: seq<PasswordEntry>, password: string, salt: Salt, nonce: Nonce)
    requires Lawful(p)
    requires EncryptDatabase(p, entries, password, salt, nonce).Ok?
    ensures DecryptDatabase(p, EncryptDatabase(p, entries, password, salt, nonce).value, password) == Ok(entries)
  {
    var wrapper := DatabaseWrapper(MARKER, entries);
    var json := p.toJson(wrapper).value;
    var key := DeriveKey(p, password, salt).value;
    var plaintext := p.toUtf8(json);
    var ciphertext := p.seal(key, nonce, plaintext).value;
    assert EncryptDatabase(p, entries, password, salt, nonce).value == Frame(salt, nonce, ciphertext);
    UnframeFrame(salt, nonce, ciphertext);
    assert p.open(key, nonce, ciphertext) == Some(plaintext);
    assert p.fromUtf8(plaintext) == Some(json);
    assert p.fromJson(json) == Ok(wrapper);
  }

  /**
   * What is sealed is always the marked wrapper: opening the ciphertext of any
   * encryption with the key derived from its salt yields a wrapper whose marker is "valid".
   */
  lemma {:induction false} EncryptWritesMarker(p: Primitives, entries: seq<PasswordEntry>, password: string, salt: Salt, nonce: Nonce)
    requires Lawful(p)
    requires EncryptDatabase(p, entries, password, salt, nonce).Ok?
    ensures var bytes := EncryptDatabase(p, entries, password, salt, nonce).value;
      && DeriveKey(p, password, salt).Ok?
      && var unsealed := p.open(DeriveKey(p, password, salt).value, nonce, bytes[HEADER_LEN..]);
         && unsealed.Some?
         && p.fromUtf8(unsealed.value).Some?
         && p.fromJson(p.fromUtf8(unsealed.value).value) == Ok(DatabaseWrapper(MARKER, entries))
  {
    var wrapper := DatabaseWrapper(MARKER, entries);
    var json := p.toJson(wrapper).value;
    var key := DeriveKey(p, password, salt).value;
    var ciphertext := p.seal(key, nonce, p.toUtf8(json)).value;
    assert EncryptDatabase(p, entries, password, salt, nonce).value[HEADER_LEN..] == ciphertext;
    assert p.open(key, nonce, ciphertext) == Some(p.toUtf8(json));
    assert p.fromUtf8(p.toUtf8(json)) == Some(json);
  }

  /** A file that parses with a marker other than "valid" is refused as `InvalidMasterPassword`. */
  lemma WrongMarkerIsInvalidPassword(p: Primitives, bytes: seq<byte>, password: string, key: Key,
                                     plaintext: seq<byte>, json: string, wrapper: DatabaseWrapper)
    requires |bytes| >= MIN_VAULT_LEN
    requires DeriveKey(p, password, bytes[..SALT_LEN]) == Ok(key)
    requires p.open(key, bytes[SALT_LEN..HEADER_LEN], bytes[HEADER_LEN..]) == Some(plaintext)
    requires p.fromUtf8(plaintext) == Some(json)
    requires p.fromJson(json) == Ok(wrapper)
    requires wrapper.pwcheck != MARKER
    ensures DecryptDatabase(p, bytes, password) == Err(InvalidMasterPassword)
  {
  }
}
