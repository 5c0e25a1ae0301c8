/**
 * The error taxonomy of the vault (`FortressError`), its conversions from
 * the standard I/O error and from the JSON error, and its user-facing messages.
 */
module Errors {

  /** The `kind()` of a standard I/O error, as far as the vault distinguishes it. */
  datatype IoErrorKind = NotFound | PermissionDenied | AlreadyExists | Other

  /** A standard I/O error: its kind and the text its own `Display` prints. */
  datatype IoFailure = IoFailure(kind: IoErrorKind, text: string)

  /** A JSON (de)serialisation error and the text its own `Display` prints. */
  datatype JsonFailure = JsonFailure(text: string)

  /**
   * Every failure the vault reports. `IdNotFound` and `Clipboard` are used by
   * the commands although the enum in src/helpers/errors.rs does not declare
   * them; the model declares them here.
   */
  datatype FortressError =
    | VaultAlreadyExists
    | VaultNotFound
    | InvalidVaultPath
    | InvalidCommand
    | DecryptionFailed
    | EncryptionFailed
    | IoError(io: IoFailure)
    | SerializationError(json: JsonFailure)
    | InvalidMasterPassword
    | CorruptedVault
    | IdNotFound(identifier: string)
    | Clipboard(password: string)  // carries the password, so its message (printed by `raise`) reveals it

  /** The variant's own name, which every message starts with. */
  function VariantName(e: FortressError): (name: string)
    ensures name != [] && ':' !in name
  {
    match e
    case VaultAlreadyExists => "VaultAlreadyExists"
    case VaultNotFound => "VaultNotFound"
    case InvalidVaultPath => "InvalidVaultPath"
    case InvalidCommand => "InvalidCommand"
    case DecryptionFailed => "DecryptionFailed"
    case EncryptionFailed => "EncryptionFailed"
    case IoError(_) => "IoError"
    case SerializationError(_) => "SerializationError"
    case InvalidMasterPassword => "InvalidMasterPassword"
    case CorruptedVault => "CorruptedVault"
    case IdNotFound(_) => "IdNotFound"
    case Clipboard(_) => "Clipboard"
  }

  /** The text after "<variant>: " in each message. */
  function Detail(e: FortressError): string
  {
    match e
    case CorruptedVault => "The selected vault is corrupted or has been tampered."
    case InvalidMasterPassword => "The provided master password is incorrect."
    case VaultAlreadyExists => "The vault already exists at the specified path."
    case VaultNotFound => "The vault file was not found at the specified path."
    case InvalidVaultPath => "The specified vault path is invalid."
    case InvalidCommand => "The provided command is invalid."
    case DecryptionFailed =>
      "Failed to decrypt the vault. Possible reasons include an incorrect master password or corrupted data."
    case EncryptionFailed => "Failed to encrypt the vault data."
    case IoError(io) => io.text
    case SerializationError(json) => json.text
    case IdNotFound(identifier) => identifier
    case Clipboard(password) => password  // the password itself ends up in the error text
  }

  /** The `Display` text of an error. */
  function Message(e: FortressError): (m: string)
    ensures VariantName(e) + ": " <= m
    ensures |m| == |VariantName(e)| + 2 + |Detail(e)|
  {
    VariantName(e) + ": " + Detail(e)
  }

  /** The text of `s` before its first colon (all of `s` if it has none). */
  function UpToColon(s: string): (r: string)
    ensures r <= s && ':' !in r
    ensures r == s || s[|r|] == ':'
  {
    if s == [] then []
    else if s[0] == ':' then []
    else [s[0]] + UpToColon(s[1..])
  }

  lemma {:induction false} UpToColonOfPrefix(name: string, rest: string)
    requires ':' !in name
    ensures UpToColon(name + ":" + rest) == name
  {
    if name != [] {
      assert (name + ":" + rest)[1..] == name[1..] + ":" + rest;
      UpToColonOfPrefix(name[1..], rest);
    } else {
      assert (name + ":" + rest)[0] == ':';
    }
  }

  /** The variant can be read back from any message: it is the text before the first colon. */
  lemma MessageNamesVariant(e: FortressError)
    ensures UpToColon(Message(e)) == VariantName(e)
  {
    assert Message(e) == VariantName(e) + ":" + (" " + Detail(e));
    UpToColonOfPrefix(VariantName(e), " " + Detail(e));
  }

  /** Messages of different variants start differently. */
  lemma MessagesTellVariantsApart(e1: FortressError, e2: FortressError)
    requires VariantName(e1) != VariantName(e2)
    ensures Message(e1) != Message(e2)
  {
    MessageNamesVariant(e1);
    MessageNamesVariant(e2);
  }

  /** `From<io::Error>`: a missing file becomes `VaultNotFound`, anything else is carried as `IoError`. */
  function FromIo(e: IoFailure): (r: FortressError)
    ensures r == VaultNotFound <==> e.kind == NotFound
    ensures e.kind != NotFound ==> r.IoError? && r.io == e
  {
    if e.kind == NotFound then VaultNotFound else IoError(e)
  }

  /** `From<serde_json::Error>`: the JSON error is carried unchanged. */
  function FromJson(e: JsonFailure): (r: FortressError)
    ensures r.SerializationError? && r.json == e
  {
    SerializationError(e)
  }
}
