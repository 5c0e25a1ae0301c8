/**
 * The vault store: saving and loading the vault file, and password generation.
 * The filesystem is a map from path to bytes; the random salt and nonce of a save
 * and the outcome of the read and write calls are inputs of one invocation.
 */
module Helpers {
  import opened Wrappers
  import opened Errors
  import opened Structs
  import opened Crypto

  type Files = map<string, seq<byte>>

  /** The outside inputs of one command: fresh salt and nonce, and any read or write failure. */
  datatype Env = Env(salt: Salt, nonce: Nonce, readError: Option<IoFailure>, writeError: Option<IoFailure>)

  /** `save_vault` on a file map: the outcome and the files afterwards. */
  function Save(p: Primitives, files: Files, args: GeneralArgs, entries: seq<PasswordEntry>, env: Env)
    : (r: (Result<(), FortressError>, Files))
    ensures r.0.Err? ==> r.1 == files
    ensures r.0.Err? ==> r.0.error == EncryptionFailed || r.0.error.IoError?
    ensures EncryptDatabase(p, entries, args.password, env.salt, env.nonce).Err? ==> r.0 == Err(EncryptionFailed)
    ensures EncryptDatabase(p, entries, args.password, env.salt, env.nonce).Ok? && env.writeError.Some? ==>
      r.0 == Err(IoError(env.writeError.value))
    ensures r.0.Ok? <==> EncryptDatabase(p, entries, args.password, env.salt, env.nonce).Ok? && env.writeError.None?
    ensures r.0.Ok? ==> args.file in r.1 && r.1 == files[args.file := r.1[args.file]]
    ensures r.0.Ok? ==> EncryptDatabase(p, entries, args.password, env.salt, env.nonce) == Ok(r.1[args.file])
  {
    match EncryptDatabase(p, entries, args.password, env.salt, env.nonce)
    case Err(_) => (Err(EncryptionFailed), files)
    case Ok(encrypted) =>
      match env.writeError
      case Some(e) => (Err(IoError(e)), files)
      case None => (Ok(()), files[args.file := encrypted])
  }

  /** `load_vault` on a file map: every decryption error collapses into `DecryptionFailed`. */
  function Load(p: Primitives, files: Files, args: GeneralArgs, readError: Option<IoFailure>)
    : (r: Result<seq<PasswordEntry>, FortressError>)
    ensures args.file !in files ==> r == Err(VaultNotFound)
    ensures args.file in files && readError.Some? ==> r == Err(IoError(readError.value))
    ensures args.file in files && readError.None? && r.Err? ==> r.error == DecryptionFailed
    ensures args.file in files && readError.None? && DecryptDatabase(p, files[args.file], args.password).Ok? ==>
      r == DecryptDatabase(p, files[args.file], args.password)
    ensures r.Ok? ==> args.file in files && DecryptDatabase(p, files[args.file], args.password) == Ok(r.value)
    ensures r.Err? ==> r.error == VaultNotFound || r.error == DecryptionFailed || r.error.IoError?
  {
    if args.file !in files then Err(VaultNotFound)
    else match readError
      case Some(e) => Err(IoError(e))
      case None =>
        match DecryptDatabase(p, files[args.file], args.password)
        case Ok(entries) => Ok(entries)
        case Err(_) => Err(DecryptionFailed)
  }

  /** Saving then loading with the same context gives back the saved entries. */
  lemma LoadSave(p: Primitives, files: Files, args: GeneralArgs, entries: seq<PasswordEntry>, env: Env)
    requires Lawful(p)
    requires Save(p, files, args, entries, env).0.Ok?
    ensures Load(p, Save(p, files, args, entries, env).1, args, None) == Ok(entries)
  {
    DecryptEncrypt(p, entries, args.password, env.salt, env.nonce);
  }

  /** A file whose bytes are too short to be a vault loads as `DecryptionFailed`, not `CorruptedVault`. */
  lemma ShortFileLoadsAsDecryptionFailed(p: Primitives, files: Files, args: GeneralArgs)
    requires args.file in files && |files[args.file]| < MIN_VAULT_LEN
    ensures Load(p, files, args, None) == Err(DecryptionFailed)
  {
  }

  /** The filesystem the commands act on. */
  class FileSystem {
    var files: Files

    constructor (initial: Files)
      ensures files == initial
    {
      files := initial;
    }

    /** `save_vault`: encrypt, then overwrite the whole file at `args.file`. */
    method SaveVault(p: Primitives, args: GeneralArgs, entries: seq<PasswordEntry>, env: Env)
      returns (r: Result<(), FortressError>)
      modifies this
      ensures (r, files) == Save(p, old(files), args, entries, env)
    {
      var encrypted := EncryptDatabase(p, entries, args.password, env.salt, env.nonce);
      if encrypted.Err? {
        return Err(EncryptionFailed);
      }
      if env.writeError.Some? {
        return Err(IoError(env.writeError.value));
      }
      files := files[args.file := encrypted.value];
      r := Ok(());
    }

    /** `load_vault`: existence check, read, decrypt. */
    method LoadVault(p: Primitives, args: GeneralArgs, readError: Option<IoFailure>)
      returns (r: Result<seq<PasswordEntry>, FortressError>)
      ensures r == Load(p, files, args, readError)
    {
      if args.file !in files {
        return Err(VaultNotFound);
      }
      if readError.Some? {
        return Err(IoError(readError.value));
      }
      var encrypted := files[args.file];
      var decrypted := DecryptDatabase(p, encrypted, args.password);
      if decrypted.Err? {
        return Err(DecryptionFailed);
      }
      r := Ok(decrypted.value);
    }
  }

  /** The alphabet of generated passwords (73 characters). */
  const CHARSET: string := "ABCDEFGHIJKLMNOPQRSTUVWXYZabcdefghijklmnopqrstuvwxyz0123456789)(*&^%$#@!~"

  /** The random draws of `generate_password`: one index into `CHARSET` per character. */
  predicate ValidDraws(indices: seq<nat>, length: nat)
  {
    |indices| == length && forall i :: 0 <= i < |indices| ==> indices[i] < |CHARSET|
  }

  /** `generate_password(length)`, given its random draws. */
  function GeneratePassword(length: nat, indices: seq<nat>): (password: string)
    requires ValidDraws(indices, length)
    ensures |password| == length
    ensures forall i :: 0 <= i < length ==> password[i] in CHARSET
  {
    seq(length, i requires 0 <= i < length => CHARSET[indices[i]])
  }

  /** The position of a character in a string that contains it. */
  function IndexOf(c: char, s: string): (k: nat)
    requires c in s
    ensures k < |s| && s[k] == c
  {
    if s[0] == c then 0 else 1 + IndexOf(c, s[1..])
  }

  /** Every password over `CHARSET` is the result of some draws: the generator can produce all of them. */
  lemma GeneratePasswordOnto(password: string)
    requires forall i :: 0 <= i < |password| ==> password[i] in CHARSET
    ensures exists indices :: ValidDraws(indices, |password|) && GeneratePassword(|password|, indices) == password
  {
    var indices := seq(|password|, i requires 0 <= i < |password| => IndexOf(password[i], CHARSET));
    assert ValidDraws(indices, |password|);
    assert GeneratePassword(|password|, indices) == password;
  }
}
