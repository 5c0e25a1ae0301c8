# fortress vault model

A Dafny model of the vault layer of fortress, a local password store. The
vault is one encrypted file. It holds a list of credential entries
(identifier, username, password) and is unlocked by a master password.

The model covers:

- the on-disk framing `salt(32) || nonce(12) || ciphertext+tag(16)`;
- the encrypt and decrypt pipelines, with their length guard and the order of their error stages;
- `save_vault` and `load_vault` over a filesystem, including how load collapses every decryption error;
- password generation;
- the six commands: `add` and `remove` load, change the list once and save; `view`, `copy` and `list` load only; `create` never loads, it only checks whether the path exists and then saves an empty list;
- the `FortressError` taxonomy, its conversions and its messages.

Layout, one module per source file:

| file | module | source |
|---|---|---|
| wrappers.dfy | `Wrappers` | `Option` / `Result` |
| errors.dfy | `Errors` | src/helpers/errors.rs |
| structs.dfy | `Structs` | src/helpers/structs.rs, plus the first-match `find` shared by remove/view/copy |
| crypto.dfy | `Crypto` | src/crypto.rs |
| helpers.dfy | `Helpers` | src/helpers/mod.rs |
| create.dfy, add.dfy, remove.dfy, view.dfy, copy.dfy, list.dfy | `CreateCommand`, … | src/commands/*.rs |

Modelling choices:

- **Foreign code.** Argon2id, AES-256-GCM, UTF-8 conversion and serde_json are the function-valued fields of `Crypto.Primitives`. The model assumes only three laws about them, stated as predicates and taken as hypotheses by the lemmas that need them:
  - `SealLaw`: a sealed text is the plaintext plus a 16-byte tag, and it opens under the same key and nonce.
  - `Utf8Law`: `from_utf8(as_bytes(s)) == s`.
  - `JsonLaw`: `from_str(to_string(w)) == w`.
- **Key derivation parameters.** The model records them as the constant `KDF_PARAMS`: m = 65536 KiB, t = 3, p = 4, 32-byte output, version 0x13. These are the second recommended option of section 4 of RFC 9106. GCM uses a 96-bit nonce and a 128-bit tag.
- **Filesystem.** It is `Helpers.FileSystem`, a class whose `files: map<string, seq<byte>>` is updated by `SaveVault`. `add`, `remove` and `create` are methods that modify it. `view`, `copy` and `list` only read, so they are functions of the file map.
- **Inputs.** Randomness and I/O outcomes are inputs. The salt, the nonce and any read or write failure form `Helpers.Env`. The characters of a generated password are given by their draws from `CHARSET`. The clipboard's contents (for `add`) and the clipboard write's success (for `copy`) are parameters.
- **Added error variants.** The commands construct `IdNotFound(identifier)` and `Clipboard(password)`, but `FortressError` in src/helpers/errors.rs does not declare them. The model adds both. The source's `Display` has no arm for them, so the model gives them the same shape as the others: `"IdNotFound: <identifier>"` and `"Clipboard: <password>"`.
- **Duplicate identifiers.** The doc-comment of `add` (src/commands/add.rs:8) says an identifier must be unique, but nothing checks it. The model keeps the permissive behaviour. `AddedEntryIsLast` shows what follows from it: adding a known identifier appends a duplicate, and the first-match lookup of `view`/`copy` still finds the older entry. `remove` drops every duplicate.

Behaviours of the code that are easy to overlook, all of which the model follows:

- A JSON parse failure during decryption is `SerializationError`, not `CorruptedVault`. Invalid UTF-8 is `CorruptedVault`.
- `remove` filters out *every* entry with the identifier, not only the first.
- `load_vault` reports any decryption failure (short file, authentication, UTF-8, JSON, marker) as `DecryptionFailed`. `CorruptedVault` and `InvalidMasterPassword` are visible only from `decrypt_database` itself.
- A key-derivation failure inside `decrypt_database` is `EncryptionFailed`. The code reuses `derive_key`'s error for both directions.
- `save_vault` reports any encryption error, including a serialisation error, as `EncryptionFailed`. It writes a write failure as `IoError(e)` directly, without the `From<io::Error>` conversion, so even a `NotFound` write error stays `IoError`. `load_vault` does the same with read failures.

## Model

| member | source | states |
|---|---|---|
| `Errors.VariantName` | src/helpers/errors.rs:27-65 | each variant's name is non-empty and contains no colon |
| `Errors.Message` | src/helpers/errors.rs:24-67 | every message begins with the variant's name followed by ": " |
| `Errors.MessageNamesVariant` | src/helpers/errors.rs:26-66 | the text before the first colon of any message is exactly the variant's name |
| `Errors.MessagesTellVariantsApart` | src/helpers/errors.rs:26-66 | variants with different names never share a message |
| `Errors.FromIo` | src/helpers/errors.rs:71-79 | an io error converts to `VaultNotFound` iff its kind is `NotFound`; otherwise to `IoError` carrying the same error |
| `Errors.FromJson` | src/helpers/errors.rs:82-86 | a serde_json error converts to `SerializationError` carrying it |
| `Structs.GeneralArgs.New` | src/helpers/structs.rs:38-44 | verbose, file and password are stored unchanged |
| `Structs.Display` | src/helpers/structs.rs:17-21 | the display is the identifier, " (", the username, "): ", then the mask '*****', each at its fixed position, and nothing else |
| `Structs.DisplayIgnoresPassword` | src/helpers/structs.rs:19 | changing the password never changes the display |
| `Structs.FindFirst` | src/commands/view.rs:15 | the lookup returns the lowest position whose identifier matches, and returns nothing iff no entry matches |
| `Structs.FindFirstAppend` | src/commands/add.rs:36-43 | appending an entry never changes which entry an existing identifier finds first |
| `Structs.FindFirstAppendNew` | src/commands/add.rs:41 | an appended entry with a new identifier is found at the last position |
| `Crypto.DeriveKey` | src/crypto.rs:29-37 | succeeds iff Argon2id over the password bytes with the fixed parameters succeeds, and then the key is exactly Argon2id's output; any failure is `EncryptionFailed` |
| `Crypto.Frame` | src/crypto.rs:81-84 | the output is 44 bytes plus the ciphertext length: salt at [0,32), nonce at [32,44), ciphertext from 44 |
| `Crypto.Unframe` | src/crypto.rs:108-118 | inputs shorter than 60 bytes are `CorruptedVault` and only those; otherwise the three slices re-frame to the input |
| `Crypto.UnframeFrame` | src/crypto.rs:112-118 | slicing exactly inverts the framing when the ciphertext carries at least a tag |
| `Crypto.EncryptDatabase` | src/crypto.rs:54-87 | succeeds exactly when serialisation, key derivation and sealing all succeed; a serialisation failure is `SerializationError` carrying the JSON error, and any later failure is `EncryptionFailed`; success yields the given salt then the given nonce at the head, and, under the AEAD law, at least 60 bytes |
| `Crypto.DecryptDatabase` | src/crypto.rs:104-139 | short input is `CorruptedVault` whatever the primitives do; the only errors are `CorruptedVault`, `InvalidMasterPassword`, `EncryptionFailed` and `SerializationError` |
| `Crypto.ShortInputNeverReachesCrypto` | src/crypto.rs:108-110 | for input under 60 bytes the result is `CorruptedVault` independently of the KDF, cipher and password, so nothing is derived or decrypted |
| `Crypto.AuthFailureIsInvalidPassword` | src/crypto.rs:126-128 | if the derived key does not authenticate the ciphertext (wrong password or tampering) the result is `InvalidMasterPassword` |
| `Crypto.KdfFailureIsEncryptionFailed` | src/crypto.rs:120 | on an input of at least 60 bytes, a key-derivation failure gives `EncryptionFailed` |
| `Crypto.NotUtf8IsCorrupted` | src/crypto.rs:130 | authenticated plaintext that is not UTF-8 gives `CorruptedVault` |
| `Crypto.BadJsonIsSerializationError` | src/crypto.rs:132 | a JSON parse failure gives `SerializationError` carrying the parser's error |
| `Crypto.EncryptWritesMarker` | src/crypto.rs:58-63 | under the primitive laws, the sealed plaintext of every encryption parses back to the wrapper with marker "valid" and the given entries |
| `Crypto.WrongMarkerIsInvalidPassword` | src/crypto.rs:134-136 | a parsed wrapper whose marker is not "valid" gives `InvalidMasterPassword` |
| `Crypto.DecryptAccepts` | src/crypto.rs:104-139 | decryption succeeds iff the length guard, key derivation, authentication, UTF-8 check and parse all pass and the marker is "valid", and then the result is the parsed wrapper's entries |
| `Crypto.EncryptedPassesGuard` | src/crypto.rs:81-91 | under the AEAD law every encryption is at least 60 bytes and passes the decrypt guard |
| `Crypto.DecryptEncrypt` | src/crypto.rs:147-175 | under the primitive laws, decrypting an encryption with the same password returns the same entries in the same order |
| `Helpers.Save` | src/helpers/mod.rs:19-32 | any encryption error is `EncryptionFailed` and writes nothing; after a successful encryption a write failure is `IoError` carrying the write's own error and writes nothing; on success only `args.file` changes and it holds the encryption of the entries |
| `Helpers.Load` | src/helpers/mod.rs:39-56 | a missing path is `VaultNotFound`; a read failure is `IoError`; every decryption error becomes `DecryptionFailed`; an existing, readable file that decrypts loads as exactly the decrypted entries, and only such a file loads |
| `Helpers.LoadSave` | src/helpers/mod.rs:116-142 | under the primitive laws, loading after a successful save with the same context returns the saved entries |
| `Helpers.ShortFileLoadsAsDecryptionFailed` | src/helpers/mod.rs:49-55 | a file under 60 bytes loads as `DecryptionFailed` |
| `Helpers.FileSystem.SaveVault` | src/helpers/mod.rs:19-32 | the outcome and the new file map are those of `Save` on the old file map |
| `Helpers.FileSystem.LoadVault` | src/helpers/mod.rs:39-56 | the outcome is that of `Load` on the current file map, which it leaves unchanged |
| `Helpers.GeneratePassword` | src/helpers/mod.rs:64-75 | the password has exactly the requested length and every character is from `CHARSET` |
| `Helpers.GeneratePasswordOnto` | src/helpers/mod.rs:66-75 | every string over `CHARSET` is produced by some draws |
| `CreateCommand.Create` | src/commands/create.rs:13-26 | an existing path without `force` is `VaultAlreadyExists` and leaves the files untouched; otherwise an empty list is saved, overwriting any file; on success the vault exists and loads as [] |
| `AddCommand.ResolvePassword` | src/commands/add.rs:22-28 | a generated password of 32 characters from `CHARSET` if `generate`, else the given password, else the clipboard's contents |
| `AddCommand.Add` | src/commands/add.rs:15-51 | a load error is returned unchanged and nothing is saved; otherwise the loaded list with the new entry appended is saved, with no uniqueness check, and the save's outcome is returned |
| `AddCommand.AddedEntryIsLast` | src/commands/add.rs:36-43 | after a successful add the vault loads as the old entries in order followed by the new one; a duplicate identifier still finds the older entry |
| `RemoveCommand.WithoutId` | src/commands/remove.rs:16-19 | the result holds exactly the entries whose identifier differs, and is no longer than the input |
| `RemoveCommand.WithoutIdAppend` | src/commands/remove.rs:16-19 | the filter distributes over concatenation, so survivors keep their relative order |
| `RemoveCommand.WithoutIdNoMatch` | src/commands/remove.rs:16-19 | the filter removes nothing when no identifier matches |
| `RemoveCommand.WithoutIdShrinks` | src/commands/remove.rs:14-19 | when some entry matches, the list gets strictly shorter |
| `RemoveCommand.Remove` | src/commands/remove.rs:11-28 | a load error is propagated unchanged; no match is `IdNotFound(identifier)` with no save; otherwise the list without any entry of that identifier is saved and the save's outcome is returned |
| `RemoveCommand.SecondRemoveNotFound` | src/commands/remove.rs:67-74 | after a successful remove the vault loads with no entry of that identifier, so a second remove is `IdNotFound` |
| `ViewCommand.View` | src/commands/view.rs:12-26 | a load error is propagated; the shown entry, and so the revealed password, is the first with the identifier; `IdNotFound(identifier)` iff none matches; the files are only read |
| `CopyCommand.Copy` | src/commands/copy.rs:11-29 | copy selects the same entry as view; the clipboard receives exactly its password; a failed clipboard write is `Clipboard(password)`; view's errors are returned unchanged; the files are only read |
| `ListCommand.EntryLines` | src/commands/list.rs:16 | one line per entry, in stored order, each a tab and the entry's masked display |
| `ListCommand.ListLines` | src/commands/list.rs:15-17 | "[", then one tab-indented display line per entry in stored order, then "]" |
| `ListCommand.EmptyListIsBrackets` | src/commands/list.rs:15-17 | an empty vault prints only "[" and "]" |
| `ListCommand.EntryLinesIgnorePasswords` | src/commands/list.rs:16 | entry lines depend only on identifiers and usernames |
| `ListCommand.ListLinesIgnorePasswords` | src/commands/list.rs:15-17 | vaults that differ only in passwords list identically, so no password reaches the output |
| `ListCommand.List` | src/commands/list.rs:11-22 | a load error is propagated unchanged; on success the lines are the brackets around the masked display of every entry in stored order; the files are only read |

## Left out

- Argon2id, AES-256-GCM, UTF-8 and serde_json internals: they are foreign library code, modelled as uninterpreted primitives with the three laws above.
- The wrong-password property is not proved unconditionally. No deterministic law can make every other key fail to authenticate, so `AuthFailureIsInvalidPassword` takes "the derived key does not open the ciphertext" as its hypothesis.
- Randomness (`rand::rng` for salt, nonce and password characters): it is an input.
- `Params::new(65536, 3, 4, Some(32))`: these constants are valid, so that construction cannot fail. Only a failure of the hash call itself is modelled.
- The `try_into` conversions of the salt and nonce slices cannot fail after the length guard. They are modelled as plain slices.
- `Vec::with_capacity` and `extend_from_slice` in `encrypt_database` are modelled as sequence concatenation.
- `AddCommand.Add`: `cli_clipboard::get_contents().unwrap()` panics when the clipboard cannot be read. The model takes the clipboard's contents as an input and does not model the panic.
- `generate_password` also writes the password to the clipboard and prints a message. That side effect is external I/O and is left out; the returned password is modelled.
- `Helpers.Save`: a write that fails part-way through can leave the file truncated. The model treats a failed write as changing nothing.
- `Path::exists` is modelled as membership in the file map. Its reporting `false` on permission errors is not modelled.
- `println!` and `log::` output, except the ordered lines of `list`. `view` returns the entry whose display line and password it prints.
- `raise` (src/helpers/errors.rs:89-92): it prints and exits the process.
- Command-line parsing, password prompting, logger setup and dispatch (src/helpers/cli.rs, src/helpers/logger.rs, src/main.rs): they have no vault logic.
- Concurrent invocations: the program has no concurrency to model.
