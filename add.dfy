/** `add`: append one entry to the vault. Identifiers are not checked for uniqueness. */
module AddCommand {
  import opened Wrappers
  import opened Errors
  import opened Structs
  import opened Crypto
  import opened Helpers

  /** Length of a generated password. */
  const GENERATED_LEN: nat := 32

  /**
   * Where the new password comes from: a generated one if `generate`, else the
   * given one, else the clipboard's contents.
   */
  function ResolvePassword(generate: bool, password: Option<string>, draws: seq<nat>, clipboard: string): (pw: string)
    requires generate ==> ValidDraws(draws, GENERATED_LEN)
    ensures generate ==> |pw| == GENERATED_LEN && forall i :: 0 <= i < |pw| ==> pw[i] in CHARSET
    ensures !generate && password.Some? ==> pw == password.value
    ensures !generate && password.None? ==> pw == clipboard
  {
    if generate then GeneratePassword(GENERATED_LEN, draws)
    else if password.Some? then password.value
    else clipboard
  }

  method Add(fs: FileSystem, p: Primitives, identifier: string, username: string, password: Option<string>,
             generate: bool, draws: seq<nat>, clipboard: string, args: GeneralArgs, env: Env)
    returns (r: Result<(), FortressError>)
    requires generate ==> ValidDraws(draws, GENERATED_LEN)
    modifies fs
    ensures var entry := PasswordEntry(identifier, username, ResolvePassword(generate, password, draws, clipboard));
      match Load(p, old(fs.files), args, env.readError)
      case Err(e) => r == Err(e) && fs.files == old(fs.files)
      case Ok(entries) => (r, fs.files) == Save(p, old(fs.files), args, entries + [entry], env)
  {
    var pw := ResolvePassword(generate, password, draws, clipboard);
    var entry := PasswordEntry(identifier, username, pw);
    var loaded := fs.LoadVault(p, args, env.readError);
    if loaded.Err? {
      return Err(loaded.error);
    }
    var updated := loaded.value;
    updated := updated + [entry];
    r := fs.SaveVault(p, args, updated, env);
  }

  /**
   * After a successful add the vault holds the old entries, in order, followed by
   * the new one; with an identifier already present this makes a duplicate, and
   * the first-match lookup still finds the older entry.
   */
  lemma AddedEntryIsLast(p: Primitives, files: Files, args: GeneralArgs, env: Env,
                         entries: seq<PasswordEntry>, entry: PasswordEntry)
    requires Lawful(p)
    requires Save(p, files, args, entries + [entry], env).0.Ok?
    ensures var after := Load(p, Save(p, files, args, entries + [entry], env).1, args, None);
      && after == Ok(entries + [entry])
      && (FindFirst(entries, entry.identifier).Some? ==>
            FindFirst(after.value, entry.identifier) == FindFirst(entries, entry.identifier))
      && (FindFirst(entries, entry.identifier).None? ==>
            FindFirst(after.value, entry.identifier) == Some(|entries|))
  {
    LoadSave(p, files, args, entries + [entry], env);
    if FindFirst(entries, entry.identifier).Some? {
      FindFirstAppend(entries, entry, entry.identifier);
    } else {
      FindFirstAppendNew(entries, entry);
    }
  }
}
