/** `remove`: drop every entry with the given identifier. */
module RemoveCommand {
  import opened Wrappers
  import opened Errors
  import opened Structs
  import opened Crypto
  import opened Helpers

  /** `filter(|item| item.identifier != identifier)`: keep the other entries, in order. */
  function WithoutId(entries: seq<PasswordEntry>, identifier: string): (r: seq<PasswordEntry>)
    ensures forall e :: e in r <==> e in entries && e.identifier != identifier
    ensures |r| <= |entries|
  {
    if entries == [] then []
    else if entries[0].identifier == identifier then WithoutId(entries[1..], identifier)
    else [entries[0]] + WithoutId(entries[1..], identifier)
  }

  /** The filter distributes over concatenation, so survivors keep their relative order. */
  lemma {:induction false} WithoutIdAppend(a: seq<PasswordEntry>, b: seq<PasswordEntry>, identifier: string)
    ensures WithoutId(a + b, identifier) == WithoutId(a, identifier) + WithoutId(b, identifier)
  {
    if a != [] {
      assert (a + b)[0] == a[0];
      assert (a + b)[1..] == a[1..] + b;
      WithoutIdAppend(a[1..], b, identifier);
    } else {
      assert a + b == b;
    }
  }

  /** With no matching entry the filter changes nothing. */
  lemma {:induction false} WithoutIdNoMatch(entries: seq<PasswordEntry>, identifier: string)
    requires NoMatch(entries, identifier)
    ensures WithoutId(entries, identifier) == entries
  {
    if entries != [] {
      WithoutIdNoMatch(entries[1..], identifier);
    }
  }

  /** Every matching entry is removed, so at least one entry fewer remains when there was a match. */
  lemma {:induction false} WithoutIdShrinks(entries: seq<PasswordEntry>, identifier: string)
    requires FindFirst(entries, identifier).Some?
    ensures |WithoutId(entries, identifier)| < |entries|
  {
    if entries[0].identifier != identifier {
      WithoutIdShrinks(entries[1..], identifier);
    }
  }

  method Remove(fs: FileSystem, p: Primitives, identifier: string, args: GeneralArgs, env: Env)
    returns (r: Result<(), FortressError>)
    modifies fs
    ensures match Load(p, old(fs.files), args, env.readError)
      case Err(e) => r == Err(e) && fs.files == old(fs.files)
      case Ok(entries) =>
        if NoMatch(entries, identifier) then r == Err(IdNotFound(identifier)) && fs.files == old(fs.files)
        else (r, fs.files) == Save(p, old(fs.files), args, WithoutId(entries, identifier), env)
  {
    var decrypted := fs.LoadVault(p, args, env.readError);
    if decrypted.Err? {
      return Err(decrypted.error);
    }
    var found := FindFirst(decrypted.value, identifier);
    if found.None? {
      return Err(IdNotFound(identifier));
    }
    var updatedEntries := WithoutId(decrypted.value, identifier);
    r := fs.SaveVault(p, args, updatedEntries, env);
  }

  /**
   * After a successful remove the vault loads without any entry of that identifier,
   * so removing it again yields `IdNotFound`.
   */
  lemma SecondRemoveNotFound(p: Primitives, files: Files, args: GeneralArgs, env: Env,
                             entries: seq<PasswordEntry>, identifier: string)
    requires Lawful(p)
    requires Save(p, files, args, WithoutId(entries, identifier), env).0.Ok?
    ensures var after := Load(p, Save(p, files, args, WithoutId(entries, identifier), env).1, args, None);
      after == Ok(WithoutId(entries, identifier)) && NoMatch(after.value, identifier)
  {
    LoadSave(p, files, args, WithoutId(entries, identifier), env);
    var rest := WithoutId(entries, identifier);
    forall j | 0 <= j < |rest| ensures rest[j].identifier != identifier {
      assert rest[j] in rest;
    }
  }
}
