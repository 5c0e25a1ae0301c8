/** `create`: make a new, empty vault unless one exists and `force` is off. */
module CreateCommand {
  import opened Wrappers
  import opened Errors
  import opened Structs
  import opened Crypto
  import opened Helpers

  method Create(fs: FileSystem, p: Primitives, force: bool, args: GeneralArgs, env: Env)
    returns (r: Result<(), FortressError>)
    modifies fs
    ensures args.file in old(fs.files) && !force ==> r == Err(VaultAlreadyExists) && fs.files == old(fs.files)
    ensures !(args.file in old(fs.files) && !force) ==> (r, fs.files) == Save(p, old(fs.files), args, [], env)
    ensures r.Ok? ==> args.file in fs.files
    ensures r.Ok? && Lawful(p) ==> Load(p, fs.files, args, None) == Ok([])
  {
    if args.file in fs.files && !force {
      return Err(VaultAlreadyExists);
    }
    var emptyEntries: seq<PasswordEntry> := [];
    r := fs.SaveVault(p, args, emptyEntries, env);
    if r.Ok? && Lawful(p) {
      LoadSave(p, old(fs.files), args, emptyEntries, env);
    }
  }
}
