/** `view`: show the first entry with the given identifier, password included. */
module ViewCommand {
  import opened Wrappers
  import opened Errors
  import opened Structs
  import opened Crypto
  import opened Helpers

  /** The entry shown (its `Display` line, then its password), or the error. The files are only read. */
  function View(p: Primitives, files: Files, args: GeneralArgs, readError: Option<IoFailure>, identifier: string)
    : (r: Result<PasswordEntry, FortressError>)
    ensures Load(p, files, args, readError).Err? ==> r == Err(Load(p, files, args, readError).error)
    ensures Load(p, files, args, readError).Ok? ==>
      var entries := Load(p, files, args, readError).value;
      && (r.Ok? ==> exists k :: IsFirstMatch(entries, identifier, k) && r.value == entries[k])
      && (r.Err? <==> NoMatch(entries, identifier))
      && (r.Err? ==> r.error == IdNotFound(identifier))
  {
    match Load(p, files, args, readError)
    case Err(e) => Err(e)
    case Ok(entries) =>
      match FindFirst(entries, identifier)
      case Some(k) => Ok(entries[k])
      case None => Err(IdNotFound(identifier))
  }
}
