/** `copy`: put the password of the first entry with the given identifier on the clipboard. */
module CopyCommand {
  import opened Wrappers
  import opened Errors
  import opened Structs
  import opened Crypto
  import opened Helpers
  import ViewCommand

  /** The command's result and the text handed to the clipboard, if any. */
  datatype CopyOutcome = CopyOutcome(result: Result<(), FortressError>, clipboard: Option<string>)

  /** `clipboardAccepts` is the outcome of the clipboard write. The files are only read. */
  function Copy(p: Primitives, files: Files, args: GeneralArgs, readError: Option<IoFailure>, identifier: string,
                clipboardAccepts: bool): (r: CopyOutcome)
    ensures var shown := ViewCommand.View(p, files, args, readError, identifier);
      && (shown.Err? ==> r.result == Err(shown.error) && r.clipboard.None?)
      && (shown.Ok? ==> r.clipboard == Some(shown.value.password))
      && (shown.Ok? && clipboardAccepts ==> r.result == Ok(()))
      && (shown.Ok? && !clipboardAccepts ==> r.result == Err(Clipboard(shown.value.password)))
  {
    match Load(p, files, args, readError)
    case Err(e) => CopyOutcome(Err(e), None)
    case Ok(entries) =>
      match FindFirst(entries, identifier)
      case None => CopyOutcome(Err(IdNotFound(identifier)), None)
      case Some(k) =>
        var password := entries[k].password;
        if clipboardAccepts then CopyOutcome(Ok(()), Some(password))
        else CopyOutcome(Err(Clipboard(password)), Some(password))
  }
}
