/** `list`: print every entry, masked, in stored order, between "[" and "]". */
module ListCommand {
  import opened Wrappers
  import opened Errors
  import opened Structs
  import opened Crypto
  import opened Helpers

  /** One tab-indented `Display` line per entry. */
  function EntryLines(entries: seq<PasswordEntry>): (lines: seq<string>)
    ensures |lines| == |entries|
    ensures forall i :: 0 <= i < |entries| ==> lines[i] == "\t" + Display(entries[i])
  {
    if entries == [] then [] else ["\t" + Display(entries[0])] + EntryLines(entries[1..])
  }

  /** The printed lines: "[", the entries, "]". */
  function ListLines(entries: seq<PasswordEntry>): (lines: seq<string>)
    ensures |lines| == |entries| + 2
    ensures lines[0] == "[" && lines[|lines| - 1] == "]"
    ensures forall i :: 0 <= i < |entries| ==> lines[i + 1] == "\t" + Display(entries[i])
  {
    ["["] + EntryLines(entries) + ["]"]
  }

  /** An empty vault prints only the brackets. */
  lemma EmptyListIsBrackets()
    ensures ListLines([]) == ["[", "]"]
  {
    assert EntryLines([]) == [];
  }

  /** Listing shows no password: vaults that differ only in passwords list alike. */
  lemma ListLinesIgnorePasswords(a: seq<PasswordEntry>, b: seq<PasswordEntry>)
    requires |a| == |b|
    requires forall i :: 0 <= i < |a| ==> a[i].identifier == b[i].identifier && a[i].username == b[i].username
    ensures ListLines(a) == ListLines(b)
  {
    EntryLinesIgnorePasswords(a, b);
  }

  /** The output depends only on identifiers and usernames: no password reaches it. */
  lemma {:induction false} EntryLinesIgnorePasswords(a: seq<PasswordEntry>, b: seq<PasswordEntry>)
    requires |a| == |b|
    requires forall i :: 0 <= i < |a| ==> a[i].identifier == b[i].identifier && a[i].username == b[i].username
    ensures EntryLines(a) == EntryLines(b)
  {
    if a != [] {
      DisplayIgnoresPassword(b[0], a[0].password);
      assert a[0] == b[0].(password := a[0].password);
      EntryLinesIgnorePasswords(a[1..], b[1..]);
    }
  }

  function List(p: Primitives, files: Files, args: GeneralArgs, readError: Option<IoFailure>)
    : (r: Result<seq<string>, FortressError>)
    ensures Load(p, files, args, readError).Err? ==> r == Err(Load(p, files, args, readError).error)
    ensures r.Ok? <==> Load(p, files, args, readError).Ok?
    ensures r.Ok? ==>
      var entries := Load(p, files, args, readError).value;
      && |r.value| == |entries| + 2
      && r.value[0] == "[" && r.value[|r.value| - 1] == "]"
      && forall i :: 0 <= i < |entries| ==> r.value[i + 1] == "\t" + Display(entries[i])
  {
    match Load(p, files, args, readError)
    case Err(e) => Err(e)
    case Ok(entries) => Ok(ListLines(entries))
  }
}
