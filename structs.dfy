/**
 * The records of the vault: one credential entry, its masked display, the
 * per-invocation context, and the first-match lookup every command uses.
 */
module Structs {
  import opened Wrappers

  /** One credential record. */
  datatype PasswordEntry = PasswordEntry(identifier: string, username: string, password: string)

  /** The context of one invocation: verbosity, vault path and master password. */
  datatype GeneralArgs = GeneralArgs(verbose: bool, file: string, password: string)
  {
    /** `GeneralArgs::new`: the three values are stored as given. */
    static function New(verbose: bool, file: string, password: string): (args: GeneralArgs)
      ensures args.verbose == verbose && args.file == file && args.password == password
    {
      GeneralArgs(verbose, file, password)
    }
  }

  /** What `Display` prints in place of the password. */
  const MASK: string := "'*****'"

  /** `sub` occurs in `s` starting at position `k`. */
  predicate OccursAt(sub: string, s: string, k: nat)
  {
    k + |sub| <= |s| && s[k..k + |sub|] == sub
  }

  /** `Display` of an entry: "<identifier> (<username>): '*****'". */
  function Display(e: PasswordEntry): (s: string)
    ensures OccursAt(e.identifier, s, 0)
    ensures OccursAt(" (", s, |e.identifier|)
    ensures OccursAt(e.username, s, |e.identifier| + 2)
    ensures OccursAt("): ", s, |e.identifier| + 2 + |e.username|)
    ensures |s| == |e.identifier| + |e.username| + 5 + |MASK|
    ensures OccursAt(MASK, s, |s| - |MASK|)
  {
    var s := e.identifier + " (" + e.username + "): " + MASK;
    assert s[|e.identifier| + 2..|e.identifier| + 2 + |e.username|] == e.username;
    s
  }

  /** The password never reaches the display: entries that differ only in it display alike. */
  lemma DisplayIgnoresPassword(e: PasswordEntry, other: string)
    ensures Display(e.(password := other)) == Display(e)
  {
  }

  /** `k` is the position of the first entry whose identifier is `identifier`. */
  ghost predicate IsFirstMatch(entries: seq<PasswordEntry>, identifier: string, k: int)
  {
    && 0 <= k < |entries|
    && entries[k].identifier == identifier
    && forall j :: 0 <= j < k ==> entries[j].identifier != identifier
  }

  /** No entry has this identifier. */
  ghost predicate NoMatch(entries: seq<PasswordEntry>, identifier: string)
  {
    forall j :: 0 <= j < |entries| ==> entries[j].identifier != identifier
  }

  /** `iter().find(|item| item.identifier == identifier)`, as the position found. */
  function FindFirst(entries: seq<PasswordEntry>, identifier: string): (r: Option<nat>)
    ensures r.Some? ==> IsFirstMatch(entries, identifier, r.value)
    ensures r.None? <==> NoMatch(entries, identifier)
  {
    if entries == [] then None
    else if entries[0].identifier == identifier then Some(0)
    else match FindFirst(entries[1..], identifier)
      case None => None
      case Some(k) => Some(k + 1)
  }

  /** Appending never changes which entry is found first when one was already found. */
  lemma {:induction false} FindFirstAppend(entries: seq<PasswordEntry>, e: PasswordEntry, identifier: string)
    requires FindFirst(entries, identifier).Some?
    ensures FindFirst(entries + [e], identifier) == FindFirst(entries, identifier)
  {
    if entries[0].identifier != identifier {
      assert (entries + [e])[1..] == entries[1..] + [e];
      FindFirstAppend(entries[1..], e, identifier);
    }
  }

  /** On a list without a match, an appended entry with that identifier is the one found. */
  lemma {:induction false} FindFirstAppendNew(entries: seq<PasswordEntry>, e: PasswordEntry)
    requires FindFirst(entries, e.identifier).None?
    ensures FindFirst(entries + [e], e.identifier) == Some(|entries|)
  {
    if entries != [] {
      assert (entries + [e])[1..] == entries[1..] + [e];
      FindFirstAppendNew(entries[1..], e);
    }
  }
}
