/** The `searchInDirectory` tool: the entries of one directory whose names
    contain a keyword, each prefixed with the directory path. Only names are
    matched and every entry is a candidate, directories included; the
    search does not descend into subdirectories. */
module SearchInDirectory {
  import opened Wrappers

  /** `keyword` occurs in `name` starting at index `k`. */
  predicate OccursAt(name: string, keyword: string, k: int) {
    0 <= k <= |name| - |keyword| && name[k..k + |keyword|] == keyword
  }

  /** `name.includes(keyword)`. */
  predicate Includes(name: string, keyword: string) {
    exists k :: 0 <= k <= |name| - |keyword| && OccursAt(name, keyword, k)
  }

  /** `${directoryPath}/${entry}`. */
  function EntryPath(directoryPath: string, entry: string): string {
    directoryPath + "/" + entry
  }

  /** The entries whose names contain the keyword, in listing order. */
  function MatchingNames(keyword: string, entries: seq<string>): seq<string> {
    if entries == [] then []
    else
      var init, last := entries[..|entries| - 1], entries[|entries| - 1];
      MatchingNames(keyword, init) + (if Includes(last, keyword) then [last] else [])
  }

  /** Each name prefixed with the directory path. */
  function Paths(directoryPath: string, names: seq<string>): (r: seq<string>)
    ensures |r| == |names|
    ensures forall i :: 0 <= i < |names| ==> r[i] == EntryPath(directoryPath, names[i])
  {
    seq(|names|, i requires 0 <= i < |names| => EntryPath(directoryPath, names[i]))
  }

  /** What the tool returns for a listing. */
  function Matching(directoryPath: string, keyword: string, entries: seq<string>): seq<string> {
    Paths(directoryPath, MatchingNames(keyword, entries))
  }

  function Failed(directoryPath: string, error: string): string {
    "Error searching in directory at " + directoryPath + ": " + error
  }

  /** The tool's `execute`. `listing` is what `fs.readdir` gave for the
      directory: its entry names, or the error it threw. */
  method Execute(directoryPath: string, keyword: string, listing: Result<seq<string>>)
    returns (r: Result<seq<string>>)
    ensures listing.Err? ==> r == Err(Failed(directoryPath, listing.error))
    ensures listing.Ok? ==> r == Ok(Matching(directoryPath, keyword, listing.value))
  {
    if listing.Err? {
      return Err(Failed(directoryPath, listing.error));
    }
    var entries := listing.value;
    var matchingFiles: seq<string> := [];
    var i := 0;
    while i < |entries|
      invariant 0 <= i <= |entries|
      invariant matchingFiles == Matching(directoryPath, keyword, entries[..i])
    {
      var entry := entries[i];
      var entryPath := EntryPath(directoryPath, entry);
      ghost var names := MatchingNames(keyword, entries[..i]);
      assert entries[..i + 1][..i] == entries[..i];
      if Includes(entry, keyword) {
        matchingFiles := matchingFiles + [entryPath];
        assert Paths(directoryPath, names + [entry]) == Paths(directoryPath, names) + [entryPath];
      }
      i := i + 1;
    }
    assert entries[..i] == entries;
    return Ok(matchingFiles);
  }

  /** `xs` can be obtained from `ys` by deleting elements. */
  predicate Subsequence(xs: seq<string>, ys: seq<string>) {
    if ys == [] then xs == []
    else
      var init, last := ys[..|ys| - 1], ys[|ys| - 1];
      || Subsequence(xs, init)
      || (xs != [] && xs[|xs| - 1] == last && Subsequence(xs[..|xs| - 1], init))
  }

  /** Every returned path is the path of a listed entry whose name contains
      the keyword. */
  lemma {:induction false} MatchingSound(directoryPath: string, keyword: string, entries: seq<string>)
    ensures forall p :: p in Matching(directoryPath, keyword, entries) ==>
      exists e :: e in entries && Includes(e, keyword) && p == EntryPath(directoryPath, e)
  {
    NamesSound(keyword, entries);
    var names := MatchingNames(keyword, entries);
    forall p | p in Matching(directoryPath, keyword, entries)
      ensures exists e :: e in entries && Includes(e, keyword) && p == EntryPath(directoryPath, e)
    {
      var i :| 0 <= i < |names| && Paths(directoryPath, names)[i] == p;
      assert names[i] in names;
    }
  }

  /** The matching names are listed names that contain the keyword. */
  lemma {:induction false} NamesSound(keyword: string, entries: seq<string>)
    ensures forall e :: e in MatchingNames(keyword, entries) ==> e in entries && Includes(e, keyword)
  {
    if entries != [] {
      var init := entries[..|entries| - 1];
      NamesSound(keyword, init);
      assert forall e :: e in init ==> e in entries;
    }
  }

  /** Every listed entry whose name contains the keyword is returned. */
  lemma MatchingComplete(directoryPath: string, keyword: string, entries: seq<string>)
    ensures forall e :: e in entries && Includes(e, keyword) ==>
      EntryPath(directoryPath, e) in Matching(directoryPath, keyword, entries)
  {
    NamesComplete(keyword, entries);
    var names := MatchingNames(keyword, entries);
    forall e | e in entries && Includes(e, keyword)
      ensures EntryPath(directoryPath, e) in Matching(directoryPath, keyword, entries)
    {
      var i :| 0 <= i < |names| && names[i] == e;
      assert Paths(directoryPath, names)[i] == EntryPath(directoryPath, e);
    }
  }

  /** Every listed name that contains the keyword is a matching name. */
  lemma {:induction false} NamesComplete(keyword: string, entries: seq<string>)
    ensures forall e :: e in entries && Includes(e, keyword) ==> e in MatchingNames(keyword, entries)
  {
    if entries != [] {
      var init, last := entries[..|entries| - 1], entries[|entries| - 1];
      NamesComplete(keyword, init);
      assert entries == init + [last];
    }
  }

  /** The matching names keep the listing's order: they are a subsequence
      of it, so the result is never longer than the listing. */
  lemma {:induction false} MatchingInOrder(directoryPath: string, keyword: string, entries: seq<string>)
    ensures Subsequence(MatchingNames(keyword, entries), entries)
    ensures |Matching(directoryPath, keyword, entries)| <= |entries|
  {
    if entries != [] {
      var init, last := entries[..|entries| - 1], entries[|entries| - 1];
      MatchingInOrder(directoryPath, keyword, init);
      SubsequenceExtend(MatchingNames(keyword, init), init, last, Includes(last, keyword));
      assert init + [last] == entries;
    }
  }

  /** Extending the listing by one entry, kept or dropped, keeps the
      subsequence relation. */
  lemma SubsequenceExtend(xs: seq<string>, ys: seq<string>, y: string, keep: bool)
    requires Subsequence(xs, ys)
    ensures Subsequence(xs + (if keep then [y] else []), ys + [y])
  {
    var zs := ys + [y];
    assert zs[..|zs| - 1] == ys;
    if keep {
      var ws := xs + [y];
      assert ws[..|ws| - 1] == xs;
    } else {
      assert xs + [] == xs;
    }
  }

  /** The empty keyword occurs in every name, so every entry is returned. */
  lemma {:induction false} EmptyKeywordMatchesAll(directoryPath: string, entries: seq<string>)
    ensures MatchingNames("", entries) == entries
    ensures Matching(directoryPath, "", entries) == Paths(directoryPath, entries)
  {
    if entries != [] {
      var init, last := entries[..|entries| - 1], entries[|entries| - 1];
      EmptyKeywordMatchesAll(directoryPath, init);
      assert OccursAt(last, "", 0);
      assert init + [last] == entries;
    }
  }
}
