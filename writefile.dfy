/** The `writeFile` tool: creates a new file after asking the user, and
    refuses to touch anything that already exists. */
module WriteFile {
  import opened Wrappers
  import opened Files
  import Ask

  function AlreadyExists(path: Path): string {
    "File at " + Show(path) + " already exists. You should use \"editFile\" tool instead."
  }

  function Denied(path: Path): string {
    "User denied permission to create file at " + Show(path)
  }

  function Written(path: Path): string {
    "File written successfully to " + Show(path)
  }

  function Failed(path: Path, error: string): string {
    "Error writing file at " + Show(path) + ": " + error
  }

  /** What the tool does to the file system `d`, where `allowed` is the
      user's answer at the prompt: an existing path is refused without a
      prompt, a refusal changes nothing, and the remaining cases are the
      lemmas below. */
  function Respond(d: Disk, path: Path, content: string, allowed: bool): (s: Response)
    ensures s.prompted <==> !Exists(d, path)
    ensures Exists(d, path) ==> s.result == Err(AlreadyExists(path)) && s.after == d
    ensures s.prompted && !allowed ==> s.result == Err(Denied(path)) && s.after == d
  {
    if Exists(d, path) then Response(Err(AlreadyExists(path)), false, d)
    else if !allowed then Response(Err(Denied(path)), true, d)
    else
      var made := Mkdir(d, Parent(path));
      if made.outcome.Fail? then Response(Err(Failed(path, made.outcome.error)), true, d)
      else
        var written := Write(made.after, path, content);
        if written.outcome.Fail? then Response(Err(Failed(path, written.outcome.error)), true, made.after)
        else Response(Ok(Written(path)), true, written.after)
  }

  /** Allowed, the tool fails, changing nothing, exactly when a file stands
      where a directory above `path` belongs. */
  lemma RespondBlocked(d: Disk, path: Path, content: string)
    requires !Exists(d, path) && Blocked(d, Parent(path))
    ensures Respond(d, path, content, true).after == d
    ensures Respond(d, path, content, true).result
      == Err(Failed(path, if Parent(path) in d.files then EEXIST else ENOTDIR))
  {
    assert Mkdir(d, Parent(path)).outcome.Fail?;
  }

  /** Allowed and unblocked, the tool makes the directories above `path`
      and the file, and the write cannot fail. */
  lemma RespondWrites(d: Disk, path: Path, content: string)
    requires WellFormed(d)
    requires !Exists(d, path) && !Blocked(d, Parent(path))
    ensures var s := Respond(d, path, content, true);
      && s.result == Ok(Written(path))
      && s.after.files.Keys == d.files.Keys + {path} && s.after.files[path] == content
      && (forall q :: q in s.after.dirs <==> q in d.dirs || q in Prefixes(Parent(path)))
  {
    var made := Mkdir(d, Parent(path));
    assert path != [];
    assert path !in Prefixes(Parent(path));
  }

  /** The tool never changes or removes a file that was there. */
  lemma RespondKeepsFiles(d: Disk, path: Path, content: string, allowed: bool)
    ensures var s := Respond(d, path, content, allowed);
      forall q :: q in d.files ==> q in s.after.files && s.after.files[q] == d.files[q]
  {
    var made := Mkdir(d, Parent(path));
    if path in d.files {
      assert Exists(d, path);
    }
  }

  /** After a successful write, every directory above `path` exists. */
  lemma RespondMakesDirectories(d: Disk, path: Path, content: string, allowed: bool)
    ensures var s := Respond(d, path, content, allowed);
      s.result.Ok? ==> forall k :: 0 <= k < |path| ==> path[..k] in s.after.dirs
  {
    var s := Respond(d, path, content, allowed);
    if s.result.Ok? {
      var made := Mkdir(d, Parent(path));
      forall k | 0 <= k < |path| ensures path[..k] in s.after.dirs {
        assert path[..k] == Parent(path)[..k];
      }
    }
  }

  /** The tool keeps the file system well formed. */
  lemma RespondWellFormed(d: Disk, path: Path, content: string, allowed: bool)
    requires WellFormed(d)
    ensures WellFormed(Respond(d, path, content, allowed).after)
  {
    var made := Mkdir(d, Parent(path));
    MkdirWellFormed(d, Parent(path));
    WriteWellFormed(made.after, path, content);
  }

  /** The tool's `execute`. `answer` is what the user types at the prompt;
      `prompted` says whether the prompt was shown. Every failure comes back
      as an `Err` result. */
  method Execute(fs: FileSystem, path: Path, content: string, answer: string)
    returns (r: Result<string>, prompted: bool)
    requires fs.Valid()
    modifies fs
    ensures fs.Valid()
    ensures Response(r, prompted, fs.Contents()) == Respond(old(fs.Contents()), path, content, Ask.Accepts(answer))
  {
    var found := fs.Access(path);
    if found.Pass? {
      return Err(AlreadyExists(path)), false;
    }
    prompted := true;
    if !Ask.Accepts(answer) {
      return Err(Denied(path)), prompted;
    }
    var made := fs.MakeDirectories(Parent(path));
    if made.Fail? {
      return Err(Failed(path, made.error)), prompted;
    }
    var written := fs.WriteFile(path, content);
    if written.Fail? {
      return Err(Failed(path, written.error)), prompted;
    }
    r := Ok(Written(path));
  }
}
