/** The `copyFile` tool: copies an existing file to a path where nothing
    exists yet, after asking the user. */
module CopyFile {
  import opened Wrappers
  import opened Files
  import Ask

  function DestinationExists(destination: Path): string {
    "Destination file at " + Show(destination) + " already exists."
  }

  const Denied := "User denied permission to copy the file."

  function Copied(source: Path, destination: Path): string {
    "File copied from " + Show(source) + " to " + Show(destination) + " successfully."
  }

  function Failed(error: string): string {
    "Failed to copy file: " + error
  }

  /** What the tool does to the file system `d`, where `allowed` is the
      user's answer at the prompt. The source is checked first, and a
      missing one fails like any thrown error, with `ENOTDIR` when a file
      stands where one of its directories belongs; an existing destination
      is refused. Neither asks the user, and neither changes anything. */
  function Respond(d: Disk, source: Path, destination: Path, allowed: bool): (s: Response)
    ensures s.prompted <==> Exists(d, source) && !Exists(d, destination)
    ensures !Exists(d, source) ==>
      s.result == Err(Failed(if Blocked(d, Parent(source)) then ENOTDIR else ENOENT)) && s.after == d
    ensures Exists(d, source) && Exists(d, destination) ==>
      s.result == Err(DestinationExists(destination)) && s.after == d
    ensures s.prompted && !allowed ==> s.result == Err(Denied) && s.after == d
  {
    if !Exists(d, source) then
      Response(Err(Failed(if Blocked(d, Parent(source)) then ENOTDIR else ENOENT)), false, d)
    else if Exists(d, destination) then Response(Err(DestinationExists(destination)), false, d)
    else if !allowed then Response(Err(Denied), true, d)
    else
      var made := Mkdir(d, Parent(destination));
      if made.outcome.Fail? then Response(Err(Failed(made.outcome.error)), true, d)
      else
        var data := Read(made.after, source);
        if data.Err? then Response(Err(Failed(data.error)), true, made.after)
        else
          var written := Write(made.after, destination, data.value);
          if written.outcome.Fail? then Response(Err(Failed(written.outcome.error)), true, made.after)
          else Response(Ok(Copied(source, destination)), true, written.after)
  }

  /** Allowed, the tool fails, changing nothing, when a file stands where a
      directory above the destination belongs. */
  lemma RespondBlocked(d: Disk, source: Path, destination: Path)
    requires Exists(d, source) && !Exists(d, destination)
    requires Blocked(d, Parent(destination))
    ensures Respond(d, source, destination, true).after == d
    ensures Respond(d, source, destination, true).result
      == Err(Failed(if Parent(destination) in d.files then EEXIST else ENOTDIR))
  {
    assert Mkdir(d, Parent(destination)).outcome.Fail?;
  }

  /** A directory passes the source check and fails only when it is read,
      after the destination's directories have been made. */
  lemma RespondDirectory(d: Disk, source: Path, destination: Path)
    requires WellFormed(d) && source in d.dirs && !Exists(d, destination)
    requires !Blocked(d, Parent(destination))
    ensures var s := Respond(d, source, destination, true);
      && s.result == Err(Failed(EISDIR))
      && s.after.files == d.files
      && (forall q :: q in s.after.dirs <==> q in d.dirs || q in Prefixes(Parent(destination)))
  {
    var made := Mkdir(d, Parent(destination));
    assert source !in d.files;
    assert Read(made.after, source) == Err(EISDIR);
  }

  /** Allowed and unblocked, a file is copied: the destination gets the
      source's content, its directories are made, and no other file
      changes. */
  lemma RespondCopies(d: Disk, source: Path, destination: Path)
    requires WellFormed(d) && source in d.files && !Exists(d, destination)
    requires !Blocked(d, Parent(destination))
    ensures var s := Respond(d, source, destination, true);
      && s.result == Ok(Copied(source, destination))
      && s.after.files.Keys == d.files.Keys + {destination}
      && s.after.files[destination] == d.files[source]
      && (forall q :: q in d.files ==> s.after.files[q] == d.files[q])
      && (forall q :: q in s.after.dirs <==> q in d.dirs || q in Prefixes(Parent(destination)))
  {
    var made := Mkdir(d, Parent(destination));
    assert destination != [];
    assert destination !in Prefixes(Parent(destination));
    assert Read(made.after, source) == Ok(d.files[source]);
  }

  /** After a successful copy, every directory above the destination
      exists. */
  lemma RespondMakesDirectories(d: Disk, source: Path, destination: Path, allowed: bool)
    ensures var s := Respond(d, source, destination, allowed);
      s.result.Ok? ==> forall k :: 0 <= k < |destination| ==> destination[..k] in s.after.dirs
  {
    var s := Respond(d, source, destination, allowed);
    if s.result.Ok? {
      var made := Mkdir(d, Parent(destination));
      forall k | 0 <= k < |destination| ensures destination[..k] in s.after.dirs {
        assert destination[..k] == Parent(destination)[..k];
      }
    }
  }

  /** The tool keeps a well-formed file system well formed. */
  lemma RespondWellFormed(d: Disk, source: Path, destination: Path, allowed: bool)
    requires WellFormed(d)
    ensures WellFormed(Respond(d, source, destination, allowed).after)
  {
    var made := Mkdir(d, Parent(destination));
    MkdirWellFormed(d, Parent(destination));
    var data := Read(made.after, source);
    if data.Ok? {
      WriteWellFormed(made.after, destination, data.value);
    }
  }

  /** The tool's `execute`. `answer` is what the user types at the prompt;
      `prompted` says whether the prompt was shown. */
  method Execute(fs: FileSystem, source: Path, destination: Path, answer: string)
    returns (r: Result<string>, prompted: bool)
    requires fs.Valid()
    modifies fs
    ensures fs.Valid()
    ensures Response(r, prompted, fs.Contents()) == Respond(old(fs.Contents()), source, destination, Ask.Accepts(answer))
  {
    var found := fs.Access(source);
    if found.Fail? {
      return Err(Failed(found.error)), false;
    }
    var taken := fs.Access(destination);
    if taken.Pass? {
      return Err(DestinationExists(destination)), false;
    }
    prompted := true;
    if !Ask.Accepts(answer) {
      return Err(Denied), prompted;
    }
    var made := fs.MakeDirectories(Parent(destination));
    if made.Fail? {
      return Err(Failed(made.error)), prompted;
    }
    var data := fs.ReadFile(source);
    if data.Err? {
      return Err(Failed(data.error)), prompted;
    }
    var written := fs.WriteFile(destination, data.value);
    if written.Fail? {
      return Err(Failed(written.error)), prompted;
    }
    r := Ok(Copied(source, destination));
  }
}
