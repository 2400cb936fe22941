/** The `editFile` tool: replaces the content of something that already
    exists after asking the user. */
module EditFile {
  import opened Wrappers
  import opened Files
  import Ask

  function Missing(path: Path): string {
    "File at " + Show(path) + " does not exist. You should use \"writeFile\" tool instead."
  }

  /** The refusal reuses the wording of the `writeFile` tool and says
      "create". */
  function Denied(path: Path): string {
    "User denied permission to create file at " + Show(path)
  }

  function Edited(path: Path): string {
    "File at " + Show(path) + " edited successfully."
  }

  function Failed(path: Path, error: string): string {
    "Error editing file at " + Show(path) + ": " + error
  }

  /** What the tool does to the file system `d`, where `allowed` is the
      user's answer at the prompt. Only something that exists is edited,
      and only after the user agrees; a directory passes the existence
      check, so editing one prompts and then fails. */
  function Respond(d: Disk, path: Path, newContent: string, allowed: bool): (s: Response)
    ensures s.prompted <==> Exists(d, path)
    ensures !s.prompted ==> s.result == Err(Missing(path)) && s.after == d
    ensures s.prompted && !allowed ==> s.result == Err(Denied(path)) && s.after == d
    ensures s.prompted && allowed && path in d.dirs ==>
      s.result == Err(Failed(path, EISDIR)) && s.after == d
  {
    if !Exists(d, path) then Response(Err(Missing(path)), false, d)
    else if !allowed then Response(Err(Denied(path)), true, d)
    else
      var written := Write(d, path, newContent);
      if written.outcome.Fail? then Response(Err(Failed(path, written.outcome.error)), true, d)
      else Response(Ok(Edited(path)), true, written.after)
  }

  /** Allowed, the tool replaces the content of an existing file, makes no
      directory and adds no file. */
  lemma RespondEdits(d: Disk, path: Path, newContent: string)
    requires WellFormed(d) && path in d.files
    ensures var s := Respond(d, path, newContent, true);
      && s.result == Ok(Edited(path))
      && s.after.dirs == d.dirs
      && s.after.files.Keys == d.files.Keys && s.after.files[path] == newContent
  {
    assert Parent(path) in d.dirs && path !in d.dirs;
  }

  /** The tool never touches any file but `path`. */
  lemma RespondKeepsOthers(d: Disk, path: Path, newContent: string, allowed: bool)
    ensures var s := Respond(d, path, newContent, allowed);
      forall q :: q in d.files && q != path ==> q in s.after.files && s.after.files[q] == d.files[q]
  {
  }

  /** The tool keeps a well-formed file system well formed. */
  lemma RespondWellFormed(d: Disk, path: Path, newContent: string, allowed: bool)
    requires WellFormed(d)
    ensures WellFormed(Respond(d, path, newContent, allowed).after)
  {
    WriteWellFormed(d, path, newContent);
  }

  /** The tool's `execute`. `answer` is what the user types at the prompt;
      `prompted` says whether the prompt was shown. */
  method Execute(fs: FileSystem, path: Path, newContent: string, answer: string)
    returns (r: Result<string>, prompted: bool)
    requires fs.Valid()
    modifies fs
    ensures fs.Valid()
    ensures Response(r, prompted, fs.Contents()) == Respond(old(fs.Contents()), path, newContent, Ask.Accepts(answer))
  {
    var found := fs.Access(path);
    if found.Fail? {
      return Err(Missing(path)), false;
    }
    prompted := true;
    if !Ask.Accepts(answer) {
      return Err(Denied(path)), prompted;
    }
    var written := fs.WriteFile(path, newContent);
    match written {
      case Fail(e) =>
        r := Err(Failed(path, e));
      case Pass =>
        r := Ok(Edited(path));
    }
  }
}
