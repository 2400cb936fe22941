/** Sequences of tool calls on one file system, starting from an empty
    working directory, with what each sequence is guaranteed to produce for
    any answer the user gives that refuses or allows. Each `Execute` method
    is proved to act as the corresponding `Respond`, so these hold of the
    methods too. */
module ToolScenarios {
  import opened Wrappers
  import opened Files
  import Ask
  import WriteFile
  import EditFile
  import CopyFile
  import SearchInDirectory

  /** An empty working directory. */
  function Empty(): Disk {
    Disk({[]}, map[])
  }

  /** An allowed write of `dir/name` into the empty working directory
      makes the directory `dir` and that one file, and leaves the file
      system well formed. */
  lemma FirstWrite(dir: string, name: string, content: string)
    ensures var written := WriteFile.Respond(Empty(), [dir, name], content, true);
      && written.result == Ok(WriteFile.Written([dir, name]))
      && WellFormed(written.after)
      && [dir] in written.after.dirs
      && written.after.files.Keys == {[dir, name]} && written.after.files[[dir, name]] == content
  {
    var path := [dir, name];
    assert Parent(path) == [dir];
    assert !Blocked(Empty(), Parent(path));
    WriteFile.RespondWrites(Empty(), path, content);
    WriteFile.RespondWellFormed(Empty(), path, content, true);
  }

  /** A refused write changes nothing; an allowed one creates the file;
      writing again is refused without a prompt and keeps the first
      content. */
  lemma WriteTwice(dir: string, name: string)
    ensures var path := [dir, name];
      var denied := WriteFile.Respond(Empty(), path, "v1", false);
      var written := WriteFile.Respond(denied.after, path, "v1", true);
      var again := WriteFile.Respond(written.after, path, "v2", true);
      && denied.result == Err(WriteFile.Denied(path)) && denied.after == Empty()
      && written.result == Ok(WriteFile.Written(path))
      && again.result == Err(WriteFile.AlreadyExists(path)) && !again.prompted
      && again.after.files[path] == "v1"
  {
    FirstWrite(dir, name, "v1");
  }

  /** A file written and then edited holds the edited content, and the
      edit makes no directory. */
  lemma WriteThenEdit(dir: string, name: string)
    ensures var path := [dir, name];
      var written := WriteFile.Respond(Empty(), path, "v1", true);
      var edited := EditFile.Respond(written.after, path, "v2", true);
      && edited.result == Ok(EditFile.Edited(path))
      && edited.after.dirs == written.after.dirs
      && edited.after.files.Keys == {path} && edited.after.files[path] == "v2"
  {
    FirstWrite(dir, name, "v1");
    var written := WriteFile.Respond(Empty(), [dir, name], "v1", true);
    EditFile.RespondEdits(written.after, [dir, name], "v2");
  }

  /** In an empty working directory, copying anything but the working
      directory itself fails before any prompt, whatever the answer. */
  lemma CopyMissing(source: Path, destination: Path, allowed: bool)
    requires source != []
    ensures var copied := CopyFile.Respond(Empty(), source, destination, allowed);
      copied.result == Err(CopyFile.Failed(ENOENT)) && !copied.prompted && copied.after == Empty()
  {
  }

  /** Copying from below a file fails with `ENOTDIR` before any prompt,
      whatever the answer. */
  lemma CopyBelowFile(name: string, below: string, destination: Path, allowed: bool)
    ensures var d := Disk({[]}, map[[name] := "x"]);
      var copied := CopyFile.Respond(d, [name, below], destination, allowed);
      copied.result == Err(CopyFile.Failed(ENOTDIR)) && !copied.prompted && copied.after == d
  {
    var source := [name, below];
    assert Parent(source) == [name] && Parent(source)[..1] == [name];
  }

  /** Copying a directory fails when it is read, after the destination's
      directory was made. */
  lemma CopyDirectory(dir: string, name: string)
    ensures var copied := CopyFile.Respond(Empty(), [], [dir, name], true);
      && copied.result == Err(CopyFile.Failed(EISDIR))
      && [dir] in copied.after.dirs && copied.after.files == map[]
  {
    var destination := [dir, name];
    assert Parent(destination) == [dir];
    assert !Blocked(Empty(), Parent(destination));
    CopyFile.RespondDirectory(Empty(), [], destination);
  }

  /** A written file copied next to itself: both hold the written
      content. */
  lemma WriteThenCopy(dir: string, name: string, copy: string)
    requires copy != name
    ensures var source, destination := [dir, name], [dir, copy];
      var written := WriteFile.Respond(Empty(), source, "v1", true);
      var copied := CopyFile.Respond(written.after, source, destination, true);
      && copied.result == Ok(CopyFile.Copied(source, destination))
      && copied.after.files.Keys == {source, destination}
      && copied.after.files[source] == "v1" && copied.after.files[destination] == "v1"
  {
    FirstWrite(dir, name, "v1");
    var source, destination := [dir, name], [dir, copy];
    var written := WriteFile.Respond(Empty(), source, "v1", true);
    assert Parent(destination) == [dir];
    assert !Blocked(written.after, [dir]) by {
      assert [dir][..0] == [] && [dir][..1] == [dir];
    }
    CopyFile.RespondCopies(written.after, source, destination);
  }

  /** Name matching over a listing keeps the listing order. */
  method SearchListing() returns (r: Result<seq<string>>)
    ensures r == Ok(["src/a.ts", "src/c.ts"])
  {
    var entries := ["a.ts", "b.md", "c.ts"];
    assert SearchInDirectory.OccursAt("a.ts", "ts", 2) && SearchInDirectory.OccursAt("c.ts", "ts", 2);
    assert !SearchInDirectory.Includes("b.md", "ts") by {
      forall k | 0 <= k <= 2 ensures !SearchInDirectory.OccursAt("b.md", "ts", k) {
        assert "b.md"[k..k + 2][0] == "b.md"[k] != 't';
      }
    }
    assert entries[..2] == ["a.ts", "b.md"] && entries[..2][..1] == ["a.ts"] && ["a.ts"][..0] == [];
    var names := SearchInDirectory.MatchingNames("ts", entries);
    assert SearchInDirectory.MatchingNames("ts", ["a.ts"]) == ["a.ts"];
    assert SearchInDirectory.MatchingNames("ts", ["a.ts", "b.md"]) == ["a.ts"];
    assert names == ["a.ts", "c.ts"];
    assert SearchInDirectory.EntryPath("src", "a.ts") == "src/a.ts";
    assert SearchInDirectory.EntryPath("src", "c.ts") == "src/c.ts";
    assert SearchInDirectory.Paths("src", names) == ["src/a.ts", "src/c.ts"];
    r := SearchInDirectory.Execute("src", "ts", Ok(entries));
  }
}
