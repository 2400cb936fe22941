/** The file system the tools act on, reduced to what they observe: a set of
    directories and a map from file paths to contents. Paths are sequences
    of path segments relative to the working directory, which is the empty
    path. The operations are the Node.js `fs/promises` calls the tools make,
    each failing with the error code Node reports. Each call is specified by
    a function on the file system's contents; the class `FileSystem` holds
    the contents that the tools change in place. */
module Files {
  import opened Wrappers

  /** A path, as its segments below the working directory. */
  type Path = seq<string>

  /** `path.dirname`: the path without its last segment; the working
      directory is its own parent. */
  function Parent(p: Path): (q: Path)
    ensures p == [] ==> q == []
    ensures p != [] ==> |q| == |p| - 1 && p == q + [p[|p| - 1]]
  {
    if p == [] then [] else p[..|p| - 1]
  }

  /** The path as the tools print it: its segments joined by "/", or "."
      for the working directory. */
  function Show(p: Path): string {
    if p == [] then "."
    else if |p| == 1 then p[0]
    else Show(p[..|p| - 1]) + "/" + p[|p| - 1]
  }

  /** `p` and every directory above it, the working directory included. */
  function Prefixes(p: Path): (r: set<Path>)
    ensures p in r && [] in r
    ensures forall q :: q in r ==> |q| <= |p| && q == p[..|q|]
    ensures forall k :: 0 <= k <= |p| ==> p[..k] in r
  {
    assert p[..|p|] == p && p[..0] == [];
    set k | 0 <= k <= |p| :: p[..k]
  }

  const EEXIST := "EEXIST: file already exists"
  const ENOENT := "ENOENT: no such file or directory"
  const ENOTDIR := "ENOTDIR: not a directory"
  const EISDIR := "EISDIR: illegal operation on a directory"

  /** What the file system holds. */
  datatype Disk = Disk(dirs: set<Path>, files: map<Path, string>)

  /** The working directory exists, nothing is both a file and a
      directory, and everything that exists sits in a directory. */
  ghost predicate WellFormed(d: Disk) {
    && [] in d.dirs
    && (forall p :: p in d.files ==> p !in d.dirs)
    && (forall p {:trigger Parent(p)} :: p in d.dirs ==> Parent(p) in d.dirs)
    && (forall p :: p in d.files ==> Parent(p) in d.dirs)
  }

  /** A file or a directory is at `p`. */
  predicate Exists(d: Disk, p: Path) {
    p in d.dirs || p in d.files
  }

  /** Some prefix of `p`, `p` itself included, is a file, so no directory
      can be made at `p`. */
  predicate Blocked(d: Disk, p: Path) {
    exists k :: 0 <= k <= |p| && p[..k] in d.files
  }

  /** What a call that may change the file system reports, and the
      contents after it. */
  datatype Change = Change(outcome: Outcome, after: Disk)

  /** `fs.mkdir(p, { recursive: true })`: makes `p` and every missing
      directory above it, and succeeds when `p` is already a directory.
      It fails, changing nothing, when `p` or a directory above it is a
      file. */
  function Mkdir(d: Disk, p: Path): (c: Change)
    ensures c.outcome.Pass? <==> !Blocked(d, p)
    ensures c.outcome.Pass? ==>
      && c.after.files == d.files
      && (forall k :: 0 <= k <= |p| ==> p[..k] in c.after.dirs)
      && (forall q :: q in c.after.dirs <==> q in d.dirs || q in Prefixes(p))
    ensures c.outcome.Fail? ==> c.after == d
    ensures c.outcome.Fail? ==> c.outcome.error == if p in d.files then EEXIST else ENOTDIR
  {
    if p in d.files then
      assert p[..|p|] == p;
      Change(Fail(EEXIST), d)
    else if Blocked(d, p) then Change(Fail(ENOTDIR), d)
    else Change(Pass, Disk(d.dirs + Prefixes(p), d.files))
  }

  /** Making the directories of an unblocked path keeps the file system
      well formed. */
  lemma MkdirWellFormed(d: Disk, p: Path)
    requires WellFormed(d)
    ensures WellFormed(Mkdir(d, p).after)
  {
    if !Blocked(d, p) {
      forall q | q in Prefixes(p)
        ensures q !in d.files && Parent(q) in d.dirs + Prefixes(p)
      {
        var k := |q|;
        if k > 0 {
          assert Parent(q) == p[..k - 1];
        }
      }
    }
  }

  /** `fs.writeFile(p, content)`: creates or overwrites the file at `p`.
      It fails, changing nothing, when `p` is a directory or the directory
      that would hold it does not exist. */
  function Write(d: Disk, p: Path, content: string): (c: Change)
    ensures c.outcome.Pass? <==> p !in d.dirs && Parent(p) in d.dirs
    ensures c.outcome.Pass? ==>
      && c.after.dirs == d.dirs
      && p in c.after.files && c.after.files[p] == content
      && c.after.files.Keys == d.files.Keys + {p}
      && (forall q :: q in d.files && q != p ==> c.after.files[q] == d.files[q])
    ensures c.outcome.Fail? ==> c.after == d
    ensures c.outcome.Fail? ==>
      c.outcome.error == (if p in d.dirs then EISDIR else if Blocked(d, Parent(p)) then ENOTDIR else ENOENT)
  {
    if p in d.dirs then Change(Fail(EISDIR), d)
    else if Parent(p) !in d.dirs then Change(Fail(if Blocked(d, Parent(p)) then ENOTDIR else ENOENT), d)
    else Change(Pass, Disk(d.dirs, d.files[p := content]))
  }

  /** Writing keeps the file system well formed. */
  lemma WriteWellFormed(d: Disk, p: Path, content: string)
    requires WellFormed(d)
    ensures WellFormed(Write(d, p, content).after)
  {
  }

  /** What a tool reports, whether it asked the user, and the file system
      after it. */
  datatype Response = Response(result: Result<string>, prompted: bool, after: Disk)

  /** `fs.readFile(p)`: the content of the file at `p`, failing when `p`
      is a directory or nothing. */
  function Read(d: Disk, p: Path): (r: Result<string>)
    ensures r.Ok? <==> p in d.files
    ensures r.Ok? ==> r.value == d.files[p]
    ensures r.Err? ==>
      r.error == (if p in d.dirs then EISDIR else if Blocked(d, Parent(p)) then ENOTDIR else ENOENT)
  {
    if p in d.files then Ok(d.files[p])
    else if p in d.dirs then Err(EISDIR)
    else Err(if Blocked(d, Parent(p)) then ENOTDIR else ENOENT)
  }

  /** The file system the tools change in place. */
  class FileSystem {
    var dirs: set<Path>
    var files: map<Path, string>

    function Contents(): Disk
      reads this
    {
      Disk(dirs, files)
    }

    ghost predicate Valid()
      reads this
    {
      WellFormed(Contents())
    }

    /** An empty working directory. */
    constructor ()
      ensures Valid()
      ensures Contents() == Disk({[]}, map[])
    {
      dirs := {[]};
      files := map[];
    }

    /** `fs.stat` or `fs.access`: passes exactly when something exists at
        `p`, changing nothing. A missing path fails with `ENOTDIR` when a
        file stands where one of its directories belongs. */
    method Access(p: Path) returns (o: Outcome)
      ensures o.Pass? <==> Exists(Contents(), p)
      ensures o.Fail? ==> o.error == (if Blocked(Contents(), Parent(p)) then ENOTDIR else ENOENT)
    {
      if p in dirs || p in files {
        o := Pass;
      } else {
        o := Fail(if Blocked(Contents(), Parent(p)) then ENOTDIR else ENOENT);
      }
    }

    method MakeDirectories(p: Path) returns (o: Outcome)
      requires Valid()
      modifies this
      ensures Valid()
      ensures Change(o, Contents()) == Mkdir(old(Contents()), p)
    {
      MkdirWellFormed(Contents(), p);
      if p in files {
        return Fail(EEXIST);
      }
      if exists k :: 0 <= k <= |p| && p[..k] in files {
        return Fail(ENOTDIR);
      }
      dirs := dirs + Prefixes(p);
      o := Pass;
    }

    method WriteFile(p: Path, content: string) returns (o: Outcome)
      requires Valid()
      modifies this
      ensures Valid()
      ensures Change(o, Contents()) == Write(old(Contents()), p, content)
    {
      WriteWellFormed(Contents(), p, content);
      if p in dirs {
        return Fail(EISDIR);
      }
      if Parent(p) !in dirs {
        return Fail(if Blocked(Contents(), Parent(p)) then ENOTDIR else ENOENT);
      }
      files := files[p := content];
      o := Pass;
    }

    method ReadFile(p: Path) returns (r: Result<string>)
      ensures r == Read(Contents(), p)
    {
      if p in files {
        r := Ok(files[p]);
      } else if p in dirs {
        r := Err(EISDIR);
      } else {
        r := Err(if Blocked(Contents(), Parent(p)) then ENOTDIR else ENOENT);
      }
    }
  }
}
