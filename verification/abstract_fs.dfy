/** An abstract filesystem standing in for the host OS, and the five Go `os`
    primitives the task runner calls on it: `Mkdir`, `OpenFile` with `O_CREATE`
    (read-only, or write-only with append or truncate), `Remove` and `RemoveAll`.

    Paths are taken literally: the parent of a path is the text before its last
    '/', and a path with no '/' after its first character sits directly under
    the root or the working directory. Those two need no entry to serve as a
    parent, but they are not entries themselves, so `Stat` reports them
    absent. */
module AbstractFs {
  import opened Wrappers

  type Path = string

  datatype Entry = File(content: string) | Dir

  type FileSystem = map<Path, Entry>

  /** The errno values the modelled primitives can report. */
  datatype Errno = NotExist | Exist | NotDir | IsDir | NotEmpty

  /** Go's `*os.PathError`: the operation, the path and the underlying errno. */
  datatype PathError = PathError(op: string, path: Path, errno: Errno)

  function ErrnoText(e: Errno): string
  {
    match e
    case NotExist => "no such file or directory"
    case Exist => "file exists"
    case NotDir => "not a directory"
    case IsDir => "is a directory"
    case NotEmpty => "directory not empty"
  }

  /** The text of `(*os.PathError).Error()`: "op path: errno". */
  function PathErrorText(e: PathError): (r: string)
    ensures e.op + " " + e.path + ": " <= r
    ensures r[|e.op| + |e.path| + 3..] == ErrnoText(e.errno)
    ensures ':' in r
  {
    e.op + " " + e.path + ": " + ErrnoText(e.errno)
  }

  /** Index of the last '/' in `p`, if any. */
  function LastSlash(p: Path): (r: Option<nat>)
    ensures r.Some? ==> r.value < |p| && p[r.value] == '/'
    ensures r.Some? ==> forall j :: r.value < j < |p| ==> p[j] != '/'
    ensures r.None? ==> forall j :: 0 <= j < |p| ==> p[j] != '/'
  {
    if |p| == 0 then None
    else if p[|p| - 1] == '/' then Some(|p| - 1)
    else LastSlash(p[..|p| - 1])
  }

  /** The directory that must exist for `p` to be created, or `None` when `p`
      sits directly under the root or the working directory. */
  function ParentOf(p: Path): (r: Option<Path>)
    ensures r.Some? ==> 0 < |r.value| < |p| && p[..|r.value|] == r.value && p[|r.value|] == '/'
    ensures r.Some? ==> forall j :: |r.value| < j < |p| ==> p[j] != '/'
    ensures r.None? ==> forall j :: 0 < j < |p| ==> p[j] != '/'
  {
    match LastSlash(p)
    case None => None
    case Some(i) => if i == 0 then None else Some(p[..i])
  }

  /** The parent of `a + "/" + b` is `a` when `b` holds no separator. */
  lemma ParentOfChild(a: Path, b: Path)
    requires |a| > 0 && '/' !in b
    ensures ParentOf(a + "/" + b) == Some(a)
  {
    var p := a + "/" + b;
    assert p[|a|] == '/';
    var r := ParentOf(p);
    assert p[..|a|] == a;
  }

  /** `q` lies strictly below `p` in the tree. */
  predicate IsUnder(q: Path, p: Path)
  {
    |p| < |q| && q[..|p|] == p && q[|p|] == '/'
  }

  /** Some entry of `fs` is an immediate child of `p`: what `os.ReadDir`
      reports as a non-empty listing. */
  predicate HasEntries(fs: FileSystem, p: Path)
  {
    exists q :: q in fs && ParentOf(q) == Some(p)
  }

  /** The parent of `p` exists and is a directory (vacuous at the top level). */
  predicate ParentIsDir(fs: FileSystem, p: Path)
  {
    match ParentOf(p)
    case None => true
    case Some(d) => d in fs && fs[d].Dir?
  }

  /** The shape of a real tree: no entry has the empty name, and every entry's
      parent is a directory of the tree. */
  ghost predicate WellFormed(fs: FileSystem)
  {
    forall p :: p in fs ==> p != "" && ParentIsDir(fs, p)
  }

  /** `a` and `b` agree on every path other than `p`. */
  ghost predicate SameOutside(a: FileSystem, b: FileSystem, p: Path)
  {
    forall q :: q != p ==> (q in a <==> q in b) && (q in a ==> a[q] == b[q])
  }

  /** The kernel's walk to the directory holding `p`: the nearest existing
      ancestor decides, a regular file giving "not a directory" and a
      directory below which a component is missing giving "no such file". */
  function Walk(fs: FileSystem, p: Path): (r: Option<Errno>)
    ensures r.None? <==> ParentIsDir(fs, p)
    ensures r.Some? ==> r.value == NotExist || r.value == NotDir
    decreases |p|
  {
    match ParentOf(p)
    case None => None
    case Some(d) =>
      if d in fs then (if fs[d].Dir? then None else Some(NotDir))
      else match Walk(fs, d)
        case Some(e) => Some(e)
        case None => Some(NotExist)
  }

  /** `os.Stat(p)`: no error exactly when `p` is an entry; otherwise the errno
      of the walk, or "no such file" when the walk succeeds. */
  function Stat(fs: FileSystem, p: Path): (r: Option<Errno>)
    ensures r.None? <==> p in fs
    ensures r.Some? ==> r.value == NotExist || r.value == NotDir
  {
    if p in fs then None
    else if p == "" then Some(NotExist)
    else match Walk(fs, p)
      case Some(e) => Some(e)
      case None => Some(NotExist)
  }

  /** `p` lies below a regular file of `fs`. */
  ghost predicate UnderFile(fs: FileSystem, p: Path)
  {
    exists q :: q in fs && fs[q].File? && IsUnder(p, q)
  }

  /** In a well-formed tree every proper ancestor of an entry is a directory. */
  lemma {:induction false} AncestorIsDir(fs: FileSystem, d: Path, q: Path)
    requires WellFormed(fs) && d in fs && |q| > 0 && IsUnder(d, q)
    ensures q in fs && fs[q].Dir?
    decreases |d|
  {
    assert d[|q|] == '/';
    var e := ParentOf(d).value;
    assert |q| <= |e|;
    if |e| == |q| {
      assert e == d[..|e|] == q;
    } else {
      assert e[..|q|] == d[..|e|][..|q|];
      assert IsUnder(e, q);
      AncestorIsDir(fs, e, q);
    }
  }

  /** On a well-formed tree the walk reports "not a directory" exactly when the
      path lies below a regular file. */
  lemma {:induction false} WalkFindsFile(fs: FileSystem, p: Path)
    requires WellFormed(fs)
    ensures Walk(fs, p) == Some(NotDir) <==> UnderFile(fs, p)
    decreases |p|
  {
    match ParentOf(p)
    case None =>
    case Some(d) =>
      if d in fs && fs[d].File? {
        assert IsUnder(p, d);
      } else {
        if d !in fs {
          WalkFindsFile(fs, d);
        }
        if UnderFile(fs, p) {
          var q :| q in fs && fs[q].File? && IsUnder(p, q);
          assert q != "";
          assert p[|q|] == '/';
          assert |q| <= |d|;
          if |q| < |d| {
            assert d[..|q|] == p[..|d|][..|q|];
            assert IsUnder(d, q);
            if d in fs {
              AncestorIsDir(fs, d, q);
            }
          }
        }
        if d !in fs && UnderFile(fs, d) {
          var q :| q in fs && fs[q].File? && IsUnder(d, q);
          assert p[..|q|] == p[..|d|][..|q|];
          assert IsUnder(p, q);
        }
      }
  }

  /** What `os.Stat` reports on a well-formed tree: "not a directory" for a
      path below a regular file, "no such file" for any other absent path. */
  lemma StatMeaning(fs: FileSystem, p: Path)
    requires WellFormed(fs)
    ensures Stat(fs, p) == Some(NotDir) <==> p !in fs && UnderFile(fs, p)
    ensures Stat(fs, p) == Some(NotExist) <==> p !in fs && !UnderFile(fs, p)
  {
    if p in fs {
    } else if p == "" {
      assert !UnderFile(fs, p);
    } else {
      WalkFindsFile(fs, p);
    }
  }

  /** Path resolution for creating `p`: the errno of the walk (an empty path
      resolves to nothing at all). */
  function ResolveForCreate(fs: FileSystem, p: Path): (r: Option<Errno>)
    ensures r.None? <==> p != "" && ParentIsDir(fs, p)
  {
    if p == "" then Some(NotExist) else Walk(fs, p)
  }

  /** `os.Mkdir(p)`: creates one directory; the parent must be a directory and
      `p` must be absent. */
  function Mkdir(fs: FileSystem, p: Path): (r: Result<FileSystem, PathError>)
    ensures r.Success? <==> p != "" && ParentIsDir(fs, p) && p !in fs
    ensures r.Success? ==> r.value.Keys == fs.Keys + {p} && r.value[p] == Dir
    ensures r.Success? ==> SameOutside(fs, r.value, p)
    ensures r.Failure? ==> r.error.op == "mkdir" && r.error.path == p
    ensures p != "" && ParentIsDir(fs, p) && p in fs ==> r == Failure(PathError("mkdir", p, Exist))
  {
    match ResolveForCreate(fs, p)
    case Some(e) => Failure(PathError("mkdir", p, e))
    case None =>
      if p in fs then Failure(PathError("mkdir", p, Exist))
      else Success(fs[p := Dir])
  }

  /** Shared by both `OpenFile` calls: `O_CREATE` on a directory is refused. */
  function OpenForCreate(fs: FileSystem, p: Path): Option<Errno>
  {
    match ResolveForCreate(fs, p)
    case Some(e) => Some(e)
    case None => if p in fs && fs[p].Dir? then Some(IsDir) else None
  }

  /** `os.OpenFile(p, O_CREATE, 0644)` followed by `Close`: makes an empty file
      when `p` is absent and leaves an existing file untouched. */
  function OpenCreate(fs: FileSystem, p: Path): (r: Result<FileSystem, PathError>)
    ensures r.Success? <==> p != "" && ParentIsDir(fs, p) && !(p in fs && fs[p].Dir?)
    ensures r.Success? && p in fs ==> r.value == fs
    ensures r.Success? && p !in fs ==> r.value.Keys == fs.Keys + {p} && r.value[p] == File("")
    ensures r.Success? ==> SameOutside(fs, r.value, p)
    ensures r.Failure? ==> r.error.op == "open" && r.error.path == p
  {
    match OpenForCreate(fs, p)
    case Some(e) => Failure(PathError("open", p, e))
    case None => if p in fs then Success(fs) else Success(fs[p := File("")])
  }

  /** What a file holds before it is opened for writing (nothing if absent). */
  function ContentOf(fs: FileSystem, p: Path): string
  {
    if p in fs && fs[p].File? then fs[p].content else ""
  }

  /** `os.OpenFile(p, O_CREATE|O_WRONLY|(O_APPEND or O_TRUNC))` followed by
      `WriteString(data)`: appends to, or replaces, the file's content. */
  function OpenWrite(fs: FileSystem, p: Path, append: bool, data: string): (r: Result<FileSystem, PathError>)
    ensures r.Success? <==> p != "" && ParentIsDir(fs, p) && !(p in fs && fs[p].Dir?)
    ensures r.Success? ==> p in r.value && r.value[p].File?
    ensures r.Success? && append ==> r.value[p].content == ContentOf(fs, p) + data
    ensures r.Success? && !append ==> r.value[p].content == data
    ensures r.Success? ==> r.value.Keys == fs.Keys + {p} && SameOutside(fs, r.value, p)
    ensures r.Failure? ==> r.error.op == "open" && r.error.path == p
  {
    match OpenForCreate(fs, p)
    case Some(e) => Failure(PathError("open", p, e))
    case None =>
      var written := if append then ContentOf(fs, p) + data else data;
      Success(fs[p := File(written)])
  }

  /** `os.Remove(p)`: deletes a file or an empty directory. For an absent path
      both `unlink` and `rmdir` fail with the walk's errno. */
  function Remove(fs: FileSystem, p: Path): (r: Result<FileSystem, PathError>)
    ensures r.Success? <==> p in fs && !(fs[p].Dir? && HasEntries(fs, p))
    ensures r.Success? ==> r.value.Keys == fs.Keys - {p} && SameOutside(fs, r.value, p)
    ensures p !in fs ==> r == Failure(PathError("remove", p, Stat(fs, p).value))
    ensures p in fs && fs[p].Dir? && HasEntries(fs, p) ==> r == Failure(PathError("remove", p, NotEmpty))
  {
    if p !in fs then Failure(PathError("remove", p, Stat(fs, p).value))
    else if fs[p].Dir? && HasEntries(fs, p) then Failure(PathError("remove", p, NotEmpty))
    else Success(fs - {p})
  }

  /** `os.RemoveAll(p)`: deletes `p` and everything below it. The empty path
      and a path that does not exist are not errors. A path below a regular
      file fails: at `unlinkat` when the parent itself is the file, reporting
      the whole path (parent + "/" + last component), and at `open` of the
      parent otherwise. */
  function RemoveAll(fs: FileSystem, p: Path): (r: Result<FileSystem, PathError>)
    ensures r.Failure? <==> Stat(fs, p) == Some(NotDir)
    ensures r.Failure? ==> r.error.errno == NotDir
    ensures p == "" ==> r == Success(fs)
    ensures p != "" && p in fs ==> r.Success? && forall q :: q in r.value <==> q in fs && q != p && !IsUnder(q, p)
    ensures p !in fs && r.Success? ==> r.value == fs
    ensures r.Success? ==> forall q :: q in r.value ==> q in fs && r.value[q] == fs[q]
  {
    if p == "" then Success(fs)
    else if p in fs then Success(map q | q in fs && q != p && !IsUnder(q, p) :: fs[q])
    else match ParentOf(p)
      case None => Success(fs)
      case Some(d) =>
        if Walk(fs, p) != Some(NotDir) then Success(fs)
        else if d in fs then Failure(PathError("unlinkat", p, NotDir))
        else Failure(PathError("open", d, NotDir))
  }

  /** A child of `p`, or of anything below `p`, is itself below `p`. */
  lemma ChildOfUnder(q: Path, d: Path, p: Path)
    requires ParentOf(q) == Some(d)
    requires d == p || IsUnder(d, p)
    ensures IsUnder(q, p)
  {
    assert q[..|d|] == d;
    if d != p {
      assert q[..|p|] == q[..|d|][..|p|];
    }
  }

  lemma MkdirPreservesWellFormed(fs: FileSystem, p: Path)
    requires WellFormed(fs)
    requires Mkdir(fs, p).Success?
    ensures WellFormed(Mkdir(fs, p).value)
  {
    var fs' := Mkdir(fs, p).value;
    forall q | q in fs'
      ensures q != "" && ParentIsDir(fs', q)
    {
      if q != p {
        assert ParentIsDir(fs, q);
        match ParentOf(q) {
          case None =>
          case Some(d) => assert d in fs && fs[d].Dir?;
        }
      }
    }
  }

  lemma OpenCreatePreservesWellFormed(fs: FileSystem, p: Path)
    requires WellFormed(fs)
    requires OpenCreate(fs, p).Success?
    ensures WellFormed(OpenCreate(fs, p).value)
  {
    var fs' := OpenCreate(fs, p).value;
    forall q | q in fs'
      ensures q != "" && ParentIsDir(fs', q)
    {
      if q != p {
        assert ParentIsDir(fs, q);
        match ParentOf(q) {
          case None =>
          case Some(d) => assert d in fs && fs[d].Dir?;
        }
      }
    }
  }

  lemma OpenWritePreservesWellFormed(fs: FileSystem, p: Path, append: bool, data: string)
    requires WellFormed(fs)
    requires OpenWrite(fs, p, append, data).Success?
    ensures WellFormed(OpenWrite(fs, p, append, data).value)
  {
    var fs' := OpenWrite(fs, p, append, data).value;
    forall q | q in fs'
      ensures q != "" && ParentIsDir(fs', q)
    {
      if q != p {
        assert ParentIsDir(fs, q);
        match ParentOf(q) {
          case None =>
          case Some(d) =>
            assert d in fs && fs[d].Dir?;
            assert d != p;
        }
      }
    }
  }

  lemma RemovePreservesWellFormed(fs: FileSystem, p: Path)
    requires WellFormed(fs)
    requires Remove(fs, p).Success?
    ensures WellFormed(Remove(fs, p).value)
  {
    var fs' := Remove(fs, p).value;
    forall q | q in fs'
      ensures q != "" && ParentIsDir(fs', q)
    {
      assert q in fs && ParentIsDir(fs, q);
      match ParentOf(q) {
        case None =>
        case Some(d) =>
          assert d in fs && fs[d].Dir?;
          if d == p {
            assert HasEntries(fs, p);
            assert false;
          }
      }
    }
  }

  lemma RemoveAllPreservesWellFormed(fs: FileSystem, p: Path)
    requires WellFormed(fs)
    requires RemoveAll(fs, p).Success?
    ensures WellFormed(RemoveAll(fs, p).value)
  {
    var fs' := RemoveAll(fs, p).value;
    forall q | q in fs'
      ensures q != "" && ParentIsDir(fs', q)
    {
      assert q in fs && ParentIsDir(fs, q);
      match ParentOf(q) {
        case None =>
        case Some(d) =>
          assert d in fs && fs[d].Dir?;
          if p != "" && p in fs && (d == p || IsUnder(d, p)) {
            ChildOfUnder(q, d, p);
            assert false;
          }
      }
    }
  }
}
