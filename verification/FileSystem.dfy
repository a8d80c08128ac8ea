/**
 A database directory: names, inodes and file contents, together with what a
 crash may keep or lose.

 The volatile view is `dir` and `data`.  The durable view is described by what
 is still uncertain: `maybe` holds, for each name changed since the directory
 was last synchronised, every entry the name has had since then, and `dirty`
 holds the inodes written since they were last synchronised.  A crash picks an
 entry for each name independently of the other names, and may replace the
 contents of a dirty inode with anything at all.
 */
module FileSystem {
  import opened Collections

  type Name = string
  type Inode = nat

  datatype FS = FS(
    dir: map<Name, Inode>,
    data: map<Inode, string>,
    maybe: map<Name, set<Option<Inode>>>,
    dirty: set<Inode>,
    next: Inode)

  /** The system calls the storage code makes on the database directory. */
  datatype Op =
    | OpenTrunc(name: Name)            // open with O_CREAT | O_TRUNC
    | Append(name: Name, text: string) // write to the file opened under that name
    | Fsync(name: Name)
    | FsyncDir
    | CreateExcl(name: Name)           // open with O_CREAT | O_EXCL
    | Link(source: Name, target: Name)
    | Unlink(name: Name)

  function Look(fs: FS, n: Name): Option<Inode> {
    if n in fs.dir then Some(fs.dir[n]) else None
  }

  /** Every entry that `n` may turn out to have after a crash. */
  function MayBe(fs: FS, n: Name): set<Option<Inode>> {
    if n in fs.maybe then fs.maybe[n] else {Look(fs, n)}
  }

  function Content(fs: FS, n: Name): Option<string> {
    if n in fs.dir && fs.dir[n] in fs.data then Some(fs.data[fs.dir[n]]) else None
  }

  ghost predicate WF(fs: FS) {
    && (forall n :: n in fs.dir ==> fs.dir[n] in fs.data)
    && (forall i :: i in fs.data ==> i < fs.next)
    && (forall n :: n in fs.maybe ==> Look(fs, n) in fs.maybe[n])
    && (forall n, e :: n in fs.maybe && e in fs.maybe[n] && e.Some? ==> e.value in fs.data)
  }

  /** The system call would succeed if nothing outside the directory went wrong. */
  predicate Enabled(fs: FS, op: Op) {
    match op
    case OpenTrunc(_) => true
    case Append(n, _) => n in fs.dir
    case Fsync(n) => n in fs.dir
    case FsyncDir => true
    case CreateExcl(n) => n !in fs.dir
    case Link(o, f) => o in fs.dir && f !in fs.dir
    case Unlink(_) => true // a missing name is only logged
  }

  function SetEntry(fs: FS, n: Name, e: Option<Inode>): FS {
    fs.(dir := if e.Some? then fs.dir[n := e.value] else fs.dir - {n},
        maybe := fs.maybe[n := MayBe(fs, n) + {e}])
  }

  function NewFile(fs: FS, n: Name): FS {
    var fs' := SetEntry(fs, n, Some(fs.next));
    fs'.(data := fs.data[fs.next := ""], dirty := fs.dirty + {fs.next}, next := fs.next + 1)
  }

  /** The effect of one system call; a call that is not enabled changes nothing. */
  function Apply(fs: FS, op: Op): FS {
    match op
    case OpenTrunc(n) =>
      if n in fs.dir then fs.(data := fs.data[fs.dir[n] := ""], dirty := fs.dirty + {fs.dir[n]})
      else NewFile(fs, n)
    case Append(n, t) =>
      if n in fs.dir && fs.dir[n] in fs.data then
        fs.(data := fs.data[fs.dir[n] := fs.data[fs.dir[n]] + t], dirty := fs.dirty + {fs.dir[n]})
      else fs
    case Fsync(n) => if n in fs.dir then fs.(dirty := fs.dirty - {fs.dir[n]}) else fs
    case FsyncDir => fs.(maybe := map[])
    case CreateExcl(n) => if n in fs.dir then fs else NewFile(fs, n)
    case Link(o, f) => if o in fs.dir && f !in fs.dir then SetEntry(fs, f, Some(fs.dir[o])) else fs
    case Unlink(n) => if n in fs.dir then SetEntry(fs, n, None) else fs
  }

  function Run(fs: FS, ops: seq<Op>): FS
    decreases |ops|
  {
    if ops == [] then fs else Run(Apply(fs, ops[0]), ops[1..])
  }

  /** Every call of `ops`, made in order from `fs`, succeeds. */
  predicate AllEnabled(fs: FS, ops: seq<Op>)
    decreases |ops|
  {
    ops == [] || (Enabled(fs, ops[0]) && AllEnabled(Apply(fs, ops[0]), ops[1..]))
  }

  /** A directory as found after a restart: nothing is pending. */
  ghost predicate Booted(fs: FS) {
    WF(fs) && fs.maybe == map[] && fs.dirty == {}
  }

  /** `c` is a directory the machine may come up with if it stops in `fs`. */
  ghost predicate CrashOf(fs: FS, c: FS) {
    && Booted(c)
    && (forall n: Name :: Look(c, n) in MayBe(fs, n))
    && (forall i :: i in fs.data && i !in fs.dirty ==> i in c.data && c.data[i] == fs.data[i])
  }

  lemma {:induction false} RunConcat(fs: FS, a: seq<Op>, b: seq<Op>)
    ensures Run(fs, a + b) == Run(Run(fs, a), b)
    ensures AllEnabled(fs, a + b) == (AllEnabled(fs, a) && AllEnabled(Run(fs, a), b))
    decreases |a|
  {
    if a == [] {
      assert a + b == b;
    } else {
      assert (a + b)[1..] == a[1..] + b;
      RunConcat(Apply(fs, a[0]), a[1..], b);
    }
  }

  lemma RunSnoc(fs: FS, a: seq<Op>, op: Op)
    ensures Run(fs, a + [op]) == Apply(Run(fs, a), op)
    ensures AllEnabled(fs, a + [op]) == (AllEnabled(fs, a) && Enabled(Run(fs, a), op))
  {
    RunConcat(fs, a, [op]);
    assert [op][1..] == [];
  }

  lemma ApplyKeepsWF(fs: FS, op: Op)
    requires WF(fs)
    ensures WF(Apply(fs, op))
  {
  }

  lemma {:induction false} RunKeepsWF(fs: FS, ops: seq<Op>)
    requires WF(fs)
    ensures WF(Run(fs, ops))
    decreases |ops|
  {
    if ops != [] {
      ApplyKeepsWF(fs, ops[0]);
      RunKeepsWF(Apply(fs, ops[0]), ops[1..]);
    }
  }
}
