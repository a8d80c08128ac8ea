/**
 The commit protocol of the policy database as lists of system calls, and what
 every prefix of those lists guarantees.

 A save writes each file under a backup name, synchronises it, creates the
 guard, re-links the primary names onto the backup inodes, removes the guard
 and finally drops the backup names.  A load reads the backups when the guard
 exists and the primaries otherwise, finishes an interrupted commit, and
 deletes every name that is not part of the database.
 */
module Commit {
  import opened Collections
  import opened FileSystem

  const Index: Name := "buckets"
  const Checksum: Name := "checksum"
  const Guard: Name := "guard"

  /** The texts of a stored database, by primary file name. */
  type Image = map<Name, string>

  function BucketFile(id: string): Name { "_" + id }

  function Backup(n: Name): Name { n + "~" }

  predicate IsBackup(n: Name) { |n| > 0 && n[|n| - 1] == '~' }

  /** Bucket ids that are usable as file names, as `idValidator` leaves them. */
  predicate FileId(id: string) {
    forall c :: c in id ==> c != '~' && c != '/' && c != '\0'
  }

  predicate FileIds(ids: seq<string>) {
    && (forall i :: 0 <= i < |ids| ==> FileId(ids[i]))
    && (forall i, j :: 0 <= i < j < |ids| ==> ids[i] != ids[j])
  }

  /** The primary names of a database, in the order every loop visits them. */
  function FilesOf(ids: seq<string>): (names: seq<Name>)
    ensures |names| == |ids| + 2
    ensures forall i :: 0 <= i < |ids| ==> names[i] == BucketFile(ids[i])
    ensures names[|ids|] == Index && names[|ids| + 1] == Checksum
  {
    seq(|ids|, i requires 0 <= i < |ids| => BucketFile(ids[i])) + [Index, Checksum]
  }

  /** The files of a database with buckets `ids`; the default bucket is always one of them. */
  ghost predicate ImageFor(ids: seq<string>, img: Image) {
    && FileIds(ids) && "" in ids
    && forall n :: n in img <==> n in FilesOf(ids)
  }

  // ----- the system calls of a save and of a load -----

  /** The checksum file as the bucket streams, one after the other, extend it. */
  function Records(ids: seq<string>, rec: Name -> string): string
    decreases |ids|
  {
    if ids == [] then ""
    else Records(ids[..|ids| - 1], rec) + rec(BucketFile(ids[|ids| - 1]))
  }

  function DumpBucketOps(n: Name, text: string, record: string): seq<Op> {
    [OpenTrunc(Backup(n)), Append(Backup(n), text), Append(Backup(Checksum), record)]
  }

  function DumpBucketsOps(ids: seq<string>, img: Image, rec: Name -> string): seq<Op>
    requires forall i :: 0 <= i < |ids| ==> BucketFile(ids[i]) in img
    decreases |ids|
  {
    if ids == [] then []
    else
      var n := BucketFile(ids[|ids| - 1]);
      DumpBucketsOps(ids[..|ids| - 1], img, rec) + DumpBucketOps(n, img[n], rec(n))
  }

  ghost predicate Dumpable(ids: seq<string>, img: Image, rec: Name -> string) {
    && ImageFor(ids, img)
    && Index in img && Checksum in img
    && (forall i :: 0 <= i < |ids| ==> BucketFile(ids[i]) in img)
    && img[Checksum] == Records(ids, rec) + rec(Index)
  }

  function OpenDumpOps(index: string): seq<Op> {
    [OpenTrunc(Backup(Checksum)), OpenTrunc(Backup(Index)), Append(Backup(Index), index)]
  }

  function DumpOps(ids: seq<string>, img: Image, rec: Name -> string): seq<Op>
    requires Index in img && forall i :: 0 <= i < |ids| ==> BucketFile(ids[i]) in img
  {
    OpenDumpOps(img[Index]) + DumpBucketsOps(ids, img, rec) + [Append(Backup(Checksum), rec(Index))]
  }

  function FsyncOps(names: seq<Name>, backup: bool): seq<Op>
    decreases |names|
  {
    if names == [] then []
    else
      var n := names[|names| - 1];
      FsyncOps(names[..|names| - 1], backup) + [Fsync(if backup then Backup(n) else n)]
  }

  function SyncOps(ids: seq<string>, backup: bool): seq<Op> {
    FsyncOps(FilesOf(ids), backup) + [FsyncDir]
  }

  const GuardOps: seq<Op> := [CreateExcl(Guard), Fsync(Guard), FsyncDir]

  function LinkOps(names: seq<Name>): seq<Op>
    decreases |names|
  {
    if names == [] then []
    else
      var n := names[|names| - 1];
      LinkOps(names[..|names| - 1]) + [Unlink(n), Link(Backup(n), n)]
  }

  const UnguardOps: seq<Op> := [Unlink(Guard), FsyncDir]

  function DropOps(names: seq<Name>): seq<Op>
    decreases |names|
  {
    if names == [] then []
    else DropOps(names[..|names| - 1]) + [Unlink(Backup(names[|names| - 1]))]
  }

  function RevalidateOps(ids: seq<string>): seq<Op> {
    LinkOps(FilesOf(ids)) + SyncOps(ids, false) + UnguardOps + DropOps(FilesOf(ids))
  }

  function SaveOps(ids: seq<string>, img: Image, rec: Name -> string): seq<Op>
    requires Index in img && forall i :: 0 <= i < |ids| ==> BucketFile(ids[i]) in img
  {
    DumpOps(ids, img, rec) + SyncOps(ids, true) + GuardOps + RevalidateOps(ids)
  }

  /** Whether the clean-up after a load keeps a directory entry. */
  predicate Kept(n: Name, ids: seq<string>) {
    || n == "." || n == ".."
    || n == Index || n == Checksum
    || (|n| >= 1 && n[..1] == "_" && n[1..] in ids)
  }

  /** The clean-up, for the entries in the order the directory lists them. */
  function CleanOps(listing: seq<Name>, ids: seq<string>): seq<Op>
    decreases |listing|
  {
    if listing == [] then []
    else
      var n := listing[|listing| - 1];
      CleanOps(listing[..|listing| - 1], ids) + (if Kept(n, ids) then [] else [Unlink(n)])
  }

  /** What a load does to a directory that holds the database with bucket ids `ids`. */
  function LoadOps(fs: FS, ids: seq<string>, listing: seq<Name>): seq<Op> {
    (if Guard in fs.dir then RevalidateOps(ids) else []) + CleanOps(listing, ids)
  }

  // ----- what a directory holds -----

  /** `n` is certain to have the text `t`, crash or no crash. */
  ghost predicate Durable(fs: FS, n: Name, t: string) {
    && n in fs.dir
    && MayBe(fs, n) == {Some(fs.dir[n])}
    && fs.dir[n] !in fs.dirty
    && Content(fs, n) == Some(t)
  }

  ghost predicate PrimaryDurable(fs: FS, img: Image) {
    forall n :: n in img ==> Durable(fs, n, img[n])
  }

  ghost predicate BackupDurable(fs: FS, img: Image) {
    forall n :: n in img ==> Durable(fs, Backup(n), img[n])
  }

  ghost predicate GuardAbsent(fs: FS) { MayBe(fs, Guard) == {None} }

  ghost predicate GuardDurable(fs: FS) {
    Guard in fs.dir && MayBe(fs, Guard) == {Some(fs.dir[Guard])}
  }

  /** Between operations: the database is on disk, and no write to a backup name can reach it. */
  ghost predicate Steady(fs: FS, img: Image) {
    WF(fs) && GuardAbsent(fs) && PrimaryDurable(fs, img) && BackupsPrivate(fs)
  }

  /** The texts a load reads are exactly those of `img`. */
  ghost predicate Reads(fs: FS, img: Image) {
    forall n :: n in img ==> Content(fs, if Guard in fs.dir then Backup(n) else n) == Some(img[n])
  }

  /** No other name reaches the inode of a backup file. */
  ghost predicate BackupsPrivate(fs: FS) {
    forall n, m :: n in fs.dir && m in fs.dir && IsBackup(n) && m != n ==> fs.dir[m] != fs.dir[n]
  }

  lemma ImageNames(ids: seq<string>, img: Image, n: Name)
    requires ImageFor(ids, img) && n in img
    ensures !IsBackup(n) && n != Guard && IsBackup(Backup(n)) && Backup(n) != Guard
    ensures n == Index || n == Checksum || exists i :: 0 <= i < |ids| && n == BucketFile(ids[i])
  {
    var names := FilesOf(ids);
    var i :| 0 <= i < |names| && names[i] == n;
    if i < |ids| {
      assert FileId(ids[i]);
      assert n[0] == '_';
      if |n| > 1 {
        assert n[|n| - 1] == ids[i][|ids[i]| - 1];
        assert ids[i][|ids[i]| - 1] in ids[i];
      }
    }
    assert Backup(n)[|n|] == '~';
  }

  lemma BackupInjective(a: Name, b: Name)
    requires Backup(a) == Backup(b)
    ensures a == b
  {
    assert Backup(a)[..|a|] == a && Backup(b)[..|b|] == b;
  }

  // ----- what a crash leaves -----

  lemma CrashDurable(fs: FS, c: FS, n: Name, t: string)
    requires CrashOf(fs, c) && WF(fs) && Durable(fs, n, t)
    ensures Content(c, n) == Some(t)
  {
    assert Look(c, n) in MayBe(fs, n);
  }

  lemma CrashGuard(fs: FS, c: FS)
    requires CrashOf(fs, c)
    ensures GuardAbsent(fs) ==> Guard !in c.dir
    ensures GuardDurable(fs) ==> Guard in c.dir
  {
    assert Look(c, Guard) in MayBe(fs, Guard);
  }

  lemma CrashReadsPrimary(fs: FS, c: FS, img: Image)
    requires WF(fs) && CrashOf(fs, c) && PrimaryDurable(fs, img) && Guard !in c.dir
    ensures Reads(c, img)
  {
    forall n | n in img ensures Content(c, n) == Some(img[n]) { CrashDurable(fs, c, n, img[n]); }
  }

  lemma CrashReadsBackup(fs: FS, c: FS, img: Image)
    requires WF(fs) && CrashOf(fs, c) && BackupDurable(fs, img) && Guard in c.dir
    ensures Reads(c, img)
  {
    forall n | n in img
      ensures Content(c, Backup(n)) == Some(img[n])
    {
      CrashDurable(fs, c, Backup(n), img[n]);
    }
  }

  /** Whatever a crash in `fs` leaves, the next load reads one of `imgs`. */
  ghost predicate SafeAt(fs: FS, imgs: set<Image>) {
    forall c :: CrashOf(fs, c) ==> exists img :: img in imgs && Reads(c, img)
  }

  /** The same, for a crash before, between or after the calls of `ops`. */
  ghost predicate SafeRun(fs: FS, ops: seq<Op>, imgs: set<Image>)
    decreases |ops|
  {
    && SafeAt(fs, imgs)
    && (ops == [] || SafeRun(Apply(fs, ops[0]), ops[1..], imgs))
  }

  lemma {:induction false} SafeConcat(fs: FS, a: seq<Op>, b: seq<Op>, imgs: set<Image>)
    requires SafeRun(fs, a, imgs) && SafeRun(Run(fs, a), b, imgs)
    ensures SafeRun(fs, a + b, imgs)
    decreases |a|
  {
    if a == [] {
      assert a + b == b;
    } else {
      assert (a + b)[1..] == a[1..] + b;
      SafeConcat(Apply(fs, a[0]), a[1..], b, imgs);
    }
  }

  lemma {:induction false} SafeWeaken(fs: FS, ops: seq<Op>, imgs: set<Image>, more: set<Image>)
    requires SafeRun(fs, ops, imgs) && imgs <= more
    ensures SafeRun(fs, ops, more)
    decreases |ops|
  {
    forall c | CrashOf(fs, c) ensures exists img :: img in more && Reads(c, img) {
      var img :| img in imgs && Reads(c, img);
    }
    if ops != [] { SafeWeaken(Apply(fs, ops[0]), ops[1..], imgs, more); }
  }

  lemma {:induction false} SafePrefix(fs: FS, ops: seq<Op>, imgs: set<Image>, k: nat)
    requires SafeRun(fs, ops, imgs) && k <= |ops|
    ensures SafeAt(Run(fs, ops[..k]), imgs)
    decreases |ops|
  {
    if k > 0 {
      assert ops[..k][1..] == ops[1..][..k - 1];
      SafePrefix(Apply(fs, ops[0]), ops[1..], imgs, k - 1);
    }
  }

  lemma SafeOld(fs: FS, img: Image)
    requires WF(fs) && GuardAbsent(fs) && PrimaryDurable(fs, img)
    ensures SafeAt(fs, {img})
  {
    forall c | CrashOf(fs, c) ensures img in {img} && Reads(c, img) {
      CrashGuard(fs, c);
      CrashReadsPrimary(fs, c, img);
    }
  }

  lemma SafeNew(fs: FS, img: Image)
    requires WF(fs) && GuardDurable(fs) && BackupDurable(fs, img)
    ensures SafeAt(fs, {img})
  {
    forall c | CrashOf(fs, c) ensures img in {img} && Reads(c, img) {
      CrashGuard(fs, c);
      CrashReadsBackup(fs, c, img);
    }
  }

  /** While the guard itself is in doubt, a crash reads the primaries or the backups. */
  lemma SafeBoth(fs: FS, img0: Image, img: Image)
    requires WF(fs) && PrimaryDurable(fs, img0) && BackupDurable(fs, img)
    ensures SafeAt(fs, {img0, img})
  {
    forall c | CrashOf(fs, c) ensures exists i :: i in {img0, img} && Reads(c, i) {
      if Guard in c.dir { CrashReadsBackup(fs, c, img); assert img in {img0, img}; }
      else { CrashReadsPrimary(fs, c, img0); assert img0 in {img0, img}; }
    }
  }

  // ----- phase by phase: which calls keep what -----

  /** Writing and synchronising backup files. */
  predicate BackupOp(op: Op) {
    (op.OpenTrunc? || op.Append? || op.Fsync?) && IsBackup(op.name)
  }

  lemma BackupOpKeepsPrivate(fs: FS, op: Op)
    requires WF(fs) && BackupsPrivate(fs) && BackupOp(op)
    ensures BackupsPrivate(Apply(fs, op))
  {
    if op.OpenTrunc? && op.name !in fs.dir {
      assert forall m :: m in fs.dir ==> fs.dir[m] != fs.next;
    } else {
      assert Apply(fs, op).dir == fs.dir;
    }
  }

  lemma BackupOpKeepsDurable(fs: FS, op: Op, n: Name, t: string)
    requires WF(fs) && BackupsPrivate(fs) && BackupOp(op) && !IsBackup(n) && Durable(fs, n, t)
    ensures Durable(Apply(fs, op), n, t)
  {
    if op.name in fs.dir { assert fs.dir[n] != fs.dir[op.name]; }
  }

  lemma SteadyStep(fs: FS, img: Image, op: Op)
    requires Steady(fs, img) && BackupOp(op)
    requires forall n :: n in img ==> !IsBackup(n)
    ensures Steady(Apply(fs, op), img)
    ensures op.Append? || op.Fsync? ==> Apply(fs, op).dir == fs.dir
  {
    ApplyKeepsWF(fs, op);
    BackupOpKeepsPrivate(fs, op);
    forall n | n in img
      ensures Durable(Apply(fs, op), n, img[n])
    {
      assert Durable(fs, n, img[n]);
      BackupOpKeepsDurable(fs, op, n, img[n]);
    }
  }

  lemma SteadyFsyncDir(fs: FS, img: Image)
    requires Steady(fs, img)
    ensures Steady(Apply(fs, FsyncDir), img)
  {
    forall n | n in img
      ensures Durable(Apply(fs, FsyncDir), n, img[n])
    {
      assert Durable(fs, n, img[n]);
    }
  }

  lemma {:induction false} SteadyRun(fs: FS, img: Image, ops: seq<Op>)
    requires Steady(fs, img)
    requires forall n :: n in img ==> !IsBackup(n)
    requires forall i :: 0 <= i < |ops| ==> BackupOp(ops[i]) || ops[i] == FsyncDir
    ensures Steady(Run(fs, ops), img) && SafeRun(fs, ops, {img})
    decreases |ops|
  {
    SafeOld(fs, img);
    if ops != [] {
      if BackupOp(ops[0]) { SteadyStep(fs, img, ops[0]); } else { SteadyFsyncDir(fs, img); }
      SteadyRun(Apply(fs, ops[0]), img, ops[1..]);
    }
  }

  /** Re-linking primaries while the guard and the backups stand. */
  predicate PrimaryOp(op: Op) {
    match op
    case Unlink(n) => !IsBackup(n) && n != Guard
    case Link(o, n) => !IsBackup(n) && n != Guard
    case Fsync(_) => true
    case FsyncDir => true
    case _ => false
  }

  ghost predicate NewPhase(fs: FS, img: Image) {
    WF(fs) && GuardDurable(fs) && BackupDurable(fs, img)
  }

  lemma NewPhaseStep(fs: FS, img: Image, op: Op)
    requires NewPhase(fs, img) && PrimaryOp(op)
    ensures NewPhase(Apply(fs, op), img)
  {
    assert !IsBackup(Guard);
    forall n | n in img
      ensures Durable(Apply(fs, op), Backup(n), img[n])
    {
      assert IsBackup(Backup(n));
      assert Durable(fs, Backup(n), img[n]);
    }
  }

  lemma {:induction false} NewPhaseRun(fs: FS, img: Image, ops: seq<Op>)
    requires NewPhase(fs, img)
    requires forall i :: 0 <= i < |ops| ==> PrimaryOp(ops[i])
    ensures NewPhase(Run(fs, ops), img) && SafeRun(fs, ops, {img})
    decreases |ops|
  {
    SafeNew(fs, img);
    if ops != [] {
      NewPhaseStep(fs, img, ops[0]);
      NewPhaseRun(Apply(fs, ops[0]), img, ops[1..]);
    }
  }

  /** Deleting names that are not part of the database. */
  ghost predicate DonePhase(fs: FS, img: Image) {
    WF(fs) && GuardAbsent(fs) && PrimaryDurable(fs, img)
  }

  lemma {:induction false} DonePhaseRun(fs: FS, img: Image, ops: seq<Op>)
    requires DonePhase(fs, img)
    requires forall i :: 0 <= i < |ops| ==> ops[i].Unlink? && ops[i].name !in img
    ensures DonePhase(Run(fs, ops), img) && SafeRun(fs, ops, {img}) && AllEnabled(fs, ops)
    ensures forall m :: m in Run(fs, ops).dir <==> m in fs.dir && Unlink(m) !in ops
    ensures forall m :: m in Run(fs, ops).dir ==> Run(fs, ops).dir[m] == fs.dir[m]
    decreases |ops|
  {
    SafeOld(fs, img);
    if ops != [] {
      var fs' := Apply(fs, ops[0]);
      forall n | n in img
        ensures Durable(fs', n, img[n])
      {
        assert Durable(fs, n, img[n]);
      }
      DonePhaseRun(fs', img, ops[1..]);
      assert forall op :: op in ops <==> op == ops[0] || op in ops[1..];
    }
  }
}
