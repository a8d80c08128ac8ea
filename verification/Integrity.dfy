/**
 The storage code that drives the database directory, call by call.

 Every method states which system calls it makes and in which order; the crash
 theorems are about the prefixes of exactly those lists.  An exception is a
 session that has `halted`: it makes no further call.
 */
module Integrity {
  import opened Collections
  import opened FileSystem
  import opened Commit
  import opened CrashSafety
  import opened Recovery

  datatype Session = Session(fs: FS, halted: bool, calls: seq<Op>)

  /** One system call: skipped after an exception, and raising one if it fails. */
  function Do(s: Session, op: Op): Session {
    if s.halted then s
    else if Enabled(s.fs, op) then Session(Apply(s.fs, op), false, s.calls + [op])
    else s.(halted := true)
  }

  function DoAll(s: Session, ops: seq<Op>): Session
    decreases |ops|
  {
    if ops == [] then s else Do(DoAll(s, ops[..|ops| - 1]), ops[|ops| - 1])
  }

  lemma {:induction false} DoAllConcat(s: Session, a: seq<Op>, b: seq<Op>)
    ensures DoAll(s, a + b) == DoAll(DoAll(s, a), b)
    decreases |b|
  {
    if b == [] {
      assert a + b == a;
    } else {
      assert (a + b)[..|a + b| - 1] == a + b[..|b| - 1];
      DoAllConcat(s, a, b[..|b| - 1]);
    }
  }

  lemma DoAllSnoc(s: Session, ops: seq<Op>, op: Op)
    ensures DoAll(s, ops + [op]) == Do(DoAll(s, ops), op)
  {
    assert (ops + [op])[..|ops|] == ops;
  }

  /** A session performs a prefix of its calls: all of them exactly if all are enabled. */
  lemma {:induction false} DoAllIsAPrefix(s: Session, ops: seq<Op>) returns (k: nat)
    requires !s.halted
    ensures k <= |ops| && DoAll(s, ops).fs == Run(s.fs, ops[..k]) && DoAll(s, ops).calls == s.calls + ops[..k]
    ensures DoAll(s, ops).halted <==> k < |ops|
    ensures AllEnabled(s.fs, ops) <==> k == |ops|
    decreases |ops|
  {
    if ops == [] {
      k := 0;
      assert ops[..0] == [];
    } else {
      var n := |ops| - 1;
      k := DoAllIsAPrefix(s, ops[..n]);
      assert ops == ops[..n] + [ops[n]];
      RunSnoc(s.fs, ops[..n], ops[n]);
      assert ops[..n][..k] == ops[..k];
      if k == n && Enabled(Run(s.fs, ops[..n]), ops[n]) {
        k := k + 1;
        assert ops[..k] == ops[..n] + [ops[n]];
      }
    }
  }

  class DatabaseDirectory {
    var fs: FS
    var halted: bool
    ghost var calls: seq<Op>

    ghost function State(): Session
      reads this
    {
      Session(fs, halted, calls)
    }

    constructor (initial: FS)
      ensures State() == Session(initial, false, [])
    {
      fs, halted, calls := initial, false, [];
    }

    method Call(op: Op)
      modifies this
      ensures State() == Do(old(State()), op)
    {
      if !halted {
        if Enabled(fs, op) {
          fs := Apply(fs, op);
          calls := calls + [op];
        } else {
          halted := true;
        }
      }
    }

    method SyncElement(n: Name, backup: bool, ghost names: seq<Name>, ghost s: Session)
      requires names != [] && names[|names| - 1] == n
      requires State() == DoAll(s, FsyncOps(names[..|names| - 1], backup))
      modifies this
      ensures State() == DoAll(s, FsyncOps(names, backup))
    {
      ghost var before := FsyncOps(names[..|names| - 1], backup);
      Call(Fsync(if backup then Backup(n) else n));
      assert FsyncOps(names, backup)[..|before|] == before;
    }

    method SyncDatabase(ids: seq<string>, backup: bool)
      modifies this
      ensures State() == DoAll(old(State()), SyncOps(ids, backup))
    {
      hide DoAll, Do, FsyncOps, State;
      ghost var s, names := State(), FilesOf(ids);
      assert State() == DoAll(s, FsyncOps(names[..0], backup)) by { SyncNothing(s, backup); }
      for i := 0 to |ids|
        invariant State() == DoAll(s, FsyncOps(names[..i], backup))
      {
        assert names[..i + 1][..i] == names[..i];
        SyncElement(BucketFile(ids[i]), backup, names[..i + 1], s);
      }
      assert names[..|ids| + 1][..|ids|] == names[..|ids|];
      SyncElement(Index, backup, names[..|ids| + 1], s);
      assert names[..|names| - 1] == names[..|ids| + 1];
      SyncElement(Checksum, backup, names, s);
      Call(FsyncDir);
      DoAllSnoc(s, FsyncOps(names, backup), FsyncDir);
    }

    lemma SyncNothing(s: Session, backup: bool)
      ensures DoAll(s, FsyncOps([], backup)) == s
    {
    }

    method CreateBackupGuard()
      modifies this
      ensures State() == DoAll(old(State()), GuardOps)
    {
      ghost var s := State();
      Call(CreateExcl(Guard));
      Call(Fsync(Guard));
      Call(FsyncDir);
      assert GuardOps[..2][..1][..0] == [];
      assert DoAll(s, GuardOps[..2][..1]) == Do(s, GuardOps[0]);
      assert DoAll(s, GuardOps[..2]) == Do(Do(s, GuardOps[0]), GuardOps[1]);
    }

    method Relink(n: Name, ghost names: seq<Name>, ghost s: Session)
      requires names != [] && names[|names| - 1] == n
      requires State() == DoAll(s, LinkOps(names[..|names| - 1]))
      modifies this
      ensures State() == DoAll(s, LinkOps(names))
    {
      ghost var before := LinkOps(names[..|names| - 1]);
      Call(Unlink(n));
      Call(Link(Backup(n), n));
      assert LinkOps(names) == (before + [Unlink(n)]) + [Link(Backup(n), n)];
      assert LinkOps(names)[..|before| + 1] == before + [Unlink(n)];
      assert (before + [Unlink(n)])[..|before|] == before;
    }

    method CreatePrimaryHardLinks(ids: seq<string>)
      modifies this
      ensures State() == DoAll(old(State()), LinkOps(FilesOf(ids)))
    {
      ghost var names := FilesOf(ids);
      for i := 0 to |ids|
        invariant State() == DoAll(old(State()), LinkOps(names[..i]))
      {
        assert names[..i + 1][..i] == names[..i];
        Relink(BucketFile(ids[i]), names[..i + 1], old(State()));
      }
      assert names[..|ids| + 1][..|ids|] == names[..|ids|];
      Relink(Index, names[..|ids| + 1], old(State()));
      assert names[..|names| - 1] == names[..|ids| + 1];
      Relink(Checksum, names, old(State()));
    }

    method DeleteBackupHardLinks(ids: seq<string>)
      modifies this
      ensures State() == DoAll(old(State()), DropOps(FilesOf(ids)))
    {
      ghost var names := FilesOf(ids);
      for i := 0 to |ids|
        invariant State() == DoAll(old(State()), DropOps(names[..i]))
      {
        assert names[..i + 1][..i] == names[..i];
        Call(Unlink(Backup(BucketFile(ids[i]))));
      }
      Call(Unlink(Backup(Index)));
      assert names[..|ids| + 1][..|ids|] == names[..|ids|];
      Call(Unlink(Backup(Checksum)));
      assert names[..|names| - 1] == names[..|ids| + 1];
    }

    method RevalidatePrimaryDatabase(ids: seq<string>)
      modifies this
      ensures State() == DoAll(old(State()), RevalidateOps(ids))
    {
      ghost var s, names := State(), FilesOf(ids);
      CreatePrimaryHardLinks(ids);
      SyncDatabase(ids, false);
      DoAllConcat(s, LinkOps(names), SyncOps(ids, false));
      ghost var relinked := State();
      Call(Unlink(Guard));
      Call(FsyncDir);
      assert UnguardOps[..1][..0] == [];
      assert DoAll(relinked, UnguardOps[..1]) == Do(relinked, UnguardOps[0]);
      DoAllConcat(s, LinkOps(names) + SyncOps(ids, false), UnguardOps);
      DeleteBackupHardLinks(ids);
      DoAllConcat(s, LinkOps(names) + SyncOps(ids, false) + UnguardOps, DropOps(names));
    }

    /** `listing` is the directory as it is read, entry by entry. */
    method DeleteNonIndexedFiles(listing: seq<Name>, ids: seq<string>)
      modifies this
      ensures State() == DoAll(old(State()), CleanOps(listing, ids))
    {
      var i := 0;
      while i < |listing|
        invariant 0 <= i <= |listing|
        invariant State() == DoAll(old(State()), CleanOps(listing[..i], ids))
      {
        var filename := listing[i];
        assert listing[..i + 1][..i] == listing[..i];
        ghost var before := CleanOps(listing[..i], ids);
        assert before + [] == before && (before + [Unlink(filename)])[..|before|] == before;
        i := i + 1;
        if filename == "." || filename == ".." || filename == Index || filename == Checksum {
          continue;
        }
        if |filename| < 1 {
          Call(Unlink(filename));
          continue;
        }
        if filename[..1] != "_" {
          Call(Unlink(filename));
          continue;
        }
        if filename[1..] !in ids {
          Call(Unlink(filename));
        }
      }
      assert listing[..|listing|] == listing;
    }

    /** Writes every file of the database under its backup name. */
    method SaveBackup(ids: seq<string>, img: Image, rec: Name -> string)
      requires Dumpable(ids, img, rec)
      modifies this
      ensures State() == DoAll(old(State()), DumpOps(ids, img, rec))
    {
      ghost var s := State();
      Call(OpenTrunc(Backup(Checksum)));
      Call(OpenTrunc(Backup(Index)));
      Call(Append(Backup(Index), img[Index]));
      ghost var ready := State();
      ghost var first := OpenDumpOps(img[Index]);
      assert first[..2][..1][..0] == [];
      assert DoAll(s, first[..2][..1]) == Do(s, first[0]);
      assert DoAll(s, first[..2]) == Do(Do(s, first[0]), first[1]);
      for i := 0 to |ids|
        invariant State() == DoAll(ready, DumpBucketsOps(ids[..i], img, rec))
      {
        var n := BucketFile(ids[i]);
        ghost var before := State();
        Call(OpenTrunc(Backup(n)));
        Call(Append(Backup(n), img[n]));
        Call(Append(Backup(Checksum), rec(n)));
        ghost var ops := DumpBucketOps(n, img[n], rec(n));
        assert ops[..2][..1][..0] == [];
        assert DoAll(before, ops[..2][..1]) == Do(before, ops[0]);
        assert DoAll(before, ops[..2]) == Do(Do(before, ops[0]), ops[1]);
        assert ids[..i + 1][..i] == ids[..i];
        DoAllConcat(ready, DumpBucketsOps(ids[..i], img, rec), ops);
      }
      assert ids[..|ids|] == ids;
      DoAllConcat(s, first, DumpBucketsOps(ids, img, rec));
      Call(Append(Backup(Checksum), rec(Index)));
    }

    /**
     A save of the texts `img`.  From a steady directory it does not throw and
     leaves the directory steady on `img`; `SaveIsAtomic` covers a stop after any
     of its calls.
     */
    method Save(ids: seq<string>, img: Image, rec: Name -> string, ghost ids0: seq<string>, ghost img0: Image)
      requires Dumpable(ids, img, rec)
      modifies this
      ensures State() == DoAll(old(State()), SaveOps(ids, img, rec))
      ensures !old(halted) && Steady(old(fs), img0) && ImageFor(ids0, img0) ==> !halted && Steady(fs, img)
    {
      ghost var s := State();
      SaveBackup(ids, img, rec);
      SyncDatabase(ids, true);
      DoAllConcat(s, DumpOps(ids, img, rec), SyncOps(ids, true));
      CreateBackupGuard();
      DoAllConcat(s, DumpOps(ids, img, rec) + SyncOps(ids, true), GuardOps);
      RevalidatePrimaryDatabase(ids);
      DoAllConcat(s, DumpOps(ids, img, rec) + SyncOps(ids, true) + GuardOps, RevalidateOps(ids));
      if !s.halted && Steady(s.fs, img0) && ImageFor(ids0, img0) {
        SaveCompletes(s.fs, ids0, img0, ids, img, rec);
        var k := DoAllIsAPrefix(s, SaveOps(ids, img, rec));
        assert SaveOps(ids, img, rec)[..k] == SaveOps(ids, img, rec);
      }
    }

    /** What a load does once it has read the database with bucket ids `ids`. */
    method PostLoadCleanup(isBackupValid: bool, ids: seq<string>, listing: seq<Name>, ghost img: Image)
      requires isBackupValid == (Guard in fs.dir)
      modifies this
      ensures State() == DoAll(old(State()), LoadOps(old(fs), ids, listing))
      ensures !old(halted) && Recoverable(old(fs), img) && ImageFor(ids, img) && CoversLoad(old(fs), ids, listing) ==>
                !halted && Steady(fs, img) && forall n :: n != "." && n != ".." ==> (n in fs.dir <==> n in img)
    {
      ghost var s := State();
      if isBackupValid {
        RevalidatePrimaryDatabase(ids);
      }
      DeleteNonIndexedFiles(listing, ids);
      DoAllConcat(s, FinishOps(s.fs, ids), CleanOps(listing, ids));
      if !s.halted && Recoverable(s.fs, img) && ImageFor(ids, img) && CoversLoad(s.fs, ids, listing) {
        LoadCompletes(s.fs, ids, img, listing);
        var k := DoAllIsAPrefix(s, LoadOps(s.fs, ids, listing));
        assert LoadOps(s.fs, ids, listing)[..k] == LoadOps(s.fs, ids, listing);
      }
    }
  }
}
