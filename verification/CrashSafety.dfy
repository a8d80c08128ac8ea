/** Crash atomicity of a save, and where a save stands after any number of its calls. */
module CrashSafety {
  import opened Collections
  import opened FileSystem
  import opened Commit

  // ----- the effect of each part of a save -----

  /** The backup names in use are those that were in use in `fs0` and those of `img`. */
  ghost predicate OnlyBackupsOf(fs0: FS, fs: FS, img: Image) {
    forall m :: m in fs.dir && IsBackup(m) ==> m in fs0.dir || m[..|m| - 1] in img
  }

  /** `fs'` differs from `fs` in the text of the backup file `n`, which is now `text`. */
  ghost predicate Wrote(fs: FS, fs': FS, n: Name, text: string) {
    && WF(fs') && BackupsPrivate(fs')
    && (forall m :: m != n ==> Content(fs', m) == Content(fs, m))
    && (forall m :: m != n ==> (m in fs'.dir <==> m in fs.dir))
    && n in fs'.dir && Content(fs', n) == Some(text)
  }

  lemma WriteEffect(fs: FS, op: Op)
    requires WF(fs) && BackupsPrivate(fs) && BackupOp(op) && !op.Fsync?
    ensures op.OpenTrunc? ==> Wrote(fs, Apply(fs, op), op.name, "")
    ensures op.Append? && op.name in fs.dir ==>
              Content(fs, op.name).Some? && Wrote(fs, Apply(fs, op), op.name, Content(fs, op.name).value + op.text)
  {
    ApplyKeepsWF(fs, op);
    BackupOpKeepsPrivate(fs, op);
    forall m | m != op.name
      ensures Content(Apply(fs, op), m) == Content(fs, m)
    {
      if m in fs.dir && op.name in fs.dir { assert fs.dir[m] != fs.dir[op.name]; }
    }
  }

  /** The backups after the first `j` buckets have been dumped. */
  ghost predicate Dumped(fs0: FS, fs: FS, ids: seq<string>, j: nat, img: Image, rec: Name -> string)
    requires j <= |ids| && Dumpable(ids, img, rec)
  {
    && WF(fs) && BackupsPrivate(fs) && OnlyBackupsOf(fs0, fs, img)
    && Content(fs, Backup(Index)) == Some(img[Index])
    && Content(fs, Backup(Checksum)) == Some(Records(ids[..j], rec))
    && (forall i :: 0 <= i < j ==> Content(fs, Backup(BucketFile(ids[i]))) == Some(img[BucketFile(ids[i])]))
  }

  lemma OpenDumpEffect(fs: FS, ids: seq<string>, img: Image, rec: Name -> string)
    requires WF(fs) && BackupsPrivate(fs) && Dumpable(ids, img, rec)
    ensures Dumped(fs, Run(fs, OpenDumpOps(img[Index])), ids, 0, img, rec)
    ensures AllEnabled(fs, OpenDumpOps(img[Index]))
  {
    hide Run, AllEnabled, Apply, WF, ImageFor, BackupsPrivate, Content;
    var ops := OpenDumpOps(img[Index]);
    var a := Apply(fs, ops[0]);
    var b := Apply(a, ops[1]);
    var c := Apply(b, ops[2]);
    assert Backup(Checksum)[..|Checksum|] == Checksum && Backup(Index)[..|Index|] == Index;
    WriteEffect(fs, ops[0]);
    WriteEffect(a, ops[1]);
    WriteEffect(b, ops[2]);
    assert "" + img[Index] == img[Index];
    RunThree(fs, ops);
  }

  lemma RunThree(fs: FS, ops: seq<Op>)
    requires |ops| == 3
    ensures Run(fs, ops) == Apply(Apply(Apply(fs, ops[0]), ops[1]), ops[2])
    ensures AllEnabled(fs, ops) ==
            (Enabled(fs, ops[0]) && Enabled(Apply(fs, ops[0]), ops[1]) &&
             Enabled(Apply(Apply(fs, ops[0]), ops[1]), ops[2]))
  {
    var a := Apply(fs, ops[0]);
    var b := Apply(a, ops[1]);
    assert ops[1..][1..] == [ops[2]] && ops[1..][0] == ops[1];
    assert Run(b, [ops[2]]) == Run(Apply(b, ops[2]), [ops[2]][1..]);
    assert [ops[2]][1..] == [];
    assert Run(a, ops[1..]) == Run(b, [ops[2]]);
    assert AllEnabled(a, ops[1..]) == (Enabled(a, ops[1]) && AllEnabled(b, [ops[2]]));
  }

  lemma WroteKeepsOnly(fs0: FS, fs: FS, fs': FS, n: Name, text: string, img: Image)
    requires OnlyBackupsOf(fs0, fs, img) && Wrote(fs, fs', Backup(n), text) && n in img
    ensures OnlyBackupsOf(fs0, fs', img)
  {
    hide WF, BackupsPrivate, Content;
    assert Backup(n)[..|n|] == n;
  }

  lemma DumpedNext(fs0: FS, fs: FS, a: FS, b: FS, c: FS, ids: seq<string>, j: nat, img: Image, rec: Name -> string)
    requires j < |ids| && Dumpable(ids, img, rec) && Dumped(fs0, fs, ids, j, img, rec) && FileIds(ids)
    requires Wrote(fs, a, Backup(BucketFile(ids[j])), "")
    requires Wrote(a, b, Backup(BucketFile(ids[j])), img[BucketFile(ids[j])])
    requires Wrote(b, c, Backup(Checksum), Records(ids[..j], rec) + rec(BucketFile(ids[j])))
    ensures Dumped(fs0, c, ids, j + 1, img, rec)
  {
    hide WF, BackupsPrivate, ImageFor, FileId, OnlyBackupsOf, Content;
    var n := BucketFile(ids[j]);
    WroteKeepsOnly(fs0, fs, a, n, "", img);
    WroteKeepsOnly(fs0, a, b, n, img[n], img);
    WroteKeepsOnly(fs0, b, c, Checksum, Records(ids[..j], rec) + rec(n), img);
    assert Backup(n)[..|n|] == n;
    assert Backup(n)[0] == '_' && Backup(Checksum)[0] == 'c' && Backup(Index)[0] == 'b';
    assert ids[..j + 1][..j] == ids[..j];
    forall i | 0 <= i < j
      ensures Content(c, Backup(BucketFile(ids[i]))) == Some(img[BucketFile(ids[i])])
    {
      var m := BucketFile(ids[i]);
      assert m[1..] == ids[i] && n[1..] == ids[j];
      assert Backup(m)[..|m|] == m && Backup(m)[0] == '_';
    }
  }

  lemma DumpBucketEffect(fs0: FS, fs: FS, ids: seq<string>, j: nat, img: Image, rec: Name -> string)
    requires j < |ids| && Dumpable(ids, img, rec) && Dumped(fs0, fs, ids, j, img, rec)
    ensures var n := BucketFile(ids[j]); var ops := DumpBucketOps(n, img[n], rec(n));
            Dumped(fs0, Run(fs, ops), ids, j + 1, img, rec) && AllEnabled(fs, ops)
  {
    hide Run, AllEnabled, Apply, WF, BackupsPrivate, OnlyBackupsOf, Records;
    var n := BucketFile(ids[j]);
    var ops := DumpBucketOps(n, img[n], rec(n));
    var a := Apply(fs, ops[0]);
    var b := Apply(a, ops[1]);
    assert Backup(n)[|n|] == '~' && Backup(n)[0] == '_' && Backup(Checksum)[0] == 'c';
    WriteEffect(fs, ops[0]);
    WriteEffect(a, ops[1]);
    assert "" + img[n] == img[n];
    assert Content(b, Backup(Checksum)) == Content(fs, Backup(Checksum));
    WriteEffect(b, ops[2]);
    RunThree(fs, ops);
    DumpedNext(fs0, fs, a, b, Apply(b, ops[2]), ids, j, img, rec);
  }

  lemma {:induction false} DumpBucketsEffect(fs0: FS, fs: FS, ids: seq<string>, j: nat, img: Image, rec: Name -> string)
    requires j <= |ids| && Dumpable(ids, img, rec) && Dumped(fs0, fs, ids, 0, img, rec)
    ensures Dumped(fs0, Run(fs, DumpBucketsOps(ids[..j], img, rec)), ids, j, img, rec)
    ensures AllEnabled(fs, DumpBucketsOps(ids[..j], img, rec))
    decreases j
  {
    hide Apply, Dumped, ImageFor, DumpBucketOps, WF, BackupsPrivate, Records;
    if j == 0 {
      assert ids[..0] == [];
      return;
    }
    DumpBucketsStep(ids, j, img, rec);
    hide Run, AllEnabled, DumpBucketsOps;
    DumpBucketsEffect(fs0, fs, ids, j - 1, img, rec);
    var before := DumpBucketsOps(ids[..j - 1], img, rec);
    var n := BucketFile(ids[j - 1]);
    RunConcat(fs, before, DumpBucketOps(n, img[n], rec(n)));
    DumpBucketEffect(fs0, Run(fs, before), ids, j - 1, img, rec);
  }

  lemma DumpBucketsStep(ids: seq<string>, j: nat, img: Image, rec: Name -> string)
    requires 0 < j <= |ids| && forall i :: 0 <= i < |ids| ==> BucketFile(ids[i]) in img
    ensures var n := BucketFile(ids[j - 1]);
            DumpBucketsOps(ids[..j], img, rec) == DumpBucketsOps(ids[..j - 1], img, rec) + DumpBucketOps(n, img[n], rec(n))
  {
    assert ids[..j][..j - 1] == ids[..j - 1];
  }

  /** After the dump, the backup names hold exactly the new texts. */
  ghost predicate BackupsHold(fs0: FS, fs: FS, img: Image) {
    && WF(fs) && BackupsPrivate(fs) && OnlyBackupsOf(fs0, fs, img)
    && forall n :: n in img ==> Content(fs, Backup(n)) == Some(img[n])
  }

  lemma DumpEffect(fs: FS, ids: seq<string>, img: Image, rec: Name -> string)
    requires WF(fs) && BackupsPrivate(fs) && Dumpable(ids, img, rec)
    ensures BackupsHold(fs, Run(fs, DumpOps(ids, img, rec)), img)
    ensures AllEnabled(fs, DumpOps(ids, img, rec))
  {
    hide Run, AllEnabled, Apply, OpenDumpOps, DumpBucketsOps, WF, BackupsPrivate;
    var a, b := OpenDumpOps(img[Index]), DumpBucketsOps(ids, img, rec);
    var last := Append(Backup(Checksum), rec(Index));
    OpenDumpEffect(fs, ids, img, rec);
    RunConcat(fs, a, b);
    assert ids[..|ids|] == ids;
    DumpBucketsEffect(fs, Run(fs, a), ids, |ids|, img, rec);
    RunSnoc(fs, a + b, last);
    var fs' := Run(fs, a + b);
    WriteEffect(fs', last);
    forall n | n in img
      ensures Content(Apply(fs', last), Backup(n)) == Some(img[n])
    {
      ImageNames(ids, img, n);
      if Backup(n) == Backup(Checksum) { BackupInjective(n, Checksum); }
    }
    assert Backup(Checksum)[..|Checksum|] == Checksum;
  }

  lemma {:induction false} DumpOpsAreBackupOps(ids: seq<string>, img: Image, rec: Name -> string)
    requires forall i :: 0 <= i < |ids| ==> BucketFile(ids[i]) in img
    ensures forall i :: 0 <= i < |DumpBucketsOps(ids, img, rec)| ==> BackupOp(DumpBucketsOps(ids, img, rec)[i])
    decreases |ids|
  {
    if ids != [] {
      DumpOpsAreBackupOps(ids[..|ids| - 1], img, rec);
      var n := BucketFile(ids[|ids| - 1]);
      assert Backup(n)[|n|] == '~' && Backup(Checksum)[|Checksum|] == '~';
    }
  }

  lemma {:induction false} FsyncEffect(fs: FS, names: seq<Name>, backup: bool)
    requires forall i :: 0 <= i < |names| ==> (if backup then Backup(names[i]) else names[i]) in fs.dir
    ensures var fs' := Run(fs, FsyncOps(names, backup));
            && AllEnabled(fs, FsyncOps(names, backup))
            && fs' == fs.(dirty := fs'.dirty) && fs'.dirty <= fs.dirty
            && forall i :: 0 <= i < |names| ==> fs.dir[if backup then Backup(names[i]) else names[i]] !in fs'.dirty
    decreases |names|
  {
    if names != [] {
      var n := names[|names| - 1];
      FsyncEffect(fs, names[..|names| - 1], backup);
      RunSnoc(fs, FsyncOps(names[..|names| - 1], backup), Fsync(if backup then Backup(n) else n));
    }
  }

  lemma {:induction false} FsyncOpsShape(names: seq<Name>, backup: bool)
    ensures |FsyncOps(names, backup)| == |names|
    ensures forall i :: 0 <= i < |names| ==>
              FsyncOps(names, backup)[i].Fsync? && (backup ==> BackupOp(FsyncOps(names, backup)[i]))
    decreases |names|
  {
    if names != [] {
      FsyncOpsShape(names[..|names| - 1], backup);
      var n := names[|names| - 1];
      assert Backup(n)[|n|] == '~';
    }
  }

  lemma SyncedDurable(fs: FS, a: FS, names: seq<Name>, img: Image, backup: bool)
    requires a == fs.(dirty := a.dirty)
    requires forall i :: 0 <= i < |names| ==>
               (if backup then Backup(names[i]) else names[i]) in fs.dir &&
               fs.dir[if backup then Backup(names[i]) else names[i]] !in a.dirty
    requires forall n :: n in img ==> n in names
    requires forall n :: n in img ==> Content(fs, if backup then Backup(n) else n) == Some(img[n])
    ensures var d := Apply(a, FsyncDir);
            if backup then BackupDurable(d, img) else PrimaryDurable(d, img)
  {
    forall n | n in img
      ensures Durable(Apply(a, FsyncDir), if backup then Backup(n) else n, img[n])
    {
      var i :| 0 <= i < |names| && names[i] == n;
    }
  }

  lemma SyncEffect(fs: FS, ids: seq<string>, img: Image, backup: bool)
    requires WF(fs) && ImageFor(ids, img)
    requires forall n :: n in img ==> Content(fs, if backup then Backup(n) else n) == Some(img[n])
    ensures AllEnabled(fs, SyncOps(ids, backup)) && WF(Run(fs, SyncOps(ids, backup)))
    ensures var fs' := Run(fs, SyncOps(ids, backup));
            && fs'.dir == fs.dir && fs'.data == fs.data && fs'.maybe == map[]
            && if backup then BackupDurable(fs', img) else PrimaryDurable(fs', img)
  {
    hide Run, AllEnabled, FsyncOps, WF, BackupDurable, PrimaryDurable;
    var names := FilesOf(ids);
    forall i | 0 <= i < |names|
      ensures (if backup then Backup(names[i]) else names[i]) in fs.dir
    {
      assert names[i] in img;
    }
    FsyncEffect(fs, names, backup);
    RunSnoc(fs, FsyncOps(names, backup), FsyncDir);
    RunKeepsWF(fs, SyncOps(ids, backup));
    SyncedDurable(fs, Run(fs, FsyncOps(names, backup)), names, img, backup);
  }

  lemma LinkOne(fs: FS, img: Image, n: Name)
    requires NewPhase(fs, img) && n in img && !IsBackup(n) && n != Guard
    ensures var a := Apply(fs, Unlink(n)); var b := Apply(a, Link(Backup(n), n));
            && Enabled(fs, Unlink(n)) && Enabled(a, Link(Backup(n), n)) && NewPhase(b, img)
            && Backup(n) in fs.dir && n in b.dir && b.dir[n] == fs.dir[Backup(n)]
            && (forall m :: m != n ==> Look(b, m) == Look(fs, m)) && b.data == fs.data
  {
    var a := Apply(fs, Unlink(n));
    assert Backup(n)[|n|] == '~';
    assert Durable(fs, Backup(n), img[n]);
    NewPhaseStep(fs, img, Unlink(n));
    NewPhaseStep(a, img, Link(Backup(n), n));
  }

  /** `fs'` is `fs` with each of `names` linked to the inode of its backup. */
  ghost predicate Relinked(fs: FS, fs': FS, names: seq<Name>) {
    && (forall i :: 0 <= i < |names| ==>
          Backup(names[i]) in fs.dir && names[i] in fs'.dir && fs'.dir[names[i]] == fs.dir[Backup(names[i])])
    && (forall m :: m !in names ==> Look(fs', m) == Look(fs, m))
    && fs'.data == fs.data
  }

  lemma {:induction false} LinkOpsShape(names: seq<Name>)
    requires forall i :: 0 <= i < |names| ==> !IsBackup(names[i]) && names[i] != Guard
    ensures forall i :: 0 <= i < |LinkOps(names)| ==> PrimaryOp(LinkOps(names)[i])
    decreases |names|
  {
    if names != [] { LinkOpsShape(names[..|names| - 1]); }
  }

  lemma RelinkedNext(fs: FS, a: FS, b: FS, rest: seq<Name>, n: Name)
    requires Relinked(fs, a, rest) && n !in rest && Backup(n) !in rest
    requires Backup(n) in a.dir && n in b.dir && b.dir[n] == a.dir[Backup(n)]
    requires forall m :: m != n ==> Look(b, m) == Look(a, m)
    requires b.data == a.data
    ensures Relinked(fs, b, rest + [n])
  {
    assert Look(a, Backup(n)) == Look(fs, Backup(n));
    forall i | 0 <= i < |rest| ensures Look(b, rest[i]) == Look(a, rest[i]) {}
  }

  lemma RunLinkSnoc(fs: FS, rest: seq<Name>, n: Name)
    ensures var a := Run(fs, LinkOps(rest)); var b := Apply(a, Unlink(n));
            && Run(fs, LinkOps(rest + [n])) == Apply(b, Link(Backup(n), n))
            && AllEnabled(fs, LinkOps(rest + [n])) ==
               (AllEnabled(fs, LinkOps(rest)) && Enabled(a, Unlink(n)) && Enabled(b, Link(Backup(n), n)))
  {
    hide Run, AllEnabled, Apply, Enabled;
    assert (rest + [n])[..|rest|] == rest;
    assert LinkOps(rest + [n]) == (LinkOps(rest) + [Unlink(n)]) + [Link(Backup(n), n)];
    RunSnoc(fs, LinkOps(rest), Unlink(n));
    RunSnoc(fs, LinkOps(rest) + [Unlink(n)], Link(Backup(n), n));
  }

  lemma {:induction false} LinkEffect(fs: FS, img: Image, names: seq<Name>)
    requires NewPhase(fs, img)
    requires forall i :: 0 <= i < |names| ==> names[i] in img && !IsBackup(names[i]) && names[i] != Guard
    requires forall i, j :: 0 <= i < j < |names| ==> names[i] != names[j]
    ensures AllEnabled(fs, LinkOps(names)) && NewPhase(Run(fs, LinkOps(names)), img)
    ensures Relinked(fs, Run(fs, LinkOps(names)), names)
    decreases |names|
  {
    if names == [] {
      return;
    }
    hide Run, AllEnabled, Apply, Enabled, LinkOps, NewPhase, Relinked;
    var rest, n := names[..|names| - 1], names[|names| - 1];
    assert names == rest + [n];
    LinkEffect(fs, img, rest);
    var a := Run(fs, LinkOps(rest));
    RunLinkSnoc(fs, rest, n);
    LinkOne(a, img, n);
    assert Backup(n)[|n|] == '~';
    RelinkedNext(fs, a, Apply(Apply(a, Unlink(n)), Link(Backup(n), n)), rest, n);
  }

  lemma DistinctFiles(ids: seq<string>)
    requires FileIds(ids)
    ensures forall i, j :: 0 <= i < j < |FilesOf(ids)| ==> FilesOf(ids)[i] != FilesOf(ids)[j]
  {
    var names := FilesOf(ids);
    forall i, j | 0 <= i < j < |names|
      ensures names[i] != names[j]
    {
      if j < |ids| {
        assert names[i][1..] == ids[i] && names[j][1..] == ids[j];
      } else if i < |ids| {
        assert names[i][0] == '_';
      }
    }
  }

  lemma FilesInImage(ids: seq<string>, img: Image)
    requires ImageFor(ids, img)
    ensures forall i :: 0 <= i < |FilesOf(ids)| ==>
              FilesOf(ids)[i] in img && !IsBackup(FilesOf(ids)[i]) && FilesOf(ids)[i] != Guard
  {
    forall i | 0 <= i < |FilesOf(ids)|
      ensures FilesOf(ids)[i] in img && !IsBackup(FilesOf(ids)[i]) && FilesOf(ids)[i] != Guard
    {
      ImageNames(ids, img, FilesOf(ids)[i]);
    }
  }

  lemma RelinkedContents(fs: FS, a: FS, names: seq<Name>, img: Image)
    requires Relinked(fs, a, names) && BackupDurable(fs, img) && forall n :: n in img ==> n in names
    ensures forall n :: n in img ==> Content(a, n) == Some(img[n])
  {
    forall n | n in img ensures Content(a, n) == Some(img[n]) {
      var i :| 0 <= i < |names| && names[i] == n;
      assert Durable(fs, Backup(n), img[n]);
    }
  }

  /** The part of a revalidation that runs while the guard stands. */
  function RelinkOps(ids: seq<string>): seq<Op> { LinkOps(FilesOf(ids)) + SyncOps(ids, false) }

  lemma RelinkOpsShape(ids: seq<string>, img: Image)
    requires ImageFor(ids, img)
    ensures forall i :: 0 <= i < |RelinkOps(ids)| ==> PrimaryOp(RelinkOps(ids)[i])
  {
    FilesInImage(ids, img);
    LinkOpsShape(FilesOf(ids));
    FsyncOpsShape(FilesOf(ids), false);
  }

  /** Re-linking and synchronising the primaries: the new texts are durable under both names. */
  lemma RelinkEffect(fs: FS, ids: seq<string>, img: Image)
    requires NewPhase(fs, img) && ImageFor(ids, img)
    ensures var fs' := Run(fs, RelinkOps(ids));
            && AllEnabled(fs, RelinkOps(ids)) && SafeRun(fs, RelinkOps(ids), {img})
            && NewPhase(fs', img) && PrimaryDurable(fs', img) && Relinked(fs, fs', FilesOf(ids))
  {
    hide Run, AllEnabled, Apply, WF, MayBe, GuardDurable, SafeRun, Durable, LinkOps, SyncOps, Content;
    var names := FilesOf(ids);
    FilesInImage(ids, img);
    DistinctFiles(ids);
    LinkEffect(fs, img, names);
    var a := Run(fs, LinkOps(names));
    RelinkedContents(fs, a, names, img);
    SyncEffect(a, ids, img, false);
    RunConcat(fs, LinkOps(names), SyncOps(ids, false));
    RelinkOpsShape(ids, img);
    NewPhaseRun(fs, img, RelinkOps(ids));
  }

  /** Removing the guard leaves a state in which only the primaries count. */
  lemma UnguardEffect(fs: FS, img: Image)
    requires NewPhase(fs, img) && PrimaryDurable(fs, img)
    requires forall n :: n in img ==> n != Guard && !IsBackup(n)
    ensures var a := Apply(fs, Unlink(Guard));
            WF(a) && PrimaryDurable(a, img) && BackupDurable(a, img)
    ensures Run(fs, UnguardOps) == Apply(Apply(fs, Unlink(Guard)), FsyncDir)
    ensures DonePhase(Run(fs, UnguardOps), img) && AllEnabled(fs, UnguardOps)
    ensures forall m :: m != Guard ==> Look(Run(fs, UnguardOps), m) == Look(fs, m)
    ensures Guard !in Run(fs, UnguardOps).dir
  {
    var a := Apply(fs, Unlink(Guard));
    var b := Apply(a, FsyncDir);
    assert UnguardOps == ([] + [Unlink(Guard)]) + [FsyncDir];
    RunSnoc(fs, [], Unlink(Guard));
    RunSnoc(fs, [] + [Unlink(Guard)], FsyncDir);
    ApplyKeepsWF(fs, Unlink(Guard));
    assert !IsBackup(Guard);
    forall n | n in img
      ensures Durable(a, n, img[n]) && Durable(a, Backup(n), img[n]) && Durable(b, n, img[n])
    {
      assert Durable(fs, n, img[n]) && Durable(fs, Backup(n), img[n]);
      assert Backup(n)[|n|] == '~';
    }
  }

  lemma {:induction false} DropOpsShape(names: seq<Name>)
    ensures |DropOps(names)| == |names|
    ensures forall i :: 0 <= i < |names| ==> DropOps(names)[i] == Unlink(Backup(names[i]))
    decreases |names|
  {
    if names != [] { DropOpsShape(names[..|names| - 1]); }
  }

  lemma PrefixConcat(a: seq<Op>, b: seq<Op>, k: nat)
    requires k <= |a| + |b|
    ensures k <= |a| ==> (a + b)[..k] == a[..k]
    ensures |a| <= k ==> (a + b)[..k] == a + b[..k - |a|]
  {
  }

  // ----- finishing a commit, by a save or by the load after a crash -----

  lemma UnguardSafe(fs: FS, ids: seq<string>, img: Image)
    requires NewPhase(fs, img) && PrimaryDurable(fs, img) && ImageFor(ids, img)
    ensures SafeRun(fs, UnguardOps, {img}) && DonePhase(Run(fs, UnguardOps), img)
    ensures AllEnabled(fs, UnguardOps) && Guard !in Run(fs, UnguardOps).dir
    ensures forall m :: m != Guard ==> Look(Run(fs, UnguardOps), m) == Look(fs, m)
  {
    forall n | n in img ensures n != Guard && !IsBackup(n) { ImageNames(ids, img, n); }
    UnguardEffect(fs, img);
    var a := Apply(fs, Unlink(Guard));
    var b := Apply(a, FsyncDir);
    SafeNew(fs, img);
    SafeBoth(a, img, img);
    assert {img, img} == {img};
    SafeOld(b, img);
    var tail := UnguardOps[1..];
    assert tail == [FsyncDir] && tail[1..] == [];
    assert SafeRun(b, tail[1..], {img});
    assert SafeRun(a, tail, {img});
  }

  lemma DropSafe(fs: FS, ids: seq<string>, img: Image)
    requires DonePhase(fs, img) && ImageFor(ids, img)
    ensures var ops := DropOps(FilesOf(ids)); var fs' := Run(fs, ops);
            && SafeRun(fs, ops, {img}) && DonePhase(fs', img) && AllEnabled(fs, ops)
            && (forall m :: m in fs'.dir ==> Look(fs', m) == Look(fs, m))
            && (forall n :: n in img ==> Backup(n) !in fs'.dir)
  {
    var names := FilesOf(ids);
    var ops := DropOps(names);
    DropOpsShape(names);
    forall i | 0 <= i < |ops| ensures ops[i].Unlink? && ops[i].name !in img {
      assert Backup(names[i])[|names[i]|] == '~';
      if Backup(names[i]) in img { ImageNames(ids, img, Backup(names[i])); }
    }
    DonePhaseRun(fs, img, ops);
    forall n | n in img ensures Backup(n) !in Run(fs, ops).dir {
      var i :| 0 <= i < |names| && names[i] == n;
      assert ops[i] in ops;
    }
  }

  /**
   Once the guard is durable, a crash at any point of the re-validation reads the
   new texts.  Complete, it makes no failing call and leaves them as the primaries.
   */
  lemma RevalidateSafe(fs: FS, ids: seq<string>, img: Image)
    requires NewPhase(fs, img) && ImageFor(ids, img)
    ensures SafeRun(fs, RevalidateOps(ids), {img}) && AllEnabled(fs, RevalidateOps(ids))
    ensures DonePhase(Run(fs, RevalidateOps(ids)), img)
    ensures Guard !in Run(fs, RevalidateOps(ids)).dir
    ensures forall n :: n in img ==> Backup(n) !in Run(fs, RevalidateOps(ids)).dir
    ensures Moved(fs, Run(fs, RevalidateOps(ids)), img)
  {
    hide SafeRun, AllEnabled, Run, DonePhase, NewPhase, PrimaryDurable, ImageFor;
    var relink, drop := RelinkOps(ids), DropOps(FilesOf(ids));
    var a := Run(fs, relink);
    var b := Run(a, UnguardOps);
    RelinkEffect(fs, ids, img);
    UnguardSafe(a, ids, img);
    DropSafe(b, ids, img);
    RunConcat(fs, relink, UnguardOps);
    RunConcat(fs, relink + UnguardOps, drop);
    SafeConcat(fs, relink, UnguardOps, {img});
    SafeConcat(fs, relink + UnguardOps, drop, {img});
    assert RevalidateOps(ids) == relink + UnguardOps + drop;
    FilesAreImage(ids, img);
    forall m | m in Run(b, drop).dir
      ensures Look(Run(b, drop), m) == Look(fs, if m in img then Backup(m) else m)
    {
      assert Look(b, m) == Look(a, m);
    }
  }

  /** Every name has its old entry or, if it is one of `img`, that of its backup. */
  ghost predicate Moved(fs: FS, fs': FS, img: Image) {
    forall m :: m in fs'.dir ==> Look(fs', m) == Look(fs, if m in img then Backup(m) else m)
  }

  lemma FilesAreImage(ids: seq<string>, img: Image)
    requires ImageFor(ids, img)
    ensures forall n :: n in img <==> n in FilesOf(ids)
  {
  }

  /** A backup name that is left shares its inode with no other name. */
  lemma MovedKeepsPrivate(fs: FS, fs': FS, img: Image)
    requires BackupsPrivate(fs) && Moved(fs, fs', img)
    requires forall n :: n in img ==> Backup(n) !in fs'.dir && !IsBackup(n)
    ensures BackupsPrivate(fs')
  {
    forall n, m | n in fs'.dir && m in fs'.dir && IsBackup(n) && m != n
      ensures fs'.dir[m] != fs'.dir[n]
    {
      assert Look(fs', n) == Look(fs, n) && Look(fs', m) == Look(fs, if m in img then Backup(m) else m);
    }
  }

  /** Where a revalidation stands after `j` of its calls. */
  lemma RevalidateStop(fs: FS, ids: seq<string>, img: Image, j: nat)
    requires NewPhase(fs, img) && ImageFor(ids, img) && j <= |RevalidateOps(ids)|
    ensures var fs' := Run(fs, RevalidateOps(ids)[..j]); var u := |RelinkOps(ids)|;
            && (j <= u ==> NewPhase(fs', img))
            && (j == u + 1 ==> UnguardInDoubt(fs', img))
            && (j >= u + 2 ==> DonePhase(fs', img))
            && (u + 2 <= j < |RevalidateOps(ids)| ==>
                  Backup(Checksum) in fs'.dir && Look(fs', Checksum) == Look(fs', Backup(Checksum)))
  {
    hide Run, NewPhase, DonePhase, LinkOps, SyncOps, ImageFor, Relinked;
    var relink, drop := RelinkOps(ids), DropOps(FilesOf(ids));
    assert RevalidateOps(ids) == relink + (UnguardOps + drop);
    assert |UnguardOps| == 2;
    RelinkEffect(fs, ids, img);
    var a := Run(fs, relink);
    if j <= |relink| {
      PrefixConcat(relink, UnguardOps + drop, j);
      RelinkOpsShape(ids, img);
      NewPhaseRun(fs, img, relink[..j]);
    } else {
      PrefixConcat(relink, UnguardOps + drop, j);
      RunConcat(fs, relink, (UnguardOps + drop)[..j - |relink|]);
      ChecksumRelinked(fs, a, ids, img);
      UnguardStop(a, ids, img, j - |relink|);
    }
  }

  /** The guard has been unlinked, and a crash may bring it back; the database is durable under both names. */
  ghost predicate UnguardInDoubt(fs: FS, img: Image) {
    && WF(fs) && PrimaryDurable(fs, img) && BackupDurable(fs, img)
    && Guard !in fs.dir && exists e :: e in MayBe(fs, Guard) && e.Some?
  }

  lemma ChecksumRelinked(fs: FS, a: FS, ids: seq<string>, img: Image)
    requires Relinked(fs, a, FilesOf(ids)) && ImageFor(ids, img)
    ensures Look(a, Checksum) == Look(a, Backup(Checksum)) && Backup(Checksum) in a.dir
  {
    assert FilesOf(ids)[|ids| + 1] == Checksum;
    assert Backup(Checksum)[|Checksum|] == '~';
    if Backup(Checksum) in img { ImageNames(ids, img, Backup(Checksum)); }
    assert Look(a, Backup(Checksum)) == Look(fs, Backup(Checksum));
  }

  lemma UnguardStop(a: FS, ids: seq<string>, img: Image, j: nat)
    requires NewPhase(a, img) && PrimaryDurable(a, img) && ImageFor(ids, img)
    requires 1 <= j <= |UnguardOps + DropOps(FilesOf(ids))|
    requires Look(a, Checksum) == Look(a, Backup(Checksum)) && Backup(Checksum) in a.dir
    ensures var fs' := Run(a, (UnguardOps + DropOps(FilesOf(ids)))[..j]);
            && (j == 1 ==> UnguardInDoubt(fs', img))
            && (j >= 2 ==> DonePhase(fs', img))
            && (2 <= j < |UnguardOps + DropOps(FilesOf(ids))| ==>
                  Backup(Checksum) in fs'.dir && Look(fs', Checksum) == Look(fs', Backup(Checksum)))
  {
    hide DonePhase, ImageFor, SafeRun;
    var drop := DropOps(FilesOf(ids));
    var ops := UnguardOps + drop;
    forall n | n in img ensures n != Guard && !IsBackup(n) { ImageNames(ids, img, n); }
    UnguardEffect(a, img);
    if j == 1 {
      assert ops[..1] == [] + [Unlink(Guard)];
      RunSnoc(a, [], Unlink(Guard));
      assert Some(a.dir[Guard]) in MayBe(Apply(a, Unlink(Guard)), Guard);
    } else {
      PrefixConcat(UnguardOps, drop, j);
      RunConcat(a, UnguardOps, drop[..j - 2]);
      hide Run, NewPhase;
      DropStop(Run(a, UnguardOps), ids, img, j - 2);
    }
  }

  lemma DropStop(b: FS, ids: seq<string>, img: Image, j: nat)
    requires DonePhase(b, img) && ImageFor(ids, img) && j <= |DropOps(FilesOf(ids))|
    ensures var fs' := Run(b, DropOps(FilesOf(ids))[..j]);
            && DonePhase(fs', img)
            && (j < |DropOps(FilesOf(ids))| && Backup(Checksum) in b.dir ==>
                  Look(fs', Backup(Checksum)) == Look(b, Backup(Checksum)) && Look(fs', Checksum) == Look(b, Checksum))
  {
    var names := FilesOf(ids);
    var ops := DropOps(names)[..j];
    DropOpsShape(names);
    DistinctFiles(ids);
    forall i | 0 <= i < |ops| ensures ops[i].Unlink? && ops[i].name !in img {
      assert Backup(names[i])[|names[i]|] == '~';
      if Backup(names[i]) in img { ImageNames(ids, img, Backup(names[i])); }
    }
    DonePhaseRun(b, img, ops);
    assert names[|names| - 1] == Checksum;
    assert Durable(b, Checksum, img[Checksum]) && Durable(Run(b, ops), Checksum, img[Checksum]);
    if j < |DropOps(names)| {
      forall i | 0 <= i < |ops| ensures ops[i] != Unlink(Backup(Checksum)) {
        if Backup(names[i]) == Backup(Checksum) { BackupInjective(names[i], Checksum); }
      }
    }
  }

  // ----- a save -----

  /** The calls of a save before it creates the guard. */
  function PrepareOps(ids: seq<string>, img: Image, rec: Name -> string): seq<Op>
    requires Index in img && forall i :: 0 <= i < |ids| ==> BucketFile(ids[i]) in img
  {
    DumpOps(ids, img, rec) + SyncOps(ids, true)
  }

  lemma PrepareOpsShape(ids: seq<string>, img: Image, rec: Name -> string)
    requires Index in img && forall i :: 0 <= i < |ids| ==> BucketFile(ids[i]) in img
    ensures var ops := PrepareOps(ids, img, rec);
            forall i :: 0 <= i < |ops| ==> BackupOp(ops[i]) || ops[i] == FsyncDir
  {
    DumpOpsAreBackupOps(ids, img, rec);
    FsyncOpsShape(FilesOf(ids), true);
    assert Backup(Checksum)[|Checksum|] == '~' && Backup(Index)[|Index|] == '~';
  }

  lemma PrepareDurable(fs: FS, ids: seq<string>, img: Image, rec: Name -> string)
    requires WF(fs) && BackupsPrivate(fs) && Dumpable(ids, img, rec)
    ensures var ops := PrepareOps(ids, img, rec); var fs' := Run(fs, ops);
            AllEnabled(fs, ops) && BackupDurable(fs', img) && OnlyBackupsOf(fs, fs', img)
  {
    var dump, sync := DumpOps(ids, img, rec), SyncOps(ids, true);
    DumpEffect(fs, ids, img, rec);
    SyncEffect(Run(fs, dump), ids, img, true);
    RunConcat(fs, dump, sync);
  }

  /** Everything up to the guard: the old texts are safe. */
  lemma PrepareSafe(fs: FS, img0: Image, ids: seq<string>, img: Image, rec: Name -> string)
    requires Steady(fs, img0) && Dumpable(ids, img, rec)
    requires forall n :: n in img0 ==> !IsBackup(n)
    ensures SafeRun(fs, PrepareOps(ids, img, rec), {img0})
    ensures Steady(Run(fs, PrepareOps(ids, img, rec)), img0)
  {
    PrepareOpsShape(ids, img, rec);
    SteadyRun(fs, img0, PrepareOps(ids, img, rec));
  }

  /** Creating the guard: both databases are durable until it is, and then the new one counts. */
  lemma GuardSafe(fs: FS, img0: Image, img: Image)
    requires Steady(fs, img0) && BackupDurable(fs, img)
    requires forall n :: n in img0 ==> n != Guard
    ensures SafeRun(fs, GuardOps, {img0, img}) && AllEnabled(fs, GuardOps)
    ensures NewPhase(Run(fs, GuardOps), img) && BackupsPrivate(Run(fs, GuardOps))
    ensures forall m :: m in Run(fs, GuardOps).dir ==> m in fs.dir || m == Guard
  {
    hide SafeAt, SafeRun, PrimaryDurable, BackupDurable, Durable, CrashOf;
    var a := Apply(fs, GuardOps[0]);
    var b := Apply(a, GuardOps[1]);
    var d := Apply(b, FsyncDir);
    assert Look(fs, Guard) in MayBe(fs, Guard);
    RunThree(fs, GuardOps);
    GuardOpKeepsImages(fs, GuardOps[0], img0, img);
    GuardOpKeepsImages(a, GuardOps[1], img0, img);
    GuardOpKeepsImages(b, FsyncDir, img0, img);
    SafeBoth(fs, img0, img);
    SafeBoth(a, img0, img);
    SafeBoth(b, img0, img);
    SafeNew(d, img);
    SafeRunThree(fs, GuardOps, {img}, {img0, img});
  }

  /** The guard has been created, and a crash may lose it; each database is durable under its own names. */
  ghost predicate GuardInDoubt(fs: FS, img0: Image, img: Image) {
    && WF(fs) && PrimaryDurable(fs, img0) && BackupDurable(fs, img)
    && Guard in fs.dir && None in MayBe(fs, Guard)
  }

  lemma GuardStop(fs: FS, img0: Image, img: Image, j: nat)
    requires Steady(fs, img0) && BackupDurable(fs, img) && 1 <= j <= 2
    requires forall n :: n in img0 ==> n != Guard
    ensures GuardInDoubt(Run(fs, GuardOps[..j]), img0, img)
  {
    hide PrimaryDurable, BackupDurable, BackupsPrivate, Run;
    var a := Apply(fs, GuardOps[0]);
    assert Look(fs, Guard) in MayBe(fs, Guard);
    GuardOpKeepsImages(fs, GuardOps[0], img0, img);
    GuardOpKeepsImages(a, GuardOps[1], img0, img);
    assert GuardOps[..1] == [] + [GuardOps[0]] && GuardOps[..2] == GuardOps[..1] + [GuardOps[1]];
    RunNone(fs);
    RunSnoc(fs, [], GuardOps[0]);
    RunSnoc(fs, GuardOps[..1], GuardOps[1]);
  }

  lemma RunNone(fs: FS)
    ensures Run(fs, []) == fs
  {
  }

  lemma GuardOpKeepsImages(fs: FS, op: Op, img0: Image, img: Image)
    requires WF(fs) && op in GuardOps && PrimaryDurable(fs, img0) && BackupDurable(fs, img)
    requires forall n :: n in img0 ==> n != Guard
    ensures WF(Apply(fs, op)) && PrimaryDurable(Apply(fs, op), img0) && BackupDurable(Apply(fs, op), img)
  {
    ApplyKeepsWF(fs, op);
    forall n | n in img0
      ensures Durable(Apply(fs, op), n, img0[n])
    {
      assert Durable(fs, n, img0[n]);
    }
    forall n | n in img
      ensures Durable(Apply(fs, op), Backup(n), img[n])
    {
      assert Durable(fs, Backup(n), img[n]);
      assert Backup(n)[|n|] == '~';
    }
  }

  lemma SafeRunThree(fs: FS, ops: seq<Op>, few: set<Image>, imgs: set<Image>)
    requires |ops| == 3 && few <= imgs
    requires SafeAt(fs, imgs) && SafeAt(Apply(fs, ops[0]), imgs) && SafeAt(Apply(Apply(fs, ops[0]), ops[1]), imgs)
    requires SafeAt(Apply(Apply(Apply(fs, ops[0]), ops[1]), ops[2]), few)
    ensures SafeRun(fs, ops, imgs)
  {
    var a := Apply(fs, ops[0]);
    var b := Apply(a, ops[1]);
    var c := Apply(b, ops[2]);
    assert SafeRun(c, [], few);
    SafeWeaken(c, [], few, imgs);
    assert ops[1..][1..] == [ops[2]] && [ops[2]][1..] == [];
    assert SafeRun(b, [ops[2]], imgs);
    assert SafeRun(a, ops[1..], imgs);
  }

  /** The number of calls after which no crash can undo a save. */
  function CommitPoint(ids: seq<string>, img: Image, rec: Name -> string): nat
    requires Index in img && forall i :: 0 <= i < |ids| ==> BucketFile(ids[i]) in img
  {
    |PrepareOps(ids, img, rec)| + |GuardOps|
  }

  /** Three consecutive parts of a save, safe for the old, either and the new database. */
  ghost predicate SafeParts(fs: FS, p: seq<Op>, g: seq<Op>, r: seq<Op>, img0: Image, img: Image) {
    && SafeRun(fs, p, {img0})
    && SafeRun(Run(fs, p), g, {img0, img})
    && SafeRun(Run(Run(fs, p), g), r, {img})
  }

  lemma PartsCompose(fs: FS, p: seq<Op>, g: seq<Op>, r: seq<Op>, img0: Image, img: Image)
    requires SafeParts(fs, p, g, r, img0, img)
    ensures Run(fs, p + g + r) == Run(Run(Run(fs, p), g), r)
    ensures AllEnabled(fs, p + g + r) ==
            (AllEnabled(fs, p) && AllEnabled(Run(fs, p), g) && AllEnabled(Run(Run(fs, p), g), r))
    ensures SafeRun(fs, p + g + r, {img0, img})
  {
    var imgs := {img0, img};
    RunConcat(fs, p, g);
    RunConcat(fs, p + g, r);
    SafeWeaken(fs, p, {img0}, imgs);
    SafeConcat(fs, p, g, imgs);
    SafeWeaken(Run(fs, p + g), r, {img}, imgs);
    SafeConcat(fs, p + g, r, imgs);
  }

  lemma PartsPrefix(fs: FS, p: seq<Op>, g: seq<Op>, r: seq<Op>, img0: Image, img: Image, k: nat)
    requires SafeParts(fs, p, g, r, img0, img) && k <= |p + g + r|
    ensures SafeAt(Run(fs, (p + g + r)[..k]), {img0, img})
    ensures k <= |p| ==> SafeAt(Run(fs, (p + g + r)[..k]), {img0})
    ensures k >= |p + g| ==> SafeAt(Run(fs, (p + g + r)[..k]), {img})
  {
    hide SafeRun, SafeAt, Run;
    PartsCompose(fs, p, g, r, img0, img);
    SafePrefix(fs, p + g + r, {img0, img}, k);
    if k <= |p| {
      assert p + g + r == p + (g + r);
      PrefixConcat(p, g + r, k);
      SafePrefix(fs, p, {img0}, k);
    }
    if k >= |p + g| {
      PrefixConcat(p + g, r, k);
      RunConcat(fs, p, g);
      RunConcat(fs, p + g, r[..k - |p + g|]);
      SafePrefix(Run(fs, p + g), r, {img}, k - |p + g|);
    }
  }

  /** No backup name of `img` is left, and no other one has been added. */
  ghost predicate NoNewBackups(fs: FS, fs': FS, img: Image) {
    && (forall n :: n in img ==> Backup(n) !in fs'.dir)
    && forall m :: m in fs'.dir && IsBackup(m) ==> m in fs.dir
  }

  lemma NoBackupsLeft(fs: FS, a: FS, b: FS, c: FS, img: Image)
    requires OnlyBackupsOf(fs, a, img) && Moved(b, c, img)
    requires forall m :: m in img ==> !IsBackup(m)
    requires forall m :: m in b.dir ==> m in a.dir || m == Guard
    requires forall n :: n in img ==> Backup(n) !in c.dir
    ensures NoNewBackups(fs, c, img)
  {
    forall m | m in c.dir && IsBackup(m) ensures m in fs.dir {
      assert Backup(m[..|m| - 1]) == m;
      assert Look(c, m) == Look(b, m);
    }
  }

  lemma SaveParts(fs: FS, ids0: seq<string>, img0: Image, ids: seq<string>, img: Image, rec: Name -> string)
    requires Steady(fs, img0) && ImageFor(ids0, img0) && Dumpable(ids, img, rec)
    ensures var p, r := PrepareOps(ids, img, rec), RevalidateOps(ids);
            var a := Run(fs, p); var b := Run(a, GuardOps); var c := Run(b, r);
            && SafeParts(fs, p, GuardOps, r, img0, img)
            && AllEnabled(fs, p) && AllEnabled(a, GuardOps) && AllEnabled(b, r)
            && Steady(a, img0) && BackupDurable(a, img) && NewPhase(b, img)
            && Steady(c, img) && NoNewBackups(fs, c, img)
  {
    hide SafeRun, AllEnabled, Run, ImageFor, NewPhase, PrimaryDurable, BackupDurable;
    var p, r := PrepareOps(ids, img, rec), RevalidateOps(ids);
    NamesOf(ids0, img0);
    DumpableImage(ids, img, rec);
    NamesOf(ids, img);
    PrepareSafe(fs, img0, ids, img, rec);
    PrepareDurable(fs, ids, img, rec);
    var a := Run(fs, p);
    GuardSafe(a, img0, img);
    var b := Run(a, GuardOps);
    RevalidateSafe(b, ids, img);
    NoBackupsLeft(fs, a, b, Run(b, r), img);
    MovedKeepsPrivate(b, Run(b, r), img);
  }

  lemma NamesOf(ids: seq<string>, img: Image)
    requires ImageFor(ids, img)
    ensures forall n :: n in img ==> !IsBackup(n) && n != Guard
  {
    forall n | n in img ensures !IsBackup(n) && n != Guard { ImageNames(ids, img, n); }
  }

  lemma DumpableImage(ids: seq<string>, img: Image, rec: Name -> string)
    requires Dumpable(ids, img, rec)
    ensures ImageFor(ids, img)
  {
  }

  /**
   An undisturbed save makes no failing call and ends steady, on the new texts.
   It leaves none of its backup names, and no other that was not there before.
   */
  lemma SaveCompletes(fs: FS, ids0: seq<string>, img0: Image, ids: seq<string>, img: Image, rec: Name -> string)
    requires Steady(fs, img0) && ImageFor(ids0, img0) && Dumpable(ids, img, rec)
    ensures Steady(Run(fs, SaveOps(ids, img, rec)), img) && AllEnabled(fs, SaveOps(ids, img, rec))
    ensures NoNewBackups(fs, Run(fs, SaveOps(ids, img, rec)), img)
  {
    SaveParts(fs, ids0, img0, ids, img, rec);
    PartsCompose(fs, PrepareOps(ids, img, rec), GuardOps, RevalidateOps(ids), img0, img);
    assert SaveOps(ids, img, rec) == PrepareOps(ids, img, rec) + GuardOps + RevalidateOps(ids);
  }

  /**
   Crash atomicity: stopped after any number of its calls, with whatever is not
   synchronised kept, lost or garbled, a save leaves exactly the old or exactly
   the new texts for the next load; the old ones until the guard is created, and
   the new ones once the guard is durable.
   */
  lemma SaveIsAtomic(fs: FS, ids0: seq<string>, img0: Image, ids: seq<string>, img: Image,
                     rec: Name -> string, k: nat, c: FS)
    requires Steady(fs, img0) && ImageFor(ids0, img0) && Dumpable(ids, img, rec)
    requires k <= |SaveOps(ids, img, rec)| && CrashOf(Run(fs, SaveOps(ids, img, rec)[..k]), c)
    ensures Reads(c, img0) || Reads(c, img)
    ensures k <= CommitPoint(ids, img, rec) - |GuardOps| ==> Reads(c, img0)
    ensures k >= CommitPoint(ids, img, rec) ==> Reads(c, img)
  {
    hide Steady, ImageFor, Reads, CrashOf, SafeParts, SafeRun, Run, DumpOps, SyncOps, RevalidateOps;
    SaveParts(fs, ids0, img0, ids, img, rec);
    PartsPrefix(fs, PrepareOps(ids, img, rec), GuardOps, RevalidateOps(ids), img0, img, k);
    assert SaveOps(ids, img, rec) == PrepareOps(ids, img, rec) + GuardOps + RevalidateOps(ids);
  }
}
