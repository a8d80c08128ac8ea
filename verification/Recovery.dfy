/**
 Recovery: loads after crashes and after failures, saves after failed saves, and
 whole runs of them.

 A crash loses what is not synchronised.  A failure does not: an exception, or the
 death of the process, stops an operation after some of its calls, and the next
 operation finds the directory just as it was left.
 */
module Recovery {
  import opened Collections
  import opened FileSystem
  import opened Commit
  import opened CrashSafety

  // ----- a load -----

  lemma {:induction false} CleanOpsShape(listing: seq<Name>, ids: seq<string>)
    ensures forall i :: 0 <= i < |CleanOps(listing, ids)| ==>
              CleanOps(listing, ids)[i].Unlink? && !Kept(CleanOps(listing, ids)[i].name, ids)
    ensures forall n :: n in listing && !Kept(n, ids) ==> Unlink(n) in CleanOps(listing, ids)
    decreases |listing|
  {
    if listing != [] { CleanOpsShape(listing[..|listing| - 1], ids); }
  }

  lemma KeptIsInImage(ids: seq<string>, img: Image, n: Name)
    requires ImageFor(ids, img)
    ensures n in img ==> Kept(n, ids)
    ensures Kept(n, ids) && n != "." && n != ".." ==> n in img
  {
    if n in img {
      ImageNames(ids, img, n);
      if i :| 0 <= i < |ids| && n == BucketFile(ids[i]) {
        assert n[..1] == "_" && n[1..] == ids[i];
      }
    }
    if Kept(n, ids) && n != "." && n != ".." {
      assert FilesOf(ids)[|ids|] == Index && FilesOf(ids)[|ids| + 1] == Checksum;
      if n != Index && n != Checksum {
        var i :| 0 <= i < |ids| && ids[i] == n[1..];
        assert n == BucketFile(ids[i]) == FilesOf(ids)[i];
      }
    }
  }

  lemma CleanSafe(fs: FS, ids: seq<string>, img: Image, listing: seq<Name>)
    requires DonePhase(fs, img) && ImageFor(ids, img)
    ensures var ops := CleanOps(listing, ids); var fs' := Run(fs, ops);
            && SafeRun(fs, ops, {img}) && DonePhase(fs', img) && AllEnabled(fs, ops)
            && forall m :: m in fs'.dir ==> m in fs.dir && (m in listing ==> Kept(m, ids))
  {
    var ops := CleanOps(listing, ids);
    CleanOpsShape(listing, ids);
    forall i | 0 <= i < |ops| ensures ops[i].name !in img { KeptIsInImage(ids, img, ops[i].name); }
    DonePhaseRun(fs, img, ops);
  }

  /** What a load does before it lists the directory. */
  function FinishOps(fs: FS, ids: seq<string>): seq<Op> {
    if Guard in fs.dir then RevalidateOps(ids) else []
  }

  /** The guard is settled, one way or the other, and what a load reads by it is durable. */
  ghost predicate Recoverable(fs: FS, img: Image) { DonePhase(fs, img) || NewPhase(fs, img) }

  lemma BootedIsRecoverable(fs: FS, img: Image)
    requires Booted(fs) && Reads(fs, img)
    ensures Recoverable(fs, img)
  {
  }

  lemma RecoverableReads(fs: FS, img: Image)
    requires Recoverable(fs, img)
    ensures Reads(fs, img) && SafeAt(fs, {img})
    ensures Guard in fs.dir <==> NewPhase(fs, img)
  {
    assert Look(fs, Guard) in MayBe(fs, Guard);
    if DonePhase(fs, img) {
      forall n | n in img ensures Content(fs, n) == Some(img[n]) { assert Durable(fs, n, img[n]); }
      SafeOld(fs, img);
    } else {
      forall n | n in img ensures Content(fs, Backup(n)) == Some(img[n]) { assert Durable(fs, Backup(n), img[n]); }
      SafeNew(fs, img);
    }
  }

  lemma FinishSafe(fs: FS, ids: seq<string>, img: Image)
    requires Recoverable(fs, img) && ImageFor(ids, img)
    ensures SafeRun(fs, FinishOps(fs, ids), {img}) && AllEnabled(fs, FinishOps(fs, ids))
    ensures DonePhase(Run(fs, FinishOps(fs, ids)), img)
  {
    hide RevalidateOps, ImageFor;
    RecoverableReads(fs, img);
    if Guard in fs.dir {
      RevalidateSafe(fs, ids, img);
    }
  }

  lemma LoadSafe(fs: FS, ids: seq<string>, img: Image, listing: seq<Name>)
    requires Recoverable(fs, img) && ImageFor(ids, img)
    ensures SafeRun(fs, LoadOps(fs, ids, listing), {img})
  {
    hide RevalidateOps, ImageFor, SafeRun, Run, Recoverable;
    var finish, clean := FinishOps(fs, ids), CleanOps(listing, ids);
    FinishSafe(fs, ids, img);
    CleanSafe(Run(fs, finish), ids, img, listing);
    SafeConcat(fs, finish, clean, {img});
    assert LoadOps(fs, ids, listing) == finish + clean;
  }

  /**
   Recovery is idempotent: a load of `img`, cut short by a crash after any number
   of its calls, leaves a directory from which the next load reads `img` again.
   */
  lemma LoadIsIdempotent(fs: FS, ids: seq<string>, img: Image, listing: seq<Name>, k: nat, c: FS)
    requires Recoverable(fs, img) && ImageFor(ids, img)
    requires k <= |LoadOps(fs, ids, listing)| && CrashOf(Run(fs, LoadOps(fs, ids, listing)[..k]), c)
    ensures Booted(c) && Reads(c, img)
  {
    hide LoadOps, ImageFor, SafeRun, Run, Recoverable, Reads;
    LoadSafe(fs, ids, img, listing);
    SafePrefix(fs, LoadOps(fs, ids, listing), {img}, k);
  }

  /**
   A completed load makes no failing call and leaves no guard, exactly the
   indexed primary files, and in particular no backup name through which the
   next save could truncate a primary file.
   */
  lemma LoadCompletes(fs: FS, ids: seq<string>, img: Image, listing: seq<Name>)
    requires Recoverable(fs, img) && ImageFor(ids, img)
    requires forall n :: n in Run(fs, FinishOps(fs, ids)).dir ==> n in listing
    ensures Steady(Run(fs, LoadOps(fs, ids, listing)), img) && AllEnabled(fs, LoadOps(fs, ids, listing))
    ensures forall n :: n != "." && n != ".." ==> (n in Run(fs, LoadOps(fs, ids, listing)).dir <==> n in img)
  {
    hide Recoverable, Run, AllEnabled, SafeRun, RevalidateOps;
    var finish, clean := FinishOps(fs, ids), CleanOps(listing, ids);
    FinishSafe(fs, ids, img);
    var a := Run(fs, finish);
    CleanSafe(a, ids, img, listing);
    RunConcat(fs, finish, clean);
    assert LoadOps(fs, ids, listing) == finish + clean;
    var b := Run(a, clean);
    forall n | n in b.dir ensures n in img || n == "." || n == ".." { KeptIsInImage(ids, img, n); }
    forall n | n in img ensures n in b.dir && !IsBackup(n) {
      ImageNames(ids, img, n);
      assert Durable(b, n, img[n]);
    }
  }

  // ----- where a failed operation leaves the directory -----

  /** The calls of a save after which the guard is in doubt: created or unlinked, and not yet synchronised. */
  predicate SaveInDoubt(ids: seq<string>, img: Image, rec: Name -> string, k: nat)
    requires Index in img && forall i :: 0 <= i < |ids| ==> BucketFile(ids[i]) in img
  {
    || |PrepareOps(ids, img, rec)| < k < CommitPoint(ids, img, rec)
    || k == CommitPoint(ids, img, rec) + |RelinkOps(ids)| + 1
  }

  /** A save that fails after `k` calls. */
  lemma SaveStop(fs: FS, ids0: seq<string>, img0: Image, ids: seq<string>, img: Image, rec: Name -> string, k: nat)
    requires Steady(fs, img0) && ImageFor(ids0, img0) && Dumpable(ids, img, rec) && k <= |SaveOps(ids, img, rec)|
    ensures var fs' := Run(fs, SaveOps(ids, img, rec)[..k]);
            var p, c, u := |PrepareOps(ids, img, rec)|, CommitPoint(ids, img, rec), |RelinkOps(ids)|;
            && (k <= p ==> Steady(fs', img0))
            && (p < k < c ==> GuardInDoubt(fs', img0, img))
            && (c <= k <= c + u ==> NewPhase(fs', img))
            && (k == c + u + 1 ==> UnguardInDoubt(fs', img))
            && (k >= c + u + 2 ==> DonePhase(fs', img))
            && (c + u + 2 <= k < |SaveOps(ids, img, rec)| ==>
                  Backup(Checksum) in fs'.dir && Look(fs', Checksum) == Look(fs', Backup(Checksum)))
  {
    hide Run, PrepareOps, RevalidateOps, RelinkOps, Steady, NewPhase, DonePhase, GuardInDoubt, UnguardInDoubt, SafeRun, ImageFor;
    var p, r := PrepareOps(ids, img, rec), RevalidateOps(ids);
    SaveInThree(ids, img, rec);
    SaveParts(fs, ids0, img0, ids, img, rec);
    PrefixOfThree(fs, p, GuardOps, r, k);
    assert |GuardOps| == 3;
    if k <= |p| {
      PrepareStop(fs, ids0, img0, ids, img, rec, k);
    } else if k < |p| + 3 {
      NamesOf(ids0, img0);
      GuardStop(Run(fs, p), img0, img, k - |p|);
    } else {
      RevalidateStop(Run(Run(fs, p), GuardOps), ids, img, k - |p| - 3);
    }
  }

  lemma SaveInThree(ids: seq<string>, img: Image, rec: Name -> string)
    requires Index in img && forall i :: 0 <= i < |ids| ==> BucketFile(ids[i]) in img
    ensures SaveOps(ids, img, rec) == PrepareOps(ids, img, rec) + GuardOps + RevalidateOps(ids)
  {
  }

  lemma PrefixOfThree(fs: FS, p: seq<Op>, g: seq<Op>, r: seq<Op>, k: nat)
    requires k <= |p + g + r|
    ensures k <= |p| ==> Run(fs, (p + g + r)[..k]) == Run(fs, p[..k])
    ensures |p| < k < |p| + |g| ==> Run(fs, (p + g + r)[..k]) == Run(Run(fs, p), g[..k - |p|])
    ensures |p| + |g| <= k ==> Run(fs, (p + g + r)[..k]) == Run(Run(Run(fs, p), g), r[..k - |p| - |g|])
  {
    hide Run;
    assert p + g + r == p + (g + r);
    PrefixConcat(p, g + r, k);
    if |p| < k < |p| + |g| {
      PrefixConcat(g, r, k - |p|);
      RunConcat(fs, p, g[..k - |p|]);
    } else if k >= |p| + |g| {
      PrefixConcat(p + g, r, k);
      RunConcat(fs, p, g);
      RunConcat(fs, p + g, r[..k - |p + g|]);
    }
  }

  lemma PrepareStop(fs: FS, ids0: seq<string>, img0: Image, ids: seq<string>, img: Image, rec: Name -> string, k: nat)
    requires Steady(fs, img0) && ImageFor(ids0, img0) && Dumpable(ids, img, rec) && k <= |PrepareOps(ids, img, rec)|
    ensures Steady(Run(fs, PrepareOps(ids, img, rec)[..k]), img0)
  {
    hide PrepareOps, Steady, Run, ImageFor;
    NamesOf(ids0, img0);
    PrepareOpsShape(ids, img, rec);
    SteadyRun(fs, img0, PrepareOps(ids, img, rec)[..k]);
  }

  /** The texts the next load reads after a save has failed. */
  function LeftBy(img0: Image, ids: seq<string>, img: Image, rec: Name -> string, k: nat): Image
    requires Index in img && forall i :: 0 <= i < |ids| ==> BucketFile(ids[i]) in img
  {
    if k <= |PrepareOps(ids, img, rec)| then img0 else img
  }

  /** After a failed save the old database is read until the guard is created, and the new one from then on. */
  lemma FailedSaveReads(fs: FS, ids0: seq<string>, img0: Image, ids: seq<string>, img: Image, rec: Name -> string, k: nat)
    requires Steady(fs, img0) && ImageFor(ids0, img0) && Dumpable(ids, img, rec) && k <= |SaveOps(ids, img, rec)|
    ensures Reads(Run(fs, SaveOps(ids, img, rec)[..k]), LeftBy(img0, ids, img, rec, k))
  {
    hide Run, SaveOps, PrepareOps, RelinkOps, ImageFor, Reads, Steady, DonePhase, NewPhase;
    SaveStop(fs, ids0, img0, ids, img, rec, k);
    StopReads(Run(fs, SaveOps(ids, img, rec)[..k]), img0, img);
  }

  lemma StopReads(fs: FS, img0: Image, img: Image)
    ensures Steady(fs, img0) ==> Reads(fs, img0)
    ensures GuardInDoubt(fs, img0, img) || NewPhase(fs, img) || UnguardInDoubt(fs, img) || DonePhase(fs, img) ==> Reads(fs, img)
  {
    if Steady(fs, img0) { RecoverableReads(fs, img0); }
    if NewPhase(fs, img) || DonePhase(fs, img) { RecoverableReads(fs, img); }
    if GuardInDoubt(fs, img0, img) {
      forall n | n in img ensures Content(fs, Backup(n)) == Some(img[n]) { assert Durable(fs, Backup(n), img[n]); }
    }
    if UnguardInDoubt(fs, img) {
      forall n | n in img ensures Content(fs, n) == Some(img[n]) { assert Durable(fs, n, img[n]); }
    }
  }

  // ----- a load after a failure -----

  lemma NotSafe(fs: FS, ops: seq<Op>, imgs: set<Image>, k: nat, c: FS)
    requires k <= |ops| && CrashOf(Run(fs, ops[..k]), c) && forall img :: img in imgs ==> !Reads(c, img)
    ensures !SafeRun(fs, ops, imgs)
  {
    hide CrashOf, Reads;
    if SafeRun(fs, ops, imgs) {
      SafePrefix(fs, ops, imgs, k);
    }
  }

  /** A crash in `d` that keeps everything but the entries given in `chosen`. */
  lemma CrashWith(d: FS, chosen: map<Name, Option<Inode>>) returns (c: FS)
    requires WF(d) && forall n :: n in chosen ==> chosen[n] in MayBe(d, n)
    ensures CrashOf(d, c) && c.data == d.data
    ensures forall n :: Look(c, n) == if n in chosen then chosen[n] else Look(d, n)
  {
    var kept := map n | n in d.dir && n !in chosen :: d.dir[n];
    var forced := map n | n in chosen && chosen[n].Some? :: chosen[n].value;
    c := d.(dir := kept + forced, maybe := map[], dirty := {});
    forall n
      ensures Look(c, n) == if n in chosen then chosen[n] else Look(d, n)
    {
    }
    forall n: Name
      ensures Look(c, n) in MayBe(d, n)
    {
    }
  }

  lemma {:induction false} LinksKeepGuard(fs: FS, names: seq<Name>)
    requires WF(fs) && forall i :: 0 <= i < |names| ==> names[i] != Guard
    ensures var fs' := Run(fs, LinkOps(names)); WF(fs') && MayBe(fs', Guard) == MayBe(fs, Guard)
    decreases |names|
  {
    if names != [] {
      var rest, n := names[..|names| - 1], names[|names| - 1];
      assert names == rest + [n];
      hide Run, LinkOps, WF, Apply, MayBe;
      LinksKeepGuard(fs, rest);
      RunLinkSnoc(fs, rest, n);
      var a := Run(fs, LinkOps(rest));
      EntryOpKeepsGuard(a, Unlink(n));
      EntryOpKeepsGuard(Apply(a, Unlink(n)), Link(Backup(n), n));
    } else {
      RunNone(fs);
    }
  }

  lemma EntryOpKeepsGuard(fs: FS, op: Op)
    requires WF(fs) && ((op.Unlink? && op.name != Guard) || (op.Link? && op.target != Guard))
    ensures WF(Apply(fs, op)) && MayBe(Apply(fs, op), Guard) == MayBe(fs, Guard)
  {
    ApplyKeepsWF(fs, op);
  }

  /**
   The guard has been created and not synchronised, and a load begins to re-link.
   Once it has unlinked the index, a crash that loses the guard leaves neither
   database.
   */
  lemma GuardInDoubtLoses(fs: FS, img0: Image, ids: seq<string>, img: Image, listing: seq<Name>) returns (k: nat, c: FS)
    requires GuardInDoubt(fs, img0, img) && ImageFor(ids, img) && Index in img0
    ensures k <= |LoadOps(fs, ids, listing)| && CrashOf(Run(fs, LoadOps(fs, ids, listing)[..k]), c)
    ensures !Reads(c, img0) && !Reads(c, img)
  {
    hide WF, PrimaryDurable, BackupDurable, MayBe, Run, Apply, LinkOps, LoadOps;
    var names := FilesOf(ids);
    var buckets := names[..|ids|];
    k := |LinkOps(buckets)| + 1;
    LoadUnlinksIndex(fs, ids, listing);
    FilesInImage(ids, img);
    LinksKeepGuard(fs, buckets);
    RunSnoc(fs, LinkOps(buckets), Unlink(Index));
    c := LoseGuardAndIndex(Run(fs, LinkOps(buckets)));
    assert names[|ids|] == Index;
  }

  lemma LoseGuardAndIndex(a: FS) returns (c: FS)
    requires WF(a) && None in MayBe(a, Guard)
    ensures CrashOf(Apply(a, Unlink(Index)), c) && Guard !in c.dir && Index !in c.dir
  {
    var d := Apply(a, Unlink(Index));
    ApplyKeepsWF(a, Unlink(Index));
    assert Look(d, Index) == None && Look(d, Index) in MayBe(d, Index);
    hide Apply, CrashOf;
    c := CrashWith(d, map[Guard := None, Index := None]);
    assert Look(c, Guard) == None && Look(c, Index) == None;
  }

  lemma LoadUnlinksIndex(fs: FS, ids: seq<string>, listing: seq<Name>)
    requires Guard in fs.dir
    ensures var links := LinkOps(FilesOf(ids)[..|ids|]);
            && |links| + 1 <= |LoadOps(fs, ids, listing)|
            && LoadOps(fs, ids, listing)[..|links| + 1] == links + [Unlink(Index)]
  {
    var names := FilesOf(ids);
    var links := LinkOps(names[..|ids|]);
    assert names[..|ids| + 1][..|ids|] == names[..|ids|];
    assert names[..|ids| + 1][|ids|] == Index;
    assert LinkOps(names[..|ids| + 1]) == links + [Unlink(Index), Link(Backup(Index), Index)];
    assert names[..|names| - 1] == names[..|ids| + 1];
  }

  /** Unlinking names leaves the doubt about names that were not there. */
  lemma {:induction false} UnlinksKeep(fs: FS, ops: seq<Op>, g: Name)
    requires WF(fs) && g !in fs.dir && forall i :: 0 <= i < |ops| ==> ops[i].Unlink?
    ensures var fs' := Run(fs, ops);
            && WF(fs') && fs'.data == fs.data && g !in fs'.dir && MayBe(fs', g) == MayBe(fs, g)
            && forall m :: m in fs'.dir ==> m in fs.dir && Unlink(m) !in ops
    decreases |ops|
  {
    if ops != [] {
      var fs' := Apply(fs, ops[0]);
      ApplyKeepsWF(fs, ops[0]);
      UnlinksKeep(fs', ops[1..], g);
      assert forall op :: op in ops <==> op == ops[0] || op in ops[1..];
    }
  }

  /**
   The guard has been unlinked and not synchronised, and a load cleans up.  A
   crash that brings the guard back then finds no backups.
   */
  lemma UnguardInDoubtLoses(fs: FS, ids: seq<string>, img: Image, listing: seq<Name>) returns (c: FS)
    requires UnguardInDoubt(fs, img) && ImageFor(ids, img) && forall n :: n in fs.dir ==> n in listing
    ensures CrashOf(Run(fs, LoadOps(fs, ids, listing)), c)
    ensures forall x: Image :: Checksum in x ==> !Reads(c, x)
  {
    var e :| e in MayBe(fs, Guard) && e.Some?;
    var ops := CleanOps(listing, ids);
    assert LoadOps(fs, ids, listing) == [] + ops == ops;
    BackupIsNotKept(ids, img);
    hide Run, LoadOps, CleanOps, ImageFor, PrimaryDurable, BackupDurable, Kept, CrashOf, WF, MayBe;
    InDoubtHasBackup(fs, img);
    CleanOpsShape(listing, ids);
    UnlinksKeep(fs, ops, Guard);
    c := GuardComesBack(Run(fs, ops), e);
  }

  lemma GuardComesBack(d: FS, e: Option<Inode>) returns (c: FS)
    requires WF(d) && e in MayBe(d, Guard) && e.Some? && Backup(Checksum) !in d.dir
    ensures CrashOf(d, c) && Guard in c.dir && Backup(Checksum) !in c.dir
  {
    hide CrashOf, WF;
    c := CrashWith(d, map[Guard := e]);
    assert Backup(Checksum)[0] == 'c';
    assert Look(c, Guard) == e && Look(c, Backup(Checksum)) == Look(d, Backup(Checksum));
  }

  lemma InDoubtHasBackup(fs: FS, img: Image)
    requires UnguardInDoubt(fs, img) && Checksum in img
    ensures Backup(Checksum) in fs.dir
  {
    assert Durable(fs, Backup(Checksum), img[Checksum]);
  }

  lemma BackupIsNotKept(ids: seq<string>, img: Image)
    requires ImageFor(ids, img)
    ensures !Kept(Backup(Checksum), ids) && Checksum in img
  {
    assert Backup(Checksum)[0] == 'c' && |Backup(Checksum)| > |Checksum| && Backup(Checksum)[..1] != "_";
    assert FilesOf(ids)[|ids| + 1] == Checksum;
  }

  ghost predicate CoversLoad(fs: FS, ids: seq<string>, listing: seq<Name>) {
    forall n :: n in Run(fs, FinishOps(fs, ids)).dir ==> n in listing
  }

  /**
   A load after a failed save, in the same boot.  A crash during it leaves one of
   the two databases, at every point, exactly if the save did not stop between
   creating the guard and synchronising it, nor between unlinking it and
   synchronising that.  In the exact cases the load ends steady on what it read.
   */
  lemma LoadAfterFailedSave(fs: FS, ids0: seq<string>, img0: Image, ids: seq<string>, img: Image, rec: Name -> string,
                            k: nat, ids': seq<string>, listing: seq<Name>)
    requires Steady(fs, img0) && ImageFor(ids0, img0) && Dumpable(ids, img, rec) && k <= |SaveOps(ids, img, rec)|
    requires ImageFor(ids', LeftBy(img0, ids, img, rec, k))
    requires CoversLoad(Run(fs, SaveOps(ids, img, rec)[..k]), ids', listing)
    ensures var fs' := Run(fs, SaveOps(ids, img, rec)[..k]);
            && (SafeRun(fs', LoadOps(fs', ids', listing), {img0, img}) <==> !SaveInDoubt(ids, img, rec, k))
            && (!SaveInDoubt(ids, img, rec, k) ==>
                  && AllEnabled(fs', LoadOps(fs', ids', listing))
                  && Steady(Run(fs', LoadOps(fs', ids', listing)), LeftBy(img0, ids, img, rec, k)))
  {
    hide Run, SaveOps, PrepareOps, RelinkOps, LoadOps, SafeRun, AllEnabled, ImageFor, CoversLoad;
    SaveStop(fs, ids0, img0, ids, img, rec, k);
    var fs' := Run(fs, SaveOps(ids, img, rec)[..k]);
    var left := LeftBy(img0, ids, img, rec, k);
    if SaveInDoubt(ids, img, rec, k) {
      DoubtfulLoadIsUnsafe(fs', ids0, img0, ids', img, listing);
    } else {
      assert Recoverable(fs', left);
      RecoverableLoad(fs', ids', left, listing, {img0, img});
    }
  }

  lemma RecoverableLoad(fs: FS, ids: seq<string>, img: Image, listing: seq<Name>, imgs: set<Image>)
    requires Recoverable(fs, img) && ImageFor(ids, img) && CoversLoad(fs, ids, listing) && img in imgs
    ensures SafeRun(fs, LoadOps(fs, ids, listing), imgs) && AllEnabled(fs, LoadOps(fs, ids, listing))
    ensures Steady(Run(fs, LoadOps(fs, ids, listing)), img)
  {
    hide Run, LoadOps, SafeRun, AllEnabled, ImageFor, Recoverable;
    LoadSafe(fs, ids, img, listing);
    SafeWeaken(fs, LoadOps(fs, ids, listing), {img}, imgs);
    LoadCompletes(fs, ids, img, listing);
  }

  lemma DoubtfulLoadIsUnsafe(fs: FS, ids0: seq<string>, img0: Image, ids: seq<string>, img: Image, listing: seq<Name>)
    requires GuardInDoubt(fs, img0, img) || UnguardInDoubt(fs, img)
    requires ImageFor(ids0, img0) && ImageFor(ids, img) && CoversLoad(fs, ids, listing)
    ensures !SafeRun(fs, LoadOps(fs, ids, listing), {img0, img})
  {
    BackupIsNotKept(ids0, img0);
    BackupIsNotKept(ids, img);
    var ops := LoadOps(fs, ids, listing);
    if GuardInDoubt(fs, img0, img) {
      assert FilesOf(ids0)[|ids0|] == Index;
      var k, c := GuardInDoubtLoses(fs, img0, ids, img, listing);
      hide LoadOps, Reads, CrashOf, Run;
      NotSafe(fs, ops, {img0, img}, k, c);
    } else {
      CoversHere(fs, ids, listing);
      var c := UnguardInDoubtLoses(fs, ids, img, listing);
      assert ops[..|ops|] == ops;
      hide LoadOps, Reads, CrashOf, Run;
      NotSafe(fs, ops, {img0, img}, |ops|, c);
    }
  }

  lemma CoversHere(fs: FS, ids: seq<string>, listing: seq<Name>)
    requires CoversLoad(fs, ids, listing) && Guard !in fs.dir
    ensures forall n :: n in fs.dir ==> n in listing
  {
  }

  /** A load that has stopped after `k` calls, with the guard unlinked and that not synchronised. */
  predicate LoadInDoubt(fs: FS, ids: seq<string>, k: nat) { Guard in fs.dir && k == |RelinkOps(ids)| + 1 }

  lemma LoadStop(fs: FS, ids: seq<string>, img: Image, listing: seq<Name>, k: nat)
    requires Recoverable(fs, img) && ImageFor(ids, img) && k <= |LoadOps(fs, ids, listing)|
    ensures var fs' := Run(fs, LoadOps(fs, ids, listing)[..k]);
            if LoadInDoubt(fs, ids, k) then UnguardInDoubt(fs', img) else Recoverable(fs', img)
  {
    hide Run, RevalidateOps, RelinkOps, SafeRun, AllEnabled, ImageFor, NewPhase, DonePhase, CleanOps, UnguardInDoubt;
    RecoverableReads(fs, img);
    var finish, clean := FinishOps(fs, ids), CleanOps(listing, ids);
    assert LoadOps(fs, ids, listing) == finish + clean;
    PrefixConcat(finish, clean, k);
    if k <= |finish| && Guard in fs.dir {
      RevalidateStop(fs, ids, img, k);
    } else {
      RelinkIsShorter(ids);
      FinishSafe(fs, ids, img);
      RunConcat(fs, finish, clean[..k - |finish|]);
      CleanStop(Run(fs, finish), ids, img, listing, k - |finish|);
    }
  }

  lemma RelinkIsShorter(ids: seq<string>)
    ensures |RelinkOps(ids)| + 2 <= |RevalidateOps(ids)|
  {
  }

  lemma CleanStop(fs: FS, ids: seq<string>, img: Image, listing: seq<Name>, j: nat)
    requires DonePhase(fs, img) && ImageFor(ids, img) && j <= |CleanOps(listing, ids)|
    ensures DonePhase(Run(fs, CleanOps(listing, ids)[..j]), img)
  {
    hide DonePhase;
    var ops := CleanOps(listing, ids);
    CleanOpsShape(listing, ids);
    forall i | 0 <= i < j ensures ops[i].name !in img { KeptIsInImage(ids, img, ops[i].name); }
    DonePhaseRun(fs, img, ops[..j]);
  }

  /**
   A load after a failed load, in the same boot: it reads the same texts, and a
   crash during it leaves them readable exactly if the first one did not stop
   between unlinking the guard and synchronising that.
   */
  lemma LoadAfterFailedLoad(fs: FS, ids: seq<string>, img: Image, listing: seq<Name>, k: nat,
                            ids': seq<string>, listing': seq<Name>)
    requires Recoverable(fs, img) && ImageFor(ids, img) && k <= |LoadOps(fs, ids, listing)| && ImageFor(ids', img)
    requires CoversLoad(Run(fs, LoadOps(fs, ids, listing)[..k]), ids', listing')
    ensures var fs' := Run(fs, LoadOps(fs, ids, listing)[..k]);
            && Reads(fs', img)
            && (SafeRun(fs', LoadOps(fs', ids', listing'), {img}) <==> !LoadInDoubt(fs, ids, k))
            && (!LoadInDoubt(fs, ids, k) ==> Steady(Run(fs', LoadOps(fs', ids', listing')), img))
  {
    hide Run, LoadOps, SafeRun, AllEnabled, ImageFor, Recoverable, UnguardInDoubt, CoversLoad, LoadInDoubt, Reads;
    LoadStop(fs, ids, img, listing, k);
    var fs' := Run(fs, LoadOps(fs, ids, listing)[..k]);
    if LoadInDoubt(fs, ids, k) {
      StopReads(fs', img, img);
      DoubtfulLoadIsUnsafe(fs', ids', img, ids', img, listing');
      assert {img, img} == {img};
    } else {
      RecoverableReads(fs', img);
      RecoverableLoad(fs', ids', img, listing', {img});
    }
  }

  // ----- a save after a failed save, without a load in between -----

  /** Truncating the backup of the checksums can damage what a load will read. */
  ghost predicate ChecksumExposed(fs: FS) {
    && WF(fs) && Backup(Checksum) in fs.dir
    && ((exists e :: e in MayBe(fs, Guard) && e.Some?) ||
        (Guard !in fs.dir && Look(fs, Checksum) == Look(fs, Backup(Checksum))))
  }

  lemma TruncateExposed(fs: FS, junk: string) returns (c: FS)
    requires ChecksumExposed(fs)
    ensures CrashOf(Apply(fs, OpenTrunc(Backup(Checksum))), c)
    ensures forall x: Image :: Checksum in x && x[Checksum] != junk ==> !Reads(c, x)
  {
    var op := OpenTrunc(Backup(Checksum));
    var d, inode := Apply(fs, op), fs.dir[Backup(Checksum)];
    ApplyKeepsWF(fs, op);
    assert d.dir == fs.dir && d.maybe == fs.maybe && inode in d.dirty && inode in d.data;
    var kept: FS;
    if e :| e in MayBe(fs, Guard) && e.Some? {
      hide Apply;
      kept := CrashWith(d, map[Guard := e]);
      assert Look(kept, Guard) == e && Look(kept, Backup(Checksum)) == Look(d, Backup(Checksum)) by { assert Backup(Checksum)[0] == 'c'; }
    } else {
      hide Apply;
      kept := CrashWith(d, map[]);
      assert Look(kept, Guard) == Look(d, Guard) && Look(kept, Checksum) == Look(d, Checksum);
    }
    hide WF, Apply;
    c := kept.(data := kept.data[inode := junk]);
    CrashGarbled(d, kept, inode, junk);
  }

  lemma CrashGarbled(d: FS, kept: FS, inode: Inode, junk: string)
    requires CrashOf(d, kept) && inode in d.dirty && inode in kept.data
    ensures CrashOf(d, kept.(data := kept.data[inode := junk]))
  {
    var c := kept.(data := kept.data[inode := junk]);
    assert forall n: Name :: Look(c, n) == Look(kept, n);
  }

  lemma StoppedSaveIsExposed(fs: FS, ids0: seq<string>, img0: Image, ids: seq<string>, img: Image, rec: Name -> string, k: nat)
    requires Steady(fs, img0) && ImageFor(ids0, img0) && Dumpable(ids, img, rec)
    requires |PrepareOps(ids, img, rec)| < k < |SaveOps(ids, img, rec)|
    ensures ChecksumExposed(Run(fs, SaveOps(ids, img, rec)[..k]))
  {
    hide Run, SaveOps, PrepareOps, RelinkOps, PrimaryDurable, ImageFor;
    SaveStop(fs, ids0, img0, ids, img, rec, k);
    var fs' := Run(fs, SaveOps(ids, img, rec)[..k]);
    assert Look(fs', Guard) in MayBe(fs', Guard);
    if k <= CommitPoint(ids, img, rec) + |RelinkOps(ids)| + 1 {
      assert Durable(fs', Backup(Checksum), img[Checksum]);
      assert exists e :: e in MayBe(fs', Guard) && e.Some? by {
        if Guard in fs'.dir { assert Some(fs'.dir[Guard]) in MayBe(fs', Guard); }
      }
    }
  }

  /**
   The load after an interrupted save is not optional.  Once the first save has
   created the guard, and until it has made its last call, the first call of a
   second save damages a checksum file that the next load may depend on: a crash
   there leaves a directory from which no database is read whose checksum text is
   not `junk`, which may be any text.
   */
  lemma SaveWithoutLoadLosesBoth(fs: FS, ids0: seq<string>, img0: Image, ids: seq<string>, img: Image,
                                 rec: Name -> string, k: nat, junk: string)
    returns (c: FS)
    requires Steady(fs, img0) && ImageFor(ids0, img0) && Dumpable(ids, img, rec)
    requires |PrepareOps(ids, img, rec)| < k < |SaveOps(ids, img, rec)|
    ensures CrashOf(Apply(Run(fs, SaveOps(ids, img, rec)[..k]), OpenTrunc(Backup(Checksum))), c)
    ensures forall x: Image :: Checksum in x && x[Checksum] != junk ==> !Reads(c, x)
  {
    hide Run, SaveOps, PrepareOps, ImageFor, ChecksumExposed, Steady, CrashOf, Apply;
    StoppedSaveIsExposed(fs, ids0, img0, ids, img, rec, k);
    c := TruncateExposed(Run(fs, SaveOps(ids, img, rec)[..k]), junk);
  }

  lemma TextBeside(a: string, b: string, c: string) returns (junk: string)
    ensures junk != a && junk != b && junk != c
  {
    junk := a + b + c + "x";
  }

  /**
   A second save without a load in between is crash-safe exactly if the first one
   stopped before creating the guard, or made all of its calls.
   */
  lemma SecondSaveIsSafeIff(fs: FS, ids0: seq<string>, img0: Image, ids: seq<string>, img: Image, rec: Name -> string, k: nat,
                            ids2: seq<string>, img2: Image, rec2: Name -> string)
    requires Steady(fs, img0) && ImageFor(ids0, img0) && Dumpable(ids, img, rec) && k <= |SaveOps(ids, img, rec)|
    requires Dumpable(ids2, img2, rec2)
    ensures SafeRun(Run(fs, SaveOps(ids, img, rec)[..k]), SaveOps(ids2, img2, rec2), {img0, img, img2})
       <==> k <= |PrepareOps(ids, img, rec)| || k == |SaveOps(ids, img, rec)|
  {
    hide Run, SafeRun, PrepareOps, SaveOps, ImageFor, Steady, Reads, CrashOf, Apply;
    var fs', ops2 := Run(fs, SaveOps(ids, img, rec)[..k]), SaveOps(ids2, img2, rec2);
    if k <= |PrepareOps(ids, img, rec)| {
      SaveStop(fs, ids0, img0, ids, img, rec, k);
      SaveIsSafe(fs', ids0, img0, ids2, img2, rec2, {img0, img, img2});
    } else if k == |SaveOps(ids, img, rec)| {
      SaveCompletes(fs, ids0, img0, ids, img, rec);
      assert SaveOps(ids, img, rec)[..k] == SaveOps(ids, img, rec);
      SaveIsSafe(fs', ids, img, ids2, img2, rec2, {img0, img, img2});
    } else {
      BackupIsNotKept(ids0, img0);
      var junk := TextBeside(img0[Checksum], img[Checksum], img2[Checksum]);
      var c := SaveWithoutLoadLosesBoth(fs, ids0, img0, ids, img, rec, k, junk);
      FirstCall(fs', ids2, img2, rec2);
      NotSafe(fs', ops2, {img0, img, img2}, 1, c);
    }
  }

  lemma SaveIsSafe(fs: FS, ids0: seq<string>, img0: Image, ids: seq<string>, img: Image, rec: Name -> string, imgs: set<Image>)
    requires Steady(fs, img0) && ImageFor(ids0, img0) && Dumpable(ids, img, rec) && img0 in imgs && img in imgs
    ensures SafeRun(fs, SaveOps(ids, img, rec), imgs)
  {
    hide Run, SafeRun, PrepareOps, RevalidateOps, ImageFor, Steady, SafeParts;
    SaveParts(fs, ids0, img0, ids, img, rec);
    SaveInThree(ids, img, rec);
    PartsCompose(fs, PrepareOps(ids, img, rec), GuardOps, RevalidateOps(ids), img0, img);
    SafeWeaken(fs, SaveOps(ids, img, rec), {img0, img}, imgs);
  }

  lemma FirstCall(fs: FS, ids: seq<string>, img: Image, rec: Name -> string)
    requires Index in img && forall i :: 0 <= i < |ids| ==> BucketFile(ids[i]) in img
    ensures |SaveOps(ids, img, rec)| >= 1
    ensures Run(fs, SaveOps(ids, img, rec)[..1]) == Apply(fs, OpenTrunc(Backup(Checksum)))
  {
    hide DumpBucketsOps, SyncOps, RevalidateOps;
    assert SaveOps(ids, img, rec)[..1] == [] + [OpenTrunc(Backup(Checksum))];
    RunSnoc(fs, [], OpenTrunc(Backup(Checksum)));
  }

  // ----- doubt about the guard -----

  /** The directory without the doubt about its guard: what is there counts. */
  function Clear(fs: FS): FS { fs.(maybe := fs.maybe - {Guard}) }

  /** There is no doubt about the guard. */
  ghost predicate Sure(fs: FS) { MayBe(fs, Guard) == {Look(fs, Guard)} }

  lemma ClearSetEntry(fs: FS, n: Name, e: Option<Inode>)
    ensures Clear(SetEntry(Clear(fs), n, e)) == Clear(SetEntry(fs, n, e))
  {
    var a, b := SetEntry(Clear(fs), n, e).maybe, SetEntry(fs, n, e).maybe;
    assert n != Guard ==> MayBe(Clear(fs), n) == MayBe(fs, n);
    assert a - {Guard} == b - {Guard};
  }

  lemma ClearApply(fs: FS, op: Op)
    ensures Clear(Apply(Clear(fs), op)) == Clear(Apply(fs, op)) && Enabled(Clear(fs), op) == Enabled(fs, op)
    ensures op == FsyncDir ==> Apply(Clear(fs), op) == Apply(fs, op)
  {
    hide SetEntry;
    assert fs.maybe - {Guard} - {Guard} == fs.maybe - {Guard};
    forall n, e ensures Clear(SetEntry(Clear(fs), n, e)) == Clear(SetEntry(fs, n, e)) { ClearSetEntry(fs, n, e); }
  }

  lemma {:induction false} ClearRun(fs: FS, ops: seq<Op>)
    ensures Clear(Run(Clear(fs), ops)) == Clear(Run(fs, ops)) && AllEnabled(Clear(fs), ops) == AllEnabled(fs, ops)
    ensures FsyncDir in ops ==> Run(Clear(fs), ops) == Run(fs, ops)
    decreases |ops|
  {
    if ops != [] {
      var a, b := Apply(Clear(fs), ops[0]), Apply(fs, ops[0]);
      ClearApply(fs, ops[0]);
      assert ops == [ops[0]] + ops[1..];
      hide Apply, Clear, Enabled;
      ClearRun(a, ops[1..]);
      ClearRun(b, ops[1..]);
    }
  }

  /** What is read, and what is durable, does not depend on the doubt about the guard. */
  lemma ClearKeeps(fs: FS, img: Image)
    ensures Reads(Clear(fs), img) <==> Reads(fs, img)
    ensures Steady(fs, img) ==> Steady(Clear(fs), img)
    ensures Recoverable(fs, img) ==> Recoverable(Clear(fs), img)
  {
    ClearLooks(fs);
    if Steady(fs, img) || Recoverable(fs, img) { ClearDurable(fs, img); }
  }

  lemma ClearLooks(fs: FS)
    ensures forall n :: n != Guard || Sure(fs) ==> MayBe(Clear(fs), n) == MayBe(fs, n)
    ensures WF(fs) ==> WF(Clear(fs))
    ensures Sure(fs) && WF(Clear(fs)) ==> WF(fs)
    ensures Sure(Clear(fs))
  {
    assert forall n :: n in fs.maybe ==> n == Guard || n in Clear(fs).maybe;
    assert Sure(fs) && Guard in fs.maybe ==> fs.maybe[Guard] == {Look(fs, Guard)};
    assert forall n :: Look(Clear(fs), n) == Look(fs, n);
  }

  lemma ClearDurable(fs: FS, img: Image)
    ensures PrimaryDurable(fs, img) ==> PrimaryDurable(Clear(fs), img)
    ensures BackupDurable(fs, img) ==> BackupDurable(Clear(fs), img)
  {
    forall n, t | Durable(fs, n, t) ensures Durable(Clear(fs), n, t) {
    }
  }

  lemma SureKeeps(fs: FS, img: Image)
    requires Sure(fs)
    ensures Steady(Clear(fs), img) ==> Steady(fs, img)
    ensures Recoverable(Clear(fs), img) ==> Recoverable(fs, img)
  {
    ClearLooks(fs);
    forall n, t | Durable(Clear(fs), n, t) ensures Durable(fs, n, t) {
    }
  }

  /** The guard, where it is in doubt, is taken at its word. */
  lemma DoubtIsRecoverable(fs: FS, img0: Image, img: Image)
    requires GuardInDoubt(fs, img0, img) || UnguardInDoubt(fs, img)
    ensures Recoverable(Clear(fs), img)
  {
    ClearLooks(fs);
    ClearDurable(fs, img);
  }

  lemma LoadsAlike(fs: FS, ids: seq<string>, listing: seq<Name>)
    ensures LoadOps(Clear(fs), ids, listing) == LoadOps(fs, ids, listing)
    ensures CoversLoad(fs, ids, listing) ==> CoversLoad(Clear(fs), ids, listing)
  {
    ClearRun(fs, FinishOps(fs, ids));
    assert Run(Clear(fs), FinishOps(fs, ids)).dir == Clear(Run(fs, FinishOps(fs, ids))).dir;
  }

  lemma RevalidateSynchronises(ids: seq<string>)
    ensures FsyncDir in RevalidateOps(ids)
  {
    hide LinkOps, DropOps, SyncOps;
    assert UnguardOps[1] == FsyncDir;
  }

  /**
   An undisturbed load settles a guard that was created and not synchronised: it
   reads the new texts, makes no failing call and ends steady on them.
   */
  lemma LoadSettlesTheGuard(fs: FS, img0: Image, ids: seq<string>, img: Image, listing: seq<Name>)
    requires GuardInDoubt(fs, img0, img) && ImageFor(ids, img) && CoversLoad(fs, ids, listing)
    ensures Reads(fs, img) && Steady(Run(fs, LoadOps(fs, ids, listing)), img) && AllEnabled(fs, LoadOps(fs, ids, listing))
  {
    var ops := LoadOps(fs, ids, listing);
    assert ops == RevalidateOps(ids) + CleanOps(listing, ids);
    LoadsAlike(fs, ids, listing);
    hide Run, LoadOps, RevalidateOps, CleanOps, Clear, ImageFor, GuardInDoubt, Reads, Recoverable, AllEnabled, Steady;
    StopReads(fs, img0, img);
    RevalidateSynchronises(ids);
    DoubtIsRecoverable(fs, img0, img);
    ClearRun(fs, ops);
    LoadCompletes(Clear(fs), ids, img, listing);
  }

  // ----- whole runs -----

  /** One save or load: completed, stopped by a failure, or cut short by a crash. */
  datatype Event =
    | Saved(ids: seq<string>, img: Image, rec: Name -> string)
    | SaveFailed(ids: seq<string>, img: Image, rec: Name -> string, calls: nat)
    | SaveCrashed(ids: seq<string>, img: Image, rec: Name -> string, calls: nat, after: FS)
    | Loaded(ids: seq<string>, listing: seq<Name>)
    | LoadFailed(ids: seq<string>, listing: seq<Name>, calls: nat)
    | LoadCrashed(ids: seq<string>, listing: seq<Name>, calls: nat, after: FS)

  /** The service is running on a directory, or it has to load one first. */
  datatype Machine = Up(fs: FS) | Down(fs: FS)

  /** The databases that a save can have left when it failed after `k` calls. */
  function LeftByFailure(imgs: set<Image>, ids: seq<string>, img: Image, rec: Name -> string, k: nat): set<Image>
    requires Index in img && forall i :: 0 <= i < |ids| ==> BucketFile(ids[i]) in img
  {
    if k <= |PrepareOps(ids, img, rec)| then imgs else {img}
  }

  /** The databases that a save can have left which a crash stopped after `k` calls. */
  function LeftByCrash(imgs: set<Image>, ids: seq<string>, img: Image, rec: Name -> string, k: nat): set<Image>
    requires Index in img && forall i :: 0 <= i < |ids| ==> BucketFile(ids[i]) in img
  {
    if k <= |PrepareOps(ids, img, rec)| then imgs
    else if k >= CommitPoint(ids, img, rec) then {img}
    else imgs + {img}
  }

  /**
   After the calls `ops` a crash finds no doubt about the guard that was there
   before them: there was none, or the directory has been synchronised since.
   */
  ghost predicate DoubtIsOver(fs: FS, ops: seq<Op>) { Sure(fs) || FsyncDir in ops }

  /**
   The run of `events` is possible from `m`, ends in `m'`, and `imgs` are the
   databases it can have left.  Saves need a loaded database; one that failed
   before creating the guard may be followed by another one, and after any later
   failure there has to be a load.  The service may be restarted, and load, at
   any time.  Operations may fail after any call.  They may also be cut short by a
   crash after any call, except that the doubt which an earlier failure may have
   left about the guard has to be over.
   */
  ghost predicate Execution(m: Machine, imgs: set<Image>, events: seq<Event>, m': Machine, imgs': set<Image>)
    decreases |events|
  {
    if events == [] then m' == m && imgs' == imgs
    else
      match events[0]
      case Saved(ids, img, rec) =>
        && m.Up? && Dumpable(ids, img, rec)
        && Execution(Up(Run(m.fs, SaveOps(ids, img, rec))), {img}, events[1..], m', imgs')
      case SaveFailed(ids, img, rec, k) =>
        && m.Up? && Dumpable(ids, img, rec) && k <= |SaveOps(ids, img, rec)|
        && var fs := Run(m.fs, SaveOps(ids, img, rec)[..k]);
        Execution(if k <= |PrepareOps(ids, img, rec)| then Up(fs) else Down(fs), LeftByFailure(imgs, ids, img, rec, k),
                  events[1..], m', imgs')
      case SaveCrashed(ids, img, rec, k, c) =>
        && m.Up? && Dumpable(ids, img, rec) && k <= |SaveOps(ids, img, rec)|
        && DoubtIsOver(m.fs, SaveOps(ids, img, rec)[..k]) && CrashOf(Run(m.fs, SaveOps(ids, img, rec)[..k]), c)
        && Execution(Down(c), LeftByCrash(imgs, ids, img, rec, k), events[1..], m', imgs')
      case Loaded(ids, listing) =>
        && ReadIds(m.fs, imgs, ids) && CoversLoad(m.fs, ids, listing)
        && Execution(Up(Run(m.fs, LoadOps(m.fs, ids, listing))), imgs, events[1..], m', imgs')
      case LoadFailed(ids, listing, k) =>
        && ReadIds(m.fs, imgs, ids) && k <= |LoadOps(m.fs, ids, listing)|
        && Execution(Down(Run(m.fs, LoadOps(m.fs, ids, listing)[..k])), imgs, events[1..], m', imgs')
      case LoadCrashed(ids, listing, k, c) =>
        && ReadIds(m.fs, imgs, ids) && k <= |LoadOps(m.fs, ids, listing)|
        && DoubtIsOver(m.fs, LoadOps(m.fs, ids, listing)[..k]) && CrashOf(Run(m.fs, LoadOps(m.fs, ids, listing)[..k]), c)
        && Execution(Down(c), imgs, events[1..], m', imgs')
  }

  /** A load works with the bucket ids of the database it reads. */
  ghost predicate ReadIds(fs: FS, imgs: set<Image>, ids: seq<string>) {
    forall img :: img in imgs && Reads(fs, img) ==> ImageFor(ids, img)
  }

  /** The database on `m`, which is one of `imgs`; the guard may be in doubt. */
  ghost predicate Holds(m: Machine, img: Image) {
    match m
    case Up(fs) => Steady(Clear(fs), img)
    case Down(fs) => Recoverable(Clear(fs), img)
  }

  ghost predicate Intact(m: Machine, imgs: set<Image>) {
    exists img, ids :: img in imgs && Holds(m, img) && ImageFor(ids, img)
  }

  lemma HoldsIsRecoverable(m: Machine, img: Image)
    requires Holds(m, img)
    ensures Recoverable(Clear(m.fs), img) && Reads(m.fs, img)
  {
    RecoverableReads(Clear(m.fs), img);
    ClearKeeps(m.fs, img);
  }

  /** A failed save, started without doubt, leaves what the next load reads, with the guard taken at its word. */
  lemma SaveStopHolds(fs: FS, ids0: seq<string>, img0: Image, ids: seq<string>, img: Image, rec: Name -> string, k: nat)
    requires Steady(fs, img0) && ImageFor(ids0, img0) && Dumpable(ids, img, rec) && k <= |SaveOps(ids, img, rec)|
    ensures var fs' := Run(fs, SaveOps(ids, img, rec)[..k]);
            if k <= |PrepareOps(ids, img, rec)| then Holds(Up(fs'), img0) else Holds(Down(fs'), img)
  {
    hide Run, SaveOps, PrepareOps, RelinkOps, ImageFor, Steady, NewPhase, DonePhase, GuardInDoubt, UnguardInDoubt, Clear;
    SaveStop(fs, ids0, img0, ids, img, rec, k);
    var fs' := Run(fs, SaveOps(ids, img, rec)[..k]);
    ClearKeeps(fs', img0);
    ClearKeeps(fs', img);
    if GuardInDoubt(fs', img0, img) || UnguardInDoubt(fs', img) { DoubtIsRecoverable(fs', img0, img); }
  }

  lemma LoadStopHolds(fs: FS, ids: seq<string>, img: Image, listing: seq<Name>, k: nat)
    requires Recoverable(fs, img) && ImageFor(ids, img) && k <= |LoadOps(fs, ids, listing)|
    ensures Holds(Down(Run(fs, LoadOps(fs, ids, listing)[..k])), img)
  {
    hide Run, LoadOps, ImageFor, Recoverable, UnguardInDoubt, Clear, LoadInDoubt;
    LoadStop(fs, ids, img, listing, k);
    var fs' := Run(fs, LoadOps(fs, ids, listing)[..k]);
    ClearKeeps(fs', img);
    if UnguardInDoubt(fs', img) { DoubtIsRecoverable(fs', img, img); }
  }

  /** What an operation does to a directory with a doubtful guard is what it does to the same without the doubt. */
  lemma HoldsAnyway(fs: FS, ops: seq<Op>, img: Image)
    ensures Holds(Up(Run(Clear(fs), ops)), img) <==> Holds(Up(Run(fs, ops)), img)
    ensures Holds(Down(Run(Clear(fs), ops)), img) <==> Holds(Down(Run(fs, ops)), img)
  {
    hide Run, Clear, Steady, Recoverable;
    ClearRun(fs, ops);
  }

  // ----- one event keeps a complete database, and one that the run accounts for -----

  lemma SavedKeeps(fs: FS, imgs: set<Image>, ids: seq<string>, img: Image, rec: Name -> string)
    requires Intact(Up(fs), imgs) && Dumpable(ids, img, rec)
    ensures Intact(Up(Run(fs, SaveOps(ids, img, rec))), {img})
  {
    hide Run, SaveOps, ImageFor, Steady, Clear;
    var img0, ids0 :| img0 in imgs && Holds(Up(fs), img0) && ImageFor(ids0, img0);
    SaveCompletes(Clear(fs), ids0, img0, ids, img, rec);
    ClearKeeps(Run(Clear(fs), SaveOps(ids, img, rec)), img);
    HoldsAnyway(fs, SaveOps(ids, img, rec), img);
    assert img in {img} && Holds(Up(Run(fs, SaveOps(ids, img, rec))), img) && ImageFor(ids, img);
  }

  lemma SaveFailedKeeps(fs: FS, imgs: set<Image>, ids: seq<string>, img: Image, rec: Name -> string, k: nat)
    requires Intact(Up(fs), imgs) && Dumpable(ids, img, rec) && k <= |SaveOps(ids, img, rec)|
    ensures var fs' := Run(fs, SaveOps(ids, img, rec)[..k]);
            Intact(if k <= |PrepareOps(ids, img, rec)| then Up(fs') else Down(fs'), LeftByFailure(imgs, ids, img, rec, k))
  {
    hide Run, SaveOps, PrepareOps, ImageFor, Steady, Clear, Holds;
    var img0, ids0 :| img0 in imgs && Holds(Up(fs), img0) && ImageFor(ids0, img0);
    var ops := SaveOps(ids, img, rec)[..k];
    assert Steady(Clear(fs), img0) by { HoldsUp(fs, img0); }
    SaveStopHolds(Clear(fs), ids0, img0, ids, img, rec, k);
    HoldsAnyway(fs, ops, img0);
    HoldsAnyway(fs, ops, img);
    if k <= |PrepareOps(ids, img, rec)| {
      assert Holds(Up(Run(fs, ops)), img0);
    } else {
      assert Holds(Down(Run(fs, ops)), img) && ImageFor(ids, img);
    }
  }

  lemma HoldsUp(fs: FS, img: Image)
    requires Holds(Up(fs), img)
    ensures Steady(Clear(fs), img)
  {
  }

  /** A crash with the doubt over is a crash of the operation on a directory without doubt. */
  lemma CrashAnyway(fs: FS, ops: seq<Op>, c: FS)
    requires DoubtIsOver(fs, ops) && CrashOf(Run(fs, ops), c)
    ensures Sure(fs) || CrashOf(Run(Clear(fs), ops), c)
  {
    hide Run, Clear, CrashOf, Sure;
    ClearRun(fs, ops);
  }

  lemma SaveCrashedKeeps(fs: FS, imgs: set<Image>, ids: seq<string>, img: Image, rec: Name -> string, k: nat, c: FS)
    requires Intact(Up(fs), imgs) && Dumpable(ids, img, rec) && k <= |SaveOps(ids, img, rec)|
    requires DoubtIsOver(fs, SaveOps(ids, img, rec)[..k]) && CrashOf(Run(fs, SaveOps(ids, img, rec)[..k]), c)
    ensures Intact(Down(c), LeftByCrash(imgs, ids, img, rec, k))
  {
    assert Booted(c);
    hide Run, SaveOps, PrepareOps, ImageFor, Steady, Recoverable, Reads, Clear, Sure, CrashOf;
    var img0, ids0 :| img0 in imgs && Holds(Up(fs), img0) && ImageFor(ids0, img0);
    CrashAnyway(fs, SaveOps(ids, img, rec)[..k], c);
    if Sure(fs) {
      SureKeeps(fs, img0);
      SaveIsAtomic(fs, ids0, img0, ids, img, rec, k, c);
    } else {
      SaveIsAtomic(Clear(fs), ids0, img0, ids, img, rec, k, c);
    }
    if img in LeftByCrash(imgs, ids, img, rec, k) && Reads(c, img) {
      BootedHolds(c, img);
      assert Holds(Down(c), img) && ImageFor(ids, img);
    } else {
      BootedHolds(c, img0);
      assert img0 in LeftByCrash(imgs, ids, img, rec, k) && Holds(Down(c), img0);
    }
  }

  lemma BootedHolds(fs: FS, img: Image)
    requires Booted(fs) && Reads(fs, img)
    ensures Holds(Down(fs), img)
  {
    hide Recoverable, Clear, Reads;
    BootedIsRecoverable(fs, img);
    ClearKeeps(fs, img);
  }

  lemma LoadedKeeps(m: Machine, imgs: set<Image>, ids: seq<string>, listing: seq<Name>)
    requires Intact(m, imgs) && ReadIds(m.fs, imgs, ids) && CoversLoad(m.fs, ids, listing)
    ensures Intact(Up(Run(m.fs, LoadOps(m.fs, ids, listing))), imgs)
  {
    LoadsAlike(m.fs, ids, listing);
    hide Run, LoadOps, ImageFor, Steady, Recoverable, Reads, Clear;
    var img0, ids0 :| img0 in imgs && Holds(m, img0) && ImageFor(ids0, img0);
    HoldsIsRecoverable(m, img0);
    var ops := LoadOps(m.fs, ids, listing);
    LoadCompletes(Clear(m.fs), ids, img0, listing);
    ClearKeeps(Run(Clear(m.fs), ops), img0);
    HoldsAnyway(m.fs, ops, img0);
    assert Holds(Up(Run(m.fs, ops)), img0);
  }

  lemma LoadFailedKeeps(m: Machine, imgs: set<Image>, ids: seq<string>, listing: seq<Name>, k: nat)
    requires Intact(m, imgs) && ReadIds(m.fs, imgs, ids) && k <= |LoadOps(m.fs, ids, listing)|
    ensures Intact(Down(Run(m.fs, LoadOps(m.fs, ids, listing)[..k])), imgs)
  {
    LoadsAlike(m.fs, ids, listing);
    hide Run, LoadOps, ImageFor, Steady, Recoverable, Reads, Clear;
    var img0, ids0 :| img0 in imgs && Holds(m, img0) && ImageFor(ids0, img0);
    HoldsIsRecoverable(m, img0);
    LoadStopHolds(Clear(m.fs), ids, img0, listing, k);
    HoldsAnyway(m.fs, LoadOps(m.fs, ids, listing)[..k], img0);
    assert Holds(Down(Run(m.fs, LoadOps(m.fs, ids, listing)[..k])), img0);
  }

  lemma LoadCrashedKeeps(m: Machine, imgs: set<Image>, ids: seq<string>, listing: seq<Name>, k: nat, c: FS)
    requires Intact(m, imgs) && ReadIds(m.fs, imgs, ids) && k <= |LoadOps(m.fs, ids, listing)|
    requires DoubtIsOver(m.fs, LoadOps(m.fs, ids, listing)[..k]) && CrashOf(Run(m.fs, LoadOps(m.fs, ids, listing)[..k]), c)
    ensures Intact(Down(c), imgs)
  {
    LoadsAlike(m.fs, ids, listing);
    hide Run, LoadOps, ImageFor, Steady, Recoverable, Reads, CrashOf, Clear, Sure;
    var img0, ids0 :| img0 in imgs && Holds(m, img0) && ImageFor(ids0, img0);
    HoldsIsRecoverable(m, img0);
    CrashAnyway(m.fs, LoadOps(m.fs, ids, listing)[..k], c);
    if Sure(m.fs) {
      SureKeeps(m.fs, img0);
      LoadIsIdempotent(m.fs, ids, img0, listing, k, c);
    } else {
      LoadIsIdempotent(Clear(m.fs), ids, img0, listing, k, c);
    }
    BootedHolds(c, img0);
    assert Holds(Down(c), img0);
  }

  /**
   No run of saves, loads, failures and crashes ever leaves anything but a
   complete database, and it is one that the run can account for.
   */
  lemma {:induction false} EveryRunKeepsADatabase(m: Machine, imgs: set<Image>, events: seq<Event>,
                                                  m': Machine, imgs': set<Image>)
    requires Execution(m, imgs, events, m', imgs') && Intact(m, imgs)
    ensures Intact(m', imgs') && exists img :: img in imgs' && Reads(m'.fs, img)
    decreases |events|
  {
    hide Run, SaveOps, LoadOps, PrepareOps, ImageFor, Intact, CoversLoad, ReadIds, CrashOf, Reads,
      DoubtIsOver, LeftByFailure, LeftByCrash;
    if events == [] {
      IntactReads(m, imgs);
    } else {
      assert m.Up? ==> m == Up(m.fs);
      match events[0]
      case Saved(ids, img, rec) =>
        SavedKeeps(m.fs, imgs, ids, img, rec);
        EveryRunKeepsADatabase(Up(Run(m.fs, SaveOps(ids, img, rec))), {img}, events[1..], m', imgs');
      case SaveFailed(ids, img, rec, k) =>
        SaveFailedKeeps(m.fs, imgs, ids, img, rec, k);
        var fs := Run(m.fs, SaveOps(ids, img, rec)[..k]);
        EveryRunKeepsADatabase(if k <= |PrepareOps(ids, img, rec)| then Up(fs) else Down(fs),
                               LeftByFailure(imgs, ids, img, rec, k), events[1..], m', imgs');
      case SaveCrashed(ids, img, rec, k, c) =>
        SaveCrashedKeeps(m.fs, imgs, ids, img, rec, k, c);
        EveryRunKeepsADatabase(Down(c), LeftByCrash(imgs, ids, img, rec, k), events[1..], m', imgs');
      case Loaded(ids, listing) =>
        LoadedKeeps(m, imgs, ids, listing);
        EveryRunKeepsADatabase(Up(Run(m.fs, LoadOps(m.fs, ids, listing))), imgs, events[1..], m', imgs');
      case LoadFailed(ids, listing, k) =>
        LoadFailedKeeps(m, imgs, ids, listing, k);
        EveryRunKeepsADatabase(Down(Run(m.fs, LoadOps(m.fs, ids, listing)[..k])), imgs, events[1..], m', imgs');
      case LoadCrashed(ids, listing, k, c) =>
        LoadCrashedKeeps(m, imgs, ids, listing, k, c);
        EveryRunKeepsADatabase(Down(c), imgs, events[1..], m', imgs');
    }
  }

  lemma IntactReads(m: Machine, imgs: set<Image>)
    requires Intact(m, imgs)
    ensures exists img :: img in imgs && Reads(m.fs, img)
  {
    hide Reads;
    var img, ids :| img in imgs && Holds(m, img) && ImageFor(ids, img);
    HoldsIsRecoverable(m, img);
  }
}
