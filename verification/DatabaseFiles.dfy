/**
 Writing a database to its files through checksum streams, loading it back,
 and the two put together with the commit protocol: whatever happens during a
 save, the next load returns the old or the new database.
 */
module DatabaseFiles {
  import opened Collections
  import opened FileSystem
  import opened Commit
  import opened CrashSafety
  import opened Recovery
  import opened PolicyTypes
  import opened PolicyKeys
  import opened PolicyBuckets
  import opened DatabaseText

  // ----- writing -----

  datatype Flags = Flags(hex: bool, upper: bool)

  function LowerHexDigits(n: nat): string {
    var d := n % 16;
    var c := if d < 10 then (d + 48) as char else (d + 87) as char;
    if n < 16 then [c] else LowerHexDigits(n / 16) + [c]
  }

  function NumberText(f: Flags, t: PolicyType): string {
    if !f.hex then Decimal(t as nat)
    else if f.upper then HexDigits(t as nat) else LowerHexDigits(t as nat)
  }

  /** Every item goes to the file and to the buffer the checksum is computed from. */
  class ChecksumStream {
    const filename: string
    var out: string
    var buf: string
    var outFlags: Flags
    var bufFlags: Flags

    constructor (filename: string)
      ensures this.filename == filename && out == "" && buf == ""
      ensures outFlags == bufFlags == Flags(false, false)
    {
      this.filename := filename;
      out, buf := "", "";
      outFlags, bufFlags := Flags(false, false), Flags(false, false);
    }

    method Put(item: string)
      modifies this
      ensures out == old(out) + item && buf == old(buf) + item
      ensures outFlags == old(outFlags) && bufFlags == old(bufFlags)
    {
      buf := buf + item;
      out := out + item;
    }

    /** A number is rendered by each stream with that stream's own flags. */
    method PutNumber(t: PolicyType)
      modifies this
      ensures out == old(out) + NumberText(outFlags, t) && buf == old(buf) + NumberText(bufFlags, t)
      ensures outFlags == old(outFlags) && bufFlags == old(bufFlags)
    {
      buf := buf + NumberText(bufFlags, t);
      out := out + NumberText(outFlags, t);
    }

    method UpperHex()
      modifies this
      ensures out == old(out) && buf == old(buf) && outFlags == bufFlags == Flags(true, true)
    {
      bufFlags := Flags(true, true);
      outFlags := Flags(true, true);
    }

    /** Only the flags of the file stream are saved and restored. */
    method SetFlags(flags: Flags)
      modifies this
      ensures out == old(out) && buf == old(buf) && outFlags == flags && bufFlags == old(bufFlags)
    {
      outFlags := flags;
    }

    method DumpType(t: PolicyType)
      modifies this
      ensures out == old(out) + TypeText(t) && buf == old(buf) + TypeText(t)
      ensures outFlags == old(outFlags)
    {
      var oldFormat := outFlags;
      Put("0x");
      UpperHex();
      PutNumber(t);
      SetFlags(oldFormat);
      assert old(out) + "0x" + HexDigits(t as nat) == old(out) + TypeText(t);
      assert old(buf) + "0x" + HexDigits(t as nat) == old(buf) + TypeText(t);
    }

    method DumpResult(r: PolicyResult)
      modifies this
      ensures out == old(out) + (ResultText(r) + "\n") && buf == old(buf) + (ResultText(r) + "\n")
    {
      DumpType(r.policyType);
      Put(";");
      Put(r.metadata);
      Put("\n");
      assert out == old(out) + (ResultText(r) + "\n") && buf == old(buf) + (ResultText(r) + "\n");
    }

    method DumpPolicy(p: Policy)
      requires out == buf
      modifies this
      ensures out == old(out) + (PolicyLine(p) + "\n") && buf == out
    {
      var k := p.key;
      Put(k.client); Put(";"); Put(k.user); Put(";"); Put(k.privilege); Put(";");
      DumpResult(p.result);
      assert out == old(out) + (PolicyLine(p) + "\n");
    }

    /** The bytes of a bucket file, and the same bytes for its checksum. */
    method DumpBucket(ps: seq<Policy>)
      requires out == buf
      modifies this
      ensures out == old(out) + BucketText(ps) && buf == out
    {
      for i := 0 to |ps|
        invariant out == old(out) + BucketText(ps[..i]) && buf == out
      {
        DumpPolicy(ps[i]);
        assert ps[..i + 1] == ps[..i] + [ps[i]];
        PrintLinesSnoc(ps[..i], ps[i], PolicyLine);
      }
      assert ps[..|ps|] == ps;
    }

    method DumpHead(h: Head)
      requires out == buf
      modifies this
      ensures out == old(out) + (HeadLine(h) + "\n") && buf == out
    {
      Put(h.id); Put(";");
      DumpResult(h.defaultPolicy);
      assert out == old(out) + (HeadLine(h) + "\n");
    }

    method DumpIndex(heads: seq<Head>)
      requires out == buf
      modifies this
      ensures out == old(out) + IndexText(heads) && buf == out
    {
      for i := 0 to |heads|
        invariant out == old(out) + IndexText(heads[..i]) && buf == out
      {
        DumpHead(heads[i]);
        assert heads[..i + 1] == heads[..i] + [heads[i]];
        PrintLinesSnoc(heads[..i], heads[i], HeadLine);
      }
      assert heads[..|heads|] == heads;
    }

    /** The record written when the stream is destroyed. */
    method Save(sum: string -> string) returns (record: string)
      ensures out == buf ==> record == SumLine(Sum(filename, sum(out))) + "\n"
    {
      record := filename + ";" + sum(buf) + "\n";
    }
  }

  /** The orders in which hash maps were iterated during a dump. */
  datatype Layout = Layout(ids: seq<string>, order: map<string, seq<Policy>>)

  predicate Fits(lay: Layout, db: Database) {
    forall i :: 0 <= i < |lay.ids| ==> lay.ids[i] in db && lay.ids[i] in lay.order
  }

  ghost predicate LayoutOf(lay: Layout, db: Database) {
    && Fits(lay, db) && Enumerates(lay.ids, db)
    && (forall id :: id in db ==> id in lay.order && Lists(lay.order[id], db[id].policies))
  }

  ghost predicate StorableBucket(b: Bucket) {
    && Indexed(b.policies) && '\n' !in b.defaultPolicy.metadata
    && forall k :: k in b.policies ==> StorablePolicy(b.policies[k])
  }

  /** What the text format can represent: see the read-back theorem below. */
  ghost predicate Storable(db: Database) {
    && DefaultBucket in db
    && forall id :: id in db ==> db[id].id == id && ValidId(id) && FileId(id) && StorableBucket(db[id])
  }

  function Heads(ids: seq<string>, db: Database): (hs: seq<Head>)
    requires forall i :: 0 <= i < |ids| ==> ids[i] in db
    ensures |hs| == |ids|
    ensures forall i :: 0 <= i < |ids| ==> hs[i] == Head(ids[i], db[ids[i]].defaultPolicy)
  {
    seq(|ids|, i requires 0 <= i < |ids| => Head(ids[i], db[ids[i]].defaultPolicy))
  }

  /** The texts of the index and the buckets. */
  function Body(lay: Layout, db: Database): (m: map<Name, string>)
    requires Fits(lay, db)
    ensures Index in m && Checksum !in m
    ensures m[Index] == IndexText(Heads(lay.ids, db))
    ensures forall i :: 0 <= i < |lay.ids| ==>
              BucketFile(lay.ids[i]) in m && m[BucketFile(lay.ids[i])] == BucketText(lay.order[lay.ids[i]])
    ensures forall n :: n in m && n != Index ==> n in FilesOf(lay.ids) && n != Checksum
  {
    var buckets := map n | n in FilesOf(lay.ids) && |n| > 0 && n[0] == '_' && n[1..] in lay.order
                     :: BucketText(lay.order[n[1..]]);
    var m := buckets[Index := IndexText(Heads(lay.ids, db))];
    assert forall i :: 0 <= i < |lay.ids| ==>
        BucketFile(lay.ids[i])[1..] == lay.ids[i] && BucketFile(lay.ids[i]) in FilesOf(lay.ids) by {
      forall i | 0 <= i < |lay.ids|
        ensures BucketFile(lay.ids[i])[1..] == lay.ids[i] && BucketFile(lay.ids[i]) in FilesOf(lay.ids)
      {
        assert FilesOf(lay.ids)[i] == BucketFile(lay.ids[i]);
      }
    }
    m
  }

  /** The checksum record of each file. */
  function Recorder(body: map<Name, string>, sum: string -> string): Name -> string {
    n => SumLine(Sum(n, sum(if n in body then body[n] else ""))) + "\n"
  }

  function ImageOf(lay: Layout, db: Database, sum: string -> string): Image
    requires Fits(lay, db)
  {
    var body := Body(lay, db);
    var rec := Recorder(body, sum);
    body[Checksum := Records(lay.ids, rec) + rec(Index)]
  }

  lemma EnumeratedIds(ids: seq<string>, db: Database)
    requires Enumerates(ids, db) && Storable(db)
    ensures FileIds(ids)
  {
  }

  lemma BodyNames(lay: Layout, db: Database, n: Name)
    requires Fits(lay, db)
    ensures n in FilesOf(lay.ids) <==> n in Body(lay, db) || n == Checksum
  {
    var names := FilesOf(lay.ids);
    assert names[|lay.ids|] == Index && names[|lay.ids| + 1] == Checksum;
    if n in names {
      var i :| 0 <= i < |names| && names[i] == n;
      if i < |lay.ids| { assert n == BucketFile(lay.ids[i]); }
    }
  }

  /** What a dump writes is an image the commit protocol accepts. */
  lemma ImageIsDumpable(lay: Layout, db: Database, sum: string -> string)
    requires LayoutOf(lay, db) && Storable(db)
    ensures Dumpable(lay.ids, ImageOf(lay, db, sum), Recorder(Body(lay, db), sum))
  {
    EnumeratedIds(lay.ids, db);
    var img, body, rec := ImageOf(lay, db, sum), Body(lay, db), Recorder(Body(lay, db), sum);
    forall n ensures n in img <==> n in FilesOf(lay.ids) { BodyNames(lay, db, n); }
    assert ImageFor(lay.ids, img);
    assert img[Checksum] == Records(lay.ids, rec) + rec(Index);
    forall i | 0 <= i < |lay.ids| ensures BucketFile(lay.ids[i]) in img {
      assert FilesOf(lay.ids)[i] == BucketFile(lay.ids[i]);
    }
  }

  // ----- loading -----

  /** The texts a load sees: the backups while the guard exists, else the primaries. */
  function ReadFrom(fs: FS): Name -> Option<string> {
    n => Content(fs, if Guard in fs.dir then Backup(n) else n)
  }

  /** The policies of one bucket; a bucket file must exist, match its checksum and parse. */
  function LoadBucket(read: Name -> Option<string>, sum: string -> string, sums: seq<Sum>, id: string):
    Result<map<string, Policy>>
  {
    var file := BucketFile(id);
    match read(file)
    case None => Corrupted
    case Some(text) =>
      if SumOf(sums, file) != sum(text) then Corrupted
      else
        match ParsePolicies(text)
        case Corrupted => Corrupted
        case Ok(ps) => Ok(InsertPolicies(map[], ps))
  }

  /** Fills in the policies of every bucket of the index. */
  function Assemble(heads: map<string, PolicyResult>, load: string -> Result<map<string, Policy>>): Result<Database> {
    if forall id :: id in heads ==> load(id).Ok? then
      Ok(map id | id in heads :: Bucket(id, heads[id], load(id).value))
    else Corrupted
  }

  function LoadAll(read: Name -> Option<string>, sum: string -> string, sums: seq<Sum>,
                   heads: map<string, PolicyResult>): Result<Database>
  {
    Assemble(heads, id => LoadBucket(read, sum, sums, id))
  }

  function WithDefault(db: Database): Database {
    if DefaultBucket in db then db
    else db[DefaultBucket := Bucket(DefaultBucket, PolicyResult(DENY, ""), map[])]
  }

  /** A load, given the texts of the files and the checksum function. */
  function Load(read: Name -> Option<string>, sum: string -> string): Result<Database> {
    match read(Checksum)
    case None => Corrupted
    case Some(recorded) =>
      match ParseSums(recorded)
      case Corrupted => Corrupted
      case Ok(sums) =>
        match read(Index)
        case None => Corrupted
        case Some(index) =>
          if SumOf(sums, Index) != sum(index) then Corrupted
          else
            match ParseHeads(index)
            case Corrupted => Corrupted
            case Ok(heads) =>
              match LoadAll(read, sum, sums, HeadMap(heads))
              case Corrupted => Corrupted
              case Ok(db) => Ok(WithDefault(db))
  }

  method LoadPolicies(stream: string) returns (r: Result<seq<Policy>>)
    ensures r == ParsePolicies(stream)
  {
    r := ReadLines(stream, ParsePolicyLine, true);
  }

  /** Buckets are inserted in the order of the index; an id that is already there stays. */
  method InitBuckets(stream: string) returns (r: Result<map<string, PolicyResult>>)
    ensures ParseHeads(stream).Corrupted? ==> r == Corrupted
    ensures ParseHeads(stream).Ok? ==> r == Ok(HeadMap(ParseHeads(stream).value))
  {
    var heads := ReadLines(stream, ParseHeadLine, true);
    if heads.Corrupted? {
      return Corrupted;
    }
    var hs := heads.value;
    var buckets: map<string, PolicyResult> := map[];
    for i := 0 to |hs|
      invariant buckets == HeadMap(hs[..i])
    {
      assert hs[..i + 1][..i] == hs[..i];
      if hs[i].id !in buckets {
        buckets := buckets[hs[i].id := hs[i].defaultPolicy];
      }
    }
    assert hs[..|hs|] == hs;
    r := Ok(buckets);
  }

  method LoadOneBucket(read: Name -> Option<string>, sum: string -> string, sums: seq<Sum>, id: string)
    returns (r: Result<map<string, Policy>>)
    ensures r == LoadBucket(read, sum, sums, id)
  {
    var text := read(BucketFile(id));
    if text.None? || SumOf(sums, BucketFile(id)) != sum(text.value) {
      return Corrupted;
    }
    var loaded := LoadPolicies(text.value);
    if loaded.Corrupted? {
      return Corrupted;
    }
    var ps := loaded.value;
    var policies: map<string, Policy> := map[];
    for i := 0 to |ps|
      invariant policies == InsertPolicies(map[], ps[..i])
    {
      assert ps[..i + 1][..i] == ps[..i];
      policies := policies[GlueKey(ps[i].key) := ps[i]];
    }
    assert ps[..|ps|] == ps;
    r := Ok(policies);
  }

  lemma AssembledAll(heads: map<string, PolicyResult>, load: string -> Result<map<string, Policy>>, db: Database)
    requires db.Keys == heads.Keys
    requires forall id :: id in db ==> load(id).Ok? && db[id] == Bucket(id, heads[id], load(id).value)
    ensures Assemble(heads, load) == Ok(db)
  {
    assert db == map id | id in heads :: Bucket(id, heads[id], load(id).value);
  }

  /** The buckets are visited in any order. */
  method LoadBuckets(read: Name -> Option<string>, sum: string -> string, sums: seq<Sum>,
                     heads: map<string, PolicyResult>, ghost load: string -> Result<map<string, Policy>>)
    returns (r: Result<Database>)
    requires forall id :: id in heads ==> load(id) == LoadBucket(read, sum, sums, id)
    ensures r == Assemble(heads, load)
  {
    var db: Database := map[];
    var todo := heads.Keys;
    while todo != {}
      invariant todo <= heads.Keys && db.Keys == heads.Keys - todo
      invariant forall id :: id in db ==> load(id).Ok? && db[id] == Bucket(id, heads[id], load(id).value)
      decreases |todo|
    {
      var id :| id in todo;
      todo := todo - {id};
      var policies := LoadOneBucket(read, sum, sums, id);
      if policies.Corrupted? {
        assert id in heads && !load(id).Ok?;
        return Corrupted;
      }
      db := db[id := Bucket(id, heads[id], policies.value)];
    }
    AssembledAll(heads, load, db);
    r := Ok(db);
  }

  /** The load as a whole; the default bucket is added if the index does not have it. */
  method LoadDatabase(read: Name -> Option<string>, sum: string -> string) returns (r: Result<Database>)
    ensures r == Load(read, sum)
  {
    hide ParseLines, SumOf, HeadMap, LoadBucket;
    var recorded := read(Checksum);
    if recorded.None? {
      return Corrupted;
    }
    var sums := ReadLines(recorded.value, ParseSumLine, false);
    var index := read(Index);
    if sums.Corrupted? || index.None? || SumOf(sums.value, Index) != sum(index.value) {
      return Corrupted;
    }
    var heads := InitBuckets(index.value);
    if heads.Corrupted? {
      return Corrupted;
    }
    var buckets := LoadBuckets(read, sum, sums.value, heads.value, id => LoadBucket(read, sum, sums.value, id));
    if buckets.Corrupted? {
      return Corrupted;
    }
    var db := buckets.value;
    if DefaultBucket !in db {
      db := db[DefaultBucket := Bucket(DefaultBucket, PolicyResult(DENY, ""), map[])];
    }
    r := Ok(db);
  }

  // ----- reading back what was written -----

  /** Checksums are printable: hexadecimal digits, in the code. */
  ghost predicate PlainSum(sum: string -> string) {
    forall t :: sum(t) != "" && '\n' !in sum(t)
  }

  function SumsFor(ids: seq<string>, body: map<Name, string>, sum: string -> string): (r: seq<Sum>)
    requires Index in body && forall i :: 0 <= i < |ids| ==> BucketFile(ids[i]) in body
    ensures |r| == |ids| + 1
    ensures forall i :: 0 <= i < |ids| ==> r[i] == Sum(BucketFile(ids[i]), sum(body[BucketFile(ids[i])]))
    ensures r[|ids|] == Sum(Index, sum(body[Index]))
  {
    seq(|ids|, i requires 0 <= i < |ids| => Sum(BucketFile(ids[i]), sum(body[BucketFile(ids[i])])))
    + [Sum(Index, sum(body[Index]))]
  }

  lemma {:induction false} RecordsAreSums(ids: seq<string>, body: map<Name, string>, sum: string -> string)
    requires Index in body && forall i :: 0 <= i < |ids| ==> BucketFile(ids[i]) in body
    ensures Records(ids, Recorder(body, sum)) == SumsText(SumsFor(ids, body, sum)[..|ids|])
    decreases |ids|
  {
    if ids != [] {
      var n := |ids| - 1;
      RecordsAreSums(ids[..n], body, sum);
      var s := SumsFor(ids, body, sum);
      assert s[..n] == SumsFor(ids[..n], body, sum)[..n];
      assert s[..|ids|] == s[..n] + [s[n]];
      PrintLinesSnoc(s[..n], s[n], SumLine);
    }
  }

  lemma SumsAreStorable(ids: seq<string>, body: map<Name, string>, sum: string -> string)
    requires Index in body && (forall i :: 0 <= i < |ids| ==> BucketFile(ids[i]) in body)
    requires PlainSum(sum) && forall i :: 0 <= i < |ids| ==> ValidId(ids[i])
    ensures forall i :: 0 <= i <= |ids| ==> StorableSum(SumsFor(ids, body, sum)[i])
  {
    forall i | 0 <= i < |ids| ensures PlainFeature(BucketFile(ids[i])) {
      assert forall c :: c in BucketFile(ids[i]) ==> c == '_' || c in ids[i];
    }
  }

  /** The checksum file holds one record for every file, and is read back as such. */
  lemma ChecksumFileRoundTrip(ids: seq<string>, body: map<Name, string>, sum: string -> string)
    requires Index in body && (forall i :: 0 <= i < |ids| ==> BucketFile(ids[i]) in body)
    requires PlainSum(sum) && forall i :: 0 <= i < |ids| ==> ValidId(ids[i])
    ensures var rec := Recorder(body, sum);
            ParseSums(Records(ids, rec) + rec(Index)) == Ok(SumsFor(ids, body, sum))
  {
    var s := SumsFor(ids, body, sum);
    RecordsAreSums(ids, body, sum);
    assert s == s[..|ids|] + [s[|ids|]];
    PrintLinesSnoc(s[..|ids|], s[|ids|], SumLine);
    SumsAreStorable(ids, body, sum);
    SumsRoundTrip(s);
  }

  lemma SumsAreDistinct(ids: seq<string>, body: map<Name, string>, sum: string -> string)
    requires Index in body && (forall i :: 0 <= i < |ids| ==> BucketFile(ids[i]) in body) && FileIds(ids)
    ensures var s := SumsFor(ids, body, sum);
            forall j, k :: 0 <= j < k < |s| ==> s[j].file != s[k].file
  {
    DistinctFiles(ids);
    var s, names := SumsFor(ids, body, sum), FilesOf(ids);
    assert forall i :: 0 <= i < |s| ==> s[i].file == names[i];
  }

  lemma HeadsRoundTrip(ids: seq<string>, db: Database)
    requires Enumerates(ids, db) && Storable(db)
    ensures ParseHeads(IndexText(Heads(ids, db))) == Ok(Heads(ids, db))
  {
    var hs := Heads(ids, db);
    forall i | 0 <= i < |hs| ensures StorableHead(hs[i]) {
      assert StorableBucket(db[ids[i]]);
    }
    IndexRoundTrip(hs);
  }

  lemma HeadsCoverBuckets(ids: seq<string>, db: Database)
    requires Enumerates(ids, db)
    ensures var m := HeadMap(Heads(ids, db));
            m.Keys == db.Keys && forall id :: id in db ==> m[id] == db[id].defaultPolicy
  {
    var hs := Heads(ids, db);
    HeadMapOf(hs);
    var m := HeadMap(hs);
    forall id | id in db ensures id in m && m[id] == db[id].defaultPolicy {
      var i :| 0 <= i < |ids| && ids[i] == id;
      assert hs[i].id == id;
    }
    forall id | id in m ensures id in db {
      var i :| 0 <= i < |hs| && hs[i].id == id;
    }
  }

  lemma LoadBucketOf(read: Name -> Option<string>, sum: string -> string, sums: seq<Sum>,
                     id: string, ps: seq<Policy>, b: Bucket)
    requires read(BucketFile(id)) == Some(BucketText(ps)) && SumOf(sums, BucketFile(id)) == sum(BucketText(ps))
    requires Lists(ps, b.policies) && StorableBucket(b)
    ensures LoadBucket(read, sum, sums, id) == Ok(b.policies)
  {
    forall j | 0 <= j < |ps| ensures StorablePolicy(ps[j]) {
      assert b.policies[GlueKey(ps[j].key)] == ps[j];
    }
    BucketRoundTrip(ps);
    RebuildBucket(ps, b.policies);
  }

  /** The bucket files of a dump, with their recorded checksums. */
  lemma DumpedBuckets(read: Name -> Option<string>, lay: Layout, db: Database, sum: string -> string, id: string)
    requires LayoutOf(lay, db) && Storable(db) && id in db
    requires forall n :: n in Body(lay, db) ==> read(n) == Some(Body(lay, db)[n])
    ensures var text := BucketText(lay.order[id]);
            && read(BucketFile(id)) == Some(text)
            && SumOf(SumsFor(lay.ids, Body(lay, db), sum), BucketFile(id)) == sum(text)
  {
    var i :| 0 <= i < |lay.ids| && lay.ids[i] == id;
    EnumeratedIds(lay.ids, db);
    SumsAreDistinct(lay.ids, Body(lay, db), sum);
    SumOfAt(SumsFor(lay.ids, Body(lay, db), sum), i);
  }

  lemma LoadBucketsOfDump(read: Name -> Option<string>, lay: Layout, db: Database, sum: string -> string)
    requires LayoutOf(lay, db) && Storable(db)
    requires forall n :: n in Body(lay, db) ==> read(n) == Some(Body(lay, db)[n])
    ensures LoadAll(read, sum, SumsFor(lay.ids, Body(lay, db), sum), HeadMap(Heads(lay.ids, db))) == Ok(db)
  {
    var s, heads := SumsFor(lay.ids, Body(lay, db), sum), HeadMap(Heads(lay.ids, db));
    HeadsCoverBuckets(lay.ids, db);
    forall id | id in db ensures LoadBucket(read, sum, s, id) == Ok(db[id].policies) {
      DumpedBuckets(read, lay, db, sum, id);
      LoadBucketOf(read, sum, s, id, lay.order[id], db[id]);
    }
    AssembledAll(heads, id => LoadBucket(read, sum, s, id), db);
  }

  lemma LoadOfParts(read: Name -> Option<string>, sum: string -> string, recorded: string, sums: seq<Sum>,
                    index: string, heads: seq<Head>, db: Database)
    requires read(Checksum) == Some(recorded) && ParseSums(recorded) == Ok(sums)
    requires read(Index) == Some(index) && SumOf(sums, Index) == sum(index) && ParseHeads(index) == Ok(heads)
    requires LoadAll(read, sum, sums, HeadMap(heads)) == Ok(db) && DefaultBucket in db
    ensures Load(read, sum) == Ok(db)
  {
  }

  /**
   Loading the files of a dump gives back the dumped database, whatever the
   iteration orders of the dump, whatever the checksum function.
   */
  lemma LoadUndoesDump(read: Name -> Option<string>, lay: Layout, db: Database, sum: string -> string)
    requires LayoutOf(lay, db) && Storable(db) && PlainSum(sum)
    requires forall n :: n in ImageOf(lay, db, sum) ==> read(n) == Some(ImageOf(lay, db, sum)[n])
    ensures Load(read, sum) == Ok(db)
  {
    ReadsBody(read, lay, db, sum);
    RecordedSums(lay, db, sum);
    LoadFromBody(read, lay, db, sum, ImageOf(lay, db, sum)[Checksum]);
  }

  lemma ReadsBody(read: Name -> Option<string>, lay: Layout, db: Database, sum: string -> string)
    requires Fits(lay, db)
    requires forall n :: n in ImageOf(lay, db, sum) ==> read(n) == Some(ImageOf(lay, db, sum)[n])
    ensures read(Checksum) == Some(ImageOf(lay, db, sum)[Checksum])
    ensures forall n :: n in Body(lay, db) ==> read(n) == Some(Body(lay, db)[n])
  {
    var rec := Recorder(Body(lay, db), sum);
    ReadsUpdated(read, Body(lay, db), Records(lay.ids, rec) + rec(Index), ImageOf(lay, db, sum));
  }

  lemma ReadsUpdated(read: Name -> Option<string>, body: map<Name, string>, recorded: string, img: Image)
    requires Checksum !in body && img == body[Checksum := recorded]
    requires forall n :: n in img ==> read(n) == Some(img[n])
    ensures read(Checksum) == Some(recorded)
    ensures forall n :: n in body ==> read(n) == Some(body[n])
  {
    assert Checksum in img;
    forall n | n in body ensures read(n) == Some(body[n]) { assert n in img && img[n] == body[n]; }
  }

  lemma LoadFromBody(read: Name -> Option<string>, lay: Layout, db: Database, sum: string -> string, recorded: string)
    requires LayoutOf(lay, db) && Storable(db)
    requires read(Checksum) == Some(recorded) && ParseSums(recorded) == Ok(SumsFor(lay.ids, Body(lay, db), sum))
    requires SumOf(SumsFor(lay.ids, Body(lay, db), sum), Index) == sum(Body(lay, db)[Index])
    requires forall n :: n in Body(lay, db) ==> read(n) == Some(Body(lay, db)[n])
    ensures Load(read, sum) == Ok(db)
  {
    LoadBucketsOfDump(read, lay, db, sum);
    HeadsRoundTrip(lay.ids, db);
    var body := Body(lay, db);
    LoadOfParts(read, sum, recorded, SumsFor(lay.ids, body, sum), body[Index], Heads(lay.ids, db), db);
  }

  lemma RecordedSums(lay: Layout, db: Database, sum: string -> string)
    requires LayoutOf(lay, db) && Storable(db) && PlainSum(sum)
    ensures ParseSums(ImageOf(lay, db, sum)[Checksum]) == Ok(SumsFor(lay.ids, Body(lay, db), sum))
    ensures SumOf(SumsFor(lay.ids, Body(lay, db), sum), Index) == sum(Body(lay, db)[Index])
  {
    var body := Body(lay, db);
    ChecksumFileRoundTrip(lay.ids, body, sum);
    EnumeratedIds(lay.ids, db);
    SumsAreDistinct(lay.ids, body, sum);
    SumOfAt(SumsFor(lay.ids, body, sum), |lay.ids|);
  }

  // ----- what a load accepts -----

  /** The file is there and has the checksum that is recorded for it. */
  ghost predicate Untouched(read: Name -> Option<string>, sum: string -> string, sums: seq<Sum>, file: Name) {
    read(file).Some? && RecordedAs(sums, file, sum(read(file).value))
  }

  /** Everything a load depends on: the checksum file, the index, and the files of all buckets in it. */
  ghost predicate Acceptable(read: Name -> Option<string>, sum: string -> string, sums: seq<Sum>, heads: seq<Head>) {
    && read(Checksum).Some? && ParseSums(read(Checksum).value) == Ok(sums)
    && Untouched(read, sum, sums, Index) && ParseHeads(read(Index).value) == Ok(heads)
    && forall i :: 0 <= i < |heads| ==>
         Loadable(read, sum, sums, heads[i].id)
  }

  /** The file of the bucket is there, has its checksum, and can be parsed. */
  ghost predicate Loadable(read: Name -> Option<string>, sum: string -> string, sums: seq<Sum>, id: string) {
    Untouched(read, sum, sums, BucketFile(id)) && ParsePolicies(read(BucketFile(id)).value).Ok?
  }

  lemma BucketLoadsIff(read: Name -> Option<string>, sum: string -> string, sums: seq<Sum>, id: string)
    ensures LoadBucket(read, sum, sums, id).Ok? <==> Loadable(read, sum, sums, id)
    ensures LoadBucket(read, sum, sums, id).Ok? ==>
              LoadBucket(read, sum, sums, id).value == InsertPolicies(map[], ParsePolicies(read(BucketFile(id)).value).value)
  {
    SumOfIs(sums, BucketFile(id));
    hide ParsePolicies, SumOf, RecordedAs;
  }

  lemma AllLoadIff(read: Name -> Option<string>, sum: string -> string, sums: seq<Sum>, heads: seq<Head>)
    ensures LoadAll(read, sum, sums, HeadMap(heads)).Ok? <==>
              forall i :: 0 <= i < |heads| ==> Loadable(read, sum, sums, heads[i].id)
  {
    hide LoadBucket, Loadable;
    forall i | 0 <= i < |heads|
      ensures heads[i].id in HeadMap(heads)
      ensures LoadBucket(read, sum, sums, heads[i].id).Ok? <==> Loadable(read, sum, sums, heads[i].id)
    {
      HeadMapHas(heads, heads[i].id);
      BucketLoadsIff(read, sum, sums, heads[i].id);
    }
    forall id | id in HeadMap(heads)
      ensures exists i :: 0 <= i < |heads| && heads[i].id == id
    {
      HeadMapHas(heads, id);
    }
  }

  /** A load succeeds exactly if every file it reads is there, has its recorded checksum and can be parsed. */
  lemma LoadsIff(read: Name -> Option<string>, sum: string -> string)
    ensures Load(read, sum).Ok? <==> exists sums, heads :: Acceptable(read, sum, sums, heads)
  {
    hide ParseSums, ParseHeads, LoadAll, WithDefault, SumOf, RecordedAs, ParsePolicies;
    if read(Checksum).Some? && ParseSums(read(Checksum).value).Ok? && read(Index).Some? && ParseHeads(read(Index).value).Ok? {
      var sums, heads := ParseSums(read(Checksum).value).value, ParseHeads(read(Index).value).value;
      SumOfIs(sums, Index);
      AllLoadIff(read, sum, sums, heads);
      assert Load(read, sum).Ok? <==> Acceptable(read, sum, sums, heads);
    }
  }

  /**
   What was loaded: the buckets of the index with the default policies of their
   first lines, each with the policies of its file, of which the last for a key
   counts; and the default bucket, which denies if the index does not have it.
   */
  lemma LoadedDatabase(read: Name -> Option<string>, sum: string -> string, sums: seq<Sum>, heads: seq<Head>)
    requires Load(read, sum).Ok? && Acceptable(read, sum, sums, heads)
    ensures var db := Load(read, sum).value;
            && (forall id :: id in db <==> id == "" || exists i :: 0 <= i < |heads| && heads[i].id == id)
            && (forall i :: 0 <= i < |heads| ==>
                  db[heads[i].id].policies == InsertPolicies(map[], ParsePolicies(read(BucketFile(heads[i].id)).value).value))
            && (forall i :: 0 <= i < |heads| && (forall j :: 0 <= j < i ==> heads[j].id != heads[i].id) ==>
                  db[heads[i].id].defaultPolicy == heads[i].defaultPolicy)
            && ((forall i :: 0 <= i < |heads| ==> heads[i].id != "") ==>
                  db[""] == Bucket("", PolicyResult(DENY, ""), map[]))
  {
    hide ParseSums, ParseHeads, ParsePolicies, SumOf, RecordedAs, LoadBucket, InsertPolicies;
    var m := HeadMap(heads);
    forall id ensures id in m <==> exists i :: 0 <= i < |heads| && heads[i].id == id { HeadMapHas(heads, id); }
    forall i | 0 <= i < |heads|
      ensures LoadBucket(read, sum, sums, heads[i].id).Ok?
      ensures LoadBucket(read, sum, sums, heads[i].id).value ==
              InsertPolicies(map[], ParsePolicies(read(BucketFile(heads[i].id)).value).value)
      ensures (forall j :: 0 <= j < i ==> heads[j].id != heads[i].id) ==> m[heads[i].id] == heads[i].defaultPolicy
    {
      BucketLoadsIff(read, sum, sums, heads[i].id);
      if forall j :: 0 <= j < i ==> heads[j].id != heads[i].id { HeadMapFirst(heads, i); }
    }
  }

  /**
   A dumped database of which one file, index or bucket, is missing or has become a
   text with another checksum is not loaded, whatever that text is.
   */
  lemma DamageIsRejected(read: Name -> Option<string>, lay: Layout, db: Database, sum: string -> string, file: Name)
    requires LayoutOf(lay, db) && Storable(db) && PlainSum(sum) && file in Body(lay, db)
    requires read(Checksum) == Some(ImageOf(lay, db, sum)[Checksum])
    requires forall n :: n in Body(lay, db) && n != file ==> read(n) == Some(Body(lay, db)[n])
    requires read(file).None? || sum(read(file).value) != sum(Body(lay, db)[file])
    ensures Load(read, sum) == Corrupted
  {
    RecordedSums(lay, db, sum);
    var sums := SumsFor(lay.ids, Body(lay, db), sum);
    var recorded := ImageOf(lay, db, sum)[Checksum];
    if file == Index {
      IndexOfParts(read, sum, recorded, sums);
    } else {
      HeadsRoundTrip(lay.ids, db);
      HeadsCoverBuckets(lay.ids, db);
      assert read(Index) == Some(Body(lay, db)[Index]);
      hide Body, ImageOf, SumsFor, Storable, PlainSum, ParseHeads, ParseSums, HeadMap, Heads, Enumerates, Lists, LoadBucket, Load;
      var id := DamagedBucket(read, lay, db, sum, file);
      BucketOfParts(read, sum, recorded, sums, Body(lay, db)[Index], Heads(lay.ids, db), id);
    }
  }

  lemma IndexOfParts(read: Name -> Option<string>, sum: string -> string, recorded: string, sums: seq<Sum>)
    requires read(Checksum) == Some(recorded) && ParseSums(recorded) == Ok(sums)
    requires read(Index).None? || SumOf(sums, Index) != sum(read(Index).value)
    ensures Load(read, sum) == Corrupted
  {
  }

  lemma BucketOfParts(read: Name -> Option<string>, sum: string -> string, recorded: string, sums: seq<Sum>,
                      index: string, heads: seq<Head>, id: string)
    requires read(Checksum) == Some(recorded) && ParseSums(recorded) == Ok(sums)
    requires read(Index) == Some(index) && ParseHeads(index) == Ok(heads)
    requires id in HeadMap(heads) && LoadBucket(read, sum, sums, id) == Corrupted
    ensures Load(read, sum) == Corrupted
  {
  }

  lemma DamagedBucket(read: Name -> Option<string>, lay: Layout, db: Database, sum: string -> string, file: Name)
    returns (id: string)
    requires LayoutOf(lay, db) && Storable(db) && file in Body(lay, db) && file != Index
    requires read(file).None? || sum(read(file).value) != sum(Body(lay, db)[file])
    ensures id in db && LoadBucket(read, sum, SumsFor(lay.ids, Body(lay, db), sum), id) == Corrupted
  {
    var body := Body(lay, db);
    BodyNames(lay, db, file);
    var i :| 0 <= i < |FilesOf(lay.ids)| && FilesOf(lay.ids)[i] == file;
    id := lay.ids[i];
    EnumeratedIds(lay.ids, db);
    SumsAreDistinct(lay.ids, body, sum);
    SumOfAt(SumsFor(lay.ids, body, sum), i);
  }

  /** A database without its checksum file is not loaded. */
  lemma MissingChecksumsAreRejected(read: Name -> Option<string>, sum: string -> string)
    requires read(Checksum).None?
    ensures Load(read, sum) == Corrupted
  {
  }

  /** An index with a line that is no bucket is not loaded, whatever the checksums say. */
  lemma BadIndexLineIsRejected(read: Name -> Option<string>, sum: string -> string, lines: seq<string>, i: nat)
    requires forall j :: 0 <= j < |lines| ==> '\n' !in lines[j] && lines[j] != ""
    requires read(Index) == Some(PrintLines(lines, (l: string) => l)) && i < |lines| && ParseHeadLine(lines[i]) == Corrupted
    ensures Load(read, sum) == Corrupted
  {
    LinesParseIff(lines, ParseHeadLine, true);
    hide ParseSums, ParseLines;
  }

  /** A bucket file with a line that is no policy is not loaded, whatever the checksums say. */
  lemma BadPolicyLineIsRejected(read: Name -> Option<string>, sum: string -> string, heads: seq<Head>, k: nat,
                                lines: seq<string>, i: nat)
    requires read(Index).Some? && ParseHeads(read(Index).value) == Ok(heads) && k < |heads|
    requires forall j :: 0 <= j < |lines| ==> '\n' !in lines[j] && lines[j] != ""
    requires read(BucketFile(heads[k].id)) == Some(PrintLines(lines, (l: string) => l))
    requires i < |lines| && ParsePolicyLine(lines[i]) == Corrupted
    ensures Load(read, sum) == Corrupted
  {
    LinesParseIff(lines, ParsePolicyLine, true);
    hide ParseSums, ParseLines, ParseHeads, RecordedAs;
    LoadsIff(read, sum);
  }

  // ----- loading after a crash -----

  lemma LoadAfterReads(c: FS, lay: Layout, db: Database, sum: string -> string)
    requires LayoutOf(lay, db) && Storable(db) && PlainSum(sum)
    requires Reads(c, ImageOf(lay, db, sum))
    ensures Load(ReadFrom(c), sum) == Ok(db)
  {
    var img := ImageOf(lay, db, sum);
    forall n | n in img ensures ReadFrom(c)(n) == Some(img[n]) {}
    LoadUndoesDump(ReadFrom(c), lay, db, sum);
  }

  /**
   A save of `db` over `db0`, stopped after any of its system calls: the next
   load returns one of the two databases, complete, and never an error.
   */
  lemma CrashedSaveLoadsOldOrNew(fs: FS, lay0: Layout, db0: Database, lay: Layout, db: Database,
                                 sum: string -> string, k: nat, c: FS)
    requires LayoutOf(lay0, db0) && Storable(db0) && LayoutOf(lay, db) && Storable(db) && PlainSum(sum)
    requires Steady(fs, ImageOf(lay0, db0, sum))
    requires var ops := SaveOps(lay.ids, ImageOf(lay, db, sum), Recorder(Body(lay, db), sum));
             k <= |ops| && CrashOf(Run(fs, ops[..k]), c)
    ensures Load(ReadFrom(c), sum) == Ok(db0) || Load(ReadFrom(c), sum) == Ok(db)
    ensures k >= CommitPoint(lay.ids, ImageOf(lay, db, sum), Recorder(Body(lay, db), sum)) ==>
              Load(ReadFrom(c), sum) == Ok(db)
  {
    var img0, img, rec := ImageOf(lay0, db0, sum), ImageOf(lay, db, sum), Recorder(Body(lay, db), sum);
    ImageIsDumpable(lay0, db0, sum);
    ImageIsDumpable(lay, db, sum);
    SaveIsAtomic(fs, lay0.ids, img0, lay.ids, img, rec, k, c);
    if Reads(c, img0) { LoadAfterReads(c, lay0, db0, sum); }
    if Reads(c, img) { LoadAfterReads(c, lay, db, sum); }
  }

  /** After a save that failed, a load without a crash in between returns the old database until the guard is created, and then the new one. */
  lemma FailedSaveLoadsOldOrNew(fs: FS, lay0: Layout, db0: Database, lay: Layout, db: Database, sum: string -> string, k: nat)
    requires LayoutOf(lay0, db0) && Storable(db0) && LayoutOf(lay, db) && Storable(db) && PlainSum(sum)
    requires Steady(fs, ImageOf(lay0, db0, sum))
    requires k <= |SaveOps(lay.ids, ImageOf(lay, db, sum), Recorder(Body(lay, db), sum))|
    ensures var img, rec := ImageOf(lay, db, sum), Recorder(Body(lay, db), sum);
            Load(ReadFrom(Run(fs, SaveOps(lay.ids, img, rec)[..k])), sum) ==
            Ok(if k <= |PrepareOps(lay.ids, img, rec)| then db0 else db)
  {
    hide Run, SaveOps, PrepareOps, Load, Reads, Storable, PlainSum, Body, ImageOf, Recorder, Enumerates, Lists, ImageFor, Steady, Records;
    var img0, img, rec := ImageOf(lay0, db0, sum), ImageOf(lay, db, sum), Recorder(Body(lay, db), sum);
    ImageIsDumpable(lay0, db0, sum);
    ImageIsDumpable(lay, db, sum);
    FailedSaveReads(fs, lay0.ids, img0, lay.ids, img, rec, k);
    var fs' := Run(fs, SaveOps(lay.ids, img, rec)[..k]);
    if k <= |PrepareOps(lay.ids, img, rec)| {
      LoadAfterReads(fs', lay0, db0, sum);
    } else {
      LoadAfterReads(fs', lay, db, sum);
    }
  }

  /** A load may enumerate the buckets in an order of its own. */
  lemma AnyEnumerationFits(ids: seq<string>, lay: Layout, db: Database, sum: string -> string)
    requires Enumerates(ids, db) && LayoutOf(lay, db) && Storable(db)
    ensures ImageFor(ids, ImageOf(lay, db, sum))
  {
    EnumeratedIds(ids, db);
    var img := ImageOf(lay, db, sum);
    forall n ensures n in img <==> n in FilesOf(ids) {
      BodyNames(lay, db, n);
      if n in FilesOf(ids) { SameFiles(ids, lay.ids, db, n); }
      if n in FilesOf(lay.ids) { SameFiles(lay.ids, ids, db, n); }
    }
  }

  lemma SameFiles(ids: seq<string>, ids': seq<string>, db: Database, n: Name)
    requires Enumerates(ids, db) && Enumerates(ids', db) && n in FilesOf(ids)
    ensures n in FilesOf(ids')
  {
    var i :| 0 <= i < |FilesOf(ids)| && FilesOf(ids)[i] == n;
    assert FilesOf(ids')[|ids'|] == Index && FilesOf(ids')[|ids'| + 1] == Checksum;
    if i < |ids| {
      assert ids[i] in ids';
      var j :| 0 <= j < |ids'| && ids'[j] == ids[i];
      assert FilesOf(ids')[j] == n;
    }
  }

  /** However often a load is cut short, the next one returns the same database. */
  lemma CrashedLoadLoadsTheSame(fs: FS, lay: Layout, db: Database, sum: string -> string,
                                ids: seq<string>, listing: seq<Name>, k: nat, c: FS)
    requires LayoutOf(lay, db) && Storable(db) && PlainSum(sum) && Enumerates(ids, db)
    requires Recoverable(fs, ImageOf(lay, db, sum))
    requires k <= |LoadOps(fs, ids, listing)| && CrashOf(Run(fs, LoadOps(fs, ids, listing)[..k]), c)
    ensures Reads(c, ImageOf(lay, db, sum)) && Load(ReadFrom(c), sum) == Ok(db)
  {
    AnyEnumerationFits(ids, lay, db, sum);
    LoadIsIdempotent(fs, ids, ImageOf(lay, db, sum), listing, k, c);
    LoadAfterReads(c, lay, db, sum);
  }
}
