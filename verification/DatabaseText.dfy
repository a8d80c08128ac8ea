/**
 The text format of the policy database: what is written for the index, a
 bucket and the checksums, how it is read back, and that reading undoes writing.
 */
module DatabaseText {
  import opened PolicyTypes
  import opened PolicyKeys

  datatype Result<+T> = Ok(value: T) | Corrupted

  // ----- lines and fields -----

  function FindFrom(s: string, c: char, i: nat): (j: nat)
    requires i <= |s|
    ensures i <= j <= |s| && c !in s[i..j] && (j < |s| ==> s[j] == c)
    decreases |s| - i
  {
    if i == |s| || s[i] == c then i
    else
      var j := FindFrom(s, c, i + 1);
      assert s[i..j] == [s[i]] + s[i + 1..j];
      j
  }

  /** The next record, as `getline` delivers it. */
  function Line(s: string): string { s[..FindFrom(s, '\n', 0)] }

  /** The stream after the next record. */
  function Rest(s: string): (r: string)
    ensures s != "" ==> |r| < |s|
  {
    var j := FindFrom(s, '\n', 0);
    if j < |s| then s[j + 1..] else ""
  }

  lemma {:induction false} FindFromAt(s: string, c: char, i: nat, j: nat)
    requires i <= j < |s| && s[j] == c && c !in s[i..j]
    ensures FindFrom(s, c, i) == j
    decreases j - i
  {
    if i < j {
      assert s[i] == s[i..j][0] && s[i + 1..j] == s[i..j][1..];
      FindFromAt(s, c, i + 1, j);
    }
  }

  lemma LineOf(line: string, rest: string)
    requires '\n' !in line
    ensures Line(line + "\n" + rest) == line && Rest(line + "\n" + rest) == rest
  {
    var s := line + "\n" + rest;
    assert s[0..|line|] == line;
    FindFromAt(s, '\n', 0, |line|);
  }

  /** Records, one per line. */
  function PrintLines<T>(xs: seq<T>, line: T -> string): string {
    if xs == [] then "" else line(xs[0]) + "\n" + PrintLines(xs[1..], line)
  }

  /** Reading stops at the end of the stream and, if `stop`, at an empty line. */
  function ParseLines<T>(s: string, parse: string -> Result<T>, stop: bool): Result<seq<T>>
    decreases |s|
  {
    if s == "" || (stop && Line(s) == "") then Ok([])
    else
      match parse(Line(s))
      case Corrupted => Corrupted
      case Ok(x) =>
        match ParseLines(Rest(s), parse, stop)
        case Corrupted => Corrupted
        case Ok(xs) => Ok([x] + xs)
  }

  /** If one line can be read back, so can any number of them. */
  lemma {:induction false} LinesRoundTrip<T>(xs: seq<T>, line: T -> string, parse: string -> Result<T>, stop: bool)
    requires forall i :: 0 <= i < |xs| ==>
               '\n' !in line(xs[i]) && line(xs[i]) != "" && parse(line(xs[i])) == Ok(xs[i])
    ensures ParseLines(PrintLines(xs, line), parse, stop) == Ok(xs)
    decreases |xs|
  {
    if xs != [] {
      LineOf(line(xs[0]), PrintLines(xs[1..], line));
      LinesRoundTrip(xs[1..], line, parse, stop);
      assert [xs[0]] + xs[1..] == xs;
    }
  }

  /** A text of lines is read exactly if each of its lines is. */
  lemma {:induction false} LinesParseIff<T>(lines: seq<string>, parse: string -> Result<T>, stop: bool)
    requires forall i :: 0 <= i < |lines| ==> '\n' !in lines[i] && lines[i] != ""
    ensures ParseLines(PrintLines(lines, (l: string) => l), parse, stop).Ok? <==>
              forall i :: 0 <= i < |lines| ==> parse(lines[i]).Ok?
    decreases |lines|
  {
    if lines != [] {
      LineOf(lines[0], PrintLines(lines[1..], (l: string) => l));
      LinesParseIff(lines[1..], parse, stop);
      assert forall i :: 1 <= i < |lines| ==> lines[i] == lines[1..][i - 1];
    }
  }

  lemma {:induction false} PrintLinesSnoc<T>(xs: seq<T>, x: T, line: T -> string)
    ensures PrintLines(xs + [x], line) == PrintLines(xs, line) + (line(x) + "\n")
    decreases |xs|
  {
    if xs == [] {
      assert (xs + [x])[1..] == [];
    } else {
      assert (xs + [x])[1..] == xs[1..] + [x];
      PrintLinesSnoc(xs[1..], x, line);
    }
  }

  ghost predicate Prepended<T>(whole: Result<seq<T>>, done: seq<T>, rest: Result<seq<T>>) {
    match rest
    case Corrupted => whole == Corrupted
    case Ok(more) => whole == Ok(done + more)
  }

  /** The loop of every reader: one record at a time, until the stream ends or is corrupted. */
  method ReadLines<T>(stream: string, parse: string -> Result<T>, stop: bool) returns (r: Result<seq<T>>)
    ensures r == ParseLines(stream, parse, stop)
  {
    hide FindFrom;
    var rest, xs := stream, [];
    ghost var whole := ParseLines(stream, parse, stop);
    assert whole.Ok? ==> xs + whole.value == whole.value;
    while rest != ""
      invariant Prepended(whole, xs, ParseLines(rest, parse, stop))
      decreases |rest|
    {
      var line := Line(rest);
      if stop && line == "" {
        break;
      }
      var x := parse(line);
      if x.Corrupted? {
        return Corrupted;
      }
      ghost var done, more := xs, ParseLines(Rest(rest), parse, stop);
      xs := xs + [x.value];
      rest := Rest(rest);
      assert more.Ok? ==> done + ([x.value] + more.value) == xs + more.value;
    }
    assert xs + [] == xs;
    r := Ok(xs);
  }

  /** A field and the position after its separator. */
  function ParseField(line: string, begin: nat): (r: Result<(string, nat)>)
    requires begin <= |line|
    ensures r.Ok? ==> begin < r.value.1 <= |line|
  {
    var end := FindFrom(line, ';', begin);
    if end < |line| then Ok((line[begin..end], end + 1)) else Corrupted
  }

  lemma ParseFieldOf(before: string, field: string, after: string)
    requires ';' !in field
    ensures ParseField(before + field + ";" + after, |before|) == Ok((field, |before| + |field| + 1))
  {
    var line := before + field + ";" + after;
    assert line[|before|..|before| + |field|] == field;
    FindFromAt(line, ';', |before|, |before| + |field|);
  }

  // ----- policy types -----

  function HexDigit(d: nat): char
    requires d < 16
  {
    if d < 10 then (d + 48) as char else (d + 55) as char
  }

  /** Upper-case hexadecimal digits, without leading zeros. */
  function HexDigits(n: nat): (s: string)
    ensures s != [] && forall i :: 0 <= i < |s| ==> IsHex(s[i])
  {
    if n < 16 then [HexDigit(n)] else HexDigits(n / 16) + [HexDigit(n % 16)]
  }

  function TypeText(t: PolicyType): string { "0x" + HexDigits(t as nat) }

  predicate IsHex(c: char) { '0' <= c <= '9' || 'a' <= c <= 'f' || 'A' <= c <= 'F' }

  function HexDigitValue(c: char): nat
    requires IsHex(c)
  {
    if c <= '9' then c as nat - 48 else if c <= 'F' then c as nat - 55 else c as nat - 87
  }

  function HexValue(s: string): nat
    requires forall i :: 0 <= i < |s| ==> IsHex(s[i])
  {
    if s == [] then 0 else 16 * HexValue(s[..|s| - 1]) + HexDigitValue(s[|s| - 1])
  }

  function HexRun(s: string, i: nat): (j: nat)
    requires i <= |s|
    ensures i <= j <= |s| && (forall k :: i <= k < j ==> IsHex(s[k])) && (j < |s| ==> !IsHex(s[j]))
    decreases |s| - i
  {
    if i == |s| || !IsHex(s[i]) then i else HexRun(s, i + 1)
  }

  predicate IsSpace(c: char) {
    c == ' ' || c == '\t' || c == '\n' || c == '\r' || c as int == 11 || c as int == 12
  }

  function SkipSpace(s: string, i: nat): (j: nat)
    requires i <= |s|
    ensures i <= j <= |s|
    decreases |s| - i
  {
    if i < |s| && IsSpace(s[i]) then SkipSpace(s, i + 1) else i
  }

  /**
   `std::stoi` in base 16: white space, a sign, an optional prefix that counts
   only if a digit follows it, and digits.  It fails without a digit and
   outside the range of a 32-bit int.
   */
  function StoiHex(s: string): (r: Result<(int, nat)>)
    ensures r.Ok? ==> 0 < r.value.1 <= |s|
  {
    var i := SkipSpace(s, 0);
    var signed := i < |s| && (s[i] == '-' || s[i] == '+');
    var j := if signed then i + 1 else i;
    var k := if j + 2 < |s| && s[j] == '0' && (s[j + 1] == 'x' || s[j + 1] == 'X') && IsHex(s[j + 2])
             then j + 2 else j;
    var e := HexRun(s, k);
    if e == k then Corrupted
    else
      assert forall i :: 0 <= i < e - k ==> s[k..e][i] == s[k + i];
      var v := HexValue(s[k..e]) * (if signed && s[i] == '-' then -1 else 1);
      if -0x8000_0000 <= v < 0x8000_0000 then Ok((v, e)) else Corrupted
  }

  /** The value is stored in 16 bits. */
  function ParsePolicyType(line: string, begin: nat): (r: Result<(PolicyType, nat)>)
    requires begin <= |line|
    ensures r.Ok? ==> r.value.1 <= |line|
  {
    match StoiHex(line[begin..])
    case Corrupted => Corrupted
    case Ok((v, used)) => Ok(((v % 0x10000) as PolicyType, begin + used))
  }

  lemma {:induction false} HexRoundTrip(n: nat)
    ensures HexValue(HexDigits(n)) == n
  {
    var s := HexDigits(n);
    if n < 16 {
      assert s[..0] == [];
    } else {
      HexRoundTrip(n / 16);
      assert s[..|s| - 1] == HexDigits(n / 16);
    }
  }

  lemma {:induction false} HexRunAt(s: string, i: nat, j: nat)
    requires i <= j < |s| && (forall k :: i <= k < j ==> IsHex(s[k])) && !IsHex(s[j])
    ensures HexRun(s, i) == j
    decreases j - i
  {
    if i < j { HexRunAt(s, i + 1, j); }
  }

  lemma StoiOfNumber(n: nat, after: string)
    ensures var text := "0x" + HexDigits(n);
            StoiHex(text + ";" + after) == if n < 0x8000_0000 then Ok((n, |text|)) else Corrupted
  {
    var d := HexDigits(n);
    HexRoundTrip(n);
    hide HexDigits, HexValue;
    var s := "0x" + d + ";" + after;
    assert s[0] == '0' && s[1] == 'x' && s[2] == d[0];
    assert s[2 + |d|] == ';';
    assert forall k :: 2 <= k < 2 + |d| ==> s[k] == d[k - 2];
    HexRunAt(s, 2, 2 + |d|);
    assert s[2..2 + |d|] == d;
    assert SkipSpace(s, 0) == 0;
  }

  /** Any number in hexadecimal is read back, unless it does not fit an int; as a type it counts modulo 2^16. */
  lemma NumberIsRead(before: string, n: nat, after: string)
    ensures var text := "0x" + HexDigits(n);
            ParsePolicyType(before + text + ";" + after, |before|) ==
            if n < 0x8000_0000 then Ok(((n % 0x10000) as PolicyType, |before| + |text|)) else Corrupted
  {
    StoiOfNumber(n, after);
    hide StoiHex, HexDigits;
    var text := "0x" + HexDigits(n);
    assert (before + text + ";" + after)[|before|..] == text + ";" + after;
  }

  lemma ParsePolicyTypeOf(before: string, t: PolicyType, after: string)
    ensures ParsePolicyType(before + TypeText(t) + ";" + after, |before|) ==
            Ok((t, |before| + |TypeText(t)|))
  {
    hide ParsePolicyType, HexDigits;
    NumberIsRead(before, t as nat, after);
  }

  /** Without a digit there is no type. */
  lemma TypeNeedsADigit(s: string)
    requires forall i :: 0 <= i < |s| ==> !IsHex(s[i])
    ensures StoiHex(s) == Corrupted
  {
  }

  // ----- policy lines -----

  function ResultText(r: PolicyResult): string { TypeText(r.policyType) + ";" + r.metadata }

  function PolicyLine(p: Policy): string {
    p.key.client + ";" + p.key.user + ";" + p.key.privilege + ";" + ResultText(p.result)
  }

  function ParseMetadata(line: string, begin: nat): string {
    if begin < |line| then line[begin + 1..] else ""
  }

  function ParseResult(line: string, begin: nat): Result<PolicyResult>
    requires begin <= |line|
  {
    match ParsePolicyType(line, begin)
    case Corrupted => Corrupted
    case Ok((t, next)) => Ok(PolicyResult(t, ParseMetadata(line, next)))
  }

  /** The three key features and the position after them. */
  function ParseKey(line: string): (r: Result<(PolicyKey, nat)>)
    ensures r.Ok? ==> r.value.1 <= |line|
  {
    match ParseField(line, 0)
    case Corrupted => Corrupted
    case Ok((c, i)) =>
      match ParseField(line, i)
      case Corrupted => Corrupted
      case Ok((u, j)) =>
        match ParseField(line, j)
        case Corrupted => Corrupted
        case Ok((p, k)) => Ok((PolicyKey(c, u, p), k))
  }

  function ParsePolicyLine(line: string): Result<Policy> {
    match ParseKey(line)
    case Corrupted => Corrupted
    case Ok((key, next)) =>
      match ParseResult(line, next)
      case Corrupted => Corrupted
      case Ok(r) => Ok(Policy(key, r))
  }

  predicate PlainFeature(s: string) { ';' !in s && '\n' !in s }

  predicate StorableKey(k: PolicyKey) {
    PlainFeature(k.client) && PlainFeature(k.user) && PlainFeature(k.privilege)
  }

  predicate StorablePolicy(p: Policy) { StorableKey(p.key) && '\n' !in p.result.metadata }

  lemma ParseResultOf(before: string, r: PolicyResult)
    ensures ParseResult(before + ResultText(r), |before|) == Ok(r)
  {
    var line := before + ResultText(r);
    assert line == before + TypeText(r.policyType) + ";" + r.metadata;
    ParsePolicyTypeOf(before, r.policyType, r.metadata);
    assert line[|before| + |TypeText(r.policyType)| + 1..] == r.metadata;
  }

  lemma ParseKeyOf(key: PolicyKey, after: string)
    requires ';' !in key.client && ';' !in key.user && ';' !in key.privilege
    ensures ParseKey(key.client + ";" + key.user + ";" + key.privilege + ";" + after) ==
            Ok((key, |key.client| + |key.user| + |key.privilege| + 3))
  {
    hide ParseField;
    var c, u, p := key.client, key.user, key.privilege;
    var line := c + ";" + u + ";" + p + ";" + after;
    var second, third := c + ";", c + ";" + u + ";";
    assert line == "" + c + ";" + (u + ";" + p + ";" + after);
    ParseFieldOf("", c, u + ";" + p + ";" + after);
    assert line == second + u + ";" + (p + ";" + after);
    ParseFieldOf(second, u, p + ";" + after);
    assert line == third + p + ";" + after;
    ParseFieldOf(third, p, after);
  }

  lemma ParsePolicyLineOf(p: Policy)
    requires StorablePolicy(p)
    ensures '\n' !in PolicyLine(p) && PolicyLine(p) != "" && ParsePolicyLine(PolicyLine(p)) == Ok(p)
  {
    PolicyLineIsPlain(p);
    hide ParseKey, ParseResult, ResultText, PlainFeature;
    var k, r := p.key, ResultText(p.result);
    ParseKeyOf(k, r);
    var before := k.client + ";" + k.user + ";" + k.privilege + ";";
    assert PolicyLine(p) == before + r;
    ParseResultOf(before, p.result);
  }

  /** The line is split at its first three separators. */
  ghost predicate SplitInto(line: string, key: PolicyKey, rest: string) {
    && ';' !in key.client && ';' !in key.user && ';' !in key.privilege
    && line == key.client + ";" + key.user + ";" + key.privilege + ";" + rest
  }

  /** A line is a policy exactly if it has three separators and a number after the third. */
  lemma PolicyLineParsesIff(line: string)
    ensures ParsePolicyLine(line).Ok? <==> exists key, rest :: SplitInto(line, key, rest) && StoiHex(rest).Ok?
    ensures forall key, rest :: SplitInto(line, key, rest) && ParsePolicyLine(line).Ok? ==> ParsePolicyLine(line).value.key == key
  {
    if ParseKey(line).Ok? {
      var (key, next) := ParseKey(line).value;
      KeyIsSplitOff(line);
      assert SplitInto(line, key, line[next..]);
    }
    forall key, rest | SplitInto(line, key, rest)
      ensures ParseKey(line) == Ok((key, |line| - |rest|)) && line[|line| - |rest|..] == rest
    {
      ParseKeyOf(key, rest);
    }
  }

  lemma FieldIsSplitOff(line: string, begin: nat)
    requires begin <= |line| && ParseField(line, begin).Ok?
    ensures var (field, next) := ParseField(line, begin).value;
            ';' !in field && line[begin..] == field + ";" + line[next..]
  {
    var end := FindFrom(line, ';', begin);
    hide FindFrom;
    assert line[begin..] == line[begin..end] + [line[end]] + line[end + 1..];
  }

  lemma KeyIsSplitOff(line: string)
    requires ParseKey(line).Ok?
    ensures var (key, next) := ParseKey(line).value; SplitInto(line, key, line[next..])
  {
    hide ParseField;
    FieldIsSplitOff(line, 0);
    var (c, i) := ParseField(line, 0).value;
    FieldIsSplitOff(line, i);
    var (u, j) := ParseField(line, i).value;
    FieldIsSplitOff(line, j);
    var (p, k) := ParseField(line, j).value;
    assert line[0..] == line;
    Regrouped(c, u, p, line[k..]);
  }

  lemma Regrouped(c: string, u: string, p: string, rest: string)
    ensures c + ";" + (u + ";" + (p + ";" + rest)) == c + ";" + u + ";" + p + ";" + rest
  {
  }

  /** What a line looks like. */
  lemma PolicyLineFormat(c: string, u: string, p: string, m: string)
    ensures PolicyLine(Policy(PolicyKey(c, u, p), PolicyResult(ALLOW, m))) == c + ";" + u + ";" + p + ";0xFFFF;" + m
    ensures PolicyLine(Policy(PolicyKey(c, u, p), PolicyResult(DENY, m))) == c + ";" + u + ";" + p + ";0x0;" + m
  {
    assert HexDigits(0xFFF) == "FFF" by { assert HexDigits(0xFF) == "FF"; }
    assert TypeText(ALLOW) == "0xFFFF" && TypeText(DENY) == "0x0";
  }

  lemma PolicyLineIsPlain(p: Policy)
    requires StorablePolicy(p)
    ensures '\n' !in PolicyLine(p) && PolicyLine(p) != ""
  {
    hide TypeText;
    TypeTextIsPlain(p.result.policyType);
    assert PolicyLine(p)[|p.key.client|] == ';';
  }

  lemma TypeTextIsPlain(t: PolicyType)
    ensures '\n' !in TypeText(t) && ';' !in TypeText(t)
  {
    var d := HexDigits(t as nat);
    forall i | 0 <= i < |TypeText(t)| ensures TypeText(t)[i] != '\n' && TypeText(t)[i] != ';' {
      if i >= 2 { assert TypeText(t)[i] == d[i - 2]; }
    }
  }

  // ----- bucket files -----

  function BucketText(ps: seq<Policy>): string { PrintLines(ps, PolicyLine) }

  function ParsePolicies(s: string): Result<seq<Policy>> { ParseLines(s, ParsePolicyLine, true) }

  /** Reading a bucket file gives back the policies written to it, in order. */
  lemma BucketRoundTrip(ps: seq<Policy>)
    requires forall i :: 0 <= i < |ps| ==> StorablePolicy(ps[i])
    ensures ParsePolicies(BucketText(ps)) == Ok(ps)
  {
    forall i | 0 <= i < |ps|
      ensures '\n' !in PolicyLine(ps[i]) && PolicyLine(ps[i]) != "" && ParsePolicyLine(PolicyLine(ps[i])) == Ok(ps[i])
    {
      ParsePolicyLineOf(ps[i]);
    }
    LinesRoundTrip(ps, PolicyLine, ParsePolicyLine, true);
  }

  // ----- the index -----

  datatype Head = Head(id: string, defaultPolicy: PolicyResult)

  function HeadLine(h: Head): string { h.id + ";" + ResultText(h.defaultPolicy) }

  function IndexText(heads: seq<Head>): string { PrintLines(heads, HeadLine) }

  /** A record whose id the bucket constructor rejects is an error like a malformed one. */
  function ParseHeadLine(line: string): Result<Head> {
    match ParseField(line, 0)
    case Corrupted => Corrupted
    case Ok((id, next)) =>
      match ParseResult(line, next)
      case Corrupted => Corrupted
      case Ok(r) => if ValidId(id) then Ok(Head(id, r)) else Corrupted
  }

  function ParseHeads(s: string): Result<seq<Head>> { ParseLines(s, ParseHeadLine, true) }

  /** Inserting into the bucket map keeps the first record of an id. */
  function HeadMap(heads: seq<Head>): map<string, PolicyResult>
    decreases |heads|
  {
    if heads == [] then map[]
    else
      var m, h := HeadMap(heads[..|heads| - 1]), heads[|heads| - 1];
      if h.id in m then m else m[h.id := h.defaultPolicy]
  }

  predicate StorableHead(h: Head) { ValidId(h.id) && '\n' !in h.defaultPolicy.metadata }

  lemma ParseHeadLineOf(h: Head)
    requires StorableHead(h)
    ensures '\n' !in HeadLine(h) && HeadLine(h) != "" && ParseHeadLine(HeadLine(h)) == Ok(h)
  {
    var r := ResultText(h.defaultPolicy);
    var line := h.id + ";" + r;
    assert ';' !in h.id && '\n' !in h.id;
    assert line == "" + h.id + ";" + r;
    ParseFieldOf("", h.id, r);
    assert line == (h.id + ";") + r;
    ParseResultOf(h.id + ";", h.defaultPolicy);
    TypeTextIsPlain(h.defaultPolicy.policyType);
  }

  /** A line of the index is read exactly if it has a valid id, a separator and a number after it. */
  lemma HeadLineParsesIff(line: string)
    ensures ParseHeadLine(line).Ok? <==>
              exists id, rest :: ';' !in id && ValidId(id) && line == id + ";" + rest && StoiHex(rest).Ok?
  {
    hide StoiHex, ValidId;
    if ParseField(line, 0).Ok? {
      FieldIsSplitOff(line, 0);
      assert line[0..] == line;
    }
    forall id, rest | ';' !in id && line == id + ";" + rest
      ensures ParseField(line, 0) == Ok((id, |id| + 1)) && line[|id| + 1..] == rest
    {
      assert "" + id + ";" + rest == line;
      ParseFieldOf("", id, rest);
    }
  }

  /** Reading the index gives back the buckets listed in it. */
  lemma IndexRoundTrip(heads: seq<Head>)
    requires forall i :: 0 <= i < |heads| ==> StorableHead(heads[i])
    ensures ParseHeads(IndexText(heads)) == Ok(heads)
  {
    forall i | 0 <= i < |heads|
      ensures '\n' !in HeadLine(heads[i]) && HeadLine(heads[i]) != "" && ParseHeadLine(HeadLine(heads[i])) == Ok(heads[i])
    {
      ParseHeadLineOf(heads[i]);
    }
    LinesRoundTrip(heads, HeadLine, ParseHeadLine, true);
  }

  lemma {:induction false} HeadMapOf(heads: seq<Head>)
    requires forall i, j :: 0 <= i < j < |heads| ==> heads[i].id != heads[j].id
    ensures forall i :: 0 <= i < |heads| ==> heads[i].id in HeadMap(heads) && HeadMap(heads)[heads[i].id] == heads[i].defaultPolicy
    ensures forall id :: id in HeadMap(heads) ==> exists i :: 0 <= i < |heads| && heads[i].id == id
    decreases |heads|
  {
    if heads != [] {
      HeadMapOf(heads[..|heads| - 1]);
    }
  }

  lemma {:induction false} HeadMapHas(heads: seq<Head>, id: string)
    ensures id in HeadMap(heads) <==> exists i :: 0 <= i < |heads| && heads[i].id == id
    decreases |heads|
  {
    if heads != [] { HeadMapHas(heads[..|heads| - 1], id); }
  }

  /** With repeated ids, the first record of each counts. */
  lemma {:induction false} HeadMapFirst(heads: seq<Head>, i: nat)
    requires i < |heads| && forall j :: 0 <= j < i ==> heads[j].id != heads[i].id
    ensures heads[i].id in HeadMap(heads) && HeadMap(heads)[heads[i].id] == heads[i].defaultPolicy
    decreases |heads|
  {
    var n := |heads| - 1;
    if i < n {
      HeadMapFirst(heads[..n], i);
    } else {
      HeadMapHas(heads[..n], heads[i].id);
    }
  }

  // ----- checksums -----

  datatype Sum = Sum(file: string, sum: string)

  function SumLine(s: Sum): string { s.file + ";" + s.sum }

  function SumsText(sums: seq<Sum>): string { PrintLines(sums, SumLine) }

  /** A record needs a file name and a checksum. */
  function ParseSumLine(line: string): Result<Sum> {
    var end := FindFrom(line, ';', 0);
    if end == 0 || end == |line| then Corrupted
    else if end + 1 >= |line| then Corrupted
    else Ok(Sum(line[..end], line[end + 1..]))
  }

  /** Unlike the other readers, this one does not accept empty lines. */
  function ParseSums(s: string): Result<seq<Sum>> { ParseLines(s, ParseSumLine, false) }

  /** The recorded checksum: the first record of the file, or the empty string. */
  function SumOf(sums: seq<Sum>, file: string): string {
    if sums == [] then "" else if sums[0].file == file then sums[0].sum else SumOf(sums[1..], file)
  }

  /** `sum` is what the first record of the file says, or the empty text if there is none. */
  ghost predicate RecordedAs(sums: seq<Sum>, file: string, sum: string) {
    || (exists i :: 0 <= i < |sums| && sums[i] == Sum(file, sum) && forall j :: 0 <= j < i ==> sums[j].file != file)
    || (sum == "" && forall i :: 0 <= i < |sums| ==> sums[i].file != file)
  }

  lemma {:induction false} SumOfIs(sums: seq<Sum>, file: string)
    ensures forall sum :: SumOf(sums, file) == sum <==> RecordedAs(sums, file, sum)
    decreases |sums|
  {
    if sums != [] {
      SumOfIs(sums[1..], file);
      forall sum
        ensures SumOf(sums, file) == sum <==> RecordedAs(sums, file, sum)
      {
        RecordedNext(sums, file, sum);
      }
    }
  }

  lemma RecordedNext(sums: seq<Sum>, file: string, sum: string)
    requires sums != []
    ensures RecordedAs(sums, file, sum) <==> if sums[0].file == file then sums[0].sum == sum else RecordedAs(sums[1..], file, sum)
  {
    if sums[0].file == file && sums[0].sum == sum { assert sums[0] == Sum(file, sum); }
    if sums[0].file != file {
      assert forall i :: 1 <= i < |sums| ==> sums[i] == sums[1..][i - 1];
      if i :| 0 <= i < |sums[1..]| && sums[1..][i] == Sum(file, sum) && forall j :: 0 <= j < i ==> sums[1..][j].file != file {
        assert sums[i + 1] == Sum(file, sum);
      }
      if i :| 0 <= i < |sums| && sums[i] == Sum(file, sum) && forall j :: 0 <= j < i ==> sums[j].file != file {
        assert sums[1..][i - 1] == Sum(file, sum);
      }
    }
  }

  predicate StorableSum(s: Sum) {
    PlainFeature(s.file) && s.file != "" && '\n' !in s.sum && s.sum != ""
  }

  lemma ParseSumLineOf(h: Sum)
    requires StorableSum(h)
    ensures '\n' !in SumLine(h) && SumLine(h) != "" && ParseSumLine(SumLine(h)) == Ok(h)
  {
    var line := SumLine(h);
    assert line[0..|h.file|] == h.file;
    FindFromAt(line, ';', 0, |h.file|);
    assert line[..|h.file|] == h.file && line[|h.file| + 1..] == h.sum;
  }

  /** A checksum line is read exactly if it has a file name, a separator and a checksum. */
  lemma SumLineParsesIff(line: string)
    ensures ParseSumLine(line).Ok? <==>
              exists file, sum :: ';' !in file && file != "" && sum != "" && line == file + ";" + sum
  {
    hide FindFrom;
    var end := FindFrom(line, ';', 0);
    if ParseSumLine(line).Ok? {
      assert line[0..end] == line[..end];
      assert line == line[..end] + ";" + line[end + 1..];
    }
    forall file, sum | ';' !in file && line == file + ";" + sum
      ensures end == |file|
    {
      assert line[0..|file|] == file;
      FindFromAt(line, ';', 0, |file|);
    }
  }

  lemma SumsRoundTrip(sums: seq<Sum>)
    requires forall i :: 0 <= i < |sums| ==> StorableSum(sums[i])
    ensures ParseSums(SumsText(sums)) == Ok(sums)
  {
    forall i | 0 <= i < |sums|
      ensures '\n' !in SumLine(sums[i]) && SumLine(sums[i]) != "" && ParseSumLine(SumLine(sums[i])) == Ok(sums[i])
    {
      ParseSumLineOf(sums[i]);
    }
    LinesRoundTrip(sums, SumLine, ParseSumLine, false);
  }

  lemma {:induction false} SumOfAt(sums: seq<Sum>, i: nat)
    requires i < |sums|
    requires forall j, k :: 0 <= j < k < |sums| ==> sums[j].file != sums[k].file
    ensures SumOf(sums, sums[i].file) == sums[i].sum
    decreases |sums|
  {
    if i > 0 {
      assert sums[0].file != sums[i].file;
      SumOfAt(sums[1..], i - 1);
    }
  }
}
