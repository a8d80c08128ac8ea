/** The primitive fields of a protocol frame: little-endian numbers, length-prefixed texts, counted lists. */
module Wire {
  import opened BinaryQueues
  import opened Numbers

  datatype Error = OutOfData | IdentifierTooLong | InvalidSignature | WrongOpCode

  /** The outcome of reading from a stream: a value or an exception, and the bytes that stay unread. */
  datatype Out<+T> = Done(value: T, rest: Bytes) | Fail(error: Error, rest: Bytes) {
    predicate IsFailure() { Fail? }

    function PropagateFailure<U>(): Out<U>
      requires Fail?
    {
      Fail(error, rest)
    }

    function Extract(): (T, Bytes)
      requires Done?
    {
      (value, rest)
    }
  }

  function Mapped<T, U>(out: Out<T>, f: T -> U): Out<U> {
    match out
    case Done(value, rest) => Done(f(value), rest)
    case Fail(error, rest) => Fail(error, rest)
  }

  const MaxIdLength := 4096

  function Get(s: Bytes, n: nat): (r: Out<Bytes>)
    ensures |r.rest| <= |s|
  {
    if n <= |s| then Done(s[..n], s[n..]) else Fail(Error.OutOfData, s)
  }

  lemma GetPrefix(a: Bytes, rest: Bytes)
    ensures Get(a + rest, |a|) == Done(a, rest)
  {
    assert (a + rest)[..|a|] == a && (a + rest)[|a|..] == rest;
  }

  // ----- numbers -----

  function Power(k: nat): (p: nat)
    ensures p > 0
  {
    if k == 0 then 1 else 0x100 * Power(k - 1)
  }

  function PutUnsigned(n: nat, k: nat): (r: Bytes)
    ensures |r| == k
  {
    if k == 0 then [] else [(n % 0x100) as Octet] + PutUnsigned(n / 0x100, k - 1)
  }

  /** Numbers are written with their least significant byte first. */
  lemma {:induction false} PutUnsignedAt(n: nat, k: nat, i: nat)
    requires i < k
    ensures PutUnsigned(n, k)[i] as int == ByteAt(n, i)
    decreases i
  {
    if i > 0 {
      PutUnsignedAt(n / 0x100, k - 1, i - 1);
      ByteAtNext(n, i - 1);
    }
  }

  function Unsigned(b: Bytes): (n: nat)
    ensures n < Power(|b|)
  {
    if b == [] then 0 else b[0] as int + 0x100 * Unsigned(b[1..])
  }

  function GetUnsigned(s: Bytes, k: nat): (r: Out<nat>)
    ensures |r.rest| <= |s|
    ensures r.Done? ==> r.value < Power(k)
  {
    var (b, rest) :- Get(s, k);
    Done(Unsigned(b), rest)
  }

  lemma {:induction false} UnsignedOfPut(n: nat, k: nat)
    requires n < Power(k)
    ensures Unsigned(PutUnsigned(n, k)) == n
  {
    if k > 0 {
      UnsignedOfPut(n / 0x100, k - 1);
      assert PutUnsigned(n, k)[1..] == PutUnsigned(n / 0x100, k - 1);
    }
  }

  lemma {:induction false} PutOfUnsigned(b: Bytes)
    ensures PutUnsigned(Unsigned(b), |b|) == b
  {
    if b != [] {
      PutOfUnsigned(b[1..]);
      LowDigit(b[0] as int, Unsigned(b[1..]));
    }
  }

  lemma LowDigit(d: nat, n: nat)
    requires d < 0x100
    ensures (d + 0x100 * n) % 0x100 == d && (d + 0x100 * n) / 0x100 == n
  {
  }

  lemma UnsignedRoundTrip(n: nat, k: nat, rest: Bytes)
    requires n < Power(k)
    ensures GetUnsigned(PutUnsigned(n, k) + rest, k) == Done(n, rest)
  {
    UnsignedOfPut(n, k);
    GetPrefix(PutUnsigned(n, k), rest);
  }

  lemma Powers()
    ensures Power(1) == 0x100 && Power(2) == 0x1_0000 && Power(4) == 0x1_0000_0000 && Power(8) == 0x1_0000_0000_0000_0000
  {
    assert Power(0) == 1;
    assert Power(3) == 0x100_0000;
    assert Power(5) == 0x100_0000_0000;
    assert Power(6) == 0x1_0000_0000_0000;
    assert Power(7) == 0x100_0000_0000_0000;
  }

  /** Signed numbers travel in two's complement. */
  newtype Int32 = n: int | -0x8000_0000 <= n < 0x8000_0000
  newtype Int64 = n: int | -0x8000_0000_0000_0000 <= n < 0x8000_0000_0000_0000

  function PutInt32(v: Int32): (r: Bytes)
    ensures |r| == 4
  {
    PutUnsigned(if v < 0 then v as int + 0x1_0000_0000 else v as int, 4)
  }

  function GetInt32(s: Bytes): (r: Out<Int32>)
    ensures |r.rest| <= |s|
  {
    var (n, rest) :- GetUnsigned(s, 4);
    Powers();
    Done((if n < 0x8000_0000 then n else n - 0x1_0000_0000) as Int32, rest)
  }

  lemma Int32RoundTrip(v: Int32, rest: Bytes)
    ensures GetInt32(PutInt32(v) + rest) == Done(v, rest)
  {
    Powers();
    UnsignedRoundTrip(if v < 0 then v as int + 0x1_0000_0000 else v as int, 4, rest);
  }

  function PutInt64(v: Int64): (r: Bytes)
    ensures |r| == 8
  {
    PutUnsigned(if v < 0 then v as int + 0x1_0000_0000_0000_0000 else v as int, 8)
  }

  function GetInt64(s: Bytes): (r: Out<Int64>)
    ensures |r.rest| <= |s|
  {
    var (n, rest) :- GetUnsigned(s, 8);
    Powers();
    Done((if n < 0x8000_0000_0000_0000 then n else n - 0x1_0000_0000_0000_0000) as Int64, rest)
  }

  lemma Int64RoundTrip(v: Int64, rest: Bytes)
    ensures GetInt64(PutInt64(v) + rest) == Done(v, rest)
  {
    Powers();
    UnsignedRoundTrip(if v < 0 then v as int + 0x1_0000_0000_0000_0000 else v as int, 8, rest);
  }

  function PutFlag(b: bool): (r: Bytes)
    ensures |r| == 1
  {
    PutUnsigned(if b then 1 else 0, 1)
  }

  function GetFlag(s: Bytes): (r: Out<bool>)
    ensures |r.rest| <= |s|
  {
    var (n, rest) :- GetUnsigned(s, 1);
    Done(n != 0, rest)
  }

  lemma FlagRoundTrip(b: bool, rest: Bytes)
    ensures GetFlag(PutFlag(b) + rest) == Done(b, rest)
  {
    Powers();
    UnsignedRoundTrip(if b then 1 else 0, 1, rest);
  }

  // ----- texts -----

  predicate IsText(s: string) { forall i :: 0 <= i < |s| ==> s[i] as int < 0x100 }

  /** A text that may be sent: the characters are bytes, and there are not too many. */
  predicate Sendable(s: string) { IsText(s) && |s| <= MaxIdLength }

  /** The bytes of a text. */
  function Raw(s: string): (r: Bytes)
    ensures |r| == |s|
    ensures IsText(s) ==> r == s
  {
    seq(|s|, i requires 0 <= i < |s| => (s[i] as int % 0x100) as Octet)
  }

  function PutText(s: string): Bytes { PutUnsigned(|s|, 4) + Raw(s) }

  function GetText(s: Bytes): (r: Out<Bytes>)
    ensures |r.rest| <= |s|
    ensures r.Done? ==> |r.value| <= MaxIdLength
  {
    var (n, rest) :- GetUnsigned(s, 4);
    if n > MaxIdLength then Fail(IdentifierTooLong, rest) else Get(rest, n)
  }

  lemma TextRoundTrip(t: string, rest: Bytes)
    requires Sendable(t)
    ensures GetText(PutText(t) + rest) == Done(t, rest)
  {
    Powers();
    assert PutText(t) + rest == PutUnsigned(|t|, 4) + (Raw(t) + rest);
    UnsignedRoundTrip(|t|, 4, Raw(t) + rest);
    GetPrefix(Raw(t), rest);
  }

  // ----- lists -----

  function PutAll<T>(put: T -> Bytes, xs: seq<T>): Bytes {
    if xs == [] then [] else put(xs[0]) + PutAll(put, xs[1..])
  }

  lemma {:induction false} PutAllLast<T>(put: T -> Bytes, xs: seq<T>, i: nat)
    requires i < |xs|
    ensures PutAll(put, xs[..i + 1]) == PutAll(put, xs[..i]) + put(xs[i])
    decreases i
  {
    if i == 0 {
      assert xs[..1][1..] == [] && xs[..0] == [];
    } else {
      assert xs[..i + 1][1..] == xs[1..][..i] && xs[..i][1..] == xs[1..][..i - 1];
      PutAllLast(put, xs[1..], i - 1);
    }
  }

  function GetAll<T>(get: Bytes -> Out<T>, n: nat, s: Bytes): Out<seq<T>> {
    if n == 0 then Done([], s)
    else
      var (x, rest) :- get(s);
      var (xs, end) :- GetAll(get, n - 1, rest);
      Done([x] + xs, end)
  }

  /** Reading back one element, whatever follows it. */
  ghost predicate Inverse<T(!new)>(put: T -> Bytes, get: Bytes -> Out<T>, x: T) {
    forall rest: Bytes :: get(put(x) + rest) == Done(x, rest)
  }

  lemma {:induction false} AllRoundTrip<T(!new)>(put: T -> Bytes, get: Bytes -> Out<T>, xs: seq<T>, rest: Bytes)
    requires forall i :: 0 <= i < |xs| ==> Inverse(put, get, xs[i])
    ensures GetAll(get, |xs|, PutAll(put, xs) + rest) == Done(xs, rest)
  {
    if xs == [] {
      assert PutAll(put, xs) + rest == rest;
    } else {
      var more := PutAll(put, xs[1..]) + rest;
      assert PutAll(put, xs) + rest == put(xs[0]) + more;
      assert Inverse(put, get, xs[0]);
      assert get(PutAll(put, xs) + rest) == Done(xs[0], more);
      AllRoundTrip(put, get, xs[1..], rest);
      assert |xs[1..]| == |xs| - 1 && [xs[0]] + xs[1..] == xs;
    }
  }

  /** A list travels as a 16-bit count, which the encoder truncates, and its elements. */
  function PutCounted<T>(put: T -> Bytes, xs: seq<T>): Bytes { PutUnsigned(|xs| % 0x1_0000, 2) + PutAll(put, xs) }

  function GetCounted<T>(get: Bytes -> Out<T>, s: Bytes): Out<seq<T>> {
    var (n, rest) :- GetUnsigned(s, 2);
    GetAll(get, n, rest)
  }

  lemma CountedRoundTrip<T(!new)>(put: T -> Bytes, get: Bytes -> Out<T>, xs: seq<T>, rest: Bytes)
    requires |xs| < 0x1_0000 && forall i :: 0 <= i < |xs| ==> Inverse(put, get, xs[i])
    ensures GetCounted(get, PutCounted(put, xs) + rest) == Done(xs, rest)
  {
    Powers();
    assert PutCounted(put, xs) + rest == PutUnsigned(|xs|, 2) + (PutAll(put, xs) + rest);
    UnsignedRoundTrip(|xs|, 2, PutAll(put, xs) + rest);
    AllRoundTrip(put, get, xs, rest);
  }
}
