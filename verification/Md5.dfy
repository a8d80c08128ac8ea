/**
 The streaming MD5 of the checksums, over an arbitrary block transformation:
 however the input is cut into pieces, the result is the transformation folded
 over the padded message of RFC 1321.
 */
module Md5 {
  import opened Collections
  import opened Numbers

  newtype Byte = n: int | 0 <= n < 0x100
  newtype Word = n: int | 0 <= n < 0x1_0000_0000

  const BlockLength := 64
  const TwoTo64 := 0x1_0000_0000_0000_0000

  datatype State = State(a: Word, b: Word, c: Word, d: Word)

  const Initial := State(0x67452301, 0xefcdab89, 0x98badcfe, 0x10325476)

  /** MD5Transform: any function of the state and a block of 64 bytes. */
  type Transform = (State, seq<Byte>) -> State

  // ----- what is computed: sections 3.1 to 3.5 of RFC 1321 -----

  /** The transformation folded over the whole blocks of a message. */
  function Fold(t: Transform, s: State, m: seq<Byte>): State
    decreases |m|
  {
    if |m| < BlockLength then s else Fold(t, t(s, m[..BlockLength]), m[BlockLength..])
  }

  /** What the whole blocks leave over. */
  function Tail(m: seq<Byte>): (r: seq<Byte>)
    ensures |r| == |m| % BlockLength
    decreases |m|
  {
    if |m| < BlockLength then m else Tail(m[BlockLength..])
  }

  /** `k` bytes of a number, least significant first. */
  function LittleEndian(n: nat, k: nat): (r: seq<Byte>)
    ensures |r| == k
  {
    if k == 0 then [] else [(n % 0x100) as Byte] + LittleEndian(n / 0x100, k - 1)
  }

  lemma {:induction false} LittleEndianAt(n: nat, k: nat, i: nat)
    requires i < k
    ensures LittleEndian(n, k)[i] as nat == ByteAt(n, i)
    decreases i
  {
    if i > 0 {
      LittleEndianAt(n / 0x100, k - 1, i - 1);
      ByteAtNext(n, i - 1);
    }
  }

  function Zeros(k: nat): (z: seq<Byte>)
    ensures |z| == k && forall i :: 0 <= i < k ==> z[i] == 0
  {
    seq(k, _ => 0 as Byte)
  }

  /** The number of zero bytes that brings `n` bytes and the byte 0x80 to 56 modulo 64. */
  function ZeroCount(n: nat): nat { (119 - n % BlockLength) % BlockLength }

  /** The message, a one bit, zeros, and the length in bits as a 64-bit number. */
  function Padded(m: seq<Byte>): seq<Byte> {
    m + [0x80] + Zeros(ZeroCount(|m|)) + LittleEndian(8 * |m| % TwoTo64, 8)
  }

  function Output(s: State): (r: seq<Byte>)
    ensures |r| == 16
  {
    LittleEndian(s.a as nat, 4) + LittleEndian(s.b as nat, 4) + LittleEndian(s.c as nat, 4) + LittleEndian(s.d as nat, 4)
  }

  function Digest(t: Transform, m: seq<Byte>): seq<Byte> { Output(Fold(t, Initial, Padded(m))) }

  /** The padded message consists of whole blocks, with as little padding as that allows. */
  lemma PaddedIsWholeBlocks(m: seq<Byte>)
    ensures Tail(Padded(m)) == []
    ensures |Padded(m)| - BlockLength < |m| + 9 <= |Padded(m)|
  {
    hide Tail, LittleEndian, Zeros;
    var r, q := |m| % BlockLength, |m| / BlockLength;
    assert ZeroCount(|m|) == if r <= 55 then 55 - r else 119 - r;
    assert |Padded(m)| == BlockLength * (q + if r <= 55 then 1 else 2);
  }

  /** The message comes first, then 0x80, zeros, and the length in bits, its least significant byte first. */
  lemma PaddedLayout(m: seq<Byte>, i: nat)
    requires i < |Padded(m)|
    ensures var end := |Padded(m)| - 8;
            && |m| < end
            && Padded(m)[i] as nat == if i < |m| then m[i] as nat
                                      else if i == |m| then 0x80
                                      else if i < end then 0
                                      else ByteAt(8 * |m| % TwoTo64, i - end)
  {
    hide LittleEndian, ZeroCount, Zeros, ByteAt;
    var end := |Padded(m)| - 8;
    if i >= end { LittleEndianAt(8 * |m| % TwoTo64, 8, i - end); }
  }

  /** The words of a state, in their order. */
  function WordAt(s: State, j: nat): nat
    requires j < 4
  {
    (if j == 0 then s.a else if j == 1 then s.b else if j == 2 then s.c else s.d) as nat
  }

  lemma OutputAt(s: State, j: nat, i: nat)
    requires j < 4 && i < 4
    ensures Output(s)[4 * j + i] as nat == ByteAt(WordAt(s, j), i)
  {
    hide LittleEndian, ByteAt;
    LittleEndianAt(WordAt(s, j), 4, i);
  }

  /** The state a digest starts from, as section 3.3 of RFC 1321 lists its bytes. */
  lemma InitialBytes()
    ensures Output(Initial) == [0x01, 0x23, 0x45, 0x67, 0x89, 0xab, 0xcd, 0xef, 0xfe, 0xdc, 0xba, 0x98, 0x76, 0x54, 0x32, 0x10]
  {
    hide LittleEndian;
    assert LittleEndian(0x67452301, 4) == [0x01, 0x23, 0x45, 0x67] by { WordBytes(0x67452301); }
    assert LittleEndian(0xefcdab89, 4) == [0x89, 0xab, 0xcd, 0xef] by { WordBytes(0xefcdab89); }
    assert LittleEndian(0x98badcfe, 4) == [0xfe, 0xdc, 0xba, 0x98] by { WordBytes(0x98badcfe); }
    assert LittleEndian(0x10325476, 4) == [0x76, 0x54, 0x32, 0x10] by { WordBytes(0x10325476); }
  }

  lemma WordBytes(n: nat)
    ensures LittleEndian(n, 4) ==
            [(n % 0x100) as Byte, (n / 0x100 % 0x100) as Byte, (n / 0x100 / 0x100 % 0x100) as Byte,
             (n / 0x100 / 0x100 / 0x100 % 0x100) as Byte]
  {
    assert LittleEndian(n / 0x100 / 0x100 / 0x100, 1) == [(n / 0x100 / 0x100 / 0x100 % 0x100) as Byte];
    assert LittleEndian(n / 0x100 / 0x100, 2) == [(n / 0x100 / 0x100 % 0x100) as Byte] + LittleEndian(n / 0x100 / 0x100 / 0x100, 1);
    assert LittleEndian(n / 0x100, 3) == [(n / 0x100 % 0x100) as Byte] + LittleEndian(n / 0x100 / 0x100, 2);
  }

  /** The transformation is applied to the blocks of a message in their order, each of them once. */
  lemma {:induction false} FoldLast(t: Transform, s: State, m: seq<Byte>, block: seq<Byte>)
    requires |m| % BlockLength == 0 && |block| == BlockLength
    ensures Fold(t, s, m + block) == t(Fold(t, s, m), block) && Fold(t, s, []) == s
    decreases |m|
  {
    if m == [] {
      assert m + block == block && block[..BlockLength] == block && block[BlockLength..] == [];
    } else {
      assert (m + block)[..BlockLength] == m[..BlockLength];
      assert (m + block)[BlockLength..] == m[BlockLength..] + block;
      FoldLast(t, t(s, m[..BlockLength]), m[BlockLength..], block);
    }
  }

  /** Byte by byte, the digest is the folded state, least significant byte of each word first. */
  ghost predicate DigestOf(t: Transform, m: seq<Byte>, digest: seq<Byte>) {
    |digest| == 16 &&
    forall i :: 0 <= i < 16 ==> digest[i] as nat == ByteAt(WordAt(Fold(t, Initial, Padded(m)), i / 4), i % 4)
  }

  lemma DigestIsOutput(t: Transform, m: seq<Byte>)
    ensures DigestOf(t, m, Digest(t, m))
  {
    var s := Fold(t, Initial, Padded(m));
    forall i | 0 <= i < 16 ensures Digest(t, m)[i] as nat == ByteAt(WordAt(s, i / 4), i % 4) {
      OutputAt(s, i / 4, i % 4);
      hide Fold, Padded, Output, ByteAt, WordAt;
      assert 4 * (i / 4) + i % 4 == i;
    }
  }

  // ----- the streaming form -----

  /** A message can be folded in two pieces: the second one starts with what the first left over. */
  lemma {:induction false} FoldInPieces(t: Transform, s: State, m: seq<Byte>, more: seq<Byte>)
    ensures Fold(t, s, m + more) == Fold(t, Fold(t, s, m), Tail(m) + more)
    ensures Tail(m + more) == Tail(Tail(m) + more)
    decreases |m|
  {
    if |m| >= BlockLength {
      assert (m + more)[..BlockLength] == m[..BlockLength];
      assert (m + more)[BlockLength..] == m[BlockLength..] + more;
      FoldInPieces(t, t(s, m[..BlockLength]), m[BlockLength..], more);
    }
  }

  /** Quotient and remainder are unique. */
  lemma WrapIs(n: nat, q: nat, r: nat)
    requires n == TwoTo64 * q + r && r < TwoTo64
    ensures n % TwoTo64 == r
  {
    var k, rest := n / TwoTo64 - q, n % TwoTo64;
    assert TwoTo64 * k == r - rest;
    assert -TwoTo64 < TwoTo64 * k < TwoTo64;
    assert -1 < k < 1;
  }

  lemma RestIs(n: nat, q: nat, r: nat)
    requires n == BlockLength * q + r
    ensures n % BlockLength == r % BlockLength
  {
    var k := n / BlockLength - q - r / BlockLength;
    assert BlockLength * k == r % BlockLength - n % BlockLength;
    assert -1 < k < 1;
  }

  /** The bit count wraps around at 64 bits, and that does not disturb the position in the block. */
  lemma PositionFromCount(n: nat)
    ensures (8 * n % TwoTo64) / 8 % BlockLength == n % BlockLength
  {
    var q, r := n / 0x2000_0000_0000_0000, n % 0x2000_0000_0000_0000;
    assert 8 * n == TwoTo64 * q + 8 * r;
    WrapIs(8 * n, q, 8 * r);
    assert n == BlockLength * (0x80_0000_0000_0000 * q) + r;
    RestIs(n, 0x80_0000_0000_0000 * q, r);
  }

  lemma CountGrows(n: nat, k: nat)
    ensures (8 * n % TwoTo64 + 8 * k) % TwoTo64 == 8 * (n + k) % TwoTo64
  {
  }

  /** The padding bytes: 0x80 and zeros. */
  const Padding: seq<Byte> := [0x80] + Zeros(63)

  class Context {
    const transform: Transform
    const buffer: array<Byte>
    var state: State
    var count: nat
    /** Everything fed in since the start. */
    ghost var message: seq<Byte>

    ghost predicate Valid()
      reads this, buffer
    {
      && buffer.Length == BlockLength
      && count == 8 * |message| % TwoTo64
      && state == Fold(transform, Initial, message)
      && buffer[..|message| % BlockLength] == Tail(message)
    }

    constructor (transform: Transform)
      ensures Valid() && message == [] && fresh(buffer) && this.transform == transform
    {
      this.transform := transform;
      buffer := new Byte[BlockLength];
      state, count, message := Initial, 0, [];
    }

    method CopyIn(at: nat, bytes: seq<Byte>)
      requires at + |bytes| <= buffer.Length
      modifies buffer
      ensures buffer[..at + |bytes|] == old(buffer[..at]) + bytes
    {
      for i := 0 to |bytes|
        invariant buffer[..at + i] == old(buffer[..at]) + bytes[..i]
      {
        buffer[at + i] := bytes[i];
      }
      assert bytes[..|bytes|] == bytes;
    }

    /** Folds the whole blocks of `input` straight from where they are. */
    method FoldBlocks(input: seq<Byte>) returns (rest: seq<Byte>)
      modifies `state
      ensures state == Fold(transform, old(state), input) && rest == Tail(input)
    {
      rest := input;
      while |rest| >= BlockLength
        invariant Fold(transform, state, rest) == Fold(transform, old(state), input)
        invariant Tail(rest) == Tail(input)
        decreases |rest|
      {
        state := transform(state, rest[..BlockLength]);
        rest := rest[BlockLength..];
      }
    }

    /** Appends to the message; a block is folded in as soon as it is complete. */
    method Update(input: seq<Byte>)
      requires Valid()
      modifies this, buffer
      ensures Valid() && message == old(message) + input
    {
      PositionFromCount(|message|);
      CountGrows(|message|, |input|);
      FoldInPieces(transform, Initial, message, input);
      var have := count / 8 % BlockLength;
      count := (count + 8 * |input|) % TwoTo64;
      Append(have, input, Tail(message));
      message := message + input;
    }

    method Append(have: nat, input: seq<Byte>, ghost held: seq<Byte>)
      requires buffer.Length == BlockLength && have == |held| < BlockLength && buffer[..have] == held
      modifies `state, buffer
      ensures state == Fold(transform, old(state), held + input)
      ensures buffer[..|held + input| % BlockLength] == Tail(held + input)
    {
      var need := BlockLength - have;
      var rest, at := input, have;
      if |rest| >= need {
        if have != 0 {
          CopyIn(have, rest[..need]);
          assert buffer[..] == (held + input)[..BlockLength];
          state := transform(state, buffer[..]);
          rest := rest[need..];
          at := 0;
          assert rest == (held + input)[BlockLength..];
        } else {
          assert rest == held + input;
        }
        rest := FoldBlocks(rest);
      }
      if |rest| != 0 {
        CopyIn(at, rest);
      }
    }

    method Pad()
      requires Valid()
      modifies this, buffer
      ensures Valid() && message == Padded(old(message))
    {
      hide Fold, Tail, LittleEndian;
      var bits := LittleEndian(count, 8);
      PositionFromCount(|message|);
      var padLength := BlockLength - count / 8 % BlockLength;
      if padLength < 1 + 8 {
        padLength := padLength + BlockLength;
      }
      Update(Padding[..padLength - 8]);
      assert Padding[..padLength - 8] == [0x80] + Zeros(ZeroCount(|old(message)|));
      Update(bits);
      assert message == Padded(old(message));
    }

    method Final() returns (digest: seq<Byte>)
      requires Valid()
      modifies this, buffer
      ensures digest == Digest(transform, old(message)) && DigestOf(transform, old(message), digest)
      ensures state == State(0, 0, 0, 0) && count == 0 && forall i :: 0 <= i < buffer.Length ==> buffer[i] == 0
    {
      hide Fold, Tail, LittleEndian, Output, Padded, DigestOf;
      DigestIsOutput(transform, message);
      Pad();
      digest := Output(state);
      Wipe();
    }

    method Wipe()
      modifies this, buffer
      ensures state == State(0, 0, 0, 0) && count == 0 && forall i :: 0 <= i < buffer.Length ==> buffer[i] == 0
    {
      for i := 0 to buffer.Length
        invariant forall j :: 0 <= j < i ==> buffer[j] == 0
      {
        buffer[i] := 0;
      }
      state, count := State(0, 0, 0, 0), 0;
    }
  }

  /** However the message is cut into chunks, the digest is that of the whole message. */
  method Hash(t: Transform, chunks: seq<seq<Byte>>) returns (digest: seq<Byte>)
    ensures digest == Digest(t, Concat(chunks)) && DigestOf(t, Concat(chunks), digest)
  {
    var context := new Context(t);
    for i := 0 to |chunks|
      invariant fresh(context) && fresh(context.buffer) && context.transform == t
      invariant context.Valid() && context.message == Concat(chunks[..i])
    {
      assert chunks[..i + 1][..i] == chunks[..i];
      context.Update(chunks[i]);
    }
    assert chunks[..|chunks|] == chunks;
    digest := context.Final();
  }

  // ----- the optimised round functions -----

  function F1(x: bv32, y: bv32, z: bv32): bv32 { z ^ (x & (y ^ z)) }
  function F2(x: bv32, y: bv32, z: bv32): bv32 { F1(z, x, y) }

  /** The optimised forms are the functions F and G of section 3.4 of RFC 1321. */
  lemma RoundFunctions(x: bv32, y: bv32, z: bv32)
    ensures F1(x, y, z) == (x & y) | (!x & z)
    ensures F2(x, y, z) == (x & z) | (y & !z)
  {
  }
}
