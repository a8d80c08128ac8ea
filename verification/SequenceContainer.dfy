/** The allocator of 16-bit check ids: a bitmap, one set bit per free id. */
module SequenceContainer {

  const WordBits := 32
  const Words := 2048
  const Ids := 65536

  predicate Bit(w: bv32, i: nat)
    requires i < WordBits
  {
    (w >> i) & 1 == 1
  }

  function Mask(i: nat): bv32
    requires i < WordBits
  {
    1 << i
  }

  // ----- single bits -----

  lemma FlipShifted(w: bv32, a: bv6, b: bv6)
    requires a < 32 && b < 32
    ensures (((w ^ (1 << a)) >> b) & 1 == 1) == (if a == b then !((w >> b) & 1 == 1) else ((w >> b) & 1 == 1))
  {
  }

  lemma SetShifted(w: bv32, a: bv6, b: bv6)
    requires a < 32 && b < 32
    ensures (((w | (1 << a)) >> b) & 1 == 1) == (a == b || ((w >> b) & 1 == 1))
  {
  }

  lemma ShiftsDiffer(i: nat, j: nat)
    requires i < WordBits && j < WordBits
    ensures (i as bv6 == j as bv6) == (i == j)
  {
    assert (i as bv6) as nat == i && (j as bv6) as nat == j;
  }

  lemma FlipBit(w: bv32, i: nat, j: nat)
    requires i < WordBits && j < WordBits
    ensures Bit(w ^ Mask(i), j) == (if i == j then !Bit(w, j) else Bit(w, j))
  {
    FlipShifted(w, i as bv6, j as bv6);
    ShiftsDiffer(i, j);
  }

  lemma SetBit(w: bv32, i: nat, j: nat)
    requires i < WordBits && j < WordBits
    ensures Bit(w | Mask(i), j) == (i == j || Bit(w, j))
  {
    SetShifted(w, i as bv6, j as bv6);
    ShiftsDiffer(i, j);
  }

  lemma SetBitChanges(w: bv32, i: nat)
    requires i < WordBits
    ensures w | Mask(i) == w <==> Bit(w, i)
  {
    SetShifted(w, i as bv6, i as bv6);
  }

  /** The position after the least set bit at or above `i`, or 0 if there is none. */
  function FfsFrom(w: bv32, i: nat): (pos: nat)
    requires i <= WordBits
    ensures pos == 0 ==> forall j :: i <= j < WordBits ==> !Bit(w, j)
    ensures pos != 0 ==> i < pos <= WordBits && Bit(w, pos - 1) && forall j :: i <= j < pos - 1 ==> !Bit(w, j)
    decreases WordBits - i
  {
    if i == WordBits then 0 else if Bit(w, i) then i + 1 else FfsFrom(w, i + 1)
  }

  /** `ffs` of the C library. */
  function Ffs(w: bv32): nat { FfsFrom(w, 0) }

  lemma WordAndBit(index: nat, bit: nat)
    requires index < Words && bit < WordBits
    ensures index * WordBits + bit < Ids
    ensures (index * WordBits + bit) / WordBits == index && (index * WordBits + bit) % WordBits == bit
  {
  }

  class SequenceContainer {
    const words: array<bv32>

    ghost predicate Valid() { words.Length == Words }

    predicate IsFree(n: nat)
      requires Valid() && n < Ids
      reads words
    {
      Bit(words[n / WordBits], n % WordBits)
    }

    /** The free ids: what the bitmap stands for. */
    ghost function Free(): set<nat>
      requires Valid()
      reads words
    {
      set n: nat | 0 <= n < Ids && IsFree(n)
    }

    constructor ()
      ensures Valid() && fresh(words)
      ensures forall n :: 0 <= n < Ids ==> n in Free()
    {
      words := new bv32[Words](_ => 0xFFFF_FFFF);
    }

    /** Takes the least free id; fails only if there is none. */
    method Get() returns (ok: bool, sequenceNumber: nat)
      requires Valid()
      modifies words
      ensures ok <==> old(Free()) != {}
      ensures ok ==> sequenceNumber in old(Free()) && (forall n :: n in old(Free()) ==> sequenceNumber <= n)
      ensures ok ==> sequenceNumber < Ids && Free() == old(Free()) - {sequenceNumber}
      ensures !ok ==> Free() == old(Free())
    {
      hide Bit, Mask;
      sequenceNumber := 0;
      for index := 0 to words.Length
        invariant words[..] == old(words[..])
        invariant forall n :: 0 <= n < index * WordBits ==> !IsFree(n)
      {
        var pos := Ffs(words[index]);
        if pos != 0 {
          sequenceNumber := index * WordBits - 1 + pos;
          WordAndBit(index, pos - 1);
          assert IsFree(sequenceNumber) && sequenceNumber in Free();
          forall n: nat | n < sequenceNumber ensures !IsFree(n) {
            if n >= index * WordBits { assert n / WordBits == index && n % WordBits < pos - 1; }
          }
          Flip(index, pos - 1);
          return true, sequenceNumber;
        }
        forall n | 0 <= n < (index + 1) * WordBits ensures !IsFree(n) {
          if n >= index * WordBits { assert n / WordBits == index; }
        }
      }
      assert Free() == {};
      ok := false;
    }

    method Flip(index: nat, bit: nat)
      requires Valid() && index < Words && bit < WordBits && IsFree(index * WordBits + bit)
      modifies words
      ensures Free() == old(Free()) - {index * WordBits + bit}
    {
      hide Bit, Mask;
      WordAndBit(index, bit);
      ghost var w := words[index];
      words[index] := words[index] ^ Mask(bit);
      forall n: nat | n < Ids ensures IsFree(n) == (old(IsFree(n)) && n != index * WordBits + bit) {
        FlipBit(w, bit, n % WordBits);
        if n / WordBits == index && n % WordBits == bit { assert n == index * WordBits + bit; }
      }
    }

    /** Frees the id and reports whether it was taken. */
    method Release(sequenceNumber: nat) returns (taken: bool)
      requires Valid() && sequenceNumber < Ids
      modifies words
      ensures taken <==> sequenceNumber !in old(Free())
      ensures Free() == old(Free()) + {sequenceNumber}
    {
      hide Bit, Mask;
      var index, pos := sequenceNumber / WordBits, sequenceNumber % WordBits;
      ghost var w := words[index];
      SetBitChanges(w, pos);
      var i := words[index] | Mask(pos);
      taken := i != words[index];
      if taken {
        words[index] := i;
      }
      forall n: nat | n < Ids ensures IsFree(n) == (old(IsFree(n)) || n == sequenceNumber) {
        SetBit(w, pos, n % WordBits);
        if n / WordBits == index && n % WordBits == pos { assert n == sequenceNumber; }
      }
    }

    method Clear()
      requires Valid()
      modifies words
      ensures forall n :: 0 <= n < Ids ==> n in Free()
    {
      for i := 0 to words.Length
        invariant forall j :: 0 <= j < i ==> words[j] == 0xFFFF_FFFF
      {
        words[i] := 0xFFFF_FFFF;
      }
    }
  }
}
