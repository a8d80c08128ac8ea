/** The byte queue between sockets and protocols: a list of buckets that stands for one flat sequence. */
module BinaryQueues {

  /** A byte, as the character a `std::string` holds. */
  type Octet = c: char | c as int < 0x100

  type Bytes = seq<Octet>

  /** A buffer of which the first `at` bytes have been consumed. */
  datatype Bucket = Bucket(data: Bytes, at: nat) {
    ghost predicate Valid() { at < |data| }

    function Left(): Bytes
      requires at <= |data|
    {
      data[at..]
    }
  }

  datatype Taken = Taken(bytes: Bytes) | OutOfData

  ghost predicate AllValid(buckets: seq<Bucket>) { forall i :: 0 <= i < |buckets| ==> buckets[i].Valid() }

  ghost function Flat(buckets: seq<Bucket>): Bytes
    requires AllValid(buckets)
  {
    if buckets == [] then [] else buckets[0].Left() + Flat(buckets[1..])
  }

  lemma Regroup(a: Bytes, b: Bytes, c: Bytes)
    ensures a + (b + c) == a + b + c
  {
  }

  lemma {:induction false} FlatConcat(a: seq<Bucket>, b: seq<Bucket>)
    requires AllValid(a) && AllValid(b)
    ensures AllValid(a + b) && Flat(a + b) == Flat(a) + Flat(b)
  {
    if a == [] {
      assert a + b == b;
    } else {
      FlatConcat(a[1..], b);
      assert (a + b)[0] == a[0] && (a + b)[1..] == a[1..] + b;
      Regroup(a[0].Left(), Flat(a[1..]), Flat(b));
    }
  }

  class BinaryQueue {
    var buckets: seq<Bucket>
    var size: nat

    ghost predicate Valid()
      reads this
    {
      AllValid(buckets) && size == |Flat(buckets)|
    }

    /** The flat sequence the buckets stand for. */
    ghost function Contents(): Bytes
      requires Valid()
      reads this
    {
      Flat(buckets)
    }

    constructor ()
      ensures Valid() && Contents() == []
    {
      buckets, size := [], 0;
    }

    predicate Empty()
      requires Valid()
      reads this
      ensures Empty() <==> Contents() == []
    {
      size == 0
    }

    method AppendUnmanaged(buffer: Bytes)
      requires Valid()
      modifies this
      ensures Valid() && Contents() == old(Contents()) + buffer
    {
      if |buffer| == 0 {
        return;
      }
      FlatConcat(buckets, [Bucket(buffer, 0)]);
      buckets := buckets + [Bucket(buffer, 0)];
      size := size + |buffer|;
    }

    method AppendCopy(buffer: Bytes)
      requires Valid()
      modifies this
      ensures Valid() && Contents() == old(Contents()) + buffer
    {
      AppendUnmanaged(buffer);
    }

    /** Copies the other queue as one bucket. */
    method AppendCopyFrom(other: BinaryQueue)
      requires Valid() && other.Valid()
      modifies this
      ensures Valid() && Contents() == old(Contents()) + old(other.Contents())
      ensures other != this ==> other.Valid() && other.Contents() == old(other.Contents())
    {
      var copy := other.Flatten(other.size);
      AppendUnmanaged(copy.bytes);
    }

    method AppendMoveFrom(other: BinaryQueue)
      requires Valid() && other.Valid() && other != this
      modifies this, other
      ensures Valid() && Contents() == old(Contents()) + old(other.Contents())
      ensures other.Valid() && other.Contents() == []
    {
      FlatConcat(buckets, other.buckets);
      buckets, size := buckets + other.buckets, size + other.size;
      other.buckets, other.size := [], 0;
    }

    method Clear()
      modifies this
      ensures Valid() && Contents() == []
    {
      buckets, size := [], 0;
    }

    /** Drops the first bytes, or nothing at all when there are not that many. */
    method Consume(count: nat) returns (ok: bool)
      requires Valid()
      modifies this
      ensures Valid() && ok == (count <= |old(Contents())|)
      ensures Contents() == if ok then old(Contents())[count..] else old(Contents())
    {
      if count > size {
        return false;
      }
      var bytesLeft := count;
      while bytesLeft > 0
        invariant Valid() && 0 <= bytesLeft <= count
        invariant count <= |old(Contents())|
        invariant bytesLeft <= |Contents()| && Contents() == old(Contents())[count - bytesLeft..]
      {
        var front := buckets[0];
        var taken := if bytesLeft < |front.Left()| then bytesLeft else |front.Left()|;
        DropFront(taken);
        bytesLeft := bytesLeft - taken;
      }
      return true;
    }

    /** Advances in the front bucket and removes it when it is used up. */
    method DropFront(taken: nat)
      requires Valid() && buckets != [] && taken <= |buckets[0].Left()|
      modifies this
      ensures Valid() && taken <= |old(Contents())| && Contents() == old(Contents())[taken..]
    {
      ghost var was := Contents();
      var front := buckets[0].(at := buckets[0].at + taken);
      size := size - taken;
      if front.at == |front.data| {
        buckets := buckets[1..];
      } else {
        buckets := [front] + buckets[1..];
        assert buckets[1..] == old(buckets)[1..];
      }
      assert Flat(buckets) == was[taken..];
    }

    /** Copies out the first bytes; fails when there are not that many. */
    method Flatten(count: nat) returns (r: Taken)
      requires Valid()
      ensures r == if count <= |Contents()| then Taken(Contents()[..count]) else OutOfData
    {
      if count == 0 {
        return Taken([]);
      }
      if count > size {
        return OutOfData;
      }
      var bytesLeft, i, buffer := count, 0, [];
      assert buckets[0..] == buckets;
      while bytesLeft > 0
        invariant i <= |buckets| && 0 <= bytesLeft <= |Flat(buckets[i..])|
        invariant buffer + Flat(buckets[i..])[..bytesLeft] == Contents()[..count]
      {
        var left := buckets[i].Left();
        var taken := if bytesLeft < |left| then bytesLeft else |left|;
        assert buckets[i..][1..] == buckets[i + 1..];
        assert Flat(buckets[i..])[..bytesLeft] == left[..taken] + Flat(buckets[i + 1..])[..bytesLeft - taken];
        buffer := buffer + left[..taken];
        bytesLeft := bytesLeft - taken;
        i := i + 1;
      }
      return Taken(buffer);
    }

    method FlattenConsume(count: nat) returns (r: Taken)
      requires Valid()
      modifies this
      ensures Valid()
      ensures r.Taken? <==> count <= |old(Contents())|
      ensures r.Taken? ==> r.bytes == old(Contents())[..count] && Contents() == old(Contents())[count..]
      ensures r.OutOfData? ==> Contents() == old(Contents())
    {
      r := Flatten(count);
      if r.Taken? {
        var _ := Consume(count);
      }
    }
  }
}
