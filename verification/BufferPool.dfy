/** The size-classed buffer pool (gateway/pkg/buffer/pool.go). */
module BufferPool {
  import opened Bytes

  const SMALL: nat := 256
  const MEDIUM: nat := 4096
  const LARGE: nat := 32768

  /** The capacity of the slice handed out for `size`. */
  function CapacityFor(size: int): nat {
    if size <= SMALL then SMALL else if size <= MEDIUM then MEDIUM else LARGE
  }

  predicate IsClass(capacity: nat) {
    capacity == SMALL || capacity == MEDIUM || capacity == LARGE
  }

  /** A request gets the smallest class that holds it, and is met in full exactly
      up to the largest class. */
  lemma SmallestSufficientClass(size: int)
    ensures IsClass(CapacityFor(size))
    ensures forall c: nat :: IsClass(c) <==> c == 256 || c == 4096 || c == 32768
    ensures size <= CapacityFor(size) <==> size <= LARGE
    ensures forall c: nat | IsClass(c) && size <= c :: CapacityFor(size) <= c
  {
  }

  predicate AllOf(s: seq<array<byte>>, capacity: nat) {
    forall b | b in s :: b.Length == capacity
  }

  function Elements(s: seq<array<byte>>): set<array<byte>> {
    set b | b in s
  }

  predicate NoneTwice(s: seq<array<byte>>) {
    forall i, j | 0 <= i < j < |s| :: s[i] != s[j]
  }

  /** Taking element `i` out leaves the others, and leaves it out if it was there once. */
  lemma TakenOut(s: seq<array<byte>>, i: nat)
    requires i < |s|
    ensures var rest := s[..i] + s[i + 1..];
            && (forall b | b in rest :: b in s)
            && (forall b | b in s && b != s[i] :: b in rest)
            && (NoneTwice(s) ==> NoneTwice(rest) && s[i] !in rest)
  {
    var rest := s[..i] + s[i + 1..];
    forall b | b in s && b != s[i] ensures b in rest {
      var k :| 0 <= k < |s| && s[k] == b;
      assert rest[if k < i then k else k - 1] == b;
    }
  }

  lemma PutBehind(s: seq<array<byte>>, b: array<byte>)
    ensures NoneTwice(s + [b]) <==> NoneTwice(s) && b !in s
  {
    assert forall i, j | 0 <= i < j < |s| :: s[i] == (s + [b])[i] && s[j] == (s + [b])[j];
    if b in s {
      var k :| 0 <= k < |s| && s[k] == b;
      assert (s + [b])[k] == (s + [b])[|s|];
    }
  }

  /** Three `sync.Pool`s: bags of arrays, whose order says nothing. */
  class Pool {
    var small: seq<array<byte>>
    var medium: seq<array<byte>>
    var large: seq<array<byte>>

    /** The arrays waiting in the pool. */
    ghost var free: set<array<byte>>

    /** Every class keeps full-length buffers of its own size. */
    ghost predicate Valid()
      reads this
    {
      && AllOf(small, SMALL) && AllOf(medium, MEDIUM) && AllOf(large, LARGE)
      && free == Elements(small) + Elements(medium) + Elements(large)
    }

    /** No buffer has been put back while it was waiting. */
    ghost predicate Single()
      reads this
    {
      NoneTwice(small) && NoneTwice(medium) && NoneTwice(large)
    }

    constructor ()
      ensures Valid() && Single() && free == {}
    {
      small, medium, large := [], [], [];
      free := {};
    }

    /** `sync.Pool.Get`: any waiting buffer, or a new one. */
    static method Take(waiting: seq<array<byte>>, capacity: nat)
      returns (buf: array<byte>, rest: seq<array<byte>>)
      requires AllOf(waiting, capacity)
      ensures buf.Length == capacity && (buf in waiting || fresh(buf))
      ensures forall b | b in rest :: b in waiting
      ensures forall b | b in waiting && b != buf :: b in rest
      ensures NoneTwice(waiting) ==> NoneTwice(rest) && buf !in rest
    {
      var reuse: bool := *;
      if !reuse || waiting == [] {
        buf, rest := new byte[capacity](_ => 0), waiting;
      } else {
        var i: nat :| i < |waiting|;
        TakenOut(waiting, i);
        buf, rest := waiting[i], waiting[..i] + waiting[i + 1..];
      }
    }

    /** `Get`: the slice has the class's capacity and length zero. As long as no
        buffer has been put back while it was waiting, the caller owns the array:
        no other `Get` returns it before it is put back. */
    method Get(size: int) returns (buf: array<byte>, len: nat)
      requires Valid()
      modifies this
      ensures Valid()
      ensures len == 0 && buf.Length == CapacityFor(size)
      ensures buf in old(free) || fresh(buf)
      ensures free == old(free) - {buf} || free == old(free)
      ensures old(Single()) ==> Single() && buf !in free
    {
      len := 0;
      if size <= SMALL {
        buf, small := Take(small, SMALL);
        free := if buf in small then free else free - {buf};
      } else if size <= MEDIUM {
        buf, medium := Take(medium, MEDIUM);
        free := if buf in medium then free else free - {buf};
      } else {
        buf, large := Take(large, LARGE);
        free := if buf in large then free else free - {buf};
      }
    }

    /** `Put`: back into the class of its capacity; any other capacity is dropped.
        Nothing keeps a buffer from being put back twice. */
    method Put(buf: array<byte>)
      requires Valid()
      modifies this
      ensures Valid()
      ensures free == if IsClass(buf.Length) then old(free) + {buf} else old(free)
      ensures old(Single()) && IsClass(buf.Length) ==> (Single() <==> buf !in old(free))
    {
      if buf.Length == SMALL {
        PutBehind(small, buf);
        small := small + [buf];
      } else if buf.Length == MEDIUM {
        PutBehind(medium, buf);
        medium := medium + [buf];
      } else if buf.Length == LARGE {
        PutBehind(large, buf);
        large := large + [buf];
      }
      free := if IsClass(buf.Length) then free + {buf} else free;
    }
  }
}
