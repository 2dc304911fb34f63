/** pipe.c: the ring buffer. A call is the sequence of critical sections between its sleeps; each
    method below is one of them, so every interleaving of readers and writers is a sequence of
    method calls. Calls on a pipe whose two ends are closed do not occur: it has been freed. */
module Pipe {
  import opened Common

  const PIPESIZE := 512

  datatype Outcome<T> = Returned(value: T) | Failed | Slept

  /** Adding d to a counter, after wrapping. */
  lemma WrappedAdd(a: nat, d: nat)
    requires d <= PIPESIZE
    ensures (a + d) % LIMIT32 == if a % LIMIT32 + d < LIMIT32 then a % LIMIT32 + d else a % LIMIT32 + d - LIMIT32
    ensures (a % LIMIT32 + d) % LIMIT32 == (a + d) % LIMIT32
  {
    var q, m := a / LIMIT32, a % LIMIT32;
    assert a + d == LIMIT32 * q + (m + d);
    if m + d >= LIMIT32 {
      assert a + d == LIMIT32 * (q + 1) + (m + d - LIMIT32);
    }
  }

  /** Counters that differ by at most PIPESIZE can be compared after wrapping. */
  lemma WrappedCompare(a: nat, b: nat)
    requires a <= b <= a + PIPESIZE
    ensures b % LIMIT32 == (a % LIMIT32 + PIPESIZE) % LIMIT32 <==> b == a + PIPESIZE
    ensures b % LIMIT32 == a % LIMIT32 <==> b == a
  {
    WrappedAdd(a, b - a);
    WrappedAdd(a, PIPESIZE);
  }

  /** The slot a wrapped counter selects. */
  lemma WrappedSlot(a: nat)
    ensures a % LIMIT32 % PIPESIZE == a % PIPESIZE
    ensures (a % LIMIT32 + 1) % LIMIT32 == (a + 1) % LIMIT32
  {
  }

  /** Two bytes in flight never share a slot. */
  lemma SlotsDistinct(a: nat, b: nat)
    requires a < b < a + PIPESIZE
    ensures a % PIPESIZE != b % PIPESIZE
  {
  }

  class Pipe<Byte(0)> {
    const data: array<Byte>
    var nread: nat
    var nwrite: nat
    var readopen: bool
    var writeopen: bool
    ghost var accepted: seq<Byte>    // everything pipewrite has stored
    ghost var delivered: seq<Byte>   // everything piperead has returned

    /** FIFO: what was delivered is a prefix of what was accepted, at most PIPESIZE bytes are in
        flight and the ring holds exactly those, although the counters wrap modulo 2^32. */
    ghost predicate Valid()
      reads this, data
    {
      && data.Length == PIPESIZE
      && |delivered| <= |accepted| <= |delivered| + PIPESIZE
      && delivered == accepted[..|delivered|]
      && nread == |delivered| % LIMIT32
      && nwrite == |accepted| % LIMIT32
      && (forall k | |delivered| <= k < |accepted| :: data[k % PIPESIZE] == accepted[k])
    }

    constructor ()
      ensures Valid() && readopen && writeopen && accepted == [] && delivered == [] && fresh(data)
    {
      data := new Byte[PIPESIZE];
      nread, nwrite, readopen, writeopen := 0, 0, true, true;
      accepted, delivered := [], [];
    }

    /** pipewrite from byte i on, until it is done, fails or has to sleep. */
    method WriteFrom(addr: seq<Byte>, start: nat, killed: bool) returns (r: Outcome<nat>, i: nat)
      requires Valid() && start <= |addr|
      modifies this`nwrite, this`accepted, data
      ensures Valid() && start <= i <= |addr|
      ensures accepted == old(accepted) + addr[start..i]
      ensures r.Returned? <==> i == |addr|
      ensures r.Returned? ==> r.value == |addr|
      ensures !r.Returned? ==> |accepted| == |delivered| + PIPESIZE
      ensures !r.Returned? ==> (r.Failed? <==> !readopen || killed)
    {
      i := start;
      while i < |addr|
        invariant Valid() && start <= i <= |addr|
        invariant accepted == old(accepted) + addr[start..i]
      {
        WrappedCompare(|delivered|, |accepted|);
        if nwrite == (nread + PIPESIZE) % LIMIT32 {
          if !readopen || killed {
            return Failed, i;
          }
          return Slept, i;
        }
        WriteByte(addr[i]);
        i := i + 1;
      }
      r := Returned(|addr|);
    }

    method WriteByte(x: Byte)
      requires Valid() && |accepted| < |delivered| + PIPESIZE
      modifies this`nwrite, this`accepted, data
      ensures Valid() && accepted == old(accepted) + [x]
    {
      WrappedSlot(|accepted|);
      data[nwrite % PIPESIZE] := x;
      nwrite := (nwrite + 1) % LIMIT32;
      forall k | |delivered| <= k < |accepted| ensures k % PIPESIZE != |accepted| % PIPESIZE {
        SlotsDistinct(k, |accepted|);
      }
      accepted := accepted + [x];
    }

    /** piperead of n bytes, up to its return or its first sleep. */
    method Read(n: int, killed: bool) returns (r: Outcome<seq<Byte>>)
      requires Valid()
      modifies this`nread, this`delivered
      ensures Valid()
      ensures !r.Returned? <==> old(delivered) == accepted && writeopen
      ensures !r.Returned? ==> delivered == old(delivered) && (r.Failed? <==> killed)
      ensures r.Returned? ==> delivered == old(delivered) + r.value
      ensures r.Returned? ==> |r.value| == n || (|r.value| < n && delivered == accepted) || (n < 0 && r.value == [])
      ensures r.Returned? && n > 0 && r.value == [] ==> delivered == accepted && !writeopen
    {
      WrappedCompare(|delivered|, |accepted|);
      if nread == nwrite && writeopen {
        return if killed then Failed else Slept;
      }
      var bytes: seq<Byte> := [];
      var i := 0;
      while i < n
        invariant Valid() && 0 <= i && (n >= 0 ==> i <= n) && (n < 0 ==> i == 0) && |bytes| == i
        invariant delivered == old(delivered) + bytes
      {
        WrappedCompare(|delivered|, |accepted|);
        if nread == nwrite { break; }
        WrappedSlot(|delivered|);
        bytes := bytes + [data[nread % PIPESIZE]];
        nread := (nread + 1) % LIMIT32;
        delivered := delivered + [accepted[|delivered|]];
        i := i + 1;
      }
      r := Returned(bytes);
    }

    /** pipeclose; the pipe's page is freed exactly when both ends are closed. */
    method Close(writable: bool) returns (freed: bool)
      requires Valid()
      modifies this`readopen, this`writeopen
      ensures Valid()
      ensures writeopen == (old(writeopen) && !writable) && readopen == (old(readopen) && writable)
      ensures freed <==> !readopen && !writeopen
    {
      if writable { writeopen := false; } else { readopen := false; }
      freed := !readopen && !writeopen;
    }
  }
}
