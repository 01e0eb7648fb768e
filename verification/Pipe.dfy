/** Pipes (kernel/pipe.c): a ring of 512 bytes on counters that wrap at 2^32. */
module Pipe {
  import opened Basics

  const PIPESIZE: nat := 512

  type Byte = bv8

  /** The fields of struct pipe that carry bytes. */
  datatype Ring = Ring(data: seq<Byte>, nread: int, nwrite: int)

  function Full(r: Ring): bool { r.nwrite == (r.nread + PIPESIZE) % UINT }

  function Empty(r: Ring): bool { r.nread == r.nwrite }

  predicate Shape(r: Ring) { |r.data| == PIPESIZE && 0 <= r.nread < UINT && 0 <= r.nwrite < UINT }

  function Put(r: Ring, c: Byte): Ring
    requires Shape(r)
  {
    r.(data := r.data[r.nwrite % PIPESIZE := c], nwrite := (r.nwrite + 1) % UINT)
  }

  function Front(r: Ring): Byte
    requires Shape(r)
  {
    r.data[r.nread % PIPESIZE]
  }

  function Advance(r: Ring): Ring { r.(nread := (r.nread + 1) % UINT) }

  /** All bytes ever put in, and how many of them have been taken out again: the ring holds the
      others, and the counters are those totals modulo 2^32. */
  ghost predicate Holds(r: Ring, accepted: seq<Byte>, taken: int) {
    && Shape(r) && 0 <= taken <= |accepted| <= taken + PIPESIZE
    && r.nread == taken % UINT && r.nwrite == |accepted| % UINT
    && forall k :: taken <= k < |accepted| ==> At(r, k) == accepted[k]
  }

  function At(r: Ring, k: int): Byte
    requires |r.data| == PIPESIZE
  {
    r.data[k % PIPESIZE]
  }

  /** 512 divides 2^32, so a wrapped counter finds the same place in the ring. */
  lemma SamePlace(k: int)
    ensures k % UINT % PIPESIZE == k % PIPESIZE
  {
    MultipleDrops(0x80_0000 * (k / UINT), k % UINT);
  }

  lemma MultipleDrops(a: int, m: int)
    ensures (PIPESIZE * a + m) % PIPESIZE == m % PIPESIZE
  {
  }

  /** The tests on wrapped counters are the tests on the totals. */
  lemma FullAndEmpty(r: Ring, accepted: seq<Byte>, taken: int)
    requires Holds(r, accepted, taken)
    ensures Full(r) <==> |accepted| == taken + PIPESIZE
    ensures Empty(r) <==> |accepted| == taken
  {
  }

  lemma PutHolds(r: Ring, accepted: seq<Byte>, taken: int, c: Byte)
    requires Holds(r, accepted, taken) && !Full(r)
    ensures Holds(Put(r, c), accepted + [c], taken)
  {
    hide Full;
    FullAndEmpty(r, accepted, taken);
    SamePlace(|accepted|);
    NextCount(|accepted|);
    var r', accepted' := Put(r, c), accepted + [c];
    forall k | taken <= k < |accepted'| ensures At(r', k) == accepted'[k] {
      if k < |accepted| { Apart(k, |accepted|); }
    }
  }

  lemma Apart(k: int, m: int)
    requires k < m < k + PIPESIZE
    ensures k % PIPESIZE != m % PIPESIZE
  {
  }

  lemma TakeHolds(r: Ring, accepted: seq<Byte>, taken: int)
    requires Holds(r, accepted, taken) && !Empty(r)
    ensures Front(r) == accepted[taken] && Holds(Advance(r), accepted, taken + 1)
  {
    FullAndEmpty(r, accepted, taken);
    SamePlace(taken);
    assert At(r, taken) == accepted[taken];
    hide Full;
    var r' := Advance(r);
    forall k | taken + 1 <= k < |accepted| ensures At(r', k) == accepted[k] { assert At(r, k) == accepted[k]; }
    NextCount(taken);
  }

  lemma NextCount(k: int)
    ensures (k % UINT + 1) % UINT == (k + 1) % UINT
  {
  }

  // ----- every interleaving ----------------------------------------------------------------------------

  /** A pipe with its history. */
  datatype State = State(ring: Ring, accepted: seq<Byte>, delivered: seq<Byte>)

  datatype Step = In(c: Byte) | Out

  /** One byte goes in or out under the lock, whichever process does it. */
  ghost predicate Next(s: State, step: Step, s': State) {
    && Shape(s.ring)
    && match step
       case In(c) => !Full(s.ring) && s' == State(Put(s.ring, c), s.accepted + [c], s.delivered)
       case Out => !Empty(s.ring) && s' == State(Advance(s.ring), s.accepted, s.delivered + [Front(s.ring)])
  }

  ghost predicate Fifo(s: State) {
    Holds(s.ring, s.accepted, |s.delivered|) && s.delivered == s.accepted[..|s.delivered|]
  }

  ghost predicate Init(s: State) {
    Shape(s.ring) && s.ring.nread == 0 && s.ring.nwrite == 0 && s.accepted == [] && s.delivered == []
  }

  ghost predicate IsRun(ss: seq<State>, steps: seq<Step>) {
    |ss| == |steps| + 1 && Init(ss[0]) && forall k :: 0 <= k < |steps| ==> Next(ss[k], steps[k], ss[k + 1])
  }

  lemma StepFifo(s: State, step: Step, s': State)
    requires Fifo(s) && Next(s, step, s')
    ensures Fifo(s')
  {
    hide Holds, Full, Empty, Put, Advance, Front;
    Bounds(s);
    match step
    case In(c) =>
      PutHolds(s.ring, s.accepted, |s.delivered|, c);
      assert (s.accepted + [c])[..|s.delivered|] == s.accepted[..|s.delivered|];
    case Out =>
      TakeHolds(s.ring, s.accepted, |s.delivered|);
      Bounds2(s);
      assert s.accepted[..|s.delivered| + 1] == s.accepted[..|s.delivered|] + [s.accepted[|s.delivered|]];
  }

  lemma Bounds(s: State)
    requires Holds(s.ring, s.accepted, |s.delivered|)
    ensures |s.delivered| <= |s.accepted| <= |s.delivered| + PIPESIZE
  {
  }

  lemma Bounds2(s: State)
    requires Holds(s.ring, s.accepted, |s.delivered|) && !Empty(s.ring)
    ensures |s.delivered| < |s.accepted|
  {
    FullAndEmpty(s.ring, s.accepted, |s.delivered|);
  }

  /** However long the run, and however often the counters wrap: what comes out is what went in,
      in order, and the difference is the at most 512 bytes in the ring. */
  lemma {:induction false} RunFifo(ss: seq<State>, steps: seq<Step>, k: nat)
    requires IsRun(ss, steps) && k <= |steps|
    ensures Fifo(ss[k]) && ss[k].delivered <= ss[k].accepted
    ensures |ss[k].accepted| <= |ss[k].delivered| + PIPESIZE
  {
    if k > 0 {
      RunFifo(ss, steps, k - 1);
      assert Next(ss[k - 1], steps[k - 1], ss[k]);
      hide Next, IsRun;
      StepFifo(ss[k - 1], steps[k - 1], ss[k]);
    }
  }

  // ----- the code -----------------------------------------------------------------------------------------

  /** How a stretch of pipewrite() or piperead() under the lock ends. */
  datatype Outcome = Returned(v: int) | Sleeps

  class PipeBuffer {
    const data: array<Byte>
    var nread: int
    var nwrite: int
    var readopen: bool
    var writeopen: bool
    ghost var accepted: seq<Byte>
    ghost var delivered: seq<Byte>

    ghost function St(): State
      reads this, data
    {
      State(Ring(data[..], nread, nwrite), accepted, delivered)
    }

    ghost predicate Valid()
      reads this, data
    {
      data.Length == PIPESIZE && Shape(St().ring) && Fifo(St())
    }

    /** pipealloc()'s part. */
    constructor ()
      ensures Valid() && fresh(data) && accepted == [] && delivered == [] && readopen && writeopen
    {
      data := new Byte[PIPESIZE];
      nread, nwrite, readopen, writeopen, accepted, delivered := 0, 0, true, true, [], [];
    }

    /** pipeclose(): says whether the pipe's page is freed. */
    method Close(writable: bool) returns (freed: bool)
      requires Valid()
      modifies `readopen, `writeopen
      ensures Valid() && writeopen == (old(writeopen) && !writable) && readopen == (old(readopen) && writable)
      ensures freed <==> !readopen && !writeopen
    {
      if writable { writeopen := false; } else { readopen := false; }
      return !readopen && !writeopen;
    }

    /** Store one byte. */
    method PutByte(c: Byte)
      requires Valid() && !Full(St().ring)
      modifies `nwrite, `accepted, data
      ensures Valid() && accepted == old(accepted) + [c]
    {
      hide Fifo, Full;
      ghost var s := St();
      data[nwrite % PIPESIZE] := c;
      nwrite := (nwrite + 1) % UINT;
      accepted := accepted + [c];
      assert St().ring.data == Put(s.ring, c).data;
      StepFifo(s, In(c), St());
    }

    /** One stretch of pipewrite() under the lock, from byte i0 on.  killed(pr) holds from byte
        `killedFrom` on, copyin() fails from byte `badFrom` on. */
    method Write(src: seq<Byte>, i0: int, n: int, killedFrom: int, badFrom: int) returns (i: int, out: Outcome)
      requires Valid() && 0 <= i0 <= |src| && n <= |src|
      modifies `nwrite, `accepted, data
      ensures Valid() && i0 <= i <= |src| && accepted == old(accepted) + src[i0..i]
      ensures i0 < i ==> readopen && i <= n && i <= killedFrom && i <= badFrom
      ensures out == if i >= n then Returned(i)
                     else if !readopen || i >= killedFrom then Returned(-1)
                     else if |accepted| == |delivered| + PIPESIZE then Sleeps
                     else Returned(i)
      ensures out == Returned(i) ==> i >= n || i >= badFrom
    {
      hide Fifo, Shape;
      i := i0;
      while i < n
        invariant Valid() && i0 <= i <= |src| && accepted == old(accepted) + src[i0..i]
        invariant i0 < i ==> readopen && i <= n && i <= killedFrom && i <= badFrom
      {
        if !readopen || i >= killedFrom { return i, Returned(-1); }
        CountsTell(St());
        if nwrite == (nread + PIPESIZE) % UINT {
          return i, Sleeps;
        } else {
          if i >= badFrom { break; }
          PutByte(src[i]);
          i := i + 1;
        }
      }
      return i, Returned(i);
    }

    /** Take one byte out. */
    method TakeByte() returns (c: Byte)
      requires Valid() && !Empty(St().ring)
      modifies `nread, `delivered
      ensures Valid() && delivered == old(delivered) + [c]
    {
      hide Fifo, Empty;
      ghost var s := St();
      c := data[nread % PIPESIZE];
      nread := (nread + 1) % UINT;
      delivered := delivered + [c];
      StepFifo(s, Out, St());
    }

    /** One stretch of piperead() under the lock; copyout() fails from byte `badFrom` on. */
    method Read(n: int, killed: bool, badFrom: int) returns (got: seq<Byte>, out: Outcome)
      requires Valid()
      modifies `nread, `delivered
      ensures Valid() && delivered == old(delivered) + got && delivered <= accepted
      ensures |got| == Deliverable(n, |accepted| - |old(delivered)|, badFrom)
      ensures out == if accepted == old(delivered) && writeopen then (if killed then Returned(-1) else Sleeps)
                     else if n > 0 && accepted != old(delivered) && badFrom <= 0 then Returned(-1)
                     else Returned(|got|)
    {
      hide Fifo, Shape;
      got := [];
      CountsTell(St());
      if nread == nwrite && writeopen {
        if killed { return got, Returned(-1); }
        return got, Sleeps;
      }
      var i := 0;
      while i < n
        invariant Valid() && 0 <= i == |got| && delivered == old(delivered) + got && (i > 0 ==> i <= n && i <= badFrom)
      {
        CountsTell(St());
        if nread == nwrite { break; }
        if i >= badFrom {
          if i == 0 { i := -1; }
          return got, Returned(i);
        }
        var c := TakeByte();
        got := got + [c];
        i := i + 1;
      }
      CountsTell(St());
      return got, Returned(i);
    }
  }

  /** How many bytes a read of n gets, with `pending` in the ring and copyout() failing from byte
      `badFrom` on. */
  function Deliverable(n: int, pending: int, badFrom: int): int {
    var m := if n < pending then n else pending;
    var k := if badFrom < m then badFrom else m;
    if k < 0 then 0 else k
  }

  /** What the counters say of the history. */
  lemma CountsTell(s: State)
    requires Shape(s.ring) && Fifo(s)
    ensures Full(s.ring) <==> |s.accepted| == |s.delivered| + PIPESIZE
    ensures Empty(s.ring) <==> s.accepted == s.delivered
    ensures s.delivered <= s.accepted
  {
    FullAndEmpty(s.ring, s.accepted, |s.delivered|);
    if |s.accepted| == |s.delivered| { assert s.accepted[..|s.delivered|] == s.accepted; }
  }
}
