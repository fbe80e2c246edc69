/**
  pipe.c on values: the ring buffer with its 32-bit counters, and any number of readers and
  writers that take turns at p->lock. A step is what one of them does between taking the lock
  and releasing it, or going to sleep, which SleepLock shows to lose no wakeup.
 */
module PipeSpec {
  import opened Basics
  import opened Blocks

  const PIPESIZE: nat := 512
  const WRAP: nat := 0x1_0000_0000

  datatype Pipe = Pipe(data: seq<Byte>, nread: Word, nwrite: Word, readopen: bool, writeopen: bool)

  /** How many bytes are in the pipe, through any wrap-around of the counters. */
  function Len(p: Pipe): nat {
    (p.nwrite - p.nread) % WRAP
  }

  predicate Ok(p: Pipe) {
    |p.data| == PIPESIZE && Len(p) <= PIPESIZE
  }

  /** p->nwrite == p->nread + PIPESIZE */
  predicate Full(p: Pipe) {
    p.nwrite == (p.nread + PIPESIZE) % WRAP
  }

  predicate Empty(p: Pipe) {
    p.nread == p.nwrite
  }

  lemma FullAndEmpty(p: Pipe)
    requires Ok(p)
    ensures Full(p) <==> Len(p) == PIPESIZE
    ensures Empty(p) <==> Len(p) == 0
  {
  }

  /** n bytes of the ring from counter value `at` on */
  function Ring(data: seq<Byte>, at: nat, n: nat): (r: seq<Byte>)
    requires |data| == PIPESIZE
    ensures |r| == n
    decreases n
  {
    if n == 0 then [] else [data[at % PIPESIZE]] + Ring(data, at + 1, n - 1)
  }

  /** The bytes in the pipe, oldest first. */
  function Buffered(p: Pipe): (r: seq<Byte>)
    requires Ok(p)
    ensures |r| == Len(p) <= PIPESIZE
  {
    Ring(p.data, p.nread, Len(p))
  }

  lemma {:induction false} RingAt(data: seq<Byte>, at: nat, n: nat, i: nat)
    requires |data| == PIPESIZE && i < n
    ensures Ring(data, at, n)[i] == data[(at + i) % PIPESIZE]
    decreases n
  {
    if i > 0 {
      RingAt(data, at + 1, n - 1, i - 1);
    }
  }

  /** p->data[p->nwrite++ % PIPESIZE] = b */
  function Put(p: Pipe, b: Byte): (r: Pipe)
    requires |p.data| == PIPESIZE
    ensures |r.data| == PIPESIZE
  {
    p.(data := p.data[p.nwrite % PIPESIZE := b], nwrite := (p.nwrite + 1) % WRAP)
  }

  /** p->nread++ */
  function Next(p: Pipe): Pipe {
    p.(nread := (p.nread + 1) % WRAP)
  }

  /** pipeclose: one end goes. */
  function Closed(p: Pipe, writable: bool): Pipe {
    if writable then p.(writeopen := false) else p.(readopen := false)
  }

  /** The page goes back when both ends are gone. */
  predicate Gone(p: Pipe) {
    !p.readopen && !p.writeopen
  }

  /** The slot of the next byte, and that of every buffered one, for counters that may have wrapped. */
  lemma Slots(p: Pipe, i: nat)
    requires Ok(p) && i <= Len(p)
    ensures (p.nread + Len(p)) % PIPESIZE == p.nwrite % PIPESIZE
    ensures i < Len(p) < PIPESIZE ==> (p.nread + i) % PIPESIZE != p.nwrite % PIPESIZE
  {
    assert p.nread + Len(p) == p.nwrite || p.nread + Len(p) == p.nwrite + WRAP;
  }

  lemma PutLen(p: Pipe, b: Byte)
    requires Ok(p) && !Full(p)
    ensures Ok(Put(p, b)) && Len(Put(p, b)) == Len(p) + 1
  {
    FullAndEmpty(p);
  }

  /** Writing a byte appends it and disturbs none that is waiting. */
  lemma PutAppends(p: Pipe, b: Byte)
    requires Ok(p) && !Full(p)
    ensures Ok(Put(p, b)) && Buffered(Put(p, b)) == Buffered(p) + [b]
  {
    PutLen(p, b);
    FullAndEmpty(p);
    var q := Put(p, b);
    forall i: nat | i < Len(q)
      ensures Buffered(q)[i] == (Buffered(p) + [b])[i]
    {
      RingAt(q.data, q.nread, Len(q), i);
      Slots(p, Len(p));
      if i < Len(p) {
        RingAt(p.data, p.nread, Len(p), i);
        Slots(p, i);
      }
    }
  }

  lemma NextLen(p: Pipe)
    requires Ok(p) && !Empty(p)
    ensures Ok(Next(p)) && Len(Next(p)) == Len(p) - 1
  {
    FullAndEmpty(p);
    assert p.nwrite == p.nread + Len(p) || p.nwrite + WRAP == p.nread + Len(p);
    assert Next(p).nread == p.nread + 1 || Next(p).nread + WRAP == p.nread + 1;
    assert p.nwrite - Next(p).nread == Len(p) - 1 || p.nwrite - Next(p).nread == Len(p) - 1 - WRAP
        || p.nwrite - Next(p).nread == Len(p) - 1 + WRAP;
  }

  lemma NextSlot(p: Pipe, i: nat)
    ensures (Next(p).nread + i) % PIPESIZE == (p.nread + (i + 1)) % PIPESIZE
  {
    assert Next(p).nread == p.nread + 1 || Next(p).nread + WRAP == p.nread + 1;
  }

  /** Reading takes the oldest byte. */
  lemma NextTakes(p: Pipe)
    requires Ok(p) && !Empty(p)
    ensures Ok(Next(p)) && Buffered(p) == [p.data[p.nread % PIPESIZE]] + Buffered(Next(p))
  {
    NextLen(p);
    var q := Next(p);
    var first := [p.data[p.nread % PIPESIZE]];
    forall i: nat | i < Len(p)
      ensures Buffered(p)[i] == (first + Buffered(q))[i]
    {
      RingAt(p.data, p.nread, Len(p), i);
      if i > 0 {
        RingAt(q.data, q.nread, Len(q), i - 1);
        NextSlot(p, i - 1);
      }
    }
  }

  // ---------- critical sections ----------

  /** pipewrite's loop: bytes i .. go in until all are or the pipe is full. */
  function Fill(p: Pipe, src: seq<Byte>, i: nat): (r: (Pipe, nat))
    requires |p.data| == PIPESIZE && i <= |src|
    ensures i <= r.1 <= |src| && |r.0.data| == PIPESIZE
    ensures r.1 < |src| ==> Full(r.0)
    decreases |src| - i
  {
    if i < |src| && !Full(p) then Fill(Put(p, src[i]), src, i + 1) else (p, i)
  }

  /** piperead's loop: up to n bytes come out. */
  function Drain(p: Pipe, n: nat): (r: (Pipe, seq<Byte>))
    requires |p.data| == PIPESIZE
    ensures |r.1| <= n && |r.0.data| == PIPESIZE
    decreases n
  {
    if n == 0 || Empty(p) then (p, [])
    else
      var b := p.data[p.nread % PIPESIZE];
      var rest := Drain(Next(p), n - 1);
      (rest.0, [b] + rest.1)
  }

  lemma {:induction false} FillAppends(p: Pipe, src: seq<Byte>, i: nat)
    requires Ok(p) && i <= |src|
    ensures var r := Fill(p, src, i);
            && Ok(r.0) && Buffered(r.0) == Buffered(p) + src[i..r.1]
            && r.0.readopen == p.readopen && r.0.writeopen == p.writeopen
            && (i < |src| && !Full(p) ==> i < r.1)
    decreases |src| - i
  {
    if i < |src| && !Full(p) {
      PutAppends(p, src[i]);
      FillAppends(Put(p, src[i]), src, i + 1);
      var r := Fill(p, src, i);
      assert [src[i]] + src[i + 1..r.1] == src[i..r.1];
    }
  }

  lemma {:induction false} DrainTakes(p: Pipe, n: nat)
    requires Ok(p)
    ensures var r := Drain(p, n);
            && Ok(r.0) && Buffered(p) == r.1 + Buffered(r.0) && (|r.1| == n || Empty(r.0))
            && r.0.readopen == p.readopen && r.0.writeopen == p.writeopen
    decreases n
  {
    if n > 0 && !Empty(p) {
      var q, b := Next(p), [p.data[p.nread % PIPESIZE]];
      var rest := Drain(q, n - 1);
      NextTakes(p);
      DrainTakes(q, n - 1);
      Regroup(b, rest.1, Buffered(rest.0));
    }
  }

  /** An empty pipe takes what is left of the bytes if and only if they are PIPESIZE at most. */
  lemma EmptyTakes(p: Pipe, src: seq<Byte>, i: nat)
    requires Ok(p) && Empty(p) && i <= |src|
    ensures var r := Fill(p, src, i);
            && (r.1 == |src| <==> |src| - i <= PIPESIZE) && (r.1 < |src| ==> Full(r.0) && !Empty(r.0))
  {
    var r := Fill(p, src, i);
    FillAppends(p, src, i);
    FullAndEmpty(p);
    FullAndEmpty(r.0);
    assert |Buffered(r.0)| == Len(p) + (r.1 - i);
  }
}
