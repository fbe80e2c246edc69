/** The loops of pipe.c over the ring buffer, between one sleep or release of p->lock and the next. */
module Pipe {
  import opened Blocks
  import opened PipeSpec

  class Ring {
    const data: array<Byte>
    var nread: Word
    var nwrite: Word
    var readopen: bool
    var writeopen: bool

    ghost function Abs(): PipeSpec.Pipe
      reads this, data
    {
      PipeSpec.Pipe(data[..], nread, nwrite, readopen, writeopen)
    }

    constructor ()
      ensures fresh(data) && Ok(Abs()) && Empty(Abs()) && readopen && writeopen
    {
      data := new Byte[PIPESIZE](_ => 0);
      nread, nwrite, readopen, writeopen := 0, 0, true, true;
    }

    /** p->data[p->nwrite++ % PIPESIZE] = b */
    method PutByte(b: Byte)
      requires data.Length == PIPESIZE
      modifies this`nwrite, data
      ensures Abs() == Put(old(Abs()), b)
    {
      data[nwrite % PIPESIZE] := b;
      nwrite := (nwrite + 1) % WRAP;
    }

    /** pipewrite's loop from byte i on: returns at the first byte that does not fit, or at the end. */
    method Write(addr: seq<Byte>, i: nat) returns (i': nat)
      requires Ok(Abs()) && i <= |addr|
      modifies this`nwrite, data
      ensures (Abs(), i') == Fill(old(Abs()), addr, i) && Ok(Abs())
      ensures Buffered(Abs()) == old(Buffered(Abs())) + addr[i..i'] && (i' < |addr| ==> Full(Abs()))
    {
      FillAppends(Abs(), addr, i);
      ghost var r := Fill(Abs(), addr, i);
      i' := i;
      while i' < |addr| && nwrite != (nread + PIPESIZE) % WRAP
        invariant i <= i' <= |addr| && data.Length == PIPESIZE
        invariant r == Fill(Abs(), addr, i')
      {
        PutByte(addr[i']);
        i' := i' + 1;
      }
    }

    /** p->data[p->nread++ % PIPESIZE] */
    method Take() returns (b: Byte)
      requires data.Length == PIPESIZE
      modifies this`nread
      ensures Abs() == Next(old(Abs())) && b == data[old(nread) % PIPESIZE]
    {
      b := data[nread % PIPESIZE];
      nread := (nread + 1) % WRAP;
    }

    /** piperead's loop: at most n bytes */
    method Read(n: nat) returns (addr: seq<Byte>)
      requires Ok(Abs())
      modifies this`nread
      ensures (Abs(), addr) == Drain(old(Abs()), n) && Ok(Abs())
      ensures old(Buffered(Abs())) == addr + Buffered(Abs()) && (|addr| == n || Empty(Abs()))
    {
      DrainTakes(Abs(), n);
      ghost var r := Drain(Abs(), n);
      ghost var left := r;
      addr := [];
      var i := 0;
      while i < n
        invariant i <= n && |addr| == i && data.Length == PIPESIZE
        invariant left == Drain(Abs(), n - i) && r.0 == left.0 && r.1 == addr + left.1
      {
        if nread == nwrite {
          assert addr + [] == addr;
          return;
        }
        ghost var before := left;
        left := Drain(Next(Abs()), n - i - 1);
        var b := Take();
        assert before == (left.0, [b] + left.1);
        assert addr + ([b] + left.1) == addr + [b] + left.1;
        addr, i := addr + [b], i + 1;
      }
      assert addr + [] == addr;
    }

    /** pipeclose; `last` tells that the page is freed, which PipeProtocol.FreedIsIdle shows nobody to be using */
    method Close(writable: bool) returns (last: bool)
      modifies this`readopen, this`writeopen
      ensures Abs() == Closed(old(Abs()), writable) && last == Gone(Abs())
    {
      if writable {
        writeopen := false;
      } else {
        readopen := false;
      }
      last := !readopen && !writeopen;
    }
  }
}
