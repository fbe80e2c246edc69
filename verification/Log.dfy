/**
  log.c as it runs: the global `log`, its in-memory header, the pinned buffers and the
  disk they are written to. `trace` records the disk after every block write, so that a
  contract can speak of a crash between any two of them.
 */
module Log {
  import opened Blocks
  import opened LogSpec

  class Log {
    const area: LogArea
    var n: int                  // log.lh.n
    const block: array<Word>    // log.lh.block
    var outstanding: int
    var committing: bool
    var cache: map<Word, Block> // the buffers marked B_DIRTY, by block number
    var disk: Disk
    ghost var lh: seq<Word>     // the first n entries of block
    ghost var trace: seq<Disk>

    ghost predicate HeaderIs(s: seq<Word>)
      reads this`n, block
    {
      block.Length == LOGSIZE && n == |s| <= LOGSIZE && block[..n] == s
    }

    ghost predicate Valid()
      reads this, block
    {
      && HeaderIs(lh) && Distinct(lh)
      && area.Fits(disk) && |disk| <= 0x1_0000_0000
      && HomeBlocks(area, disk, lh)
      && (forall x :: x in cache <==> x in lh)
    }

    /** log.outstanding and log.committing, which LogProtocol's begin_op and end_op are about too */
    function Ops(): Gate
      reads this
    {
      Gate(outstanding, committing)
    }

    /** What the file system reads: the disk, with the modified blocks from the cache. */
    ghost function View(): Disk
      reads this
    {
      Overlay(disk, cache)
    }

    constructor (area: LogArea, disk: Disk)
      requires area.Fits(disk) && |disk| <= 0x1_0000_0000
      ensures Valid() && this.area == area && this.disk == disk && lh == []
      ensures outstanding == 0 && !committing && trace == [] && fresh(block)
    {
      this.area := area;
      this.disk := disk;
      n, outstanding, committing, cache, lh := 0, 0, false, map[], [];
      block := new Word[LOGSIZE](_ => 0);
      trace := [];
    }

    /** bread: the cached block if there is a modified one, else the block on disk. */
    method Bread(x: Word) returns (b: Block)
      requires x < |disk|
      ensures b == View()[x]
    {
      if x in cache {
        b := cache[x];
      } else {
        b := disk[x];
      }
    }

    /** bwrite: one atomic block write; iderw clears B_DIRTY, so the buffer is unpinned. */
    method Bwrite(x: Word, b: Block)
      requires x < |disk|
      modifies this`disk, this`cache, this`trace
      ensures disk == old(disk)[x := b] && cache == old(cache) - {x}
      ensures trace == old(trace) + [disk]
    {
      disk := disk[x := b];
      cache := cache - {x};
      trace := trace + [disk];
    }

    /** One pass of begin_op's loop, under log.lock; false means that it goes to sleep. */
    method TryBeginOp() returns (started: bool)
      modifies this`outstanding
      ensures started == Admits(old(Ops()), n)
      ensures Ops() == if started then Admitted(old(Ops())) else old(Ops())
      ensures started ==> n + outstanding * MAXOPBLOCKS <= LOGSIZE
    {
      if committing {
        started := false;
      } else if n + (outstanding + 1) * MAXOPBLOCKS > LOGSIZE {
        started := false;
      } else {
        outstanding := outstanding + 1;
        started := true;
      }
    }

    /** log_write; `panicked` stands for "too big a transaction" or "log_write outside of trans". */
    method LogWrite(x: Word, b: Block) returns (panicked: bool)
      requires Valid() && Home(area, disk, x)
      modifies this`n, this`lh, this`cache, block
      ensures Valid()
      ensures panicked == (TooBig(old(n), area.size) || outstanding < 1)
      ensures panicked ==> lh == old(lh) && cache == old(cache)
      ensures !panicked ==> lh == Absorb(old(lh), x) && View() == old(View())[x := b]
    {
      if n >= LOGSIZE || n >= area.size - 1 {
        return true;
      }
      if outstanding < 1 {
        return true;
      }
      var i := 0;
      while i < n && block[i] != x
        invariant 0 <= i <= n
        invariant x !in lh[..i]
      {
        i := i + 1;
      }
      block[i] := x;
      if i == n {
        n := n + 1;
        lh := lh + [x];
      } else {
        assert x == lh[i];
      }
      assert block[..n] == lh;
      AbsorbKeepsDistinct(old(lh), x);
      OverlayUpdate(disk, cache, x, b);
      cache := cache[x := b];
      panicked := false;
    }

    /** The first critical section of end_op; `woken` is wakeup(&log). */
    method LeaveOp() returns (panicked: bool, doCommit: bool, woken: bool)
      modifies this`outstanding, this`committing
      ensures Ops() == Departed(old(Ops())) && panicked == old(committing)
      ensures doCommit == Commits(old(Ops())) && woken == Wakes(old(Ops()))
    {
      doCommit, woken := false, false;
      outstanding := outstanding - 1;
      panicked := committing;
      if panicked {
        return;
      }
      if outstanding == 0 {
        doCommit := true;
        committing := true;
      } else {
        woken := true;
      }
    }

    method WriteLog()
      requires Valid() && ReadyToCommit(area, disk, lh, cache)
      modifies this`disk, this`trace, this`cache
      ensures disk == LogCopied(area, old(disk), lh, old(cache), n) && cache == old(cache)
      ensures trace == old(trace) + CopyTrace(area, old(disk), lh, old(cache), n)
    {
      LogIsNotPinned();
      var tail := 0;
      while tail < n
        invariant 0 <= tail <= n
        invariant cache == old(cache)
        invariant disk == LogCopied(area, old(disk), lh, old(cache), tail)
        invariant trace == old(trace) + CopyTrace(area, old(disk), lh, old(cache), tail)
      {
        assert block[tail] == lh[tail] && Home(area, disk, lh[tail]);
        var from := Bread(block[tail]);
        Bwrite(area.start + tail + 1, from);
        tail := tail + 1;
      }
    }

    lemma LogIsNotPinned()
      requires Valid()
      ensures forall x: Word :: area.Contains(x) ==> x !in cache
    {
      assert forall i :: 0 <= i < n ==> Home(area, disk, lh[i]);
    }

    method WriteHead()
      requires HeaderIs(lh) && area.Fits(disk) && |disk| <= 0x1_0000_0000 && area.start !in cache
      modifies this`disk, this`trace, this`cache
      ensures disk == HeadWritten(area, old(disk), lh) && cache == old(cache)
      ensures trace == old(trace) + [disk]
    {
      var hb := Bread(area.start);
      ghost var hb0 := hb;
      hb := StoreWord(hb, 0, n);
      var i := 0;
      while i < n
        invariant 0 <= i <= n
        invariant hb == PutEntries(StoreWord(hb0, 0, n), lh, i)
      {
        assert block[i] == lh[i];
        hb := StoreWord(hb, 1 + i, block[i]);
        i := i + 1;
      }
      Bwrite(area.start, hb);
      assert cache == old(cache);
    }

    /** Used by commit, with every logged block pinned, and by recovery, with none. */
    method InstallTrans()
      requires block.Length == LOGSIZE && n <= LOGSIZE && area.Fits(disk) && |disk| <= 0x1_0000_0000
      requires n >= 0 ==> HeaderIs(lh) && area.HasSlots(n) && HomeBlocks(area, disk, lh)
      requires forall x: Word :: area.Contains(x) ==> x !in cache
      modifies this`disk, this`trace, this`cache
      ensures n >= 0 ==>
                && disk == Installed(area, old(disk), lh, n)
                && cache.Keys == old(cache).Keys - (set x | x in lh)
                && trace == old(trace) + InstallTrace(area, old(disk), lh, n)
      ensures n < 0 ==> disk == old(disk) && cache == old(cache) && trace == old(trace)
    {
      var tail := 0;
      while tail < n
        invariant 0 <= tail
        invariant n < 0 ==> disk == old(disk) && cache == old(cache) && trace == old(trace)
        invariant n >= 0 ==>
                    && tail <= n
                    && disk == Installed(area, old(disk), lh, tail)
                    && cache.Keys == old(cache).Keys - (set x | x in lh[..tail])
                    && trace == old(trace) + InstallTrace(area, old(disk), lh, tail)
        decreases n - tail
      {
        assert block[tail] == lh[tail] && Home(area, disk, lh[tail]);
        var lbuf := Bread(area.start + tail + 1);
        Bwrite(block[tail], lbuf);
        assert lh[..tail + 1] == lh[..tail] + [lh[tail]];
        tail := tail + 1;
      }
    }

    /** commit() up to the write of the header, which commits the transaction. */
    method CommitHeader()
      requires Valid() && ReadyToCommit(area, disk, lh, cache)
      modifies this`disk, this`trace, this`cache
      ensures disk == Committed(area, old(disk), lh, old(cache)) && cache == old(cache)
      ensures trace == old(trace) + CopyTrace(area, old(disk), lh, old(cache), n) + [disk]
      ensures HeaderIs(lh) && HomeBlocks(area, disk, lh) && forall x: Word :: area.Contains(x) ==> x !in cache
    {
      LogIsNotPinned();
      WriteLog();
      WriteHead();
    }

    /** The rest of commit(): the logged blocks go home, and an empty header is written. */
    method CommitInstall()
      requires HeaderIs(lh) && area.Fits(disk) && |disk| <= 0x1_0000_0000 && area.HasSlots(n)
      requires HomeBlocks(area, disk, lh)
      requires (forall x: Word :: area.Contains(x) ==> x !in cache) && forall x :: x in cache ==> x in lh
      modifies this`disk, this`trace, this`cache, this`n, this`lh
      ensures Valid() && lh == [] && cache == map[]
      ensures disk == HeadWritten(area, Installed(area, old(disk), old(lh), old(n)), [])
      ensures trace == old(trace) + InstallTrace(area, old(disk), old(lh), old(n)) + [disk]
    {
      InstallTrans();
      assert cache.Keys == {};
      n, lh := 0, [];
      WriteHead();
    }

    /**
      commit(): its block writes leave the disks of CommitTrace, and at the end
      the home blocks are those the file system saw, with nothing left pinned or logged.
     */
    method Commit()
      requires Valid() && ReadyToCommit(area, disk, lh, cache)
      modifies this`disk, this`trace, this`cache, this`n, this`lh
      ensures Valid() && lh == [] && cache == map[]
      ensures SameHome(area, disk, old(View())) && HeadCount(disk[area.start]) == 0
      ensures trace == old(trace) + CommitTrace(area, old(disk), old(lh), old(cache))
    {
      if n > 0 {
        CommitHeader();
        CommitInstall();
        CommitFinishes(area, old(disk), old(lh), old(cache));
        assert disk == CommitPrefix(area, old(disk), old(lh), old(cache), 2 * |old(lh)| + 2);
      }
    }

    method ReadHead()
      requires area.Fits(disk) && |disk| <= 0x1_0000_0000 && block.Length == LOGSIZE && area.start !in cache
      requires HeadCount(disk[area.start]) <= LOGSIZE
      modifies this`n, this`lh, block
      ensures n <= LOGSIZE && HeadCount(disk[area.start]) == if n < 0 then 0 else n
      ensures n >= 0 ==> HeaderIs(lh) && lh == HeadBlocks(disk[area.start])
    {
      var hb := Bread(area.start);
      var count: int := LoadWord(hb, 0);
      n := if count < 0x8000_0000 then count else count - 0x1_0000_0000;
      ghost var count0 := n;
      var i := 0;
      while i < n
        invariant 0 <= i && n == count0
        invariant n >= 0 ==> i <= n
        invariant forall j :: 0 <= j < i && j < LOGSIZE ==> block[j] == LoadWord(hb, j + 1)
        decreases n - i
      {
        block[i] := LoadWord(hb, 1 + i);
        i := i + 1;
      }
      if n >= 0 {
        lh := block[..n];
        EntriesAre(hb, lh, n);
      }
    }

    /** recover_from_log at boot: its block writes leave the disks of RecoveryTrace. */
    method RecoverFromLog()
      requires block.Length == LOGSIZE && cache == map[] && |disk| <= 0x1_0000_0000
      requires ValidHead(area, disk)
      modifies this`disk, this`trace, this`cache, this`n, this`lh, block
      ensures Valid() && lh == [] && disk == Recovered(area, old(disk))
      ensures trace == old(trace) + RecoveryTrace(area, old(disk))
    {
      ReadHead();
      InstallTrans();
      n, lh := 0, [];
      WriteHead();
    }
  }
}
