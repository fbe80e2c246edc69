/**
  bio.c as it runs. Each method is one atomic step: bget and brelse work under bcache.lock, and the others by
  the holder of a buffer's sleep-lock, so the invariant holds at every interleaving of them.
  The disk is memide.c's: iderw moves one block at once.
 */
module Bio {
  import opened Blocks
  import opened BioSpec

  class Bcache {
    const n: nat                 // NBUF; node n is the list head
    var next: seq<nat>
    var prev: seq<nat>
    var buf: seq<Buf>
    var disk: seq<Block>
    ghost var order: seq<nat>    // the ring from head.next on
    ghost var stamp: seq<nat>    // when each buffer was last released
    ghost var clock: nat

    /** The ring is what it should be. */
    ghost predicate Linked()
      reads this
    {
      && |buf| == n && |stamp| == n && Ring(next, prev, n, order) && (forall i: nat :: i < n ==> i in order)
      && ByRelease(order, stamp, clock)
    }

    ghost predicate Valid()
      reads this
    {
      Linked() && BufsOk(buf, disk)
    }

    ghost function Content(k: nat): Block
      requires k < |disk|
      reads this
    {
      Contents(buf, disk, k)
    }

    /** binit; every buffer starts as block 0 of device 0. */
    constructor (n: nat, disk: seq<Block>, zeros: Block)
      ensures Valid() && this.n == n && this.disk == disk && |order| == n
      ensures forall i :: 0 <= i < n ==> order[i] == n - 1 - i
      ensures forall k: nat :: k < |disk| ==> Content(k) == disk[k]
    {
      this.n := n;
      this.disk := disk;
      next, prev := NoLinks(n + 1)[n := n], NoLinks(n + 1)[n := n];
      buf := Empty(n, zeros);
      order, stamp, clock := [], UpTo(n), n;
      new;
      Chain();
      AllFresh();
    }

    lemma AllFresh()
      requires Ring(next, prev, n, order) && |buf| == n && |order| == n && clock == n && stamp == UpTo(n)
      requires forall i :: 0 <= i < n ==> order[i] == n - 1 - i
      requires forall i :: 0 <= i < n ==> buf[i].dev == 0 && !buf[i].valid && !buf[i].dirty && !buf[i].locked
      ensures Valid() && forall k: nat :: k < |disk| ==> Content(k) == disk[k]
    {
      FreshBufs(buf, disk);
      Downwards(order, stamp, n);
    }

    /** binit's loop puts each buffer at the front. */
    method Chain()
      requires Ring(next, prev, n, []) && order == []
      modifies this`next, this`prev, this`order
      ensures Ring(next, prev, n, order) && |order| == n && forall i :: 0 <= i < n ==> order[i] == n - 1 - i
    {
      var b := 0;
      while b < n
        invariant 0 <= b <= n && Ring(next, prev, n, order) && |order| == b
        invariant forall i :: 0 <= i < b ==> order[i] == b - 1 - i
      {
        Push(b, order);
        order := [b] + order;
        b := b + 1;
      }
    }

    /**
      bget up to acquiresleep: the block's buffer, or the one released longest ago of those that nobody
      uses; none is a panic.
     */
    method Bget(dev: nat, blockno: nat) returns (ok: bool, b: nat)
      requires Valid() && (dev == 1 ==> blockno < |disk|)
      modifies this`buf
      ensures Valid() && (ok ==> b < n && For(buf[b], dev, blockno) && buf[b].refcnt > 0)
      ensures ok ==> Picks(old(buf), dev, blockno, b) && buf == Looked(old(buf), dev, blockno, b)
      ensures ok && Seek(old(buf), dev, blockno) == n ==> Oldest(old(buf), stamp, b)
      ensures !ok <==> Seek(old(buf), dev, blockno) == n && NoneUsable(old(buf))
      ensures !ok ==> buf == old(buf)
      ensures SameContents(old(buf), disk, buf, disk)
    {
      ghost var i: nat := 0;
      b := next[n];
      assert next[At(order, n, 0)] == At(order, n, 1);
      while b != n
        invariant i <= |order| && b == At(order, n, i + 1)
        invariant forall j :: 0 <= j < i ==> !For(buf[order[j]], dev, blockno)
        decreases |order| - i
      {
        if For(buf[b], dev, blockno) {
          Refer(b);
          return true, b;
        }
        assert next[At(order, n, i + 1)] == At(order, n, i + 2);
        i := i + 1;
        b := next[b];
      }
      assert i == |order|;
      ok, b := Recycle(dev, blockno);
    }

    /** b->refcnt++ */
    method Refer(b: nat)
      requires Valid() && b < n
      modifies this`buf
      ensures Valid() && buf == old(buf)[b := old(buf)[b].(refcnt := old(buf)[b].refcnt + 1)]
      ensures SameContents(old(buf), disk, buf, disk)
    {
      ghost var buf0 := buf;
      buf := buf[b := buf[b].(refcnt := buf[b].refcnt + 1)];
      StepKeeps(buf0, disk, b, buf[b], disk);
    }

    method Recycle(dev: nat, blockno: nat) returns (ok: bool, b: nat)
      requires Valid() && (dev == 1 ==> blockno < |disk|)
      requires forall i :: 0 <= i < |order| ==> !For(buf[order[i]], dev, blockno)
      modifies this`buf
      ensures Valid() && Seek(old(buf), dev, blockno) == n
      ensures ok ==> b < n && Usable(old(buf)[b]) && Oldest(old(buf), stamp, b)
      ensures ok ==> buf == Looked(old(buf), dev, blockno, b)
      ensures !ok <==> NoneUsable(old(buf))
      ensures !ok ==> buf == old(buf)
      ensures SameContents(old(buf), disk, buf, disk)
    {
      NotCached(buf, order, dev, blockno);
      b := LastFree();
      if b == n {
        return false, b;
      }
      ghost var buf0 := buf;
      buf := buf[b := Buf(dev, blockno, false, false, 1, false, buf[b].data)];
      RecycleKeeps(buf0, disk, b, dev, blockno, buf[b]);
      ok := true;
    }

    /** bget's backward scan; the head ends it. */
    method LastFree() returns (b: nat)
      requires Valid()
      ensures b <= n && if b < n then Usable(buf[b]) && Oldest(buf, stamp, b) else NoneUsable(buf)
    {
      ghost var i: nat := |order|;
      b := prev[n];
      assert prev[At(order, n, |order| + 1)] == At(order, n, |order|);
      while b != n
        invariant i <= |order| && b == At(order, n, i)
        invariant forall j :: i <= j < |order| ==> !Usable(buf[order[j]])
        decreases i
      {
        if buf[b].refcnt == 0 && !buf[b].dirty {
          LastOfFree(buf, order, stamp, clock, i - 1);
          return;
        }
        assert prev[At(order, n, i - 1 + 1)] == At(order, n, i - 1);
        i := i - 1;
        b := prev[b];
      }
      assert i == 0;
      forall j: nat | j < n
        ensures !Usable(buf[j])
      {
        assert j in order;
        ghost var k :| 0 <= k < |order| && order[k] == j;
        assert !Usable(buf[order[k]]);
      }
    }

    /** acquiresleep(&b->lock), once it is free */
    method Acquire(b: nat)
      requires Valid() && b < n && !buf[b].locked && buf[b].refcnt > 0
      modifies this`buf
      ensures Valid() && buf == old(buf)[b := old(buf)[b].(locked := true)]
      ensures SameContents(old(buf), disk, buf, disk)
    {
      ghost var buf0 := buf;
      buf := buf[b := buf[b].(locked := true)];
      StepKeeps(buf0, disk, b, buf[b], disk);
    }

    /** iderw: a dirty buffer goes to the disk, an invalid one comes from it. */
    method Iderw(b: nat)
      requires Valid() && b < n && buf[b].locked && !(buf[b].valid && !buf[b].dirty) && buf[b].dev == 1
      modifies this`buf, this`disk
      ensures Valid() && SameContents(old(buf), old(disk), buf, disk) && buf[b].valid && !buf[b].dirty
      ensures buf == old(buf)[b := old(buf)[b].(valid := true, dirty := false, data := buf[b].data)]
      ensures buf[b].blockno < |disk| && buf[b].data == disk[buf[b].blockno]
      ensures old(buf)[b].dirty ==> buf[b].data == old(buf)[b].data && disk == old(disk)[buf[b].blockno := buf[b].data]
      ensures !old(buf)[b].dirty ==> disk == old(disk)
    {
      ghost var buf0, disk0 := buf, disk;
      if buf[b].dirty {
        disk := disk[buf[b].blockno := buf[b].data];
        buf := buf[b := buf[b].(dirty := false, valid := true)];
      } else {
        buf := buf[b := buf[b].(data := disk[buf[b].blockno], valid := true)];
      }
      StepKeeps(buf0, disk0, b, buf[b], disk);
    }

    /**
      bread of disk 1: the latest data written to the block, whether they have reached the disk or not.
      While another process holds the buffer this one sleeps in acquiresleep, with its reference taken.
     */
    method Bread(blockno: nat) returns (ok: bool, b: nat, waits: bool)
      requires Valid() && blockno < |disk|
      modifies this`buf, this`disk
      ensures Valid() && disk == old(disk) && SameContents(old(buf), disk, buf, disk)
      ensures ok ==> b < n && For(buf[b], 1, blockno) && buf[b].locked && buf[b].refcnt > 0
      ensures ok && !waits ==> buf[b].valid && buf[b].data == old(Content(blockno))
      ensures waits ==> ok && buf == Looked(old(buf), 1, blockno, b)
      ensures waits <==> exists i :: 0 <= i < n && For(old(buf)[i], 1, blockno) && old(buf)[i].locked
      ensures !ok <==> Seek(old(buf), 1, blockno) == n && NoneUsable(old(buf))
    {
      ok, b := Bget(1, blockno);
      waits := false;
      if !ok {
        return;
      }
      if buf[b].locked {
        return true, b, true;
      }
      Acquire(b);
      if !buf[b].valid {
        Iderw(b);
      }
      ContentsAt(buf, disk, b);
    }

    /** The holder writes to b->data. */
    method Modify(b: nat, data: Block)
      requires Valid() && b < n && buf[b].locked && buf[b].valid && buf[b].dev == 1
      modifies this`buf
      ensures Valid() && buf == old(buf)[b := old(buf)[b].(data := data)]
      ensures forall k: nat :: k < |disk| ==> Content(k) == if k == buf[b].blockno then data else old(Content(k))
    {
      ghost var buf0 := buf;
      buf := buf[b := buf[b].(data := data)];
      UniqueStays(buf0, b, buf[b]);
      ContentsAt(buf, disk, b);
      forall k: nat | k < |disk|
        ensures Content(k) == if k == buf[b].blockno then data else Contents(buf0, disk, k)
      {
        if k != buf[b].blockno {
          ContentsElsewhere(buf0, disk, b, buf[b], disk, k);
        }
      }
    }

    /** log_write's b->flags |= B_DIRTY, which keeps the buffer in the cache */
    method MarkDirty(b: nat)
      requires Valid() && b < n && buf[b].locked && buf[b].valid
      modifies this`buf
      ensures Valid() && buf == old(buf)[b := old(buf)[b].(dirty := true)] && SameContents(old(buf), disk, buf, disk)
    {
      ghost var buf0 := buf;
      buf := buf[b := buf[b].(dirty := true)];
      StepKeeps(buf0, disk, b, buf[b], disk);
    }

    /** bwrite: the disk has the buffer's data afterwards. */
    method Bwrite(b: nat)
      requires Valid() && b < n && buf[b].locked && buf[b].valid && buf[b].dev == 1
      modifies this`buf, this`disk
      ensures Valid() && SameContents(old(buf), old(disk), buf, disk)
      ensures buf == old(buf)[b := old(buf)[b].(dirty := false)] && disk == old(disk)[buf[b].blockno := buf[b].data]
    {
      MarkDirty(b);
      Iderw(b);
    }

    /**
      brelse. A buffer nobody waits for goes to the front. What the block holds stays the same, and the
      cache remains as it should be exactly if the holder has written what it changed, or given it to the
      log.
     */
    method Brelse(b: nat)
      requires Valid() && b < n && buf[b].locked
      modifies this`buf, this`next, this`prev, this`order, this`stamp, this`clock
      ensures Linked() && (Valid() <==> Written(old(buf)[b], disk))
      ensures buf == old(buf)[b := old(buf)[b].(locked := false, refcnt := old(buf)[b].refcnt - 1)]
      ensures SameContents(old(buf), disk, buf, disk)
      ensures buf[b].refcnt > 0 ==> order == old(order)
      ensures buf[b].refcnt == 0 ==>
          exists k: nat :: k < |old(order)| && old(order)[k] == b && order == [b] + Without(old(order), k)
    {
      ghost var buf0 := buf;
      buf := buf[b := buf[b].(locked := false, refcnt := buf[b].refcnt - 1)];
      Released(buf0, disk, b, buf[b]);
      if buf[b].refcnt == 0 {
        ToFront(b);
      }
    }

    method ToFront(b: nat)
      requires Linked() && b < n
      modifies this`next, this`prev, this`order, this`stamp, this`clock
      ensures Linked()
      ensures exists k: nat :: k < |old(order)| && old(order)[k] == b && order == [b] + Without(old(order), k)
    {
      assert b in order;
      ghost var k: nat :| k < |order| && order[k] == b;
      FrontKeeps(order, stamp, clock, n, k, b);
      Unlink(b, k);
      Push(b, Without(order, k));
      order, stamp, clock := [b] + Without(order, k), stamp[b := clock], clock + 1;
    }

    method Unlink(b: nat, ghost k: nat)
      requires Ring(next, prev, n, order) && k < |order| && b == order[k]
      modifies this`next, this`prev
      ensures Ring(next, prev, n, Without(order, k))
    {
      ghost var next0, prev0 := next, prev;
      assert next[At(order, n, k + 1)] == At(order, n, k + 2) && prev[At(order, n, k + 1)] == At(order, n, k);
      assert next[b] != b && prev[b] != b;
      prev := prev[next[b] := prev[b]];
      next := next[prev[b] := next[b]];
      UnlinkKeepsRing(next0, prev0, n, order, k, b, next, prev);
    }

    method Push(b: nat, ghost w: seq<nat>)
      requires Ring(next, prev, n, w) && b < n && b !in w
      modifies this`next, this`prev
      ensures Ring(next, prev, n, [b] + w)
    {
      ghost var next0, prev0 := next, prev;
      assert next[At(w, n, 0)] == At(w, n, 1);
      next := next[b := next[n]];
      prev := prev[b := n];
      prev := prev[next[n] := b];
      next := next[n := b];
      PushKeepsRing(next0, prev0, n, w, b, next, prev);
    }
  }
}
