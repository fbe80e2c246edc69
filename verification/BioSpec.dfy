/**
  The buffer cache of bio.c as values: the ring of buffers, and what the cache says each disk block holds.
 */
module BioSpec {
  import opened Blocks

  datatype Buf = Buf(dev: nat, blockno: nat, valid: bool, dirty: bool, refcnt: nat, locked: bool, data: Block)

  // ---------- the ring ----------

  /** Place i on the way round from the list head, which is node n, through the buffers in order and back. */
  function At(order: seq<nat>, n: nat, i: nat): nat
    requires i <= |order| + 1
  {
    if i == 0 || i == |order| + 1 then n else order[i - 1]
  }

  ghost predicate Nodes(order: seq<nat>, n: nat) {
    (forall i :: 0 <= i < |order| ==> order[i] < n) && forall i, j :: 0 <= i < j < |order| ==> order[i] != order[j]
  }

  /** The next pointers lead through the buffers in order, and the prev pointers back. */
  ghost predicate Ring(next: seq<nat>, prev: seq<nat>, n: nat, order: seq<nat>) {
    && |next| == n + 1 && |prev| == n + 1 && Nodes(order, n)
    && (forall i: nat :: i <= |order| ==> next[At(order, n, i)] == At(order, n, i + 1))
    && (forall i: nat :: i <= |order| ==> prev[At(order, n, i + 1)] == At(order, n, i))
  }

  function Without(order: seq<nat>, k: nat): seq<nat>
    requires k < |order|
  {
    order[..k] + order[k + 1..]
  }

  lemma WithoutAt(order: seq<nat>, n: nat, k: nat, i: nat)
    requires k < |order| && i <= |order|
    ensures At(Without(order, k), n, i) == At(order, n, if i <= k then i else i + 1)
  {
  }

  /** At names each node once. */
  lemma AtInjective(order: seq<nat>, n: nat, i: nat, j: nat)
    requires Nodes(order, n) && i <= |order| && j <= |order| && At(order, n, i) == At(order, n, j)
    ensures i == j
  {
  }

  lemma AtInjectiveBack(order: seq<nat>, n: nat, i: nat, j: nat)
    requires Nodes(order, n) && 0 < i <= |order| + 1 && 0 < j <= |order| + 1 && At(order, n, i) == At(order, n, j)
    ensures i == j
  {
  }

  /** b->next->prev = b->prev; b->prev->next = b->next */
  lemma UnlinkKeepsRing(next: seq<nat>, prev: seq<nat>, n: nat, order: seq<nat>, k: nat, b: nat, next': seq<nat>,
                        prev': seq<nat>)
    requires Ring(next, prev, n, order) && k < |order| && b == order[k]
    requires next[b] <= n && prev[b] <= n
    requires prev' == prev[next[b] := prev[b]] && next' == next[prev[b] := next[b]]
    ensures Ring(next', prev', n, Without(order, k))
  {
    var o := Without(order, k);
    assert At(order, n, k + 1) == b && next[b] == At(order, n, k + 2) && prev[b] == At(order, n, k);
    forall i: nat | i <= |o|
      ensures next'[At(o, n, i)] == At(o, n, i + 1) && prev'[At(o, n, i + 1)] == At(o, n, i)
    {
      WithoutAt(order, n, k, i);
      WithoutAt(order, n, k, i + 1);
      var j := if i <= k then i else i + 1;
      var j1 := if i + 1 <= k then i + 1 else i + 2;
      assert next[At(order, n, j)] == At(order, n, j + 1) && prev[At(order, n, j1 - 1 + 1)] == At(order, n, j1 - 1);
      if i != k {
        if At(order, n, j) == At(order, n, k) {
          AtInjective(order, n, j, k);
        }
        if At(order, n, j1) == At(order, n, k + 2) {
          AtInjectiveBack(order, n, j1, k + 2);
        }
      }
    }
  }

  /** b->next = head.next; b->prev = &head; head.next->prev = b; head.next = b */
  lemma PushKeepsRing(next: seq<nat>, prev: seq<nat>, n: nat, order: seq<nat>, b: nat, next': seq<nat>, prev': seq<nat>)
    requires Ring(next, prev, n, order) && b < n && b !in order
    requires next[n] <= n && next' == next[b := next[n]][n := b] && prev' == prev[b := n][next[n] := b]
    ensures Ring(next', prev', n, [b] + order)
  {
    var o := [b] + order;
    assert next[At(order, n, 0)] == At(order, n, 1);
    forall i: nat | i <= |o|
      ensures next'[At(o, n, i)] == At(o, n, i + 1) && prev'[At(o, n, i + 1)] == At(o, n, i)
    {
      if i >= 1 {
        assert At(o, n, i + 1) == At(order, n, i);
        if i >= 2 {
          assert At(o, n, i) == At(order, n, i - 1);
          assert next[At(order, n, i - 1)] == At(order, n, i) && prev[At(order, n, i - 1 + 1)] == At(order, n, i - 1);
        }
      }
    }
  }

  // ---------- what the cache holds ----------

  predicate For(b: Buf, dev: nat, blockno: nat) {
    b.dev == dev && b.blockno == blockno
  }

  /** At most one buffer per block of a real device. */
  ghost predicate Unique(buf: seq<Buf>) {
    forall i, j :: 0 <= i < j < |buf| && buf[i].dev >= 1 ==> !For(buf[j], buf[i].dev, buf[i].blockno)
  }

  function Seek(buf: seq<Buf>, dev: nat, blockno: nat): (r: nat)
    ensures r <= |buf| && (r < |buf| ==> For(buf[r], dev, blockno))
    ensures r == |buf| ==> forall i :: 0 <= i < |buf| ==> !For(buf[i], dev, blockno)
  {
    if buf == [] then 0
    else if For(buf[|buf| - 1], dev, blockno) then |buf| - 1
    else var r := Seek(buf[..|buf| - 1], dev, blockno); if r < |buf| - 1 then r else |buf|
  }

  /** What a read of a block of disk 1 must return: the cached data if there are any, or the disk's. */
  function Contents(buf: seq<Buf>, disk: seq<Block>, blockno: nat): Block
    requires blockno < |disk|
  {
    var i := Seek(buf, 1, blockno);
    if i < |buf| && buf[i].valid then buf[i].data else disk[blockno]
  }

  lemma ContentsAt(buf: seq<Buf>, disk: seq<Block>, i: nat)
    requires Unique(buf) && i < |buf| && buf[i].dev == 1 && buf[i].blockno < |disk|
    ensures Contents(buf, disk, buf[i].blockno) == if buf[i].valid then buf[i].data else disk[buf[i].blockno]
  {
    var j := Seek(buf, 1, buf[i].blockno);
    assert For(buf[i], 1, buf[i].blockno) && For(buf[j], 1, buf[i].blockno);
  }

  /** A buffer that the log has not marked agrees with the disk. */
  predicate Written(b: Buf, disk: seq<Block>) {
    b.dev == 1 && b.valid && !b.dirty ==> b.blockno < |disk| && b.data == disk[b.blockno]
  }

  /** And so does each one that nobody holds. */
  predicate Clean(b: Buf, disk: seq<Block>) {
    b.locked || Written(b, disk)
  }

  ghost predicate BufOk(b: Buf, disk: seq<Block>) {
    (b.dev == 1 ==> b.blockno < |disk|) && (b.locked ==> b.refcnt > 0) && (b.dirty ==> b.valid) && Clean(b, disk)
  }

  ghost predicate BufsOk(buf: seq<Buf>, disk: seq<Block>) {
    Unique(buf) && forall i :: 0 <= i < |buf| ==> BufOk(buf[i], disk)
  }

  /** Two caches that say the same about every block. */
  ghost predicate SameContents(buf: seq<Buf>, disk: seq<Block>, buf': seq<Buf>, disk': seq<Block>) {
    |disk'| == |disk| && forall k: nat :: k < |disk| ==> Contents(buf', disk', k) == Contents(buf, disk, k)
  }

  /** A change to one buffer that stays with its block: other blocks are not concerned. */
  lemma ContentsElsewhere(buf: seq<Buf>, disk: seq<Block>, i: nat, b: Buf, disk': seq<Block>, k: nat)
    requires i < |buf| && b.dev == buf[i].dev && b.blockno == buf[i].blockno && Unique(buf)
    requires |disk'| == |disk| && k < |disk| && (buf[i].dev == 1 ==> buf[i].blockno != k) && disk'[k] == disk[k]
    ensures Unique(buf[i := b]) && Contents(buf[i := b], disk', k) == Contents(buf, disk, k)
  {
    var buf' := buf[i := b];
    UniqueStays(buf, i, b);
    var j := Seek(buf, 1, k);
    var j' := Seek(buf', 1, k);
    if j < |buf| {
      ContentsAt(buf, disk, j);
      ContentsAt(buf', disk', j);
    }
  }

  lemma UniqueStays(buf: seq<Buf>, i: nat, b: Buf)
    requires i < |buf| && b.dev == buf[i].dev && b.blockno == buf[i].blockno && Unique(buf)
    ensures Unique(buf[i := b])
  {
    var buf' := buf[i := b];
    forall x, y | 0 <= x < y < |buf'| && buf'[x].dev >= 1
      ensures !For(buf'[y], buf'[x].dev, buf'[x].blockno)
    {
      assert !For(buf[y], buf[x].dev, buf[x].blockno);
    }
  }

  /** A step on one buffer, and perhaps its disk block, changes no other block's contents. */
  lemma StepContents(buf: seq<Buf>, disk: seq<Block>, i: nat, b: Buf, disk': seq<Block>, k: nat)
    requires Unique(buf) && i < |buf| && b.dev == buf[i].dev && b.blockno == buf[i].blockno && |disk'| == |disk|
    requires forall k: nat :: k < |disk| && !(b.dev == 1 && k == b.blockno) ==> disk'[k] == disk[k]
    requires k < |disk|
    ensures Unique(buf[i := b])
    ensures Contents(buf[i := b], disk', k)
         == if b.dev == 1 && k == b.blockno then if b.valid then b.data else disk'[k] else Contents(buf, disk, k)
  {
    UniqueStays(buf, i, b);
    if b.dev == 1 && k == b.blockno {
      ContentsAt(buf[i := b], disk', i);
    } else {
      ContentsElsewhere(buf, disk, i, b, disk', k);
    }
  }

  /** A step on one buffer, and perhaps its disk block, that leaves what the block holds alone. */
  lemma StepKeeps(buf: seq<Buf>, disk: seq<Block>, i: nat, b: Buf, disk': seq<Block>)
    requires BufsOk(buf, disk) && i < |buf| && b.dev == buf[i].dev && b.blockno == buf[i].blockno && |disk'| == |disk|
    requires BufOk(b, disk')
    requires forall k: nat :: k < |disk| && !(b.dev == 1 && k == b.blockno) ==> disk'[k] == disk[k]
    requires b.dev == 1 ==>
        (if b.valid then b.data else disk'[b.blockno]) == if buf[i].valid then buf[i].data else disk[b.blockno]
    ensures BufsOk(buf[i := b], disk') && SameContents(buf, disk, buf[i := b], disk')
  {
    var buf' := buf[i := b];
    UniqueStays(buf, i, b);
    forall j | 0 <= j < |buf'|
      ensures BufOk(buf'[j], disk')
    {
      assert BufOk(buf[j], disk);
      if j < i && buf[j].dev == 1 {
        assert !For(buf[i], buf[j].dev, buf[j].blockno);
      } else if i < j && buf[i].dev == 1 {
        assert !For(buf[j], buf[i].dev, buf[i].blockno);
      }
    }
    forall k: nat | k < |disk|
      ensures Contents(buf', disk', k) == Contents(buf, disk, k)
    {
      StepContents(buf, disk, i, b, disk', k);
      if b.dev == 1 && k == b.blockno {
        ContentsAt(buf, disk, i);
      }
    }
  }

  /** Giving up the lock of a buffer. */
  lemma Released(buf: seq<Buf>, disk: seq<Block>, i: nat, b: Buf)
    requires BufsOk(buf, disk) && i < |buf| && buf[i].locked && b == buf[i].(locked := false, refcnt := b.refcnt)
    ensures SameContents(buf, disk, buf[i := b], disk)
    ensures BufsOk(buf[i := b], disk) <==> Written(buf[i], disk)
  {
    var buf' := buf[i := b];
    assert BufOk(buf[i], disk);
    if Written(buf[i], disk) {
      StepKeeps(buf, disk, i, b, disk);
    } else {
      assert !BufOk(buf'[i], disk);
    }
    forall k: nat | k < |disk|
      ensures Contents(buf', disk, k) == Contents(buf, disk, k)
    {
      StepContents(buf, disk, i, b, disk, k);
      if b.dev == 1 && k == b.blockno {
        ContentsAt(buf, disk, i);
      }
    }
  }

  // ---------- bget ----------

  /** A buffer that bget may give to another block. */
  predicate Usable(b: Buf) {
    b.refcnt == 0 && !b.dirty
  }

  /** bget may choose buffer b: the block's own, or a usable one if it has none. */
  predicate Picks(buf: seq<Buf>, dev: nat, blockno: nat, b: nat) {
    b < |buf| && if Seek(buf, dev, blockno) < |buf| then For(buf[b], dev, blockno) else Usable(buf[b])
  }

  /** The buffers after bget has chosen b. */
  function Looked(buf: seq<Buf>, dev: nat, blockno: nat, b: nat): (r: seq<Buf>)
    requires b < |buf|
    ensures |r| == |buf|
  {
    if For(buf[b], dev, blockno) then buf[b := buf[b].(refcnt := buf[b].refcnt + 1)]
    else buf[b := Buf(dev, blockno, false, false, 1, false, buf[b].data)]
  }

  ghost predicate NoneUsable(buf: seq<Buf>) {
    forall i :: 0 <= i < |buf| ==> !Usable(buf[i])
  }

  /** Of the usable buffers b was released longest ago. */
  ghost predicate Oldest(buf: seq<Buf>, stamp: seq<nat>, b: nat) {
    b < |buf| == |stamp| && forall i :: 0 <= i < |buf| && Usable(buf[i]) ==> stamp[b] <= stamp[i]
  }

  lemma UniqueRecycled(buf: seq<Buf>, i: nat, dev: nat, blockno: nat, b: Buf)
    requires Unique(buf) && i < |buf| && Seek(buf, dev, blockno) == |buf| && b.dev == dev && b.blockno == blockno
    ensures Unique(buf[i := b])
  {
    var buf' := buf[i := b];
    forall x, y | 0 <= x < y < |buf'| && buf'[x].dev >= 1
      ensures !For(buf'[y], buf'[x].dev, buf'[x].blockno)
    {
      if x != i && y != i {
        assert !For(buf[y], buf[x].dev, buf[x].blockno);
      }
    }
  }

  /** The block that a recycled buffer held is from now on what the disk has, and so is the new one. */
  lemma RecycledContents(buf: seq<Buf>, disk: seq<Block>, i: nat, dev: nat, blockno: nat, b: Buf, k: nat)
    requires Unique(buf) && i < |buf| && Seek(buf, dev, blockno) == |buf| && b.dev == dev && b.blockno == blockno
    requires !b.valid && k < |disk|
    ensures Unique(buf[i := b])
    ensures Contents(buf[i := b], disk, k) == if For(buf[i], 1, k) then disk[k] else Contents(buf, disk, k)
  {
    var buf' := buf[i := b];
    UniqueRecycled(buf, i, dev, blockno, b);
    var j := Seek(buf, 1, k);
    var j' := Seek(buf', 1, k);
    if j < |buf| {
      ContentsAt(buf, disk, j);
      if j != i {
        ContentsAt(buf', disk, j);
      }
    }
    if j' < |buf| {
      ContentsAt(buf', disk, j');
      if j' != i {
        ContentsAt(buf, disk, j');
      }
    }
  }

  /** bget's recycling: the block the buffer held goes back to being the disk's, and that is the same. */
  lemma RecycleKeeps(buf: seq<Buf>, disk: seq<Block>, i: nat, dev: nat, blockno: nat, b: Buf)
    requires BufsOk(buf, disk) && i < |buf| && Usable(buf[i]) && Seek(buf, dev, blockno) == |buf|
    requires b.dev == dev && b.blockno == blockno && !b.valid && !b.dirty && !b.locked
    requires dev == 1 ==> blockno < |disk|
    ensures BufsOk(buf[i := b], disk) && SameContents(buf, disk, buf[i := b], disk)
  {
    UniqueRecycled(buf, i, dev, blockno, b);
    forall k: nat | k < |disk|
      ensures Contents(buf[i := b], disk, k) == Contents(buf, disk, k)
    {
      RecycledContents(buf, disk, i, dev, blockno, b, k);
      if For(buf[i], 1, k) {
        ContentsAt(buf, disk, i);
        assert BufOk(buf[i], disk);
      }
    }
  }

  /** The number of its last release decides a buffer's place in the ring. */
  ghost predicate ByRelease(order: seq<nat>, stamp: seq<nat>, clock: nat) {
    && (forall i :: 0 <= i < |order| ==> order[i] < |stamp| && stamp[order[i]] < clock)
    && (forall i, j :: 0 <= i < j < |order| ==> stamp[order[i]] > stamp[order[j]])
  }

  /** With no buffer held and none marked by the log, the disk holds everything. */
  lemma QuietIsOnDisk(buf: seq<Buf>, disk: seq<Block>, k: nat)
    requires BufsOk(buf, disk) && k < |disk| && forall i :: 0 <= i < |buf| ==> !buf[i].locked && !buf[i].dirty
    ensures Contents(buf, disk, k) == disk[k]
  {
    var i := Seek(buf, 1, k);
    if i < |buf| {
      assert BufOk(buf[i], disk);
    }
  }

  lemma NotCached(buf: seq<Buf>, order: seq<nat>, dev: nat, blockno: nat)
    requires forall i: nat :: i < |buf| ==> i in order
    requires forall i :: 0 <= i < |order| ==> order[i] < |buf| && !For(buf[order[i]], dev, blockno)
    ensures Seek(buf, dev, blockno) == |buf|
  {
    forall j: nat | j < |buf|
      ensures !For(buf[j], dev, blockno)
    {
      assert j in order;
      var k :| 0 <= k < |order| && order[k] == j;
      assert !For(buf[order[k]], dev, blockno);
    }
  }

  /** The last free buffer of the ring was released before the others. */
  lemma LastOfFree(buf: seq<Buf>, order: seq<nat>, stamp: seq<nat>, clock: nat, i: nat)
    requires (forall j: nat :: j < |buf| ==> j in order) && ByRelease(order, stamp, clock) && |stamp| == |buf|
    requires i < |order|
    requires forall j :: 0 <= j < |order| ==> order[j] < |buf|
    requires forall j :: i < j < |order| ==> !Usable(buf[order[j]])
    ensures forall j :: 0 <= j < |buf| && Usable(buf[j]) ==> stamp[order[i]] <= stamp[j]
  {
    forall j: nat | j < |buf| && Usable(buf[j])
      ensures stamp[order[i]] <= stamp[j]
    {
      assert j in order;
      var k :| 0 <= k < |order| && order[k] == j;
      assert k <= i;
    }
  }

  /** brelse's move to the front, for the ring, the order and the set of buffers. */
  lemma FrontKeeps(order: seq<nat>, stamp: seq<nat>, clock: nat, n: nat, k: nat, b: nat)
    requires Nodes(order, n) && ByRelease(order, stamp, clock) && k < |order| && order[k] == b && |stamp| == n
    ensures var o := [b] + Without(order, k);
            && ByRelease(o, stamp[b := clock], clock + 1) && b !in Without(order, k)
            && forall i: nat :: i in order ==> i in o
  {
    var w := Without(order, k);
    var o := [b] + w;
    forall i | 0 <= i < |w|
      ensures w[i] == order[if i < k then i else i + 1] && w[i] != b
    {
    }
    forall i: nat | i in order
      ensures i in o
    {
      var j :| 0 <= j < |order| && order[j] == i;
      if j < k {
        assert w[j] == i && o[j + 1] == i;
      } else if j > k {
        assert w[j - 1] == i && o[j] == i;
      }
    }
  }

  function NoLinks(n: nat): (r: seq<nat>)
    ensures |r| == n
  {
    if n == 0 then [] else NoLinks(n - 1) + [0]
  }

  function Empty(n: nat, zeros: Block): (r: seq<Buf>)
    ensures |r| == n && forall i :: 0 <= i < n ==> r[i] == Buf(0, 0, false, false, 0, false, zeros)
  {
    if n == 0 then [] else Empty(n - 1, zeros) + [Buf(0, 0, false, false, 0, false, zeros)]
  }

  function UpTo(n: nat): (r: seq<nat>)
    ensures |r| == n && forall i :: 0 <= i < n ==> r[i] == i
  {
    if n == 0 then [] else UpTo(n - 1) + [n - 1]
  }

  /** Buffers of device 0 say nothing about disk 1. */
  lemma FreshBufs(buf: seq<Buf>, disk: seq<Block>)
    requires forall i :: 0 <= i < |buf| ==> buf[i].dev == 0 && !buf[i].valid && !buf[i].dirty && !buf[i].locked
    ensures BufsOk(buf, disk) && forall k: nat :: k < |disk| ==> Contents(buf, disk, k) == disk[k]
  {
    forall k: nat | k < |disk|
      ensures Contents(buf, disk, k) == disk[k]
    {
      var i := Seek(buf, 1, k);
      assert i < |buf| ==> buf[i].dev == 0;
    }
  }

  lemma Downwards(order: seq<nat>, stamp: seq<nat>, n: nat)
    requires |order| == n && |stamp| == n && forall i :: 0 <= i < n ==> order[i] == n - 1 - i && stamp[i] == i
    ensures ByRelease(order, stamp, n) && forall i: nat :: i < n ==> i in order
  {
    forall i: nat | i < n
      ensures i in order
    {
      assert order[n - 1 - i] == i;
    }
  }
}
