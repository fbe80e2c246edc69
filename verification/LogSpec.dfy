/**
  The write-ahead log of log.c on plain values: what the header block means, which
  disk every block write of a commit or of a recovery leaves behind, and why a crash
  after any one of those writes is harmless.
 */
module LogSpec {
  import opened Blocks

  const MAXOPBLOCKS: nat := 10
  const LOGSIZE: nat := 30

  type Disk = seq<Block>

  /** The log occupies blocks start .. start + size: the header first, then the copies. */
  datatype LogArea = LogArea(start: nat, size: nat) {
    predicate Contains(x: int) {
      start <= x < start + size
    }

    predicate Fits(disk: Disk) {
      0 < size && start + size <= |disk|
    }

    /** There is a slot for the copy of each of the n logged blocks. */
    predicate HasSlots(n: nat) {
      n <= LOGSIZE && n < size
    }
  }

  /** Block x of the disk is outside the log, so it is visible to the file system. */
  predicate Home(a: LogArea, disk: Disk, x: int) {
    0 <= x < |disk| && !a.Contains(x)
  }

  predicate HomeBlocks(a: LogArea, disk: Disk, h: seq<Word>) {
    forall i :: 0 <= i < |h| ==> Home(a, disk, h[i])
  }

  ghost predicate SameHome(a: LogArea, d: Disk, e: Disk) {
    |d| == |e| && forall x: nat :: Home(a, d, x) ==> d[x] == e[x]
  }

  /** The disk as seen through the cache of modified blocks. */
  function Overlay(disk: Disk, cache: map<Word, Block>): (r: Disk)
    ensures |r| == |disk|
  {
    seq(|disk|, x requires 0 <= x < |disk| => if x in cache then cache[x] else disk[x])
  }

  lemma OverlayUpdate(disk: Disk, cache: map<Word, Block>, x: Word, b: Block)
    requires x < |disk|
    ensures Overlay(disk, cache[x := b]) == Overlay(disk, cache)[x := b]
  {
  }

  // ---------- the header block ----------

  /** The header's count is a signed int; a negative one makes every loop over it empty. */
  function HeadCount(b: Block): nat {
    var w := LoadWord(b, 0);
    if w < 0x8000_0000 then w else 0
  }

  /** The first n block numbers of the header; they follow the count. */
  function Entries(b: Block, n: nat): (r: seq<Word>)
    requires n < WORDS
    ensures |r| == n
  {
    if n == 0 then [] else Entries(b, n - 1) + [LoadWord(b, n)]
  }

  function HeadBlocks(b: Block): (r: seq<Word>)
    requires HeadCount(b) < WORDS
    ensures |r| == HeadCount(b)
  {
    Entries(b, HeadCount(b))
  }

  /** b with the first k entries of the header's block array overwritten. */
  function PutEntries(b: Block, blocks: seq<Word>, k: nat): Block
    requires k <= |blocks| < WORDS
  {
    if k == 0 then b else StoreWord(PutEntries(b, blocks, k - 1), k, blocks[k - 1])
  }

  function EncodeHead(b: Block, blocks: seq<Word>): Block
    requires |blocks| < WORDS
  {
    PutEntries(StoreWord(b, 0, |blocks|), blocks, |blocks|)
  }

  lemma {:induction false} PutEntriesWord(b: Block, blocks: seq<Word>, k: nat, j: nat)
    requires k <= |blocks| < WORDS && j < WORDS
    ensures LoadWord(PutEntries(b, blocks, k), j) == if 1 <= j <= k then blocks[j - 1] else LoadWord(b, j)
  {
    if k > 0 {
      LoadStore(PutEntries(b, blocks, k - 1), k, blocks[k - 1], j);
      PutEntriesWord(b, blocks, k - 1, j);
    }
  }

  lemma {:induction false} EntriesAre(b: Block, blocks: seq<Word>, n: nat)
    requires n <= |blocks| < WORDS
    requires forall i :: 0 <= i < n ==> LoadWord(b, i + 1) == blocks[i]
    ensures Entries(b, n) == blocks[..n]
  {
    if n > 0 {
      EntriesAre(b, blocks, n - 1);
      assert LoadWord(b, (n - 1) + 1) == blocks[n - 1];
    }
  }

  /** Reading back a header that was written, over whatever the block held before. */
  lemma HeadRoundTrip(b: Block, blocks: seq<Word>)
    requires |blocks| < WORDS
    ensures HeadCount(EncodeHead(b, blocks)) == |blocks|
    ensures HeadBlocks(EncodeHead(b, blocks)) == blocks
  {
    var b' := StoreWord(b, 0, |blocks|);
    PutEntriesWord(b', blocks, |blocks|, 0);
    LoadStore(b, 0, |blocks|, 0);
    forall i | 0 <= i < |blocks|
      ensures LoadWord(EncodeHead(b, blocks), i + 1) == blocks[i]
    {
      PutEntriesWord(b', blocks, |blocks|, i + 1);
    }
    EntriesAre(EncodeHead(b, blocks), blocks, |blocks|);
    assert blocks[..|blocks|] == blocks;
  }

  // ---------- the disk after each block write ----------

  /** write_log after i blocks: the first i logged blocks are copied from the cache to the log. */
  function LogCopied(a: LogArea, disk: Disk, lh: seq<Word>, cache: map<Word, Block>, i: nat): (r: Disk)
    requires a.Fits(disk) && a.HasSlots(|lh|) && i <= |lh|
    requires forall j :: 0 <= j < |lh| ==> lh[j] in cache
    ensures |r| == |disk|
  {
    if i == 0 then disk
    else LogCopied(a, disk, lh, cache, i - 1)[a.start + i := cache[lh[i - 1]]]
  }

  /** install_trans after i blocks: the first i copies are at their home locations. */
  function Installed(a: LogArea, disk: Disk, lh: seq<Word>, i: nat): (r: Disk)
    requires a.Fits(disk) && a.HasSlots(|lh|) && i <= |lh|
    requires HomeBlocks(a, disk, lh)
    ensures |r| == |disk|
  {
    if i == 0 then disk
    else
      var d := Installed(a, disk, lh, i - 1);
      assert Home(a, disk, lh[i - 1]);
      d[lh[i - 1] := d[a.start + i]]
  }

  function HeadWritten(a: LogArea, disk: Disk, lh: seq<Word>): (r: Disk)
    requires a.Fits(disk) && |lh| < WORDS
    ensures |r| == |disk|
  {
    disk[a.start := EncodeHead(disk[a.start], lh)]
  }

  lemma {:induction false} LogCopiedAt(a: LogArea, disk: Disk, lh: seq<Word>, cache: map<Word, Block>, i: nat, x: nat)
    requires a.Fits(disk) && a.HasSlots(|lh|) && i <= |lh| && x < |disk|
    requires forall j :: 0 <= j < |lh| ==> lh[j] in cache
    ensures LogCopied(a, disk, lh, cache, i)[x]
         == if a.start < x <= a.start + i then cache[lh[x - a.start - 1]] else disk[x]
  {
    if i > 0 {
      LogCopiedAt(a, disk, lh, cache, i - 1, x);
    }
  }

  /** Where the contents of home block x are found, given the first i logged blocks: in the log or at x. */
  function Source(a: LogArea, lh: seq<Word>, i: nat, x: nat): nat
    requires i <= |lh|
  {
    if i == 0 then x
    else if lh[i - 1] == x then a.start + i
    else Source(a, lh, i - 1, x)
  }

  lemma {:induction false} SourceRange(a: LogArea, lh: seq<Word>, i: nat, x: nat)
    requires i <= |lh|
    ensures Source(a, lh, i, x) == x || a.start < Source(a, lh, i, x) <= a.start + i
  {
    if i > 0 {
      SourceRange(a, lh, i - 1, x);
    }
  }

  /** A block that is not in the log as a whole is not in any part of it. */
  lemma {:induction false} SourceOfUnlogged(a: LogArea, lh: seq<Word>, i: nat, n: nat, x: nat)
    requires i <= n <= |lh| && a.HasSlots(|lh|) && !a.Contains(x)
    requires Source(a, lh, n, x) == x
    ensures Source(a, lh, i, x) == x
  {
    if i < n {
      SourceOfUnlogged(a, lh, i, n - 1, x);
    }
  }

  /** install_trans copies the latest logged version of every block home and touches nothing else. */
  lemma {:induction false} InstalledAt(a: LogArea, disk: Disk, lh: seq<Word>, i: nat, x: nat)
    requires a.Fits(disk) && a.HasSlots(|lh|) && i <= |lh| && HomeBlocks(a, disk, lh)
    requires x < |disk|
    ensures Source(a, lh, i, x) < |disk|
    ensures Installed(a, disk, lh, i)[x] == if a.Contains(x) then disk[x] else disk[Source(a, lh, i, x)]
  {
    SourceRange(a, lh, i, x);
    if i > 0 {
      assert Home(a, disk, lh[i - 1]);
      InstalledAt(a, disk, lh, i - 1, x);
      InstalledAt(a, disk, lh, i - 1, a.start + i);
    }
  }

  // ---------- what a disk guarantees for its next recovery ----------

  /** The header on disk names home blocks only, and each has its copy in the log. */
  predicate ValidHead(a: LogArea, disk: Disk) {
    && a.Fits(disk)
    && a.HasSlots(HeadCount(disk[a.start]))
    && HomeBlocks(a, disk, HeadBlocks(disk[a.start]))
  }

  /** With the blocks of h redirected to the log, the home blocks of the disk are those of `durable`. */
  ghost predicate StandsFor(a: LogArea, disk: Disk, h: seq<Word>, durable: Disk) {
    && a.Fits(disk) && a.HasSlots(|h|) && |durable| == |disk|
    && HomeBlocks(a, disk, h)
    && forall x: nat :: Home(a, disk, x) ==> Source(a, h, |h|, x) < |disk| && disk[Source(a, h, |h|, x)] == durable[x]
  }

  /** What the next recovery makes of the disk: its home blocks as the header redirects them. */
  ghost predicate Represents(a: LogArea, disk: Disk, durable: Disk) {
    ValidHead(a, disk) && StandsFor(a, disk, HeadBlocks(disk[a.start]), durable)
  }

  /** Installing some of the logged blocks changes nothing that the next recovery would do. */
  lemma InstalledStandsFor(a: LogArea, disk: Disk, h: seq<Word>, durable: Disk, i: nat)
    requires StandsFor(a, disk, h, durable) && i <= |h|
    ensures StandsFor(a, Installed(a, disk, h, i), h, durable)
    ensures Installed(a, disk, h, i)[a.start] == disk[a.start]
    ensures i == |h| ==> SameHome(a, Installed(a, disk, h, i), durable)
  {
    var d := Installed(a, disk, h, i);
    InstalledAt(a, disk, h, i, a.start);
    forall x: nat | Home(a, d, x)
      ensures Source(a, h, |h|, x) < |d| && d[Source(a, h, |h|, x)] == durable[x]
      ensures i == |h| ==> d[x] == durable[x]
    {
      assert Home(a, disk, x);
      SourceRange(a, h, |h|, x);
      InstalledAt(a, disk, h, i, x);
      InstalledAt(a, disk, h, i, Source(a, h, |h|, x));
      if Source(a, h, |h|, x) == x {
        SourceOfUnlogged(a, h, i, |h|, x);
      }
    }
  }

  lemma InstalledRepresents(a: LogArea, disk: Disk, durable: Disk, i: nat)
    requires Represents(a, disk, durable)
    requires i <= HeadCount(disk[a.start])
    ensures var d := Installed(a, disk, HeadBlocks(disk[a.start]), i);
            && Represents(a, d, durable) && d[a.start] == disk[a.start]
            && (i == HeadCount(disk[a.start]) ==> SameHome(a, d, durable))
  {
    InstalledStandsFor(a, disk, HeadBlocks(disk[a.start]), durable, i);
  }

  /** Once every logged block is home, erasing the header leaves the same durable state. */
  lemma ClearHeadKeeps(a: LogArea, disk: Disk, durable: Disk)
    requires a.Fits(disk) && SameHome(a, disk, durable)
    ensures var d := HeadWritten(a, disk, []);
            && Represents(a, d, durable) && HeadCount(d[a.start]) == 0
            && SameHome(a, d, durable)
  {
    HeadRoundTrip(disk[a.start], []);
    var d := HeadWritten(a, disk, []);
    forall x: nat | Home(a, d, x)
      ensures d[x] == durable[x]
    {
      assert Home(a, disk, x);
    }
  }

  // ---------- recovery ----------

  /** The disk after the first c block writes of recover_from_log. */
  function RecoveryPrefix(a: LogArea, disk: Disk, c: nat): (r: Disk)
    requires ValidHead(a, disk)
    requires c <= HeadCount(disk[a.start]) + 1
    ensures |r| == |disk|
  {
    var h := HeadBlocks(disk[a.start]);
    if c <= |h| then Installed(a, disk, h, c)
    else HeadWritten(a, Installed(a, disk, h, |h|), [])
  }

  function Recovered(a: LogArea, disk: Disk): Disk
    requires ValidHead(a, disk)
  {
    RecoveryPrefix(a, disk, HeadCount(disk[a.start]) + 1)
  }

  /** Whatever the crash point, a recovery leaves a disk that stands for the same durable state. */
  lemma RecoveryPrefixRepresents(a: LogArea, disk: Disk, durable: Disk, c: nat)
    requires Represents(a, disk, durable)
    requires c <= HeadCount(disk[a.start]) + 1
    ensures Represents(a, RecoveryPrefix(a, disk, c), durable)
  {
    var h := HeadBlocks(disk[a.start]);
    if c <= |h| {
      InstalledRepresents(a, disk, durable, c);
    } else {
      InstalledRepresents(a, disk, durable, |h|);
      ClearHeadKeeps(a, Installed(a, disk, h, |h|), durable);
    }
  }

  lemma RecoveredHome(a: LogArea, disk: Disk, durable: Disk)
    requires Represents(a, disk, durable)
    ensures SameHome(a, Recovered(a, disk), durable)
    ensures Represents(a, Recovered(a, disk), durable)
    ensures HeadCount(Recovered(a, disk)[a.start]) == 0
  {
    var h := HeadBlocks(disk[a.start]);
    InstalledRepresents(a, disk, durable, |h|);
    ClearHeadKeeps(a, Installed(a, disk, h, |h|), durable);
  }

  /**
    A run of recoveries that crash: attempt i stops after cuts[i] block writes (a cut
    beyond the last write is a recovery that finishes); then one runs to its end.
   */
  ghost predicate RecoversTo(a: LogArea, disk: Disk, cuts: seq<nat>, final: Disk)
    decreases |cuts|
  {
    && ValidHead(a, disk)
    && if cuts == [] then final == Recovered(a, disk)
       else
         var last := HeadCount(disk[a.start]) + 1;
         RecoversTo(a, RecoveryPrefix(a, disk, if cuts[0] < last then cuts[0] else last), cuts[1..], final)
  }

  lemma {:induction false} RepeatedRecovery(a: LogArea, disk: Disk, durable: Disk, cuts: seq<nat>, final: Disk)
    requires Represents(a, disk, durable)
    requires RecoversTo(a, disk, cuts, final)
    ensures SameHome(a, final, durable)
    decreases |cuts|
  {
    if cuts == [] {
      RecoveredHome(a, disk, durable);
    } else {
      var last := HeadCount(disk[a.start]) + 1;
      var c := if cuts[0] < last then cuts[0] else last;
      RecoveryPrefixRepresents(a, disk, durable, c);
      RepeatedRecovery(a, RecoveryPrefix(a, disk, c), durable, cuts[1..], final);
    }
  }

  /** Recovery never gets stuck: however it is interrupted, the next attempt starts from a valid header. */
  lemma {:induction false} RecoveryAlwaysCompletes(a: LogArea, disk: Disk, durable: Disk, cuts: seq<nat>)
    requires Represents(a, disk, durable)
    ensures exists final :: RecoversTo(a, disk, cuts, final)
    decreases |cuts|
  {
    if cuts == [] {
      assert RecoversTo(a, disk, cuts, Recovered(a, disk));
    } else {
      var last := HeadCount(disk[a.start]) + 1;
      var c := if cuts[0] < last then cuts[0] else last;
      RecoveryPrefixRepresents(a, disk, durable, c);
      RecoveryAlwaysCompletes(a, RecoveryPrefix(a, disk, c), durable, cuts[1..]);
      var final :| RecoversTo(a, RecoveryPrefix(a, disk, c), cuts[1..], final);
      assert RecoversTo(a, disk, cuts, final);
    }
  }

  // ---------- commit ----------

  /** A transaction is ready to commit: its blocks are distinct home blocks, all pinned in the cache. */
  predicate ReadyToCommit(a: LogArea, disk: Disk, lh: seq<Word>, cache: map<Word, Block>) {
    && a.Fits(disk) && a.HasSlots(|lh|)
    && HomeBlocks(a, disk, lh)
    && (forall j :: 0 <= j < |lh| ==> lh[j] in cache)
    && (forall x :: x in cache ==> x in lh)
    && HeadCount(disk[a.start]) == 0
  }

  /** The disk right after the header that commits the transaction was written. */
  function Committed(a: LogArea, disk: Disk, lh: seq<Word>, cache: map<Word, Block>): (r: Disk)
    requires ReadyToCommit(a, disk, lh, cache)
    ensures |r| == |disk|
  {
    HeadWritten(a, LogCopied(a, disk, lh, cache, |lh|), lh)
  }

  /** The disk after the first k block writes of commit(); there are 2 * |lh| + 2 of them. */
  function CommitPrefix(a: LogArea, disk: Disk, lh: seq<Word>, cache: map<Word, Block>, k: nat): (r: Disk)
    requires ReadyToCommit(a, disk, lh, cache)
    requires k <= 2 * |lh| + 2
    ensures |r| == |disk|
  {
    var n := |lh|;
    if k <= n then LogCopied(a, disk, lh, cache, k)
    else if k <= 2 * n + 1 then Installed(a, Committed(a, disk, lh, cache), lh, k - n - 1)
    else HeadWritten(a, Installed(a, Committed(a, disk, lh, cache), lh, n), [])
  }

  lemma CopiedRepresentsBefore(a: LogArea, disk: Disk, lh: seq<Word>, cache: map<Word, Block>, k: nat)
    requires ReadyToCommit(a, disk, lh, cache)
    requires k <= |lh|
    ensures Represents(a, LogCopied(a, disk, lh, cache, k), disk)
  {
    var d := LogCopied(a, disk, lh, cache, k);
    LogCopiedAt(a, disk, lh, cache, k, a.start);
    forall x: nat | Home(a, d, x)
      ensures d[x] == disk[x]
    {
      LogCopiedAt(a, disk, lh, cache, k, x);
    }
  }

  /** Every modified block is in the log, and only those are. */
  lemma {:induction false} SourceOfLogged(a: LogArea, lh: seq<Word>, i: nat, x: nat)
    requires i <= |lh| && a.HasSlots(|lh|) && !a.Contains(x)
    ensures var s := Source(a, lh, i, x);
            if x in lh[..i] then a.start < s <= a.start + i && lh[s - a.start - 1] == x else s == x
  {
    if i > 0 {
      SourceOfLogged(a, lh, i - 1, x);
      assert lh[..i] == lh[..i - 1] + [lh[i - 1]];
    }
  }

  lemma CommittedStandsForAfter(a: LogArea, disk: Disk, lh: seq<Word>, cache: map<Word, Block>)
    requires ReadyToCommit(a, disk, lh, cache)
    ensures var d := Committed(a, disk, lh, cache);
            && StandsFor(a, d, lh, Overlay(disk, cache))
            && HeadCount(d[a.start]) == |lh| && HeadBlocks(d[a.start]) == lh
  {
    var c := LogCopied(a, disk, lh, cache, |lh|);
    var d := Committed(a, disk, lh, cache);
    HeadRoundTrip(c[a.start], lh);
    forall x: nat | Home(a, d, x)
      ensures Source(a, lh, |lh|, x) < |d| && d[Source(a, lh, |lh|, x)] == Overlay(disk, cache)[x]
    {
      assert lh[..|lh|] == lh;
      SourceOfLogged(a, lh, |lh|, x);
      LogCopiedAt(a, disk, lh, cache, |lh|, Source(a, lh, |lh|, x));
      assert x in lh <==> x in cache;
    }
  }

  lemma InstallingRepresentsAfter(a: LogArea, disk: Disk, lh: seq<Word>, cache: map<Word, Block>, i: nat)
    requires ReadyToCommit(a, disk, lh, cache) && i <= |lh|
    ensures var d := Installed(a, Committed(a, disk, lh, cache), lh, i);
            && Represents(a, d, Overlay(disk, cache))
            && (i == |lh| ==> SameHome(a, d, Overlay(disk, cache)))
  {
    CommittedStandsForAfter(a, disk, lh, cache);
    InstalledStandsFor(a, Committed(a, disk, lh, cache), lh, Overlay(disk, cache), i);
  }

  lemma CommitFinishes(a: LogArea, disk: Disk, lh: seq<Word>, cache: map<Word, Block>)
    requires ReadyToCommit(a, disk, lh, cache)
    ensures var d := CommitPrefix(a, disk, lh, cache, 2 * |lh| + 2);
            && Represents(a, d, Overlay(disk, cache)) && HeadCount(d[a.start]) == 0
            && SameHome(a, d, Overlay(disk, cache))
  {
    InstallingRepresentsAfter(a, disk, lh, cache, |lh|);
    ClearHeadKeeps(a, Installed(a, Committed(a, disk, lh, cache), lh, |lh|), Overlay(disk, cache));
  }

  /**
    The commit point: through the first |lh| block writes the disk stands for the state
    before the transaction, from the write of the header on for the state after it.
   */
  lemma CommitPrefixRepresents(a: LogArea, disk: Disk, lh: seq<Word>, cache: map<Word, Block>, k: nat)
    requires ReadyToCommit(a, disk, lh, cache)
    requires k <= 2 * |lh| + 2
    ensures k <= |lh| ==> Represents(a, CommitPrefix(a, disk, lh, cache, k), disk)
    ensures k > |lh| ==> Represents(a, CommitPrefix(a, disk, lh, cache, k), Overlay(disk, cache))
  {
    if k <= |lh| {
      CopiedRepresentsBefore(a, disk, lh, cache, k);
    } else if k <= 2 * |lh| + 1 {
      InstallingRepresentsAfter(a, disk, lh, cache, k - |lh| - 1);
    } else {
      CommitFinishes(a, disk, lh, cache);
    }
  }

  /**
    Crash atomicity: crash after any number k of block writes of a commit, let any number of
    recoveries crash at any of their writes, and finish one. The home blocks are then
    those from before the transaction if the header had not reached the disk, and those
    from after the whole transaction if it had.
   */
  lemma CrashAtomicity(a: LogArea, disk: Disk, lh: seq<Word>, cache: map<Word, Block>, k: nat, cuts: seq<nat>,
                       final: Disk)
    requires ReadyToCommit(a, disk, lh, cache)
    requires k <= 2 * |lh| + 2
    requires RecoversTo(a, CommitPrefix(a, disk, lh, cache, k), cuts, final)
    ensures k <= |lh| ==> SameHome(a, final, disk)
    ensures k > |lh| ==> SameHome(a, final, Overlay(disk, cache))
  {
    CommitPrefixRepresents(a, disk, lh, cache, k);
    if k <= |lh| {
      RepeatedRecovery(a, CommitPrefix(a, disk, lh, cache, k), disk, cuts, final);
    } else {
      RepeatedRecovery(a, CommitPrefix(a, disk, lh, cache, k), Overlay(disk, cache), cuts, final);
    }
  }

  // ---------- the disks that the loops go through ----------

  /** Every disk that the first i block writes of write_log leave behind, in order. */
  function CopyTrace(a: LogArea, disk: Disk, lh: seq<Word>, cache: map<Word, Block>, i: nat): (r: seq<Disk>)
    requires a.Fits(disk) && a.HasSlots(|lh|) && i <= |lh|
    requires forall j :: 0 <= j < |lh| ==> lh[j] in cache
    ensures |r| == i
  {
    if i == 0 then [] else CopyTrace(a, disk, lh, cache, i - 1) + [LogCopied(a, disk, lh, cache, i)]
  }

  function InstallTrace(a: LogArea, disk: Disk, lh: seq<Word>, i: nat): (r: seq<Disk>)
    requires a.Fits(disk) && a.HasSlots(|lh|) && i <= |lh|
    requires HomeBlocks(a, disk, lh)
    ensures |r| == i
  {
    if i == 0 then [] else InstallTrace(a, disk, lh, i - 1) + [Installed(a, disk, lh, i)]
  }

  function CommitTrace(a: LogArea, disk: Disk, lh: seq<Word>, cache: map<Word, Block>): (r: seq<Disk>)
    requires ReadyToCommit(a, disk, lh, cache)
    ensures |r| == if lh == [] then 0 else 2 * |lh| + 2
  {
    if lh == [] then []
    else
      CopyTrace(a, disk, lh, cache, |lh|) + [Committed(a, disk, lh, cache)]
      + InstallTrace(a, Committed(a, disk, lh, cache), lh, |lh|) + [CommitPrefix(a, disk, lh, cache, 2 * |lh| + 2)]
  }

  function RecoveryTrace(a: LogArea, disk: Disk): (r: seq<Disk>)
    requires ValidHead(a, disk)
    ensures |r| == HeadCount(disk[a.start]) + 1
  {
    InstallTrace(a, disk, HeadBlocks(disk[a.start]), HeadCount(disk[a.start])) + [Recovered(a, disk)]
  }

  lemma {:induction false} CopyTraceAt(a: LogArea, disk: Disk, lh: seq<Word>, cache: map<Word, Block>, i: nat, k: nat)
    requires a.Fits(disk) && a.HasSlots(|lh|) && k < i <= |lh|
    requires forall j :: 0 <= j < |lh| ==> lh[j] in cache
    ensures CopyTrace(a, disk, lh, cache, i)[k] == LogCopied(a, disk, lh, cache, k + 1)
  {
    if k < i - 1 {
      CopyTraceAt(a, disk, lh, cache, i - 1, k);
    }
  }

  lemma {:induction false} InstallTraceAt(a: LogArea, disk: Disk, lh: seq<Word>, i: nat, k: nat)
    requires a.Fits(disk) && a.HasSlots(|lh|) && k < i <= |lh|
    requires HomeBlocks(a, disk, lh)
    ensures InstallTrace(a, disk, lh, i)[k] == Installed(a, disk, lh, k + 1)
  {
    if k < i - 1 {
      InstallTraceAt(a, disk, lh, i - 1, k);
    }
  }

  /** A crash can only be seen at one of the disks of CommitPrefix. */
  lemma CommitTraceAt(a: LogArea, disk: Disk, lh: seq<Word>, cache: map<Word, Block>, k: nat)
    requires ReadyToCommit(a, disk, lh, cache) && lh != []
    requires k < 2 * |lh| + 2
    ensures CommitTrace(a, disk, lh, cache)[k] == CommitPrefix(a, disk, lh, cache, k + 1)
  {
    if k < |lh| {
      CopyTraceAt(a, disk, lh, cache, |lh|, k);
    } else if |lh| < k <= 2 * |lh| {
      InstallTraceAt(a, Committed(a, disk, lh, cache), lh, |lh|, k - |lh| - 1);
    }
  }

  lemma RecoveryTraceAt(a: LogArea, disk: Disk, c: nat)
    requires ValidHead(a, disk)
    requires c <= HeadCount(disk[a.start])
    ensures RecoveryTrace(a, disk)[c] == RecoveryPrefix(a, disk, c + 1)
  {
    if c < HeadCount(disk[a.start]) {
      InstallTraceAt(a, disk, HeadBlocks(disk[a.start]), HeadCount(disk[a.start]), c);
    }
  }

  // ---------- the in-memory header ----------

  predicate Distinct(s: seq<Word>) {
    s == [] || (s[|s| - 1] !in s[..|s| - 1] && Distinct(s[..|s| - 1]))
  }

  lemma {:induction false} DistinctMeans(s: seq<Word>)
    ensures Distinct(s) <==> forall i, j :: 0 <= i < j < |s| ==> s[i] != s[j]
  {
    if s != [] {
      DistinctMeans(s[..|s| - 1]);
    }
  }

  lemma AbsorbKeepsDistinct(lh: seq<Word>, b: Word)
    requires Distinct(lh)
    ensures Distinct(Absorb(lh, b))
  {
    if b !in lh {
      assert (lh + [b])[..|lh|] == lh;
    }
  }

  /** log_write's effect on the logged block numbers: a block is recorded once per transaction. */
  function Absorb(lh: seq<Word>, b: Word): seq<Word> {
    if b in lh then lh else lh + [b]
  }

  /** begin_op admits an operation when the log can hold a full operation more. */
  predicate HasRoom(n: int, outstanding: int) {
    n + (outstanding + 1) * MAXOPBLOCKS <= LOGSIZE
  }

  /** log.outstanding and log.committing */
  datatype Gate = Gate(outstanding: int, committing: bool)

  /** begin_op lets an operation in. */
  predicate Admits(g: Gate, n: int) {
    !g.committing && HasRoom(n, g.outstanding)
  }

  function Admitted(g: Gate): Gate {
    g.(outstanding := g.outstanding + 1)
  }

  /** end_op's first critical section: the last operation starts the commit, any other wakes those in begin_op. */
  predicate Commits(g: Gate) {
    !g.committing && g.outstanding == 1
  }

  predicate Wakes(g: Gate) {
    !g.committing && g.outstanding != 1
  }

  function Departed(g: Gate): Gate {
    Gate(g.outstanding - 1, g.committing || Commits(g))
  }

  /** The test log_write panics on ("too big a transaction"). */
  predicate TooBig(n: int, size: int) {
    n >= LOGSIZE || n >= size - 1
  }
}
