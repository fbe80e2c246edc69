/**
  Disk blocks as the kernel sees them: 512 bytes, some of which are read as
  little-endian 32-bit words (the log header and the indirect blocks).
 */
module Blocks {

  const BSIZE: nat := 512
  const WORDS: nat := 128  // BSIZE / sizeof(uint)

  type Byte = x: int | 0 <= x < 0x100
  type Half = x: int | 0 <= x < 0x1_0000
  type Word = x: int | 0 <= x < 0x1_0000_0000
  type Block = b: seq<Byte> | |b| == BSIZE witness seq(BSIZE, _ => 0)

  function Pow256(n: nat): (r: nat)
    ensures r > 0
  {
    if n == 0 then 1 else 0x100 * Pow256(n - 1)
  }

  /** The unsigned integer in the n bytes from `at` on, least significant byte first. */
  function Load(b: seq<Byte>, at: nat, n: nat): (r: nat)
    requires at + n <= |b|
    ensures r < Pow256(n)
    decreases |b| - at
  {
    if n == 0 then 0
    else
      var rest := Load(b, at + 1, n - 1);
      b[at] as int + 0x100 * rest
  }

  function Store(b: seq<Byte>, at: nat, n: nat, v: nat): (r: seq<Byte>)
    requires at + n <= |b|
    ensures |r| == |b|
    decreases |b| - at
  {
    if n == 0 then b else Store(b[at := v % 0x100], at + 1, n - 1, v / 0x100)
  }

  lemma {:induction false} StoreFrame(b: seq<Byte>, at: nat, n: nat, v: nat, k: nat)
    requires at + n <= |b| && k < |b|
    requires k < at || at + n <= k
    ensures Store(b, at, n, v)[k] == b[k]
    decreases n
  {
    if n > 0 {
      StoreFrame(b[at := v % 0x100], at + 1, n - 1, v / 0x100, k);
    }
  }

  /** Load depends on its own bytes only. */
  lemma {:induction false} LoadFrame(b: seq<Byte>, c: seq<Byte>, at: nat, n: nat)
    requires at + n <= |b| && at + n <= |c|
    requires forall k :: at <= k < at + n ==> b[k] == c[k]
    ensures Load(b, at, n) == Load(c, at, n)
    decreases n
  {
    if n > 0 {
      LoadFrame(b, c, at + 1, n - 1);
    }
  }

  lemma {:induction false} LoadStored(b: seq<Byte>, at: nat, n: nat, v: nat)
    requires at + n <= |b| && v < Pow256(n)
    ensures Load(Store(b, at, n, v), at, n) == v
    decreases n
  {
    if n > 0 {
      assert v / 0x100 < Pow256(n - 1);
      LoadStored(b[at := v % 0x100], at + 1, n - 1, v / 0x100);
      StoreFrame(b[at := v % 0x100], at + 1, n - 1, v / 0x100, at);
    }
  }

  lemma Pow256Word()
    ensures Pow256(4) == 0x1_0000_0000 && Pow256(2) == 0x1_0000
  {
    assert Pow256(1) == 0x100;
    assert Pow256(2) == 0x1_0000;
    assert Pow256(3) == 0x100_0000;
  }

  function LoadWord(b: Block, i: nat): Word
    requires i < WORDS
  {
    Pow256Word();
    Load(b, 4 * i, 4)
  }

  function StoreWord(b: Block, i: nat, v: Word): Block
    requires i < WORDS
  {
    Store(b, 4 * i, 4, v)
  }

  /** A stored word is read back, and every other word keeps its value. */
  lemma LoadStore(b: Block, i: nat, v: Word, j: nat)
    requires i < WORDS && j < WORDS
    ensures LoadWord(StoreWord(b, i, v), j) == if i == j then v else LoadWord(b, j)
  {
    if i == j {
      Pow256Word();
      LoadStored(b, 4 * i, 4, v);
    } else {
      forall k | 4 * j <= k < 4 * j + 4
        ensures StoreWord(b, i, v)[k] == b[k]
      {
        StoreFrame(b, 4 * i, 4, v, k);
      }
      LoadFrame(StoreWord(b, i, v), b, 4 * j, 4);
    }
  }
}
