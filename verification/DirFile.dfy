/**
  Directories as file contents: dirlink and unlink change one entry of 16 bytes through writei.
 */
module DirFile {
  import opened Blocks
  import opened DirSpec
  import F = FsFile
  import S = FsSpec

  /** struct dirent: a little-endian inode number and the name */
  function Encode(e: Dirent): (r: seq<Byte>)
    ensures |r| == DIRENT
  {
    [e.inum % 0x100, e.inum / 0x100] + e.name
  }

  function Decode(b: seq<Byte>): Dirent
    requires |b| == DIRENT
  {
    Dirent(b[0] as int + 0x100 * b[1] as int, b[2..])
  }

  lemma DecodeEncode(e: Dirent)
    ensures Decode(Encode(e)) == e
  {
    assert Encode(e)[2..] == e.name;
  }

  /** The entries of a directory's contents. */
  function Entries(c: seq<Byte>): (r: Dir)
    requires |c| % DIRENT == 0
    ensures |r| == |c| / DIRENT
  {
    if c == [] then [] else Entries(c[..|c| - DIRENT]) + [Decode(c[|c| - DIRENT..])]
  }

  lemma {:induction false} EntryAt(c: seq<Byte>, i: nat)
    requires |c| % DIRENT == 0 && i < |c| / DIRENT
    ensures Entries(c)[i] == Decode(c[DIRENT * i..DIRENT * i + DIRENT])
    decreases |c|
  {
    var c' := c[..|c| - DIRENT];
    if i < |c'| / DIRENT {
      EntryAt(c', i);
      assert c'[DIRENT * i..DIRENT * i + DIRENT] == c[DIRENT * i..DIRENT * i + DIRENT];
    }
  }

  function Put(d: Dir, i: nat, e: Dirent): Dir
    requires i <= |d|
  {
    if i < |d| then d[i := e] else d + [e]
  }

  lemma SliceWritten(c: seq<Byte>, off: nat, src: seq<Byte>, lo: nat, hi: nat)
    requires off <= |c| && lo <= hi <= |F.Overwrite(c, off, src)|
    ensures lo == off && hi == off + |src| ==> F.Overwrite(c, off, src)[lo..hi] == src
    ensures (hi <= off || off + |src| <= lo) && hi <= |c| ==> F.Overwrite(c, off, src)[lo..hi] == c[lo..hi]
  {
    var w := F.Overwrite(c, off, src);
    forall k: nat | lo <= k < hi
      ensures w[k] == if off <= k < off + |src| then src[k - off] else c[k]
    {
      F.OverwriteAt(c, off, src, k);
    }
    if lo == off && hi == off + |src| {
      assert w[lo..hi] == src;
    } else if (hi <= off || off + |src| <= lo) && hi <= |c| {
      assert w[lo..hi] == c[lo..hi];
    }
  }

  lemma OverwriteSize(c: seq<Byte>, i: nat, w: seq<Byte>, n: nat)
    requires |c| == DIRENT * n && i <= n && |w| == F.Max(|c|, DIRENT * i + DIRENT)
    ensures |w| == DIRENT * (if i < n then n else n + 1)
  {
  }

  lemma OverwriteEntryAt(c: seq<Byte>, n: nat, i: nat, e: Dirent, w: seq<Byte>, j: nat)
    requires |c| == DIRENT * n && i <= n && w == F.Overwrite(c, DIRENT * i, Encode(e)) && |w| % DIRENT == 0
    requires j < |w| / DIRENT
    ensures j == i ==> Entries(w)[j] == e
    ensures j != i && j < n ==> Entries(w)[j] == Entries(c)[j]
  {
    EntryAt(w, j);
    var lo, hi := DIRENT * j, DIRENT * j + DIRENT;
    SliceWritten(c, DIRENT * i, Encode(e), lo, hi);
    if j == i {
      DecodeEncode(e);
    } else if j < n {
      EntryAt(c, j);
    }
  }

  /** Writing one entry's bytes changes or appends that entry and no other. */
  lemma OverwriteEntry(c: seq<Byte>, i: nat, e: Dirent)
    requires |c| % DIRENT == 0 && i <= |c| / DIRENT
    ensures var w := F.Overwrite(c, DIRENT * i, Encode(e));
            |w| % DIRENT == 0 && Entries(w) == Put(Entries(c), i, e)
  {
    var n := |c| / DIRENT;
    var w := F.Overwrite(c, DIRENT * i, Encode(e));
    OverwriteSize(c, i, w, n);
    var p := Put(Entries(c), i, e);
    assert |Entries(w)| == |p|;
    forall j: nat | j < |p|
      ensures Entries(w)[j] == p[j]
    {
      OverwriteEntryAt(c, n, i, e, w, j);
    }
  }

  /** A directory's file: whole entries, and no name twice. */
  ghost predicate IsDirFile(fs: S.Fs, k: nat) {
    F.SizeOk(fs, k) && |F.Content(fs, k)| % DIRENT == 0 && Unique(Entries(F.Content(fs, k)))
    && fs.inodes[k].typ != F.T_DEV
  }

  function Slot(d: Dir): nat {
    FindFree(d, 0)
  }

  /**
    dirlink on disk: unless it runs out of blocks or the directory is as large as a file can be, the
    directory afterwards binds the new name as well, and no other file has changed.
   */
  lemma DirlinkOnDisk(fs: S.Fs, own: map<nat, S.Slot>, k: nat, name: seq<Byte>, inum: Half)
    returns (own': map<nat, S.Slot>)
    requires S.Owned(fs, own, 0, 0) && !fs.halted && IsDirFile(fs, k) && inum != 0
    requires var d := Entries(F.Content(fs, k));
             NameKey(name) !in AsMap(d) && DIRENT * Slot(d) + DIRENT <= F.MAXBYTES
    ensures var d := Entries(F.Content(fs, k));
            var (r, n) := F.Writei(fs, k, Encode(Dirent(inum, Padded(name))), DIRENT * Slot(d), -1);
            && n == DIRENT
            && (!r.halted ==> S.Owned(r, own', 0, 0) && IsDirFile(r, k) && S.OthersKept(fs, r, k)
                              && AsMap(Entries(F.Content(r, k))) == AsMap(d)[NameKey(name) := inum])
  {
    var c := F.Content(fs, k);
    var d := Entries(c);
    var e := Dirent(inum, Padded(name));
    own' := F.WriteiRefines(fs, own, k, Encode(e), DIRENT * Slot(d), -1);
    OverwriteEntry(c, Slot(d), e);
    LookupMeans(d, NameKey(name));
    DirlinkBinds(d, name, inum);
  }

  /** unlink's zeroing on disk: the directory afterwards lacks exactly this name. */
  lemma UnlinkOnDisk(fs: S.Fs, own: map<nat, S.Slot>, k: nat, name: seq<Byte>) returns (own': map<nat, S.Slot>)
    requires S.Owned(fs, own, 0, 0) && !fs.halted && IsDirFile(fs, k)
    requires NameKey(name) in AsMap(Entries(F.Content(fs, k)))
    ensures var d := Entries(F.Content(fs, k));
            var (r, n) := F.Writei(fs, k, Encode(Dirent(0, Nuls(DIRSIZ))), DIRENT * Find(d, NameKey(name), 0), -1);
            && n == DIRENT
            && (!r.halted ==> S.Owned(r, own', 0, 0) && IsDirFile(r, k) && S.OthersKept(fs, r, k)
                              && AsMap(Entries(F.Content(r, k))) == AsMap(d) - {NameKey(name)})
  {
    var c := F.Content(fs, k);
    var d := Entries(c);
    var off := Find(d, NameKey(name), 0);
    LookupMeans(d, NameKey(name));
    own' := F.WriteiRefines(fs, own, k, Encode(Dirent(0, Nuls(DIRSIZ))), DIRENT * off, -1);
    OverwriteEntry(c, off, Dirent(0, Nuls(DIRSIZ)));
    UnlinkUnbinds(d, name);
  }
}
