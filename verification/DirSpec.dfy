/**
  Directories of fs.c: a file of 16-byte entries, read as a finite map from names of at most
  DIRSIZ bytes to inode numbers.
 */
module DirSpec {
  import opened Blocks

  const DIRSIZ: nat := 14
  const DIRENT: nat := 16

  type Name = s: seq<Byte> | |s| == DIRSIZ witness seq(DIRSIZ, _ => 0)

  datatype Dirent = Dirent(inum: Half, name: Name)

  type Dir = seq<Dirent>

  // ---------- names ----------

  /** A name is what stands before its first NUL, DIRSIZ bytes at most. */
  function Key(s: seq<Byte>, n: nat): (r: seq<Byte>)
    ensures |r| <= n && |r| <= |s| && r == s[..|r|] && 0 !in r
    ensures |r| == n || |r| == |s| || s[|r|] == 0
  {
    if n == 0 || s == [] || s[0] == 0 then [] else [s[0]] + Key(s[1..], n - 1)
  }

  function NameKey(s: seq<Byte>): seq<Byte> {
    Key(s, DIRSIZ)
  }

  function ByteAt(s: seq<Byte>, i: nat): Byte {
    if i < |s| then s[i] else 0
  }

  /** strncmp(s, t, n) == 0 */
  predicate StrnEq(s: seq<Byte>, t: seq<Byte>, n: nat, i: nat)
    decreases n - i
  {
    if i >= n then true
    else if ByteAt(s, i) == 0 || ByteAt(s, i) != ByteAt(t, i) then ByteAt(s, i) == ByteAt(t, i)
    else StrnEq(s, t, n, i + 1)
  }

  lemma {:induction false} StrnEqSuffix(s: seq<Byte>, t: seq<Byte>, n: nat, i: nat)
    requires i < n
    ensures StrnEq(s, t, n, i + 1) == StrnEq(if s == [] then [] else s[1..], if t == [] then [] else t[1..], n - 1, i)
    decreases n - i
  {
    if i + 1 < n {
      StrnEqSuffix(s, t, n, i + 1);
    }
  }

  /** namecmp compares names. */
  lemma {:induction false} StrnEqMeans(s: seq<Byte>, t: seq<Byte>, n: nat)
    ensures StrnEq(s, t, n, 0) <==> Key(s, n) == Key(t, n)
    decreases n
  {
    if n > 0 && s != [] && t != [] && s[0] != 0 && s[0] == t[0] {
      StrnEqSuffix(s, t, n, 0);
      StrnEqMeans(s[1..], t[1..], n - 1);
    }
  }

  /** strncpy into a directory entry: the name, padded with NULs */
  function Padded(s: seq<Byte>): (r: Name)
  {
    var k := NameKey(s);
    k + Nuls(DIRSIZ - |k|)
  }

  function Nuls(n: nat): (r: seq<Byte>)
    ensures |r| == n && forall i :: 0 <= i < n ==> r[i] == 0
  {
    if n == 0 then [] else [0] + Nuls(n - 1)
  }

  lemma {:induction false} KeyIs(s: seq<Byte>, k: seq<Byte>, n: nat)
    requires |k| <= n && |k| <= |s| && k == s[..|k|] && 0 !in k
    requires |k| == n || |k| == |s| || s[|k|] == 0
    ensures Key(s, n) == k
    decreases n
  {
    if k != [] {
      assert s[0] == k[0];
      assert k[1..] == s[1..][..|k| - 1];
      KeyIs(s[1..], k[1..], n - 1);
    }
  }

  lemma PaddedKey(s: seq<Byte>)
    ensures NameKey(Padded(s)) == NameKey(s)
  {
    var k := NameKey(s);
    KeyIs(Padded(s), k, DIRSIZ);
  }

  // ---------- the map ----------

  predicate Matches(e: Dirent, key: seq<Byte>) {
    e.inum != 0 && NameKey(e.name) == key
  }

  /** dirlookup's loop: the first entry from i on with this name */
  function Find(d: Dir, key: seq<Byte>, i: nat): (r: nat)
    requires i <= |d|
    ensures i <= r <= |d| && (r < |d| ==> Matches(d[r], key))
    ensures forall j :: i <= j < r ==> !Matches(d[j], key)
    decreases |d| - i
  {
    if i < |d| && !Matches(d[i], key) then Find(d, key, i + 1) else i
  }

  /** dirlink's second loop: the first empty entry, or the end */
  function FindFree(d: Dir, i: nat): (r: nat)
    requires i <= |d|
    ensures i <= r <= |d| && (r < |d| ==> d[r].inum == 0)
    ensures forall j :: i <= j < r ==> d[j].inum != 0
    decreases |d| - i
  {
    if i < |d| && d[i].inum != 0 then FindFree(d, i + 1) else i
  }

  function AsMap(d: Dir): map<seq<Byte>, nat> {
    if d == [] then map[]
    else
      var e := d[|d| - 1];
      var m := AsMap(d[..|d| - 1]);
      if e.inum == 0 then m else m[NameKey(e.name) := e.inum]
  }

  /** No name is used twice. */
  predicate Unique(d: Dir) {
    d == [] || (Unique(d[..|d| - 1]) && (d[|d| - 1].inum == 0 || NameKey(d[|d| - 1].name) !in AsMap(d[..|d| - 1])))
  }

  lemma {:induction false} AsMapAt(d: Dir, i: nat, key: seq<Byte>)
    requires i < |d| && Matches(d[i], key) && Unique(d)
    ensures key in AsMap(d) && AsMap(d)[key] == d[i].inum
    decreases |d|
  {
    if i < |d| - 1 {
      AsMapAt(d[..|d| - 1], i, key);
    }
  }

  lemma {:induction false} AsMapNone(d: Dir, key: seq<Byte>)
    requires forall i :: 0 <= i < |d| ==> !Matches(d[i], key)
    ensures key !in AsMap(d)
  {
    if d != [] {
      AsMapNone(d[..|d| - 1], key);
    }
  }

  /** dirlookup finds a name exactly if the directory binds it, and then its inode. */
  lemma LookupMeans(d: Dir, key: seq<Byte>)
    requires Unique(d)
    ensures Find(d, key, 0) < |d| <==> key in AsMap(d)
    ensures Find(d, key, 0) < |d| ==> AsMap(d)[key] == d[Find(d, key, 0)].inum
  {
    var i := Find(d, key, 0);
    if i < |d| {
      AsMapAt(d, i, key);
    } else {
      AsMapNone(d, key);
    }
  }

  /** An empty slot in the middle takes a binding that was not there. */
  lemma {:induction false} FillSlot(d: Dir, i: nat, e: Dirent)
    requires i < |d| && d[i].inum == 0 && e.inum != 0 && Unique(d) && NameKey(e.name) !in AsMap(d)
    ensures Unique(d[i := e]) && AsMap(d[i := e]) == AsMap(d)[NameKey(e.name) := e.inum]
    decreases |d|
  {
    var n := |d| - 1;
    if i == n {
      assert d[i := e][..n] == d[..n];
    } else {
      assert d[i := e][..n] == d[..n][i := e];
      FillSlot(d[..n], i, e);
    }
  }

  lemma AppendSlot(d: Dir, e: Dirent)
    requires e.inum != 0 && Unique(d) && NameKey(e.name) !in AsMap(d)
    ensures Unique(d + [e]) && AsMap(d + [e]) == AsMap(d)[NameKey(e.name) := e.inum]
  {
    assert (d + [e])[..|d|] == d;
  }

  lemma {:induction false} ClearSlot(d: Dir, i: nat, e: Dirent)
    requires i < |d| && d[i].inum != 0 && e.inum == 0 && Unique(d)
    ensures Unique(d[i := e]) && AsMap(d[i := e]) == AsMap(d) - {NameKey(d[i].name)}
    decreases |d|
  {
    var n := |d| - 1;
    var key := NameKey(d[i].name);
    if i == n {
      assert d[i := e][..n] == d[..n];
    } else {
      assert d[i := e][..n] == d[..n][i := e];
      ClearSlot(d[..n], i, e);
      AsMapAt(d[..n], i, key);
    }
  }

  /** dirlink */
  function Dirlink(d: Dir, name: seq<Byte>, inum: Half): (r: (Dir, bool))
  {
    if Find(d, NameKey(name), 0) < |d| then (d, false)
    else
      var off := FindFree(d, 0);
      var e := Dirent(inum, Padded(name));
      (if off < |d| then d[off := e] else d + [e], true)
  }

  /** unlink's writei of a zeroed entry over the one that was found */
  function Unlinked(d: Dir, name: seq<Byte>): Dir {
    var off := Find(d, NameKey(name), 0);
    if off < |d| then d[off := Dirent(0, Nuls(DIRSIZ))] else d
  }

  /** dirlink fails if and only if the name is bound, and otherwise adds exactly this binding. */
  lemma DirlinkBinds(d: Dir, name: seq<Byte>, inum: Half)
    requires Unique(d) && inum != 0
    ensures var (r, ok) := Dirlink(d, name, inum);
            && Unique(r) && (ok <==> NameKey(name) !in AsMap(d))
            && AsMap(r) == if ok then AsMap(d)[NameKey(name) := inum] else AsMap(d)
  {
    LookupMeans(d, NameKey(name));
    if NameKey(name) !in AsMap(d) {
      PaddedKey(name);
      var off := FindFree(d, 0);
      var e := Dirent(inum, Padded(name));
      if off < |d| {
        FillSlot(d, off, e);
      } else {
        AppendSlot(d, e);
      }
    }
  }

  /** unlink removes exactly this binding. */
  lemma UnlinkUnbinds(d: Dir, name: seq<Byte>)
    requires Unique(d) && NameKey(name) in AsMap(d)
    ensures Unique(Unlinked(d, name)) && AsMap(Unlinked(d, name)) == AsMap(d) - {NameKey(name)}
  {
    LookupMeans(d, NameKey(name));
    ClearSlot(d, Find(d, NameKey(name), 0), Dirent(0, Nuls(DIRSIZ)));
  }

  /** Unlinking a name undoes linking it. */
  lemma LinkThenUnlink(d: Dir, name: seq<Byte>, inum: Half)
    requires Unique(d) && inum != 0 && NameKey(name) !in AsMap(d)
    ensures AsMap(Unlinked(Dirlink(d, name, inum).0, name)) == AsMap(d)
  {
    DirlinkBinds(d, name, inum);
    UnlinkUnbinds(Dirlink(d, name, inum).0, name);
  }
}
