/**
  The inode cache's references, directory look-up and path resolution of fs.c as they run.
 */
module Namei {
  import opened Basics
  import opened Blocks
  import opened DirSpec
  import opened PathSpec

  const ROOTINO: nat := 1

  /** A slot of icache.inode; it is free when ref is 0. */
  datatype Slot = Slot(inum: nat, ref: nat)

  function Refs(slots: seq<Slot>, inum: nat): nat {
    if slots == [] then 0
    else Refs(slots[..|slots| - 1], inum) + if slots[|slots| - 1].inum == inum then slots[|slots| - 1].ref else 0
  }

  lemma {:induction false} RefsUpdate(slots: seq<Slot>, i: nat, s: Slot, inum: nat)
    requires i < |slots|
    ensures Refs(slots[i := s], inum) + (if slots[i].inum == inum then slots[i].ref else 0)
         == Refs(slots, inum) + (if s.inum == inum then s.ref else 0)
  {
    var n := |slots| - 1;
    if i == n {
      assert slots[i := s][..n] == slots[..n];
    } else {
      assert slots[i := s][..n] == slots[..n][i := s];
      RefsUpdate(slots[..n], i, s, inum);
    }
  }

  /** An inode is cached once: a second slot for it would have its own copy of the fields. */
  predicate CachedOnce(slots: seq<Slot>) {
    slots == [] ||
    (CachedOnce(slots[..|slots| - 1])
     && (slots[|slots| - 1].ref > 0 ==> !Cached(slots[..|slots| - 1], slots[|slots| - 1].inum)))
  }

  predicate Cached(slots: seq<Slot>, inum: nat) {
    exists i :: 0 <= i < |slots| && slots[i].ref > 0 && slots[i].inum == inum
  }

  lemma {:induction false} OnceMeans(slots: seq<Slot>)
    ensures CachedOnce(slots) <==>
            forall i, j :: 0 <= i < j < |slots| && slots[i].ref > 0 && slots[j].ref > 0 ==>
              slots[i].inum != slots[j].inum
  {
    if slots != [] {
      OnceMeans(slots[..|slots| - 1]);
    }
  }

  class Icache {
    const inode: array<Slot>
    var panicked: bool

    ghost predicate Valid()
      reads this, inode
    {
      CachedOnce(inode[..])
    }

    /** References to inode number n that are held anywhere. */
    ghost function Count(n: nat): nat
      reads this, inode
    {
      Refs(inode[..], n)
    }

    constructor (n: nat)
      ensures Valid() && fresh(inode) && inode.Length == n && !panicked && forall i: nat :: Count(i) == 0
    {
      inode := new Slot[n](_ => Slot(0, 0));
      panicked := false;
      new;
      AllFree(inode[..]);
    }

    /** r is the slot of the inode that was looked for. */
    ghost predicate Returns(r: Option<nat>, target: Option<nat>)
      reads this, inode
    {
      && r.Some? == target.Some?
      && (r.Some? ==> r.value < inode.Length && inode[r.value].inum == target.value && inode[r.value].ref > 0)
    }

    /** One reference was given up for `from` and one taken for `to`, where they are anything. */
    ghost predicate Passed(before: seq<Slot>, from: Option<nat>, to: Option<nat>)
      reads this, inode
    {
      forall n: nat :: Count(n) + (if from == Some(n) then 1 else 0) == Refs(before, n) + if to == Some(n) then 1 else 0
    }

    method Iget(inum: nat) returns (ip: nat)
      requires Valid() && !panicked
      modifies this`panicked, inode
      ensures Valid()
      ensures !panicked ==>
          ip < inode.Length && inode[ip].inum == inum && inode[ip].ref > 0
          && (old(inode[ip]).ref > 0 ==> inode[ip].ref > 1)
      ensures !panicked ==> forall n: nat :: Count(n) == old(Count(n)) + if n == inum then 1 else 0
      ensures !panicked ==> forall i :: 0 <= i < inode.Length && old(inode[i]).ref > 0 ==>
          inode[i].ref > 0 && inode[i].inum == old(inode[i]).inum
      ensures panicked ==> !Cached(old(inode[..]), inum) && forall i :: 0 <= i < inode.Length ==> old(inode[i]).ref > 0
    {
      ghost var before := inode[..];
      OnceMeans(before);
      var empty: int := -1;
      ip := 0;
      while ip < inode.Length
        invariant ip <= inode.Length && inode[..] == before && !panicked
        invariant forall i :: 0 <= i < ip ==> !(inode[i].ref > 0 && inode[i].inum == inum)
        invariant empty == -1 ==> forall i :: 0 <= i < ip ==> inode[i].ref > 0
        invariant empty != -1 ==> 0 <= empty < ip && inode[empty].ref == 0
      {
        if inode[ip].ref > 0 && inode[ip].inum == inum {
          inode[ip] := Slot(inum, inode[ip].ref + 1);
          Counted(before, ip, Slot(inum, before[ip].ref + 1), inum);
          OnceMeans(inode[..]);
          return;
        }
        if empty == -1 && inode[ip].ref == 0 {
          empty := ip;
        }
        ip := ip + 1;
      }
      if empty == -1 {
        panicked := true;
        return;
      }
      ip := empty;
      inode[ip] := Slot(inum, 1);
      Counted(before, ip, Slot(inum, 1), inum);
      OnceMeans(inode[..]);
    }

    /** One reference more for inode number inum. */
    lemma Counted(before: seq<Slot>, i: nat, s: Slot, inum: nat)
      requires i < |before| && s.inum == inum && inode[..] == before[i := s]
      requires s.ref == 1 + if before[i].inum == inum then before[i].ref else 0
      requires before[i].ref == 0 || before[i].inum == inum
      ensures forall n: nat :: Count(n) == Refs(before, n) + if n == inum then 1 else 0
    {
      forall n: nat
        ensures Count(n) == Refs(before, n) + if n == inum then 1 else 0
      {
        RefsUpdate(before, i, s, n);
      }
    }

    method Idup(ip: nat)
      requires Valid() && ip < inode.Length && inode[ip].ref > 0
      modifies inode
      ensures Valid() && inode[ip] == Slot(old(inode[ip]).inum, old(inode[ip]).ref + 1)
      ensures forall n: nat :: Count(n) == old(Count(n)) + if n == inode[ip].inum then 1 else 0
    {
      ghost var before := inode[..];
      OnceMeans(before);
      inode[ip] := Slot(inode[ip].inum, inode[ip].ref + 1);
      Counted(before, ip, inode[ip], inode[ip].inum);
      OnceMeans(inode[..]);
    }

    /** iput, for an inode that still has links or other references */
    method Iput(ip: nat)
      requires Valid() && ip < inode.Length && inode[ip].ref > 0
      modifies inode
      ensures Valid() && forall n: nat :: Count(n) + (if n == old(inode[ip]).inum then 1 else 0) == old(Count(n))
      ensures forall i :: 0 <= i < inode.Length && i != ip ==> inode[i] == old(inode[i])
      ensures inode[ip] == Slot(old(inode[ip]).inum, old(inode[ip]).ref - 1)
    {
      ghost var before := inode[..];
      OnceMeans(before);
      inode[ip] := Slot(inode[ip].inum, inode[ip].ref - 1);
      OnceMeans(inode[..]);
      forall n: nat
        ensures Count(n) + (if n == before[ip].inum then 1 else 0) == Refs(before, n)
      {
        assert inode[..] == before[ip := inode[ip]];
        RefsUpdate(before, ip, inode[ip], n);
      }
    }

    /** dirlookup: the inode that the directory binds to the name, with a reference */
    method Dirlookup(d: Dir, name: seq<Byte>) returns (found: bool, ip: nat, off: nat)
      requires Valid() && !panicked
      modifies this`panicked, inode
      ensures Valid() && off == Find(d, NameKey(name), 0) && found == (off < |d|)
      ensures !found ==> !panicked && inode[..] == old(inode[..])
      ensures found && !panicked ==>
          ip < inode.Length && inode[ip].ref > 0 && inode[ip].inum == d[off].inum
          && (old(inode[ip]).ref > 0 ==> inode[ip].ref > 1)
      ensures found && !panicked ==> forall n: nat :: Count(n) == old(Count(n)) + if n == d[off].inum then 1 else 0
      ensures !panicked ==> forall i :: 0 <= i < inode.Length && old(inode[i]).ref > 0 ==>
          inode[i].ref > 0 && inode[i].inum == old(inode[i]).inum
    {
      ip, off := 0, 0;
      while off < |d|
        invariant off <= |d| && Find(d, NameKey(name), 0) == Find(d, NameKey(name), off)
        invariant inode[..] == old(inode[..]) && !panicked
      {
        if d[off].inum != 0 {
          var same := Namecmp(name, d[off].name);
          if same {
            ip := Iget(d[off].inum);
            return true, ip, off;
          }
        }
        off := off + 1;
      }
      found := false;
    }

    /** One level of namex: from a directory, whose reference is given up, to what it binds the name to. */
    method Descend(dirs: Dirs, ip: nat, name: seq<Byte>) returns (found: bool, next: nat)
      requires Valid() && !panicked && ip < inode.Length && inode[ip].ref > 0 && inode[ip].inum in dirs
      modifies this`panicked, inode
      ensures Valid()
      ensures !panicked ==>
                var from := old(inode[ip]).inum;
                var to := LookupIn(dirs, from, name);
                && found == to.Some? && (found ==> Returns(Some(next), to))
                && Passed(old(inode[..]), Some(from), to)
    {
      var off;
      found, next, off := Dirlookup(dirs[inode[ip].inum], name);
      if panicked {
        return;
      }
      Iput(ip);
    }

    /** What one pass of namex leads to: `stop` is nameiparent at the last name. */
    static function Next(dirs: Dirs, from: nat, name: seq<Byte>, stop: bool): Option<nat> {
      if from !in dirs then None else if stop then Some(from) else LookupIn(dirs, from, name)
    }

    /** One pass of namex's loop. */
    method Level(dirs: Dirs, ip: nat, name: seq<Byte>, stop: bool) returns (r: Option<nat>)
      requires Valid() && !panicked && ip < inode.Length && inode[ip].ref > 0
      modifies this`panicked, inode
      ensures Valid()
      ensures !panicked ==>
                var to := Next(dirs, old(inode[ip]).inum, name, stop);
                Returns(r, to) && Passed(old(inode[..]), Some(old(inode[ip]).inum), to)
    {
      if inode[ip].inum !in dirs {
        Iput(ip);
        return None;
      }
      if stop {
        return Some(ip);
      }
      var found, next := Descend(dirs, ip, name);
      r := if found then Some(next) else None;
    }

    /** namex over the directories dirs; `parent` is its nameiparent, and the second result the last name. */
    method Namex(dirs: Dirs, cwd: nat, path0: Path, parent: bool) returns (r: Option<nat>, name: seq<Byte>)
      requires Valid() && !panicked && cwd < inode.Length && inode[cwd].ref > 0
      modifies this`panicked, inode
      ensures Valid()
      ensures !panicked ==>
                var start := if path0 != [] && path0[0] == SLASH then ROOTINO else old(inode[cwd]).inum;
                var target := Target(dirs, start, Names(path0), parent);
                Returns(r, target) && (r.Some? && parent ==> name == Last(Names(path0)))
                && Passed(old(inode[..]), None, target)
    {
      var ip: nat;
      name := [];
      if path0 != [] && path0[0] == SLASH {
        ip := Iget(ROOTINO);
        if panicked {
          return None, name;
        }
      } else {
        Idup(cwd);
        ip := cwd;
      }
      r, name := Walk(dirs, ip, path0, parent);
    }

    /** The path is used up: nameiparent gives the reference back and fails. */
    method Finish(ip: nat, parent: bool, ghost before: seq<Slot>, ghost start: nat) returns (r: Option<nat>)
      requires Valid() && ip < inode.Length && inode[ip].ref > 0 && Passed(before, Some(start), Some(inode[ip].inum))
      modifies inode
      ensures Valid()
      ensures var to := if parent then None else Some(old(inode[ip]).inum);
              Returns(r, to) && Passed(before, Some(start), to)
    {
      if parent {
        Iput(ip);
        return None;
      }
      return Some(ip);
    }

    /** One more pass: what was passed on is passed on again. */
    method NextLevel(dirs: Dirs, ip: nat, name: seq<Byte>, stop: bool, ghost before: seq<Slot>, ghost start: nat)
      returns (r: Option<nat>)
      requires Valid() && !panicked && ip < inode.Length && inode[ip].ref > 0
      requires Passed(before, Some(start), Some(inode[ip].inum))
      modifies this`panicked, inode
      ensures Valid()
      ensures !panicked ==>
                var to := Next(dirs, old(inode[ip]).inum, name, stop);
                Returns(r, to) && Passed(before, Some(start), to)
    {
      r := Level(dirs, ip, name, stop);
    }

    /** namex's loop, which takes over the reference to ip0 */
    method Walk(dirs: Dirs, ip0: nat, path0: Path, parent: bool) returns (r: Option<nat>, name: seq<Byte>)
      requires Valid() && !panicked && ip0 < inode.Length && inode[ip0].ref > 0
      modifies this`panicked, inode
      ensures Valid()
      ensures !panicked ==>
                var target := Target(dirs, old(inode[ip0]).inum, Names(path0), parent);
                Returns(r, target) && (r.Some? && parent ==> name == Last(Names(path0)))
                && Passed(old(inode[..]), Some(old(inode[ip0]).inum), target)
    {
      var ip: nat, path: Path := ip0, path0;
      name := [];
      ghost var start, before := inode[ip0].inum, inode[..];
      ghost var target, last := Target(dirs, start, Names(path0), parent), Last(Names(path0));
      while true
        invariant Valid() && !panicked && ip < inode.Length && inode[ip].ref > 0
        invariant target == Target(dirs, inode[ip].inum, Names(path), parent)
        invariant Names(path) != [] ==> Last(Names(path)) == last
        invariant Passed(before, Some(start), Some(inode[ip].inum))
        decreases |path|
      {
        Pass(dirs, inode[ip].inum, path, parent, target, last);
        var more := Skipelem(path);
        if more.None? {
          r := Finish(ip, parent, before, start);
          return r, name;
        }
        name, path := more.value.0, more.value.1;
        r := NextLevel(dirs, ip, name, parent && path == [], before, start);
        if panicked || r.None? || (parent && path == []) {
          return r, name;
        }
        ip := r.value;
      }
    }
  }

  function Target(dirs: Dirs, ip: nat, names: seq<seq<Byte>>, parent: bool): Option<nat> {
    if parent then ResolveParent(dirs, ip, names) else Resolve(dirs, ip, names)
  }

  function Last(names: seq<seq<Byte>>): seq<Byte> {
    if names == [] then [] else names[|names| - 1]
  }

  /** One pass of namex's loop from inode `from`. */
  lemma Pass(dirs: Dirs, from: nat, path: Path, parent: bool, target: Option<nat>, last: seq<Byte>)
    requires target == Target(dirs, from, Names(path), parent) && (Names(path) != [] ==> Last(Names(path)) == last)
    ensures SkipElem(path).None? ==> target == if parent then None else Some(from)
    ensures SkipElem(path).Some? ==>
              var (name, rest) := SkipElem(path).value;
              var next := Icache.Next(dirs, from, name, parent && rest == []);
              && (next.None? ==> target.None?)
              && (next.Some? && parent && rest == [] ==> target == next && name == last)
              && (next.Some? && !(parent && rest == []) ==> target == Target(dirs, next.value, Names(rest), parent))
              && (Names(rest) != [] ==> Last(Names(rest)) == last)
  {
    SkipElemTakesFirst(path);
    if SkipElem(path).Some? {
      var (name, rest) := SkipElem(path).value;
      LastName(path);
      assert Names(path)[1..] == Names(rest);
      TargetStep(dirs, from, Names(path), parent);
    }
  }

  lemma TargetStep(dirs: Dirs, ip: nat, names: seq<seq<Byte>>, parent: bool)
    requires names != []
    ensures ip !in dirs ==> Target(dirs, ip, names, parent).None?
    ensures ip in dirs && parent && |names| == 1 ==> Target(dirs, ip, names, parent) == Some(ip)
    ensures ip in dirs && !(parent && |names| == 1) ==>
              var next := LookupIn(dirs, ip, names[0]);
              Target(dirs, ip, names, parent) == if next.None? then None
                else Target(dirs, next.value, names[1..], parent)
  {
    if parent && |names| > 1 {
      ResolveParentStep(dirs, ip, names);
    }
  }

  method Namecmp(s: seq<Byte>, t: seq<Byte>) returns (same: bool)
    ensures same == (NameKey(s) == NameKey(t))
  {
    StrnEqMeans(s, t, DIRSIZ);
    var i := 0;
    while i < DIRSIZ && ByteAt(s, i) != 0 && ByteAt(s, i) == ByteAt(t, i)
      invariant i <= DIRSIZ && StrnEq(s, t, DIRSIZ, 0) == StrnEq(s, t, DIRSIZ, i)
    {
      i := i + 1;
    }
    same := i == DIRSIZ || ByteAt(s, i) == ByteAt(t, i);
  }

  method Skipelem(path0: Path) returns (r: Option<(seq<Byte>, Path)>)
    ensures r == SkipElem(path0)
  {
    var path := DropSlashes(path0);
    if path == [] {
      return None;
    }
    var s := path;
    var len := 0;
    while len < |s| && s[len] != SLASH
      invariant len <= |s| && PartLen(s) == len + PartLen(s[len..])
    {
      len := len + 1;
    }
    assert len == PartLen(s);
    var name := if len >= DIRSIZ then s[..DIRSIZ] else s[..len];
    assert name == Trunc(s[..len]);
    path := DropSlashes(s[len..]);
    r := Some((name, path));
  }

  method DropSlashes(path0: Path) returns (path: Path)
    ensures path == SkipSlashes(path0)
  {
    path := path0;
    while path != [] && path[0] == SLASH
      invariant SkipSlashes(path) == SkipSlashes(path0)
      decreases |path|
    {
      path := path[1..];
    }
  }

  lemma {:induction false} AllFree(slots: seq<Slot>)
    requires forall i :: 0 <= i < |slots| ==> slots[i].ref == 0
    ensures CachedOnce(slots) && forall n: nat :: Refs(slots, n) == 0
  {
    if slots != [] {
      AllFree(slots[..|slots| - 1]);
    }
  }
}
