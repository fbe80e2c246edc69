/**
  Paths: skipelem and namex against the list of names between the slashes.
 */
module PathSpec {
  import opened Basics
  import opened Blocks
  import opened DirSpec

  const SLASH: Byte := 47

  /** A path as a C string, its NUL left out. */
  type Path = s: seq<Byte> | 0 !in s

  /** name[DIRSIZ] as skipelem leaves it */
  function Trunc(s: seq<Byte>): seq<Byte> {
    if |s| >= DIRSIZ then s[..DIRSIZ] else s
  }

  // ---------- the reference ----------

  /** What stands between slashes, empty parts left out; cur is the part being read. */
  function Split(s: seq<Byte>, cur: seq<Byte>): seq<seq<Byte>>
    decreases |s|
  {
    if s == [] then (if cur == [] then [] else [cur])
    else if s[0] == SLASH then (if cur == [] then [] else [cur]) + Split(s[1..], [])
    else Split(s[1..], cur + [s[0]])
  }

  /** The names that a path consists of. */
  function Names(path: seq<Byte>): seq<seq<Byte>> {
    TruncAll(Split(path, []))
  }

  function TruncAll(ss: seq<seq<Byte>>): (r: seq<seq<Byte>>)
    ensures |r| == |ss| && forall i :: 0 <= i < |ss| ==> r[i] == Trunc(ss[i])
  {
    if ss == [] then [] else [Trunc(ss[0])] + TruncAll(ss[1..])
  }

  // ---------- skipelem ----------

  /** while (*path == '/') path++ */
  function SkipSlashes(s: Path): (r: Path)
    ensures |r| <= |s| && (r != [] ==> r[0] != SLASH)
  {
    if s != [] && s[0] == SLASH then SkipSlashes(s[1..]) else s
  }

  /** The length of the first part. */
  function PartLen(s: Path): (n: nat)
    ensures n <= |s| && (n < |s| ==> s[n] == SLASH) && forall i :: 0 <= i < n ==> s[i] != SLASH
  {
    if s == [] || s[0] == SLASH then 0 else 1 + PartLen(s[1..])
  }

  /** skipelem: the next name and the rest of the path, or none */
  function SkipElem(path: Path): (r: Option<(seq<Byte>, Path)>)
    ensures r.Some? ==> |r.value.1| < |path| && (r.value.1 != [] ==> r.value.1[0] != SLASH)
  {
    var s := SkipSlashes(path);
    if s == [] then None
    else Some((Trunc(s[..PartLen(s)]), SkipSlashes(s[PartLen(s)..])))
  }

  lemma {:induction false} SplitSkips(s: Path)
    ensures Split(s, []) == Split(SkipSlashes(s), [])
    decreases |s|
  {
    if s != [] && s[0] == SLASH {
      SplitSkips(s[1..]);
    }
  }

  lemma {:induction false} SplitPart(s: Path, cur: seq<Byte>)
    requires cur != [] || (s != [] && s[0] != SLASH)
    ensures Split(s, cur) == [cur + s[..PartLen(s)]] + Split(s[PartLen(s)..], [])
    decreases |s|
  {
    if s == [] {
      assert cur + s[..PartLen(s)] == cur;
    } else if s[0] == SLASH {
      assert cur + s[..0] == cur;
      assert s[0..] == s;
      assert Split(s, []) == [] + Split(s[1..], []);
    } else {
      SplitPart(s[1..], cur + [s[0]]);
      var n := PartLen(s);
      assert s[1..][..n - 1] == s[1..n];
      assert cur + [s[0]] + s[1..n] == cur + s[..n];
      assert s[1..][n - 1..] == s[n..];
    }
  }

  /** skipelem takes the names off a path one by one. */
  lemma SkipElemTakesFirst(path: Path)
    ensures SkipElem(path).None? <==> Names(path) == []
    ensures SkipElem(path).Some? ==> Names(path) == [SkipElem(path).value.0] + Names(SkipElem(path).value.1)
  {
    SplitSkips(path);
    var s := SkipSlashes(path);
    if s != [] {
      SplitPart(s, []);
      var n := PartLen(s);
      assert [] + s[..n] == s[..n];
      SplitSkips(s[n..]);
      assert Split(s, [])[1..] == Split(s[n..], []);
    }
  }

  /** A path that skipelem returned is empty exactly if no name is left: *path == 0 means the last one. */
  lemma LastName(path: Path)
    requires SkipElem(path).Some?
    ensures SkipElem(path).value.1 == [] <==> |Names(path)| == 1
  {
    SkipElemTakesFirst(path);
    var rest := SkipElem(path).value.1;
    SkipElemTakesFirst(rest);
  }

  // ---------- namex ----------

  /** The directories of the file system: what is no directory is not in the map. */
  type Dirs = map<nat, Dir>

  function LookupIn(dirs: Dirs, ip: nat, name: seq<Byte>): Option<nat> {
    if ip !in dirs then None
    else
      var d := dirs[ip];
      var i := Find(d, NameKey(name), 0);
      if i < |d| then Some(d[i].inum as nat) else None
  }

  /** Following names from an inode: every one on the way must be a directory that binds the next name. */
  function Resolve(dirs: Dirs, ip: nat, names: seq<seq<Byte>>): Option<nat>
    decreases |names|
  {
    if names == [] then Some(ip)
    else
      var next := LookupIn(dirs, ip, names[0]);
      if next.None? then None else Resolve(dirs, next.value, names[1..])
  }

  /** The parent of the last name, which must be a directory, but need not have that name. */
  function ResolveParent(dirs: Dirs, ip: nat, names: seq<seq<Byte>>): Option<nat>
  {
    if names == [] then None
    else
      var p := Resolve(dirs, ip, names[..|names| - 1]);
      if p.Some? && p.value in dirs then p else None
  }

  lemma ResolveParentStep(dirs: Dirs, ip: nat, names: seq<seq<Byte>>)
    requires |names| > 1
    ensures ResolveParent(dirs, ip, names)
         == var next := LookupIn(dirs, ip, names[0]);
            if next.None? then None else ResolveParent(dirs, next.value, names[1..])
  {
    assert names[..|names| - 1][1..] == names[1..][..|names[1..]| - 1];
  }
}
