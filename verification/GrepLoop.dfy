/**
  grep's reading loop: input arrives in pieces of any length, lines are cut out of a buffer of 1024
  characters in place, and what follows the last newline is moved to the front for the next read.
  A read whose buffer holds no newline at all is thrown away.
 */
module GrepLoop {
  import opened Basics
  import opened Grep

  const SIZE: nat := 1024

  // ---------- lines ----------

  function Newline(s: string): (i: nat)
    ensures i <= |s| && (i < |s| ==> s[i] == '\n') && forall j :: 0 <= j < i ==> s[j] != '\n'
  {
    if s == "" || s[0] == '\n' then 0 else 1 + Newline(s[1..])
  }

  /** The lines that a newline ends. */
  function Lines(s: string): seq<string>
    decreases |s|
  {
    var i := Newline(s);
    if i == |s| then [] else [s[..i]] + Lines(s[i + 1..])
  }

  /** What follows the last newline. */
  function Tail(s: string): (r: string)
    ensures |r| <= |s| && '\n' !in r && forall c :: c in r ==> c in s
    decreases |s|
  {
    var i := Newline(s);
    if i == |s| then s else Tail(s[i + 1..])
  }

  lemma {:induction false} LinesAppend(s: string, t: string)
    ensures Lines(s + t) == Lines(s) + Lines(Tail(s) + t)
    decreases |s|
  {
    var i := Newline(s);
    if i < |s| {
      var u := s + t;
      FirstNewline(u, i);
      assert u[..i] == s[..i] && u[i + 1..] == s[i + 1..] + t;
      LinesAppend(s[i + 1..], t);
    }
  }

  lemma FirstNewline(s: string, i: nat)
    requires i < |s| && s[i] == '\n' && forall j :: 0 <= j < i ==> s[j] != '\n'
    ensures Newline(s) == i
  {
  }

  lemma NoNewline(s: string)
    requires '\n' !in s
    ensures Newline(s) == |s| && Lines(s) == [] && Tail(s) == s
  {
  }

  /** Characters that lines use up, newlines included. */
  function Used(ls: seq<string>): nat {
    if ls == [] then 0 else |ls[0]| + 1 + Used(ls[1..])
  }

  lemma {:induction false} UsedAppend(a: seq<string>, b: seq<string>)
    ensures Used(a + b) == Used(a) + Used(b)
  {
    if a == [] {
      assert a + b == b;
    } else {
      assert (a + b)[1..] == a[1..] + b;
      UsedAppend(a[1..], b);
    }
  }

  // ---------- what the loop hands to match ----------

  function Min3(a: nat, b: nat, c: nat): nat {
    if a <= b && a <= c then a else if b <= c then b else c
  }

  /** How much the i-th read returns: no more than is ready, than fits, or than is left. */
  function Got(cap: nat -> nat, i: nat, carry: string, rest: string): nat {
    Min3(1 + cap(i), if |carry| < SIZE - 1 then SIZE - 1 - |carry| else 0, |rest|)
  }

  function Carry(text: string): string {
    if Lines(text) == [] then "" else Tail(text)
  }

  /** The lines examined from the i-th read on; 1 + cap(i) characters are ready for that read. */
  function Examined(cap: nat -> nat, i: nat, carry: string, rest: string): seq<string>
    decreases |rest|
  {
    var n := Got(cap, i, carry, rest);
    if n == 0 then []
    else
      var text := carry + rest[..n];
      Lines(text) + Examined(cap, i + 1, Carry(text), rest[n..])
  }

  /** A read that leaves no newline in the buffer has none coming after it. */
  predicate Lossless(cap: nat -> nat, i: nat, carry: string, rest: string)
    decreases |rest|
  {
    var n := Got(cap, i, carry, rest);
    if n == 0 then true
    else
      var text := carry + rest[..n];
      (Lines(text) != [] || '\n' !in rest[n..]) && Lossless(cap, i + 1, Carry(text), rest[n..])
  }

  /** The part of the buffer kept for the next read leaves room. */
  predicate Kept(carry: string) {
    '\n' !in carry && |carry| < SIZE - 1
  }

  lemma Pass(cap: nat -> nat, i: nat, carry: string, rest: string, n: nat, text: string)
    requires Kept(carry) && rest != "" && n == Got(cap, i, carry, rest) && text == carry + rest[..n]
    ensures 0 < n <= |rest| && |text| <= SIZE - 1 && Kept(Carry(text))
    ensures Lines(carry + rest) == Lines(text) + Lines(Tail(text) + rest[n..])
  {
    assert carry + rest == text + rest[n..];
    LinesAppend(text, rest[n..]);
    if Lines(text) != [] {
      TailShorter(text);
    }
  }

  lemma TailShorter(s: string)
    requires Lines(s) != []
    ensures |Tail(s)| < |s|
  {
  }

  lemma NoLines(s: string)
    requires Lines(s) == []
    ensures '\n' !in s && Tail(s) == s
  {
    assert Newline(s) == |s|;
  }

  /** Without a loss every complete line of the input is examined, in order and whole, and nothing else. */
  lemma {:induction false} AllExamined(cap: nat -> nat, i: nat, carry: string, rest: string)
    requires Kept(carry) && Lossless(cap, i, carry, rest)
    ensures Examined(cap, i, carry, rest) == Lines(carry + rest)
    decreases |rest|
  {
    if rest == "" {
      assert carry + rest == carry;
      NoNewline(carry);
    } else {
      var n := Got(cap, i, carry, rest);
      var text := carry + rest[..n];
      Pass(cap, i, carry, rest, n, text);
      AllExamined(cap, i + 1, Carry(text), rest[n..]);
      if Lines(text) == [] {
        NoLines(text);
        NoNewline(text + rest[n..]);
        NoNewline(rest[n..]);
        assert "" + rest[n..] == rest[n..];
      }
    }
  }

  lemma LinesFirst(s: string, i: nat)
    requires i < |s| && s[i] == '\n' && forall j :: 0 <= j < i ==> s[j] != '\n'
    ensures Lines(s) == [s[..i]] + Lines(s[i + 1..]) && Used(Lines(s)) == i + 1 + Used(Lines(s[i + 1..]))
  {
    FirstNewline(s, i);
    assert Lines(s)[1..] == Lines(s[i + 1..]);
  }

  lemma {:induction false} LinesSkip(text: string, more: string)
    requires '\n' !in text && '\n' in more
    ensures Used(Lines(text + more)) == |text| + Used(Lines(more))
  {
    var i := Newline(more);
    var s := text + more;
    LinesFirst(s, |text| + i);
    LinesFirst(more, i);
    assert s[|text| + i + 1..] == more[i + 1..];
  }

  /** A loss shows: fewer characters are examined than the complete lines hold. */
  lemma {:induction false} LossShows(cap: nat -> nat, i: nat, carry: string, rest: string)
    requires Kept(carry)
    ensures Used(Examined(cap, i, carry, rest)) <= Used(Lines(carry + rest))
    ensures !Lossless(cap, i, carry, rest) ==> Used(Examined(cap, i, carry, rest)) < Used(Lines(carry + rest))
    decreases |rest|
  {
    if rest != "" {
      var n := Got(cap, i, carry, rest);
      var text := carry + rest[..n];
      var more := rest[n..];
      Pass(cap, i, carry, rest, n, text);
      LossShows(cap, i + 1, Carry(text), more);
      UsedAppend(Lines(text), Examined(cap, i + 1, Carry(text), more));
      UsedAppend(Lines(text), Lines(Tail(text) + more));
      if Lines(text) == [] {
        NoLines(text);
        assert "" + more == more;
        if '\n' in more {
          LinesSkip(text, more);
        } else {
          NoNewline(more);
        }
      }
    }
  }

  /**
    Exactly the complete lines of the input are examined, if and only if nothing with a later newline is
    thrown away.
   */
  lemma ExaminedExactly(cap: nat -> nat, input: string)
    ensures Examined(cap, 0, "", input) == Lines(input) <==> Lossless(cap, 0, "", input)
  {
    assert "" + input == input;
    if Lossless(cap, 0, "", input) {
      AllExamined(cap, 0, "", input);
    } else {
      LossShows(cap, 0, "", input);
    }
  }

  /** Two reads are enough to lose the start of a line. */
  lemma ShortReadLoses()
    ensures var cap := (i: nat) => 0; Examined(cap, 0, "", "a\n") == [""] && Lines("a\n") == ["a"]
  {
    var cap := (i: nat) => 0;
    assert Got(cap, 0, "", "a\n") == 1 && "a\n"[..1] == "a" && "a\n"[1..] == "\n" && "" + "a" == "a";
    assert Newline("a") == 1 && Lines("a") == [] && Carry("a") == "";
    assert Got(cap, 1, "", "\n") == 1 && "\n"[..1] == "\n" && "\n"[1..] == "" && "" + "\n" == "\n";
    assert Newline("\n") == 0 && "\n"[..0] == "" && Lines("") == [] && Lines("\n") == [""];
    assert Examined(cap, 2, Carry("\n"), "") == [];
    assert Examined(cap, 1, "", "\n") == [""];
    assert Newline("a\n") == 1 && "a\n"[..1] == "a" && "a\n"[2..] == "";
  }

  /** A line, with its newline, fits the buffer. */
  predicate ShortLines(s: string)
    decreases |s|
  {
    var i := Newline(s);
    i == |s| || (i < SIZE - 1 && ShortLines(s[i + 1..]))
  }

  lemma {:induction false} ShortRest(s: string, t: string)
    requires ShortLines(s + t)
    ensures ShortLines(Tail(s) + t)
    decreases |s|
  {
    var i := Newline(s);
    if i < |s| {
      var u := s + t;
      FirstNewline(u, i);
      assert u[i + 1..] == s[i + 1..] + t;
      ShortRest(s[i + 1..], t);
    }
  }

  lemma FullPass(cap: nat -> nat, i: nat, carry: string, rest: string, n: nat, text: string, more: string)
    requires Kept(carry) && ShortLines(carry + rest) && cap(i) >= SIZE && rest != "" && n == Got(cap, i, carry, rest)
    requires text == carry + rest[..n] && more == rest[n..]
    ensures ShortLines(Carry(text) + more) && (Lines(text) == [] ==> '\n' !in more)
  {
    assert carry + rest == text + more;
    ShortRest(text, more);
    if Lines(text) == [] {
      FullNoLine(text, more);
    }
  }

  /** A full buffer without a newline is the last of its input. */
  lemma FullNoLine(text: string, more: string)
    requires Lines(text) == [] && ShortLines(text + more) && (more == "" || |text| == SIZE - 1)
    ensures '\n' !in more && ShortLines("" + more)
  {
    NoLines(text);
    if '\n' in more {
      NoneBehind(text, more, Newline(more));
    }
    NoNewline(more);
    assert "" + more == more;
    NoneShort(more);
  }

  lemma NoneBehind(text: string, more: string, j: nat)
    requires '\n' !in text && ShortLines(text + more) && j < |more| && j == Newline(more)
    ensures |text| + j < SIZE - 1
  {
    FirstNewline(text + more, |text| + j);
  }

  /**
    Reads that return all that fits, as those of a file do, lose nothing as long as lines are shorter
    than the buffer.
   */
  lemma {:induction false} FullReadsLoseNothing(cap: nat -> nat, i: nat, carry: string, rest: string)
    requires Kept(carry) && ShortLines(carry + rest) && forall k: nat :: cap(k) >= SIZE
    ensures Lossless(cap, i, carry, rest)
    decreases |rest|
  {
    if rest != "" {
      var n := Got(cap, i, carry, rest);
      var text := carry + rest[..n];
      Pass(cap, i, carry, rest, n, text);
      FullPass(cap, i, carry, rest, n, text, rest[n..]);
      FullReadsLoseNothing(cap, i + 1, Carry(text), rest[n..]);
    }
  }

  lemma NoneShort(s: string)
    requires '\n' !in s
    ensures ShortLines(s)
  {
    NoNewline(s);
  }

  // ---------- the loop ----------

  /** What grep writes for a sequence of lines. */
  ghost function Output(re: CString, ls: seq<CString>): string {
    if ls == [] then ""
    else Output(re, ls[..|ls| - 1]) + if Matches(re, ls[|ls| - 1]) then ls[|ls| - 1] + "\n" else ""
  }

  lemma {:induction false} OutputAppend(re: CString, a: seq<CString>, b: seq<CString>)
    ensures Output(re, a + b) == Output(re, a) + Output(re, b)
  {
    if b == [] {
      assert a + b == a;
    } else {
      var n := |b| - 1;
      assert (a + b)[..|a| + n] == a + b[..n];
      OutputAppend(re, a, b[..n]);
    }
  }

  lemma {:induction false} LinesAreStrings(s: CString)
    ensures forall l :: l in Lines(s) ==> '\0' !in l
    decreases |s|
  {
    var i := Newline(s);
    if i < |s| {
      LinesAreStrings(s[i + 1..]);
    }
  }

  function LinesOf(s: CString): (r: seq<CString>)
    ensures r == Lines(s)
  {
    LinesAreStrings(s);
    var ls := Lines(s);
    assert forall l :: l in ls ==> '\0' !in l;
    ls
  }

  /** read(fd, buf + m, ...) of n characters */
  method Read(buf: array<char>, m: nat, piece: string)
    requires m + |piece| <= buf.Length
    modifies buf
    ensures buf[..m + |piece|] == old(buf[..m]) + piece
  {
    var j := 0;
    while j < |piece|
      invariant 0 <= j <= |piece| && buf[..m] == old(buf[..m]) && buf[m..m + j] == piece[..j]
    {
      buf[m + j] := piece[j];
      j := j + 1;
    }
    assert buf[..m + |piece|] == buf[..m] + buf[m..m + |piece|];
  }

  /** strchr(p, '\n'), m being where the NUL is */
  method FindNewline(buf: array<char>, p: nat, m: nat) returns (q: nat)
    requires p <= m <= buf.Length
    ensures q == p + Newline(buf[p..m])
  {
    q := p;
    while q < m && buf[q] != '\n'
      invariant p <= q <= m && forall j :: p <= j < q ==> buf[j] != '\n'
    {
      q := q + 1;
    }
    if q < m {
      FirstNewline(buf[p..m], q - p);
    }
  }

  /** The first line of s, which ends at k, and what it makes grep write. */
  lemma NextLine(re: CString, s: CString, k: nat, line: CString, t: CString, piece: string)
    requires k == Newline(s) < |s| && line == s[..k] && t == s[k + 1..]
    requires piece == if Matches(re, line) then line + "\n" else ""
    ensures Output(re, LinesOf(s)) == piece + Output(re, LinesOf(t)) && Tail(s) == Tail(t) && Lines(s) != []
  {
    LinesFirst(s, k);
    OutputHead(re, line, LinesOf(t), piece);
  }

  lemma OutputHead(re: CString, line: CString, ls: seq<CString>, piece: string)
    requires piece == if Matches(re, line) then line + "\n" else ""
    ensures Output(re, [line] + ls) == piece + Output(re, ls)
  {
    OutputAppend(re, [line], ls);
    assert [line][..0] == [] && Output(re, [line]) == Output(re, [line][..0]) + piece;
  }

  /** One line at p .. q: *q = 0, match, and if it matches *q = '\n' and the line is written. */
  method OneLine(re: CString, buf: array<char>, p: nat, q: nat, m: nat, ghost line: CString) returns (piece: string)
    requires p <= q < m <= buf.Length && buf[p..q] == line
    modifies buf
    ensures piece == if Matches(re, line) then line + "\n" else ""
    ensures buf[q + 1..m] == old(buf[q + 1..m])
  {
    buf[q] := '\0';
    assert buf[p..q] == line;
    var found := Match(re, buf[p..q]);
    piece := "";
    if found {
      buf[q] := '\n';
      assert buf[p..q + 1] == line + "\n";
      piece := buf[p..q + 1];
    }
  }

  lemma SliceOf(a: array<char>, p: nat, q: nat, m: nat)
    requires p <= q <= m <= a.Length
    ensures a[p..q] == a[p..m][..q - p] && a[q..m] == a[p..m][q - p..]
  {
  }

  /** The same, for what is left of the buffer from p on. */
  method CutOne(re: CString, buf: array<char>, p: nat, q: nat, m: nat, ghost s: CString)
    returns (piece: string, ghost t: CString)
    requires p <= q < m <= buf.Length && buf[p..m] == s && q == p + Newline(s)
    modifies buf
    ensures buf[q + 1..m] == t && |t| < |s|
    ensures Output(re, LinesOf(s)) == piece + Output(re, LinesOf(t)) && Tail(s) == Tail(t) && Lines(s) != []
  {
    SliceOf(buf, p, q, m);
    SliceOf(buf, p, q + 1, m);
    ghost var line: CString := s[..q - p];
    t := s[q - p + 1..];
    piece := OneLine(re, buf, p, q, m, line);
    NextLine(re, s, q - p, line, t, piece);
  }

  /** The inner loop: every line in the buffer, then what is left from p on. */
  method CutLines(re: CString, buf: array<char>, m: nat, ghost text: CString) returns (out: string, p: nat)
    requires m <= buf.Length && buf[..m] == text
    modifies buf
    ensures out == Output(re, LinesOf(text)) && p <= m && buf[p..m] == Tail(text) && (p == 0 <==> Lines(text) == [])
  {
    p := 0;
    out := "";
    ghost var s := text;
    var q := FindNewline(buf, p, m);
    while q < m
      invariant p <= q <= m && buf[p..m] == s && q == p + Newline(s)
      invariant out + Output(re, LinesOf(s)) == Output(re, LinesOf(text)) && Tail(text) == Tail(s)
      invariant if p == 0 then s == text else Lines(text) != []
    {
      var piece, t := CutOne(re, buf, p, q, m, s);
      Regroup(out, piece, Output(re, LinesOf(t)));
      out, s := out + piece, t;
      p := q + 1;
      q := FindNewline(buf, p, m);
    }
    assert LinesOf(s) == [] && out + "" == out;
  }

  /** memmove(buf, p, m - p) */
  method MoveDown(buf: array<char>, p: nat, m: nat)
    requires p <= m <= buf.Length
    modifies buf
    ensures buf[..m - p] == old(buf[p..m])
  {
    var j := 0;
    while j < m - p
      invariant 0 <= j <= m - p && buf[..j] == old(buf[p..p + j])
      invariant forall k :: p + j <= k < m ==> buf[k] == old(buf[k])
    {
      buf[j] := buf[p + j];
      j := j + 1;
    }
  }

  /** One read and what the loop does with it; the kept part is at the front of the buffer again. */
  method OnePass(re: CString, buf: array<char>, m: nat, piece: string, ghost carry: CString, ghost text: CString)
    returns (out: string, m': nat)
    requires buf.Length == SIZE && m + |piece| <= SIZE - 1 && buf[..m] == carry && text == carry + piece
    modifies buf
    ensures out == Output(re, LinesOf(text)) && m' < SIZE && buf[..m'] == Carry(text)
  {
    Read(buf, m, piece);
    m' := m + |piece|;
    ghost var was := buf[..m'];
    buf[m'] := '\0';
    assert buf[..m'] == was == text;
    var p;
    out, p := CutLines(re, buf, m', text);
    if p == 0 {
      m' := 0;
    }
    if m' > 0 {
      MoveDown(buf, p, m');
      m' := m' - p;
    }
  }

  /** What is still to be written, given what has been. */
  ghost function Remaining(re: CString, cap: nat -> nat, i: nat, carry: CString, rest: CString): string {
    Output(re, ExaminedStrings(cap, i, carry, rest))
  }

  lemma RemainingStep(re: CString, cap: nat -> nat, i: nat, carry: CString, rest: CString, n: nat, text: CString,
                      more: CString, left: CString, piece: string)
    requires n == Got(cap, i, carry, rest) > 0 && text == carry + rest[..n] && more == rest[n..]
    requires left == Carry(text) && piece == Output(re, LinesOf(text))
    ensures Remaining(re, cap, i, carry, rest) == piece + Remaining(re, cap, i + 1, left, more)
  {
    OutputAppend(re, LinesOf(text), ExaminedStrings(cap, i + 1, left, more));
    assert ExaminedStrings(cap, i, carry, rest) == LinesOf(text) + ExaminedStrings(cap, i + 1, left, more);
  }

  lemma LosslessOutput(re: CString, input: CString, cap: nat -> nat)
    requires Lossless(cap, 0, "", input)
    ensures Remaining(re, cap, 0, "", input) == Output(re, LinesOf(input))
  {
    AllExamined(cap, 0, "", input);
    assert "" + input == input;
  }

  /** The i-th read of the outer loop, and what it leaves to be written. */
  method Chunk(re: CString, buf: array<char>, m: nat, i: nat, rest: CString, cap: nat -> nat, ghost carry: CString)
    returns (piece: string, m': nat, more: CString, ghost left: CString)
    requires buf.Length == SIZE && m < SIZE - 1 && buf[..m] == carry && Kept(carry) && rest != ""
    modifies buf
    ensures m' < SIZE - 1 && buf[..m'] == left && Kept(left) && |more| < |rest|
    ensures Remaining(re, cap, i, carry, rest) == piece + Remaining(re, cap, i + 1, left, more)
  {
    var n := Min3(1 + cap(i), SIZE - 1 - m, |rest|);
    ghost var text: CString := carry + rest[..n];
    Pass(cap, i, carry, rest, n, text);
    piece, m' := OnePass(re, buf, m, rest[..n], carry, text);
    more, left := rest[n..], Carry(text);
    RemainingStep(re, cap, i, carry, rest, n, text, more, left, piece);
  }

  /** grep over everything that can be read from a descriptor: the matching ones of the lines examined, in order. */
  method GrepInput(re: CString, input: CString, cap: nat -> nat) returns (out: string)
    ensures out == Output(re, ExaminedStrings(cap, 0, "", input))
    ensures Lossless(cap, 0, "", input) ==> out == Output(re, LinesOf(input))
  {
    var buf := new char[SIZE];
    var m: nat, i: nat, rest: CString := 0, 0, input;
    out := "";
    ghost var carry: CString := "";
    while rest != ""
      invariant m < SIZE - 1 && buf[..m] == carry && Kept(carry)
      invariant out + Remaining(re, cap, i, carry, rest) == Remaining(re, cap, 0, "", input)
      decreases |rest|
    {
      var piece, m', more, left := Chunk(re, buf, m, i, rest, cap, carry);
      Regroup(out, piece, Remaining(re, cap, i + 1, left, more));
      out, m, i, rest, carry := out + piece, m', i + 1, more, left;
    }
    assert out + "" == out;
    if Lossless(cap, 0, "", input) {
      LosslessOutput(re, input, cap);
    }
  }

  lemma {:induction false} ExaminedAreStrings(cap: nat -> nat, i: nat, carry: CString, rest: CString)
    ensures forall l :: l in Examined(cap, i, carry, rest) ==> '\0' !in l
    decreases |rest|
  {
    var n := Got(cap, i, carry, rest);
    if n > 0 {
      var text: CString := carry + rest[..n];
      LinesAreStrings(text);
      ExaminedAreStrings(cap, i + 1, Carry(text), rest[n..]);
    }
  }

  function ExaminedStrings(cap: nat -> nat, i: nat, carry: CString, rest: CString): (r: seq<CString>)
    ensures r == Examined(cap, i, carry, rest)
  {
    ExaminedAreStrings(cap, i, carry, rest);
    var ls := Examined(cap, i, carry, rest);
    assert forall l :: l in ls ==> '\0' !in l;
    ls
  }
}
