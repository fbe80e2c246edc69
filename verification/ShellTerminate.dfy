/**
  nulterminate: the parser hands out words as places in the line; writing a NUL behind each of
  them turns them into C strings without damaging any other.
 */
module ShellTerminate {
  import opened ShellSpec
  import opened ShellRoundTrip

  // ---------- every word of a parsed command is a word of the line ----------

  lemma {:induction false} WrapPlaced(s: Line, c: Cmd, rs: seq<Redirection>)
    requires Placed(s, c) && RedirsPlaced(s, rs)
    ensures Placed(s, Wrap(c, rs))
    decreases |rs|
  {
    if rs != [] {
      WrapPlaced(s, c, rs[..|rs| - 1]);
    }
  }

  predicate RedirsPlaced(s: Line, rs: seq<Redirection>) {
    forall i :: 0 <= i < |rs| ==> WordAt(s, rs[i].file)
  }

  lemma {:induction false} RedirsArePlaced(s: Line, p: nat, rs: seq<Redirection>)
    requires p <= |s| && RedirsPlaced(s, rs)
    ensures var r := ParseRedirs(s, p, rs);
            r.Ok? ==> RedirsPlaced(s, r.value.0)
    decreases |s| - p
  {
    if IsRedir(Peek(s, p)) {
      var op := GetToken(s, Skip(s, p));
      var f := GetToken(s, op.next);
      if f.kind == 'a' {
        RedirsArePlaced(s, f.next, rs + [Redirection(f.at, op.kind != '<')]);
      }
    }
  }

  lemma {:induction false} WordsArePlaced(s: Line, p: nat, argv: seq<Tok>, rs: seq<Redirection>)
    requires p <= |s| && AllPlaced(s, argv) && RedirsPlaced(s, rs)
    ensures var r := ParseWords(s, p, argv, rs);
            r.Ok? ==> Placed(s, r.value.cmd)
    decreases |s| - p
  {
    WrapPlaced(s, Exec(argv), rs);
    if !EndsWords(Peek(s, p)) {
      var t := GetToken(s, Skip(s, p));
      if t.kind == 'a' && |argv| + 1 < MAXARGS {
        RedirsArePlaced(s, t.next, rs);
        var rr := ParseRedirs(s, t.next, rs);
        if rr.Ok? {
          WordsArePlaced(s, rr.value.1, argv + [t.at], rr.value.0);
        }
      }
    }
  }

  ghost predicate OkPlaced(s: Line, r: Result<Parsed>) {
    r.Ok? ==> Placed(s, r.value.cmd)
  }

  lemma {:induction false} ExecPlaced(s: Line, p: nat)
    requires p <= |s|
    ensures OkPlaced(s, ParseExec(s, p))
    decreases |s| - p, 1
  {
    if Peek(s, p) == '(' {
      BlockPlaced(s, Skip(s, p));
    } else {
      RedirsArePlaced(s, Skip(s, p), []);
      var rr := ParseRedirs(s, Skip(s, p), []);
      if rr.Ok? {
        WordsArePlaced(s, rr.value.1, [], rr.value.0);
      }
    }
  }

  lemma {:induction false} BlockPlaced(s: Line, p: nat)
    requires p <= |s|
    ensures OkPlaced(s, ParseBlock(s, p))
    decreases |s| - p, 0
  {
    if Peek(s, p) == '(' {
      LinePlaced(s, GetToken(s, p).next);
      var r := ParseLine(s, GetToken(s, p).next);
      if r.Ok? && Peek(s, r.value.pos) == ')' {
        RedirsArePlaced(s, GetToken(s, r.value.pos).next, []);
        var rr := ParseRedirs(s, GetToken(s, r.value.pos).next, []);
        if rr.Ok? {
          WrapPlaced(s, r.value.cmd, rr.value.0);
        }
      }
    }
  }

  lemma {:induction false} PipePlaced(s: Line, p: nat)
    requires p <= |s|
    ensures OkPlaced(s, ParsePipe(s, p))
    decreases |s| - p, 2
  {
    ExecPlaced(s, p);
    var l := ParseExec(s, p);
    if l.Ok? && Peek(s, l.value.pos) == '|' {
      PipePlaced(s, GetToken(s, l.value.pos).next);
    }
  }

  lemma {:induction false} BacksPlaced(s: Line, c: Parsed)
    requires c.pos <= |s| && Placed(s, c.cmd)
    ensures Placed(s, Backs(s, c).cmd)
    decreases |s| - c.pos
  {
    if Peek(s, c.pos) == '&' {
      BacksPlaced(s, Parsed(Back(c.cmd), GetToken(s, c.pos).next));
    }
  }

  /** Whatever the line, the words of the command that is parsed from it are words of the line. */
  lemma {:induction false} LinePlaced(s: Line, p: nat)
    requires p <= |s|
    ensures OkPlaced(s, ParseLine(s, p))
    decreases |s| - p, 3
  {
    PipePlaced(s, p);
    var l := ParsePipe(s, p);
    if l.Ok? {
      BacksPlaced(s, l.value);
      var b := Backs(s, l.value);
      if Peek(s, b.pos) == ';' {
        LinePlaced(s, GetToken(s, b.pos).next);
      }
    }
  }

  // ---------- writing the NULs ----------

  /** The NULs behind the first n words */
  function NulArgs(buf: string, argv: seq<Tok>, n: nat): (r: string)
    requires n <= |argv| && forall i :: 0 <= i < |argv| ==> argv[i].eq < |buf|
    ensures |r| == |buf|
  {
    if n == 0 then buf else NulArgs(buf, argv, n - 1)[argv[n - 1].eq := '\0']
  }

  predicate InBuffer(c: Cmd, n: nat) {
    match c
    case Exec(argv) => forall i :: 0 <= i < |argv| ==> argv[i].eq < n
    case Redir(c', file, _) => InBuffer(c', n) && file.eq < n
    case Pipe(l, r) => InBuffer(l, n) && InBuffer(r, n)
    case List(l, r) => InBuffer(l, n) && InBuffer(r, n)
    case Back(c') => InBuffer(c', n)
  }

  function Nul(buf: string, c: Cmd): (r: string)
    requires InBuffer(c, |buf|)
    ensures |r| == |buf|
    decreases c
  {
    match c
    case Exec(argv) => NulArgs(buf, argv, |argv|)
    case Redir(c', file, _) => Nul(buf, c')[file.eq := '\0']
    case Pipe(l, r) => Nul(Nul(buf, l), r)
    case List(l, r) => Nul(Nul(buf, l), r)
    case Back(c') => Nul(buf, c')
  }

  /** t is an argument or a file of c. */
  predicate Uses(c: Cmd, t: Tok) {
    match c
    case Exec(argv) => t in argv
    case Redir(c', file, _) => t == file || Uses(c', t)
    case Pipe(l, r) => Uses(l, t) || Uses(r, t)
    case List(l, r) => Uses(l, t) || Uses(r, t)
    case Back(c') => Uses(c', t)
  }

  lemma {:induction false} NulArgsAt(s: Line, buf: string, argv: seq<Tok>, n: nat, i: nat)
    requires n <= |argv| && AllPlaced(s, argv) && |buf| == |s| + 1 && i < |buf|
    ensures (forall k :: 0 <= k < |argv| ==> argv[k].eq < |buf|)
    ensures i < |s| && IsWord(s[i]) ==> NulArgs(buf, argv, n)[i] == buf[i]
    ensures buf[i] == '\0' ==> NulArgs(buf, argv, n)[i] == '\0'
    ensures forall k :: 0 <= k < n && argv[k].eq == i ==> NulArgs(buf, argv, n)[i] == '\0'
  {
    if n > 0 {
      NulArgsAt(s, buf, argv, n - 1, i);
      assert WordAt(s, argv[n - 1]);
    }
  }

  lemma {:induction false} PlacedInBuffer(s: Line, c: Cmd)
    requires Placed(s, c)
    ensures InBuffer(c, |s| + 1)
    decreases c
  {
    match c
    case Exec(argv) =>
    case Redir(c', _, _) => PlacedInBuffer(s, c');
    case Pipe(l, r) => PlacedInBuffer(s, l); PlacedInBuffer(s, r);
    case List(l, r) => PlacedInBuffer(s, l); PlacedInBuffer(s, r);
    case Back(c') => PlacedInBuffer(s, c');
  }

  /** Characters of words survive, NULs stay, and the NUL behind every word of c gets written. */
  lemma {:induction false} NulAt(s: Line, buf: string, c: Cmd, i: nat, t: Tok)
    requires Placed(s, c) && InBuffer(c, |buf|) && |buf| == |s| + 1 && i < |buf|
    ensures i < |s| && IsWord(s[i]) ==> Nul(buf, c)[i] == buf[i]
    ensures buf[i] == '\0' ==> Nul(buf, c)[i] == '\0'
    ensures Uses(c, t) && t.eq == i ==> Nul(buf, c)[i] == '\0'
    decreases c
  {
    match c
    case Exec(argv) => NulArgsAt(s, buf, argv, |argv|, i);
    case Redir(c', file, _) => NulAt(s, buf, c', i, t);
    case Pipe(l, r) =>
      NulAt(s, buf, l, i, t);
      NulAt(s, Nul(buf, l), r, i, t);
    case List(l, r) =>
      NulAt(s, buf, l, i, t);
      NulAt(s, Nul(buf, l), r, i, t);
    case Back(c') => NulAt(s, buf, c', i, t);
  }

  lemma {:induction false} UsedIsWord(s: Line, c: Cmd, t: Tok)
    requires Placed(s, c) && Uses(c, t)
    ensures WordAt(s, t)
    decreases c
  {
    match c
    case Exec(argv) =>
    case Redir(c', _, _) => if Uses(c', t) { UsedIsWord(s, c', t); }
    case Pipe(l, r) => if Uses(l, t) { UsedIsWord(s, l, t); } else { UsedIsWord(s, r, t); }
    case List(l, r) => if Uses(l, t) { UsedIsWord(s, l, t); } else { UsedIsWord(s, r, t); }
    case Back(c') => UsedIsWord(s, c', t);
  }

  /** The C string that starts at q: text, then a NUL, none in between. */
  predicate CString(buf: string, q: nat, text: string) {
    && q + |text| < |buf| && buf[q..q + |text|] == text && '\0' !in text && buf[q + |text|] == '\0'
  }

  /** After nulterminate every argument and file name of the command reads as exactly its token's text. */
  lemma WordsTerminated(s: Line, t: Tok)
    requires ParseCmd(s).Ok? && Uses(ParseCmd(s).value, t)
    ensures var c := ParseCmd(s).value;
            && InBuffer(c, |s| + 1) && WordAt(s, t)
            && CString(Nul(s + ['\0'], c), t.q, s[t.q..t.eq])
  {
    var c := ParseCmd(s).value;
    LinePlaced(s, 0);
    PlacedInBuffer(s, c);
    UsedIsWord(s, c, t);
    var buf := s + ['\0'];
    NulAt(s, buf, c, t.eq, t);
    forall i | t.q <= i < t.eq
      ensures Nul(buf, c)[i] == s[i]
    {
      NulAt(s, buf, c, i, t);
    }
    assert Nul(buf, c)[t.q..t.eq] == s[t.q..t.eq];
  }
}
