/**
  The parser of sh.c as it runs: *ps moves along the line in loops, argv arrays fill up, and
  nulterminate writes into the line. Each method does what ShellSpec says.
 */
module Shell {
  import opened ShellSpec
  import T = ShellTerminate

  class Parser {
    const buf: array<char>  // the line and its NUL; es is |line|
    ghost const line: Line
    var ps: nat

    ghost predicate Valid()
      reads this, buf
    {
      buf[..] == line + ['\0'] && ps <= |line|
    }

    constructor (s: Line)
      ensures Valid() && line == s && ps == 0 && fresh(buf)
    {
      line := s;
      buf := new char[|s| + 1](i requires 0 <= i < |s| + 1 => if i < |s| then s[i] else '\0');
      ps := 0;
      new;
      assert buf[..] == s + ['\0'];
    }

    lemma Reads(p: nat)
      requires Valid() && p <= |line|
      ensures p < buf.Length && buf[p] == Ch(line, p)
    {
      assert buf[p] == buf[..][p];
    }

    method SkipBlanks(p: nat) returns (r: nat)
      requires Valid() && p <= |line|
      ensures r == Skip(line, p)
    {
      r := p;
      Reads(r);
      while r < buf.Length - 1 && IsSpace(buf[r])
        invariant p <= r <= |line| && Skip(line, r) == Skip(line, p) && buf[r] == Ch(line, r)
      {
        r := r + 1;
        Reads(r);
      }
    }

    method SkipWord(p: nat) returns (r: nat)
      requires Valid() && p <= |line|
      ensures r == WordEnd(line, p)
    {
      r := p;
      Reads(r);
      while r < buf.Length - 1 && !IsSpace(buf[r]) && !IsMark(buf[r]) && !IsRedir(buf[r])
        invariant p <= r <= |line| && WordEnd(line, r) == WordEnd(line, p) && buf[r] == Ch(line, r)
      {
        r := r + 1;
        Reads(r);
      }
    }

    method Gettoken() returns (kind: char, q: nat, eq: nat)
      requires Valid()
      modifies this`ps
      ensures Valid() && GetToken(line, old(ps)) == Token(kind, Tok(q, eq), ps)
    {
      var s := SkipBlanks(ps);
      Reads(s);
      q, kind := s, buf[s];
      if kind == '\0' {
      } else if kind == '|' || kind == '(' || kind == ')' || kind == ';' || kind == '&' || kind == '<' {
        s := s + 1;
      } else if kind == '>' {
        s := s + 1;
        Reads(s);
        if buf[s] == '>' {
          kind := '+';
          s := s + 1;
        }
      } else {
        kind := 'a';
        s := SkipWord(s);
      }
      eq := s;
      ps := SkipBlanks(s);
    }

    /** peek: the caller compares the character with its list. */
    method PeekChar() returns (c: char)
      requires Valid()
      modifies this`ps
      ensures Valid() && ps == Skip(line, old(ps)) && c == Peek(line, old(ps))
    {
      ps := SkipBlanks(ps);
      Reads(ps);
      c := buf[ps];
    }

    method Parseredirs(rs0: seq<Redirection>) returns (ok: bool, rs: seq<Redirection>)
      requires Valid()
      modifies this`ps
      ensures Valid() && old(ps) <= ps
      ensures ok ==> ParseRedirs(line, old(ps), rs0) == Ok((rs, ps))
      ensures !ok ==> ParseRedirs(line, old(ps), rs0).Fail?
    {
      rs := rs0;
      ghost var r := ParseRedirs(line, ps, rs0);
      var c := PeekChar();
      while IsRedir(c)
        invariant Valid() && ps == Skip(line, ps) && c == Ch(line, ps) && old(ps) <= ps
        invariant r == ParseRedirs(line, ps, rs)
        decreases |line| - ps
      {
        var tok, q, eq;
        tok, q, eq := Gettoken();
        var kind;
        kind, q, eq := Gettoken();
        if kind != 'a' {
          return false, rs;
        }
        rs := rs + [Redirection(Tok(q, eq), tok != '<')];
        c := PeekChar();
      }
      ok := true;
    }

    /** The method did what the function says: the same command and *ps, or a panic for a failure. */
    ghost predicate Did(r: Result<Parsed>, ok: bool, c: Cmd)
      reads this
    {
      if ok then r == Ok(Parsed(c, ps)) else r.Fail?
    }

    /** parseexec's loop over the words; the EXEC node is complete at the end of it. */
    method Parsewords(rs0: seq<Redirection>) returns (ok: bool, c: Cmd)
      requires Valid()
      modifies this`ps
      ensures Valid() && old(ps) <= ps && Did(ParseWords(line, old(ps), [], rs0), ok, c)
    {
      var argv, rs := [], rs0;
      ghost var r := ParseWords(line, ps, [], rs0);
      c := Exec([]);
      var next := PeekChar();
      while !EndsWords(next)
        invariant Valid() && ps == Skip(line, ps) && next == Ch(line, ps) && |argv| < MAXARGS && old(ps) <= ps
        invariant r == ParseWords(line, ps, argv, rs)
        decreases |line| - ps
      {
        WordsStep(line, ps, argv, rs, r);
        var tok, q, eq;
        tok, q, eq := Gettoken();
        if tok == '\0' {
          break;
        }
        if tok != 'a' {
          return false, c;
        }
        argv := argv + [Tok(q, eq)];
        if |argv| >= MAXARGS {
          return false, c;
        }
        ok, rs := Parseredirs(rs);
        if !ok {
          return false, c;
        }
        WordsSkip(line, ps, argv, rs);
        next := PeekChar();
      }
      return true, Wrap(Exec(argv), rs);
    }

    method Parseexec() returns (ok: bool, c: Cmd)
      requires Valid()
      modifies this`ps
      ensures Valid() && old(ps) <= ps && Did(ParseExec(line, old(ps)), ok, c)
      decreases |line| - ps, 1
    {
      var next := PeekChar();
      if next == '(' {
        ok, c := Parseblock();
        return;
      }
      var rs;
      ok, rs := Parseredirs([]);
      c := Exec([]);
      if ok {
        ok, c := Parsewords(rs);
      }
    }

    method Parseblock() returns (ok: bool, c: Cmd)
      requires Valid()
      modifies this`ps
      ensures Valid() && old(ps) <= ps && Did(ParseBlock(line, old(ps)), ok, c)
      decreases |line| - ps, 0
    {
      c := Exec([]);
      var next := PeekChar();
      if next != '(' {
        return false, c;
      }
      var tok, q, eq;
      tok, q, eq := Gettoken();
      SameToken(line, old(ps));
      ok, c := Parseline();
      if !ok {
        return;
      }
      ghost var mid := ps;
      next := PeekChar();
      if next != ')' {
        return false, c;
      }
      tok, q, eq := Gettoken();
      SameToken(line, mid);
      var rs;
      ok, rs := Parseredirs([]);
      c := Wrap(c, rs);
    }

    method Parsepipe() returns (ok: bool, c: Cmd)
      requires Valid()
      modifies this`ps
      ensures Valid() && old(ps) <= ps && Did(ParsePipe(line, old(ps)), ok, c)
      decreases |line| - ps, 2
    {
      ok, c := Parseexec();
      if !ok {
        return;
      }
      ghost var mid := ps;
      var next := PeekChar();
      if next == '|' {
        var tok, q, eq := Gettoken();
        SameToken(line, mid);
        var right;
        ok, right := Parsepipe();
        c := Pipe(c, right);
      }
    }

    method Parseline() returns (ok: bool, c: Cmd)
      requires Valid()
      modifies this`ps
      ensures Valid() && old(ps) <= ps && Did(ParseLine(line, old(ps)), ok, c)
      decreases |line| - ps, 3
    {
      ok, c := Parsepipe();
      if !ok {
        return;
      }
      c := ParseBacks(c);
      ghost var mid := ps;
      var next := PeekChar();
      if next == ';' {
        var tok, q, eq := Gettoken();
        SameToken(line, mid);
        var right;
        ok, right := Parseline();
        c := List(c, right);
      }
    }

    /** parseline's loop for & */
    method ParseBacks(c0: Cmd) returns (c: Cmd)
      requires Valid()
      modifies this`ps
      ensures Valid() && old(ps) <= ps && Backs(line, Parsed(c0, old(ps))) == Parsed(c, ps)
    {
      c := c0;
      ghost var r := Backs(line, Parsed(c0, ps));
      SkipBacks(line, Parsed(c0, ps));
      var next := PeekChar();
      while next == '&'
        invariant Valid() && ps == Skip(line, ps) && next == Ch(line, ps) && old(ps) <= ps
        invariant r == Backs(line, Parsed(c, ps))
        decreases |line| - ps
      {
        var tok, q, eq := Gettoken();
        c := Back(c);
        SkipBacks(line, Parsed(c, ps));
        next := PeekChar();
      }
    }

    /** parsecmd before nulterminate; false stands for its "syntax" panic. */
    method Parsecmd() returns (ok: bool, c: Cmd)
      requires Valid() && ps == 0
      modifies this`ps
      ensures Valid() && (if ok then ParseCmd(line) == Ok(c) else ParseCmd(line).Fail?)
    {
      ok, c := Parseline();
      if !ok {
        return;
      }
      var next := PeekChar();
      if ps != buf.Length - 1 {
        ok := false;
      }
    }

    /** nulterminate */
    method Nulterminate(c: Cmd)
      requires T.InBuffer(c, buf.Length)
      modifies buf
      ensures buf[..] == T.Nul(old(buf[..]), c)
      decreases c
    {
      match c
      case Exec(argv) =>
        var i := 0;
        while i < |argv|
          invariant i <= |argv| && buf[..] == T.NulArgs(old(buf[..]), argv, i)
        {
          buf[argv[i].eq] := '\0';
          i := i + 1;
        }
      case Redir(c', file, _) =>
        Nulterminate(c');
        buf[file.eq] := '\0';
      case Pipe(l, r) =>
        Nulterminate(l);
        Nulterminate(r);
      case List(l, r) =>
        Nulterminate(l);
        Nulterminate(r);
      case Back(c') =>
        Nulterminate(c');
    }
  }

  /** The loop for & starts behind the blanks. */
  lemma SkipBacks(s: Line, c: Parsed)
    requires c.pos <= |s|
    ensures Backs(s, c) == Backs(s, Parsed(c.cmd, Skip(s, c.pos)))
  {
  }

  lemma WordsSkip(s: Line, p: nat, argv: seq<Tok>, rs: seq<Redirection>)
    requires p <= |s|
    ensures ParseWords(s, p, argv, rs) == ParseWords(s, Skip(s, p), argv, rs)
  {
  }

  /** One pass of parseexec's loop. */
  lemma WordsStep(s: Line, p: nat, argv: seq<Tok>, rs: seq<Redirection>, r: Result<Parsed>)
    requires p <= |s| && Skip(s, p) == p && !EndsWords(Ch(s, p)) && r == ParseWords(s, p, argv, rs)
    ensures var t := GetToken(s, p);
            if t.kind == '\0' then r == Ok(Parsed(Wrap(Exec(argv), rs), t.next))
            else if t.kind != 'a' || |argv| + 1 >= MAXARGS then r.Fail?
            else
              var rr := ParseRedirs(s, t.next, rs);
              if rr.Fail? then r.Fail? else r == ParseWords(s, rr.value.1, argv + [t.at], rr.value.0)
  {
  }

  /** A token is found from behind the blanks too. */
  lemma SameToken(s: Line, p: nat)
    requires p <= |s|
    ensures GetToken(s, Skip(s, p)) == GetToken(s, p)
  {
  }

  /** parsecmd: the parse of the line, and the line with its words terminated. */
  method RunParsecmd(s: Line) returns (ok: bool, c: Cmd, buf: string)
    ensures if ok then ParseCmd(s) == Ok(c) else ParseCmd(s).Fail?
    ensures ok ==> forall t :: T.Uses(c, t) ==> WordAt(s, t) && T.CString(buf, t.q, s[t.q..t.eq])
  {
    var p := new Parser(s);
    ok, c := p.Parsecmd();
    if ok {
      T.LinePlaced(s, 0);
      T.PlacedInBuffer(s, c);
      p.Nulterminate(c);
      forall t | T.Uses(c, t)
        ensures WordAt(s, t) && T.CString(p.buf[..], t.q, s[t.q..t.eq])
      {
        T.WordsTerminated(s, t);
      }
    }
    buf := p.buf[..];
  }
}
