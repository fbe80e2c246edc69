/**
  The parser of sh.c as functions on the input line: tokens, the grammar, and the tree with the
  places of its words in the line.
 */
module ShellSpec {

  const MAXARGS: nat := 10

  /** A line as the shell reads it; the NUL follows at its length. */
  type Line = s: string | '\0' !in s

  /** A token's place: q up to eq. */
  datatype Tok = Tok(q: nat, eq: nat)

  datatype Cmd =
    | Exec(argv: seq<Tok>)
    | Redir(cmd: Cmd, file: Tok, out: bool)
    | Pipe(left: Cmd, right: Cmd)
    | List(left: Cmd, right: Cmd)
    | Back(cmd: Cmd)

  datatype Result<T> = Ok(value: T) | Fail(msg: string)

  datatype Parsed = Parsed(cmd: Cmd, pos: nat)

  // ---------- tokens ----------

  /** whitespace[] */
  predicate IsSpace(c: char) {
    c == ' ' || c == '\t' || c == '\r' || c == '\n' || c == '\U{000B}'
  }

  /** symbols[] but for < and >, which start a redirection */
  predicate IsMark(c: char) {
    c == '|' || c == '(' || c == ')' || c == ';' || c == '&'
  }

  predicate IsRedir(c: char) {
    c == '<' || c == '>'
  }

  predicate IsWord(c: char) {
    !IsSpace(c) && !IsMark(c) && !IsRedir(c) && c != '\0'
  }

  function Ch(s: Line, p: nat): char
    requires p <= |s|
  {
    if p < |s| then s[p] else '\0'
  }

  function Skip(s: Line, p: nat): (r: nat)
    requires p <= |s|
    ensures p <= r <= |s| && !IsSpace(Ch(s, r)) && forall i :: p <= i < r ==> IsSpace(s[i])
    decreases |s| - p
  {
    if p < |s| && IsSpace(s[p]) then Skip(s, p + 1) else p
  }

  function WordEnd(s: Line, p: nat): (r: nat)
    requires p <= |s|
    ensures p <= r <= |s| && !IsWord(Ch(s, r)) && forall i :: p <= i < r ==> IsWord(s[i])
    decreases |s| - p
  {
    if p < |s| && IsWord(s[p]) then WordEnd(s, p + 1) else p
  }

  /** What gettoken returns: the kind ('a' for a word, '+' for >>), the place, the new *ps. */
  datatype Token = Token(kind: char, at: Tok, next: nat)

  function GetToken(s: Line, p: nat): (t: Token)
    requires p <= |s|
    ensures p <= t.at.q <= t.at.eq <= t.next <= |s|
    ensures t.kind != '\0' ==> p < t.next
    ensures t.kind == 'a' ==> t.at.q < t.at.eq && WordAt(s, t.at)
  {
    var q := Skip(s, p);
    var c := Ch(s, q);
    var (kind, eq) :=
      if c == '\0' then (c, q)
      else if IsMark(c) || c == '<' then (c, q + 1)
      else if c == '>' then (if Ch(s, q + 1) == '>' then ('+', q + 2) else ('>', q + 1))
      else ('a', WordEnd(s, q));
    Token(kind, Tok(q, eq), Skip(s, eq))
  }

  /** A word: no blank and no symbol in it, and none of its kind behind it. */
  predicate WordAt(s: Line, t: Tok) {
    t.q <= t.eq <= |s| && (forall i :: t.q <= i < t.eq ==> IsWord(s[i])) && !IsWord(Ch(s, t.eq))
  }

  /** The character that peek looks at; *ps is Skip(s, p) afterwards. */
  function Peek(s: Line, p: nat): char
    requires p <= |s|
  {
    Ch(s, Skip(s, p))
  }

  /** What ends a simple command: peek for "|)&;" */
  predicate EndsWords(c: char) {
    c == '|' || c == ')' || c == '&' || c == ';'
  }

  // ---------- the grammar ----------

  datatype Redirection = Redirection(file: Tok, out: bool)

  /** Redirections wrap the command, the first one innermost. */
  function Wrap(c: Cmd, rs: seq<Redirection>): Cmd {
    if rs == [] then c
    else Redir(Wrap(c, rs[..|rs| - 1]), rs[|rs| - 1].file, rs[|rs| - 1].out)
  }

  function ParseRedirs(s: Line, p: nat, rs: seq<Redirection>): (r: Result<(seq<Redirection>, nat)>)
    requires p <= |s|
    ensures r.Ok? ==> p <= r.value.1 <= |s|
    decreases |s| - p
  {
    if !IsRedir(Peek(s, p)) then Ok((rs, Skip(s, p)))
    else
      var op := GetToken(s, Skip(s, p));
      var f := GetToken(s, op.next);
      if f.kind != 'a' then Fail("missing file for redirection")
      else ParseRedirs(s, f.next, rs + [Redirection(f.at, op.kind != '<')])
  }

  /** parseexec's loop */
  function ParseWords(s: Line, p: nat, argv: seq<Tok>, rs: seq<Redirection>): (r: Result<Parsed>)
    requires p <= |s|
    ensures r.Ok? ==> p <= r.value.pos <= |s|
    decreases |s| - p
  {
    if EndsWords(Peek(s, p)) then Ok(Parsed(Wrap(Exec(argv), rs), Skip(s, p)))
    else
      var t := GetToken(s, Skip(s, p));
      if t.kind == '\0' then Ok(Parsed(Wrap(Exec(argv), rs), t.next))
      else if t.kind != 'a' then Fail("syntax")
      else if |argv| + 1 >= MAXARGS then Fail("too many args")
      else
        var rr := ParseRedirs(s, t.next, rs);
        if rr.Fail? then Fail(rr.msg) else ParseWords(s, rr.value.1, argv + [t.at], rr.value.0)
  }

  function ParseExec(s: Line, p: nat): (r: Result<Parsed>)
    requires p <= |s|
    ensures r.Ok? ==> p <= r.value.pos <= |s|
    decreases |s| - p, 1
  {
    if Peek(s, p) == '(' then ParseBlock(s, Skip(s, p))
    else
      var rr := ParseRedirs(s, Skip(s, p), []);
      if rr.Fail? then Fail(rr.msg) else ParseWords(s, rr.value.1, [], rr.value.0)
  }

  function ParseBlock(s: Line, p: nat): (r: Result<Parsed>)
    requires p <= |s|
    ensures r.Ok? ==> p <= r.value.pos <= |s|
    decreases |s| - p, 0
  {
    if Peek(s, p) != '(' then Fail("parseblock")
    else
      var r := ParseLine(s, GetToken(s, p).next);
      if r.Fail? then r
      else if Peek(s, r.value.pos) != ')' then Fail("syntax - missing )")
      else
        var rr := ParseRedirs(s, GetToken(s, r.value.pos).next, []);
        if rr.Fail? then Fail(rr.msg) else Ok(Parsed(Wrap(r.value.cmd, rr.value.0), rr.value.1))
  }

  function ParsePipe(s: Line, p: nat): (r: Result<Parsed>)
    requires p <= |s|
    ensures r.Ok? ==> p <= r.value.pos <= |s|
    decreases |s| - p, 2
  {
    var l := ParseExec(s, p);
    if l.Fail? || Peek(s, l.value.pos) != '|' then Skipped(s, l)
    else
      var r := ParsePipe(s, GetToken(s, l.value.pos).next);
      if r.Fail? then r else Ok(Parsed(Pipe(l.value.cmd, r.value.cmd), r.value.pos))
  }

  /** A peek that finds nothing still moves *ps over blanks. */
  function Skipped(s: Line, r: Result<Parsed>): Result<Parsed>
    requires r.Ok? ==> r.value.pos <= |s|
  {
    if r.Fail? then r else Ok(Parsed(r.value.cmd, Skip(s, r.value.pos)))
  }

  /** while (peek "&") */
  function Backs(s: Line, c: Parsed): (r: Parsed)
    requires c.pos <= |s|
    ensures c.pos <= r.pos <= |s|
    decreases |s| - c.pos
  {
    if Peek(s, c.pos) == '&' then Backs(s, Parsed(Back(c.cmd), GetToken(s, c.pos).next))
      else Parsed(c.cmd, Skip(s, c.pos))
  }

  function ParseLine(s: Line, p: nat): (r: Result<Parsed>)
    requires p <= |s|
    ensures r.Ok? ==> p <= r.value.pos <= |s|
    decreases |s| - p, 3
  {
    var l := ParsePipe(s, p);
    if l.Fail? then l
    else
      var b := Backs(s, l.value);
      if Peek(s, b.pos) != ';' then Ok(Parsed(b.cmd, Skip(s, b.pos)))
      else
        var r := ParseLine(s, GetToken(s, b.pos).next);
        if r.Fail? then r else Ok(Parsed(List(b.cmd, r.value.cmd), r.value.pos))
  }

  function ParseCmd(s: Line): Result<Cmd> {
    var r := ParseLine(s, 0);
    if r.Fail? then Fail(r.msg)
    else if Skip(s, r.value.pos) != |s| then Fail("syntax")
    else Ok(r.value.cmd)
  }
}
