/**
  Printing a command tree with all its parentheses and parsing it again gives the tree back.
 */
module ShellRoundTrip {
  import opened ShellSpec

  /** A command, with its words as text. */
  datatype Tree =
    | TExec(words: seq<string>)
    | TRedir(cmd: Tree, file: string, out: bool)
    | TPipe(left: Tree, right: Tree)
    | TList(left: Tree, right: Tree)
    | TBack(cmd: Tree)

  predicate GoodWord(w: string) {
    w != "" && forall i :: 0 <= i < |w| ==> IsWord(w[i])
  }

  /** argv has room for MAXARGS - 1 words and its terminator. */
  predicate Good(t: Tree) {
    match t
    case TExec(words) => |words| < MAXARGS && forall i :: 0 <= i < |words| ==> GoodWord(words[i])
    case TRedir(c, file, _) => Good(c) && GoodWord(file)
    case TPipe(l, r) => Good(l) && Good(r)
    case TList(l, r) => Good(l) && Good(r)
    case TBack(c) => Good(c)
  }

  function Join(words: seq<string>): string {
    if words == [] then "" else if |words| == 1 then words[0] else words[0] + " " + Join(words[1..])
  }

  function Block(t: Tree): string
    decreases t, 1
  {
    "(" + Print(t) + ")"
  }

  function Print(t: Tree): string
    decreases t, 0
  {
    match t
    case TExec(words) => Join(words)
    case TRedir(c, file, out) => Block(c) + (if out then ">" else "<") + file
    case TPipe(l, r) => Block(l) + "|" + Block(r)
    case TList(l, r) => Block(l) + ";" + Block(r)
    case TBack(c) => Block(c) + "&"
  }

  /** The tree that a parsed command stands for. */
  function Erase(s: Line, c: Cmd): Tree
    requires Placed(s, c)
  {
    match c
    case Exec(argv) => TExec(Texts(s, argv))
    case Redir(c', file, out) => TRedir(Erase(s, c'), s[file.q..file.eq], out)
    case Pipe(l, r) => TPipe(Erase(s, l), Erase(s, r))
    case List(l, r) => TList(Erase(s, l), Erase(s, r))
    case Back(c') => TBack(Erase(s, c'))
  }

  predicate Placed(s: Line, c: Cmd) {
    match c
    case Exec(argv) => forall i :: 0 <= i < |argv| ==> WordAt(s, argv[i])
    case Redir(c', file, _) => Placed(s, c') && WordAt(s, file)
    case Pipe(l, r) => Placed(s, l) && Placed(s, r)
    case List(l, r) => Placed(s, l) && Placed(s, r)
    case Back(c') => Placed(s, c')
  }

  function Texts(s: Line, argv: seq<Tok>): (r: seq<string>)
    requires forall i :: 0 <= i < |argv| ==> WordAt(s, argv[i])
    ensures |r| == |argv|
  {
    if argv == [] then []
    else
      var last := argv[|argv| - 1];
      assert WordAt(s, last);
      Texts(s, argv[..|argv| - 1]) + [s[last.q..last.eq]]
  }

  // ---------- text at a place ----------

  /** The line reads x from p on. */
  predicate At(s: Line, p: nat, x: string) {
    p + |x| <= |s| && s[p..p + |x|] == x
  }

  lemma AtParts(s: Line, p: nat, x: string, y: string)
    requires At(s, p, x + y)
    ensures At(s, p, x) && At(s, p + |x|, y)
  {
    assert s[p..p + |x + y|][..|x|] == x;
    assert s[p..p + |x + y|][|x|..] == y;
  }

  lemma AtChar(s: Line, p: nat, x: string, i: nat)
    requires At(s, p, x) && i < |x|
    ensures s[p + i] == x[i]
  {
    assert s[p..p + |x|][i] == x[i];
  }

  /** What follows a printed command: the end of its block or of the line. */
  predicate Stop(c: char) {
    c == ')' || c == '\0'
  }

  lemma {:induction false} WordEnds(s: Line, p: nat, end: nat)
    requires p <= end <= |s| && (forall i :: p <= i < end ==> IsWord(s[i])) && !IsWord(Ch(s, end))
    ensures WordEnd(s, p) == end
    decreases end - p
  {
    if p < end {
      WordEnds(s, p + 1, end);
    }
  }

  lemma WordToken(s: Line, p: nat, w: string)
    requires At(s, p, w) && GoodWord(w) && !IsWord(Ch(s, p + |w|))
    ensures var t := GetToken(s, p);
            t.kind == 'a' && t.at == Tok(p, p + |w|) && t.next == Skip(s, p + |w|)
    ensures IsWord(Peek(s, p))
  {
    forall i | p <= i < p + |w|
      ensures IsWord(s[i])
    {
      AtChar(s, p, w, i - p);
    }
    WordEnds(s, p, p + |w|);
  }

  lemma JoinStarts(words: seq<string>)
    requires forall i :: 0 <= i < |words| ==> GoodWord(words[i])
    ensures words != [] ==> Join(words) != "" && IsWord(Join(words)[0])
  {
  }

  /** parseredirs finds nothing where a word or the end of a command stands. */
  lemma NoRedirs(s: Line, p: nat, rs: seq<Redirection>)
    requires p <= |s| && !IsSpace(Ch(s, p)) && !IsRedir(Ch(s, p))
    ensures ParseRedirs(s, p, rs) == Ok((rs, p))
  {
  }

  lemma JoinMore(words: seq<string>, rest: string)
    requires |words| > 1 && rest == Join(words[1..])
    ensures Join(words) == words[0] + (" " + rest)
  {
  }

  /** A word with a blank and more text behind it. */
  lemma BlankFollows(s: Line, p: nat, w: string, rest: string)
    requires At(s, p, w + (" " + rest)) && rest != "" && IsWord(rest[0])
    ensures At(s, p, w) && Ch(s, p + |w|) == ' ' && At(s, p + |w| + 1, rest) && Skip(s, p + |w|) == p + |w| + 1
    ensures IsWord(Ch(s, p + |w| + 1))
  {
    AtParts(s, p, w, " " + rest);
    AtParts(s, p + |w|, " ", rest);
    AtChar(s, p + |w|, " ", 0);
    AtChar(s, p + |w| + 1, rest, 0);
  }

  predicate GoodWords(words: seq<string>) {
    forall i :: 0 <= i < |words| ==> GoodWord(words[i])
  }

  /** The words stand at p, and `end` is behind them. */
  predicate WordsAt(s: Line, p: nat, words: seq<string>, end: nat) {
    GoodWords(words) && At(s, p, Join(words)) && end == p + |Join(words)| && Stop(Ch(s, end))
  }

  /** Where the next token starts after the first word. */
  lemma NextWord(s: Line, p: nat, words: seq<string>, end: nat, w: string, rest: seq<string>)
    requires words != [] && WordsAt(s, p, words, end) && w == words[0] && rest == words[1..]
    ensures At(s, p, w) && GoodWord(w) && !IsWord(Ch(s, p + |w|))
    ensures var n := Skip(s, p + |w|);
            p < n && WordsAt(s, n, rest, end) && !IsSpace(Ch(s, n)) && !IsRedir(Ch(s, n))
  {
    if |words| == 1 {
      assert rest == [];
    } else {
      var more := Join(rest);
      JoinMore(words, more);
      JoinStarts(rest);
      BlankFollows(s, p, w, more);
    }
  }

  predicate AllPlaced(s: Line, argv: seq<Tok>) {
    forall i :: 0 <= i < |argv| ==> WordAt(s, argv[i])
  }

  lemma OneMoreText(s: Line, argv: seq<Tok>, t: Tok, words: seq<string>, argv': seq<Tok>, rest: seq<string>)
    requires AllPlaced(s, argv) && WordAt(s, t) && words != [] && s[t.q..t.eq] == words[0]
    requires argv' == argv + [t] && rest == words[1..]
    ensures AllPlaced(s, argv') && Texts(s, argv') + rest == Texts(s, argv) + words
  {
    assert argv'[..|argv|] == argv;
  }

  /** parseexec's loop over one word */
  lemma WordParses(s: Line, p: nat, words: seq<string>, argv: seq<Tok>, end: nat, rest: seq<string>)
    returns (t: Tok, next: nat, argv': seq<Tok>)
    requires |argv| + 1 < MAXARGS && words != [] && WordsAt(s, p, words, end) && rest == words[1..]
    ensures WordAt(s, t) && s[t.q..t.eq] == words[0] && argv' == argv + [t]
    ensures p < next <= |s| && WordsAt(s, next, rest, end)
    ensures ParseWords(s, p, argv, []) == ParseWords(s, next, argv', [])
  {
    NextWord(s, p, words, end, words[0], rest);
    WordToken(s, p, words[0]);
    var k := GetToken(s, p);
    NoRedirs(s, k.next, []);
    t, next, argv' := k.at, k.next, argv + [k.at];
  }

  lemma NoWords(s: Line, p: nat, argv: seq<Tok>, end: nat)
    requires WordsAt(s, p, [], end)
    ensures ParseWords(s, p, argv, []) == Ok(Parsed(Exec(argv), end))
  {
  }

  lemma {:induction false} WordsParse(s: Line, p: nat, words: seq<string>, argv: seq<Tok>, r: Result<Parsed>,
                                      end: nat, all: seq<string>)
    returns (toks: seq<Tok>)
    requires |argv| + |words| < MAXARGS && WordsAt(s, p, words, end) && AllPlaced(s, argv)
    requires r == ParseWords(s, p, argv, []) && all == Texts(s, argv) + words
    ensures AllPlaced(s, toks) && Texts(s, toks) == all && r == Ok(Parsed(Exec(toks), end))
    decreases |words|
  {
    toks := argv;
    if words == [] {
      NoWords(s, p, argv, end);
    } else {
      var rest := words[1..];
      var t, next, argv' := WordParses(s, p, words, argv, end, rest);
      OneMoreText(s, argv, t, words, argv', rest);
      toks := WordsParse(s, next, rest, argv', r, end, all);
    }
  }

  // ---------- blocks ----------

  lemma PrintStarts(t: Tree)
    requires Good(t)
    ensures Print(t) != "" ==> !IsSpace(Print(t)[0]) && (Print(t)[0] == '(' || IsWord(Print(t)[0]))
    ensures Print(t) == "" ==> t == TExec([])
  {
    if t.TExec? {
      JoinStarts(t.words);
    }
  }

  /** What gettoken makes of the symbols that stand alone. */
  lemma SymbolToken(s: Line, p: nat)
    requires p < |s| && IsMark(s[p])
    ensures GetToken(s, p) == Token(s[p], Tok(p, p + 1), Skip(s, p + 1))
  {
  }

  /** t stands at p, and `end` is behind it. */
  predicate Printed(s: Line, p: nat, t: Tree, end: nat) {
    Good(t) && At(s, p, Print(t)) && end == p + |Print(t)| && Stop(Ch(s, end))
  }

  /** The parser made c, and *ps ended at `end`. */
  predicate Gives(s: Line, r: Result<Parsed>, t: Tree, end: nat) {
    r.Ok? && r.value.pos == end && Placed(s, r.value.cmd) && Erase(s, r.value.cmd) == t
  }

  lemma ExecLine(s: Line, p: nat, words: seq<string>, end: nat)
    requires Printed(s, p, TExec(words), end)
    ensures Gives(s, ParseLine(s, p), TExec(words), end)
  {
    PrintStarts(TExec(words));
    if words != [] {
      AtChar(s, p, Join(words), 0);
    }
    NoRedirs(s, p, []);
    var r := ParseWords(s, p, [], []);
    var toks := WordsParse(s, p, words, [], r, end, words);
    ExecIs(s, p, r);
    StopsPipe(s, p, end);
  }

  lemma ExecIs(s: Line, p: nat, r: Result<Parsed>)
    requires p <= |s| && Peek(s, p) != '(' && !IsSpace(Ch(s, p)) && !IsRedir(Ch(s, p))
    requires r == ParseWords(s, p, [], [])
    ensures ParseExec(s, p) == r
  {
    NoRedirs(s, p, []);
  }

  /** At the end of a command, parsepipe and parseline add nothing to what parseexec found. */
  lemma StopsPipe(s: Line, p: nat, end: nat)
    requires p <= end <= |s| && Stop(Ch(s, end))
    requires ParseExec(s, p).Ok? && ParseExec(s, p).value.pos == end
    ensures ParsePipe(s, p) == ParseExec(s, p) && ParseLine(s, p) == ParseExec(s, p)
  {
    assert ParsePipe(s, p) == ParseExec(s, p);
    assert Backs(s, ParsePipe(s, p).value) == ParsePipe(s, p).value;
  }

  /** t stands in parentheses at p, and mid is behind them. */
  predicate Blocked(s: Line, p: nat, t: Tree, mid: nat) {
    Good(t) && At(s, p, Block(t)) && mid == p + |Block(t)|
  }

  lemma InBlock(s: Line, p: nat, t: Tree, mid: nat)
    requires Blocked(s, p, t, mid)
    ensures Printed(s, p + 1, t, mid - 1) && s[p] == '(' && s[mid - 1] == ')' && !IsSpace(Ch(s, p + 1))
  {
    assert Block(t) == "(" + (Print(t) + ")");
    AtParts(s, p, "(", Print(t) + ")");
    AtParts(s, p + 1, Print(t), ")");
    AtChar(s, p, "(", 0);
    AtChar(s, mid - 1, ")", 0);
    PrintStarts(t);
    if Print(t) != "" {
      AtChar(s, p + 1, Print(t), 0);
    }
  }

  /** parseblock, when the line inside and the redirections behind it are known */
  lemma BlockIs(s: Line, p: nat, c: Parsed, mid: nat, rr: Result<(seq<Redirection>, nat)>)
    requires p < c.pos && mid == c.pos + 1 <= |s| && s[p] == '(' && s[c.pos] == ')' && !IsSpace(Ch(s, p + 1))
    requires !IsSpace(Ch(s, mid))
    requires ParseLine(s, p + 1) == Ok(c) && rr == ParseRedirs(s, mid, []) && rr.Ok?
    ensures ParseBlock(s, p) == Ok(Parsed(Wrap(c.cmd, rr.value.0), rr.value.1))
  {
    SymbolToken(s, p);
    SymbolToken(s, c.pos);
  }

  lemma ExecIsBlock(s: Line, p: nat)
    requires p < |s| && s[p] == '('
    ensures ParseExec(s, p) == ParseBlock(s, p)
  {
  }

  lemma PipeIs(s: Line, p: nat, l: Parsed, r: Parsed)
    requires p <= |s| && ParseExec(s, p) == Ok(l) && l.pos + 1 < |s| && s[l.pos] == '|' && s[l.pos + 1] == '('
    requires ParsePipe(s, l.pos + 1) == Ok(r)
    ensures ParsePipe(s, p) == Ok(Parsed(Pipe(l.cmd, r.cmd), r.pos))
  {
    SymbolToken(s, l.pos);
  }

  lemma NoPipe(s: Line, p: nat, l: Parsed)
    requires p <= |s| && ParseExec(s, p) == Ok(l) && l.pos <= |s| && !IsSpace(Ch(s, l.pos)) && Ch(s, l.pos) != '|'
    ensures ParsePipe(s, p) == Ok(l)
  {
  }

  /** parsepipe and the loop for & find nothing more at a stop or a semicolon. */
  lemma NoMore(s: Line, p: nat, l: Parsed)
    requires p <= |s| && ParseExec(s, p) == Ok(l) && l.pos <= |s| && (Stop(Ch(s, l.pos)) || Ch(s, l.pos) == ';')
    ensures ParsePipe(s, p) == Ok(l) && Backs(s, l) == l
  {
    NoPipe(s, p, l);
  }

  lemma ListIs(s: Line, p: nat, l: Parsed, r: Parsed)
    requires p <= |s| && ParsePipe(s, p) == Ok(l) && l.pos + 1 < |s| && Backs(s, l) == l && s[l.pos] == ';'
    requires s[l.pos + 1] == '('
    requires ParseLine(s, l.pos + 1) == Ok(r)
    ensures ParseLine(s, p) == Ok(Parsed(List(l.cmd, r.cmd), r.pos))
  {
    SymbolToken(s, l.pos);
  }

  lemma LineIs(s: Line, p: nat, l: Parsed)
    requires p <= |s| && ParsePipe(s, p) == Ok(l) && l.pos <= |s| && Stop(Ch(s, l.pos))
    ensures ParseLine(s, p) == Ok(l)
  {
    assert Backs(s, l) == l;
  }

  lemma BackIs(s: Line, p: nat, l: Parsed)
    requires p <= |s| && ParsePipe(s, p) == Ok(l) && l.pos < |s| && s[l.pos] == '&' && Stop(Ch(s, l.pos + 1))
    ensures ParseLine(s, p) == Ok(Parsed(Back(l.cmd), l.pos + 1))
  {
    SymbolToken(s, l.pos);
    var b := Parsed(Back(l.cmd), l.pos + 1);
    assert Backs(s, b) == b;
    assert Backs(s, l) == b;
  }

  lemma BlockExec(s: Line, p: nat, t: Tree, mid: nat)
    requires Blocked(s, p, t, mid) && Gives(s, ParseLine(s, p + 1), t, mid - 1)
    requires !IsSpace(Ch(s, mid)) && !IsRedir(Ch(s, mid))
    ensures Gives(s, ParseExec(s, p), t, mid)
  {
    InBlock(s, p, t, mid);
    NoRedirs(s, mid, []);
    ExecIsBlock(s, p);
    BlockIs(s, p, ParseLine(s, p + 1).value, mid, ParseRedirs(s, mid, []));
  }

  lemma RedirOp(s: Line, mid: nat, op: char)
    requires mid + 1 < |s| && s[mid] == op && IsRedir(op) && IsWord(s[mid + 1])
    ensures IsRedir(Peek(s, mid)) && Skip(s, mid) == mid && GetToken(s, mid).kind == op
    ensures GetToken(s, mid).next == mid + 1
  {
  }

  lemma OneRedir(s: Line, mid: nat, out: bool, end: nat, f: Token)
    requires mid < |s| && IsRedir(Peek(s, mid)) && Skip(s, mid) == mid && (GetToken(s, mid).kind != '<') == out
    requires f == GetToken(s, GetToken(s, mid).next) && f.kind == 'a' && f.next == end <= |s|
    requires !IsSpace(Ch(s, end)) && !IsRedir(Ch(s, end))
    ensures ParseRedirs(s, mid, []) == Ok(([Redirection(f.at, out)], end))
  {
    var rs := [] + [Redirection(f.at, out)];
    assert rs == [Redirection(f.at, out)];
    NoRedirs(s, end, rs);
  }

  lemma RedirText(s: Line, mid: nat, file: string, out: bool, end: nat)
    requires At(s, mid, (if out then ">" else "<") + file) && GoodWord(file) && end == mid + 1 + |file|
    requires Stop(Ch(s, end))
    ensures At(s, mid + 1, file) && mid + 1 < |s| && s[mid] == (if out then '>' else '<') && IsWord(s[mid + 1])
  {
    var op := if out then ">" else "<";
    AtParts(s, mid, op, file);
    AtChar(s, mid, op, 0);
    AtChar(s, mid + 1, file, 0);
  }

  lemma RedirToken(s: Line, mid: nat, file: string, out: bool, end: nat)
    requires At(s, mid, (if out then ">" else "<") + file) && GoodWord(file) && end == mid + 1 + |file|
    requires Stop(Ch(s, end))
    ensures ParseRedirs(s, mid, []) == Ok(([Redirection(Tok(mid + 1, end), out)], end)) && !IsSpace(Ch(s, mid))
    ensures WordAt(s, Tok(mid + 1, end)) && s[mid + 1..end] == file
  {
    RedirText(s, mid, file, out, end);
    RedirOp(s, mid, s[mid]);
    WordToken(s, mid + 1, file);
    OneRedir(s, mid, out, end, GetToken(s, mid + 1));
  }

  lemma WrapOne(c: Cmd, r: Redirection)
    ensures Wrap(c, [r]) == Redir(c, r.file, r.out)
  {
    assert [r][..0] == [];
  }

  lemma RedirIs(s: Line, p: nat, inner: Parsed, r: Redirection, mid: nat, end: nat)
    requires p < inner.pos && mid == inner.pos + 1 <= end <= |s| && s[p] == '(' && s[inner.pos] == ')'
    requires !IsSpace(Ch(s, p + 1)) && !IsSpace(Ch(s, mid)) && Stop(Ch(s, end))
    requires ParseLine(s, p + 1) == Ok(inner) && ParseRedirs(s, mid, []) == Ok(([r], end))
    ensures ParseLine(s, p) == Ok(Parsed(Redir(inner.cmd, r.file, r.out), end))
  {
    ExecIsBlock(s, p);
    BlockIs(s, p, inner, mid, Ok(([r], end)));
    WrapOne(inner.cmd, r);
    StopsPipe(s, p, end);
  }

  lemma RedirLine(s: Line, p: nat, c: Tree, file: string, out: bool, mid: nat, end: nat)
    requires Blocked(s, p, c, mid) && Gives(s, ParseLine(s, p + 1), c, mid - 1)
    requires At(s, mid, (if out then ">" else "<") + file) && GoodWord(file) && end == mid + 1 + |file|
    requires Stop(Ch(s, end))
    ensures Gives(s, ParseLine(s, p), TRedir(c, file, out), end)
  {
    InBlock(s, p, c, mid);
    RedirToken(s, mid, file, out, end);
    var inner := ParseLine(s, p + 1).value;
    RedirIs(s, p, inner, Redirection(Tok(mid + 1, end), out), mid, end);
    RedirErased(s, inner.cmd, c, Tok(mid + 1, end), file, out);
  }

  lemma RedirErased(s: Line, c: Cmd, t: Tree, at: Tok, file: string, out: bool)
    requires Placed(s, c) && Erase(s, c) == t && WordAt(s, at) && s[at.q..at.eq] == file
    ensures Placed(s, Redir(c, at, out)) && Erase(s, Redir(c, at, out)) == TRedir(t, file, out)
  {
  }

  lemma PipeLineIs(s: Line, p: nat, a: Parsed, b: Parsed)
    requires p <= a.pos && a.pos + 1 < b.pos <= |s| && s[a.pos] == '|' && s[a.pos + 1] == '(' && Stop(Ch(s, b.pos))
    requires ParseExec(s, p) == Ok(a) && ParseExec(s, a.pos + 1) == Ok(b)
    ensures ParseLine(s, p) == Ok(Parsed(Pipe(a.cmd, b.cmd), b.pos))
  {
    StopsPipe(s, a.pos + 1, b.pos);
    PipeIs(s, p, a, b);
    LineIs(s, p, Parsed(Pipe(a.cmd, b.cmd), b.pos));
  }

  lemma ListLineIs(s: Line, p: nat, a: Parsed, b: Parsed)
    requires p <= a.pos && a.pos + 1 < b.pos <= |s| && s[a.pos] == ';' && s[a.pos + 1] == '(' && Stop(Ch(s, b.pos))
    requires ParseExec(s, p) == Ok(a) && ParseExec(s, a.pos + 1) == Ok(b)
    ensures ParseLine(s, p) == Ok(Parsed(List(a.cmd, b.cmd), b.pos))
  {
    NoMore(s, p, a);
    StopsPipe(s, a.pos + 1, b.pos);
    ListIs(s, p, a, b);
  }

  lemma PipeLine(s: Line, p: nat, l: Tree, r: Tree, mid: nat, end: nat)
    requires p <= |s| && mid + 1 < end <= |s| && s[mid] == '|' && s[mid + 1] == '(' && Stop(Ch(s, end))
    requires Gives(s, ParseExec(s, p), l, mid) && Gives(s, ParseExec(s, mid + 1), r, end)
    ensures Gives(s, ParseLine(s, p), TPipe(l, r), end)
  {
    PipeLineIs(s, p, ParseExec(s, p).value, ParseExec(s, mid + 1).value);
  }

  lemma ListLine(s: Line, p: nat, l: Tree, r: Tree, mid: nat, end: nat)
    requires p <= |s| && mid + 1 < end <= |s| && s[mid] == ';' && s[mid + 1] == '(' && Stop(Ch(s, end))
    requires Gives(s, ParseExec(s, p), l, mid) && Gives(s, ParseExec(s, mid + 1), r, end)
    ensures Gives(s, ParseLine(s, p), TList(l, r), end)
  {
    ListLineIs(s, p, ParseExec(s, p).value, ParseExec(s, mid + 1).value);
  }

  lemma BackLine(s: Line, p: nat, c: Tree, mid: nat, end: nat)
    requires p <= |s| && end == mid + 1 <= |s| && s[mid] == '&' && Stop(Ch(s, end))
    requires Gives(s, ParseExec(s, p), c, mid)
    ensures Gives(s, ParseLine(s, p), TBack(c), end)
  {
    NoPipe(s, p, ParseExec(s, p).value);
    BackIs(s, p, ParseExec(s, p).value);
  }

  /** A block, a symbol and a second block: where the parts stand. */
  lemma TwoBlocks(s: Line, p: nat, l: Tree, op: string, r: Tree, mid: nat)
    requires |op| == 1 && At(s, p, Block(l) + op + Block(r)) && Good(l) && Good(r) && mid == p + |Block(l)|
    ensures Blocked(s, p, l, mid) && mid < |s| && s[mid] == op[0] && Blocked(s, mid + 1, r, mid + 1 + |Block(r)|)
  {
    assert Block(l) + op + Block(r) == Block(l) + (op + Block(r));
    AtParts(s, p, Block(l), op + Block(r));
    AtParts(s, mid, op, Block(r));
    AtChar(s, mid, op, 0);
  }

  lemma {:induction false} LineParses(s: Line, p: nat, t: Tree, end: nat)
    requires Printed(s, p, t, end)
    ensures Gives(s, ParseLine(s, p), t, end)
    decreases t, 2
  {
    match t
    case TExec(words) => ExecLine(s, p, words, end);
    case TRedir(_, _, _) => RedirParses(s, p, t, end);
    case TPipe(_, _) => PipeParses(s, p, t, end);
    case TList(_, _) => ListParses(s, p, t, end);
    case TBack(_) => BackParses(s, p, t, end);
  }

  lemma {:induction false} RedirParses(s: Line, p: nat, t: Tree, end: nat)
    requires Printed(s, p, t, end) && t.TRedir?
    ensures Gives(s, ParseLine(s, p), t, end)
    decreases t, 1
  {
    var c, mid := t.cmd, p + |Block(t.cmd)|;
    var op := if t.out then ">" else "<";
    assert Print(t) == Block(c) + (op + t.file);
    AtParts(s, p, Block(c), op + t.file);
    InBlock(s, p, c, mid);
    LineParses(s, p + 1, c, mid - 1);
    RedirLine(s, p, c, t.file, t.out, mid, end);
  }

  lemma PipeParts(s: Line, p: nat, t: Tree, mid: nat, end: nat)
    requires Printed(s, p, t, end) && t.TPipe? && mid == p + |Block(t.left)|
    ensures Blocked(s, p, t.left, mid) && mid + 1 < end <= |s| && s[mid] == '|' && Blocked(s, mid + 1, t.right, end)
    ensures s[mid + 1] == '('
    ensures !IsSpace(Ch(s, mid)) && !IsRedir(Ch(s, mid)) && !IsSpace(Ch(s, end)) && !IsRedir(Ch(s, end))
  {
    TwoBlocks(s, p, t.left, "|", t.right, mid);
    InBlock(s, mid + 1, t.right, end);
  }

  lemma {:induction false} PipeParses(s: Line, p: nat, t: Tree, end: nat)
    requires Printed(s, p, t, end) && t.TPipe?
    ensures Gives(s, ParseLine(s, p), t, end)
    decreases t, 1
  {
    var mid := p + |Block(t.left)|;
    PipeParts(s, p, t, mid, end);
    SubParses(s, p, t.left, mid, t);
    SubParses(s, mid + 1, t.right, end, t);
    PipeLine(s, p, t.left, t.right, mid, end);
  }

  lemma {:induction false} ListParses(s: Line, p: nat, t: Tree, end: nat)
    requires Printed(s, p, t, end) && t.TList?
    ensures Gives(s, ParseLine(s, p), t, end)
    decreases t, 1
  {
    var mid := p + |Block(t.left)|;
    TwoBlocks(s, p, t.left, ";", t.right, mid);
    SubParses(s, p, t.left, mid, t);
    SubParses(s, mid + 1, t.right, end, t);
    InBlock(s, mid + 1, t.right, end);
    ListLine(s, p, t.left, t.right, mid, end);
  }

  lemma {:induction false} BackParses(s: Line, p: nat, t: Tree, end: nat)
    requires Printed(s, p, t, end) && t.TBack?
    ensures Gives(s, ParseLine(s, p), t, end)
    decreases t, 1
  {
    var c, mid := t.cmd, p + |Block(t.cmd)|;
    AtParts(s, p, Block(c), "&");
    AtChar(s, mid, "&", 0);
    SubParses(s, p, c, mid, t);
    BackLine(s, p, c, mid, end);
  }

  lemma {:induction false} SubParses(s: Line, p: nat, t: Tree, mid: nat, whole: Tree)
    requires Blocked(s, p, t, mid) && t < whole
    requires !IsSpace(Ch(s, mid)) && !IsRedir(Ch(s, mid))
    ensures Gives(s, ParseExec(s, p), t, mid)
    decreases t, 3
  {
    InBlock(s, p, t, mid);
    LineParses(s, p + 1, t, mid - 1);
    BlockExec(s, p, t, mid);
  }

  // ---------- the round trip ----------

  lemma {:induction false} JoinHasNoNul(words: seq<string>)
    requires forall i :: 0 <= i < |words| ==> GoodWord(words[i])
    ensures '\0' !in Join(words)
  {
    if |words| > 1 {
      JoinHasNoNul(words[1..]);
    }
  }

  lemma {:induction false} PrintHasNoNul(t: Tree)
    requires Good(t)
    ensures '\0' !in Print(t)
  {
    match t
    case TExec(words) => JoinHasNoNul(words);
    case TRedir(c, _, _) => PrintHasNoNul(c);
    case TPipe(l, r) => PrintHasNoNul(l); PrintHasNoNul(r);
    case TList(l, r) => PrintHasNoNul(l); PrintHasNoNul(r);
    case TBack(c) => PrintHasNoNul(c);
  }

  /**
    Parsing inverts printing: for every command whose words are made of word characters and whose
    simple commands have at most MAXARGS - 1 words, the parser accepts the printed
    line and returns that command.
   */
  lemma ParseInvertsPrint(t: Tree)
    requires Good(t)
    ensures '\0' !in Print(t)
    ensures var r := ParseCmd(Print(t));
            r.Ok? && Placed(Print(t), r.value) && Erase(Print(t), r.value) == t
  {
    PrintHasNoNul(t);
    var s: Line := Print(t);
    assert s[0..0 + |s|] == s;
    LineParses(s, 0, t, |s|);
  }
}
