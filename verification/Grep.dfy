/**
  The regular expression matcher of grep.c against the language its patterns describe.
  A C string is the sequence before its terminating NUL, and reading at its
  length yields the NUL.
 */
module Grep {

  type CString = s: string | '\0' !in s

  function At(s: CString, i: nat): char
    requires i <= |s|
  {
    if i < |s| then s[i] else '\0'
  }

  // ---------- what a pattern means ----------

  datatype Item = One(c: char) | Star(c: char)

  /** A pattern after its '^': a sequence of items, and whether a '$' pins the end. */
  datatype Pattern = Pattern(items: seq<Item>, atEnd: bool)

  function Parse(re: CString): Pattern
    decreases |re|
  {
    if re == "" then Pattern([], false)
    else if |re| > 1 && re[1] == '*' then
      var p := Parse(re[2..]);
      Pattern([Star(re[0])] + p.items, p.atEnd)
    else if re == "$" then Pattern([], true)
    else
      var p := Parse(re[1..]);
      Pattern([One(re[0])] + p.items, p.atEnd)
  }

  predicate Accepts(c: char, x: char) {
    c == '.' || c == x
  }

  predicate AllAccepted(c: char, w: string) {
    forall i :: 0 <= i < |w| ==> Accepts(c, w[i])
  }

  /** The language of a sequence of items: one accepted character, or any number of them, for each. */
  ghost predicate InLanguage(items: seq<Item>, w: string)
    decreases |items|
  {
    if items == [] then w == ""
    else
      match items[0]
      case One(c) => w != "" && Accepts(c, w[0]) && InLanguage(items[1..], w[1..])
      case Star(c) => exists k :: 0 <= k <= |w| && AllAccepted(c, w[..k]) && InLanguage(items[1..], w[k..])
  }

  /** Some prefix of the text, all of it if the end is pinned, is in the language. */
  ghost predicate MatchesPrefix(p: Pattern, text: string) {
    exists k :: 0 <= k <= |text| && InLanguage(p.items, text[..k]) && (p.atEnd ==> k == |text|)
  }

  /** What grep promises: a substring of the text is in the language, placed as '^' and '$' demand. */
  ghost predicate Matches(re: CString, text: CString) {
    if re != "" && re[0] == '^' then MatchesPrefix(Parse(re[1..]), text)
    else exists i :: 0 <= i <= |text| && MatchesPrefix(Parse(re), text[i..])
  }

  /** The same with the substring named. */
  lemma MatchesSubstring(re: CString, text: CString)
    ensures var anchored := re != "" && re[0] == '^';
            var p := Parse(if anchored then re[1..] else re);
            Matches(re, text) <==>
            exists i, j :: 0 <= i <= j <= |text| && InLanguage(p.items, text[i..j])
                           && (anchored ==> i == 0) && (p.atEnd ==> j == |text|)
  {
    var anchored := re != "" && re[0] == '^';
    var p := Parse(if anchored then re[1..] else re);
    if Matches(re, text) {
      var i :| 0 <= i <= |text| && (anchored ==> i == 0) && MatchesPrefix(p, if anchored then text else text[i..]);
      var t := text[i..];
      assert anchored ==> t == text;
      var k :| 0 <= k <= |t| && InLanguage(p.items, t[..k]) && (p.atEnd ==> k == |t|);
      assert text[i..i + k] == t[..k];
    }
    if i, j :|
      0 <= i <= j <= |text| && InLanguage(p.items, text[i..j])
      && (anchored ==> i == 0) && (p.atEnd ==> j == |text|)
    {
      var t := text[i..];
      assert text[i..j] == t[..j - i];
      assert MatchesPrefix(p, t);
      assert anchored ==> t == text;
    }
  }

  // ---------- how the matcher decides it ----------

  lemma OneStep(p: Pattern, c: char, text: string)
    ensures MatchesPrefix(Pattern([One(c)] + p.items, p.atEnd), text)
        <==> text != "" && Accepts(c, text[0]) && MatchesPrefix(p, text[1..])
  {
    var q := Pattern([One(c)] + p.items, p.atEnd);
    assert q.items[1..] == p.items;
    if k :| 0 <= k <= |text| && InLanguage(q.items, text[..k]) && (q.atEnd ==> k == |text|) {
      assert text[..k][1..] == text[1..][..k - 1];
    }
    if text != "" && Accepts(c, text[0]) && MatchesPrefix(p, text[1..]) {
      var k :| 0 <= k <= |text| - 1 && InLanguage(p.items, text[1..][..k]) && (p.atEnd ==> k == |text| - 1);
      assert text[..k + 1][1..] == text[1..][..k];
      assert InLanguage(q.items, text[..k + 1]);
    }
  }

  lemma StarStep(p: Pattern, c: char, text: string)
    ensures MatchesPrefix(Pattern([Star(c)] + p.items, p.atEnd), text)
        <==> exists k :: 0 <= k <= |text| && AllAccepted(c, text[..k]) && MatchesPrefix(p, text[k..])
  {
    var q := Pattern([Star(c)] + p.items, p.atEnd);
    assert q.items[1..] == p.items;
    if n :| 0 <= n <= |text| && InLanguage(q.items, text[..n]) && (q.atEnd ==> n == |text|) {
      var w := text[..n];
      var k :| 0 <= k <= |w| && AllAccepted(c, w[..k]) && InLanguage(p.items, w[k..]);
      assert w[..k] == text[..k] && w[k..] == text[k..][..n - k];
      assert MatchesPrefix(p, text[k..]);
    }
    if k :| 0 <= k <= |text| && AllAccepted(c, text[..k]) && MatchesPrefix(p, text[k..]) {
      var t := text[k..];
      var n :| 0 <= n <= |t| && InLanguage(p.items, t[..n]) && (p.atEnd ==> n == |t|);
      var w := text[..k + n];
      assert w[..k] == text[..k] && w[k..] == t[..n];
      assert InLanguage(q.items, w);
    }
  }

  lemma EmptyStep(p: Pattern, text: string)
    requires p.items == []
    ensures MatchesPrefix(p, text) <==> (p.atEnd ==> text == "")
  {
    assert InLanguage([], text[..0]);
    assert forall k :: 0 <= k <= |text| && InLanguage([], text[..k]) ==> k == 0;
  }

  method MatchHere(re: CString, text: CString) returns (found: bool)
    ensures found == MatchesPrefix(Parse(re), text)
    decreases |re|, 0
  {
    if At(re, 0) == '\0' {
      EmptyStep(Parse(re), text);
      return true;
    }
    if At(re, 1) == '*' {
      found := MatchStar(re[0], re[2..], text);
      StarStep(Parse(re[2..]), re[0], text);
      return;
    }
    if re[0] == '$' && At(re, 1) == '\0' {
      assert re == "$";
      EmptyStep(Parse(re), text);
      return At(text, 0) == '\0';
    }
    OneStep(Parse(re[1..]), re[0], text);
    if At(text, 0) != '\0' && (re[0] == '.' || re[0] == text[0]) {
      found := MatchHere(re[1..], text[1..]);
      return;
    }
    return false;
  }

  /** matchstar: c* followed by re at the beginning of the text. */
  method MatchStar(c: char, re: CString, text: CString) returns (found: bool)
    ensures found <==> exists k :: 0 <= k <= |text| && AllAccepted(c, text[..k]) && MatchesPrefix(Parse(re), text[k..])
    decreases |re|, 1
  {
    var p := 0;
    while true
      invariant 0 <= p <= |text| && AllAccepted(c, text[..p])
      invariant forall k :: 0 <= k < p ==> !MatchesPrefix(Parse(re), text[k..])
      decreases |text| - p
    {
      found := MatchHere(re, text[p..]);
      if found {
        return;
      }
      if !(At(text, p) != '\0' && (text[p] == c || c == '.')) {
        assert forall k :: p < k <= |text| ==> !Accepts(c, text[..k][p]);
        return false;
      }
      p := p + 1;
    }
  }

  method Match(re: CString, text: CString) returns (found: bool)
    ensures found == Matches(re, text)
  {
    if At(re, 0) == '^' {
      found := MatchHere(re[1..], text);
      return;
    }
    var p := 0;
    while true
      invariant 0 <= p <= |text|
      invariant forall i :: 0 <= i < p ==> !MatchesPrefix(Parse(re), text[i..])
      decreases |text| - p
    {
      found := MatchHere(re, text[p..]);
      if found {
        return;
      }
      if At(text, p) == '\0' {
        return false;
      }
      p := p + 1;
    }
  }
}
