/** The parser of `user/sh.c`, on the characters of a line. */
module ShellParser {
  import opened Common
  import opened Counting
  import opened ShellGrammar

  predicate IsSpace(c: char) {
    c == ' ' || c == '\t' || c == '\r' || c == '\n' || c == '\U{0B}'
  }

  predicate IsSymbol(c: char) {
    c == '<' || c == '|' || c == '>' || c == '&' || c == ';' || c == '(' || c == ')'
  }

  /** A character of a word. */
  predicate IsPlain(c: char) {
    !IsSpace(c) && !IsSymbol(c)
  }

  // The tokens of a line.

  function Skip(line: string, i: nat): (k: nat)
    requires i <= |line|
    ensures i <= k <= |line| && (forall j | i <= j < k :: IsSpace(line[j])) && (k < |line| ==> !IsSpace(line[k]))
    decreases |line| - i
  {
    if i < |line| && IsSpace(line[i]) then Skip(line, i + 1) else i
  }

  function WordEnd(line: string, i: nat): (k: nat)
    requires i <= |line|
    ensures i <= k <= |line| && (forall j | i <= j < k :: IsPlain(line[j])) && (k < |line| ==> !IsPlain(line[k]))
    decreases |line| - i
  {
    if i < |line| && IsPlain(line[i]) then WordEnd(line, i + 1) else i
  }

  /** The token that begins at a character other than white space. */
  function TokenAt(line: string, i: nat): (t: Token)
    requires i < |line| && !IsSpace(line[i])
    ensures t.start == i < t.end <= |line|
  {
    if line[i] == '>' && i + 1 < |line| && line[i + 1] == '>' then Token('+', i, i + 2)
    else if IsSymbol(line[i]) then Token(line[i], i, i + 1)
    else Token('a', i, WordEnd(line, i))
  }

  function Tokens(line: string, i: nat): seq<Token>
    requires i <= |line|
    decreases |line| - i
  {
    var k := Skip(line, i);
    if k == |line| then [] else [TokenAt(line, k)] + Tokens(line, TokenAt(line, k).end)
  }

  /** White space does not matter. */
  lemma SkipTokens(line: string, i: nat)
    requires i <= |line|
    ensures Tokens(line, Skip(line, i)) == Tokens(line, i)
    ensures Skip(line, Skip(line, i)) == Skip(line, i)
  {
  }

  lemma FirstToken(line: string, i: nat)
    requires i <= |line|
    ensures
      var k := Skip(line, i);
      if k == |line| then Tokens(line, i) == []
      else
        && Tokens(line, i) != [] && Tokens(line, i)[0] == TokenAt(line, k)
        && Tokens(line, i)[1..] == Tokens(line, TokenAt(line, k).end)
  {
  }

  /** The first character tells the kind. */
  lemma KindAt(line: string, i: nat)
    requires i < |line| && !IsSpace(line[i])
    ensures
      var k := TokenAt(line, i).kind;
      && (IsSymbol(line[i]) && line[i] != '>' ==> k == line[i])
      && (line[i] == '>' <==> k == '>' || k == '+')
      && (!IsSymbol(line[i]) <==> k == 'a')
      && (k != '+' && k != 'a' ==> k == line[i])
  {
  }

  /** Words of the line: not empty, plain throughout, and as long as they can be. */
  ghost predicate IsWord(line: string, t: Token) {
    && t.start < t.end <= |line|
    && (forall j | t.start <= j < t.end :: IsPlain(line[j]))
    && (t.end < |line| ==> !IsPlain(line[t.end]))
  }

  /** One after the other, without overlap. */
  ghost predicate InOrder(ws: seq<Token>) {
    forall j, k | 0 <= j < k < |ws| :: ws[j].end <= ws[k].start
  }

  lemma OrderedCons(t: Token, ws: seq<Token>)
    requires InOrder(ws) && forall w | w in ws :: t.end <= w.start
    ensures InOrder([t] + ws)
  {
    var all := [t] + ws;
    forall j, k | 0 <= j < k < |all| ensures all[j].end <= all[k].start {
      assert all[k] == ws[k - 1] && ws[k - 1] in ws;
      if j > 0 {
        assert all[j] == ws[j - 1];
      }
    }
  }

  lemma {:induction false} WordsOfLine(line: string, i: nat)
    requires i <= |line|
    ensures forall t | t in WordsIn(Tokens(line, i)) :: i <= t.start && IsWord(line, t)
    ensures InOrder(WordsIn(Tokens(line, i)))
    decreases |line| - i
  {
    hide Tokens, Skip;
    FirstToken(line, i);
    var k := Skip(line, i);
    if k < |line| {
      var t := TokenAt(line, k);
      assert t.kind == 'a' ==> IsWord(line, t) by { KindAt(line, k); }
      WordsOfLine(line, t.end);
      var all, ws := WordsIn(Tokens(line, i)), WordsIn(Tokens(line, t.end));
      assert all == (if t.kind == 'a' then [t] else []) + ws;
      if t.kind == 'a' {
        OrderedCons(t, ws);
      } else {
        assert all == ws;
      }
    }
  }

  // The lexer.

  method SkipSpace(line: string, at: nat) returns (s: nat)
    requires at <= |line|
    ensures s == Skip(line, at)
  {
    s := at;
    while s < |line| && IsSpace(line[s])
      invariant at <= s <= |line| && Skip(line, s) == Skip(line, at)
    {
      s := s + 1;
    }
  }

  /** The next token, if there is one, and the place after it and after white space. */
  method GetToken(line: string, at: nat) returns (tok: Option<Token>, next: nat)
    requires at <= |line|
    ensures at <= next <= |line|
    ensures Tokens(line, at) == [] ==> tok == None && Tokens(line, next) == []
    ensures Tokens(line, at) != [] ==>
      at < next && tok == Some(Tokens(line, at)[0]) && Tokens(line, next) == Tokens(line, at)[1..]
  {
    hide Tokens, Skip;
    var s := SkipSpace(line, at);
    FirstToken(line, at);
    var q := s;
    if s == |line| {
      SkipTokens(line, at);
      return None, s;
    }
    var kind := line[s];
    KindAt(line, s);
    if kind == '>' {
      s := s + 1;
      if s < |line| && line[s] == '>' {
        kind := '+';
        s := s + 1;
      }
    } else if IsSymbol(kind) {
      s := s + 1;
    } else {
      kind := 'a';
      while s < |line| && !IsSpace(line[s]) && !IsSymbol(line[s])
        invariant q <= s <= |line| && WordEnd(line, s) == WordEnd(line, q)
      {
        s := s + 1;
      }
    }
    tok := Some(Token(kind, q, s));
    next := SkipSpace(line, s);
    SkipTokens(line, s);
  }

  /** Whether the next character that is not white space is one of those given. */
  method Peek(line: string, at: nat, toks: string) returns (r: bool, s: nat)
    requires at <= |line|
    ensures s == Skip(line, at) && Tokens(line, s) == Tokens(line, at)
    ensures r <==> s < |line| && line[s] in toks
  {
    s := SkipSpace(line, at);
    SkipTokens(line, at);
    r := s < |line| && line[s] in toks;
  }

  // The parser.  None stands for a panic with a syntax error.

  /** The parser's answer and where it stopped, against what the tokens from `at` on parse to. */
  ghost predicate Matches(line: string, r: Option<Cmd>, next: nat, p: Option<Parsed<Cmd>>) {
    && (r.None? <==> p.None?)
    && (r.Some? ==> next <= |line| && p == Some(Parsed(r.value, Tokens(line, next))))
  }

  /** What one of the parser's tests says about the tokens to come. */
  lemma PeekKind(line: string, s: nat)
    requires s <= |line| && s == Skip(line, s)
    ensures s == |line| <==> Tokens(line, s) == []
    ensures s < |line| ==> var k := Tokens(line, s)[0].kind;
      && (line[s] == '<' || line[s] == '>' <==> IsOp(k))
      && (line[s] == '(' <==> k == '(') && (line[s] == ')' <==> k == ')')
      && (line[s] == '|' <==> k == '|') && (line[s] == '&' <==> k == '&') && (line[s] == ';' <==> k == ';')
  {
    hide Skip;
    FirstToken(line, s);
    if s < |line| {
      KindAt(line, s);
    }
  }

  method ParseRedirs(line: string, at: nat) returns (r: Option<seq<Redir>>, next: nat)
    requires at <= |line|
    ensures r.None? <==> DescendRedirs(Tokens(line, at)).None?
    ensures r.Some? ==>
      at <= next <= |line| && DescendRedirs(Tokens(line, at)) == Some(Parsed(r.value, Tokens(line, next)))
  {
    hide DescendRedirs, Tokens, Prepend, Skip;
    var rs: seq<Redir> := [];
    next := at;
    PrependFacts(rs, DescendRedirs(Tokens(line, at)));
    while true
      invariant at <= next <= |line|
      invariant DescendRedirs(Tokens(line, at)) == Prepend(rs, DescendRedirs(Tokens(line, next)))
      decreases |line| - next
    {
      var more;
      more, next := Peek(line, next, "<>");
      PeekKind(line, next);
      ghost var ts := Tokens(line, next);
      RedirsStep(ts);
      PrependFacts(rs, DescendRedirs(ts));
      if !more {
        return Some(rs), next;
      }
      var op, file;
      op, next := GetToken(line, next);
      file, next := GetToken(line, next);
      if file.None? || file.value.kind != 'a' {
        return None, next;
      }
      var d := Redir(ModeOf(op.value.kind), file.value);
      assert ts[2..] == ts[1..][1..] == Tokens(line, next);
      PrependMore(rs, d, DescendRedirs(ts[2..]));
      rs := rs + [d];
    }
  }

  lemma PrependFacts(rs: seq<Redir>, p: Option<Parsed<seq<Redir>>>)
    ensures Prepend(rs, p).None? <==> p.None?
    ensures rs == [] ==> Prepend(rs, p) == p
    ensures p.Some? && p.value.value == [] ==> Prepend(rs, p) == Some(Parsed(rs, p.value.rest))
  {
    if p.Some? {
      assert rs + [] == rs && [] + p.value.value == p.value.value;
    }
  }

  lemma PrependMore(rs: seq<Redir>, d: Redir, p: Option<Parsed<seq<Redir>>>)
    ensures Prepend(rs, Prepend([d], p)) == Prepend(rs + [d], p)
  {
    if p.Some? {
      assert rs + ([d] + p.value.value) == (rs + [d]) + p.value.value;
    }
  }

  ghost function PrependItems(words: seq<Token>, rs: seq<Redir>, p: Option<Parsed<Items>>): Option<Parsed<Items>> {
    if p.None? then None
    else Some(Parsed(Items(words + p.value.value.words, rs + p.value.value.redirs), p.value.rest))
  }

  lemma ItemsFacts(words: seq<Token>, rs: seq<Redir>, p: Option<Parsed<Items>>)
    ensures PrependItems(words, rs, p).None? <==> p.None?
    ensures words == [] && rs == [] ==> PrependItems(words, rs, p) == p
    ensures p.Some? && p.value.value == Items([], []) ==>
            PrependItems(words, rs, p) == Some(Parsed(Items(words, rs), p.value.rest))
  {
    if p.Some? {
      assert words + [] == words && rs + [] == rs;
      assert [] + p.value.value.words == p.value.value.words && [] + p.value.value.redirs == p.value.value.redirs;
    }
  }

  lemma ItemsMore(words: seq<Token>, rs: seq<Redir>, w: Token, more: seq<Redir>, p: Option<Parsed<Items>>)
    ensures PrependItems(words, rs, PrependItems([w], more, p)) == PrependItems(words + [w], rs + more, p)
  {
    if p.Some? {
      assert words + ([w] + p.value.value.words) == (words + [w]) + p.value.value.words;
      assert rs + (more + p.value.value.redirs) == (rs + more) + p.value.value.redirs;
    }
  }

  lemma ArgsUnfold(ts: seq<Token>, argc: nat)
    ensures AfterExec(ts) ==> DescendArgs(ts, argc) == Some(Parsed(Items([], []), ts))
    ensures !AfterExec(ts) ==>
      DescendArgs(ts, argc) ==
      if ts[0].kind != 'a' || argc + 1 >= MAXARGS || DescendRedirs(ts[1..]).None? then None
      else PrependItems([ts[0]], DescendRedirs(ts[1..]).value.value,
                        DescendArgs(DescendRedirs(ts[1..]).value.rest, argc + 1))
  {
    hide DescendRedirs;
  }

  /** The words of a simple command and the redirections among them. */
  method ParseArgs(line: string, at: nat, first: seq<Redir>) returns (r: Option<Cmd>, next: nat)
    requires at <= |line|
    ensures r.Some? ==> at <= next
    ensures Matches(line, r, next, Simply(first, DescendArgs(Tokens(line, at), 0)))
  {
    hide DescendRedirs, DescendArgs, Tokens, Skip, PrependItems, Redirects;
    var argv: seq<Token>, redirs := [], first;
    ghost var rs: seq<Redir> := [];
    next := at;
    ItemsFacts(argv, rs, DescendArgs(Tokens(line, at), 0));
    while true
      invariant at <= next <= |line| && |argv| < MAXARGS && redirs == first + rs
      invariant DescendArgs(Tokens(line, at), 0) == PrependItems(argv, rs, DescendArgs(Tokens(line, next), |argv|))
      decreases |line| - next
    {
      var stop;
      stop, next := Peek(line, next, "|)&;");
      PeekKind(line, next);
      ghost var ts := Tokens(line, next);
      ArgsUnfold(ts, |argv|);
      ItemsFacts(argv, rs, DescendArgs(ts, |argv|));
      if stop {
        break;
      }
      var tok;
      tok, next := GetToken(line, next);
      if tok.None? {
        break;
      }
      if tok.value.kind != 'a' {
        return None, next;
      }
      if |argv| + 1 >= MAXARGS {
        return None, next;
      }
      var more;
      more, next := ParseRedirs(line, next);
      if more.None? {
        return None, next;
      }
      ItemsMore(argv, rs, tok.value, more.value, DescendArgs(Tokens(line, next), |argv| + 1));
      argv, redirs, rs := argv + [tok.value], redirs + more.value, rs + more.value;
    }
    r := Some(Redirects(Exec(argv), redirs));
  }

  ghost function Simply(first: seq<Redir>, p: Option<Parsed<Items>>): Option<Parsed<Cmd>> {
    if p.None? then None
    else Some(Parsed(Redirects(Exec(p.value.value.words), first + p.value.value.redirs), p.value.rest))
  }

  lemma ExecUnfold(ts: seq<Token>)
    ensures !Next(ts, '(') ==>
      DescendExec(ts) ==
      if DescendRedirs(ts).None? then None
      else Simply(DescendRedirs(ts).value.value, DescendArgs(DescendRedirs(ts).value.rest, 0))
    ensures Next(ts, '(') ==>
      var l := DescendLine(ts[1..]);
      DescendExec(ts) ==
      if l.None? || !Next(l.value.rest, ')') || DescendRedirs(l.value.rest[1..]).None? then None
      else
        var d := DescendRedirs(l.value.rest[1..]).value;
        Some(Parsed(Redirects(l.value.value, d.value), d.rest))
  {
    hide DescendLine, DescendArgs, DescendRedirs, Redirects;
  }

  method ParseExec(line: string, at: nat) returns (r: Option<Cmd>, next: nat)
    requires at <= |line|
    ensures r.Some? ==> at <= next
    ensures Matches(line, r, next, DescendExec(Tokens(line, at)))
    decreases |line| - at, 1
  {
    hide DescendRedirs, DescendArgs, DescendExec, DescendLine, Tokens, Skip, Redirects;
    var block, s := Peek(line, at, "(");
    PeekKind(line, s);
    ExecUnfold(Tokens(line, s));
    if block {
      r, next := ParseBlock(line, s);
      return;
    }
    var d;
    d, s := ParseRedirs(line, s);
    if d.None? {
      return None, s;
    }
    r, next := ParseArgs(line, s, d.value);
  }

  method ParseBlock(line: string, at: nat) returns (r: Option<Cmd>, next: nat)
    requires at <= |line|
    ensures r.Some? ==> at <= next && Next(Tokens(line, at), '(')
    ensures Next(Tokens(line, at), '(') ==> Matches(line, r, next, DescendExec(Tokens(line, at)))
    decreases |line| - at, 0
  {
    hide DescendRedirs, DescendArgs, DescendExec, DescendLine, Tokens, Skip, Redirects;
    ExecUnfold(Tokens(line, at));
    var open, s := Peek(line, at, "(");
    PeekKind(line, s);
    if !open {
      return None, s;
    }
    var tok;
    tok, s := GetToken(line, s);
    var l;
    l, s := ParseLine(line, s);
    if l.None? {
      return None, s;
    }
    var close;
    close, s := Peek(line, s, ")");
    PeekKind(line, s);
    if !close {
      return None, s;
    }
    tok, s := GetToken(line, s);
    var d;
    d, next := ParseRedirs(line, s);
    if d.None? {
      return None, next;
    }
    r := Some(Redirects(l.value, d.value));
  }

  method ParsePipe(line: string, at: nat) returns (r: Option<Cmd>, next: nat)
    requires at <= |line|
    ensures r.Some? ==> at <= next
    ensures Matches(line, r, next, DescendPipe(Tokens(line, at)))
    decreases |line| - at, 2
  {
    hide DescendExec, Tokens, Skip;
    r, next := ParseExec(line, at);
    if r.None? {
      return;
    }
    var more;
    more, next := Peek(line, next, "|");
    PeekKind(line, next);
    if more {
      var tok;
      tok, next := GetToken(line, next);
      var right;
      right, next := ParsePipe(line, next);
      if right.None? {
        return None, next;
      }
      r := Some(Pipe(r.value, right.value));
    }
  }

  method ParseLine(line: string, at: nat) returns (r: Option<Cmd>, next: nat)
    requires at <= |line|
    ensures r.Some? ==> at <= next
    ensures Matches(line, r, next, DescendLine(Tokens(line, at)))
    decreases |line| - at, 3
  {
    hide DescendPipe, Tokens, Skip;
    r, next := ParsePipe(line, at);
    if r.None? {
      return;
    }
    ghost var a := DescendAmps(r.value, Tokens(line, next));
    var cmd := r.value;
    while true
      invariant at <= next <= |line| && a == DescendAmps(cmd, Tokens(line, next))
      decreases |line| - next
    {
      var amp;
      amp, next := Peek(line, next, "&");
      PeekKind(line, next);
      if !amp {
        break;
      }
      var tok;
      tok, next := GetToken(line, next);
      cmd := Back(cmd);
    }
    assert a == Parsed(cmd, Tokens(line, next));
    var semi;
    semi, next := Peek(line, next, ";");
    PeekKind(line, next);
    r := Some(cmd);
    if semi {
      var tok;
      tok, next := GetToken(line, next);
      var right;
      right, next := ParseLine(line, next);
      if right.None? {
        return None, next;
      }
      r := Some(List(cmd, right.value));
    }
  }

  // Cutting the line into strings.

  const NUL := '\0'

  /** The string that begins at `i`: up to the first NUL. */
  function CString(s: string, i: nat): string
    requires i <= |s|
    decreases |s| - i
  {
    if i < |s| && s[i] != NUL then [s[i]] + CString(s, i + 1) else []
  }

  lemma {:induction false} CStringIs(s: string, i: nat, j: nat)
    requires i <= j < |s| && s[j] == NUL && forall k | i <= k < j :: s[k] != NUL
    ensures CString(s, i) == s[i..j]
    decreases j - i
  {
    if i < j {
      CStringIs(s, i + 1, j);
      assert s[i..j] == [s[i]] + s[i + 1..j];
    }
  }

  ghost predicate EndsAt(c: Cmd, i: int) {
    exists t :: t in Spans(c) && t.end == i
  }

  /** A NUL goes after every word of the command, and nowhere else. */
  ghost predicate Nulled(c: Cmd, was: string, now: string) {
    && |now| == |was|
    && forall i | 0 <= i < |now| :: now[i] == if EndsAt(c, i) then NUL else was[i]
  }

  lemma NulledTwo(a: Cmd, b: Cmd, c: Cmd, s0: string, s1: string, s2: string)
    requires Nulled(a, s0, s1) && Nulled(b, s1, s2) && Spans(c) == Spans(a) + Spans(b)
    ensures Nulled(c, s0, s2)
  {
    forall i | 0 <= i < |s2| ensures EndsAt(c, i) <==> EndsAt(a, i) || EndsAt(b, i) {
    }
  }

  method Nulterminate(buf: array<char>, c: Cmd)
    requires forall t | t in Spans(c) :: t.end < buf.Length
    modifies buf
    ensures Nulled(c, old(buf[..]), buf[..])
    decreases c
  {
    match c {
      case Exec(argv) =>
        for i := 0 to |argv|
          invariant forall k | 0 <= k < buf.Length ::
            buf[k] == if exists j | 0 <= j < i :: argv[j].end == k then NUL else old(buf[k])
        {
          buf[argv[i].end] := NUL;
        }
      case Redirected(cmd, redir) =>
        Nulterminate(buf, cmd);
        ghost var mid := buf[..];
        buf[redir.file.end] := NUL;
        NulledTwo(cmd, Exec([redir.file]), c, old(buf[..]), mid, buf[..]);
      case Pipe(left, right) =>
        Nulterminate(buf, left);
        ghost var mid := buf[..];
        Nulterminate(buf, right);
        NulledTwo(left, right, c, old(buf[..]), mid, buf[..]);
      case List(left, right) =>
        Nulterminate(buf, left);
        ghost var mid := buf[..];
        Nulterminate(buf, right);
        NulledTwo(left, right, c, old(buf[..]), mid, buf[..]);
      case Back(cmd) =>
        Nulterminate(buf, cmd);
    }
  }

  // What an accepted line gives.

  lemma {:induction false} OnceEach(ws: seq<Token>, t: Token)
    requires Distinct(ws)
    ensures multiset(ws)[t] <= 1
  {
    if ws != [] {
      OnceEach(ws[1..], t);
      assert ws == [ws[0]] + ws[1..];
      if t == ws[0] {
        assert t !in ws[1..];
      }
    }
  }

  lemma TwiceIn(xs: seq<Token>, i: nat, j: nat)
    requires i < j < |xs| && xs[i] == xs[j]
    ensures multiset(xs)[xs[i]] >= 2
  {
    assert xs == xs[..i + 1] + xs[i + 1..];
    assert xs[i] in xs[..i + 1] && xs[j] in xs[i + 1..];
  }

  predicate Apart(a: Token, b: Token) {
    a.end <= b.start || b.end <= a.start
  }

  /** The words of an accepted command are words of the line, no two of which overlap. */
  lemma SpansOk(line: string, c: Cmd)
    requires DescendLine(Tokens(line, 0)) == Some(Parsed(c, []))
    ensures forall t | t in Spans(c) :: IsWord(line, t)
    ensures forall i, j | 0 <= i < j < |Spans(c)| :: Apart(Spans(c)[i], Spans(c)[j])
  {
    hide DescendLine, Tokens, Spans, WordsIn, IsWord;
    var ts, ws := Tokens(line, 0), WordsIn(Tokens(line, 0));
    WordsKept(ts, c);
    WordsOfLine(line, 0);
    forall t | t in Spans(c) ensures t in ws && IsWord(line, t) {
      assert t in multiset(Spans(c));
    }
    forall i, j | 0 <= i < j < |Spans(c)| ensures Apart(Spans(c)[i], Spans(c)[j]) {
      var a, b := Spans(c)[i], Spans(c)[j];
      assert a in ws && b in ws;
      WordsDiffer(line, ws);
      OnceEach(ws, a);
      if a == b {
        TwiceIn(Spans(c), i, j);
      }
      var k :| 0 <= k < |ws| && ws[k] == a;
      var m :| 0 <= m < |ws| && ws[m] == b;
    }
  }

  lemma WordsDiffer(line: string, ws: seq<Token>)
    requires InOrder(ws) && forall t | t in ws :: IsWord(line, t)
    ensures Distinct(ws)
  {
    forall i, j | 0 <= i < j < |ws| ensures ws[i] != ws[j] {
      assert ws[i] in ws && ws[j] in ws;
    }
  }

  /** After the NULs are in place, the string at each word is that word. */
  lemma StringsAreWords(line: string, c: Cmd, was: string, now: string, t: Token)
    requires DescendLine(Tokens(line, 0)) == Some(Parsed(c, []))
    requires |line| < |was| && was[..|line|] == line && (forall i | 0 <= i < |line| :: line[i] != NUL)
    requires Nulled(c, was, now) && t in Spans(c)
    ensures t.start < t.end <= |line| && CString(now, t.start) == line[t.start..t.end]
  {
    hide DescendLine, Tokens, Spans, IsSpace, IsSymbol;
    SpansOk(line, c);
    assert IsWord(line, t);
    assert EndsAt(c, t.end);
    forall k | t.start <= k < t.end ensures now[k] == line[k] {
      assert IsPlain(line[k]);
      assert !EndsAt(c, k);
    }
    CStringIs(now, t.start, t.end);
    assert now[t.start..t.end] == line[t.start..t.end];
  }

  method StrLen(buf: array<char>) returns (n: nat)
    requires exists k :: 0 <= k < buf.Length && buf[k] == NUL
    ensures n < buf.Length && buf[n] == NUL && forall k | 0 <= k < n :: buf[k] != NUL
  {
    n := 0;
    while buf[n] != NUL
      invariant n < buf.Length && forall k | 0 <= k < n :: buf[k] != NUL
      decreases buf.Length - n
    {
      n := n + 1;
    }
  }

  /** The command of the line in `buf`, with its words cut out as strings; none for a syntax error. */
  method ParseCmd(buf: array<char>) returns (r: Option<Cmd>, ghost line: string)
    requires exists k :: 0 <= k < buf.Length && buf[k] == NUL
    modifies buf
    ensures |line| < buf.Length && line == old(buf[..|line|]) && old(buf[|line|]) == NUL && NUL !in line
    ensures r.Some? ==> Derives(Tokens(line, 0), r.value)
    ensures r.None? ==> (forall c: Cmd :: !Derives(Tokens(line, 0), c)) && buf[..] == old(buf[..])
    ensures r.Some? ==> forall t | t in Spans(r.value) :: IsWord(line, t)
    ensures r.Some? ==> forall i, j | 0 <= i < j < |Spans(r.value)| :: Apart(Spans(r.value)[i], Spans(r.value)[j])
    ensures r.Some? ==> multiset(Spans(r.value)) == multiset(WordsIn(Tokens(line, 0)))
    ensures r.Some? ==> forall t | t in Spans(r.value) :: StringIs(buf[..], t, line)
  {
    hide DescendLine, Tokens, Spans, Derives, IsWord, Nulled, Skip;
    var n := StrLen(buf);
    var text := buf[..n];
    line := text;
    ghost var was := buf[..];
    var c, s := ParseLine(text, 0);
    Verdict(line, c, s);
    if c.None? {
      return None, line;
    }
    var more;
    more, s := Peek(text, s, "");
    if s != n {
      return None, line;
    }
    SpansOk(line, c.value);
    WordsKept(Tokens(line, 0), c.value);
    forall t | t in Spans(c.value) ensures t.end < buf.Length {
      WordEnds(line, t);
    }
    Nulterminate(buf, c.value);
    forall t | t in Spans(c.value) ensures StringIs(buf[..], t, line) {
      StringsAreWords(line, c.value, was, buf[..], t);
    }
    r := c;
  }

  /** The line is accepted exactly if nothing but white space is left. */
  lemma Verdict(line: string, c: Option<Cmd>, s: nat)
    requires Matches(line, c, s, DescendLine(Tokens(line, 0)))
    ensures c.Some? && Skip(line, s) == |line| ==>
      Derives(Tokens(line, 0), c.value) && DescendLine(Tokens(line, 0)) == Some(Parsed(c.value, []))
    ensures c.None? || Skip(line, s) < |line| ==> forall d: Cmd :: !Derives(Tokens(line, 0), d)
  {
    hide DescendLine, Tokens, Derives, Skip;
    if c.Some? {
      FirstToken(line, s);
      ParsesGrammar(Tokens(line, 0), c.value);
    }
    forall d: Cmd ensures Derives(Tokens(line, 0), d) <==> DescendLine(Tokens(line, 0)) == Some(Parsed(d, [])) {
      ParsesGrammar(Tokens(line, 0), d);
    }
  }

  lemma WordEnds(line: string, t: Token)
    requires IsWord(line, t)
    ensures t.end <= |line|
  {
  }

  /** The string at the word is the word. */
  ghost predicate StringIs(s: string, t: Token, line: string) {
    t.start < t.end <= |line| && t.start <= |s| && CString(s, t.start) == line[t.start..t.end]
  }
}
