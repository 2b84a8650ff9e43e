/** The command language of `user/sh.c`: its tokens, its grammar, and commands. */
module ShellGrammar {
  import opened Common

  const MAXARGS := 10

  /** A token and the characters it stands for: a word is of kind `a`, `>>` of kind `+`. */
  datatype Token = Token(kind: char, start: nat, end: nat)

  /** How a redirection opens its file, and for which descriptor. */
  datatype Mode = Read | Truncate | Append

  datatype Redir = Redir(mode: Mode, file: Token)

  datatype Cmd =
    | Exec(argv: seq<Token>)
    | Redirected(cmd: Cmd, redir: Redir)
    | Pipe(left: Cmd, right: Cmd)
    | List(left: Cmd, right: Cmd)
    | Back(cmd: Cmd)

  // Derivations:  line -> pipe {&} [; line]      pipe -> exec [| pipe]
  //               exec -> ( line ) redirs | redirs {word redirs}      redirs -> {op word}

  datatype LineT = LineT(pipe: PipeT, amps: seq<Token>, tail: TailT)
  datatype TailT = NoTail | Semi(semi: Token, line: LineT)
  datatype PipeT = One(exec: ExecT) | Two(exec: ExecT, bar: Token, rest: PipeT)
  datatype ExecT = Block(open: Token, line: LineT, close: Token, redirs: seq<RedirT>)
                 | Simple(redirs: seq<RedirT>, args: seq<ArgT>)
  datatype ArgT = ArgT(word: Token, redirs: seq<RedirT>)
  datatype RedirT = RedirT(op: Token, file: Token)

  predicate IsOp(k: char) {
    k == '<' || k == '>' || k == '+'
  }

  predicate IsStop(k: char) {
    k == '|' || k == ')' || k == '&' || k == ';'
  }

  // Well-formed derivations: each token is of the kind its place asks for.

  predicate LineOk(t: LineT) {
    PipeOk(t.pipe) && (forall i | 0 <= i < |t.amps| :: t.amps[i].kind == '&') && TailOk(t.tail)
  }

  predicate TailOk(t: TailT) {
    t.Semi? ==> t.semi.kind == ';' && LineOk(t.line)
  }

  predicate PipeOk(t: PipeT) {
    ExecOk(t.exec) && (t.Two? ==> t.bar.kind == '|' && PipeOk(t.rest))
  }

  predicate ExecOk(t: ExecT) {
    match t
    case Block(open, line, close, redirs) => open.kind == '(' && LineOk(line) && close.kind == ')' && RedirsOk(redirs)
    case Simple(redirs, args) => RedirsOk(redirs) && ArgsOk(args) && |args| < MAXARGS
  }

  predicate RedirsOk(rs: seq<RedirT>) {
    forall i | 0 <= i < |rs| :: IsOp(rs[i].op.kind) && rs[i].file.kind == 'a'
  }

  predicate ArgsOk(xs: seq<ArgT>) {
    forall i | 0 <= i < |xs| :: xs[i].word.kind == 'a' && RedirsOk(xs[i].redirs)
  }

  // The tokens of a derivation.

  function LineYield(t: LineT): seq<Token> {
    PipeYield(t.pipe) + t.amps + TailYield(t.tail)
  }

  function TailYield(t: TailT): seq<Token> {
    if t.Semi? then [t.semi] + LineYield(t.line) else []
  }

  function PipeYield(t: PipeT): seq<Token> {
    ExecYield(t.exec) + if t.Two? then [t.bar] + PipeYield(t.rest) else []
  }

  function ExecYield(t: ExecT): seq<Token> {
    match t
    case Block(open, line, close, redirs) => [open] + LineYield(line) + [close] + RedirsYield(redirs)
    case Simple(redirs, args) => RedirsYield(redirs) + ArgsYield(args)
  }

  function RedirsYield(rs: seq<RedirT>): seq<Token> {
    if rs == [] then [] else [rs[0].op, rs[0].file] + RedirsYield(rs[1..])
  }

  function ArgsYield(xs: seq<ArgT>): seq<Token> {
    if xs == [] then [] else [xs[0].word] + RedirsYield(xs[0].redirs) + ArgsYield(xs[1..])
  }

  // What a derivation means.

  function LineCmd(t: LineT): Cmd {
    var c := Backs(PipeCmd(t.pipe), |t.amps|);
    if t.tail.Semi? then List(c, LineCmd(t.tail.line)) else c
  }

  function PipeCmd(t: PipeT): Cmd {
    if t.Two? then Pipe(ExecCmd(t.exec), PipeCmd(t.rest)) else ExecCmd(t.exec)
  }

  function ExecCmd(t: ExecT): Cmd {
    match t
    case Block(_, line, _, redirs) => Redirects(LineCmd(line), RedirsOf(redirs))
    case Simple(redirs, args) => Redirects(Exec(WordsOf(args)), RedirsOf(redirs) + ArgRedirs(args))
  }

  function Backs(c: Cmd, n: nat): Cmd {
    if n == 0 then c else Back(Backs(c, n - 1))
  }

  /** Redirections apply in the order written, the last outermost. */
  function Redirects(c: Cmd, rs: seq<Redir>): Cmd
    decreases |rs|
  {
    if rs == [] then c else Redirects(Redirected(c, rs[0]), rs[1..])
  }

  function ModeOf(k: char): Mode {
    if k == '<' then Read else if k == '>' then Truncate else Append
  }

  function RedirsOf(rs: seq<RedirT>): seq<Redir> {
    if rs == [] then [] else [Redir(ModeOf(rs[0].op.kind), rs[0].file)] + RedirsOf(rs[1..])
  }

  function WordsOf(xs: seq<ArgT>): seq<Token> {
    if xs == [] then [] else [xs[0].word] + WordsOf(xs[1..])
  }

  function ArgRedirs(xs: seq<ArgT>): seq<Redir> {
    if xs == [] then [] else RedirsOf(xs[0].redirs) + ArgRedirs(xs[1..])
  }

  // Recursive descent over tokens.

  datatype Parsed<T> = Parsed(value: T, rest: seq<Token>)

  predicate Next(ts: seq<Token>, k: char) {
    ts != [] && ts[0].kind == k
  }

  function DescendRedirs(ts: seq<Token>): (r: Option<Parsed<seq<Redir>>>)
    ensures r.Some? ==> |r.value.rest| <= |ts|
  {
    if ts == [] || !IsOp(ts[0].kind) then Some(Parsed([], ts))
    else if |ts| < 2 || ts[1].kind != 'a' then None
    else
      var r := DescendRedirs(ts[2..]);
      if r.None? then None
      else Some(Parsed([Redir(ModeOf(ts[0].kind), ts[1])] + r.value.value, r.value.rest))
  }

  datatype Items = Items(words: seq<Token>, redirs: seq<Redir>)

  /** The words of a simple command from the `argc`-th on, each with the redirections after it. */
  function DescendArgs(ts: seq<Token>, argc: nat): (r: Option<Parsed<Items>>)
    ensures r.Some? ==> |r.value.rest| <= |ts|
    decreases |ts|
  {
    if ts == [] || IsStop(ts[0].kind) then Some(Parsed(Items([], []), ts))
    else if ts[0].kind != 'a' || argc + 1 >= MAXARGS then None
    else
      var d := DescendRedirs(ts[1..]);
      if d.None? then None
      else
        var r := DescendArgs(d.value.rest, argc + 1);
        if r.None? then None
        else Some(Parsed(Items([ts[0]] + r.value.value.words, d.value.value + r.value.value.redirs), r.value.rest))
  }

  function DescendExec(ts: seq<Token>): (r: Option<Parsed<Cmd>>)
    ensures r.Some? ==> |r.value.rest| <= |ts|
    decreases |ts|, 0
  {
    if Next(ts, '(') then
      var l := DescendLine(ts[1..]);
      if l.None? || !Next(l.value.rest, ')') then None
      else
        var d := DescendRedirs(l.value.rest[1..]);
        if d.None? then None else Some(Parsed(Redirects(l.value.value, d.value.value), d.value.rest))
    else
      var d := DescendRedirs(ts);
      if d.None? then None
      else
        var a := DescendArgs(d.value.rest, 0);
        if a.None? then None
        else Some(Parsed(Redirects(Exec(a.value.value.words), d.value.value + a.value.value.redirs), a.value.rest))
  }

  function DescendPipe(ts: seq<Token>): (r: Option<Parsed<Cmd>>)
    ensures r.Some? ==> |r.value.rest| <= |ts|
    decreases |ts|, 1
  {
    var e := DescendExec(ts);
    if e.None? || !Next(e.value.rest, '|') then e
    else
      var p := DescendPipe(e.value.rest[1..]);
      if p.None? then None else Some(Parsed(Pipe(e.value.value, p.value.value), p.value.rest))
  }

  /** As many `&` as there are. */
  function DescendAmps(c: Cmd, ts: seq<Token>): (r: Parsed<Cmd>)
    ensures |r.rest| <= |ts|
    decreases |ts|
  {
    if Next(ts, '&') then DescendAmps(Back(c), ts[1..]) else Parsed(c, ts)
  }

  function DescendLine(ts: seq<Token>): (r: Option<Parsed<Cmd>>)
    ensures r.Some? ==> |r.value.rest| <= |ts|
    decreases |ts|, 2
  {
    var p := DescendPipe(ts);
    if p.None? then None
    else
      var a := DescendAmps(p.value.value, p.value.rest);
      if !Next(a.rest, ';') then Some(a)
      else
        var l := DescendLine(a.rest[1..]);
        if l.None? then None else Some(Parsed(List(a.value, l.value.value), l.value.rest))
  }

  // The parser finds a derivation exactly if there is one, and there is at most one meaning.

  // What may come after a simple command, a pipeline and a line.

  predicate AfterExec(ts: seq<Token>) {
    ts == [] || IsStop(ts[0].kind)
  }

  predicate AfterPipe(ts: seq<Token>) {
    AfterExec(ts) && !Next(ts, '|')
  }

  predicate AfterLine(ts: seq<Token>) {
    ts == [] || ts[0].kind == ')'
  }

  ghost function Prepend(rs: seq<Redir>, p: Option<Parsed<seq<Redir>>>): Option<Parsed<seq<Redir>>> {
    if p.None? then None else Some(Parsed(rs + p.value.value, p.value.rest))
  }

  lemma RedirsStep(ts: seq<Token>)
    ensures ts == [] || !IsOp(ts[0].kind) ==> DescendRedirs(ts) == Some(Parsed([], ts))
    ensures ts != [] && IsOp(ts[0].kind) ==>
      DescendRedirs(ts) ==
      if |ts| < 2 || ts[1].kind != 'a' then None
      else Prepend([Redir(ModeOf(ts[0].kind), ts[1])], DescendRedirs(ts[2..]))
  {
  }

  lemma {:induction false} RedirsComplete(rs: seq<RedirT>, rest: seq<Token>)
    requires RedirsOk(rs) && (rest == [] || !IsOp(rest[0].kind))
    ensures DescendRedirs(RedirsYield(rs) + rest) == Some(Parsed(RedirsOf(rs), rest))
  {
    hide DescendRedirs;
    if rs == [] {
      assert RedirsYield(rs) + rest == rest;
      RedirsStep(rest);
    } else {
      RedirsComplete(rs[1..], rest);
      var ts := RedirsYield(rs) + rest;
      assert ts[2..] == RedirsYield(rs[1..]) + rest;
      RedirsStep(ts);
    }
  }

  /** One word and the redirections after it. */
  lemma ArgsStep(ts: seq<Token>, argc: nat)
    requires ts != [] && !IsStop(ts[0].kind)
    ensures DescendArgs(ts, argc).Some? <==>
      && ts[0].kind == 'a' && argc + 1 < MAXARGS && DescendRedirs(ts[1..]).Some?
      && DescendArgs(DescendRedirs(ts[1..]).value.rest, argc + 1).Some?
    ensures DescendArgs(ts, argc).Some? ==>
      var d := DescendRedirs(ts[1..]).value;
      var r := DescendArgs(d.rest, argc + 1).value;
      DescendArgs(ts, argc) == Some(Parsed(Items([ts[0]] + r.value.words, d.value + r.value.redirs), r.rest))
  {
    hide DescendRedirs;
  }

  lemma ArgsEnd(ts: seq<Token>, argc: nat)
    requires AfterExec(ts)
    ensures DescendArgs(ts, argc) == Some(Parsed(Items([], []), ts))
  {
  }

  lemma ArgsSplit(xs: seq<ArgT>, rest: seq<Token>)
    requires ArgsOk(xs) && xs != [] && AfterExec(rest)
    ensures
      var ts, after := ArgsYield(xs) + rest, ArgsYield(xs[1..]) + rest;
      && ts != [] && ts[0] == xs[0].word && ts[0].kind == 'a' && ts[1..] == RedirsYield(xs[0].redirs) + after
      && (after == [] || !IsOp(after[0].kind))
    ensures RedirsOk(xs[0].redirs) && ArgsOk(xs[1..])
  {
    hide RedirsYield, RedirsOk;
    Regroup(xs[0].word, RedirsYield(xs[0].redirs), ArgsYield(xs[1..]), rest);
    ArgsFirst(xs[1..], rest);
  }

  lemma Regroup(w: Token, a: seq<Token>, b: seq<Token>, c: seq<Token>)
    ensures [w] + a + b + c == [w] + (a + (b + c))
  {
  }

  lemma ArgsFirst(xs: seq<ArgT>, rest: seq<Token>)
    requires ArgsOk(xs) && AfterExec(rest)
    ensures ArgsYield(xs) + rest == [] || !IsOp((ArgsYield(xs) + rest)[0].kind)
  {
    hide RedirsYield, RedirsOk;
    if xs != [] {
      Regroup(xs[0].word, RedirsYield(xs[0].redirs), ArgsYield(xs[1..]), rest);
    }
  }

  lemma {:induction false} ArgsComplete(xs: seq<ArgT>, rest: seq<Token>, argc: nat)
    requires ArgsOk(xs) && AfterExec(rest) && argc + |xs| < MAXARGS
    ensures DescendArgs(ArgsYield(xs) + rest, argc) == Some(Parsed(Items(WordsOf(xs), ArgRedirs(xs)), rest))
  {
    hide DescendArgs, DescendRedirs, RedirsYield, RedirsOf, RedirsOk, ArgsOk;
    if xs == [] {
      assert ArgsYield(xs) + rest == rest;
      ArgsEnd(rest, argc);
    } else {
      ArgsSplit(xs, rest);
      ArgsComplete(xs[1..], rest, argc + 1);
      RedirsComplete(xs[0].redirs, ArgsYield(xs[1..]) + rest);
      ArgsStep(ArgsYield(xs) + rest, argc);
    }
  }

  lemma SimpleComplete(redirs: seq<RedirT>, args: seq<ArgT>, rest: seq<Token>)
    requires RedirsOk(redirs) && ArgsOk(args) && |args| < MAXARGS && AfterExec(rest)
    ensures
      DescendExec(RedirsYield(redirs) + ArgsYield(args) + rest) ==
      Some(Parsed(Redirects(Exec(WordsOf(args)), RedirsOf(redirs) + ArgRedirs(args)), rest))
  {
    hide DescendArgs, DescendRedirs, DescendLine, RedirsOf, WordsOf, ArgRedirs, Redirects;
    var after := ArgsYield(args) + rest;
    var ts := RedirsYield(redirs) + ArgsYield(args) + rest;
    assert ts == RedirsYield(redirs) + after;
    assert !Next(ts, '(') && (after == [] || !IsOp(after[0].kind));
    RedirsComplete(redirs, after);
    ArgsComplete(args, rest, 0);
  }

  lemma {:induction false} ExecComplete(t: ExecT, rest: seq<Token>)
    requires ExecOk(t) && AfterExec(rest)
    ensures DescendExec(ExecYield(t) + rest) == Some(Parsed(ExecCmd(t), rest))
    decreases t, 0
  {
    hide DescendRedirs, DescendArgs, DescendPipe, DescendAmps, DescendLine, LineYield, TailYield, PipeYield,
      RedirsYield, ArgsYield, LineOk, TailOk, PipeOk, RedirsOk, ArgsOk, LineCmd, PipeCmd, Redirects,
      RedirsOf, WordsOf, ArgRedirs, Backs;
    match t
    case Block(open, line, close, redirs) =>
      var ts := ExecYield(t) + rest;
      var after := [close] + RedirsYield(redirs) + rest;
      assert ts[1..] == LineYield(line) + after;
      LineComplete(line, after);
      assert after[1..] == RedirsYield(redirs) + rest;
      RedirsComplete(redirs, rest);
    case Simple(redirs, args) =>
      SimpleComplete(redirs, args, rest);
  }

  lemma {:induction false} PipeComplete(t: PipeT, rest: seq<Token>)
    requires PipeOk(t) && AfterPipe(rest)
    ensures DescendPipe(PipeYield(t) + rest) == Some(Parsed(PipeCmd(t), rest))
    decreases t, 1
  {
    hide DescendRedirs, DescendArgs, DescendExec, DescendAmps, DescendLine, LineYield, TailYield, ExecYield,
      RedirsYield, ArgsYield, LineOk, TailOk, ExecOk, RedirsOk, ArgsOk, LineCmd, ExecCmd, Redirects,
      RedirsOf, WordsOf, ArgRedirs, Backs;
    var ts := PipeYield(t) + rest;
    if t.Two? {
      var after := [t.bar] + PipeYield(t.rest) + rest;
      assert ts == ExecYield(t.exec) + after;
      ExecComplete(t.exec, after);
      assert after[1..] == PipeYield(t.rest) + rest;
      PipeComplete(t.rest, rest);
    } else {
      assert ts == ExecYield(t.exec) + rest;
      ExecComplete(t.exec, rest);
    }
  }

  lemma {:induction false} AmpsComplete(c: Cmd, amps: seq<Token>, rest: seq<Token>)
    requires (forall i | 0 <= i < |amps| :: amps[i].kind == '&') && !Next(rest, '&')
    ensures DescendAmps(c, amps + rest) == Parsed(Backs(c, |amps|), rest)
    decreases |amps|
  {
    if amps == [] {
      assert amps + rest == rest;
    } else {
      assert (amps + rest)[1..] == amps[1..] + rest;
      AmpsComplete(Back(c), amps[1..], rest);
      BacksInside(c, |amps| - 1);
    }
  }

  lemma {:induction false} BacksInside(c: Cmd, n: nat)
    ensures Backs(Back(c), n) == Back(Backs(c, n))
  {
    if n > 0 {
      BacksInside(c, n - 1);
    }
  }

  lemma {:induction false} LineComplete(t: LineT, rest: seq<Token>)
    requires LineOk(t) && AfterLine(rest)
    ensures DescendLine(LineYield(t) + rest) == Some(Parsed(LineCmd(t), rest))
    decreases t, 2
  {
    hide DescendRedirs, DescendArgs, DescendExec, DescendPipe, DescendAmps, PipeYield, ExecYield, RedirsYield,
      ArgsYield, PipeOk, ExecOk, RedirsOk, ArgsOk, PipeCmd, ExecCmd, Redirects, RedirsOf, WordsOf,
      ArgRedirs, Backs;
    var tail := TailYield(t.tail) + rest;
    var after := t.amps + tail;
    assert LineYield(t) + rest == PipeYield(t.pipe) + after;
    PipeComplete(t.pipe, after);
    AmpsComplete(PipeCmd(t.pipe), t.amps, tail);
    if t.tail.Semi? {
      assert tail[1..] == LineYield(t.tail.line) + rest;
      LineComplete(t.tail.line, rest);
    } else {
      assert tail == rest;
    }
  }

  lemma {:induction false} RedirsSound(ts: seq<Token>) returns (rs: seq<RedirT>)
    requires DescendRedirs(ts).Some?
    ensures RedirsOk(rs) && ts == RedirsYield(rs) + DescendRedirs(ts).value.rest
    ensures DescendRedirs(ts).value.value == RedirsOf(rs)
    decreases |ts|
  {
    hide DescendRedirs;
    RedirsStep(ts);
    if ts == [] || !IsOp(ts[0].kind) {
      rs := [];
    } else {
      var more := RedirsSound(ts[2..]);
      rs := [RedirT(ts[0], ts[1])] + more;
      assert rs[1..] == more;
      assert ts == [ts[0], ts[1]] + ts[2..];
    }
  }

  lemma {:induction false} ArgsSound(ts: seq<Token>, argc: nat) returns (xs: seq<ArgT>)
    requires DescendArgs(ts, argc).Some?
    ensures ArgsOk(xs) && (xs != [] ==> argc + |xs| < MAXARGS)
    ensures ts == ArgsYield(xs) + DescendArgs(ts, argc).value.rest
    ensures DescendArgs(ts, argc).value.value == Items(WordsOf(xs), ArgRedirs(xs))
    decreases |ts|
  {
    hide DescendArgs, DescendRedirs, RedirsYield, RedirsOf;
    if ts == [] || IsStop(ts[0].kind) {
      ArgsEnd(ts, argc);
      xs := [];
    } else {
      ArgsStep(ts, argc);
      var rs := RedirsSound(ts[1..]);
      var rest := DescendRedirs(ts[1..]).value.rest;
      var more := ArgsSound(rest, argc + 1);
      xs := [ArgT(ts[0], rs)] + more;
      assert xs[1..] == more;
      assert ts == [ts[0]] + ts[1..];
    }
  }

  lemma {:induction false} ExecSound(ts: seq<Token>) returns (t: ExecT)
    requires DescendExec(ts).Some?
    ensures ExecOk(t) && ts == ExecYield(t) + DescendExec(ts).value.rest && DescendExec(ts).value.value == ExecCmd(t)
    decreases |ts|, 0
  {
    hide DescendRedirs, DescendArgs, DescendPipe, DescendAmps, DescendLine, LineYield, TailYield, PipeYield,
      RedirsYield, ArgsYield, LineOk, TailOk, PipeOk, RedirsOk, ArgsOk, LineCmd, PipeCmd, Redirects,
      RedirsOf, WordsOf, ArgRedirs, Backs;
    if Next(ts, '(') {
      var line := LineSound(ts[1..]);
      var after := DescendLine(ts[1..]).value.rest;
      var rs := RedirsSound(after[1..]);
      t := Block(ts[0], line, after[0], rs);
      assert ts == [ts[0]] + ts[1..];
      assert after == [after[0]] + after[1..];
    } else {
      var rs := RedirsSound(ts);
      var xs := ArgsSound(DescendRedirs(ts).value.rest, 0);
      t := Simple(rs, xs);
    }
  }

  lemma {:induction false} PipeSound(ts: seq<Token>) returns (t: PipeT)
    requires DescendPipe(ts).Some?
    ensures PipeOk(t) && ts == PipeYield(t) + DescendPipe(ts).value.rest && DescendPipe(ts).value.value == PipeCmd(t)
    decreases |ts|, 1
  {
    hide DescendRedirs, DescendArgs, DescendExec, DescendAmps, DescendLine, LineYield, TailYield, ExecYield,
      RedirsYield, ArgsYield, LineOk, TailOk, ExecOk, RedirsOk, ArgsOk, LineCmd, ExecCmd, Redirects,
      RedirsOf, WordsOf, ArgRedirs, Backs;
    var e := ExecSound(ts);
    var after := DescendExec(ts).value.rest;
    if Next(after, '|') {
      var p := PipeSound(after[1..]);
      t := Two(e, after[0], p);
      assert after == [after[0]] + after[1..];
    } else {
      t := One(e);
    }
  }

  lemma {:induction false} AmpsSound(c: Cmd, ts: seq<Token>) returns (amps: seq<Token>)
    ensures forall i | 0 <= i < |amps| :: amps[i].kind == '&'
    ensures ts == amps + DescendAmps(c, ts).rest && DescendAmps(c, ts).value == Backs(c, |amps|)
    decreases |ts|
  {
    if Next(ts, '&') {
      var more := AmpsSound(Back(c), ts[1..]);
      amps := [ts[0]] + more;
      BacksInside(c, |more|);
      assert ts == [ts[0]] + ts[1..];
    } else {
      amps := [];
    }
  }

  lemma {:induction false} LineSound(ts: seq<Token>) returns (t: LineT)
    requires DescendLine(ts).Some?
    ensures LineOk(t) && ts == LineYield(t) + DescendLine(ts).value.rest && DescendLine(ts).value.value == LineCmd(t)
    decreases |ts|, 2
  {
    hide DescendRedirs, DescendArgs, DescendExec, DescendPipe, DescendAmps, PipeYield, ExecYield, RedirsYield,
      ArgsYield, PipeOk, ExecOk, RedirsOk, ArgsOk, PipeCmd, ExecCmd, Redirects, RedirsOf, WordsOf,
      ArgRedirs, Backs;
    var p := PipeSound(ts);
    var q := DescendPipe(ts).value;
    var amps := AmpsSound(q.value, q.rest);
    var a := DescendAmps(q.value, q.rest);
    if Next(a.rest, ';') {
      var l := LineSound(a.rest[1..]);
      t := LineT(p, amps, Semi(a.rest[0], l));
      assert a.rest == [a.rest[0]] + a.rest[1..];
    } else {
      t := LineT(p, amps, NoTail);
    }
  }

  /** A derivation of all the tokens, with the command it means. */
  ghost predicate Derives(ts: seq<Token>, c: Cmd) {
    exists t: LineT :: LineOk(t) && LineYield(t) == ts && LineCmd(t) == c
  }

  /** The parser accepts the sentences of the grammar, and for each there is one command. */
  lemma ParsesGrammar(ts: seq<Token>, c: Cmd)
    ensures DescendLine(ts) == Some(Parsed(c, [])) <==> Derives(ts, c)
  {
    if DescendLine(ts) == Some(Parsed(c, [])) {
      var t := LineSound(ts);
      assert ts == LineYield(t) + [];
    }
    if Derives(ts, c) {
      var t: LineT :| LineOk(t) && LineYield(t) == ts && LineCmd(t) == c;
      LineComplete(t, []);
      assert ts + [] == ts;
    }
  }

  // Every word of the line is in the command, once.

  /** The words a command holds. */
  function Spans(c: Cmd): seq<Token> {
    match c
    case Exec(argv) => argv
    case Redirected(cmd, redir) => Spans(cmd) + [redir.file]
    case Pipe(left, right) => Spans(left) + Spans(right)
    case List(left, right) => Spans(left) + Spans(right)
    case Back(cmd) => Spans(cmd)
  }

  function WordsIn(ts: seq<Token>): seq<Token> {
    if ts == [] then [] else (if ts[0].kind == 'a' then [ts[0]] else []) + WordsIn(ts[1..])
  }

  lemma WordsStep(ts: seq<Token>)
    ensures ts == [] ==> WordsIn(ts) == []
    ensures ts != [] ==> WordsIn(ts) == (if ts[0].kind == 'a' then [ts[0]] else []) + WordsIn(ts[1..])
  {
  }

  lemma {:induction false} WordsJoin(a: seq<Token>, b: seq<Token>)
    ensures WordsIn(a + b) == WordsIn(a) + WordsIn(b)
  {
    hide WordsIn;
    WordsStep(a);
    if a == [] {
      assert a + b == b;
    } else {
      WordsStep(a + b);
      assert (a + b)[0] == a[0] && (a + b)[1..] == a[1..] + b;
      WordsJoin(a[1..], b);
    }
  }

  lemma NoWord(t: Token)
    requires t.kind != 'a'
    ensures WordsIn([t]) == [] && WordsIn([]) == []
  {
  }

  lemma OneWord(t: Token)
    requires t.kind == 'a'
    ensures WordsIn([t]) == [t]
  {
  }

  function Files(rs: seq<Redir>): seq<Token> {
    if rs == [] then [] else [rs[0].file] + Files(rs[1..])
  }

  lemma {:induction false} FilesJoin(a: seq<Redir>, b: seq<Redir>)
    ensures Files(a + b) == Files(a) + Files(b)
  {
    if a == [] {
      assert a + b == b;
    } else {
      assert (a + b)[1..] == a[1..] + b;
      FilesJoin(a[1..], b);
    }
  }

  lemma {:induction false} RedirectsSpans(c: Cmd, rs: seq<Redir>)
    ensures Spans(Redirects(c, rs)) == Spans(c) + Files(rs)
    decreases |rs|
  {
    if rs != [] {
      RedirectsSpans(Redirected(c, rs[0]), rs[1..]);
    }
  }

  lemma {:induction false} RedirsWords(rs: seq<RedirT>)
    requires RedirsOk(rs)
    ensures WordsIn(RedirsYield(rs)) == Files(RedirsOf(rs))
  {
    if rs != [] {
      RedirsWords(rs[1..]);
      NoWord(rs[0].op);
      OneWord(rs[0].file);
      WordsJoin([rs[0].op], [rs[0].file]);
      assert [rs[0].op] + [rs[0].file] == [rs[0].op, rs[0].file];
      WordsJoin([rs[0].op, rs[0].file], RedirsYield(rs[1..]));
    }
  }

  lemma {:induction false} ArgsWords(xs: seq<ArgT>)
    requires ArgsOk(xs)
    ensures multiset(WordsIn(ArgsYield(xs))) == multiset(WordsOf(xs)) + multiset(Files(ArgRedirs(xs)))
  {
    hide RedirsYield, RedirsOf, RedirsOk;
    if xs != [] {
      var word, redirs, more := [xs[0].word], RedirsYield(xs[0].redirs), ArgsYield(xs[1..]);
      ArgsWords(xs[1..]);
      RedirsWords(xs[0].redirs);
      assert WordsIn(word) == word;
      WordsJoin(word, redirs);
      WordsJoin(word + redirs, more);
      FilesJoin(RedirsOf(xs[0].redirs), ArgRedirs(xs[1..]));
    }
  }

  lemma {:induction false} ExecWords(t: ExecT)
    requires ExecOk(t)
    ensures multiset(Spans(ExecCmd(t))) == multiset(WordsIn(ExecYield(t)))
    decreases t, 0
  {
    hide LineYield, TailYield, PipeYield, RedirsYield, ArgsYield, LineOk, TailOk, PipeOk, RedirsOk,
      ArgsOk, LineCmd, PipeCmd, Redirects, RedirsOf, WordsOf, ArgRedirs, Backs, WordsIn, Files;
    match t
    case Block(open, line, close, redirs) =>
      LineWords(line);
      RedirsWords(redirs);
      RedirectsSpans(LineCmd(line), RedirsOf(redirs));
      NoWord(open);
      NoWord(close);
      WordsJoin([open], LineYield(line));
      WordsJoin([open] + LineYield(line), [close]);
      WordsJoin([open] + LineYield(line) + [close], RedirsYield(redirs));
    case Simple(redirs, args) =>
      RedirsWords(redirs);
      ArgsWords(args);
      FilesJoin(RedirsOf(redirs), ArgRedirs(args));
      RedirectsSpans(Exec(WordsOf(args)), RedirsOf(redirs) + ArgRedirs(args));
      WordsJoin(RedirsYield(redirs), ArgsYield(args));
  }

  lemma {:induction false} PipeWords(t: PipeT)
    requires PipeOk(t)
    ensures multiset(Spans(PipeCmd(t))) == multiset(WordsIn(PipeYield(t)))
    decreases t, 1
  {
    hide LineYield, TailYield, ExecYield, RedirsYield, ArgsYield, LineOk, TailOk, ExecOk, RedirsOk,
      ArgsOk, LineCmd, ExecCmd, Redirects, RedirsOf, WordsOf, ArgRedirs, Backs, WordsIn, Files;
    ExecWords(t.exec);
    if t.Two? {
      PipeWords(t.rest);
      NoWord(t.bar);
      WordsJoin([t.bar], PipeYield(t.rest));
      WordsJoin(ExecYield(t.exec), [t.bar] + PipeYield(t.rest));
    } else {
      assert PipeYield(t) == ExecYield(t.exec);
    }
  }

  lemma {:induction false} AmpsWords(c: Cmd, amps: seq<Token>)
    requires forall i | 0 <= i < |amps| :: amps[i].kind == '&'
    ensures WordsIn(amps) == [] && Spans(Backs(c, |amps|)) == Spans(c)
    decreases |amps|
  {
    if amps != [] {
      AmpsWords(c, amps[1..]);
    }
  }

  lemma {:induction false} LineWords(t: LineT)
    requires LineOk(t)
    ensures multiset(Spans(LineCmd(t))) == multiset(WordsIn(LineYield(t)))
    decreases t, 2
  {
    hide PipeYield, ExecYield, RedirsYield, ArgsYield, PipeOk, ExecOk, RedirsOk, ArgsOk, PipeCmd,
      ExecCmd, Redirects, RedirsOf, WordsOf, ArgRedirs, Backs, WordsIn, Files;
    PipeWords(t.pipe);
    AmpsWords(PipeCmd(t.pipe), t.amps);
    WordsJoin(PipeYield(t.pipe), t.amps);
    WordsJoin(PipeYield(t.pipe) + t.amps, TailYield(t.tail));
    if t.tail.Semi? {
      LineWords(t.tail.line);
      NoWord(t.tail.semi);
      WordsJoin([t.tail.semi], LineYield(t.tail.line));
    } else {
      assert LineYield(t) == PipeYield(t.pipe) + t.amps;
    }
  }

  /** A command accepted holds exactly the words of its line. */
  lemma WordsKept(ts: seq<Token>, c: Cmd)
    requires DescendLine(ts) == Some(Parsed(c, []))
    ensures multiset(Spans(c)) == multiset(WordsIn(ts))
  {
    hide DescendLine, LineYield, LineOk, LineCmd, Spans, WordsIn;
    var t := LineSound(ts);
    assert LineYield(t) + [] == LineYield(t);
    LineWords(t);
  }
}
