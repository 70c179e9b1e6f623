/** The command language of the shell as a set of lines, independent of how the parser goes about it,
    and the proof that the parser of sh.c accepts exactly these lines and makes of each the command
    it means. */
module ShellLines {
  import opened ShellGrammar

  // ---------------------------------------------------------------- lines

  /** `op` is '<' or '>', or '+' for `>>`. */
  datatype Redirect = Redirect(op: char, file: string)

  datatype Piece = Arg(word: string) | Red(r: Redirect)

  /** A simple command is arguments and redirections in any order; a block may have redirections after
      it. */
  datatype Command = Simple(pieces: seq<Piece>) | Block(line: Line, reds: seq<Redirect>)

  datatype Pipeline = Single(cmd: Command) | Piped(cmd: Command, rest: Pipeline)

  /** A pipeline with some `&` after it, and possibly `;` and more. */
  datatype Line = Last(pipe: Pipeline, backs: nat) | Then(pipe: Pipeline, backs: nat, rest: Line)

  // ---------------------------------------------------------------- what a line means

  /** The first redirection is the innermost. */
  function Redirected(c: Cmd<string>, rs: seq<Redirect>): (r: Cmd<string>)
    decreases |rs|
  {
    if rs == [] then c else Redirected(Redir(c, rs[0].file, rs[0].op != '<'), rs[1..])
  }

  function Args(ps: seq<Piece>): (ws: seq<string>) {
    if ps == [] then [] else (if ps[0].Arg? then [ps[0].word] else []) + Args(ps[1..])
  }

  function Reds(ps: seq<Piece>): (rs: seq<Redirect>) {
    if ps == [] then [] else (if ps[0].Red? then [ps[0].r] else []) + Reds(ps[1..])
  }

  function Backed(c: Cmd<string>, k: nat): (r: Cmd<string>)
    decreases k
  {
    if k == 0 then c else Backed(Back(c), k - 1)
  }

  function CommandMeans(c: Command): (t: Cmd<string>) {
    match c
    case Simple(ps) => Redirected(Exec(Args(ps)), Reds(ps))
    case Block(l, rs) => Redirected(LineMeans(l), rs)
  }

  function PipelineMeans(p: Pipeline): (t: Cmd<string>) {
    match p
    case Single(c) => CommandMeans(c)
    case Piped(c, r) => Pipe(CommandMeans(c), PipelineMeans(r))
  }

  function LineMeans(l: Line): (t: Cmd<string>) {
    match l
    case Last(p, k) => Backed(PipelineMeans(p), k)
    case Then(p, k, r) => List(Backed(PipelineMeans(p), k), LineMeans(r))
  }

  /** No simple command has more arguments than `argv` has room for. */
  predicate CommandFits(c: Command) {
    match c
    case Simple(ps) => |Args(ps)| < MAXARGS
    case Block(l, _) => LineFits(l)
  }

  predicate PipelineFits(p: Pipeline) {
    match p
    case Single(c) => CommandFits(c)
    case Piped(c, r) => CommandFits(c) && PipelineFits(r)
  }

  predicate LineFits(l: Line) {
    match l
    case Last(p, _) => PipelineFits(p)
    case Then(p, _, r) => PipelineFits(p) && LineFits(r)
  }

  // ---------------------------------------------------------------- how a line is written

  /** A symbol ('+' for `>>`) or a word. */
  datatype Tok = Sym(c: char) | W(text: string)

  function RedToks(r: Redirect): (ts: seq<Tok>) {
    [Sym(r.op), W(r.file)]
  }

  function RedsToks(rs: seq<Redirect>): (ts: seq<Tok>) {
    if rs == [] then [] else RedToks(rs[0]) + RedsToks(rs[1..])
  }

  function PiecesToks(ps: seq<Piece>): (ts: seq<Tok>) {
    if ps == [] then []
    else (match ps[0] case Arg(w) => [W(w)] case Red(r) => RedToks(r)) + PiecesToks(ps[1..])
  }

  function Amps(k: nat): (ts: seq<Tok>) {
    if k == 0 then [] else [Sym('&')] + Amps(k - 1)
  }

  function CommandToks(c: Command): (ts: seq<Tok>) {
    match c
    case Simple(ps) => PiecesToks(ps)
    case Block(l, rs) => [Sym('(')] + (LineToks(l) + ([Sym(')')] + RedsToks(rs)))
  }

  function PipelineToks(p: Pipeline): (ts: seq<Tok>) {
    match p
    case Single(c) => CommandToks(c)
    case Piped(c, r) => CommandToks(c) + ([Sym('|')] + PipelineToks(r))
  }

  function LineToks(l: Line): (ts: seq<Tok>) {
    match l
    case Last(p, k) => PipelineToks(p) + Amps(k)
    case Then(p, k, r) => PipelineToks(p) + (Amps(k) + ([Sym(';')] + LineToks(r)))
  }

  predicate GoodReds(rs: seq<Redirect>) {
    forall i :: 0 <= i < |rs| ==> rs[i].op == '<' || rs[i].op == '>' || rs[i].op == '+'
  }

  predicate GoodCommand(c: Command) {
    match c
    case Simple(ps) => GoodReds(Reds(ps))
    case Block(l, rs) => GoodLine(l) && GoodReds(rs)
  }

  predicate GoodPipeline(p: Pipeline) {
    match p
    case Single(c) => GoodCommand(c)
    case Piped(c, r) => GoodCommand(c) && GoodPipeline(r)
  }

  /** Every redirection is by one of the three operators. */
  predicate GoodLine(l: Line) {
    match l
    case Last(p, _) => GoodPipeline(p)
    case Then(p, _, r) => GoodPipeline(p) && GoodLine(r)
  }

  // ---------------------------------------------------------------- the tokens of the input

  function TokOf(s: string, t: Token): (k: Tok)
    requires t.at.start <= t.at.end <= |s| && !t.kind.End?
  {
    if t.kind.Word? then W(s[t.at.start..t.at.end]) else Sym(t.kind.c)
  }

  /** The tokens of the input from `p` on. */
  function Toks(s: string, p: nat): (ts: seq<Tok>)
    requires p <= |s|
    decreases |s| - p
  {
    var t := GetToken(s, p);
    if t.kind.End? then [] else [TokOf(s, t)] + Toks(s, t.next)
  }

  lemma ToksStep(s: string, p: nat)
    requires p <= |s|
    ensures var t := GetToken(s, p);
            && (Toks(s, p) == [] <==> t.kind.End?)
            && (Toks(s, p) != [] ==> t.next > p && Toks(s, p)[0] == TokOf(s, t) && Toks(s, p)[1..] == Toks(s, t.next))
  {
    hide GetToken;
  }

  lemma ToksSkip(s: string, p: nat)
    requires p <= |s|
    ensures Toks(s, Skip(s, p)) == Toks(s, p)
  {
    hide GetToken;
    TokenAgain(s, p);
  }

  /** The next token is one of these symbols. */
  predicate Starts(ts: seq<Tok>, cs: string) {
    ts != [] && ts[0].Sym? && ts[0].c in cs
  }

  /** `peek` tells which symbol is next. */
  lemma PeekIs(s: string, p: nat)
    requires p <= |s|
    ensures Peek(s, p, "(") <==> Starts(Toks(s, p), "(")
    ensures Peek(s, p, ")") <==> Starts(Toks(s, p), ")")
    ensures Peek(s, p, "|") <==> Starts(Toks(s, p), "|")
    ensures Peek(s, p, "&") <==> Starts(Toks(s, p), "&")
    ensures Peek(s, p, ";") <==> Starts(Toks(s, p), ";")
    ensures Peek(s, p, "|)&;") <==> Starts(Toks(s, p), "|)&;")
    ensures Peek(s, p, "<>") <==> Starts(Toks(s, p), "<>+")
  {
    hide Toks, Skip, TokOf;
    ToksStep(s, p);
    FirstTok(s, p);
  }

  lemma FirstTok(s: string, p: nat)
    requires p <= |s|
    ensures var t, q := GetToken(s, p), Skip(s, p);
            && q <= |s| && (t.kind.End? <==> q == |s|)
            && (q < |s| && s[q] == '>' ==> t.kind == Symbol('>') || t.kind == Symbol('+'))
            && (q < |s| && IsSymbol(s[q]) && s[q] != '>' ==> t.kind == Symbol(s[q]))
            && (q < |s| && !IsSymbol(s[q]) ==> t.kind.Word?)
            && (!t.kind.End? ==> (t.kind.Word? <==> TokOf(s, t).W?) && (t.kind.Symbol? ==> TokOf(s, t) == Sym(t.kind.c)))
  {
  }

  // ---------------------------------------------------------------- reading a parsed command

  /** The tree with the text of its words. */
  function Read(s: string, c: Cmd<Span>): (t: Cmd<string>)
    requires InBounds(s, c)
  {
    match c
    case Exec(ws) => Exec(ReadAll(s, ws))
    case Redir(d, f, out) => Redir(Read(s, d), s[f.start..f.end], out)
    case Pipe(l, r) => Pipe(Read(s, l), Read(s, r))
    case List(l, r) => List(Read(s, l), Read(s, r))
    case Back(d) => Back(Read(s, d))
  }

  function ReadAll(s: string, ws: seq<Span>): (r: seq<string>)
    requires forall i :: 0 <= i < |ws| ==> ws[i].start <= ws[i].end <= |s|
    ensures |r| == |ws| && forall i :: 0 <= i < |ws| ==> r[i] == s[ws[i].start..ws[i].end]
  {
    if ws == [] then [] else ReadAll(s, ws[..|ws| - 1]) + [s[ws[|ws| - 1].start..ws[|ws| - 1].end]]
  }

  predicate InBounds(s: string, c: Cmd<Span>) {
    match c
    case Exec(ws) => forall i :: 0 <= i < |ws| ==> ws[i].start <= ws[i].end <= |s|
    case Redir(d, f, _) => InBounds(s, d) && f.start <= f.end <= |s|
    case Pipe(l, r) => InBounds(s, l) && InBounds(s, r)
    case List(l, r) => InBounds(s, l) && InBounds(s, r)
    case Back(d) => InBounds(s, d)
  }

  /** The command reads as the tree `t`. */
  ghost predicate ReadsAs(s: string, c: Cmd<Span>, t: Cmd<string>) {
    InBounds(s, c) && Read(s, c) == t
  }

  /** The result is the tree `t`, with the tokens `tail` left; or the one error there can be. */
  ghost predicate Gives(s: string, r: Result, t: Cmd<string>, fits: bool, tail: seq<Tok>) {
    if fits then r.Ok? && r.pos <= |s| && ReadsAs(s, r.cmd, t) && Toks(s, r.pos) == tail else r == Err(TooManyArgs)
  }

  // ---------------------------------------------------------------- redirections

  /** The spans that were parsed are these redirections. */
  ghost predicate SameReds(s: string, spans: seq<Redirection>, rs: seq<Redirect>) {
    && |spans| == |rs|
    && forall i :: 0 <= i < |rs| ==> SameRed(s, spans[i], rs[i])
  }

  ghost predicate SameRed(s: string, f: Redirection, r: Redirect) {
    f.file.start <= f.file.end <= |s| && s[f.file.start..f.file.end] == r.file && (f.out <==> r.op != '<')
  }

  lemma {:induction false} RedirectedSnoc(t: Cmd<string>, rs: seq<Redirect>, r: Redirect)
    ensures Redirected(t, rs + [r]) == Redir(Redirected(t, rs), r.file, r.op != '<')
    decreases |rs|
  {
    if rs != [] {
      assert (rs + [r])[1..] == rs[1..] + [r];
      RedirectedSnoc(Redir(t, rs[0].file, rs[0].op != '<'), rs[1..], r);
    } else {
      assert rs + [r] == [r] && [r][1..] == [];
      assert Redirected(Redir(t, r.file, r.op != '<'), []) == Redir(t, r.file, r.op != '<');
    }
  }

  /** Putting parsed redirections around a command. */
  lemma {:induction false} WrapReads(s: string, c: Cmd<Span>, t: Cmd<string>, spans: seq<Redirection>, rs: seq<Redirect>)
    requires ReadsAs(s, c, t) && SameReds(s, spans, rs)
    ensures ReadsAs(s, Wrap(c, spans), Redirected(t, rs))
    decreases |rs|
  {
    if rs != [] {
      var n := |rs| - 1;
      WrapReads(s, c, t, spans[..n], rs[..n]);
      assert rs == rs[..n] + [rs[n]];
      RedirectedSnoc(t, rs[..n], rs[n]);
      assert SameRed(s, spans[n], rs[n]);
    }
  }

  /** `parseredirs` takes all redirections that follow. */
  lemma {:induction false} RedirsRun(s: string, p: nat, spans: seq<Redirection>, done: seq<Redirect>, rs: seq<Redirect>,
                                     tail: seq<Tok>)
    requires p <= |s| && Toks(s, p) == RedsToks(rs) + tail && !Starts(tail, "<>+")
    requires GoodReds(rs) && SameReds(s, spans, done)
    ensures var r := ParseRedirs(s, p, spans);
            r.Redirs? && r.pos <= |s| && SameReds(s, r.list, done + rs) && Toks(s, r.pos) == tail
    decreases |rs|
  {
    hide ParseRedirs, GetToken, Peek, Skip, Toks, Starts;
    RedirsStep(s, p, spans);
    PeekIs(s, p);
    if rs == [] {
      assert RedsToks(rs) + tail == tail && done + rs == done;
      ToksSkip(s, p);
    } else {
      RedHead(rs, tail);
      var t := GetToken(s, p);
      ToksStep(s, p);
      ToksStep(s, t.next);
      var f := GetToken(s, t.next);
      assert Toks(s, f.next) == RedsToks(rs[1..]) + tail;
      assert SameRed(s, Redirection(f.at, t.kind != Symbol('<')), rs[0]);
      RedirsRun(s, f.next, spans + [Redirection(f.at, t.kind != Symbol('<'))], done + [rs[0]], rs[1..], tail);
      assert done + [rs[0]] + rs[1..] == done + rs;
    }
  }

  lemma RedHead(rs: seq<Redirect>, tail: seq<Tok>)
    requires rs != [] && GoodReds(rs)
    ensures var ts := RedsToks(rs) + tail;
            |ts| >= 2 && ts[0] == Sym(rs[0].op) && ts[1] == W(rs[0].file) && ts[1..][1..] == RedsToks(rs[1..]) + tail
    ensures Starts(RedsToks(rs) + tail, "<>+") && GoodReds(rs[1..])
  {
    var ts := RedsToks(rs[1..]) + tail;
    assert RedsToks(rs) + tail == [Sym(rs[0].op)] + ([W(rs[0].file)] + ts);
    assert ([W(rs[0].file)] + ts)[1..] == ts;
    assert ([Sym(rs[0].op)] + ([W(rs[0].file)] + ts))[1..] == [W(rs[0].file)] + ts;
  }

  // ---------------------------------------------------------------- arguments

  /** The redirections at the beginning, and the rest. */
  lemma {:induction false} SplitReds(ps: seq<Piece>) returns (rs: seq<Redirect>, rest: seq<Piece>)
    ensures |rest| <= |ps| && (rest == [] || rest[0].Arg?)
    ensures PiecesToks(ps) == RedsToks(rs) + PiecesToks(rest)
    ensures Args(ps) == Args(rest) && Reds(ps) == rs + Reds(rest)
    decreases |ps|
  {
    if ps == [] || ps[0].Arg? {
      rs, rest := [], ps;
      assert RedsToks([]) == [];
    } else {
      rs, rest := SplitReds(ps[1..]);
      var r := ps[0].r;
      assert ([r] + rs)[1..] == rs;
      assert RedsToks([r] + rs) == RedToks(r) + RedsToks(rs);
      assert RedToks(r) + (RedsToks(rs) + PiecesToks(rest)) == (RedToks(r) + RedsToks(rs)) + PiecesToks(rest);
      rs := [r] + rs;
    }
  }

  /** What may follow a simple command. */
  predicate Stops(tail: seq<Tok>) {
    tail == [] || Starts(tail, "|)&;")
  }

  lemma NotRedir(ps: seq<Piece>, tail: seq<Tok>)
    requires Stops(tail) && (ps == [] || ps[0].Arg?)
    ensures !Starts(PiecesToks(ps) + tail, "<>+") && !Starts(PiecesToks(ps) + tail, "(")
    ensures ps == [] ==> PiecesToks(ps) + tail == tail
    ensures ps != [] ==>
              && (PiecesToks(ps) + tail)[..1] == [W(ps[0].word)] && !Stops(PiecesToks(ps) + tail)
              && (PiecesToks(ps) + tail)[1..] == PiecesToks(ps[1..]) + tail
  {
    if ps == [] {
      assert PiecesToks(ps) + tail == tail;
    } else {
      assert PiecesToks(ps) + tail == [W(ps[0].word)] + (PiecesToks(ps[1..]) + tail);
    }
  }

  lemma ReadOneMore(s: string, args: seq<Span>, ws: seq<string>, a: Span)
    requires (forall i :: 0 <= i < |args| ==> args[i].start <= args[i].end <= |s|) && ReadAll(s, args) == ws
    requires a.start <= a.end <= |s|
    ensures ReadAll(s, args + [a]) == ws + [s[a.start..a.end]]
  {
  }

  /** The loop of `parseexec` takes all arguments and redirections, until there are too many. */
  lemma {:induction false} ArgsRun(s: string, p: nat, args: seq<Span>, ws: seq<string>, spans: seq<Redirection>,
                                   done: seq<Redirect>, ps: seq<Piece>, tail: seq<Tok>)
    requires p <= |s| && Toks(s, p) == PiecesToks(ps) + tail && Stops(tail) && (ps == [] || ps[0].Arg?)
    requires ReadsAs(s, Exec(args), Exec(ws)) && SameReds(s, spans, done) && |args| < MAXARGS && GoodReds(Reds(ps))
    ensures Gives(s, ParseArgs(s, p, args, spans), Redirected(Exec(ws + Args(ps)), done + Reds(ps)),
                  |args| + |Args(ps)| < MAXARGS, tail)
    decreases |ps|
  {
    hide ParseArgs, ParseRedirs, GetToken, Peek, Skip, Toks, SameReds, Starts, Redirected;
    ArgsStep(s, p, args, spans);
    PeekIs(s, p);
    ToksStep(s, p);
    NotRedir(ps, tail);
    if ps == [] {
      assert ws + Args(ps) == ws && done + Reds(ps) == done;
      WrapReads(s, Exec(args), Exec(ws), spans, done);
      ToksSkip(s, p);
    } else {
      var t := GetToken(s, p);
      OneArg(ps, t, s, Toks(s, p));
      if |args| + 1 < MAXARGS {
        ArgsMore(s, t, args, ws, spans, done, ps, tail);
      }
    }
  }

  lemma OneArg(ps: seq<Piece>, t: Token, s: string, ts: seq<Tok>)
    requires ps != [] && ps[0].Arg? && t.at.start <= t.at.end <= |s| && !t.kind.End?
    requires |ts| > 0 && ts[..1] == [W(ps[0].word)] && ts[0] == TokOf(s, t)
    ensures t.kind.Word? && s[t.at.start..t.at.end] == ps[0].word && |Args(ps)| == 1 + |Args(ps[1..])|
    ensures Args(ps) == [ps[0].word] + Args(ps[1..]) && Reds(ps) == Reds(ps[1..])
  {
    assert ts[..1][0] == ts[0];
  }

  /** After one more argument come its redirections, and then the rest. */
  lemma {:induction false} ArgsMore(s: string, t: Token, args: seq<Span>, ws: seq<string>, spans: seq<Redirection>,
                                    done: seq<Redirect>, ps: seq<Piece>, tail: seq<Tok>)
    requires ps != [] && ps[0].Arg? && t.at.start <= t.at.end <= t.next <= |s| && s[t.at.start..t.at.end] == ps[0].word
    requires Toks(s, t.next) == PiecesToks(ps[1..]) + tail && Stops(tail) && GoodReds(Reds(ps))
    requires ReadsAs(s, Exec(args), Exec(ws)) && SameReds(s, spans, done) && |args| + 1 < MAXARGS
    requires Args(ps) == [ps[0].word] + Args(ps[1..]) && Reds(ps) == Reds(ps[1..])
    ensures var q := ParseRedirs(s, t.next, spans);
            && q.Redirs? && q.pos <= |s|
            && Gives(s, ParseArgs(s, q.pos, args + [t.at], q.list), Redirected(Exec(ws + Args(ps)), done + Reds(ps)),
                     |args| + |Args(ps)| < MAXARGS, tail)
    decreases |ps|, 0
  {
    hide ParseArgs, ParseRedirs, Toks, SameReds, Redirected, PiecesToks, RedsToks, Args, Reds, GoodReds, Starts, Stops;
    var rs, rest := SplitReds(ps[1..]);
    assert RedsToks(rs) + PiecesToks(rest) + tail == RedsToks(rs) + (PiecesToks(rest) + tail);
    GoodParts(rs, Reds(rest));
    NotRedir(rest, tail);
    RedirsRun(s, t.next, spans, done, rs, PiecesToks(rest) + tail);
    var q := ParseRedirs(s, t.next, spans);
    ReadOneMore(s, args, ws, t.at);
    ArgsRun(s, q.pos, args + [t.at], ws + [ps[0].word], q.list, done + rs, rest, tail);
    assert ws + [ps[0].word] + Args(rest) == ws + Args(ps);
    assert done + rs + Reds(rest) == done + Reds(ps);
  }

  lemma GoodParts(rs: seq<Redirect>, rs': seq<Redirect>)
    requires GoodReds(rs + rs')
    ensures GoodReds(rs) && GoodReds(rs')
  {
    forall i | 0 <= i < |rs|
      ensures rs[i].op == '<' || rs[i].op == '>' || rs[i].op == '+'
    {
      assert (rs + rs')[i] == rs[i];
    }
    forall i | 0 <= i < |rs'|
      ensures rs'[i].op == '<' || rs'[i].op == '>' || rs'[i].op == '+'
    {
      assert (rs + rs')[|rs| + i] == rs'[i];
    }
  }

  // ---------------------------------------------------------------- commands, pipelines and lines

  lemma SimpleRun(s: string, p: nat, ps: seq<Piece>, tail: seq<Tok>)
    requires p <= |s| && Toks(s, p) == PiecesToks(ps) + tail && Stops(tail) && GoodReds(Reds(ps))
    ensures Gives(s, ParseExec(s, p), Redirected(Exec(Args(ps)), Reds(ps)), |Args(ps)| < MAXARGS, tail)
  {
    hide ParseArgs, ParseRedirs, ParseBlock, Toks, Peek, Skip, GetToken, Redirected, SameReds;
    hide PiecesToks, RedsToks, Args, Reds, GoodReds, Starts, Stops, ReadsAs;
    var rs, rest := SplitReds(ps);
    assert RedsToks(rs) + PiecesToks(rest) + tail == RedsToks(rs) + (PiecesToks(rest) + tail);
    GoodParts(rs, Reds(rest));
    NotRedir(rest, tail);
    NoBlock(rs, PiecesToks(rest) + tail);
    PeekIs(s, p);
    NoReds(s);
    RedirsRun(s, p, [], [], rs, PiecesToks(rest) + tail);
    var q := ParseRedirs(s, p, []);
    assert [] + rs == rs && [] + Args(rest) == Args(ps);
    ArgsRun(s, q.pos, [], [], q.list, rs, rest, tail);
  }

  lemma NoReds(s: string)
    ensures SameReds(s, [], []) && ReadsAs(s, Exec([]), Exec([]))
  {
  }

  lemma NoBlock(rs: seq<Redirect>, ts: seq<Tok>)
    requires GoodReds(rs) && !Starts(ts, "(")
    ensures !Starts(RedsToks(rs) + ts, "(")
  {
    if rs != [] { RedHead(rs, ts); } else { assert RedsToks(rs) + ts == ts; }
  }

  /** A block, given what its inside gives. */
  lemma BlockRun(s: string, p: nat, l: Line, rs: seq<Redirect>, tail: seq<Tok>)
    requires p <= |s| && Toks(s, p) == CommandToks(Block(l, rs)) + tail && !Starts(tail, "<>+") && GoodReds(rs)
    requires Gives(s, ParseLine(s, GetToken(s, p).next), LineMeans(l), LineFits(l), [Sym(')')] + (RedsToks(rs) + tail))
    ensures Gives(s, ParseExec(s, p), CommandMeans(Block(l, rs)), LineFits(l), tail)
  {
    hide ParseLine, ParseRedirs, ParseExec, ParseBlock, Toks, Peek, Skip, GetToken, Redirected, SameReds, LineToks, LineMeans;
    PeekIs(s, p);
    BlockStep(s, p);
    var c := ParseLine(s, GetToken(s, p).next);
    if c.Ok? {
      PeekIs(s, c.pos);
      ToksStep(s, c.pos);
      assert Toks(s, c.pos)[1..] == RedsToks(rs) + tail;
      NoReds(s);
      RedirsRun(s, GetToken(s, c.pos).next, [], [], rs, tail);
      var q := ParseRedirs(s, GetToken(s, c.pos).next, []);
      assert [] + rs == rs;
      WrapReads(s, c.cmd, LineMeans(l), q.list, rs);
    }
  }

  /** The tokens inside a block. */
  lemma InBlock(s: string, p: nat, l: Line, rs: seq<Redirect>, tail: seq<Tok>)
    requires p <= |s| && Toks(s, p) == CommandToks(Block(l, rs)) + tail
    ensures GetToken(s, p).next <= |s|
    ensures Toks(s, GetToken(s, p).next) == LineToks(l) + ([Sym(')')] + (RedsToks(rs) + tail))
  {
    hide Toks, GetToken, LineToks, RedsToks;
    ToksStep(s, p);
    var inner := LineToks(l) + ([Sym(')')] + RedsToks(rs));
    assert ([Sym('(')] + inner + tail)[1..] == inner + tail;
    assert inner + tail == LineToks(l) + ([Sym(')')] + (RedsToks(rs) + tail));
  }

  /** `parseexec`, on any command of the language. */
  lemma {:induction false} CommandRun(s: string, p: nat, c: Command, tail: seq<Tok>)
    requires p <= |s| && Toks(s, p) == CommandToks(c) + tail && Stops(tail) && GoodCommand(c)
    ensures Gives(s, ParseExec(s, p), CommandMeans(c), CommandFits(c), tail)
    decreases c
  {
    hide ParseExec, ParseLine, Toks, Gives, GetToken, PiecesToks, LineToks, RedsToks, Args, Reds, Redirected, LineMeans;
    match c {
      case Simple(ps) => SimpleRun(s, p, ps, tail);
      case Block(l, rs) =>
        InBlock(s, p, l, rs, tail);
        LineRun(s, GetToken(s, p).next, l, [Sym(')')] + (RedsToks(rs) + tail));
        BlockRun(s, p, l, rs, tail);
    }
  }

  /** What may follow a pipeline. */
  predicate PipelineStops(tail: seq<Tok>) {
    tail == [] || Starts(tail, ")&;")
  }

  lemma PipeEnds(s: string, p: nat, t: Cmd<string>, fits: bool, tail: seq<Tok>)
    requires p <= |s| && Gives(s, ParseExec(s, p), t, fits, tail) && PipelineStops(tail)
    ensures Gives(s, ParsePipe(s, p), t, fits, tail)
  {
    hide ParseExec, Toks, Peek, Skip, GetToken;
    var c := ParseExec(s, p);
    PipeStep(s, p);
    if c.Ok? {
      PeekIs(s, c.pos);
      ToksSkip(s, c.pos);
    }
  }

  lemma PipeGoesOn(s: string, p: nat, t: Cmd<string>, fits: bool, u: Cmd<string>, fits': bool, ts: seq<Tok>, tail: seq<Tok>)
    requires p <= |s| && Gives(s, ParseExec(s, p), t, fits, [Sym('|')] + ts)
    requires forall q: nat :: q <= |s| && Toks(s, q) == ts ==> Gives(s, ParsePipe(s, q), u, fits', tail)
    ensures Gives(s, ParsePipe(s, p), Pipe(t, u), fits && fits', tail)
  {
    hide ParseExec, ParsePipe, Toks, Peek, Skip, GetToken;
    var c := ParseExec(s, p);
    PipeStep(s, p);
    if c.Ok? {
      PeekIs(s, c.pos);
      ToksStep(s, c.pos);
      var q := GetToken(s, c.pos).next;
      assert ([Sym('|')] + ts)[1..] == ts;
      assert Toks(s, q) == ts;
    }
  }

  lemma PipeStep(s: string, p: nat)
    requires p <= |s|
    ensures var c := ParseExec(s, p);
            ParsePipe(s, p) ==
              if c.Err? then c
              else if Peek(s, c.pos, "|") then
                var d := ParsePipe(s, GetToken(s, c.pos).next);
                if d.Err? then d else Ok(Pipe(c.cmd, d.cmd), d.pos)
              else Ok(c.cmd, Skip(s, c.pos))
  {
  }

  /** `parsepipe`, on any pipeline of the language. */
  lemma {:induction false} PipelineRun(s: string, p: nat, x: Pipeline, tail: seq<Tok>)
    requires p <= |s| && Toks(s, p) == PipelineToks(x) + tail && PipelineStops(tail) && GoodPipeline(x)
    ensures Gives(s, ParsePipe(s, p), PipelineMeans(x), PipelineFits(x), tail)
    decreases x
  {
    hide ParseExec, ParsePipe, Toks, Gives, CommandToks, CommandMeans, CommandFits;
    match x {
      case Single(c) =>
        CommandRun(s, p, c, tail);
        PipeEnds(s, p, CommandMeans(c), CommandFits(c), tail);
      case Piped(c, r) =>
        var ts := PipelineToks(r) + tail;
        assert CommandToks(c) + ([Sym('|')] + PipelineToks(r)) + tail == CommandToks(c) + ([Sym('|')] + ts);
        CommandRun(s, p, c, [Sym('|')] + ts);
        forall q: nat | q <= |s| && Toks(s, q) == ts
          ensures Gives(s, ParsePipe(s, q), PipelineMeans(r), PipelineFits(r), tail)
        {
          PipelineRun(s, q, r, tail);
        }
        PipeGoesOn(s, p, CommandMeans(c), CommandFits(c), PipelineMeans(r), PipelineFits(r), ts, tail);
    }
  }

  /** The loop of `parseline` over `&`. */
  lemma {:induction false} BacksRun(s: string, p: nat, c: Cmd<Span>, t: Cmd<string>, k: nat, tail: seq<Tok>)
    requires p <= |s| && Toks(s, p) == Amps(k) + tail && !Starts(tail, "&") && ReadsAs(s, c, t)
    ensures Gives(s, ParseBacks(s, p, c), Backed(t, k), true, tail)
    decreases k
  {
    hide ParseBacks, Toks, Peek, Skip, GetToken;
    BacksStep(s, p, c);
    PeekIs(s, p);
    if k == 0 {
      assert Amps(k) + tail == tail;
      ToksSkip(s, p);
    } else {
      ToksStep(s, p);
      assert (Amps(k) + tail)[1..] == Amps(k - 1) + tail;
      BacksRun(s, GetToken(s, p).next, Back(c), Back(t), k - 1, tail);
    }
  }

  lemma LineStep(s: string, p: nat)
    requires p <= |s|
    ensures var c := ParsePipe(s, p);
            ParseLine(s, p) ==
              if c.Err? then c
              else
                var b := ParseBacks(s, c.pos, c.cmd);
                if Peek(s, b.pos, ";") then
                  var d := ParseLine(s, GetToken(s, b.pos).next);
                  if d.Err? then d else Ok(List(b.cmd, d.cmd), d.pos)
                else Ok(b.cmd, Skip(s, b.pos))
  {
  }

  lemma LineEnds(s: string, p: nat, t: Cmd<string>, fits: bool, k: nat, tail: seq<Tok>)
    requires p <= |s| && Gives(s, ParsePipe(s, p), t, fits, Amps(k) + tail) && !Starts(tail, "&") && !Starts(tail, ";")
    ensures Gives(s, ParseLine(s, p), Backed(t, k), fits, tail)
  {
    hide ParsePipe, ParseBacks, Toks, Peek, Skip, GetToken, Amps, Backed;
    var c := ParsePipe(s, p);
    LineStep(s, p);
    if c.Ok? {
      BacksRun(s, c.pos, c.cmd, t, k, tail);
      var b := ParseBacks(s, c.pos, c.cmd);
      PeekIs(s, b.pos);
      ToksSkip(s, b.pos);
    }
  }

  lemma LineGoesOn(s: string, p: nat, t: Cmd<string>, fits: bool, k: nat, u: Cmd<string>, fits': bool, ts: seq<Tok>,
                   tail: seq<Tok>)
    requires p <= |s| && Gives(s, ParsePipe(s, p), t, fits, Amps(k) + ([Sym(';')] + ts))
    requires forall q: nat :: q <= |s| && Toks(s, q) == ts ==> Gives(s, ParseLine(s, q), u, fits', tail)
    ensures Gives(s, ParseLine(s, p), List(Backed(t, k), u), fits && fits', tail)
  {
    hide ParsePipe, ParseBacks, ParseLine, Toks, Peek, Skip, GetToken, Amps, Backed;
    var c := ParsePipe(s, p);
    LineStep(s, p);
    if c.Ok? {
      BacksRun(s, c.pos, c.cmd, t, k, [Sym(';')] + ts);
      var b := ParseBacks(s, c.pos, c.cmd);
      PeekIs(s, b.pos);
      ToksStep(s, b.pos);
      assert ([Sym(';')] + ts)[1..] == ts;
      assert Toks(s, GetToken(s, b.pos).next) == ts;
    }
  }

  lemma AfterAmps(k: nat, tail: seq<Tok>)
    requires PipelineStops(tail)
    ensures PipelineStops(Amps(k) + tail)
  {
    if k == 0 { assert Amps(k) + tail == tail; }
  }

  /** `parseline`, on any line of the language. */
  lemma {:induction false} LineRun(s: string, p: nat, l: Line, tail: seq<Tok>)
    requires p <= |s| && Toks(s, p) == LineToks(l) + tail && GoodLine(l) && (tail == [] || Starts(tail, ")"))
    ensures Gives(s, ParseLine(s, p), LineMeans(l), LineFits(l), tail)
    decreases l
  {
    hide ParsePipe, ParseLine, Toks, Gives, PipelineToks, PipelineMeans, PipelineFits, Amps, Backed;
    match l {
      case Last(x, k) =>
        assert PipelineToks(x) + Amps(k) + tail == PipelineToks(x) + (Amps(k) + tail);
        AfterAmps(k, tail);
        PipelineRun(s, p, x, Amps(k) + tail);
        LineEnds(s, p, PipelineMeans(x), PipelineFits(x), k, tail);
      case Then(x, k, r) =>
        var ts := LineToks(r) + tail;
        var semi := [Sym(';')] + ts;
        assert PipelineToks(x) + (Amps(k) + ([Sym(';')] + LineToks(r))) + tail == PipelineToks(x) + (Amps(k) + semi);
        AfterAmps(k, semi);
        PipelineRun(s, p, x, Amps(k) + semi);
        forall q: nat | q <= |s| && Toks(s, q) == ts
          ensures Gives(s, ParseLine(s, q), LineMeans(r), LineFits(r), tail)
        {
          LineRun(s, q, r, tail);
        }
        LineGoesOn(s, p, PipelineMeans(x), PipelineFits(x), k, LineMeans(r), LineFits(r), ts, tail);
    }
  }

  // ---------------------------------------------------------------- every accepted line is one of these

  lemma {:induction false} RedirsOf(s: string, p: nat, spans: seq<Redirection>) returns (rs: seq<Redirect>)
    requires p <= |s| && ParseRedirs(s, p, spans).Redirs?
    ensures GoodReds(rs) && Toks(s, p) == RedsToks(rs) + Toks(s, ParseRedirs(s, p, spans).pos)
    decreases |s| - p
  {
    hide ParseRedirs, GetToken, Peek, Skip, Toks;
    RedirsStep(s, p, spans);
    PeekIs(s, p);
    if Peek(s, p, "<>") {
      var t := GetToken(s, p);
      var f := GetToken(s, t.next);
      ToksStep(s, p);
      ToksStep(s, t.next);
      var more := RedirsOf(s, f.next, spans + [Redirection(f.at, t.kind != Symbol('<'))]);
      var r := Redirect(t.kind.c, s[f.at.start..f.at.end]);
      rs := [r] + more;
      OneRed(r, more, Toks(s, p), Toks(s, ParseRedirs(s, p, spans).pos));
    } else {
      rs := [];
      ToksSkip(s, p);
    }
  }

  lemma OneRed(r: Redirect, more: seq<Redirect>, ts: seq<Tok>, tail: seq<Tok>)
    requires |ts| >= 2 && ts[0] == Sym(r.op) && ts[1..][0] == W(r.file) && ts[1..][1..] == RedsToks(more) + tail
    ensures ts == RedsToks([r] + more) + tail
  {
    assert ([r] + more)[1..] == more;
    assert ts == [ts[0]] + ([ts[1..][0]] + ts[1..][1..]);
  }

  /** Redirections in front of the pieces of a command. */
  lemma {:induction false} PutReds(rs: seq<Redirect>, rest: seq<Piece>) returns (ps: seq<Piece>)
    ensures PiecesToks(ps) == RedsToks(rs) + PiecesToks(rest) && Reds(ps) == rs + Reds(rest)
    decreases |rs|
  {
    if rs == [] {
      ps := rest;
    } else {
      var qs := PutReds(rs[1..], rest);
      ps := [Red(rs[0])] + qs;
      assert ps[1..] == qs;
      assert RedToks(rs[0]) + (RedsToks(rs[1..]) + PiecesToks(rest)) == RedsToks(rs) + PiecesToks(rest);
    }
  }

  lemma GoodBoth(rs: seq<Redirect>, rs': seq<Redirect>)
    requires GoodReds(rs) && GoodReds(rs')
    ensures GoodReds(rs + rs')
  {
  }

  lemma {:induction false} ArgsOf(s: string, p: nat, args: seq<Span>, spans: seq<Redirection>) returns (ps: seq<Piece>)
    requires p <= |s| && ParseArgs(s, p, args, spans).Ok?
    ensures GoodReds(Reds(ps)) && Toks(s, p) == PiecesToks(ps) + Toks(s, ParseArgs(s, p, args, spans).pos)
    decreases |s| - p
  {
    hide ParseArgs, ParseRedirs, GetToken, Peek, Skip, Toks, GoodReds, RedsToks, PiecesToks, Reds;
    ArgsStep(s, p, args, spans);
    ToksStep(s, p);
    var t := GetToken(s, p);
    if Peek(s, p, "|)&;") || t.kind.End? {
      ps := [];
      ToksSkip(s, p);
      NoPieces(Toks(s, p));
    } else {
      var q := ParseRedirs(s, t.next, spans);
      var rs := RedirsOf(s, t.next, spans);
      var rest := ArgsOf(s, q.pos, args + [t.at], q.list);
      var qs := PutReds(rs, rest);
      GoodBoth(rs, Reds(rest));
      var tail := Toks(s, ParseArgs(s, p, args, spans).pos);
      assert RedsToks(rs) + (PiecesToks(rest) + tail) == PiecesToks(qs) + tail;
      var w := s[t.at.start..t.at.end];
      ps := [Arg(w)] + qs;
      PutArg(w, qs, Toks(s, p), tail);
    }
  }

  lemma NoPieces(ts: seq<Tok>)
    ensures GoodReds(Reds([])) && PiecesToks([]) + ts == ts
  {
  }

  lemma PutArg(w: string, ps: seq<Piece>, ts: seq<Tok>, tail: seq<Tok>)
    requires |ts| > 0 && ts[0] == W(w) && ts[1..] == PiecesToks(ps) + tail
    ensures ts == PiecesToks([Arg(w)] + ps) + tail && Reds([Arg(w)] + ps) == Reds(ps)
  {
    assert ([Arg(w)] + ps)[1..] == ps;
    assert ts == [ts[0]] + ts[1..];
  }

  lemma {:induction false} CommandOf(s: string, p: nat) returns (c: Command)
    requires p <= |s| && ParseExec(s, p).Ok?
    ensures GoodCommand(c) && Toks(s, p) == CommandToks(c) + Toks(s, ParseExec(s, p).pos)
    decreases |s| - p, 1
  {
    hide ParseArgs, ParseRedirs, ParseLine, ParseBlock, GetToken, Peek, Skip, Toks, GoodReds, RedsToks, PiecesToks, LineToks;
    if Peek(s, p, "(") {
      BlockStep(s, p);
      PeekIs(s, p);
      ToksStep(s, p);
      var inner := ParseLine(s, GetToken(s, p).next);
      var l := LineOf(s, GetToken(s, p).next);
      PeekIs(s, inner.pos);
      ToksStep(s, inner.pos);
      var q := GetToken(s, inner.pos).next;
      var rs := RedirsOf(s, q, []);
      c := Block(l, rs);
      BlockToks(l, rs, Toks(s, p), Toks(s, inner.pos), Toks(s, ParseExec(s, p).pos));
    } else {
      var q := ParseRedirs(s, p, []);
      var rs := RedirsOf(s, p, []);
      var rest := ArgsOf(s, q.pos, [], q.list);
      var ps := PutReds(rs, rest);
      GoodBoth(rs, Reds(rest));
      c := Simple(ps);
      var tail := Toks(s, ParseExec(s, p).pos);
      assert RedsToks(rs) + (PiecesToks(rest) + tail) == PiecesToks(ps) + tail;
    }
  }

  lemma BlockToks(l: Line, rs: seq<Redirect>, ts: seq<Tok>, us: seq<Tok>, tail: seq<Tok>)
    requires Starts(ts, "(") && ts[1..] == LineToks(l) + us && Starts(us, ")") && us[1..] == RedsToks(rs) + tail
    ensures ts == CommandToks(Block(l, rs)) + tail
  {
    hide LineToks, RedsToks;
    assert ts == [Sym('(')] + ts[1..] && us == [Sym(')')] + us[1..];
    assert ts == [Sym('(')] + (LineToks(l) + ([Sym(')')] + (RedsToks(rs) + tail)));
  }

  lemma {:induction false} PipelineOf(s: string, p: nat) returns (x: Pipeline)
    requires p <= |s| && ParsePipe(s, p).Ok?
    ensures GoodPipeline(x) && Toks(s, p) == PipelineToks(x) + Toks(s, ParsePipe(s, p).pos)
    decreases |s| - p, 2
  {
    hide ParseExec, ParsePipe, GetToken, Peek, Skip, Toks, CommandToks, GoodCommand;
    PipeStep(s, p);
    var c := CommandOf(s, p);
    var q := ParseExec(s, p).pos;
    PeekIs(s, q);
    if Peek(s, q, "|") {
      ToksStep(s, q);
      var r := PipelineOf(s, GetToken(s, q).next);
      x := Piped(c, r);
      assert Toks(s, q) == [Sym('|')] + Toks(s, q)[1..];
    } else {
      x := Single(c);
      ToksSkip(s, q);
    }
  }

  lemma {:induction false} BacksOf(s: string, p: nat, c: Cmd<Span>) returns (k: nat)
    requires p <= |s|
    ensures Toks(s, p) == Amps(k) + Toks(s, ParseBacks(s, p, c).pos)
    decreases |s| - p
  {
    hide ParseBacks, GetToken, Peek, Skip, Toks;
    BacksStep(s, p, c);
    PeekIs(s, p);
    if Peek(s, p, "&") {
      ToksStep(s, p);
      k := BacksOf(s, GetToken(s, p).next, Back(c));
      k := k + 1;
      assert Toks(s, p) == [Sym('&')] + Toks(s, p)[1..];
    } else {
      k := 0;
      ToksSkip(s, p);
    }
  }

  lemma {:induction false} LineOf(s: string, p: nat) returns (l: Line)
    requires p <= |s| && ParseLine(s, p).Ok?
    ensures GoodLine(l) && Toks(s, p) == LineToks(l) + Toks(s, ParseLine(s, p).pos)
    decreases |s| - p, 3
  {
    hide ParsePipe, ParseLine, ParseBacks, GetToken, Peek, Skip, Toks, PipelineToks, GoodPipeline, Amps;
    LineStep(s, p);
    var x := PipelineOf(s, p);
    var c := ParsePipe(s, p);
    var k := BacksOf(s, c.pos, c.cmd);
    var q := ParseBacks(s, c.pos, c.cmd).pos;
    PeekIs(s, q);
    if Peek(s, q, ";") {
      ToksStep(s, q);
      var r := LineOf(s, GetToken(s, q).next);
      l := Then(x, k, r);
      assert Toks(s, q) == [Sym(';')] + Toks(s, q)[1..];
    } else {
      l := Last(x, k);
      ToksSkip(s, q);
    }
  }

  // ---------------------------------------------------------------- the whole parser

  /** The input is this line. */
  ghost predicate IsLine(s: string, l: Line) {
    GoodLine(l) && Toks(s, 0) == LineToks(l)
  }

  /** What the shell makes of a line of the language: the command it means; only a command with more
      than nine arguments is refused. */
  lemma ParsesLine(s: string, l: Line)
    requires IsLine(s, l)
    ensures if LineFits(l) then ParseCmd(s).Ok? && ReadsAs(s, ParseCmd(s).cmd, LineMeans(l))
            else ParseCmd(s) == Err(TooManyArgs)
  {
    hide ParseLine, GoodLine, LineFits, LineMeans, LineToks, ReadsAs, Toks, Skip;
    assert LineToks(l) + [] == LineToks(l);
    LineRun(s, 0, l, []);
    var c := ParseLine(s, 0);
    if c.Ok? { AllRead(s, c.pos); }
  }

  lemma AllRead(s: string, p: nat)
    requires p <= |s|
    ensures Toks(s, p) == [] <==> Skip(s, p) == |s|
  {
    hide Toks, Skip;
    ToksStep(s, p);
    FirstTok(s, p);
  }

  /** The shell accepts the lines of the language and no others. */
  lemma Accepts(s: string)
    ensures ParseCmd(s).Ok? <==> exists l :: IsLine(s, l) && LineFits(l)
  {
    hide ParseLine, GoodLine, LineFits, LineMeans, LineToks, ReadsAs, Toks, Skip;
    if ParseCmd(s).Ok? {
      var l := LineOf(s, 0);
      AllRead(s, ParseLine(s, 0).pos);
      assert LineToks(l) + [] == LineToks(l);
      assert IsLine(s, l);
      ParsesLine(s, l);
    }
    forall l | IsLine(s, l) && LineFits(l)
      ensures ParseCmd(s).Ok?
    {
      ParsesLine(s, l);
    }
  }

  /** The `i`-th of several redirections is its own node, with its file and direction, around those
      before it. */
  lemma {:induction false} OneNodeEach(t: Cmd<string>, rs: seq<Redirect>, i: nat)
    requires i < |rs|
    ensures Unwrapped(Redirected(t, rs), |rs| - 1 - i) == Redir(Redirected(t, rs[..i]), rs[i].file, rs[i].op != '<')
    ensures Unwrapped(Redirected(t, rs), |rs|) == t
    decreases |rs|
  {
    var n := |rs| - 1;
    assert rs == rs[..n] + [rs[n]];
    RedirectedSnoc(t, rs[..n], rs[n]);
    if n > 0 {
      OneNodeEach(t, rs[..n], if i < n then i else 0);
      assert i < n ==> rs[..n][..i] == rs[..i];
    }
  }

  /** The command inside the `k` outermost redirections. */
  function Unwrapped(c: Cmd<string>, k: nat): (d: Cmd<string>) {
    if k == 0 || !c.Redir? then c else Unwrapped(c.cmd, k - 1)
  }

  // ---------------------------------------------------------------- spelling

  /** How a token is written. */
  function Text(t: Tok): (s: string) {
    match t
    case Sym(c) => if c == '+' then ">>" else [c]
    case W(w) => w
  }

  /** The tokens with something before, between and after them. */
  function Spell(ts: seq<Tok>, gaps: seq<string>): (s: string)
    requires |gaps| == |ts| + 1
  {
    if ts == [] then gaps[0] else gaps[0] + (Text(ts[0]) + Spell(ts[1..], gaps[1..]))
  }

  predicate Blank(g: string) {
    forall i :: 0 <= i < |g| ==> g[i] in " \t\r\n\U{000B}"
  }

  predicate GoodWord(w: string) {
    w != "" && forall i :: 0 <= i < |w| ==> w[i] !in " \t\r\n\U{000B}<|>&;()"
  }

  predicate GoodTok(t: Tok) {
    match t
    case Sym(c) => c in "<|>&;()+"
    case W(w) => GoodWord(w)
  }

  /** Tokens that need a gap between them. */
  predicate Clash(t: Tok, u: Tok) {
    (t.W? && u.W?) || (t == Sym('>') && (u == Sym('>') || u == Sym('+')))
  }

  /** Whitespace before, between and after good tokens, and some of it where two would run together. */
  predicate Spaced(ts: seq<Tok>, gaps: seq<string>) {
    && |gaps| == |ts| + 1
    && (forall i :: 0 <= i < |gaps| ==> Blank(gaps[i]))
    && (forall i :: 0 <= i < |ts| ==> GoodTok(ts[i]))
    && (forall i :: 0 < i < |ts| && Clash(ts[i - 1], ts[i]) ==> gaps[i] != "")
  }

  lemma CharClasses(c: char)
    ensures IsSpace(c) <==> c in " \t\r\n\U{000B}"
    ensures IsSymbol(c) <==> c in "<|>&;()"
    ensures IsWordChar(c) <==> c !in " \t\r\n\U{000B}<|>&;()"
  {
  }

  /** The text that follows does not make a token longer. */
  predicate EndsToken(t: Tok, rest: string) {
    rest == "" || ((t.W? ==> !IsWordChar(rest[0])) && (t == Sym('>') ==> rest[0] != '>'))
  }

  lemma {:induction false} SkipTo(s: string, p: nat, q: nat)
    requires p <= q <= |s| && (forall i :: p <= i < q ==> IsSpace(s[i])) && (q < |s| ==> !IsSpace(s[q]))
    ensures Skip(s, p) == q
    decreases q - p
  {
    if p < q { SkipTo(s, p + 1, q); }
  }

  lemma {:induction false} WordTo(s: string, p: nat, q: nat)
    requires p <= q <= |s| && (forall i :: p <= i < q ==> IsWordChar(s[i])) && (q < |s| ==> !IsWordChar(s[q]))
    ensures WordEnd(s, p) == q
    decreases q - p
  {
    if p < q { WordTo(s, p + 1, q); }
  }

  lemma SkipsBlank(s: string, p: nat, g: string, rest: string)
    requires p <= |s| && s[p..] == g + rest && Blank(g) && (rest != "" ==> !IsSpace(rest[0]))
    ensures p + |g| <= |s| && Skip(s, p) == p + |g| && s[p + |g|..] == rest
  {
    hide Skip, IsSpace;
    var q := p + |g|;
    forall i | p <= i < q
      ensures IsSpace(s[i])
    {
      assert s[i] == s[p..][i - p] == g[i - p];
      CharClasses(s[i]);
    }
    assert s[q..] == s[p..][|g|..];
    SkipTo(s, p, q);
  }

  lemma GoodChars(t: Tok)
    ensures t.W? ==> (GoodTok(t) <==> t.text != "" && forall i :: 0 <= i < |t.text| ==> IsWordChar(t.text[i]))
    ensures t.Sym? ==> (GoodTok(t) <==> t.c == '+' || IsSymbol(t.c)) && (t.c == '+' ==> !IsSymbol(t.c))
  {
    if t.W? {
      forall i | 0 <= i < |t.text|
        ensures IsWordChar(t.text[i]) <==> t.text[i] !in " \t\r\n\U{000B}<|>&;()"
      {
        CharClasses(t.text[i]);
      }
    }
  }

  /** The input goes on with `v`, and then `w`. */
  lemma Cut(s: string, p: nat, v: string, w: string)
    requires p <= |s| && s[p..] == v + w
    ensures var e := p + |v|;
            e <= |s| && s[p..e] == v && s[e..] == w && (w == "" <==> e == |s|) && (w != "" ==> s[e] == w[0])
  {
    var e := p + |v|;
    assert s[e..] == s[p..][|v|..];
    assert s[p..e] == s[p..][..|v|];
    if w != "" { assert s[e] == s[e..][0]; }
  }

  /** The text of a token is read as the token. */
  lemma ReadsToken(s: string, p: nat, t: Tok, rest: string)
    requires p <= |s| && s[p..] == Text(t) + rest && GoodTok(t) && EndsToken(t, rest)
    ensures var e, k := p + |Text(t)|, GetToken(s, p);
            e <= |s| && s[e..] == rest && !k.kind.End? && TokOf(s, k) == t && k.next == Skip(s, e)
  {
    hide Skip, WordEnd, GetToken, GoodTok, IsSymbol, IsWordChar, EndsToken, TokOf;
    GoodChars(t);
    Cut(s, p, Text(t), rest);
    if t.W? { ReadsWord(s, p, t.text, rest); } else { ReadsSymbol(s, p, t.c, rest); }
  }

  lemma ReadsSymbol(s: string, p: nat, c: char, rest: string)
    requires var e := p + |Text(Sym(c))|;
             && e <= |s| && s[p..e] == Text(Sym(c)) && EndsToken(Sym(c), rest)
             && (c == '+' || IsSymbol(c)) && (rest == "" <==> e == |s|) && (rest != "" ==> s[e] == rest[0])
    ensures var k := GetToken(s, p);
            !k.kind.End? && TokOf(s, k) == Sym(c) && k.next == Skip(s, p + |Text(Sym(c))|)
  {
    hide Skip, GetToken, IsSymbol;
    var e := p + |Text(Sym(c))|;
    assert s[p] == s[p..e][0];
    if c == '+' { assert s[p + 1] == s[p..e][1]; }
    SymbolToken(s, p, c);
  }

  lemma ReadsWord(s: string, p: nat, w: string, rest: string)
    requires var e := p + |w|;
             && e <= |s| && s[p..e] == w && w != "" && EndsToken(W(w), rest)
             && (forall i :: 0 <= i < |w| ==> IsWordChar(w[i])) && (rest == "" <==> e == |s|) && (rest != "" ==> s[e] == rest[0])
    ensures var k := GetToken(s, p);
            !k.kind.End? && TokOf(s, k) == W(w) && k.next == Skip(s, p + |w|)
  {
    hide Skip, GetToken, IsWordChar;
    forall i | p <= i < p + |w|
      ensures IsWordChar(s[i])
    {
      assert s[i] == w[i - p];
    }
    WordToken(s, p, p + |w|);
  }

  lemma SymbolToken(s: string, p: nat, c: char)
    requires p < |s|
    requires if c == '+' then p + 1 < |s| && s[p] == s[p + 1] == '>'
             else s[p] == c && IsSymbol(c) && (c == '>' && p + 1 < |s| ==> s[p + 1] != '>')
    ensures var n := if c == '+' then 2 else 1;
            GetToken(s, p) == Token(Symbol(c), Span(p, p + n), Skip(s, p + n))
  {
    SkipTo(s, p, p);
  }

  lemma WordToken(s: string, p: nat, e: nat)
    requires p < e <= |s| && (forall i :: p <= i < e ==> IsWordChar(s[i])) && (e < |s| ==> !IsWordChar(s[e]))
    ensures GetToken(s, p) == Token(Word, Span(p, e), Skip(s, e))
  {
    hide Skip, WordEnd;
    SkipTo(s, p, p);
    WordTo(s, p, e);
  }

  /** What is written after a token does not make it longer. */
  lemma SpelledEnds(t: Tok, ts: seq<Tok>, gaps: seq<string>)
    requires |gaps| == |ts| + 1 && Blank(gaps[0]) && (ts != [] ==> GoodTok(ts[0]) && (Clash(t, ts[0]) ==> gaps[0] != ""))
    ensures EndsToken(t, Spell(ts, gaps))
  {
    var s := Spell(ts, gaps);
    if s != "" {
      CharClasses(s[0]);
      if gaps[0] != "" { assert s[0] == gaps[0][0]; }
      else { assert s[0] == Text(ts[0])[0]; }
    }
  }

  lemma SpacedRest(ts: seq<Tok>, gaps: seq<string>)
    requires Spaced(ts, gaps) && ts != []
    ensures Spaced(ts[1..], gaps[1..]) && GoodTok(ts[0]) && Blank(gaps[0]) && Text(ts[0]) != "" && !IsSpace(Text(ts[0])[0])
    ensures EndsToken(ts[0], Spell(ts[1..], gaps[1..]))
  {
    hide IsSpace, IsSymbol, Spell, EndsToken, Blank;
    CharClasses(Text(ts[0])[0]);
    assert gaps[1..][0] == gaps[1];
    if |ts| > 1 { assert ts[1..][0] == ts[1]; }
    SpelledEnds(ts[0], ts[1..], gaps[1..]);
    forall i | 0 < i < |ts| - 1 && Clash(ts[1..][i - 1], ts[1..][i])
      ensures gaps[1..][i] != ""
    {
      assert ts[1..][i - 1] == ts[i + 1 - 1] && ts[1..][i] == ts[i + 1];
    }
  }

  lemma SpelledStep(s: string, p: nat, g: string, t: Tok, rest: string)
    requires p <= |s| && s[p..] == g + (Text(t) + rest) && Blank(g) && GoodTok(t) && EndsToken(t, rest)
    requires Text(t) != "" && !IsSpace(Text(t)[0])
    ensures var e := p + |g| + |Text(t)|;
            e <= |s| && s[e..] == rest && Toks(s, p) == [t] + Toks(s, e)
  {
    hide Toks, Skip, GetToken, Text, IsSpace, EndsToken, Blank, GoodTok, TokOf;
    SkipsBlank(s, p, g, Text(t) + rest);
    var q := p + |g|;
    ReadsToken(s, q, t, rest);
    ToksSkip(s, q + |Text(t)|);
    ToksSkip(s, p);
    ToksStep(s, q);
    assert Toks(s, q) == [Toks(s, q)[0]] + Toks(s, q)[1..];
  }

  /** However tokens are spaced, they are read back. */
  lemma {:induction false} SpellingReads(s: string, p: nat, ts: seq<Tok>, gaps: seq<string>)
    requires p <= |s| && Spaced(ts, gaps) && s[p..] == Spell(ts, gaps)
    ensures Toks(s, p) == ts
    decreases |ts|
  {
    hide Toks, Skip, Spaced, Text, IsSpace, EndsToken, Blank, GoodTok;
    GapsBlank(ts, gaps);
    if ts == [] {
      assert s[p..] == gaps[0] + "";
      SkipsBlank(s, p, gaps[0], "");
      AllRead(s, p);
    } else {
      SpacedRest(ts, gaps);
      SpelledStep(s, p, gaps[0], ts[0], Spell(ts[1..], gaps[1..]));
      SpellingReads(s, p + |gaps[0]| + |Text(ts[0])|, ts[1..], gaps[1..]);
      assert ts == [ts[0]] + ts[1..];
    }
  }

  lemma GapsBlank(ts: seq<Tok>, gaps: seq<string>)
    requires Spaced(ts, gaps)
    ensures |gaps| == |ts| + 1 && Blank(gaps[0])
  {
  }

  /** The first token is written where it was found, and what follows does not clash with it. */
  lemma TokenText(s: string, p: nat)
    requires p <= |s| && !GetToken(s, p).kind.End?
    ensures var t := GetToken(s, p);
            && t.at.start == Skip(s, p) && t.next == Skip(s, t.at.end)
            && GoodTok(TokOf(s, t)) && Text(TokOf(s, t)) == s[t.at.start..t.at.end]
            && (Skip(s, t.at.end) == t.at.end && Toks(s, t.at.end) != [] ==> !Clash(TokOf(s, t), Toks(s, t.at.end)[0]))
  {
    hide Skip, WordEnd, Toks, GoodTok, IsWordChar;
    var t := GetToken(s, p);
    var q, e := t.at.start, t.at.end;
    GoodChars(TokOf(s, t));
    ToksStep(s, e);
    FirstTok(s, e);
  }

  /** Every input is its tokens, spaced somehow. */
  lemma {:induction false} IsSpelled(s: string, p: nat) returns (gaps: seq<string>)
    requires p <= |s|
    ensures Spaced(Toks(s, p), gaps) && s[p..] == Spell(Toks(s, p), gaps) && gaps[0] == s[p..Skip(s, p)]
    decreases |s| - p
  {
    hide Toks, Skip, GetToken, Text, TokOf, GoodTok, Clash, Blank, Spaced;
    ToksStep(s, p);
    SpaceIsBlank(s, p);
    var t := GetToken(s, p);
    if Toks(s, p) == [] {
      gaps := [s[p..]];
      AllRead(s, p);
      SpacedNone(s[p..]);
    } else {
      TokenText(s, p);
      var e := t.at.end;
      var more := IsSpelled(s, e);
      ToksSkip(s, e);
      gaps := [s[p..Skip(s, p)]] + more;
      assert gaps[1..] == more;
      SpacedMore(TokOf(s, t), Toks(s, e), gaps[0], more);
      assert Toks(s, p) == [TokOf(s, t)] + Toks(s, e);
      assert s[p..] == s[p..t.at.start] + (s[t.at.start..e] + s[e..]);
    }
  }

  lemma SpaceIsBlank(s: string, p: nat)
    requires p <= |s|
    ensures Blank(s[p..Skip(s, p)])
  {
    hide Skip, IsSpace;
    var g := s[p..Skip(s, p)];
    forall i | 0 <= i < |g|
      ensures g[i] in " \t\r\n\U{000B}"
    {
      CharClasses(s[p + i]);
    }
  }

  lemma SpacedNone(g: string)
    requires Blank(g)
    ensures Spaced([], [g])
  {
  }

  lemma SpacedMore(t: Tok, ts: seq<Tok>, g: string, gaps: seq<string>)
    requires Spaced(ts, gaps) && GoodTok(t) && Blank(g) && (ts != [] && Clash(t, ts[0]) ==> gaps[0] != "")
    ensures Spaced([t] + ts, [g] + gaps)
  {
    hide GoodTok, Blank, Clash;
    var us, hs := [t] + ts, [g] + gaps;
    forall i | 0 < i < |us| && Clash(us[i - 1], us[i])
      ensures hs[i] != ""
    {
      if i > 1 { assert us[i - 1] == ts[i - 1 - 1] && us[i] == ts[i - 1]; }
    }
  }

  /** An input is a line exactly when it is the tokens of the line, spaced in any way. */
  lemma LineIsSpelled(s: string, l: Line)
    ensures IsLine(s, l) <==> GoodLine(l) && exists gaps :: Spaced(LineToks(l), gaps) && s == Spell(LineToks(l), gaps)
  {
    hide Toks, GoodLine, LineToks, Spell, Blank, GoodTok, Clash;
    assert s[0..] == s;
    if IsLine(s, l) {
      var gaps := IsSpelled(s, 0);
      assert Spaced(LineToks(l), gaps) && s == Spell(LineToks(l), gaps);
    }
    forall gaps | Spaced(LineToks(l), gaps) && s == Spell(LineToks(l), gaps)
      ensures Toks(s, 0) == LineToks(l)
    {
      SpellingReads(s, 0, LineToks(l), gaps);
    }
  }

  // ---------------------------------------------------------------- consequences

  predicate AllGood(ts: seq<Tok>) {
    forall i :: 0 <= i < |ts| ==> GoodTok(ts[i])
  }

  /** The tokens with a blank before, between and after them. */
  function Show(ts: seq<Tok>): (s: string) {
    Spell(ts, seq(|ts| + 1, _ => " "))
  }

  lemma Shown(l: Line)
    requires GoodLine(l) && AllGood(LineToks(l))
    ensures IsLine(Show(LineToks(l)), l)
  {
    hide GoodLine, LineToks, GoodTok, Clash, Spell, IsLine;
    var gaps := seq(|LineToks(l)| + 1, _ => " ");
    assert Spaced(LineToks(l), gaps);
    LineIsSpelled(Show(LineToks(l)), l);
  }

  /** The language is not ambiguous: the tokens of a line decide what it means. */
  lemma Unambiguous(l: Line, m: Line)
    requires GoodLine(l) && GoodLine(m) && LineToks(l) == LineToks(m) && AllGood(LineToks(l)) && LineFits(l)
    ensures LineFits(m) && LineMeans(l) == LineMeans(m)
  {
    hide GoodLine, LineToks, AllGood, LineFits, LineMeans, ParseCmd, IsLine, Show;
    var s := Show(LineToks(l));
    Shown(l);
    Shown(m);
    ParsesLine(s, l);
    ParsesLine(s, m);
  }

  lemma OneCommand(c: Command, k: nat)
    requires k <= 1
    ensures var l := Last(Single(c), k);
            && LineMeans(l) == (if k == 0 then CommandMeans(c) else Back(CommandMeans(c)))
            && (LineFits(l) <==> CommandFits(c)) && (GoodLine(l) <==> GoodCommand(c))
            && LineToks(l) == CommandToks(c) + if k == 0 then [] else [Sym('&')]
  {
    hide CommandMeans, CommandFits, GoodCommand, CommandToks;
    assert Backed(Back(CommandMeans(c)), 0) == Back(CommandMeans(c));
    assert Amps(0) == [];
  }

  lemma TwoCommands(c: Command, d: Command)
    ensures var l := Last(Piped(c, Single(d)), 0);
            && LineMeans(l) == Pipe(CommandMeans(c), CommandMeans(d))
            && (LineFits(l) <==> CommandFits(c) && CommandFits(d)) && (GoodLine(l) <==> GoodCommand(c) && GoodCommand(d))
            && LineToks(l) == CommandToks(c) + ([Sym('|')] + CommandToks(d))
  {
    hide CommandMeans, CommandFits, GoodCommand, CommandToks;
    var x := Single(d);
    assert PipelineMeans(x) == CommandMeans(d) && PipelineToks(x) == CommandToks(d);
    assert (PipelineFits(x) <==> CommandFits(d)) && (GoodPipeline(x) <==> GoodCommand(d));
    assert Amps(0) == [];
  }

  lemma CommandThen(c: Command, r: Line)
    ensures var l := Then(Single(c), 0, r);
            && LineMeans(l) == List(CommandMeans(c), LineMeans(r))
            && (LineFits(l) <==> CommandFits(c) && LineFits(r)) && (GoodLine(l) <==> GoodCommand(c) && GoodLine(r))
            && LineToks(l) == CommandToks(c) + ([Sym(';')] + LineToks(r))
  {
    hide CommandMeans, CommandFits, GoodCommand, CommandToks;
    assert Amps(0) == [];
    assert [] + ([Sym(';')] + LineToks(r)) == [Sym(';')] + LineToks(r);
  }

  /** `>>` is read as `>` is. */
  lemma AppendIsWrite(s: string, l: Line, f: string)
    requires IsLine(s, Last(Single(Block(l, [Redirect('+', f)])), 0)) && LineFits(l)
    ensures ParseCmd(s).Ok? && ReadsAs(s, ParseCmd(s).cmd, Redir(LineMeans(l), f, true))
  {
    hide ParseCmd, ReadsAs, IsLine, LineMeans, LineFits;
    var r := Redirect('+', f);
    OneCommand(Block(l, [r]), 0);
    ParsesLine(s, Last(Single(Block(l, [r])), 0));
    assert [r][1..] == [];
    assert Redirected(Redir(LineMeans(l), f, true), []) == Redir(LineMeans(l), f, true);
  }

  function Pieces(ws: seq<string>): (ps: seq<Piece>) {
    seq(|ws|, i requires 0 <= i < |ws| => Arg(ws[i]))
  }

  /** A tree as a command in parentheses. */
  function Paren(t: Cmd<string>, rs: seq<Redirect>): (c: Command)
    decreases t, 1
  {
    Block(LineFor(t), rs)
  }

  /** A line that means a given tree. */
  function LineFor(t: Cmd<string>): (l: Line)
    decreases t, 0
  {
    match t
    case Exec(ws) => Last(Single(Simple(Pieces(ws))), 0)
    case Redir(c, f, out) => Last(Single(Paren(c, [Redirect(if out then '>' else '<', f)])), 0)
    case Pipe(l, r) => Last(Piped(Paren(l, []), Single(Paren(r, []))), 0)
    case List(l, r) => Then(Single(Paren(l, [])), 0, LineFor(r))
    case Back(c) => Last(Single(Paren(c, [])), 1)
  }

  function Print(t: Cmd<string>): (s: string) {
    Show(LineToks(LineFor(t)))
  }

  /** Words that can be read back. */
  predicate GoodWords(t: Cmd<string>) {
    match t
    case Exec(ws) => forall i :: 0 <= i < |ws| ==> GoodWord(ws[i])
    case Redir(c, f, _) => GoodWords(c) && GoodWord(f)
    case Pipe(l, r) => GoodWords(l) && GoodWords(r)
    case List(l, r) => GoodWords(l) && GoodWords(r)
    case Back(c) => GoodWords(c)
  }

  /** No command has more arguments than `argv` has room for. */
  predicate Small(t: Cmd<string>) {
    match t
    case Exec(ws) => |ws| < MAXARGS
    case Redir(c, _, _) => Small(c)
    case Pipe(l, r) => Small(l) && Small(r)
    case List(l, r) => Small(l) && Small(r)
    case Back(c) => Small(c)
  }

  lemma {:induction false} ArgPieces(ws: seq<string>)
    requires forall i :: 0 <= i < |ws| ==> GoodWord(ws[i])
    ensures Args(Pieces(ws)) == ws && Reds(Pieces(ws)) == [] && AllGood(PiecesToks(Pieces(ws)))
    decreases |ws|
  {
    hide GoodWord;
    if ws != [] {
      assert Pieces(ws)[1..] == Pieces(ws[1..]);
      ArgPieces(ws[1..]);
    }
  }

  /** A tree in parentheses, with at most one redirection. */
  lemma ParenIs(t: Cmd<string>, rs: seq<Redirect>)
    requires LineMeans(LineFor(t)) == t && GoodLine(LineFor(t)) && AllGood(LineToks(LineFor(t)))
    requires |rs| <= 1 && forall i :: 0 <= i < |rs| ==> (rs[i].op == '<' || rs[i].op == '>') && GoodWord(rs[i].file)
    ensures var c := Paren(t, rs);
            && GoodCommand(c) && AllGood(CommandToks(c)) && (CommandFits(c) <==> LineFits(LineFor(t)))
            && CommandMeans(c) == if rs == [] then t else Redir(t, rs[0].file, rs[0].op != '<')
  {
    hide LineFor, LineMeans, GoodLine, LineToks, LineFits, GoodWord;
    if rs != [] {
      assert rs[1..] == [];
      assert RedsToks(rs) == RedToks(rs[0]) + RedsToks([]);
      assert Redirected(Redir(t, rs[0].file, rs[0].op != '<'), []) == Redir(t, rs[0].file, rs[0].op != '<');
    }
  }

  /** Every tree is what some line means. */
  lemma {:induction false} Expressible(t: Cmd<string>)
    requires GoodWords(t)
    ensures LineMeans(LineFor(t)) == t && GoodLine(LineFor(t)) && AllGood(LineToks(LineFor(t)))
    ensures LineFits(LineFor(t)) <==> Small(t)
    decreases t
  {
    hide Paren, GoodWord, GoodTok, GoodReds, CommandToks, CommandMeans, CommandFits, GoodCommand;
    hide LineMeans, LineFits, GoodLine, LineToks;
    match t {
      case Exec(ws) =>
        ArgPieces(ws);
        SimpleIs(Pieces(ws));
        OneCommand(Simple(Pieces(ws)), 0);
      case Redir(c, f, out) =>
        var r := Redirect(if out then '>' else '<', f);
        Expressible(c);
        ParenIs(c, [r]);
        OneCommand(Paren(c, [r]), 0);
      case Pipe(l, r) =>
        Expressible(l);
        Expressible(r);
        ParenIs(l, []);
        ParenIs(r, []);
        TwoCommands(Paren(l, []), Paren(r, []));
        GoodSym('|');
      case List(l, r) =>
        Expressible(l);
        Expressible(r);
        ParenIs(l, []);
        CommandThen(Paren(l, []), LineFor(r));
        GoodSym(';');
      case Back(c) =>
        Expressible(c);
        ParenIs(c, []);
        OneCommand(Paren(c, []), 1);
        GoodSym('&');
    }
  }

  lemma GoodSym(c: char)
    requires c == '|' || c == ';' || c == '&'
    ensures GoodTok(Sym(c))
  {
  }

  lemma SimpleIs(ps: seq<Piece>)
    requires Reds(ps) == []
    ensures GoodCommand(Simple(ps)) && CommandMeans(Simple(ps)) == Exec(Args(ps)) && CommandToks(Simple(ps)) == PiecesToks(ps)
    ensures CommandFits(Simple(ps)) <==> |Args(ps)| < MAXARGS
  {
  }

  /** The printed form of a command tree is read back as the same tree, exactly when no command in
      it has more than nine arguments. */
  lemma RoundTrip(t: Cmd<string>)
    requires GoodWords(t)
    ensures var r := ParseCmd(Print(t));
            && (r.Ok? <==> Small(t))
            && (r.Ok? ==> ReadsAs(Print(t), r.cmd, t))
  {
    hide GoodLine, LineToks, AllGood, LineFits, LineMeans, LineFor, ParseCmd, IsLine, Show, ReadsAs;
    Expressible(t);
    Shown(LineFor(t));
    ParsesLine(Print(t), LineFor(t));
  }
}
