/** The command language of sh.c, as functions from a position in the input.

    `s` is the input line without its terminating NUL, so `|s|` is the position `es`. */
module ShellGrammar {

  const MAXARGS: nat := 10

  // ---------------------------------------------------------------- tokens

  predicate IsSpace(c: char) {
    c == ' ' || c == '\t' || c == '\r' || c == '\n' || c == '\U{000B}'
  }

  predicate IsSymbol(c: char) {
    c == '<' || c == '|' || c == '>' || c == '&' || c == ';' || c == '(' || c == ')'
  }

  predicate IsWordChar(c: char) {
    !IsSpace(c) && !IsSymbol(c)
  }

  /** The first position from `p` on that is not whitespace. */
  function Skip(s: string, p: nat): (q: nat)
    requires p <= |s|
    ensures p <= q <= |s| && (q < |s| ==> !IsSpace(s[q])) && forall i :: p <= i < q ==> IsSpace(s[i])
    decreases |s| - p
  {
    if p < |s| && IsSpace(s[p]) then Skip(s, p + 1) else p
  }

  /** The first position from `p` on that is not in a word. */
  function WordEnd(s: string, p: nat): (q: nat)
    requires p <= |s|
    ensures p <= q <= |s| && (q < |s| ==> !IsWordChar(s[q])) && forall i :: p <= i < q ==> IsWordChar(s[i])
    decreases |s| - p
  {
    if p < |s| && IsWordChar(s[p]) then WordEnd(s, p + 1) else p
  }

  /** What `gettoken` finds: the end of the input, a symbol (`+` for `>>`), or a word. */
  datatype Kind = End | Symbol(c: char) | Word

  /** A stretch of the input. */
  datatype Span = Span(start: nat, end: nat)

  datatype Token = Token(kind: Kind, at: Span, next: nat)

  function GetToken(s: string, p: nat): (t: Token)
    requires p <= |s|
    ensures p <= t.at.start <= t.at.end <= t.next <= |s| && (t.kind.End? <==> t.at.start == |s|)
    ensures !t.kind.End? ==> t.at.start < t.at.end
    ensures t.kind.Word? ==> IsWord(s, t.at)
  {
    var q := Skip(s, p);
    if q == |s| then Token(End, Span(q, q), q)
    else if s[q] == '>' && q + 1 < |s| && s[q + 1] == '>' then Token(Symbol('+'), Span(q, q + 2), Skip(s, q + 2))
    else if IsSymbol(s[q]) then Token(Symbol(s[q]), Span(q, q + 1), Skip(s, q + 1))
    else var e := WordEnd(s, q); Token(Word, Span(q, e), Skip(s, e))
  }

  /** A longest possible word of the input. */
  predicate IsWord(s: string, w: Span) {
    && w.start < w.end <= |s| && (forall i :: w.start <= i < w.end ==> IsWordChar(s[i]))
    && (w.end < |s| ==> !IsWordChar(s[w.end]))
  }

  /** The next character that is not whitespace is one of `toks`. */
  predicate Peek(s: string, p: nat, toks: string)
    requires p <= |s|
  {
    var q := Skip(s, p);
    q < |s| && s[q] in toks
  }

  // ---------------------------------------------------------------- commands

  /** A command; in `Redir`, `out` tells `>` from `<`. */
  datatype Cmd<W> =
    | Exec(argv: seq<W>)
    | Redir(cmd: Cmd<W>, file: W, out: bool)
    | Pipe(left: Cmd<W>, right: Cmd<W>)
    | List(left: Cmd<W>, right: Cmd<W>)
    | Back(cmd: Cmd<W>)

  datatype Error = MissingFile | MissingParen | Syntax | TooManyArgs | Leftovers

  datatype Result = Ok(cmd: Cmd<Span>, pos: nat) | Err(error: Error)

  /** A redirection that is still to be put around its command. */
  datatype Redirection = Redirection(file: Span, out: bool)

  datatype Redirs = Redirs(list: seq<Redirection>, pos: nat) | NoFile

  function Wrap(c: Cmd<Span>, rs: seq<Redirection>): (r: Cmd<Span>) {
    if rs == [] then c else Redir(Wrap(c, rs[..|rs| - 1]), rs[|rs| - 1].file, rs[|rs| - 1].out)
  }

  /** A command with the redirections that follow it. */
  function After(c: Cmd<Span>, rs: Redirs): (r: Result) {
    if rs.NoFile? then Err(MissingFile) else Ok(Wrap(c, rs.list), rs.pos)
  }

  /** `parseredirs`. */
  function ParseRedirs(s: string, p: nat, rs: seq<Redirection>): (r: Redirs)
    requires p <= |s|
    ensures r.Redirs? ==> p <= r.pos <= |s| && !Peek(s, r.pos, "<>")
    decreases |s| - p
  {
    if Peek(s, p, "<>") then
      var t := GetToken(s, p);
      var f := GetToken(s, t.next);
      if !f.kind.Word? then NoFile
      else ParseRedirs(s, f.next, rs + [Redirection(f.at, t.kind != Symbol('<'))])
    else Redirs(rs, Skip(s, p))
  }

  /** The loop of `parseexec`. */
  function ParseArgs(s: string, p: nat, args: seq<Span>, rs: seq<Redirection>): (r: Result)
    requires p <= |s|
    ensures r.Ok? ==> p <= r.pos <= |s|
    decreases |s| - p
  {
    var t := GetToken(s, p);
    if Peek(s, p, "|)&;") || t.kind.End? then Ok(Wrap(Exec(args), rs), Skip(s, p))
    else if !t.kind.Word? then Err(Syntax)
    else if |args| + 1 >= MAXARGS then Err(TooManyArgs)
    else
      match ParseRedirs(s, t.next, rs)
      case NoFile => Err(MissingFile)
      case Redirs(rs', q) => ParseArgs(s, q, args + [t.at], rs')
  }

  function ParseExec(s: string, p: nat): (r: Result)
    requires p <= |s|
    ensures r.Ok? ==> p <= r.pos <= |s|
    decreases |s| - p, 1
  {
    if Peek(s, p, "(") then ParseBlock(s, p)
    else
      match ParseRedirs(s, p, [])
      case NoFile => Err(MissingFile)
      case Redirs(rs, q) => ParseArgs(s, q, [], rs)
  }

  function ParseBlock(s: string, p: nat): (r: Result)
    requires p <= |s| && Peek(s, p, "(")
    ensures r.Ok? ==> p <= r.pos <= |s|
    decreases |s| - p, 0
  {
    var c := ParseLine(s, GetToken(s, p).next);
    if c.Err? then c
    else if !Peek(s, c.pos, ")") then Err(MissingParen)
    else After(c.cmd, ParseRedirs(s, GetToken(s, c.pos).next, []))
  }

  function ParsePipe(s: string, p: nat): (r: Result)
    requires p <= |s|
    ensures r.Ok? ==> p <= r.pos <= |s|
    decreases |s| - p, 2
  {
    var c := ParseExec(s, p);
    if c.Err? then c
    else if Peek(s, c.pos, "|") then
      var d := ParsePipe(s, GetToken(s, c.pos).next);
      if d.Err? then d else Ok(Pipe(c.cmd, d.cmd), d.pos)
    else Ok(c.cmd, Skip(s, c.pos))
  }

  /** The loop of `parseline` over `&`. */
  function ParseBacks(s: string, p: nat, c: Cmd<Span>): (r: Result)
    requires p <= |s|
    ensures r.Ok? && p <= r.pos <= |s|
    decreases |s| - p
  {
    if Peek(s, p, "&") then ParseBacks(s, GetToken(s, p).next, Back(c)) else Ok(c, Skip(s, p))
  }

  function ParseLine(s: string, p: nat): (r: Result)
    requires p <= |s|
    ensures r.Ok? ==> p <= r.pos <= |s|
    decreases |s| - p, 3
  {
    var c := ParsePipe(s, p);
    if c.Err? then c
    else
      var b := ParseBacks(s, c.pos, c.cmd);
      if Peek(s, b.pos, ";") then
        var d := ParseLine(s, GetToken(s, b.pos).next);
        if d.Err? then d else Ok(List(b.cmd, d.cmd), d.pos)
      else Ok(b.cmd, Skip(s, b.pos))
  }

  function ParseCmd(s: string): (r: Result)
    ensures r.Ok? ==> r.pos == |s|
  {
    var c := ParseLine(s, 0);
    if c.Ok? && Skip(s, c.pos) != |s| then Err(Leftovers) else if c.Ok? then Ok(c.cmd, |s|) else c
  }

  // ---------------------------------------------------------------- one step at a time

  lemma SkipAgain(s: string, p: nat)
    requires p <= |s|
    ensures Skip(s, Skip(s, p)) == Skip(s, p)
  {
  }

  lemma PeekAgain(s: string, p: nat, toks: string)
    requires p <= |s|
    ensures Skip(s, Skip(s, p)) == Skip(s, p) && Peek(s, Skip(s, p), toks) == Peek(s, p, toks)
  {
  }

  lemma TokenAgain(s: string, p: nat)
    requires p <= |s|
    ensures GetToken(s, Skip(s, p)) == GetToken(s, p)
  {
    SkipAgain(s, p);
  }

  lemma RedirsAgain(s: string, p: nat, rs: seq<Redirection>)
    requires p <= |s|
    ensures ParseRedirs(s, Skip(s, p), rs) == ParseRedirs(s, p, rs)
  {
    hide Skip, GetToken, Peek;
    SkipAgain(s, p);
    PeekAgain(s, p, "<>");
    TokenAgain(s, p);
  }

  lemma BlockAgain(s: string, p: nat)
    requires p <= |s| && Peek(s, p, "(")
    ensures Peek(s, Skip(s, p), "(") && ParseBlock(s, Skip(s, p)) == ParseBlock(s, p)
  {
    PeekAgain(s, p, "(");
    TokenAgain(s, p);
  }

  /** One round of `parseredirs`. */
  lemma RedirsStep(s: string, p: nat, rs: seq<Redirection>)
    requires p <= |s|
    ensures !Peek(s, p, "<>") ==> ParseRedirs(s, p, rs) == Redirs(rs, Skip(s, p))
    ensures var t := GetToken(s, p);
            var f := GetToken(s, t.next);
            Peek(s, p, "<>") ==>
              && t.next > p
              && ParseRedirs(s, p, rs) ==
                   if f.kind.Word? then ParseRedirs(s, f.next, rs + [Redirection(f.at, t.kind != Symbol('<'))]) else NoFile
  {
  }

  /** One round of the loop of `parseexec`. */
  lemma ArgsStep(s: string, p: nat, args: seq<Span>, rs: seq<Redirection>)
    requires p <= |s|
    ensures var t := GetToken(s, p);
            if Peek(s, p, "|)&;") || t.kind.End? then ParseArgs(s, p, args, rs) == Ok(Wrap(Exec(args), rs), Skip(s, p))
            else if !t.kind.Word? then ParseArgs(s, p, args, rs) == Err(Syntax)
            else if |args| + 1 >= MAXARGS then ParseArgs(s, p, args, rs) == Err(TooManyArgs)
            else
              && t.next > p
              && match ParseRedirs(s, t.next, rs)
                 case NoFile => ParseArgs(s, p, args, rs) == Err(MissingFile)
                 case Redirs(rs', q) => ParseArgs(s, p, args, rs) == ParseArgs(s, q, args + [t.at], rs')
  {
  }

  lemma BacksStep(s: string, p: nat, c: Cmd<Span>)
    requires p <= |s|
    ensures ParseBacks(s, p, c) ==
              if Peek(s, p, "&") then ParseBacks(s, GetToken(s, p).next, Back(c)) else Ok(c, Skip(s, p))
  {
  }

  lemma EndSkip(s: string, p: nat)
    requires p <= |s| && GetToken(s, p).kind.End?
    ensures GetToken(s, p).next == Skip(s, p)
  {
  }

  lemma PeekedToken(s: string, p: nat, toks: string)
    requires p <= |s| && Peek(s, p, toks)
    ensures GetToken(s, p).next > p
  {
  }

  lemma BlockStep(s: string, p: nat)
    requires p <= |s| && Peek(s, p, "(")
    ensures var c := ParseLine(s, GetToken(s, p).next);
            && ParseExec(s, p) == ParseBlock(s, p)
            && ParseBlock(s, p) ==
                 if c.Err? then c
                 else if !Peek(s, c.pos, ")") then Err(MissingParen)
                 else After(c.cmd, ParseRedirs(s, GetToken(s, c.pos).next, []))
  {
  }

  // ---------------------------------------------------------------- what a parsed command holds

  /** Every argument and file name is a word of the input, and `argv` has room for the arguments. */
  predicate Sound(s: string, c: Cmd<Span>) {
    match c
    case Exec(ws) => |ws| < MAXARGS && forall i :: 0 <= i < |ws| ==> IsWord(s, ws[i])
    case Redir(d, f, _) => Sound(s, d) && IsWord(s, f)
    case Pipe(l, r) => Sound(s, l) && Sound(s, r)
    case List(l, r) => Sound(s, l) && Sound(s, r)
    case Back(d) => Sound(s, d)
  }

  predicate SoundFiles(s: string, rs: seq<Redirection>) {
    forall i :: 0 <= i < |rs| ==> IsWord(s, rs[i].file)
  }

  lemma {:induction false} WrapSound(s: string, c: Cmd<Span>, rs: seq<Redirection>)
    requires Sound(s, c) && SoundFiles(s, rs)
    ensures Sound(s, Wrap(c, rs))
    decreases |rs|
  {
    if rs != [] { WrapSound(s, c, rs[..|rs| - 1]); }
  }

  lemma {:induction false} RedirsSound(s: string, p: nat, rs: seq<Redirection>)
    requires p <= |s| && SoundFiles(s, rs)
    ensures ParseRedirs(s, p, rs).Redirs? ==> SoundFiles(s, ParseRedirs(s, p, rs).list)
    decreases |s| - p
  {
    hide ParseRedirs;
    RedirsStep(s, p, rs);
    var t := GetToken(s, p);
    var f := GetToken(s, t.next);
    if Peek(s, p, "<>") && f.kind.Word? {
      RedirsSound(s, f.next, rs + [Redirection(f.at, t.kind != Symbol('<'))]);
    }
  }

  lemma {:induction false} ArgsSound(s: string, p: nat, args: seq<Span>, rs: seq<Redirection>)
    requires p <= |s| && |args| < MAXARGS && (forall i :: 0 <= i < |args| ==> IsWord(s, args[i])) && SoundFiles(s, rs)
    ensures ParseArgs(s, p, args, rs).Ok? ==> Sound(s, ParseArgs(s, p, args, rs).cmd)
    decreases |s| - p
  {
    hide ParseArgs, ParseRedirs;
    ArgsStep(s, p, args, rs);
    WrapSound(s, Exec(args), rs);
    var t := GetToken(s, p);
    if t.kind.Word? && |args| + 1 < MAXARGS && !Peek(s, p, "|)&;") {
      RedirsSound(s, t.next, rs);
      var r := ParseRedirs(s, t.next, rs);
      if r.Redirs? { ArgsSound(s, r.pos, args + [t.at], r.list); }
    }
  }

  lemma {:induction false} ExecSound(s: string, p: nat)
    requires p <= |s|
    ensures ParseExec(s, p).Ok? ==> Sound(s, ParseExec(s, p).cmd)
    decreases |s| - p, 1
  {
    hide ParseArgs, ParseRedirs, ParseLine, Sound, GetToken;
    if Peek(s, p, "(") {
      BlockStep(s, p);
      PeekedToken(s, p, "(");
      LineSound(s, GetToken(s, p).next);
      var c := ParseLine(s, GetToken(s, p).next);
      if c.Ok? {
        var q := GetToken(s, c.pos).next;
        RedirsSound(s, q, []);
        var r := ParseRedirs(s, q, []);
        if r.Redirs? { WrapSound(s, c.cmd, r.list); }
      }
    } else {
      RedirsSound(s, p, []);
      var r := ParseRedirs(s, p, []);
      if r.Redirs? { ArgsSound(s, r.pos, [], r.list); }
    }
  }

  lemma {:induction false} PipeSound(s: string, p: nat)
    requires p <= |s|
    ensures ParsePipe(s, p).Ok? ==> Sound(s, ParsePipe(s, p).cmd)
    decreases |s| - p, 2
  {
    hide ParseExec, GetToken;
    ExecSound(s, p);
    var c := ParseExec(s, p);
    if c.Ok? && Peek(s, c.pos, "|") {
      PeekedToken(s, c.pos, "|");
      PipeSound(s, GetToken(s, c.pos).next);
    }
  }

  lemma {:induction false} BacksSound(s: string, p: nat, c: Cmd<Span>)
    requires p <= |s| && Sound(s, c)
    ensures Sound(s, ParseBacks(s, p, c).cmd)
    decreases |s| - p
  {
    hide ParseBacks;
    BacksStep(s, p, c);
    if Peek(s, p, "&") {
      PeekedToken(s, p, "&");
      BacksSound(s, GetToken(s, p).next, Back(c));
    }
  }

  lemma {:induction false} LineSound(s: string, p: nat)
    requires p <= |s|
    ensures ParseLine(s, p).Ok? ==> Sound(s, ParseLine(s, p).cmd)
    decreases |s| - p, 3
  {
    hide ParsePipe, ParseBacks, GetToken;
    PipeSound(s, p);
    var c := ParsePipe(s, p);
    if c.Ok? {
      BacksSound(s, c.pos, c.cmd);
      var b := ParseBacks(s, c.pos, c.cmd);
      if Peek(s, b.pos, ";") {
        PeekedToken(s, b.pos, ";");
        LineSound(s, GetToken(s, b.pos).next);
      }
    }
  }

  /** Whatever the shell accepts, it has cut into words of the line. */
  lemma ParsedIsSound(s: string)
    ensures ParseCmd(s).Ok? ==> Sound(s, ParseCmd(s).cmd)
  {
    hide ParseLine, Sound;
    LineSound(s, 0);
  }
}
