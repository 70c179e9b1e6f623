/** The parser of sh.c: a cursor that its functions move along the line, and `nulterminate`, which
    cuts the line into strings in place.  A panic is an error result. */
module ShellCode {
  import opened Common
  import opened ShellGrammar
  import ShellLines

  class Parser {
    const s: string
    var pos: nat

    ghost predicate Valid()
      reads this
    {
      pos <= |s|
    }

    constructor (s: string)
      ensures Valid() && this.s == s && pos == 0
    {
      this.s := s;
      pos := 0;
    }

    /** The loops over whitespace. */
    method SkipSpace(from: nat) returns (q: nat)
      requires from <= |s|
      ensures q == Skip(s, from)
    {
      q := from;
      while q < |s| && IsSpace(s[q])
        invariant from <= q <= |s| && Skip(s, q) == Skip(s, from)
      {
        q := q + 1;
      }
    }

    /** `gettoken`. */
    method NextToken() returns (kind: Kind, at: Span)
      requires Valid()
      modifies this`pos
      ensures Valid() && Token(kind, at, pos) == GetToken(s, old(pos))
    {
      var p := SkipSpace(pos);
      var q := p;
      if p == |s| {
        kind := End;
      } else if s[p] == '|' || s[p] == '(' || s[p] == ')' || s[p] == ';' || s[p] == '&' || s[p] == '<' {
        kind := Symbol(s[p]);
        p := p + 1;
      } else if s[p] == '>' {
        kind := Symbol('>');
        p := p + 1;
        if p < |s| && s[p] == '>' {
          kind := Symbol('+');
          p := p + 1;
        }
      } else {
        kind := Word;
        while p < |s| && IsWordChar(s[p])
          invariant q <= p <= |s| && WordEnd(s, p) == WordEnd(s, q)
        {
          p := p + 1;
        }
      }
      at := Span(q, p);
      pos := SkipSpace(p);
    }

    /** `peek`. */
    method PeekFor(toks: string) returns (r: bool)
      requires Valid()
      modifies this`pos
      ensures Valid() && pos == Skip(s, old(pos)) && r == Peek(s, old(pos), toks)
    {
      pos := SkipSpace(pos);
      r := pos < |s| && s[pos] in toks;
    }

    /** `parseredirs`, for the redirections met so far; None is a missing file name. */
    method Redirections(rs0: seq<Redirection>) returns (r: Option<seq<Redirection>>)
      requires Valid()
      modifies this`pos
      ensures Valid()
      ensures ParseRedirs(s, old(pos), rs0) == if r.None? then NoFile else Redirs(r.value, pos)
    {
      hide Skip, GetToken, Peek, ParseRedirs;
      var rs := rs0;
      ghost var p := pos;
      var more := PeekFor("<>");
      while more
        invariant Valid() && p <= |s| && pos == Skip(s, p) && more == Peek(s, p, "<>")
        invariant ParseRedirs(s, old(pos), rs0) == ParseRedirs(s, p, rs)
        decreases |s| - p
      {
        RedirsStep(s, p, rs);
        TokenAgain(s, p);
        var kind, at := NextToken();
        var fkind, file := NextToken();
        if !fkind.Word? {
          return None;
        }
        rs := rs + [Redirection(file, kind != Symbol('<'))];
        p := pos;
        more := PeekFor("<>");
      }
      RedirsStep(s, p, rs);
      r := Some(rs);
    }

    /** The arguments of a command, with redirections between them: the loop of `parseexec`. */
    method Arguments(rs0: seq<Redirection>) returns (r: Result)
      requires Valid()
      modifies this`pos
      ensures Valid() && r == ParseArgs(s, old(pos), [], rs0) && (r.Ok? ==> r.pos == pos)
    {
      hide Skip, GetToken, Peek, ParseRedirs, ParseArgs;
      var args, rs := [], rs0;
      ghost var p := pos;
      var stop := PeekFor("|)&;");
      while !stop
        invariant Valid() && p <= |s| && pos == Skip(s, p) && stop == Peek(s, p, "|)&;") && |args| < MAXARGS
        invariant ParseArgs(s, old(pos), [], rs0) == ParseArgs(s, p, args, rs)
        decreases |s| - p, !stop
      {
        ArgsStep(s, p, args, rs);
        TokenAgain(s, p);
        var kind, at := NextToken();
        if kind.End? {
          EndSkip(s, p);
          return Ok(Wrap(Exec(args), rs), pos);
        }
        if !kind.Word? {
          return Err(Syntax);
        }
        args := args + [at];
        if |args| >= MAXARGS {
          return Err(TooManyArgs);
        }
        var more := Redirections(rs);
        if more.None? {
          return Err(MissingFile);
        }
        rs := more.value;
        p := pos;
        stop := PeekFor("|)&;");
      }
      ArgsStep(s, p, args, rs);
      r := Ok(Wrap(Exec(args), rs), pos);
    }

    /** `parseexec`. */
    method ExecCommand() returns (r: Result)
      requires Valid()
      modifies this`pos
      ensures Valid() && r == ParseExec(s, old(pos)) && (r.Ok? ==> r.pos == pos)
      decreases |s| - pos, 1
    {
      hide Skip, GetToken, Peek, ParseRedirs, ParseArgs, ParseBlock;
      var block := PeekFor("(");
      PeekAgain(s, old(pos), "(");
      if block {
        BlockAgain(s, old(pos));
        r := Block();
        return;
      }
      RedirsAgain(s, old(pos), []);
      var rs := Redirections([]);
      if rs.None? {
        return Err(MissingFile);
      }
      r := Arguments(rs.value);
    }

    /** `parseblock`. */
    method Block() returns (r: Result)
      requires Valid() && Peek(s, pos, "(")
      modifies this`pos
      ensures Valid() && r == ParseBlock(s, old(pos)) && (r.Ok? ==> r.pos == pos)
      decreases |s| - pos, 0
    {
      hide Skip, Peek, ParseRedirs, ParseLine;
      PeekedToken(s, pos, "(");
      var kind, at := NextToken();
      r := Line();
      if r.Err? {
        return;
      }
      ghost var p := pos;
      var close := PeekFor(")");
      if !close {
        return Err(MissingParen);
      }
      TokenAgain(s, p);
      kind, at := NextToken();
      var rs := Redirections([]);
      if rs.None? {
        return Err(MissingFile);
      }
      r := Ok(Wrap(r.cmd, rs.value), pos);
    }

    /** `parsepipe`. */
    method Pipeline() returns (r: Result)
      requires Valid()
      modifies this`pos
      ensures Valid() && r == ParsePipe(s, old(pos)) && (r.Ok? ==> r.pos == pos)
      decreases |s| - pos, 2
    {
      hide Skip, Peek, ParseExec;
      r := ExecCommand();
      if r.Err? {
        return;
      }
      ghost var p := pos;
      var more := PeekFor("|");
      r := r.(pos := pos);
      if more {
        PeekedToken(s, p, "|");
        TokenAgain(s, p);
        var kind, at := NextToken();
        var d := Pipeline();
        r := if d.Err? then d else Ok(Pipe(r.cmd, d.cmd), pos);
      }
    }

    /** `parseline`. */
    method Line() returns (r: Result)
      requires Valid()
      modifies this`pos
      ensures Valid() && r == ParseLine(s, old(pos)) && (r.Ok? ==> r.pos == pos)
      decreases |s| - pos, 3
    {
      hide Skip, Peek, GetToken, ParsePipe, ParseBacks;
      r := Pipeline();
      if r.Err? {
        return;
      }
      ghost var b := ParseBacks(s, pos, r.cmd);
      var cmd := r.cmd;
      ghost var p := pos;
      var back := PeekFor("&");
      while back
        invariant Valid() && old(pos) <= p <= |s| && pos == Skip(s, p) && back == Peek(s, p, "&")
        invariant b == ParseBacks(s, p, cmd)
        decreases |s| - p
      {
        BacksStep(s, p, cmd);
        PeekedToken(s, p, "&");
        TokenAgain(s, p);
        var kind, at := NextToken();
        cmd := Back(cmd);
        p := pos;
        back := PeekFor("&");
      }
      BacksStep(s, p, cmd);
      p := pos;
      var more := PeekFor(";");
      r := Ok(cmd, pos);
      if more {
        PeekedToken(s, p, ";");
        TokenAgain(s, p);
        var kind, at := NextToken();
        var d := Line();
        r := if d.Err? then d else Ok(List(cmd, d.cmd), pos);
      }
    }
  }

  // ---------------------------------------------------------------- cutting the line

  /** The positions where the words end. */
  ghost function Ends(c: Cmd<Span>): (e: set<nat>) {
    match c
    case Exec(ws) => EndsOf(ws)
    case Redir(d, f, _) => Ends(d) + {f.end}
    case Pipe(l, r) => Ends(l) + Ends(r)
    case List(l, r) => Ends(l) + Ends(r)
    case Back(d) => Ends(d)
  }

  ghost function EndsOf(ws: seq<Span>): (e: set<nat>)
    ensures forall i :: 0 <= i < |ws| ==> ws[i].end in e
  {
    if ws == [] then {} else EndsOf(ws[..|ws| - 1]) + {ws[|ws| - 1].end}
  }

  /** `nulterminate`: a NUL at the end of every word, and nothing else. */
  method NulTerminate(buf: array<char>, ghost s: string, c: Cmd<Span>)
    requires Sound(s, c) && buf.Length == |s| + 1
    modifies buf
    ensures forall i :: 0 <= i < buf.Length ==> buf[i] == if i in Ends(c) then '\0' else old(buf[i])
    decreases c
  {
    match c {
      case Exec(ws) =>
        var i := 0;
        while i < |ws|
          invariant i <= |ws|
          invariant forall k :: 0 <= k < buf.Length ==> buf[k] == if k in EndsOf(ws[..i]) then '\0' else old(buf[k])
        {
          assert IsWord(s, ws[i]);
          assert ws[..i + 1][..i] == ws[..i];
          buf[ws[i].end] := '\0';
          i := i + 1;
        }
        assert ws[..i] == ws;
      case Redir(d, f, _) =>
        NulTerminate(buf, s, d);
        buf[f.end] := '\0';
      case Pipe(l, r) =>
        NulTerminate(buf, s, l);
        NulTerminate(buf, s, r);
      case List(l, r) =>
        NulTerminate(buf, s, l);
        NulTerminate(buf, s, r);
      case Back(d) =>
        NulTerminate(buf, s, d);
    }
  }

  /** The C string at position `p`. */
  function CString(b: seq<char>, p: nat): (r: string)
    requires p <= |b|
    decreases |b| - p
  {
    if p == |b| || b[p] == '\0' then "" else [b[p]] + CString(b, p + 1)
  }

  /** The words of a command. */
  ghost predicate HasWord(c: Cmd<Span>, w: Span) {
    match c
    case Exec(ws) => w in ws
    case Redir(d, f, _) => w == f || HasWord(d, w)
    case Pipe(l, r) => HasWord(l, w) || HasWord(r, w)
    case List(l, r) => HasWord(l, w) || HasWord(r, w)
    case Back(d) => HasWord(d, w)
  }

  /** A NUL ends every word, and is never put inside one. */
  lemma {:induction false} EndsOutside(s: string, c: Cmd<Span>, e: nat)
    requires Sound(s, c) && e in Ends(c)
    ensures e <= |s| && (e < |s| ==> !IsWordChar(s[e]))
    decreases c
  {
    match c {
      case Exec(ws) => EndsAmong(s, ws, e);
      case Redir(d, f, _) => if e in Ends(d) { EndsOutside(s, d, e); }
      case Pipe(l, r) => if e in Ends(l) { EndsOutside(s, l, e); } else { EndsOutside(s, r, e); }
      case List(l, r) => if e in Ends(l) { EndsOutside(s, l, e); } else { EndsOutside(s, r, e); }
      case Back(d) => EndsOutside(s, d, e);
    }
  }

  lemma {:induction false} EndsAmong(s: string, ws: seq<Span>, e: nat)
    requires (forall i :: 0 <= i < |ws| ==> IsWord(s, ws[i])) && e in EndsOf(ws)
    ensures e <= |s| && (e < |s| ==> !IsWordChar(s[e]))
    decreases |ws|
  {
    assert IsWord(s, ws[|ws| - 1]);
    if e != ws[|ws| - 1].end { EndsAmong(s, ws[..|ws| - 1], e); }
  }

  lemma {:induction false} WordIsCut(s: string, c: Cmd<Span>, w: Span)
    requires Sound(s, c) && HasWord(c, w)
    ensures IsWord(s, w) && w.end in Ends(c)
    decreases c
  {
    match c {
      case Exec(ws) =>
        var i :| 0 <= i < |ws| && ws[i] == w;
      case Redir(d, f, _) => if w != f { WordIsCut(s, d, w); }
      case Pipe(l, r) => if HasWord(l, w) { WordIsCut(s, l, w); } else { WordIsCut(s, r, w); }
      case List(l, r) => if HasWord(l, w) { WordIsCut(s, l, w); } else { WordIsCut(s, r, w); }
      case Back(d) => WordIsCut(s, d, w);
    }
  }

  lemma {:induction false} StringAt(b: seq<char>, p: nat, e: nat)
    requires p <= e < |b| && b[e] == '\0' && forall i :: p <= i < e ==> b[i] != '\0'
    ensures CString(b, p) == b[p..e]
    decreases e - p
  {
    if p < e {
      StringAt(b, p + 1, e);
      assert b[p..e] == [b[p]] + b[p + 1..e];
    }
  }

  /** After `nulterminate`, the pointer to each word reads exactly that word. */
  lemma WordReadsBack(s: string, c: Cmd<Span>, b: seq<char>, w: Span)
    requires Sound(s, c) && HasWord(c, w) && |b| == |s| + 1 && '\0' !in s
    requires forall i :: 0 <= i < |b| ==> b[i] == if i in Ends(c) then '\0' else (s + ['\0'])[i]
    ensures w.start <= w.end <= |s| && CString(b, w.start) == s[w.start..w.end]
  {
    WordIsCut(s, c, w);
    forall i | w.start <= i < w.end
      ensures b[i] == s[i] && b[i] != '\0'
    {
      if i in Ends(c) { EndsOutside(s, c, i); }
      assert s[i] in s;
    }
    StringAt(b, w.start, w.end);
    assert b[w.start..w.end] == s[w.start..w.end];
  }

  // ---------------------------------------------------------------- what the caller reads

  ghost function StringOf(b: seq<char>, w: Span): (r: string) {
    if w.start <= |b| then CString(b, w.start) else ""
  }

  /** The command as its pointers into the buffer read it. */
  ghost function Strings(b: seq<char>, c: Cmd<Span>): (t: Cmd<string>) {
    match c
    case Exec(ws) => Exec(seq(|ws|, i requires 0 <= i < |ws| => StringOf(b, ws[i])))
    case Redir(d, f, out) => Redir(Strings(b, d), StringOf(b, f), out)
    case Pipe(l, r) => Pipe(Strings(b, l), Strings(b, r))
    case List(l, r) => List(Strings(b, l), Strings(b, r))
    case Back(d) => Back(Strings(b, d))
  }

  ghost predicate ReadsBack(s: string, b: seq<char>, w: Span) {
    w.start <= w.end <= |s| && StringOf(b, w) == s[w.start..w.end]
  }

  ghost predicate AllReadBack(s: string, b: seq<char>, c: Cmd<Span>) {
    forall w :: HasWord(c, w) ==> ReadsBack(s, b, w)
  }

  lemma PartsReadBack(s: string, b: seq<char>, c: Cmd<Span>, d: Cmd<Span>)
    requires AllReadBack(s, b, c) && forall w :: HasWord(d, w) ==> HasWord(c, w)
    ensures AllReadBack(s, b, d)
  {
  }

  lemma {:induction false} StringsAre(s: string, b: seq<char>, c: Cmd<Span>)
    requires AllReadBack(s, b, c)
    ensures ShellLines.ReadsAs(s, c, Strings(b, c))
    decreases c
  {
    hide ReadsBack, AllReadBack, StringOf;
    match c {
      case Exec(ws) => WordsAre(s, b, ws);
      case Redir(d, f, _) =>
        PartsReadBack(s, b, c, d);
        StringsAre(s, b, d);
        WordReads(s, b, c, f);
      case Pipe(l, r) =>
        PartsReadBack(s, b, c, l);
        PartsReadBack(s, b, c, r);
        StringsAre(s, b, l);
        StringsAre(s, b, r);
      case List(l, r) =>
        PartsReadBack(s, b, c, l);
        PartsReadBack(s, b, c, r);
        StringsAre(s, b, l);
        StringsAre(s, b, r);
      case Back(d) =>
        PartsReadBack(s, b, c, d);
        StringsAre(s, b, d);
    }
  }

  lemma WordReads(s: string, b: seq<char>, c: Cmd<Span>, w: Span)
    requires AllReadBack(s, b, c) && HasWord(c, w)
    ensures w.start <= w.end <= |s| && StringOf(b, w) == s[w.start..w.end]
  {
    assert ReadsBack(s, b, w);
  }

  lemma WordsAre(s: string, b: seq<char>, ws: seq<Span>)
    requires AllReadBack(s, b, Exec(ws))
    ensures ShellLines.ReadsAs(s, Exec(ws), Strings(b, Exec(ws)))
  {
    hide ReadsBack, AllReadBack, StringOf;
    forall i | 0 <= i < |ws|
      ensures ws[i].start <= ws[i].end <= |s| && StringOf(b, ws[i]) == s[ws[i].start..ws[i].end]
    {
      WordReads(s, b, Exec(ws), ws[i]);
    }
  }

  /** The outcome for an input that is this line: its meaning in C strings, or too many arguments. */
  ghost predicate Means(b: seq<char>, r: Result, l: ShellLines.Line) {
    if ShellLines.LineFits(l) then r.Ok? && Strings(b, r.cmd) == ShellLines.LineMeans(l) else r == Err(TooManyArgs)
  }

  lemma LinesMean(s: string, b: seq<char>)
    requires ParseCmd(s).Ok? ==> AllReadBack(s, b, ParseCmd(s).cmd)
    ensures forall l :: ShellLines.IsLine(s, l) ==> Means(b, ParseCmd(s), l)
  {
    hide ParseCmd, AllReadBack, Strings, ShellLines.IsLine, ShellLines.LineFits, ShellLines.LineMeans;
    var r := ParseCmd(s);
    if r.Ok? { StringsAre(s, b, r.cmd); }
    forall l | ShellLines.IsLine(s, l)
      ensures Means(b, r, l)
    {
      ShellLines.ParsesLine(s, l);
    }
  }

  /** `parsecmd` on the line in `buf`: it accepts the lines of the command language whose commands fit,
      and of each makes the command it means, with every word a C string in place. */
  method ParseCommand(buf: array<char>) returns (r: Result)
    requires buf.Length > 0 && buf[buf.Length - 1] == '\0' && '\0' !in buf[..buf.Length - 1]
    modifies buf
    ensures r == ParseCmd(old(buf[..buf.Length - 1]))
    ensures r.Err? ==> buf[..] == old(buf[..])
    ensures r.Ok? ==>
              var s := old(buf[..buf.Length - 1]);
              && Sound(s, r.cmd)
              && forall w :: HasWord(r.cmd, w) ==> w.start <= w.end <= |s| && CString(buf[..], w.start) == s[w.start..w.end]
    ensures forall l :: ShellLines.IsLine(old(buf[..buf.Length - 1]), l) ==> Means(buf[..], r, l)
    ensures r.Ok? <==> exists l :: ShellLines.IsLine(old(buf[..buf.Length - 1]), l) && ShellLines.LineFits(l)
  {
    hide ParseLine, Sound, Means, ShellLines.IsLine, ShellLines.LineFits;
    var s := buf[..buf.Length - 1];
    ShellLines.Accepts(s);
    if ParseCmd(s).Err? { LinesMean(s, buf[..]); }
    var ps := new Parser(s);
    r := ps.Line();
    if r.Err? {
      return;
    }
    ghost var p := ps.pos;
    var rest := ps.PeekFor("");
    if ps.pos != |s| {
      return Err(Leftovers);
    }
    r := Ok(r.cmd, |s|);
    ParsedIsSound(s);
    NulTerminate(buf, s, r.cmd);
    forall w | HasWord(r.cmd, w)
      ensures w.start <= w.end <= |s| && CString(buf[..], w.start) == s[w.start..w.end]
    {
      WordReadsBack(s, r.cmd, buf[..], w);
    }
    LinesMean(s, buf[..]);
  }
}
