/** The parser of user/sh.c: recursive descent over a line of characters with one cursor, then NUL-termination of the
    words in place. */
module Shell {
  import opened ShellGrammar
  import opened ShellText
  import opened ShellLex
  import opened ShellSpacing

  /** `Panic` is an exit with a message. */
  datatype Result = Panic | Ok(cmd: Cmd<Span>)

  ghost predicate FirstIn(t: Token<Span>, toks: string) {
    match t
    case Sym(c) => c in toks
    case Append => '>' in toks
    case Word(_) => false
  }

  /** What gettoken returns for a token. */
  ghost predicate Returns(t: Token<Span>, tok: char, q: nat, eq: nat) {
    match t
    case Sym(c) => tok == c && Symbol(c)
    case Append => tok == '+'
    case Word(p) => tok == 'a' && p == Span(q, eq)
  }

  class Parser {
    const line: string
    var ps: nat

    constructor (line: string)
      ensures this.line == line && ps == 0
    {
      this.line := line;
      ps := 0;
    }

    ghost predicate Valid()
      reads this
    {
      ps <= |line| && NoNul(line)
    }

    ghost function Rest(): seq<Token<Span>>
      reads this
    {
      Tokens(line, ps)
    }

    method SkipBlanks(start: nat) returns (s: nat)
      requires start <= |line|
      ensures s == Skip(line, start)
    {
      s := start;
      while s < |line| && Blank(line[s])
        invariant s <= |line| && Skip(line, s) == Skip(line, start)
      {
        s := s + 1;
      }
    }

    method Gettoken() returns (tok: char, q: nat, eq: nat)
      requires Valid()
      modifies this`ps
      ensures Valid() && old(ps) <= ps
      ensures
        var ts := old(Rest());
        if ts == [] then tok == '\0' && Rest() == [] else Returns(ts[0], tok, q, eq) && Rest() == ts[1..]
    {
      var s := SkipBlanks(ps);
      q := s;
      tok := At(line, s);
      if tok == '\0' {
      } else if tok == '>' {
        s := s + 1;
        if At(line, s) == '>' {
          tok := '+';
          s := s + 1;
        }
      } else if Symbol(tok) {
        s := s + 1;
      } else {
        tok := 'a';
        while s < |line| && !Blank(line[s]) && !Symbol(line[s])
          invariant q <= s <= |line| && WordEnd(line, s) == WordEnd(line, q)
        {
          s := s + 1;
        }
      }
      eq := s;
      SkipTokens(line, s);
      ps := SkipBlanks(s);
    }

    method Peek(toks: string) returns (r: bool)
      requires Valid() && forall c :: c in toks ==> Symbol(c)
      modifies this`ps
      ensures Valid() && old(ps) <= ps && Rest() == old(Rest()) && ps == Skip(line, old(ps))
      ensures r == (Rest() != [] && FirstIn(Rest()[0], toks))
    {
      SkipTokens(line, ps);
      ps := SkipBlanks(ps);
      r := At(line, ps) != '\0' && At(line, ps) in toks;
    }

    /** The outcome of a parsing method is that of the grammar. */
    ghost predicate Agrees(r: Result, p: Parse<Cmd<Span>, Span>)
      reads this
    {
      if p.Error? then r.Panic? else r == Ok(p.value) && Rest() == p.rest
    }

    method Parseredirs(c: Cmd<Span>) returns (r: Result)
      requires Valid()
      modifies this`ps
      ensures Valid() && old(ps) <= ps && Agrees(r, ParseRedirs(c, old(Rest())))
    {
      hide Tokens, Returns, Redirs;
      var cmd := c;
      ghost var p := ParseRedirs(c, Rest());
      while true
        invariant Valid() && old(ps) <= ps && ParseRedirs(cmd, Rest()) == p
        decreases |Rest()|
      {
        var more := Peek("<>");
        RedirFirst(Rest());
        if !more {
          break;
        }
        ghost var ts := Rest();
        var tok, _, _ := Gettoken();
        var word, q, eq := Gettoken();
        assert |ts| >= 2 ==> ts[1..][0] == ts[1] && ts[1..][1..] == ts[2..];
        WordTok(ts, tok, word, q, eq);
        if word != 'a' {
          return Panic;
        }
        if tok == '<' {
          cmd := Redir(cmd, Redirection(Span(q, eq), O_RDONLY, 0));
        } else if tok == '>' {
          cmd := Redir(cmd, Redirection(Span(q, eq), O_WRONLY + O_CREATE + O_TRUNC, 1));
        } else {
          cmd := Redir(cmd, Redirection(Span(q, eq), O_WRONLY + O_CREATE, 1));
        }
      }
      return Ok(cmd);
    }

    method Parseblock() returns (r: Result)
      requires Valid() && Starts(Rest(), '(')
      modifies this`ps
      ensures Valid() && old(ps) <= ps && Agrees(r, ParseExec(old(Rest())))
      decreases |Rest()|, 0
    {
      hide Tokens, ParseLine, ParseRedirs;
      var open := Peek("(");
      var _, _, _ := Gettoken();
      r := Parseline();
      if r.Panic? {
        return;
      }
      var closed := Peek(")");
      StartsFirst(Rest(), ')');
      if !closed {
        return Panic;
      }
      var _, _, _ := Gettoken();
      r := Parseredirs(r.cmd);
    }

    /** What a simple command up to position `n` of the rest parses to. */
    lemma SimpleRest()
      ensures forall n :: 0 <= n <= |Rest()| && Simple(Rest()[..n]) && EndsExec(Rest()[n..]) ==>
                var a := Rest()[..n];
                ParseExec(Rest()) ==
                if |Words(a)| < MAXARGS then Parsed(Wrap(Exec(Words(a)), Redirections(a)), Rest()[n..]) else Error
    {
      forall n | 0 <= n <= |Rest()| && Simple(Rest()[..n]) && EndsExec(Rest()[n..])
        ensures
          var a := Rest()[..n];
          ParseExec(Rest()) ==
          if |Words(a)| < MAXARGS then Parsed(Wrap(Exec(Words(a)), Redirections(a)), Rest()[n..]) else Error
      {
        hide Tokens, ParseExec, Simple, EndsExec, Words, Redirections;
        ShellText.SimpleExec(Rest(), n);
      }
    }

    method Parseexec() returns (r: Result)
      requires Valid()
      modifies this`ps
      ensures Valid() && old(ps) <= ps && Agrees(r, ParseExec(old(Rest())))
      ensures forall n :: 0 <= n <= |old(Rest())| && Simple(old(Rest())[..n]) && EndsExec(old(Rest())[n..]) ==>
                var a := old(Rest())[..n];
                if |Words(a)| < MAXARGS
                then r == Ok(Wrap(Exec(Words(a)), Redirections(a))) && Rest() == old(Rest())[n..]
                else r.Panic?
      decreases |Rest()|, 1
    {
      SimpleRest();
      hide Tokens, ParseLine, ParseRedirs, Returns;
      var block := Peek("(");
      StartsFirst(Rest(), '(');
      if block {
        r := Parseblock();
        return;
      }
      ghost var p := ParseExec(Rest());
      var argc := 0;
      r := Parseredirs(Exec([]));
      if r.Panic? {
        return;
      }
      while true
        invariant Valid() && old(ps) <= ps && r.Ok? && argc < MAXARGS && ParseArgs(r.cmd, argc, Rest()) == p
        decreases |Rest()|
      {
        var ends := Peek("|)&;");
        EndFirst(Rest());
        if ends {
          break;
        }
        ghost var ts := Rest();
        var tok, q, eq := Gettoken();
        if tok == '\0' {
          TokKind(ts, tok, q, eq);
          break;
        }
        TokKind(ts, tok, q, eq);
        if tok != 'a' {
          return Panic;
        }
        var cmd := AddArg(r.cmd, Span(q, eq));
        argc := argc + 1;
        if argc >= MAXARGS {
          return Panic;
        }
        ghost var ts1 := Rest();
        r := Parseredirs(cmd);
        ShorterRedirs(cmd, ts1);
        if r.Panic? {
          return;
        }
      }
    }

    method Parsepipe() returns (r: Result)
      requires Valid()
      modifies this`ps
      ensures Valid() && old(ps) <= ps && Agrees(r, ParsePipe(old(Rest())))
      decreases |Rest()|, 2
    {
      hide Tokens, ParseExec;
      r := Parseexec();
      if r.Panic? {
        return;
      }
      var more := Peek("|");
      StartsFirst(Rest(), '|');
      if more {
        var _, _, _ := Gettoken();
        var right := Parsepipe();
        if right.Panic? {
          return Panic;
        }
        r := Ok(Pipe(r.cmd, right.cmd));
      }
    }

    method Parseline() returns (r: Result)
      requires Valid()
      modifies this`ps
      ensures Valid() && old(ps) <= ps && Agrees(r, ParseLine(old(Rest())))
      decreases |Rest()|, 3
    {
      hide Tokens, ParsePipe;
      ghost var ts := Rest();
      r := Parsepipe();
      if r.Panic? {
        return;
      }
      ghost var l := ParseBacks(r.cmd, Rest());
      while true
        invariant Valid() && old(ps) <= ps && r.Ok? && ParseBacks(r.cmd, Rest()) == l && |Rest()| <= |ts|
        decreases |Rest()|
      {
        var back := Peek("&");
        StartsFirst(Rest(), '&');
        if !back {
          break;
        }
        var _, _, _ := Gettoken();
        r := Ok(Back(r.cmd));
      }
      var more := Peek(";");
      StartsFirst(Rest(), ';');
      if more {
        var _, _, _ := Gettoken();
        var right := Parseline();
        if right.Panic? {
          return Panic;
        }
        r := Ok(List(r.cmd, right.cmd));
      }
    }
  }

  lemma StartsFirst(ts: seq<Token<Span>>, c: char)
    requires c != '>'
    ensures (ts != [] && FirstIn(ts[0], [c])) == Starts(ts, c)
  {
  }

  lemma EndFirst(ts: seq<Token<Span>>)
    ensures (ts != [] && FirstIn(ts[0], "|)&;")) == (ts != [] && EndsExec(ts))
  {
  }

  lemma TokKind(ts: seq<Token<Span>>, tok: char, q: nat, eq: nat)
    requires if ts == [] then tok == '\0' else Returns(ts[0], tok, q, eq)
    ensures (tok == '\0' <==> ts == []) && (tok == 'a' <==> ts != [] && ts[0].Word?)
    ensures tok == 'a' ==> ts[0].word == Span(q, eq)
  {
  }

  lemma ShorterRedirs(c: Cmd<Span>, ts: seq<Token<Span>>)
    ensures ParseRedirs(c, ts).Parsed? ==> |ParseRedirs(c, ts).rest| <= |ts|
  {
  }

  lemma RedirFirst(ts: seq<Token<Span>>)
    ensures (ts != [] && FirstIn(ts[0], "<>")) == StartsRedir(ts)
  {
  }

  /** A redirection symbol, then the token for the file name. */
  lemma WordTok(ts: seq<Token<Span>>, tok: char, word: char, q: nat, eq: nat)
    requires StartsRedir(ts) && Returns(ts[0], tok, 0, 0) && if |ts| < 2 then word == '\0'
              else Returns(ts[1], word, q, eq)
    ensures word == 'a' <==> |ts| >= 2 && ts[1].Word?
    ensures word == 'a' ==>
              && ts[1].word == Span(q, eq)
              && RedirOf(ts[0], ts[1].word) ==
                 if tok == '<' then Redirection(Span(q, eq), O_RDONLY, 0)
                 else if tok == '>' then Redirection(Span(q, eq), O_WRONLY + O_CREATE + O_TRUNC, 1)
                 else Redirection(Span(q, eq), O_WRONLY + O_CREATE, 1)
  {
  }

  lemma SkipTokens(line: string, i: nat)
    requires i <= |line|
    ensures Tokens(line, Skip(line, i)) == Tokens(line, i) && Skip(line, Skip(line, i)) == Skip(line, i)
  {
  }

  // ---------------------------------------------------------------- NUL-termination

  ghost function ArgEnds(args: seq<Span>): set<nat> {
    set k | 0 <= k < |args| :: args[k].eq
  }

  /** Where nulterminate writes. */
  ghost function Ends(c: Cmd<Span>): set<nat> {
    match c
    case Exec(args) => ArgEnds(args)
    case Redir(d, r) => Ends(d) + {r.file.eq}
    case Pipe(l, r) => Ends(l) + Ends(r)
    case List(l, r) => Ends(l) + Ends(r)
    case Back(d) => Ends(d)
  }

  ghost predicate Within(c: Cmd<Span>, n: nat) {
    match c
    case Exec(args) => forall k :: 0 <= k < |args| ==> args[k].eq < n
    case Redir(d, r) => Within(d, n) && r.file.eq < n
    case Pipe(l, r) => Within(l, n) && Within(r, n)
    case List(l, r) => Within(l, n) && Within(r, n)
    case Back(d) => Within(d, n)
  }

  method Nulterminate(buf: array<char>, c: Cmd<Span>)
    requires Within(c, buf.Length)
    modifies buf
    ensures forall i :: 0 <= i < buf.Length ==> buf[i] == if i in Ends(c) then '\0' else old(buf[i])
    decreases c
  {
    match c
    case Exec(args) =>
      var i := 0;
      while i < |args|
        invariant i <= |args|
        invariant forall j :: 0 <= j < buf.Length ==> buf[j] == if j in ArgEnds(args[..i]) then '\0' else old(buf[j])
      {
        buf[args[i].eq] := '\0';
        assert args[..i + 1] == args[..i] + [args[i]];
        OneMore(args[..i], args[i]);
        i := i + 1;
      }
      assert args[..|args|] == args;
    case Redir(d, r) =>
      Nulterminate(buf, d);
      buf[r.file.eq] := '\0';
    case Pipe(l, r) =>
      Nulterminate(buf, l);
      Nulterminate(buf, r);
    case List(l, r) =>
      Nulterminate(buf, l);
      Nulterminate(buf, r);
    case Back(d) =>
      Nulterminate(buf, d);
  }

  lemma OneMore(args: seq<Span>, w: Span)
    ensures ArgEnds(args + [w]) == ArgEnds(args) + {w.eq}
  {
    var all := args + [w];
    forall e | e in ArgEnds(args) + {w.eq} ensures e in ArgEnds(all) {
      if e == w.eq {
        assert all[|args|].eq == e;
      } else {
        var k :| 0 <= k < |args| && args[k].eq == e;
        assert all[k].eq == e;
      }
    }
  }

  /** Span `p` is a word of the command. */
  ghost predicate Occurs(p: Span, c: Cmd<Span>) {
    match c
    case Exec(args) => p in args
    case Redir(d, r) => Occurs(p, d) || p == r.file
    case Pipe(l, r) => Occurs(p, l) || Occurs(p, r)
    case List(l, r) => Occurs(p, l) || Occurs(p, r)
    case Back(d) => Occurs(p, d)
  }

  /** Reading from `p.q` up to the first NUL gives the word. */
  ghost predicate ReadsAs(buf: seq<char>, p: Span, word: string) {
    && p.q <= p.eq < |buf| && buf[p.q..p.eq] == word && buf[p.eq] == '\0'
    && forall i :: p.q <= i < p.eq ==> buf[i] != '\0'
  }

  lemma {:induction false} OccursGood(line: string, c: Cmd<Span>, p: Span)
    requires GoodCmd(line, c) && Occurs(p, c)
    ensures GoodSpan(line, p) && p.eq in Ends(c)
  {
    match c
    case Exec(args) =>
      var k :| 0 <= k < |args| && args[k] == p;
      assert GoodSpan(line, args[k]) && args[k].eq in ArgEnds(args);
    case Redir(d, r) =>
      if Occurs(p, d) {
        OccursGood(line, d, p);
      }
    case Pipe(l, r) =>
      if Occurs(p, l) {
        OccursGood(line, l, p);
      } else {
        OccursGood(line, r, p);
      }
    case List(l, r) =>
      if Occurs(p, l) {
        OccursGood(line, l, p);
      } else {
        OccursGood(line, r, p);
      }
    case Back(d) =>
      OccursGood(line, d, p);
  }

  /** Words end at characters that are in no word. */
  lemma {:induction false} EndsOutside(line: string, c: Cmd<Span>, e: nat)
    requires GoodCmd(line, c) && e in Ends(c)
    ensures e <= |line| && !WordChar(At(line, e))
  {
    match c
    case Exec(args) =>
      var k :| 0 <= k < |args| && args[k].eq == e;
      assert GoodSpan(line, args[k]);
    case Redir(d, r) =>
      if e in Ends(d) {
        EndsOutside(line, d, e);
      }
    case Pipe(l, r) =>
      if e in Ends(l) {
        EndsOutside(line, l, e);
      } else {
        EndsOutside(line, r, e);
      }
    case List(l, r) =>
      if e in Ends(l) {
        EndsOutside(line, l, e);
      } else {
        EndsOutside(line, r, e);
      }
    case Back(d) =>
      EndsOutside(line, d, e);
  }

  /** No NUL lands inside a word. */
  lemma Terminated(line: string, c: Cmd<Span>, buf: seq<char>, p: Span)
    requires GoodCmd(line, c) && Occurs(p, c) && |line| < |buf|
    requires forall i ::
              0 <= i < |buf| ==> buf[i] == if i in Ends(c) then '\0' else if i < |line| then line[i] else buf[i]
    ensures ReadsAs(buf, p, Text(line, p))
  {
    OccursGood(line, c, p);
    forall i | p.q <= i < p.eq ensures buf[i] == line[i] && buf[i] != '\0' {
      assert WordChar(At(line, i));
      if i in Ends(c) {
        EndsOutside(line, c, i);
      }
    }
    assert buf[p.q..p.eq] == line[p.q..p.eq];
  }

  method Strlen(buf: array<char>) returns (n: nat)
    requires exists i :: 0 <= i < buf.Length && buf[i] == '\0'
    ensures n < buf.Length && buf[n] == '\0' && forall i :: 0 <= i < n ==> buf[i] != '\0'
  {
    n := 0;
    while buf[n] != '\0'
      invariant n < buf.Length && (forall i :: 0 <= i < n ==> buf[i] != '\0') && exists i ::
                n <= i < buf.Length && buf[i] == '\0'
      decreases buf.Length - n
    {
      n := n + 1;
    }
  }

  /** parsecmd: the tree of the grammar for the line, with every word and file name readable as a string in the
      buffer. */
  method Parsecmd(buf: array<char>, ghost n: nat) returns (r: Result)
    requires n < buf.Length && buf[n] == '\0' && forall i :: 0 <= i < n ==> buf[i] != '\0'
    modifies buf
    ensures
      var p := ParseCmd(Tokens(old(buf[..n]), 0));
      if p.Error? then r.Panic? else r == Ok(p.value)
    ensures forall ts, c :: Spaced(old(buf[..n]), 0, ts) ==>
              (r.Ok? && TextCmd(old(buf[..n]), r.cmd) == c <==> IsLine(ts, c))
    ensures r.Ok? ==> forall p :: Occurs(p, r.cmd) ==> ReadsAs(buf[..], p, Text(old(buf[..n]), p))
  {
    hide Spaced, IsLine, TextCmd;
    AcceptsAll(buf[..n]);
    hide Tokens, ParseLine, ReadsAs, Text, Occurs, GoodCmd, Ends;
    var es := Strlen(buf);
    assert es == n;
    var line := buf[..es];
    var parser := new Parser(line);
    r := parser.Parseline();
    if r.Panic? {
      return;
    }
    var _ := parser.Peek("");
    AllRead(line, parser.ps);
    if parser.ps != es {
      return Panic;
    }
    TokensGood(line, 0);
    LineText(line, Tokens(line, 0));
    WithinLine(line, r.cmd, buf.Length);
    Nulterminate(buf, r.cmd);
    forall p | Occurs(p, r.cmd) ensures ReadsAs(buf[..], p, Text(line, p)) {
      Terminated(line, r.cmd, buf[..], p);
    }
  }

  lemma AcceptsAll(line: string)
    requires NoNul(line)
    ensures
      var p := ParseCmd(Tokens(line, 0));
      forall ts, c :: Spaced(line, 0, ts) ==> (p.Parsed? && TextCmd(line, p.value) == c <==> IsLine(ts, c))
  {
    hide Spaced, IsLine, TextCmd, ParseCmd, Tokens;
    forall ts, c | Spaced(line, 0, ts)
      ensures
        var p := ParseCmd(Tokens(line, 0));
        p.Parsed? && TextCmd(line, p.value) == c <==> IsLine(ts, c)
    {
      Accepts(line, ts, c);
    }
  }

  lemma AllRead(line: string, i: nat)
    requires i <= |line| && NoNul(line) && Skip(line, i) == i
    ensures i == |line| <==> Tokens(line, i) == []
  {
  }

  lemma WithinLine(line: string, c: Cmd<Span>, n: nat)
    requires GoodCmd(line, c) && |line| < n
    ensures Within(c, n)
  {
    if c.Exec? {
      forall k | 0 <= k < |c.args| ensures c.args[k].eq < n {
        assert GoodSpan(line, c.args[k]);
      }
    }
  }
}
