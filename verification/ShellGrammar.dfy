/** The grammar of the shell on tokens: the parser as a function, printing a command tree, and parsing it back. */
module ShellGrammar {
  const MAXARGS := 10

  datatype Token<W> = Sym(c: char) | Append | Word(word: W)

  datatype Redirection<W> = Redirection(file: W, mode: nat, fd: nat)

  datatype Cmd<W> =
    | Exec(args: seq<W>)
    | Redir(cmd: Cmd<W>, redir: Redirection<W>)
    | Pipe(left: Cmd<W>, right: Cmd<W>)
    | List(left: Cmd<W>, right: Cmd<W>)
    | Back(cmd: Cmd<W>)

  /** What a parsing function returns: the tree and the tokens left over, or a syntax error. */
  datatype Parse<T, W> = Error | Parsed(value: T, rest: seq<Token<W>>)

  const O_RDONLY := 0x000
  const O_WRONLY := 0x001
  const O_CREATE := 0x200
  const O_TRUNC := 0x400

  ghost predicate Starts<W>(ts: seq<Token<W>>, c: char) {
    ts != [] && ts[0] == Sym(c)
  }

  ghost predicate StartsRedir<W>(ts: seq<Token<W>>) {
    Starts(ts, '<') || Starts(ts, '>') || (ts != [] && ts[0] == Append)
  }

  function RedirOf<W>(t: Token<W>, file: W): Redirection<W> {
    match t
    case Append => Redirection(file, O_WRONLY + O_CREATE, 1)
    case Sym('<') => Redirection(file, O_RDONLY, 0)
    case _ => Redirection(file, O_WRONLY + O_CREATE + O_TRUNC, 1)
  }

  // ---------------------------------------------------------------- the parser

  ghost function ParseRedirs<W>(cmd: Cmd<W>, ts: seq<Token<W>>): (r: Parse<Cmd<W>, W>)
    ensures r.Parsed? ==> |r.rest| <= |ts|
    decreases |ts|
  {
    if !StartsRedir(ts) then Parsed(cmd, ts)
    else if |ts| < 2 || !ts[1].Word? then Error
    else ParseRedirs(Redir(cmd, RedirOf(ts[0], ts[1].word)), ts[2..])
  }

  /** One more argument for the command inside the redirections. */
  function AddArg<W>(cmd: Cmd<W>, w: W): Cmd<W> {
    match cmd
    case Exec(args) => Exec(args + [w])
    case Redir(c, r) => Redir(AddArg(c, w), r)
    case _ => cmd
  }

  ghost predicate EndsExec<W>(ts: seq<Token<W>>) {
    ts == [] || Starts(ts, '|') || Starts(ts, ')') || Starts(ts, '&') || Starts(ts, ';')
  }

  ghost function ParseArgs<W>(cmd: Cmd<W>, argc: nat, ts: seq<Token<W>>): (r: Parse<Cmd<W>, W>)
    ensures r.Parsed? ==> |r.rest| <= |ts|
    decreases |ts|
  {
    if EndsExec(ts) then Parsed(cmd, ts)
    else if !ts[0].Word? || argc + 1 >= MAXARGS then Error
    else
      var r := ParseRedirs(AddArg(cmd, ts[0].word), ts[1..]);
      if r.Error? then Error else ParseArgs(r.value, argc + 1, r.rest)
  }

  ghost function ParseExec<W>(ts: seq<Token<W>>): (r: Parse<Cmd<W>, W>)
    ensures r.Parsed? ==> |r.rest| <= |ts|
    decreases |ts|, 0
  {
    if Starts(ts, '(') then
      var r := ParseLine(ts[1..]);
      if r.Error? || !Starts(r.rest, ')') then Error else ParseRedirs(r.value, r.rest[1..])
    else
      var r := ParseRedirs(Exec([]), ts);
      if r.Error? then Error else ParseArgs(r.value, 0, r.rest)
  }

  ghost function ParsePipe<W>(ts: seq<Token<W>>): (r: Parse<Cmd<W>, W>)
    ensures r.Parsed? ==> |r.rest| <= |ts|
    decreases |ts|, 1
  {
    var l := ParseExec(ts);
    if l.Error? || !Starts(l.rest, '|') then l
    else
      var r := ParsePipe(l.rest[1..]);
      if r.Error? then Error else Parsed(Pipe(l.value, r.value), r.rest)
  }

  ghost function ParseBacks<W>(cmd: Cmd<W>, ts: seq<Token<W>>): (r: Parse<Cmd<W>, W>)
    ensures r.Parsed? && |r.rest| <= |ts| && !Starts(r.rest, '&')
    decreases |ts|
  {
    if Starts(ts, '&') then ParseBacks(Back(cmd), ts[1..]) else Parsed(cmd, ts)
  }

  ghost function ParseLine<W>(ts: seq<Token<W>>): (r: Parse<Cmd<W>, W>)
    ensures r.Parsed? ==> |r.rest| <= |ts|
    decreases |ts|, 2
  {
    var p := ParsePipe(ts);
    if p.Error? then Error
    else
      var l := ParseBacks(p.value, p.rest);
      if !Starts(l.rest, ';') then l
      else
        var r := ParseLine(l.rest[1..]);
        if r.Error? then Error else Parsed(List(l.value, r.value), r.rest)
  }

  /** parsecmd: nothing may be left over. */
  ghost function ParseCmd<W>(ts: seq<Token<W>>): Parse<Cmd<W>, W> {
    var r := ParseLine(ts);
    if r.Parsed? && r.rest == [] then r else Error
  }

  // ---------------------------------------------------------------- printing

  /** The command inside the outer redirections, and these, the innermost first. */
  ghost function Base<W>(c: Cmd<W>): (b: Cmd<W>)
    ensures !b.Redir? && (c.Redir? || b == c)
  {
    if c.Redir? then Base(c.cmd) else c
  }

  ghost function Redirs<W>(c: Cmd<W>): seq<Redirection<W>> {
    if c.Redir? then Redirs(c.cmd) + [c.redir] else []
  }

  /** Modes that the syntax can express. */
  ghost predicate GoodRedir<W>(r: Redirection<W>) {
    (r.mode, r.fd) in {(O_RDONLY, 0), (O_WRONLY + O_CREATE + O_TRUNC, 1), (O_WRONLY + O_CREATE, 1)}
  }

  ghost function RedirToken<W>(r: Redirection<W>): Token<W> {
    if r.fd == 0 then Sym('<') else if r.mode == O_WRONLY + O_CREATE then Append else Sym('>')
  }

  ghost function PrintRedirs<W>(rs: seq<Redirection<W>>): seq<Token<W>> {
    if rs == [] then [] else [RedirToken(rs[0]), Word(rs[0].file)] + PrintRedirs(rs[1..])
  }

  ghost function PrintArgs<W>(args: seq<W>): seq<Token<W>> {
    if args == [] then [] else [Word(args[0])] + PrintArgs(args[1..])
  }

  /** Parentheses around all that is no simple command. */
  ghost function PrintExec<W>(c: Cmd<W>): seq<Token<W>>
    decreases c, if c.Exec? || c.Redir? then 7 else 11
  {
    var b := Base(c);
    if b.Exec? then PrintArgs(b.args) + PrintRedirs(Redirs(c))
    else if c.Redir? then BaseSmaller(c); [Sym('(')] + PrintLine(b) + [Sym(')')] + PrintRedirs(Redirs(c))
    else [Sym('(')] + PrintLine(c) + [Sym(')')]
  }

  ghost function PrintPipe<W>(c: Cmd<W>): seq<Token<W>>
    decreases c, if c.List? || c.Back? then 12 else 8
  {
    if c.Pipe? then PrintExec(c.left) + [Sym('|')] + PrintPipe(c.right) else PrintExec(c)
  }

  ghost function PrintBack<W>(c: Cmd<W>): seq<Token<W>>
    decreases c, if c.List? then 13 else 9
  {
    if c.Back? then PrintBack(c.cmd) + [Sym('&')] else PrintPipe(c)
  }

  ghost function PrintLine<W>(c: Cmd<W>): seq<Token<W>>
    decreases c, 10
  {
    if c.List? then PrintBack(c.left) + [Sym(';')] + PrintLine(c.right) else PrintBack(c)
  }

  lemma {:induction false} BaseSmaller<W>(c: Cmd<W>)
    requires c.Redir?
    ensures c decreases to Base(c)
  {
    if c.cmd.Redir? {
      BaseSmaller(c.cmd);
    }
  }

  /** Trees that the parser can build: at most 9 arguments, and redirections as the syntax has them. */
  ghost predicate Printable<W>(c: Cmd<W>) {
    match c
    case Exec(args) => |args| < MAXARGS
    case Redir(d, r) => Printable(d) && GoodRedir(r)
    case Pipe(l, r) => Printable(l) && Printable(r)
    case List(l, r) => Printable(l) && Printable(r)
    case Back(d) => Printable(d)
  }

  // ---------------------------------------------------------------- parsing what was printed

  ghost function Wrap<W>(c: Cmd<W>, rs: seq<Redirection<W>>): Cmd<W>
    decreases |rs|
  {
    if rs == [] then c else Wrap(Redir(c, rs[0]), rs[1..])
  }

  lemma {:induction false} WrapLast<W>(c: Cmd<W>, rs: seq<Redirection<W>>, r: Redirection<W>)
    ensures Wrap(c, rs + [r]) == Redir(Wrap(c, rs), r)
    decreases |rs|
  {
    if rs == [] {
      assert (rs + [r])[1..] == [];
    } else {
      assert (rs + [r])[1..] == rs[1..] + [r];
      WrapLast(Redir(c, rs[0]), rs[1..], r);
    }
  }

  lemma {:induction false} WrapBase<W>(c: Cmd<W>)
    requires Printable(c)
    ensures Wrap(Base(c), Redirs(c)) == c && Printable(Base(c)) && forall r :: r in Redirs(c) ==> GoodRedir(r)
  {
    if c.Redir? {
      WrapBase(c.cmd);
      WrapLast(Base(c), Redirs(c.cmd), c.redir);
    }
  }

  lemma {:induction false} RedirsBack<W>(c: Cmd<W>, rs: seq<Redirection<W>>, rest: seq<Token<W>>)
    requires (forall r :: r in rs ==> GoodRedir(r)) && !StartsRedir(rest)
    ensures ParseRedirs(c, PrintRedirs(rs) + rest) == Parsed(Wrap(c, rs), rest)
    decreases |rs|
  {
    if rs == [] {
      assert PrintRedirs(rs) + rest == rest;
    } else {
      var ts := PrintRedirs(rs) + rest;
      assert ts[2..] == PrintRedirs(rs[1..]) + rest;
      assert GoodRedir(rs[0]) && RedirOf(ts[0], ts[1].word) == rs[0];
      RedirsBack(Redir(c, rs[0]), rs[1..], rest);
    }
  }

  lemma {:induction false} ArgsBack<W>(pre: seq<W>, args: seq<W>, rs: seq<Redirection<W>>, rest: seq<Token<W>>)
    requires (forall r :: r in rs ==> GoodRedir(r)) && EndsExec(rest) && args != [] && |pre| + |args| < MAXARGS
    ensures ParseArgs(Exec(pre), |pre|, PrintArgs(args) + (PrintRedirs(rs) + rest)) ==
              Parsed(Wrap(Exec(pre + args), rs), rest)
    decreases |args|
  {
    hide PrintRedirs, EndsExec, GoodRedir, ParseRedirs, ParseArgs, PrintArgs;
    var tail := PrintRedirs(rs) + rest;
    var pre' := pre + [args[0]];
    ArgStep(pre, args, tail);
    if |args| == 1 {
      NoArgs(args[1..], tail);
      assert pre' == pre + args;
      EndsNoRedir(rest);
      RedirsBack(Exec(pre'), rs, rest);
      EndsNow(Wrap(Exec(pre'), rs), |pre| + 1, rest);
    } else {
      assert pre' + args[1..] == pre + args;
      WordNoRedir(Exec(pre'), args[1..], tail);
      ArgsBack(pre', args[1..], rs, rest);
    }
  }

  lemma NoArgs<W>(args: seq<W>, tail: seq<Token<W>>)
    requires args == []
    ensures PrintArgs(args) + tail == tail
  {
  }

  lemma WordNoRedir<W>(c: Cmd<W>, args: seq<W>, tail: seq<Token<W>>)
    requires args != []
    ensures ParseRedirs(c, PrintArgs(args) + tail) == Parsed(c, PrintArgs(args) + tail)
  {
    assert (PrintArgs(args) + tail)[0] == Word(args[0]);
  }

  lemma EndsNow<W>(c: Cmd<W>, argc: nat, rest: seq<Token<W>>)
    requires EndsExec(rest)
    ensures ParseArgs(c, argc, rest) == Parsed(c, rest)
  {
  }

  lemma EndsNoRedir<W>(rest: seq<Token<W>>)
    requires EndsExec(rest)
    ensures !StartsRedir(rest)
  {
  }

  lemma FirstArg<W>(args: seq<W>, tail: seq<Token<W>>)
    requires args != []
    ensures
      var ts := PrintArgs(args) + tail;
      ts != [] && ts[0] == Word(args[0]) && ts[1..] == PrintArgs(args[1..]) + tail
  {
    var more := PrintArgs(args[1..]);
    hide PrintArgs;
    FirstThen(Word(args[0]), more, tail);
  }

  lemma FirstThen<T>(x: T, more: seq<T>, tail: seq<T>)
    ensures ([x] + more + tail)[0] == x && ([x] + more + tail)[1..] == more + tail
  {
    assert [x] + more + tail == [x] + (more + tail);
  }

  lemma ArgStep<W>(pre: seq<W>, args: seq<W>, tail: seq<Token<W>>)
    requires args != [] && |pre| + 1 < MAXARGS
    ensures
      var r := ParseRedirs(Exec(pre + [args[0]]), PrintArgs(args[1..]) + tail);
      ParseArgs(Exec(pre), |pre|, PrintArgs(args) + tail) == if r.Error? then Error
          else ParseArgs(r.value, |pre| + 1, r.rest)
  {
    hide ParseRedirs, PrintArgs;
    var ts := PrintArgs(args) + tail;
    FirstArg(args, tail);
  }

  /** Where a simple command or block may end. */
  lemma {:induction false} ExecBack<W>(c: Cmd<W>, rest: seq<Token<W>>)
    requires Printable(c) && EndsExec(rest)
    ensures ParseExec(PrintExec(c) + rest) == Parsed(c, rest)
    decreases c, if c.Exec? || c.Redir? then 7 else 11
  {
    var b, rs := Base(c), Redirs(c);
    WrapBase(c);
    var ts := PrintExec(c) + rest;
    if b.Exec? {
      assert ts == PrintArgs(b.args) + (PrintRedirs(rs) + rest);
      hide ParseExec, PrintExec, PrintLine, PrintArgs, PrintRedirs, Wrap;
      SimpleBack(b.args, rs, rest);
    } else {
      var tail := PrintRedirs(rs) + rest;
      PrintsBlock(c, rest);
      hide PrintExec, PrintLine, PrintArgs, PrintRedirs, Wrap, ParseLine, ParseRedirs;
      if c.Redir? {
        BaseSmaller(c);
      }
      LineBack(b, [Sym(')')] + tail);
      assert ([Sym(')')] + tail)[1..] == tail;
      RedirsBack(b, rs, rest);
    }
  }

  /** A command that is not simple is printed in parentheses. */
  lemma PrintsBlock<W>(c: Cmd<W>, rest: seq<Token<W>>)
    requires Printable(c) && !Base(c).Exec?
    ensures
      var ts := PrintExec(c) + rest;
      && ts != [] && ts[0] == Sym('(')
      && ts[1..] == PrintLine(Base(c)) + ([Sym(')')] + (PrintRedirs(Redirs(c)) + rest))
  {
    hide PrintLine;
    var line, rs := PrintLine(Base(c)), PrintRedirs(Redirs(c));
    assert !c.Redir? ==> rs == [] && Base(c) == c;
    assert PrintExec(c) == [Sym('(')] + line + [Sym(')')] + rs;
    Parenthesized(Sym('('), line, Sym(')'), rs, rest);
  }

  lemma Parenthesized<T>(open: T, line: seq<T>, close: T, rs: seq<T>, rest: seq<T>)
    ensures
      var ts := [open] + line + [close] + rs + rest;
      ts[0] == open && ts[1..] == line + ([close] + (rs + rest))
  {
    assert [open] + line + [close] + rs + rest == [open] + (line + ([close] + (rs + rest)));
  }

  lemma SimpleBack<W>(args: seq<W>, rs: seq<Redirection<W>>, rest: seq<Token<W>>)
    requires (forall r :: r in rs ==> GoodRedir(r)) && EndsExec(rest) && |args| < MAXARGS
    ensures ParseExec(PrintArgs(args) + (PrintRedirs(rs) + rest)) == Parsed(Wrap(Exec(args), rs), rest)
  {
    hide GoodRedir, ParseArgs, ParseExec, EndsExec;
    var tail := PrintRedirs(rs) + rest;
    var ts := PrintArgs(args) + tail;
    EndsNoRedir(rest);
    if args == [] {
      assert ts == tail;
      RedirsBack(Exec([]), rs, rest);
      EndsNow(Wrap(Exec([]), rs), 0, rest);
      assert rs != [] ==> ts[0] == RedirToken(rs[0]);
      NoBlock(rs, rest, ts);
    } else {
      assert ts[0] == Word(args[0]) && [] + args == args;
      WordFirst(ts);
      ArgsBack([], args, rs, rest);
    }
  }

  lemma NoBlock<W>(rs: seq<Redirection<W>>, rest: seq<Token<W>>, ts: seq<Token<W>>)
    requires if rs == [] then ts == rest && EndsExec(rest) else ts != [] && ts[0] == RedirToken(rs[0])
    ensures ParseExec(ts) == var r := ParseRedirs(Exec([]), ts);
              if r.Error? then Error else ParseArgs(r.value, 0, r.rest)
  {
  }

  lemma WordFirst<W>(ts: seq<Token<W>>)
    requires ts != [] && ts[0].Word?
    ensures ParseExec(ts) == ParseArgs(Exec([]), 0, ts)
  {
  }

  ghost predicate EndsPipe<W>(ts: seq<Token<W>>) {
    ts == [] || Starts(ts, ')') || Starts(ts, '&') || Starts(ts, ';')
  }

  lemma {:induction false} PipeBack<W>(c: Cmd<W>, rest: seq<Token<W>>)
    requires Printable(c) && EndsPipe(rest)
    ensures ParsePipe(PrintPipe(c) + rest) == Parsed(c, rest)
    decreases c, if c.List? || c.Back? then 12 else 8
  {
    hide ParseExec, PrintExec;
    if c.Pipe? {
      var tail := [Sym('|')] + PrintPipe(c.right) + rest;
      assert PrintPipe(c) + rest == PrintExec(c.left) + tail;
      ExecBack(c.left, tail);
      assert tail[1..] == PrintPipe(c.right) + rest;
      PipeBack(c.right, rest);
    } else {
      ExecBack(c, rest);
    }
  }

  /** After the pipe of a line come its ampersands. */
  lemma {:induction false} BackBack<W>(c: Cmd<W>, rest: seq<Token<W>>)
    requires Printable(c) && EndsPipe(rest)
    ensures
      var p := ParsePipe(PrintBack(c) + rest);
      p.Parsed? && ParseBacks(p.value, p.rest) == ParseBacks(c, rest)
    decreases c, if c.List? then 13 else 9
  {
    if c.Back? {
      assert PrintBack(c) + rest == PrintBack(c.cmd) + ([Sym('&')] + rest);
      BackBack(c.cmd, [Sym('&')] + rest);
      assert ([Sym('&')] + rest)[1..] == rest;
    } else {
      PipeBack(c, rest);
    }
  }

  ghost predicate EndsLine<W>(ts: seq<Token<W>>) {
    ts == [] || Starts(ts, ')')
  }

  lemma {:induction false} LineBack<W>(c: Cmd<W>, rest: seq<Token<W>>)
    requires Printable(c) && EndsLine(rest)
    ensures ParseLine(PrintLine(c) + rest) == Parsed(c, rest)
    decreases c, 10
  {
    hide ParsePipe, PrintBack;
    if c.List? {
      var tail := [Sym(';')] + PrintLine(c.right) + rest;
      assert PrintLine(c) + rest == PrintBack(c.left) + tail;
      BackBack(c.left, tail);
      assert tail[1..] == PrintLine(c.right) + rest;
      LineBack(c.right, rest);
    } else {
      BackBack(c, rest);
    }
  }

  /** Every command tree with at most 9 arguments each is what parsing its printed form gives. */
  lemma ParsePrinted<W>(c: Cmd<W>)
    requires Printable(c)
    ensures ParseCmd(PrintLine(c)) == Parsed(c, [])
  {
    assert PrintLine(c) + [] == PrintLine(c);
    LineBack(c, []);
  }
}
