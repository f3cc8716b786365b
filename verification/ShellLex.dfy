/** Tokens of a command line: their positions in the line, and lines that have given tokens. */
module ShellLex {
  import opened ShellGrammar

  /** A word, from `q` up to `eq`. */
  datatype Span = Span(q: nat, eq: nat)

  predicate Blank(c: char) {
    c == ' ' || c == '\t' || c == '\r' || c == '\n' || c == '\U{0B}'
  }

  predicate Symbol(c: char) {
    c == '<' || c == '|' || c == '>' || c == '&' || c == ';' || c == '(' || c == ')'
  }

  predicate WordChar(c: char) {
    !Blank(c) && !Symbol(c) && c != '\0'
  }

  /** The end of the line reads as NUL. */
  function At(line: string, i: nat): char {
    if i < |line| then line[i] else '\0'
  }

  ghost predicate NoNul(line: string) {
    forall i :: 0 <= i < |line| ==> line[i] != '\0'
  }

  ghost function Skip(line: string, i: nat): (j: nat)
    ensures i <= j && (i <= |line| ==> j <= |line|) && !Blank(At(line, j))
    decreases |line| - i
  {
    if i < |line| && Blank(line[i]) then Skip(line, i + 1) else i
  }

  ghost function WordEnd(line: string, i: nat): (j: nat)
    ensures i <= j && (i <= |line| ==> j <= |line|) && !WordChar(At(line, j))
    ensures forall k :: i <= k < j ==> WordChar(At(line, k))
    decreases |line| - i
  {
    if i < |line| && WordChar(line[i]) then WordEnd(line, i + 1) else i
  }

  /** The tokens of `line` from position `i` on. */
  ghost function Tokens(line: string, i: nat): seq<Token<Span>>
    decreases |line| - i
  {
    var s := Skip(line, i);
    if s >= |line| || line[s] == '\0' then []
    else if line[s] == '>' && At(line, s + 1) == '>' then [Append] + Tokens(line, s + 2)
    else if Symbol(line[s]) then [Sym(line[s])] + Tokens(line, s + 1)
    else [Word(Span(s, WordEnd(line, s)))] + Tokens(line, WordEnd(line, s))
  }

  /** A maximal word of the line. */
  ghost predicate GoodSpan(line: string, p: Span) {
    && p.q < p.eq <= |line| && !WordChar(At(line, p.eq))
    && (forall k :: p.q <= k < p.eq ==> WordChar(At(line, k)))
  }

  ghost function Text(line: string, p: Span): string {
    if p.q <= p.eq <= |line| then line[p.q..p.eq] else ""
  }

  // ---------------------------------------------------------------- words instead of positions

  ghost function TextToken(line: string, t: Token<Span>): Token<string> {
    match t
    case Sym(c) => Sym(c)
    case Append => Append
    case Word(p) => Word(Text(line, p))
  }

  ghost function Texts(line: string, ts: seq<Token<Span>>): (r: seq<Token<string>>)
    ensures |r| == |ts|
  {
    if ts == [] then [] else [TextToken(line, ts[0])] + Texts(line, ts[1..])
  }

  ghost function TextArgs(line: string, args: seq<Span>): seq<string> {
    if args == [] then [] else TextArgs(line, args[..|args| - 1]) + [Text(line, args[|args| - 1])]
  }

  ghost function TextCmd(line: string, c: Cmd<Span>): Cmd<string> {
    match c
    case Exec(args) => Exec(TextArgs(line, args))
    case Redir(d, r) => Redir(TextCmd(line, d), Redirection(Text(line, r.file), r.mode, r.fd))
    case Pipe(l, r) => Pipe(TextCmd(line, l), TextCmd(line, r))
    case List(l, r) => List(TextCmd(line, l), TextCmd(line, r))
    case Back(d) => Back(TextCmd(line, d))
  }

  ghost function TextParse(line: string, p: Parse<Cmd<Span>, Span>): Parse<Cmd<string>, string> {
    match p
    case Error => Error
    case Parsed(c, rest) => Parsed(TextCmd(line, c), Texts(line, rest))
  }

  lemma TextsTail(line: string, ts: seq<Token<Span>>, n: nat)
    requires n <= |ts| && n <= 2
    ensures Texts(line, ts)[n..] == Texts(line, ts[n..])
  {
    if n == 2 {
      assert Texts(line, ts)[2..] == Texts(line, ts[1..])[1..];
      assert ts[1..][1..] == ts[2..];
    }
  }

  /** All words of the tree are words of the line. */
  ghost predicate GoodCmd(line: string, c: Cmd<Span>) {
    match c
    case Exec(args) => forall k :: 0 <= k < |args| ==> GoodSpan(line, args[k])
    case Redir(d, r) => GoodCmd(line, d) && GoodSpan(line, r.file)
    case Pipe(l, r) => GoodCmd(line, l) && GoodCmd(line, r)
    case List(l, r) => GoodCmd(line, l) && GoodCmd(line, r)
    case Back(d) => GoodCmd(line, d)
  }

  ghost predicate GoodTokens(line: string, ts: seq<Token<Span>>) {
    forall k :: 0 <= k < |ts| && ts[k].Word? ==> GoodSpan(line, ts[k].word)
  }

  ghost predicate GoodParse(line: string, p: Parse<Cmd<Span>, Span>) {
    p.Parsed? ==> GoodCmd(line, p.value) && GoodTokens(line, p.rest)
  }

  lemma StartsText(line: string, ts: seq<Token<Span>>, c: char)
    ensures Starts(Texts(line, ts), c) == Starts(ts, c) && StartsRedir(Texts(line, ts)) == StartsRedir(ts)
  {
  }

  // ---------------------------------------------------------------- parsing positions and parsing words agree

  lemma {:induction false} RedirsText(line: string, c: Cmd<Span>, ts: seq<Token<Span>>)
    requires GoodCmd(line, c) && GoodTokens(line, ts)
    ensures ParseRedirs(TextCmd(line, c), Texts(line, ts)) == TextParse(line, ParseRedirs(c, ts))
    ensures GoodParse(line, ParseRedirs(c, ts))
    decreases |ts|
  {
    StartsText(line, ts, '<');
    if StartsRedir(ts) && |ts| >= 2 && ts[1].Word? {
      TextsTail(line, ts, 2);
      TextsTail(line, ts, 1);
      assert Texts(line, ts)[1] == Texts(line, ts[1..])[0];
      RedirsText(line, Redir(c, RedirOf(ts[0], ts[1].word)), ts[2..]);
    } else if StartsRedir(ts) && |ts| >= 2 {
      TextsTail(line, ts, 1);
      assert Texts(line, ts)[1] == Texts(line, ts[1..])[0];
    }
  }

  lemma {:induction false} AddArgText(line: string, c: Cmd<Span>, w: Span)
    requires GoodCmd(line, c) && GoodSpan(line, w)
    ensures TextCmd(line, AddArg(c, w)) == AddArg(TextCmd(line, c), Text(line, w)) && GoodCmd(line, AddArg(c, w))
  {
    match c
    case Exec(args) => assert (args + [w])[..|args|] == args;
    case Redir(d, _) => AddArgText(line, d, w);
    case _ =>
  }

  lemma {:induction false} ArgsText(line: string, c: Cmd<Span>, argc: nat, ts: seq<Token<Span>>)
    requires GoodCmd(line, c) && GoodTokens(line, ts)
    ensures ParseArgs(TextCmd(line, c), argc, Texts(line, ts)) == TextParse(line, ParseArgs(c, argc, ts))
    ensures GoodParse(line, ParseArgs(c, argc, ts))
    decreases |ts|
  {
    hide ParseRedirs, AddArg, GoodSpan, Text, TextArgs, GoodCmd, TextCmd, EndsExec, Texts;
    EndsText(line, ts);
    if !EndsExec(ts) {
      HeadText(line, ts);
      if ts[0].Word? && argc + 1 < MAXARGS {
        AddArgText(line, c, ts[0].word);
        var c' := AddArg(c, ts[0].word);
        RedirsText(line, c', ts[1..]);
        var r := ParseRedirs(c', ts[1..]);
        if r.Parsed? {
          ArgsText(line, r.value, argc + 1, r.rest);
        }
      }
    }
  }

  lemma EndsText(line: string, ts: seq<Token<Span>>)
    ensures EndsExec(Texts(line, ts)) == EndsExec(ts) && (EndsExec(ts) || ts != [])
  {
    StartsText(line, ts, '|');
    StartsText(line, ts, ')');
    StartsText(line, ts, '&');
    StartsText(line, ts, ';');
  }

  lemma HeadText(line: string, ts: seq<Token<Span>>)
    requires ts != [] && GoodTokens(line, ts)
    ensures Texts(line, ts) != [] && Texts(line, ts)[0] == TextToken(line, ts[0])
    ensures Texts(line, ts)[1..] == Texts(line, ts[1..])
    ensures GoodTokens(line, ts[1..]) && (ts[0].Word? ==> GoodSpan(line, ts[0].word))
  {
    TextsTail(line, ts, 1);
  }

  lemma {:induction false} ExecText(line: string, ts: seq<Token<Span>>)
    requires GoodTokens(line, ts)
    ensures ParseExec(Texts(line, ts)) == TextParse(line, ParseExec(ts)) && GoodParse(line, ParseExec(ts))
    decreases |ts|, 0
  {
    StartsText(line, ts, '(');
    if Starts(ts, '(') {
      TextsTail(line, ts, 1);
      LineText(line, ts[1..]);
      var r := ParseLine(ts[1..]);
      if r.Parsed? {
        StartsText(line, r.rest, ')');
        if Starts(r.rest, ')') {
          TextsTail(line, r.rest, 1);
          RedirsText(line, r.value, r.rest[1..]);
        }
      }
    } else {
      RedirsText(line, Exec([]), ts);
      var r := ParseRedirs(Exec([]), ts);
      if r.Parsed? {
        ArgsText(line, r.value, 0, r.rest);
      }
    }
  }

  lemma {:induction false} PipeText(line: string, ts: seq<Token<Span>>)
    requires GoodTokens(line, ts)
    ensures ParsePipe(Texts(line, ts)) == TextParse(line, ParsePipe(ts)) && GoodParse(line, ParsePipe(ts))
    decreases |ts|, 1
  {
    ExecText(line, ts);
    var l := ParseExec(ts);
    if l.Parsed? {
      StartsText(line, l.rest, '|');
      if Starts(l.rest, '|') {
        TextsTail(line, l.rest, 1);
        PipeText(line, l.rest[1..]);
      }
    }
  }

  lemma {:induction false} BacksText(line: string, c: Cmd<Span>, ts: seq<Token<Span>>)
    requires GoodCmd(line, c) && GoodTokens(line, ts)
    ensures ParseBacks(TextCmd(line, c), Texts(line, ts)) == TextParse(line, ParseBacks(c, ts))
    ensures GoodParse(line, ParseBacks(c, ts))
    decreases |ts|
  {
    StartsText(line, ts, '&');
    if Starts(ts, '&') {
      TextsTail(line, ts, 1);
      BacksText(line, Back(c), ts[1..]);
    }
  }

  lemma {:induction false} LineText(line: string, ts: seq<Token<Span>>)
    requires GoodTokens(line, ts)
    ensures ParseLine(Texts(line, ts)) == TextParse(line, ParseLine(ts)) && GoodParse(line, ParseLine(ts))
    decreases |ts|, 2
  {
    PipeText(line, ts);
    var p := ParsePipe(ts);
    if p.Parsed? {
      BacksText(line, p.value, p.rest);
      var l := ParseBacks(p.value, p.rest);
      StartsText(line, l.rest, ';');
      if Starts(l.rest, ';') {
        TextsTail(line, l.rest, 1);
        LineText(line, l.rest[1..]);
      }
    }
  }

  lemma EmptyGood(line: string)
    ensures GoodTokens(line, [])
  {
  }

  lemma OneMore(line: string, t: Token<Span>, ts: seq<Token<Span>>)
    requires GoodTokens(line, ts) && (t.Word? ==> GoodSpan(line, t.word))
    ensures GoodTokens(line, [t] + ts)
  {
  }

  lemma WordSpan(line: string, s: nat)
    requires s < |line| && !Blank(line[s]) && !Symbol(line[s]) && line[s] != '\0'
    ensures s < WordEnd(line, s) <= |line| && GoodSpan(line, Span(s, WordEnd(line, s)))
  {
  }

  lemma {:induction false} TokensGood(line: string, i: nat)
    requires i <= |line|
    ensures GoodTokens(line, Tokens(line, i))
    decreases |line| - i
  {
    hide GoodSpan, GoodTokens, WordChar, Symbol;
    var s := Skip(line, i);
    if s >= |line| || line[s] == '\0' {
      EmptyGood(line);
    } else if line[s] == '>' && At(line, s + 1) == '>' {
      TokensGood(line, s + 2);
      OneMore(line, Append, Tokens(line, s + 2));
    } else if Symbol(line[s]) {
      TokensGood(line, s + 1);
      OneMore(line, Sym(line[s]), Tokens(line, s + 1));
    } else {
      var e := WordEnd(line, s);
      WordSpan(line, s);
      TokensGood(line, e);
      OneMore(line, Word(Span(s, e)), Tokens(line, e));
    }
  }

  // ---------------------------------------------------------------- a line for given tokens

  ghost predicate GoodWord(w: string) {
    w != "" && forall k :: 0 <= k < |w| ==> WordChar(w[k])
  }

  ghost predicate GoodToken(t: Token<string>) {
    match t
    case Sym(c) => Symbol(c)
    case Append => true
    case Word(w) => GoodWord(w)
  }

  ghost function Image(t: Token<string>): string {
    match t
    case Sym(c) => [c]
    case Append => ">>"
    case Word(w) => w
  }

  ghost function Render(ts: seq<Token<string>>): string {
    if ts == [] then "" else Image(ts[0]) + " " + Render(ts[1..])
  }

  ghost predicate AllGood(ts: seq<Token<string>>) {
    forall k :: 0 <= k < |ts| ==> GoodToken(ts[k])
  }

  /** A word that stands in the line from `i` to `e` and is followed by a blank. */
  lemma {:induction false} WordEndIs(line: string, i: nat, e: nat)
    requires i <= e < |line| && (forall j :: i <= j < e ==> WordChar(line[j])) && line[e] == ' '
    ensures WordEnd(line, i) == e
    decreases e - i
  {
    if i < e {
      WordEndIs(line, i + 1, e);
    }
  }

  lemma SkipBlank(line: string, i: nat)
    requires i < |line| && line[i] == ' '
    ensures Tokens(line, i) == Tokens(line, i + 1)
  {
    assert Skip(line, i) == Skip(line, i + 1);
    assert Skip(line, Skip(line, i)) == Skip(line, i);
  }

  lemma {:induction false} TokensRendered(line: string, i: nat, ts: seq<Token<string>>)
    requires i <= |line| && line[i..] == Render(ts) && AllGood(ts)
    ensures Texts(line, Tokens(line, i)) == ts
    decreases |ts|
  {
    hide GoodToken, TextToken, Image, Tokens, Texts;
    if ts == [] {
      NoTokens(line, i);
    } else {
      var t, n := ts[0], |Image(ts[0])|;
      RenderStep(line, i, ts);
      SkipBlank(line, i + n);
      TokensRendered(line, i + n + 1, ts[1..]);
      OneToken(line, i, t);
      TextsCons(line, Tokens(line, i));
    }
  }

  lemma TextsCons(line: string, ts: seq<Token<Span>>)
    requires ts != []
    ensures Texts(line, ts) == [TextToken(line, ts[0])] + Texts(line, ts[1..])
  {
  }

  lemma NoTokens(line: string, i: nat)
    requires i <= |line| && line[i..] == Render([])
    ensures Texts(line, Tokens(line, i)) == []
  {
    assert |line[i..]| == 0;
  }

  lemma RenderStep(line: string, i: nat, ts: seq<Token<string>>)
    requires i <= |line| && ts != [] && line[i..] == Render(ts)
    ensures
      var n := |Image(ts[0])|;
      i + n < |line| && line[i + n] == ' ' && line[i..i + n] == Image(ts[0]) && line[i + n + 1..] == Render(ts[1..])
  {
    var a := Image(ts[0]) + " ";
    var n := |Image(ts[0])|;
    Located(line, i, a, Render(ts[1..]));
    assert a[n] == ' ';
    assert line[i..i + n] == a[..n];
  }

  lemma Located(line: string, i: nat, a: string, b: string)
    requires i <= |line| && line[i..] == a + b
    ensures i + |a| <= |line| && line[i..i + |a|] == a && line[i + |a|..] == b
    ensures forall k :: 0 <= k < |a| ==> line[i + k] == a[k]
  {
    forall k | 0 <= k < |a| ensures line[i + k] == a[k] {
      assert line[i..][k] == (a + b)[k];
    }
    assert line[i + |a|..] == line[i..][|a|..];
  }

  lemma OneToken(line: string, i: nat, t: Token<string>)
    requires GoodToken(t) && var n := |Image(t)|; i + n < |line| && line[i + n] == ' ' && line[i..i + n] == Image(t)
    ensures
      var n := |Image(t)|;
      var ts := Tokens(line, i);
      ts != [] && TextToken(line, ts[0]) == t && ts[1..] == Tokens(line, i + n)
  {
    var n := |Image(t)|;
    forall k | 0 <= k < n ensures line[i + k] == Image(t)[k] {
      assert line[i..i + n][k] == Image(t)[k];
    }
    assert line[i] == Image(t)[0];
    assert Skip(line, i) == i;
    match t
    case Sym(c) =>
    case Append =>
      assert line[i + 1] == Image(t)[1];
    case Word(w) =>
      forall j | i <= j < i + n ensures WordChar(line[j]) {
        assert line[i + (j - i)] == w[j - i];
      }
      WordEndIs(line, i, i + n);
  }

  // ---------------------------------------------------------------- printing a tree as a line

  ghost predicate GoodNames(c: Cmd<string>) {
    match c
    case Exec(args) => forall k :: 0 <= k < |args| ==> GoodWord(args[k])
    case Redir(d, r) => GoodNames(d) && GoodWord(r.file)
    case Pipe(l, r) => GoodNames(l) && GoodNames(r)
    case List(l, r) => GoodNames(l) && GoodNames(r)
    case Back(d) => GoodNames(d)
  }

  lemma {:induction false} ArgsGood(args: seq<string>)
    requires forall k :: 0 <= k < |args| ==> GoodWord(args[k])
    ensures AllGood(PrintArgs(args))
  {
    if args != [] {
      ArgsGood(args[1..]);
    }
  }

  lemma {:induction false} RedirsGood(rs: seq<Redirection<string>>)
    requires forall k :: 0 <= k < |rs| ==> GoodWord(rs[k].file)
    ensures AllGood(PrintRedirs(rs))
  {
    if rs != [] {
      RedirsGood(rs[1..]);
    }
  }

  lemma {:induction false} BaseGood(c: Cmd<string>)
    requires GoodNames(c)
    ensures GoodNames(Base(c)) && forall k :: 0 <= k < |Redirs(c)| ==> GoodWord(Redirs(c)[k].file)
  {
    if c.Redir? {
      BaseGood(c.cmd);
    }
  }

  lemma {:induction false} ExecGood(c: Cmd<string>)
    requires GoodNames(c)
    ensures AllGood(PrintExec(c))
    decreases c, if c.Exec? || c.Redir? then 7 else 11
  {
    BaseGood(c);
    RedirsGood(Redirs(c));
    if Base(c).Exec? {
      ArgsGood(Base(c).args);
    } else {
      if c.Redir? {
        BaseSmaller(c);
      }
      LineGood(Base(c));
    }
  }

  lemma {:induction false} PipeGood(c: Cmd<string>)
    requires GoodNames(c)
    ensures AllGood(PrintPipe(c))
    decreases c, if c.List? || c.Back? then 12 else 8
  {
    if c.Pipe? {
      ExecGood(c.left);
      PipeGood(c.right);
    } else {
      ExecGood(c);
    }
  }

  lemma {:induction false} BackGood(c: Cmd<string>)
    requires GoodNames(c)
    ensures AllGood(PrintBack(c))
    decreases c, if c.List? then 13 else 9
  {
    if c.Back? {
      BackGood(c.cmd);
    } else {
      PipeGood(c);
    }
  }

  lemma {:induction false} LineGood(c: Cmd<string>)
    requires GoodNames(c)
    ensures AllGood(PrintLine(c))
    decreases c, 10
  {
    if c.List? {
      BackGood(c.left);
      LineGood(c.right);
    } else {
      BackGood(c);
    }
  }

  /** The text of any command tree, with words free of separators and at most 9 arguments each, parses to that tree. */
  lemma RoundTrip(c: Cmd<string>)
    requires Printable(c) && GoodNames(c)
    ensures
      var line := Render(PrintLine(c));
      var r := ParseCmd(Tokens(line, 0));
      r.Parsed? && TextCmd(line, r.value) == c
  {
    var ts := PrintLine(c);
    var line := Render(ts);
    LineGood(c);
    assert line[0..] == line;
    TokensRendered(line, 0, ts);
    TokensGood(line, 0);
    LineText(line, Tokens(line, 0));
    ParsePrinted(c);
  }
}
