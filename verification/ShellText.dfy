/** Which token sequences are command lines, and of which tree: the grammar without a parser. */
module ShellText {
  import opened ShellGrammar

  // ---------------------------------------------------------------- simple commands

  predicate IsRedir<W>(t: Token<W>) {
    t == Sym('<') || t == Sym('>') || t == Append
  }

  /** Words and redirections only, and every redirection has its file name. */
  ghost predicate Simple<W>(ts: seq<Token<W>>) {
    forall k :: 0 <= k < |ts| ==> SimpleAt(ts, k)
  }

  ghost predicate SimpleAt<W>(ts: seq<Token<W>>, k: nat)
    requires k < |ts|
  {
    ts[k].Word? || (IsRedir(ts[k]) && k + 1 < |ts| && ts[k + 1].Word?)
  }

  /** The words that are no file names, in order. */
  ghost function Words<W>(ts: seq<Token<W>>): seq<W>
    decreases |ts|
  {
    if ts == [] then []
    else if ts[0].Word? then [ts[0].word] + Words(ts[1..])
    else if |ts| < 2 then []
    else Words(ts[2..])
  }

  /** The redirections, in order. */
  ghost function Redirections<W>(ts: seq<Token<W>>): seq<Redirection<W>>
    decreases |ts|
  {
    if ts == [] then []
    else if ts[0].Word? then Redirections(ts[1..])
    else if |ts| < 2 || !ts[1].Word? then []
    else [RedirOf(ts[0], ts[1].word)] + Redirections(ts[2..])
  }

  // ---------------------------------------------------------------- the grammar

  /** Fewer than 10 words with redirections before, between and after them; or a line in parentheses with redirections
      after it. */
  ghost predicate IsExec<W(!new)>(ts: seq<Token<W>>, c: Cmd<W>)
    decreases |ts|, 0
  {
    || (Simple(ts) && |Words(ts)| < MAXARGS && c == Wrap(Exec(Words(ts)), Redirections(ts)))
    || (exists k :: 0 < k < |ts| && IsBlock(ts, k, c))
  }

  ghost predicate IsBlock<W(!new)>(ts: seq<Token<W>>, k: nat, c: Cmd<W>)
    requires 0 < k < |ts|
    decreases |ts|, 0, 0
  {
    && ts[0] == Sym('(') && ts[k] == Sym(')') && Simple(ts[k + 1..]) && Words(ts[k + 1..]) == []
    && exists d: Cmd<W> :: IsLine(ts[1..k], d) && c == Wrap(d, Redirections(ts[k + 1..]))
  }

  /** Commands with '|' between them. */
  ghost predicate IsPipe<W(!new)>(ts: seq<Token<W>>, c: Cmd<W>)
    decreases |ts|, 1
  {
    || IsExec(ts, c)
    || (c.Pipe? && exists k ::
          0 <= k < |ts| && ts[k] == Sym('|') && IsExec(ts[..k], c.left) && IsPipe(ts[k + 1..], c.right))
  }

  /** A pipe, then any number of '&'. */
  ghost predicate IsBacks<W(!new)>(ts: seq<Token<W>>, c: Cmd<W>)
    decreases |ts|, 2
  {
    || IsPipe(ts, c)
    || (c.Back? && ts != [] && ts[|ts| - 1] == Sym('&') && IsBacks(ts[..|ts| - 1], c.cmd))
  }

  /** These with ';' between them. */
  ghost predicate IsLine<W(!new)>(ts: seq<Token<W>>, c: Cmd<W>)
    decreases |ts|, 3
  {
    || IsBacks(ts, c)
    || (c.List? && exists k ::
          0 <= k < |ts| && ts[k] == Sym(';') && IsBacks(ts[..k], c.left) && IsLine(ts[k + 1..], c.right))
  }

  // ---------------------------------------------------------------- words and redirections

  lemma {:induction false} AddArgWrap<W>(pre: seq<W>, rs: seq<Redirection<W>>, w: W)
    ensures AddArg(Wrap(Exec(pre), rs), w) == Wrap(Exec(pre + [w]), rs)
    decreases |rs|
  {
    if rs != [] {
      var n := |rs| - 1;
      assert rs == rs[..n] + [rs[n]];
      WrapLast(Exec(pre), rs[..n], rs[n]);
      WrapLast(Exec(pre + [w]), rs[..n], rs[n]);
      AddArgWrap(pre, rs[..n], w);
    }
  }

  lemma SimpleRest<W>(ts: seq<Token<W>>)
    requires Simple(ts) && ts != []
    ensures ts[0].Word? ==> Simple(ts[1..])
    ensures !ts[0].Word? ==> IsRedir(ts[0]) && |ts| >= 2 && ts[1].Word? && Simple(ts[2..])
  {
    assert SimpleAt(ts, 0);
    SimplePart(ts, 1);
    if |ts| >= 2 {
      SimplePart(ts, 2);
    }
  }

  lemma SimplePart<W>(ts: seq<Token<W>>, n: nat)
    requires Simple(ts) && n <= |ts|
    ensures Simple(ts[n..])
  {
    forall k | 0 <= k < |ts| - n ensures SimpleAt(ts[n..], k) {
      assert SimpleAt(ts, n + k);
    }
  }

  /** What the parser makes of a simple command after words `pre` and redirections `rs`. */
  lemma {:induction false} SimpleParsed<W>(pre: seq<W>, rs: seq<Redirection<W>>, ts: seq<Token<W>>, rest: seq<Token<W>>)
    requires Simple(ts) && EndsExec(rest) && |pre| < MAXARGS
    ensures
      var r := ParseRedirs(Wrap(Exec(pre), rs), ts + rest);
      && r.Parsed?
      && ParseArgs(r.value, |pre|, r.rest) ==
         if |pre| + |Words(ts)| < MAXARGS then Parsed(Wrap(Exec(pre + Words(ts)), rs + Redirections(ts)), rest)
             else Error
    decreases |ts|
  {
    if ts == [] {
      assert ts + rest == rest;
      assert pre + Words(ts) == pre && rs + Redirections(ts) == rs;
    } else {
      SimpleRest(ts);
      if ts[0].Word? {
        WordParsed(pre, rs, ts, rest);
      } else {
        RedirParsed(pre, rs, ts, rest);
      }
    }
  }

  lemma WordParsed<W>(pre: seq<W>, rs: seq<Redirection<W>>, ts: seq<Token<W>>, rest: seq<Token<W>>)
    requires ts != [] && ts[0].Word? && Simple(ts[1..]) && EndsExec(rest) && |pre| < MAXARGS
    ensures
      var r := ParseRedirs(Wrap(Exec(pre), rs), ts + rest);
      && r.Parsed?
      && ParseArgs(r.value, |pre|, r.rest) ==
         if |pre| + |Words(ts)| < MAXARGS then Parsed(Wrap(Exec(pre + Words(ts)), rs + Redirections(ts)), rest)
             else Error
    decreases |ts|, 0
  {
    hide Simple, EndsExec;
    var w := ts[0].word;
    assert (ts + rest)[1..] == ts[1..] + rest;
    assert pre + Words(ts) == (pre + [w]) + Words(ts[1..]);
    AddArgWrap(pre, rs, w);
    if |pre| + 1 < MAXARGS {
      SimpleParsed(pre + [w], rs, ts[1..], rest);
    }
    ArgsStep(Wrap(Exec(pre), rs), |pre|, ts + rest);
  }

  lemma ArgsStep<W>(c: Cmd<W>, argc: nat, ts: seq<Token<W>>)
    requires ts != [] && ts[0].Word?
    ensures ParseRedirs(c, ts) == Parsed(c, ts)
    ensures ParseArgs(c, argc, ts) ==
            if argc + 1 >= MAXARGS then Error
            else
              var r := ParseRedirs(AddArg(c, ts[0].word), ts[1..]);
              if r.Error? then Error else ParseArgs(r.value, argc + 1, r.rest)
  {
    hide AddArg;
  }

  lemma RedirParsed<W>(pre: seq<W>, rs: seq<Redirection<W>>, ts: seq<Token<W>>, rest: seq<Token<W>>)
    requires |ts| >= 2 && IsRedir(ts[0]) && ts[1].Word? && Simple(ts[2..]) && EndsExec(rest) && |pre| < MAXARGS
    ensures
      var r := ParseRedirs(Wrap(Exec(pre), rs), ts + rest);
      && r.Parsed?
      && ParseArgs(r.value, |pre|, r.rest) ==
         if |pre| + |Words(ts)| < MAXARGS then Parsed(Wrap(Exec(pre + Words(ts)), rs + Redirections(ts)), rest)
             else Error
    decreases |ts|, 0
  {
    hide Simple, EndsExec;
    var r := RedirOf(ts[0], ts[1].word);
    assert (ts + rest)[2..] == ts[2..] + rest;
    assert rs + Redirections(ts) == (rs + [r]) + Redirections(ts[2..]);
    WrapLast(Exec(pre), rs, r);
    SimpleParsed(pre, rs + [r], ts[2..], rest);
    RedirStep(Wrap(Exec(pre), rs), ts + rest);
  }

  lemma RedirStep<W>(c: Cmd<W>, ts: seq<Token<W>>)
    requires |ts| >= 2 && IsRedir(ts[0]) && ts[1].Word?
    ensures ParseRedirs(c, ts) == ParseRedirs(Redir(c, RedirOf(ts[0], ts[1].word)), ts[2..])
  {
  }

  // ---------------------------------------------------------------- every line of the grammar is parsed

  lemma NoParen<W>(ts: seq<Token<W>>, rest: seq<Token<W>>)
    requires Simple(ts) && EndsExec(rest)
    ensures !Starts(ts + rest, '(')
  {
    if ts != [] {
      assert SimpleAt(ts, 0);
    }
  }

  /** Redirections after a block. */
  lemma {:induction false} RedirsParsed<W>(c: Cmd<W>, ts: seq<Token<W>>, rest: seq<Token<W>>)
    requires Simple(ts) && Words(ts) == [] && !StartsRedir(rest)
    ensures ParseRedirs(c, ts + rest) == Parsed(Wrap(c, Redirections(ts)), rest)
    decreases |ts|
  {
    if ts == [] {
      assert ts + rest == rest;
    } else {
      SimpleRest(ts);
      assert (ts + rest)[2..] == ts[2..] + rest;
      RedirStep(c, ts + rest);
      RedirsParsed(Redir(c, RedirOf(ts[0], ts[1].word)), ts[2..], rest);
    }
  }

  lemma {:induction false} ExecParsed<W(!new)>(ts: seq<Token<W>>, c: Cmd<W>, rest: seq<Token<W>>)
    requires IsExec(ts, c) && EndsExec(rest)
    ensures ParseExec(ts + rest) == Parsed(c, rest)
    decreases |ts|, 0
  {
    if Simple(ts) && |Words(ts)| < MAXARGS && c == Wrap(Exec(Words(ts)), Redirections(ts)) {
      hide ParseLine, ParseRedirs, ParseArgs, Wrap, IsLine, Simple, EndsExec;
      NoParen(ts, rest);
      assert [] + Words(ts) == Words(ts) && [] + Redirections(ts) == Redirections(ts);
      WrapNone<W>(Exec([]));
      SimpleParsed([], [], ts, rest);
    } else {
      var k :| 0 < k < |ts| && IsBlock(ts, k, c);
      BlockParsed(ts, k, c, rest);
    }
  }

  lemma WrapNone<W>(c: Cmd<W>)
    ensures Wrap(c, []) == c
  {
  }

  lemma {:induction false} BlockParsed<W(!new)>(ts: seq<Token<W>>, k: nat, c: Cmd<W>, rest: seq<Token<W>>)
    requires 0 < k < |ts| && IsBlock(ts, k, c) && EndsExec(rest)
    ensures ParseExec(ts + rest) == Parsed(c, rest)
    decreases |ts|, 0, 0
  {
    var d: Cmd<W> :| IsLine(ts[1..k], d) && c == Wrap(d, Redirections(ts[k + 1..]));
    hide ParseLine, ParseRedirs, Wrap, IsLine, Simple, Words, Redirections;
    var tail := ts[k + 1..] + rest;
    assert ts == [ts[0]] + ts[1..k] + [ts[k]] + ts[k + 1..];
    Parenthesized(ts[0], ts[1..k], ts[k], ts[k + 1..], rest);
    EndsNoRedir(rest);
    LineParsed(ts[1..k], d, [Sym(')')] + tail);
    assert ([Sym(')')] + tail)[1..] == tail;
    RedirsParsed(d, ts[k + 1..], rest);
  }

  lemma {:induction false} PipeParsed<W(!new)>(ts: seq<Token<W>>, c: Cmd<W>, rest: seq<Token<W>>)
    requires IsPipe(ts, c) && EndsPipe(rest)
    ensures ParsePipe(ts + rest) == Parsed(c, rest)
    decreases |ts|, 1
  {
    hide ParseExec, IsExec;
    if IsExec(ts, c) {
      ExecParsed(ts, c, rest);
    } else {
      var k :| 0 <= k < |ts| && ts[k] == Sym('|') && IsExec(ts[..k], c.left) && IsPipe(ts[k + 1..], c.right);
      hide IsPipe;
      SplitAt(ts, k, rest);
      ExecParsed(ts[..k], c.left, [ts[k]] + (ts[k + 1..] + rest));
      PipeParsed(ts[k + 1..], c.right, rest);
      assert ([ts[k]] + (ts[k + 1..] + rest))[1..] == ts[k + 1..] + rest;
    }
  }

  lemma SplitAt<T>(ts: seq<T>, k: nat, rest: seq<T>)
    requires k < |ts|
    ensures ts + rest == ts[..k] + ([ts[k]] + (ts[k + 1..] + rest))
  {
  }

  lemma {:induction false} BacksParsed<W(!new)>(ts: seq<Token<W>>, c: Cmd<W>, rest: seq<Token<W>>)
    requires IsBacks(ts, c) && EndsPipe(rest)
    ensures
      var p := ParsePipe(ts + rest);
      p.Parsed? && ParseBacks(p.value, p.rest) == ParseBacks(c, rest)
    decreases |ts|, 2
  {
    hide ParsePipe, IsPipe;
    if IsPipe(ts, c) {
      PipeParsed(ts, c, rest);
    } else {
      var n := |ts| - 1;
      assert ts + rest == ts[..n] + ([Sym('&')] + rest);
      BacksParsed(ts[..n], c.cmd, [Sym('&')] + rest);
      assert ([Sym('&')] + rest)[1..] == rest;
    }
  }

  lemma {:induction false} LineParsed<W(!new)>(ts: seq<Token<W>>, c: Cmd<W>, rest: seq<Token<W>>)
    requires IsLine(ts, c) && EndsLine(rest)
    ensures ParseLine(ts + rest) == Parsed(c, rest)
    decreases |ts|, 3
  {
    hide ParsePipe, IsBacks;
    if IsBacks(ts, c) {
      BacksParsed(ts, c, rest);
    } else {
      var k :| 0 <= k < |ts| && ts[k] == Sym(';') && IsBacks(ts[..k], c.left) && IsLine(ts[k + 1..], c.right);
      hide IsLine;
      SplitAt(ts, k, rest);
      BacksParsed(ts[..k], c.left, [ts[k]] + (ts[k + 1..] + rest));
      LineParsed(ts[k + 1..], c.right, rest);
      assert ([ts[k]] + (ts[k + 1..] + rest))[1..] == ts[k + 1..] + rest;
    }
  }

  // ---------------------------------------------------------------- whatever is parsed is of the grammar

  lemma {:induction false} WrapAppend<W>(c: Cmd<W>, rs: seq<Redirection<W>>, more: seq<Redirection<W>>)
    ensures Wrap(Wrap(c, rs), more) == Wrap(c, rs + more)
    decreases |rs|
  {
    if rs == [] {
      assert rs + more == more;
    } else {
      assert (rs + more)[1..] == rs[1..] + more;
      WrapAppend(Redir(c, rs[0]), rs[1..], more);
    }
  }

  lemma SimpleBoth<W>(a: seq<Token<W>>, b: seq<Token<W>>)
    requires Simple(a) && Simple(b)
    ensures Simple(a + b)
  {
    forall k | 0 <= k < |a + b| ensures SimpleAt(a + b, k) {
      assert if k < |a| then SimpleAt(a, k) else SimpleAt(b, k - |a|);
    }
  }

  lemma {:induction false} SimpleAppend<W>(a: seq<Token<W>>, b: seq<Token<W>>)
    requires Simple(a) && Simple(b)
    ensures Simple(a + b) && Words(a + b) == Words(a) + Words(b)
    ensures Redirections(a + b) == Redirections(a) + Redirections(b)
    decreases |a|
  {
    hide Simple;
    SimpleBoth(a, b);
    if a == [] {
      assert a + b == b;
    } else {
      SimpleRest(a);
      var n := if a[0].Word? then 1 else 2;
      assert (a + b)[n..] == a[n..] + b;
      SimpleAppend(a[n..], b);
    }
  }

  lemma SimpleOne<W>(w: W)
    ensures Simple([Word(w)]) && Words([Word(w)]) == [w] && Redirections([Word(w)]) == []
  {
  }

  lemma SimpleTwo<W>(t: Token<W>, w: W)
    requires IsRedir(t)
    ensures Simple([t, Word(w)]) && Words([t, Word(w)]) == [] && Redirections([t, Word(w)]) == [RedirOf(t, w)]
  {
    assert [t, Word(w)][2..] == [];
  }

  /** What has been read of `ts` when `rest` is left. */
  ghost function Read<W>(ts: seq<Token<W>>, rest: seq<Token<W>>): seq<Token<W>> {
    if |rest| <= |ts| then ts[..|ts| - |rest|] else []
  }

  lemma ReadMore<W>(ts: seq<Token<W>>, k: nat, rest: seq<Token<W>>)
    requires k <= |ts| && ts[k..] == Read(ts[k..], rest) + rest
    ensures ts == Read(ts, rest) + rest && Read(ts, rest) == ts[..k] + Read(ts[k..], rest)
  {
    var part := Read(ts[k..], rest);
    assert ts == ts[..k] + part + rest;
    assert |ts| - |rest| == k + |part|;
    assert ts[..k + |part|] == ts[..k] + part;
  }

  lemma {:induction false} RedirsRead<W>(c: Cmd<W>, ts: seq<Token<W>>)
    requires ParseRedirs(c, ts).Parsed?
    ensures
      var r := ParseRedirs(c, ts);
      var a := Read(ts, r.rest);
      && ts == a + r.rest && Simple(a) && Words(a) == [] && r.value == Wrap(c, Redirections(a))
    decreases |ts|
  {
    var r := ParseRedirs(c, ts);
    if StartsRedir(ts) {
      var d := Redir(c, RedirOf(ts[0], ts[1].word));
      RedirsRead(d, ts[2..]);
      var b := Read(ts[2..], r.rest);
      ReadMore(ts, 2, r.rest);
      assert ts[..2] == [ts[0], Word(ts[1].word)];
      SimpleTwo(ts[0], ts[1].word);
      SimpleAppend(ts[..2], b);
      WrapLast(c, [], RedirOf(ts[0], ts[1].word));
      WrapAppend(c, [RedirOf(ts[0], ts[1].word)], Redirections(b));
    } else {
      assert Read(ts, r.rest) == [];
    }
  }

  lemma {:induction false} ArgsRead<W>(pre: seq<W>, rs: seq<Redirection<W>>, ts: seq<Token<W>>)
    requires |pre| < MAXARGS && ParseArgs(Wrap(Exec(pre), rs), |pre|, ts).Parsed?
    ensures
      var r := ParseArgs(Wrap(Exec(pre), rs), |pre|, ts);
      var a := Read(ts, r.rest);
      && ts == a + r.rest && Simple(a) && |pre| + |Words(a)| < MAXARGS
      && r.value == Wrap(Exec(pre + Words(a)), rs + Redirections(a))
    decreases |ts|
  {
    var r := ParseArgs(Wrap(Exec(pre), rs), |pre|, ts);
    if EndsExec(ts) {
      assert Read(ts, r.rest) == [];
      assert pre + Words([]) == pre && rs + Redirections([]) == rs;
    } else {
      hide EndsExec;
      ArgRead(pre, rs, ts);
    }
  }

  lemma ArgRead<W>(pre: seq<W>, rs: seq<Redirection<W>>, ts: seq<Token<W>>)
    requires |pre| + 1 < MAXARGS && ParseArgs(Wrap(Exec(pre), rs), |pre|, ts).Parsed? && ts != [] && ts[0].Word?
    ensures
      var r := ParseArgs(Wrap(Exec(pre), rs), |pre|, ts);
      var a := Read(ts, r.rest);
      && ts == a + r.rest && Simple(a) && |pre| + |Words(a)| < MAXARGS
      && r.value == Wrap(Exec(pre + Words(a)), rs + Redirections(a))
    decreases |ts|, 0
  {
    hide Simple, Words, Redirections, EndsExec, Wrap, Read, ParseArgs, ParseRedirs;
    var c, w := Wrap(Exec(pre), rs), ts[0].word;
    ArgsStep(c, |pre|, ts);
    AddArgWrap(pre, rs, w);
    var c1 := Wrap(Exec(pre + [w]), rs);
    var p := ParseRedirs(c1, ts[1..]);
    RedirsRead(c1, ts[1..]);
    var b := Read(ts[1..], p.rest);
    WrapAppend(Exec(pre + [w]), rs, Redirections(b));
    ArgsRead(pre + [w], rs + Redirections(b), p.rest);
    var r := ParseArgs(c, |pre|, ts);
    var d := Read(p.rest, r.rest);
    SimpleOne(w);
    SimpleAppend(b, d);
    SimpleAppend([Word(w)], b + d);
    assert ts[0] == Word(w);
    ReadAll([Word(w)], b, d, ts, r.rest);
    assert [] + Words(d) == Words(d);
    assert [] + (Redirections(b) + Redirections(d)) == Redirections(b) + Redirections(d);
    assert pre + [w] + Words(d) == pre + ([w] + (Words(b) + Words(d)));
    assert rs + Redirections(b) + Redirections(d) == rs + (Redirections(b) + Redirections(d));
  }

  lemma ReadAll<W>(a: seq<Token<W>>, b: seq<Token<W>>, d: seq<Token<W>>, ts: seq<Token<W>>, rest: seq<Token<W>>)
    requires |ts| >= |a| && ts[..|a|] == a && ts[|a|..] == b + (d + rest)
    ensures Read(ts, rest) == a + (b + d) && ts == a + (b + d) + rest
  {
    assert ts == a + (b + d) + rest;
    assert |ts| - |rest| == |a + (b + d)|;
  }

  lemma {:induction false} ExecRead<W(!new)>(ts: seq<Token<W>>)
    requires ParseExec(ts).Parsed?
    ensures
      var r := ParseExec(ts);
      ts == Read(ts, r.rest) + r.rest && IsExec(Read(ts, r.rest), r.value)
    decreases |ts|, 0
  {
    if Starts(ts, '(') {
      BlockRead(ts);
    } else {
      hide Simple, Words, Redirections, Wrap, ParseArgs, ParseRedirs, IsBlock, Read;
      var r, p := ParseExec(ts), ParseRedirs(Exec([]), ts);
      RedirsRead(Exec([]), ts);
      var b := Read(ts, p.rest);
      ArgsRead([], Redirections(b), p.rest);
      var d := Read(p.rest, r.rest);
      SimpleAppend(b, d);
      ReadAll([], b, d, ts, r.rest);
      assert [] + (b + d) == b + d;
      assert [] + Words(d) == Words(b) + Words(d);
    }
  }

  lemma BlockRead<W(!new)>(ts: seq<Token<W>>)
    requires ParseExec(ts).Parsed? && Starts(ts, '(')
    ensures
      var r := ParseExec(ts);
      ts == Read(ts, r.rest) + r.rest && IsExec(Read(ts, r.rest), r.value)
    decreases |ts|, 0, 0
  {
    hide Simple, Words, Redirections, Wrap, ParseLine, ParseRedirs, IsLine, Read;
    var r, p := ParseExec(ts), ParseLine(ts[1..]);
    LineRead(ts[1..]);
    var line := Read(ts[1..], p.rest);
    RedirsRead(p.value, p.rest[1..]);
    var b := Read(p.rest[1..], r.rest);
    var all := [Sym('(')] + (line + [Sym(')')]) + b;
    assert ts[1..] == line + p.rest && p.rest == [Sym(')')] + (b + r.rest);
    assert ts[1..] == (line + [Sym(')')]) + (b + r.rest);
    ReadAll([Sym('(')], line + [Sym(')')], b, ts, r.rest);
    assert Read(ts, r.rest) == all;
    var k := 1 + |line|;
    assert all[1..k] == line && all[k] == Sym(')') && all[k + 1..] == b;
    assert IsBlock(all, k, r.value);
  }

  lemma {:induction false} PipeRead<W(!new)>(ts: seq<Token<W>>)
    requires ParsePipe(ts).Parsed?
    ensures
      var r := ParsePipe(ts);
      ts == Read(ts, r.rest) + r.rest && IsPipe(Read(ts, r.rest), r.value)
    decreases |ts|, 1
  {
    hide ParseExec, IsExec, Read;
    var r, l := ParsePipe(ts), ParseExec(ts);
    ExecRead(ts);
    if Starts(l.rest, '|') {
      PipeRead(l.rest[1..]);
      var a, b := Read(ts, l.rest), Read(l.rest[1..], r.rest);
      assert l.rest == [Sym('|')] + (b + r.rest);
      hide IsPipe, ParsePipe;
      ReadAll(a, [Sym('|')], b, ts, r.rest);
      PipeOf(a, l.value, b, ParsePipe(l.rest[1..]).value);
    }
  }

  lemma PipeOf<W(!new)>(a: seq<Token<W>>, c: Cmd<W>, b: seq<Token<W>>, d: Cmd<W>)
    requires IsExec(a, c) && IsPipe(b, d)
    ensures IsPipe(a + ([Sym('|')] + b), Pipe(c, d))
  {
    hide IsExec;
    var all, k := a + ([Sym('|')] + b), |a|;
    assert all[..k] == a && all[k] == Sym('|') && all[k + 1..] == b;
  }

  lemma {:induction false} BacksRead<W(!new)>(a: seq<Token<W>>, c: Cmd<W>, ts: seq<Token<W>>)
    requires IsBacks(a, c)
    ensures
      var r := ParseBacks(c, ts);
      ts == Read(ts, r.rest) + r.rest && IsBacks(a + Read(ts, r.rest), r.value)
    decreases |ts|
  {
    var r := ParseBacks(c, ts);
    if Starts(ts, '&') {
      var a' := a + [Sym('&')];
      assert a'[..|a'| - 1] == a;
      assert IsBacks(a', Back(c));
      hide IsBacks;
      BacksRead(a', Back(c), ts[1..]);
      ReadMore(ts, 1, r.rest);
      assert a' + Read(ts[1..], r.rest) == a + Read(ts, r.rest);
    } else {
      assert Read(ts, r.rest) == [] && a + [] == a;
    }
  }

  lemma {:induction false} LineRead<W(!new)>(ts: seq<Token<W>>)
    requires ParseLine(ts).Parsed?
    ensures
      var r := ParseLine(ts);
      ts == Read(ts, r.rest) + r.rest && IsLine(Read(ts, r.rest), r.value)
    decreases |ts|, 2
  {
    hide ParsePipe, IsPipe, IsBacks, Read, ParseBacks;
    var r, p := ParseLine(ts), ParsePipe(ts);
    var l := ParseBacks(p.value, p.rest);
    PipeRead(ts);
    PipeIsBacks(Read(ts, p.rest), p.value);
    BacksRead(Read(ts, p.rest), p.value, p.rest);
    var a := Read(ts, p.rest) + Read(p.rest, l.rest);
    ReadAll([], Read(ts, p.rest), Read(p.rest, l.rest), ts, l.rest);
    assert [] + a == a;
    if Starts(l.rest, ';') {
      LineRead(l.rest[1..]);
      var b := Read(l.rest[1..], r.rest);
      var all := a + [Sym(';')] + b;
      assert l.rest == [Sym(';')] + (b + r.rest);
      ReadAll(a, [Sym(';')], b, ts, r.rest);
      assert Read(ts, r.rest) == all;
      var k := |a|;
      assert all[..k] == a && all[k] == Sym(';') && all[k + 1..] == b;
    }
  }

  lemma PipeIsBacks<W(!new)>(ts: seq<Token<W>>, c: Cmd<W>)
    requires IsPipe(ts, c)
    ensures IsBacks(ts, c)
  {
  }

  // ---------------------------------------------------------------- the theorems

  /** The parser accepts exactly the lines of the grammar, and gives their tree. */
  lemma ParsesGrammar<W(!new)>(ts: seq<Token<W>>, c: Cmd<W>)
    ensures ParseCmd(ts) == Parsed(c, []) <==> IsLine(ts, c)
  {
    hide ParseLine, IsLine;
    assert ts + [] == ts;
    if IsLine(ts, c) {
      LineParsed(ts, c, []);
    }
    if ParseCmd(ts).Parsed? {
      LineRead(ts);
      assert Read(ts, []) == ts;
    }
  }

  /** No line has two trees. */
  lemma Unambiguous<W(!new)>(ts: seq<Token<W>>, c: Cmd<W>, d: Cmd<W>)
    requires IsLine(ts, c) && IsLine(ts, d)
    ensures c == d
  {
    hide ParseCmd, IsLine;
    ParsesGrammar(ts, c);
    ParsesGrammar(ts, d);
  }

  /** Words and redirections in any order: the words, in order, within the redirections, in order. */
  lemma SimpleExec<W>(ts: seq<Token<W>>, n: nat)
    requires n <= |ts| && Simple(ts[..n]) && EndsExec(ts[n..])
    ensures
      var a := ts[..n];
      ParseExec(ts) == if |Words(a)| < MAXARGS then Parsed(Wrap(Exec(Words(a)), Redirections(a)), ts[n..]) else Error
  {
    hide ParseRedirs, ParseArgs, Simple, Words, Redirections, EndsExec;
    var a := ts[..n];
    assert a + ts[n..] == ts;
    NoParen(a, ts[n..]);
    WrapNone<W>(Exec([]));
    SimpleParsed([], [], a, ts[n..]);
    assert [] + Words(a) == Words(a) && [] + Redirections(a) == Redirections(a);
  }

  /** How many more '(' than ')'. */
  ghost function Open<W>(ts: seq<Token<W>>): int {
    if ts == [] then 0
    else Open(ts[1..]) + (if ts[0] == Sym('(') then 1 else if ts[0] == Sym(')') then -1 else 0)
  }

  /** Every redirection has a file name, and no place has ten words or more. */
  ghost predicate Orderly<W>(ts: seq<Token<W>>) {
    && (forall k: nat :: !Unnamed(ts, k))
    && (forall i: nat, j: nat :: !Crowded(ts, i, j))
  }

  ghost predicate Unnamed<W>(ts: seq<Token<W>>, k: nat) {
    k < |ts| && IsRedir(ts[k]) && (k + 1 == |ts| || !ts[k + 1].Word?)
  }

  ghost predicate Crowded<W>(ts: seq<Token<W>>, i: nat, j: nat) {
    i <= j <= |ts| && Simple(ts[i..j]) && (i > 0 ==> !IsRedir(ts[i - 1])) && |Words(ts[i..j])| >= MAXARGS
  }

  lemma {:induction false} OpenAppend<W>(a: seq<Token<W>>, b: seq<Token<W>>)
    ensures Open(a + b) == Open(a) + Open(b)
  {
    if a == [] {
      assert a + b == b;
    } else {
      assert (a + b)[1..] == a[1..] + b;
      OpenAppend(a[1..], b);
    }
  }

  lemma {:induction false} OpenSimple<W>(ts: seq<Token<W>>)
    requires Simple(ts)
    ensures Open(ts) == 0
    decreases |ts|
  {
    if ts != [] {
      SimpleRest(ts);
      if ts[0].Word? {
        OpenSimple(ts[1..]);
      } else {
        assert ts[1..][1..] == ts[2..];
        OpenSimple(ts[2..]);
      }
    }
  }

  lemma OpenJoined<W>(a: seq<Token<W>>, c: char, b: seq<Token<W>>)
    ensures Open(a + ([Sym(c)] + b)) == Open(a) + Open(b) + if c == '(' then 1 else if c == ')' then -1 else 0
  {
    OpenAppend(a, [Sym(c)] + b);
    assert ([Sym(c)] + b)[1..] == b;
  }

  lemma OrderlySimple<W>(ts: seq<Token<W>>)
    requires Simple(ts) && |Words(ts)| < MAXARGS
    ensures Orderly(ts)
  {
    forall k: nat ensures !Unnamed(ts, k) {
      assert k < |ts| ==> SimpleAt(ts, k);
    }
    hide Simple, Words;
    forall i: nat, j: nat ensures !Crowded(ts, i, j) {
      if Crowded(ts, i, j) {
        FewerWords(ts, i, j);
      }
    }
  }

  lemma FewerWords<W>(ts: seq<Token<W>>, i: nat, j: nat)
    requires Simple(ts) && i <= j <= |ts| && Simple(ts[i..j]) && (i > 0 ==> !IsRedir(ts[i - 1]))
    ensures |Words(ts[i..j])| <= |Words(ts)|
  {
    var a, b, c := ts[..i], ts[i..j], ts[j..];
    forall k | 0 <= k < i ensures SimpleAt(a, k) {
      assert SimpleAt(ts, k);
    }
    SimplePart(ts, j);
    hide Simple, Words;
    SimpleAppend(b, c);
    SimpleAppend(a, b + c);
    assert ts == a + (b + c);
  }

  lemma OrderlyJoined<W>(a: seq<Token<W>>, s: Token<W>, b: seq<Token<W>>)
    requires Orderly(a) && Orderly(b) && s.Sym? && !IsRedir(s)
    ensures Orderly(a + ([s] + b))
  {
    hide Unnamed, Crowded;
    var ts := a + ([s] + b);
    forall k: nat ensures !Unnamed(ts, k) {
      if Unnamed(ts, k) {
        UnnamedJoined(a, s, b, k);
      }
    }
    forall i: nat, j: nat ensures !Crowded(ts, i, j) {
      if Crowded(ts, i, j) {
        CrowdedJoined(a, s, b, i, j);
      }
    }
  }

  lemma UnnamedJoined<W>(a: seq<Token<W>>, s: Token<W>, b: seq<Token<W>>, k: nat)
    requires Unnamed(a + ([s] + b), k) && s.Sym? && !IsRedir(s)
    ensures Unnamed(a, k) || (k > |a| && Unnamed(b, k - |a| - 1))
  {
    var ts := a + ([s] + b);
    assert ts[|a|] == s && (k < |a| ==> ts[k] == a[k]);
  }

  lemma NotSimple<W>(ts: seq<Token<W>>, k: nat)
    requires k < |ts| && ts[k].Sym? && !IsRedir(ts[k])
    ensures !Simple(ts)
  {
    assert !SimpleAt(ts, k);
  }

  lemma CrowdedJoined<W>(a: seq<Token<W>>, s: Token<W>, b: seq<Token<W>>, i: nat, j: nat)
    requires Crowded(a + ([s] + b), i, j) && s.Sym? && !IsRedir(s)
    ensures Crowded(a, i, j) || (i > |a| && i <= j && Crowded(b, i - |a| - 1, j - |a| - 1))
  {
    hide Simple, Words, IsRedir;
    var ts, n := a + ([s] + b), |a| + 1;
    Slices(a, s, b, i, j);
    if i <= |a| < j {
      NotSimple(ts[i..j], |a| - i);
    }
  }

  lemma Slices<T>(a: seq<T>, s: T, b: seq<T>, i: nat, j: nat)
    requires i <= j <= |a| + 1 + |b|
    ensures
      var ts := a + ([s] + b);
      && (j <= |a| ==> ts[i..j] == a[i..j] && (i > 0 ==> ts[i - 1] == a[i - 1]))
      && (i <= |a| < j ==> ts[i..j][|a| - i] == s)
      && (|a| < i ==> ts[i..j] == b[i - |a| - 1..j - |a| - 1] && (i > |a| + 1 ==> ts[i - 1] == b[i - |a| - 2]))
  {
  }

  /** What all command lines have in common. */
  ghost predicate Sane<W>(ts: seq<Token<W>>) {
    Orderly(ts) && Open(ts) == 0
  }

  lemma SaneJoined<W>(a: seq<Token<W>>, c: char, b: seq<Token<W>>)
    requires Sane(a) && Sane(b) && c in "|&;"
    ensures Sane(a + ([Sym(c)] + b))
  {
    OrderlyJoined(a, Sym(c), b);
    OpenJoined(a, c, b);
  }

  lemma SaneBlock<W>(line: seq<Token<W>>, b: seq<Token<W>>)
    requires Sane(line) && Sane(b)
    ensures Sane([] + ([Sym('(')] + (line + ([Sym(')')] + b))))
  {
    hide Orderly;
    OrderlyEmpty<W>();
    OrderlyJoined(line, Sym(')'), b);
    OrderlyJoined([], Sym('('), line + ([Sym(')')] + b));
    OpenJoined(line, ')', b);
    OpenJoined([], '(', line + ([Sym(')')] + b));
  }

  lemma OrderlyEmpty<W>()
    ensures Orderly<W>([])
  {
    OrderlySimple<W>([]);
  }

  lemma {:induction false} ExecSane<W(!new)>(ts: seq<Token<W>>, c: Cmd<W>)
    requires IsExec(ts, c)
    ensures Sane(ts)
    decreases |ts|, 0
  {
    hide Simple, Orderly, IsBlock, Words, Redirections, Open;
    if Simple(ts) && |Words(ts)| < MAXARGS {
      OrderlySimple(ts);
      OpenSimple(ts);
    } else {
      var k :| 0 < k < |ts| && IsBlock(ts, k, c);
      BlockSane(ts, k, c);
    }
  }

  lemma BlockSane<W(!new)>(ts: seq<Token<W>>, k: nat, c: Cmd<W>)
    requires 0 < k < |ts| && IsBlock(ts, k, c)
    ensures Sane(ts)
    decreases |ts|, 0, 0
  {
    var d: Cmd<W> :| IsLine(ts[1..k], d) && c == Wrap(d, Redirections(ts[k + 1..]));
    hide Simple, Orderly, IsLine, Words, Redirections, Open;
    LineSane(ts[1..k], d);
    OrderlySimple(ts[k + 1..]);
    OpenSimple(ts[k + 1..]);
    SaneBlock(ts[1..k], ts[k + 1..]);
    assert ts == [] + ([Sym('(')] + (ts[1..k] + ([Sym(')')] + ts[k + 1..])));
  }

  lemma {:induction false} PipeSane<W(!new)>(ts: seq<Token<W>>, c: Cmd<W>)
    requires IsPipe(ts, c)
    ensures Sane(ts)
    decreases |ts|, 1
  {
    hide IsExec, Sane;
    if IsExec(ts, c) {
      ExecSane(ts, c);
    } else {
      var k :| 0 <= k < |ts| && ts[k] == Sym('|') && IsExec(ts[..k], c.left) && IsPipe(ts[k + 1..], c.right);
      hide IsPipe;
      ExecSane(ts[..k], c.left);
      PipeSane(ts[k + 1..], c.right);
      SaneJoined(ts[..k], '|', ts[k + 1..]);
      assert ts == ts[..k] + ([Sym('|')] + ts[k + 1..]);
    }
  }

  lemma {:induction false} BacksSane<W(!new)>(ts: seq<Token<W>>, c: Cmd<W>)
    requires IsBacks(ts, c)
    ensures Sane(ts)
    decreases |ts|, 2
  {
    hide IsPipe;
    if IsPipe(ts, c) {
      PipeSane(ts, c);
    } else {
      var n := |ts| - 1;
      BacksSane(ts[..n], c.cmd);
      hide IsBacks, Orderly;
      OrderlyEmpty<W>();
      SaneJoined(ts[..n], '&', []);
      assert ts == ts[..n] + ([Sym('&')] + []);
    }
  }

  lemma {:induction false} LineSane<W(!new)>(ts: seq<Token<W>>, c: Cmd<W>)
    requires IsLine(ts, c)
    ensures Sane(ts)
    decreases |ts|, 3
  {
    hide IsBacks, Sane;
    if IsBacks(ts, c) {
      BacksSane(ts, c);
    } else {
      var k :| 0 <= k < |ts| && ts[k] == Sym(';') && IsBacks(ts[..k], c.left) && IsLine(ts[k + 1..], c.right);
      hide IsLine;
      BacksSane(ts[..k], c.left);
      LineSane(ts[k + 1..], c.right);
      SaneJoined(ts[..k], ';', ts[k + 1..]);
      assert ts == ts[..k] + ([Sym(';')] + ts[k + 1..]);
    }
  }

  /** Syntax errors: an unclosed '(' or an additional ')', a redirection without a file name, ten words in one place. */
  lemma Rejected<W(!new)>(ts: seq<Token<W>>, k: nat, i: nat, j: nat)
    requires Open(ts) != 0 || Unnamed(ts, k) || Crowded(ts, i, j)
    ensures ParseCmd(ts) == Error
  {
    hide ParseLine, IsLine, Open, Unnamed, Crowded;
    if ParseCmd(ts).Parsed? {
      ParsesGrammar(ts, ParseCmd(ts).value);
      LineSane(ts, ParseCmd(ts).value);
    }
  }
}
