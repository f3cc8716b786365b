/** Which characters make up which tokens, and with that which lines have which tree. */
module ShellSpacing {
  import opened ShellGrammar
  import opened ShellText
  import opened ShellLex

  /** Blanks from `i` up to `g`, then the token. A word does not go on after its end, nor does '>' with another '>'. */
  ghost predicate TokenAt(line: string, i: nat, g: nat, t: Token<string>) {
    var e := g + |Image(t)|;
    && i <= g && e <= |line| && (forall k :: i <= k < g ==> Blank(line[k])) && GoodToken(t) && line[g..e] == Image(t)
    && (t.Word? ==> !WordChar(At(line, e))) && (t == Sym('>') ==> At(line, e) != '>')
  }

  /** From `i` on the line has these tokens, and otherwise only blanks. */
  ghost predicate Spaced(line: string, i: nat, ts: seq<Token<string>>)
    decreases |ts|
  {
    if ts == [] then forall k :: i <= k < |line| ==> Blank(line[k])
    else exists g: nat :: TokenAt(line, i, g, ts[0]) && Spaced(line, g + |Image(ts[0])|, ts[1..])
  }

  lemma {:induction false} SkipIs(line: string, i: nat, g: nat)
    requires i <= g <= |line| && (forall k :: i <= k < g ==> Blank(line[k])) && !Blank(At(line, g))
    ensures Skip(line, i) == g
    decreases g - i
  {
    if i < g {
      SkipIs(line, i + 1, g);
    }
  }

  lemma {:induction false} SkipBlanks(line: string, i: nat)
    requires i <= |line|
    ensures forall k :: i <= k < Skip(line, i) ==> Blank(line[k])
    decreases |line| - i
  {
    if i < |line| && Blank(line[i]) {
      SkipBlanks(line, i + 1);
    }
  }

  lemma {:induction false} WordEndAt(line: string, i: nat, e: nat)
    requires i <= e <= |line| && (forall j :: i <= j < e ==> WordChar(line[j])) && !WordChar(At(line, e))
    ensures WordEnd(line, i) == e
    decreases e - i
  {
    if i < e {
      WordEndAt(line, i + 1, e);
    }
  }

  /** The characters of the token. */
  lemma Chars(line: string, i: nat, g: nat, t: Token<string>)
    requires TokenAt(line, i, g, t)
    ensures forall k :: 0 <= k < |Image(t)| ==> line[g + k] == Image(t)[k]
    ensures |Image(t)| > 0 && !Blank(line[g]) && line[g] != '\0' && Skip(line, i) == g
  {
    var e := g + |Image(t)|;
    forall k | 0 <= k < |Image(t)| ensures line[g + k] == Image(t)[k] {
      assert line[g..e][k] == Image(t)[k];
    }
    hide Image, Skip;
    FirstChar(t);
    assert line[g + 0] == Image(t)[0];
    SkipIs(line, i, g);
  }

  lemma FirstChar(t: Token<string>)
    requires GoodToken(t)
    ensures |Image(t)| > 0 && !Blank(Image(t)[0]) && Image(t)[0] != '\0'
  {
  }

  lemma FirstToken(line: string, i: nat, g: nat, t: Token<string>)
    requires TokenAt(line, i, g, t)
    ensures
      var ts := Tokens(line, i);
      ts != [] && TextToken(line, ts[0]) == t && ts[1..] == Tokens(line, g + |Image(t)|)
  {
    Chars(line, i, g, t);
    if t.Word? {
      FirstWord(line, i, g, t.word);
    } else {
      hide Tokens, TokenAt, Skip, Blank;
      assert line[g + 0] == Image(t)[0];
      assert t.Append? ==> line[g + 1] == Image(t)[1];
      SymbolAt(line, i, g, t);
      FirstSymbol(line, i, g);
    }
  }

  lemma SymbolAt(line: string, i: nat, g: nat, t: Token<string>)
    requires TokenAt(line, i, g, t) && !t.Word? && g < |line| && line[g] == Image(t)[0]
    requires t.Append? ==> g + 1 < |line| && line[g + 1] == '>'
    ensures Symbol(line[g]) && (t.Append? <==> line[g] == '>' && At(line, g + 1) == '>')
  {
  }

  lemma FirstSymbol(line: string, i: nat, g: nat)
    requires Skip(line, i) == g < |line| && Symbol(line[g])
    ensures Tokens(line, i) ==
              if line[g] == '>' && At(line, g + 1) == '>' then [Append] + Tokens(line, g + 2)
              else [Sym(line[g])] + Tokens(line, g + 1)
  {
    hide Skip, WordEnd, Blank;
  }

  lemma FirstWord(line: string, i: nat, g: nat, w: string)
    requires TokenAt(line, i, g, Word(w)) && w != "" && Skip(line, i) == g
    requires forall k :: 0 <= k < |w| ==> line[g + k] == w[k]
    ensures Tokens(line, i) == [Word(Span(g, g + |w|))] + Tokens(line, g + |w|)
  {
    var e := g + |w|;
    forall j | g <= j < e ensures WordChar(line[j]) {
      assert line[g + (j - g)] == w[j - g];
    }
    WordEndAt(line, g, e);
    assert WordChar(line[g]);
    hide Skip, WordEnd, Blank, Symbol, TokenAt;
    SymbolOrWord(line[g]);
  }

  lemma SymbolOrWord(c: char)
    ensures WordChar(c) ==> !Symbol(c) && c != '\0' && c != '>'
  {
  }

  lemma BlanksOnly(line: string, i: nat)
    requires i <= |line| && forall k :: i <= k < |line| ==> Blank(line[k])
    ensures Texts(line, Tokens(line, i)) == []
  {
    SkipIs(line, i, |line|);
  }

  lemma TokenInLine(line: string, i: nat, g: nat, t: Token<string>)
    requires TokenAt(line, i, g, t)
    ensures g + |Image(t)| <= |line|
  {
  }

  lemma {:induction false} SpacedTokens(line: string, i: nat, ts: seq<Token<string>>)
    requires i <= |line| && Spaced(line, i, ts)
    ensures Texts(line, Tokens(line, i)) == ts
    decreases |ts|
  {
    hide TokenAt, Tokens, Texts, TextToken, Image;
    if ts == [] {
      BlanksOnly(line, i);
    } else {
      var g: nat :| TokenAt(line, i, g, ts[0]) && Spaced(line, g + |Image(ts[0])|, ts[1..]);
      hide Spaced;
      TokenInLine(line, i, g, ts[0]);
      SpacedTokens(line, g + |Image(ts[0])|, ts[1..]);
      FirstToken(line, i, g, ts[0]);
      TextsCons(line, Tokens(line, i));
    }
  }

  /** Where the next token ends. */
  lemma NextToken(line: string, i: nat) returns (e: nat)
    requires i <= |line| && NoNul(line) && Tokens(line, i) != []
    ensures
      var g, t := Skip(line, i), TextToken(line, Tokens(line, i)[0]);
      TokenAt(line, i, g, t) && e == g + |Image(t)| && Tokens(line, i)[1..] == Tokens(line, e) && i < e <= |line|
  {
    var g := Skip(line, i);
    SkipBlanks(line, i);
    assert g < |line|;
    if Symbol(line[g]) {
      FirstSymbol(line, i, g);
      hide Tokens, TokenAt, Skip, Blank;
      e := g + if line[g] == '>' && At(line, g + 1) == '>' then 2 else 1;
      SymbolToken(line, i, g);
    } else {
      e := WordEnd(line, g);
      WordSpan(line, g);
      assert Tokens(line, i) == [Word(Span(g, e))] + Tokens(line, e);
      hide Tokens, TokenAt, Skip, WordEnd, Blank, Symbol;
      WordToken(line, i, g, e);
    }
  }

  lemma SymbolToken(line: string, i: nat, g: nat)
    requires i <= g < |line| && (forall k :: i <= k < g ==> Blank(line[k])) && Symbol(line[g])
    ensures TokenAt(line, i, g, if line[g] == '>' && At(line, g + 1) == '>' then Append else Sym(line[g]))
  {
    hide Blank;
    assert line[g..g + 1] == [line[g]];
    assert g + 2 <= |line| ==> line[g..g + 2] == [line[g], line[g + 1]];
  }

  lemma WordToken(line: string, i: nat, g: nat, e: nat)
    requires i <= g && (forall k :: i <= k < g && k < |line| ==> Blank(line[k])) && GoodSpan(line, Span(g, e))
    ensures TokenAt(line, i, g, Word(Text(line, Span(g, e))))
  {
    hide Blank, Symbol;
    forall k | 0 <= k < e - g ensures WordChar(line[g..e][k]) {
      assert WordChar(At(line, g + k));
    }
  }

  lemma {:induction false} TokensSpaced(line: string, i: nat)
    requires i <= |line| && NoNul(line)
    ensures Spaced(line, i, Texts(line, Tokens(line, i)))
    decreases |line| - i
  {
    hide TokenAt, TextToken, Image;
    var ts := Tokens(line, i);
    if ts == [] {
      SkipBlanks(line, i);
    } else {
      hide Tokens, Texts;
      var e := NextToken(line, i);
      TextsCons(line, ts);
      TokensSpaced(line, e);
      var all := Texts(line, ts);
      assert all[0] == TextToken(line, ts[0]) && all[1..] == Texts(line, Tokens(line, e));
    }
  }

  /** The tokens of a line are the only ones it can be split into. */
  lemma Tokenized(line: string, ts: seq<Token<string>>)
    requires NoNul(line)
    ensures Spaced(line, 0, ts) <==> ts == Texts(line, Tokens(line, 0))
  {
    hide Spaced, Tokens, Texts;
    TokensSpaced(line, 0);
    if Spaced(line, 0, ts) {
      SpacedTokens(line, 0, ts);
    }
  }

  /** The shell accepts a line exactly if its tokens are of the grammar, and then it builds their tree. */
  lemma Accepts(line: string, ts: seq<Token<string>>, c: Cmd<string>)
    requires NoNul(line) && Spaced(line, 0, ts)
    ensures
      var p := ParseCmd(Tokens(line, 0));
      p.Parsed? && TextCmd(line, p.value) == c <==> IsLine(ts, c)
  {
    hide Spaced, Tokens, Texts, ParseLine, IsLine, TextCmd, GoodTokens, GoodParse;
    var spans := Tokens(line, 0);
    Tokenized(line, ts);
    TokensGood(line, 0);
    LineText(line, spans);
    ParsesGrammar(ts, c);
    var r := ParseLine(spans);
    if r.Parsed? {
      NoTexts(line, r.rest);
    }
  }

  lemma NoTexts(line: string, ts: seq<Token<Span>>)
    ensures Texts(line, ts) == [] <==> ts == []
  {
  }
}
