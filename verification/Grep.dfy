/** The regular-expression matcher of user/grep.c against the meaning of patterns. */
module Grep {
  /** `One('.')` and `Star('.')` stand for any character. */
  datatype Item = One(c: char) | Star(c: char)

  predicate Fits(c: char, x: char) {
    c == '.' || c == x
  }

  /** What a pattern without leading "^" consists of. A star in first position is a character like any other. */
  ghost function Items(re: string): seq<Item> {
    if re == "" then []
    else if |re| >= 2 && re[1] == '*' then [Star(re[0])] + Items(re[2..])
    else if re == "$" then []
    else [One(re[0])] + Items(re[1..])
  }

  /** The pattern ends in "$". */
  ghost predicate Anchored(re: string) {
    if re == "" then false
    else if |re| >= 2 && re[1] == '*' then Anchored(re[2..])
    else re == "$" || Anchored(re[1..])
  }

  ghost predicate AllFit(c: char, s: string, k: nat) {
    k <= |s| && forall i :: 0 <= i < k ==> Fits(c, s[i])
  }

  /** The string consists of one part for each item, in order: a fitting character, or any number of them. */
  ghost predicate Denotes(items: seq<Item>, s: string) {
    if items == [] then s == ""
    else if items[0].One? then s != "" && Fits(items[0].c, s[0]) && Denotes(items[1..], s[1..])
    else exists k :: 0 <= k <= |s| && AllFit(items[0].c, s, k) && Denotes(items[1..], s[k..])
  }

  /** The pattern matches at the start of the text. */
  ghost predicate Here(re: string, text: string) {
    exists j :: 0 <= j <= |text| && Denotes(Items(re), text[..j]) && (Anchored(re) ==> j == |text|)
  }

  /** Some substring is one that the pattern stands for, at the start after "^" and at the end before "$". */
  ghost predicate Meaning(re: string, text: string) {
    if re != "" && re[0] == '^' then Here(re[1..], text)
    else exists i, j :: 0 <= i <= j <= |text| && Denotes(Items(re), text[i..j]) && (Anchored(re) ==> j == |text|)
  }

  // ---------------------------------------------------------------- one step of the pattern

  lemma HereEmpty(text: string)
    ensures Here("", text)
  {
    assert text[..0] == "";
    assert Denotes(Items(""), text[..0]);
  }

  lemma HereEnd(text: string)
    ensures Here("$", text) <==> text == ""
  {
    assert forall j :: 0 <= j <= |text| ==> (Denotes(Items("$"), text[..j]) <==> text[..j] == "");
    assert text[..|text|] == text;
  }

  lemma HereOne(re: string, text: string)
    requires re != "" && !(|re| >= 2 && re[1] == '*') && re != "$"
    ensures Here(re, text) <==> text != "" && Fits(re[0], text[0]) && Here(re[1..], text[1..])
  {
    var items := Items(re);
    assert items[1..] == Items(re[1..]);
    if Here(re, text) {
      var j :| 0 <= j <= |text| && Denotes(items, text[..j]) && (Anchored(re) ==> j == |text|);
      assert text[..j][1..] == text[1..][..j - 1];
    }
    if text != "" && Fits(re[0], text[0]) && Here(re[1..], text[1..]) {
      var j :| 0 <= j <= |text[1..]| && Denotes(Items(re[1..]), text[1..][..j])
          && (Anchored(re[1..]) ==> j == |text[1..]|);
      assert text[..j + 1][1..] == text[1..][..j];
      assert Denotes(items, text[..j + 1]);
    }
  }

  /** Some number of fitting characters, then the rest of the pattern. */
  ghost predicate StarHere(c: char, re: string, text: string) {
    exists k :: 0 <= k <= |text| && AllFit(c, text, k) && Here(re, text[k..])
  }

  lemma HereStar(re: string, text: string)
    requires |re| >= 2 && re[1] == '*'
    ensures Here(re, text) <==> StarHere(re[0], re[2..], text)
  {
    var c, rest, items := re[0], re[2..], Items(re);
    assert items[1..] == Items(rest);
    if Here(re, text) {
      var j :| 0 <= j <= |text| && Denotes(items, text[..j]) && (Anchored(re) ==> j == |text|);
      var k :| 0 <= k <= j && AllFit(c, text[..j], k) && Denotes(items[1..], text[..j][k..]);
      assert AllFit(c, text, k) && text[..j][k..] == text[k..][..j - k];
    }
    if StarHere(c, rest, text) {
      var k :| 0 <= k <= |text| && AllFit(c, text, k) && Here(rest, text[k..]);
      var j :| 0 <= j <= |text[k..]| && Denotes(Items(rest), text[k..][..j]) && (Anchored(rest) ==> j == |text[k..]|);
      assert AllFit(c, text[..k + j], k) && text[..k + j][k..] == text[k..][..j];
      assert Denotes(items, text[..k + j]);
    }
  }

  // ---------------------------------------------------------------- the matcher

  method Matchhere(re: string, text: string) returns (r: bool)
    ensures r == Here(re, text)
    decreases |re|, 1
  {
    if re == "" {
      HereEmpty(text);
      return true;
    }
    if |re| >= 2 && re[1] == '*' {
      HereStar(re, text);
      r := Matchstar(re[0], re[2..], text);
      return;
    }
    if re[0] == '$' && |re| == 1 {
      HereEnd(text);
      assert re == "$";
      return text == "";
    }
    HereOne(re, text);
    if text != "" && (re[0] == '.' || re[0] == text[0]) {
      r := Matchhere(re[1..], text[1..]);
      return;
    }
    return false;
  }

  method Matchstar(c: char, re: string, text: string) returns (r: bool)
    ensures r == StarHere(c, re, text)
    decreases |re|, 2
  {
    var i := 0;
    while true
      invariant 0 <= i <= |text| && AllFit(c, text, i) && forall k :: 0 <= k < i ==> !Here(re, text[k..])
      decreases |text| - i
    {
      var here := Matchhere(re, text[i..]);
      if here {
        return true;
      }
      if i == |text| || !(text[i] == c || c == '.') {
        break;
      }
      i := i + 1;
    }
    r := false;
  }

  method Match(re: string, text: string) returns (r: bool)
    ensures r <==> Meaning(re, text)
  {
    if re != "" && re[0] == '^' {
      r := Matchhere(re[1..], text);
      return;
    }
    var i := 0;
    while true
      invariant 0 <= i <= |text| && forall k :: 0 <= k < i ==> !Here(re, text[k..])
      decreases |text| - i
    {
      var here := Matchhere(re, text[i..]);
      if here {
        FoundAt(re, text, i);
        return true;
      }
      if i == |text| {
        break;
      }
      i := i + 1;
    }
    SomewhereHere(re, text);
    r := false;
  }

  lemma FoundAt(re: string, text: string, i: nat)
    requires i <= |text| && Here(re, text[i..]) && !(re != "" && re[0] == '^')
    ensures Meaning(re, text)
  {
    var j :| 0 <= j <= |text[i..]| && Denotes(Items(re), text[i..][..j]) && (Anchored(re) ==> j == |text[i..]|);
    assert text[i..][..j] == text[i..i + j];
  }

  lemma SomewhereHere(re: string, text: string)
    requires !(re != "" && re[0] == '^')
    ensures Meaning(re, text) ==> exists k :: 0 <= k <= |text| && Here(re, text[k..])
  {
    if Meaning(re, text) {
      var i, j :| 0 <= i <= j <= |text| && Denotes(Items(re), text[i..j]) && (Anchored(re) ==> j == |text|);
      assert text[i..][..j - i] == text[i..j];
      assert Here(re, text[i..]);
    }
  }
}
