/** The regular-expression matcher of grep (p2b/user/grep.c), after chapter 9 of The Practice of
    Programming: literals, '.', 'c*', a leading '^' and a final '$'.

    A C string is a sequence without the NUL character, and a pointer into it is a suffix. */
module Grep {

  const NUL := '\0'

  predicate CString(s: string) {
    forall i :: 0 <= i < |s| ==> s[i] != NUL
  }

  // ------------------------------------------------------------------ what a pattern denotes

  datatype Item = One(c: char) | Star(c: char)

  /** A pattern without its '^': a sequence of items, and whether the match must end the text. */
  datatype Pattern = Pattern(items: seq<Item>, atEnd: bool)

  function Parse(re: string): Pattern {
    if re == "" then Pattern([], false)
    else if |re| > 1 && re[1] == '*' then Cons(Star(re[0]), Parse(re[2..]))
    else if re == "$" then Pattern([], true)
    else Cons(One(re[0]), Parse(re[1..]))
  }

  function Cons(x: Item, p: Pattern): Pattern {
    Pattern([x] + p.items, p.atEnd)
  }

  predicate Fits(c: char, x: char) {
    c == '.' || c == x
  }

  /** The words that one item stands for. */
  predicate Denotes(item: Item, w: string) {
    match item
    case One(c) => |w| == 1 && Fits(c, w[0])
    case Star(c) => forall i :: 0 <= i < |w| ==> Fits(c, w[i])
  }

  function Join(pieces: seq<string>): string {
    if pieces == [] then "" else pieces[0] + Join(pieces[1..])
  }

  ghost predicate Splits(items: seq<Item>, pieces: seq<string>, w: string) {
    && |pieces| == |items| && Join(pieces) == w
    && forall i :: 0 <= i < |items| ==> Denotes(items[i], pieces[i])
  }

  /** The language of a sequence of items: the words that split into one piece for each item. */
  ghost predicate InLanguage(items: seq<Item>, w: string) {
    exists pieces :: Splits(items, pieces, w)
  }

  /** Some prefix of text is in the language, the whole of text when the pattern ends in '$'. */
  ghost predicate PrefixMatches(p: Pattern, text: string) {
    exists k :: 0 <= k <= |text| && InLanguage(p.items, text[..k]) && (p.atEnd ==> k == |text|)
  }

  /** What a call match(re, text) promises. */
  ghost predicate Matches(re: string, text: string) {
    if re != "" && re[0] == '^' then PrefixMatches(Parse(re[1..]), text)
    else exists i :: 0 <= i <= |text| && PrefixMatches(Parse(re), text[i..])
  }

  // ------------------------------------------------------------------ the matcher

  method Match(re: string, text: string) returns (found: bool)
    requires CString(re) && CString(text)
    ensures found <==> Matches(re, text)
  {
    if re != "" && re[0] == '^' {
      found := MatchHere(re[1..], text);
      return;
    }
    var i := 0;
    while true
      invariant 0 <= i <= |text|
      invariant forall j :: 0 <= j < i ==> !PrefixMatches(Parse(re), text[j..])
      decreases |text| - i
    {
      found := MatchHere(re, text[i..]);
      if found {
        return true;
      }
      if i == |text| {
        break;
      }
      i := i + 1;
    }
    return false;
  }

  method MatchHere(re: string, text: string) returns (found: bool)
    requires CString(re) && CString(text)
    ensures found <==> PrefixMatches(Parse(re), text)
    decreases |re|, 0
  {
    if re == "" {
      EmptyPattern(text);
      return true;
    }
    if |re| > 1 && re[1] == '*' {
      StarPattern(re[0], Parse(re[2..]), text);
      found := MatchStar(re[0], re[2..], text);
      return;
    }
    if re == "$" {
      EndPattern(text);
      return text == "";
    }
    OnePattern(re[0], Parse(re[1..]), text);
    if text != "" && (re[0] == '.' || re[0] == text[0]) {
      found := MatchHere(re[1..], text[1..]);
      return;
    }
    return false;
  }

  method MatchStar(c: char, re: string, text: string) returns (found: bool)
    requires CString(re) && CString(text)
    ensures found <==> StarMatches(c, Parse(re), text)
    decreases |re|, 1
  {
    var i := 0;
    while true
      invariant 0 <= i <= |text|
      invariant forall j :: 0 <= j < i ==> Fits(c, text[j]) && !PrefixMatches(Parse(re), text[j..])
      decreases |text| - i
    {
      found := MatchHere(re, text[i..]);
      if found {
        return true;
      }
      if i == |text| {
        break;
      }
      i := i + 1;
      if !(text[i - 1] == c || c == '.') {
        break;
      }
    }
    return false;
  }

  // ------------------------------------------------------------------ why each case is right

  /** c* followed by p, at the start of text: p matches behind some run of characters that fit c. */
  ghost predicate StarMatches(c: char, p: Pattern, text: string) {
    exists n :: 0 <= n <= |text| && Denotes(Star(c), text[..n]) && PrefixMatches(p, text[n..])
  }

  lemma {:induction false} EmptyPattern(text: string)
    ensures PrefixMatches(Pattern([], false), text)
  {
    assert Splits([], [], text[..0]);
  }

  lemma {:induction false} EndPattern(text: string)
    ensures PrefixMatches(Pattern([], true), text) <==> text == ""
  {
    assert Splits([], [], ""[..0]);
    if PrefixMatches(Pattern([], true), text) {
      var k :| 0 <= k <= |text| && InLanguage([], text[..k]) && k == |text|;
      var pieces :| Splits([], pieces, text[..k]);
      assert text == text[..k];
    }
  }

  /** A word of x followed by xs is a word of x followed by a word of xs. */
  lemma {:induction false} InLanguageCons(x: Item, xs: seq<Item>, w: string)
    ensures InLanguage([x] + xs, w) <==> exists k :: 0 <= k <= |w| && Denotes(x, w[..k]) && InLanguage(xs, w[k..])
  {
    if InLanguage([x] + xs, w) {
      var pieces :| Splits([x] + xs, pieces, w);
      var k := |pieces[0]|;
      assert w[..k] == pieces[0] && w[k..] == Join(pieces[1..]);
      assert Splits(xs, pieces[1..], w[k..]) by {
        assert forall i :: 0 <= i < |xs| ==> xs[i] == ([x] + xs)[i + 1];
      }
      assert Denotes(([x] + xs)[0], pieces[0]);
    }
    if k :| 0 <= k <= |w| && Denotes(x, w[..k]) && InLanguage(xs, w[k..]) {
      var rest :| Splits(xs, rest, w[k..]);
      var pieces := [w[..k]] + rest;
      assert pieces[1..] == rest && w == w[..k] + w[k..];
      assert Splits([x] + xs, pieces, w);
    }
  }

  /** The same for prefixes: this is what lets the matcher work from left to right. */
  lemma {:induction false} PrefixMatchesCons(x: Item, p: Pattern, text: string)
    ensures PrefixMatches(Cons(x, p), text)
            <==> exists n :: 0 <= n <= |text| && Denotes(x, text[..n]) && PrefixMatches(p, text[n..])
  {
    if PrefixMatches(Cons(x, p), text) {
      PrefixSplits(x, p, text);
    }
    if n :| 0 <= n <= |text| && Denotes(x, text[..n]) && PrefixMatches(p, text[n..]) {
      PrefixJoins(x, p, text, n);
    }
  }

  lemma {:induction false} PrefixSplits(x: Item, p: Pattern, text: string)
    requires PrefixMatches(Cons(x, p), text)
    ensures exists n :: 0 <= n <= |text| && Denotes(x, text[..n]) && PrefixMatches(p, text[n..])
  {
    hide Denotes, InLanguage;
    var k :| 0 <= k <= |text| && InLanguage([x] + p.items, text[..k]) && (p.atEnd ==> k == |text|);
    InLanguageCons(x, p.items, text[..k]);
    var n :| 0 <= n <= k && Denotes(x, text[..k][..n]) && InLanguage(p.items, text[..k][n..]);
    assert text[..k][..n] == text[..n] && text[..k][n..] == text[n..][..k - n];
    assert PrefixMatches(p, text[n..]);
  }

  lemma {:induction false} PrefixJoins(x: Item, p: Pattern, text: string, n: nat)
    requires n <= |text| && Denotes(x, text[..n]) && PrefixMatches(p, text[n..])
    ensures PrefixMatches(Cons(x, p), text)
  {
    hide Denotes, InLanguage;
    var m :| 0 <= m <= |text[n..]| && InLanguage(p.items, text[n..][..m]) && (p.atEnd ==> m == |text[n..]|);
    var k := n + m;
    assert text[..k][..n] == text[..n] && text[..k][n..] == text[n..][..m];
    InLanguageCons(x, p.items, text[..k]);
  }

  lemma {:induction false} StarPattern(c: char, p: Pattern, text: string)
    ensures PrefixMatches(Cons(Star(c), p), text) <==> StarMatches(c, p, text)
  {
    PrefixMatchesCons(Star(c), p, text);
  }

  lemma {:induction false} OnePattern(c: char, p: Pattern, text: string)
    ensures PrefixMatches(Cons(One(c), p), text) <==> text != "" && Fits(c, text[0]) && PrefixMatches(p, text[1..])
  {
    PrefixMatchesCons(One(c), p, text);
    if text != "" && Fits(c, text[0]) && PrefixMatches(p, text[1..]) {
      assert Denotes(One(c), text[..1]);
    }
  }

  // ------------------------------------------------------------------ patterns as they are written

  function ShowItem(x: Item): string {
    match x
    case One(c) => [c]
    case Star(c) => [c, '*']
  }

  /** A pattern, without its '^', as a user writes it. */
  function Show(p: Pattern): string
    decreases |p.items|
  {
    if p.items == [] then (if p.atEnd then "$" else "")
    else ShowItem(p.items[0]) + Show(Pattern(p.items[1..], p.atEnd))
  }

  /** No single character stands before a '*', and none is a '$' at the very end: what can be written. */
  predicate Writable(p: Pattern) {
    forall i :: 0 <= i < |p.items| && p.items[i].One? ==>
      && (i + 1 < |p.items| ==> p.items[i + 1].c != '*')
      && (p.items[i].c == '$' ==> i + 1 < |p.items| || p.atEnd)
  }

  /** Reading the printed form of a pattern gives it back exactly when it can be written, and printing what was read
      gives the text back, whatever it is. */
  lemma {:induction false} ParseShow(p: Pattern)
    ensures Parse(Show(p)) == p <==> Writable(p)
    decreases |p.items|
  {
    if Writable(p) {
      WritableReads(p);
    }
    ShowParse(Show(p));
  }

  lemma {:induction false} WritableReads(p: Pattern)
    requires Writable(p)
    ensures Parse(Show(p)) == p
    decreases |p.items|
  {
    hide Parse, Show, Writable;
    if p.items == [] {
      EndReads(p);
    } else {
      var rest := Pattern(p.items[1..], p.atEnd);
      WritableRest(p);
      WritableReads(rest);
      ParseCons(p.items[0], Show(rest));
      assert p == Cons(p.items[0], rest);
    }
  }

  lemma EndReads(p: Pattern)
    requires p.items == []
    ensures Parse(Show(p)) == p
  {
  }

  lemma {:induction false} WritableRest(p: Pattern)
    requires Writable(p) && p.items != []
    ensures var x, rest := p.items[0], Pattern(p.items[1..], p.atEnd);
            && Writable(rest) && Show(p) == ShowItem(x) + Show(rest)
            && (x.One? ==> (Show(rest) == "" ==> x.c != '$') && (Show(rest) != "" ==> Show(rest)[0] != '*'))
  {
    var rest := Pattern(p.items[1..], p.atEnd);
    assert forall i :: 0 <= i < |rest.items| ==> rest.items[i] == p.items[i + 1];
    ShowStarts(rest);
  }

  lemma {:induction false} ParseCons(x: Item, s: string)
    requires x.One? ==> (s == "" ==> x.c != '$') && (s != "" ==> s[0] != '*')
    ensures Parse(ShowItem(x) + s) == Cons(x, Parse(s))
  {
    match x
    case One(c) =>
      var t := [c] + s;
      assert t[0] == c && t[1..] == s && (s != "" ==> t[1] == s[0]);
      assert t == "$" ==> c == '$' && |s| == 0;
    case Star(c) =>
      assert ([c, '*'] + s)[2..] == s;
  }

  lemma {:induction false} ShowStarts(p: Pattern)
    ensures Show(p) == "" <==> p == Pattern([], false)
    ensures p.items == [] && p.atEnd ==> Show(p) == "$"
    ensures p.items != [] ==> Show(p) != "" && Show(p)[0] == p.items[0].c
  {
  }

  lemma {:induction false} ShowParse(re: string)
    ensures Show(Parse(re)) == re && Writable(Parse(re))
    decreases |re|
  {
    hide Show, Writable;
    if re == "" {
      ShowEnd(Pattern([], false));
    } else {
      var starred := |re| > 1 && re[1] == '*';
      var rest := if starred then re[2..] else re[1..];
      ShowParse(rest);
      if re == "$" && !starred {
        ShowEnd(Pattern([], true));
      } else {
        ShowCons(if starred then Star(re[0]) else One(re[0]), Parse(rest));
        assert re == ShowItem(if starred then Star(re[0]) else One(re[0])) + rest;
      }
    }
  }

  lemma ShowEnd(p: Pattern)
    requires p.items == []
    ensures Writable(p) && Show(p) == if p.atEnd then "$" else ""
  {
  }

  lemma {:induction false} ShowCons(x: Item, p: Pattern)
    requires Writable(p)
    requires x.One? ==> (Show(p) != "" ==> Show(p)[0] != '*') && (x.c == '$' ==> Show(p) != "")
    ensures Writable(Cons(x, p)) && Show(Cons(x, p)) == ShowItem(x) + Show(p)
  {
    assert Cons(x, p).items[1..] == p.items;
    ShowStarts(p);
    hide Show, Writable;
    WritableCons(x, p);
    assert Pattern(Cons(x, p).items[1..], p.atEnd) == p;
    ShowUnfold(Cons(x, p));
  }

  lemma {:induction false} ShowUnfold(p: Pattern)
    requires p.items != []
    ensures Show(p) == ShowItem(p.items[0]) + Show(Pattern(p.items[1..], p.atEnd))
  {
  }

  lemma WritableCons(x: Item, p: Pattern)
    requires Writable(p)
    requires x.One? ==> (p.items != [] ==> p.items[0].c != '*') && (x.c == '$' ==> p.items != [] || p.atEnd)
    ensures Writable(Cons(x, p))
  {
    forall i | 1 <= i < |Cons(x, p).items| ensures Cons(x, p).items[i] == p.items[i - 1] {
    }
  }

  /** What a pattern matches at the start of a text, by its first characters. */
  lemma {:induction false} MatchByCases(c: char, re: string, text: string)
    ensures PrefixMatches(Parse(""), text)
    ensures PrefixMatches(Parse("$"), text) <==> text == ""
    ensures PrefixMatches(Parse([c, '*'] + re), text) <==>
            exists n :: 0 <= n <= |text| && (forall i :: 0 <= i < n ==> c == '.' || text[i] == c)
                        && PrefixMatches(Parse(re), text[n..])
    ensures (re != "" && re[0] != '*') || (re == "" && c != '$') ==>
              (PrefixMatches(Parse([c] + re), text) <==>
               text != "" && (c == '.' || text[0] == c) && PrefixMatches(Parse(re), text[1..]))
  {
    hide PrefixMatches;
    EmptyPattern(text);
    EndPattern(text);
    assert ([c, '*'] + re)[2..] == re && ([c] + re)[1..] == re;
    StarPattern(c, Parse(re), text);
    OnePattern(c, Parse(re), text);
    StarMeaning(c, Parse(re), text);
  }

  lemma {:induction false} StarMeaning(c: char, p: Pattern, text: string)
    ensures StarMatches(c, p, text) <==>
            exists n :: 0 <= n <= |text| && (forall i :: 0 <= i < n ==> c == '.' || text[i] == c)
                        && PrefixMatches(p, text[n..])
  {
    hide PrefixMatches;
    if StarMatches(c, p, text) {
      var n :| 0 <= n <= |text| && Denotes(Star(c), text[..n]) && PrefixMatches(p, text[n..]);
      assert forall i :: 0 <= i < n ==> text[..n][i] == text[i];
    }
    if n :| 0 <= n <= |text| && (forall i :: 0 <= i < n ==> c == '.' || text[i] == c) && PrefixMatches(p, text[n..]) {
      assert Denotes(Star(c), text[..n]);
    }
  }

  /** A word without special characters matches exactly the texts that contain it; with '^' those that begin with it,
      with '$' those that end with it. */
  lemma {:induction false} WordSearch(w: string, text: string)
    requires forall i :: 0 <= i < |w| ==> w[i] != '.' && w[i] != '*' && w[i] != '^' && w[i] != '$'
    ensures Matches(w, text) <==> exists i :: 0 <= i <= |text| && w <= text[i..]
    ensures Matches("^" + w, text) <==> w <= text
    ensures Matches(w + "$", text) <==> exists i :: 0 <= i <= |text| && text[i..] == w
    ensures Matches("^" + w + "$", text) <==> text == w
  {
    hide PrefixMatches, Parse;
    forall i | 0 <= i <= |text|
      ensures PrefixMatches(Parse(w), text[i..]) <==> w <= text[i..]
      ensures PrefixMatches(Parse(w + "$"), text[i..]) <==> text[i..] == w
    {
      WordPrefix(w, text[i..]);
    }
    assert text[0..] == text && ("^" + w)[1..] == w && ("^" + w + "$")[1..] == w + "$";
  }

  lemma {:induction false} WordPrefix(w: string, text: string)
    requires forall i :: 0 <= i < |w| ==> w[i] != '.' && w[i] != '*' && w[i] != '^' && w[i] != '$'
    ensures PrefixMatches(Parse(w), text) <==> w <= text
    ensures PrefixMatches(Parse(w + "$"), text) <==> text == w
    decreases |w|
  {
    hide PrefixMatches;
    if w == "" {
      MatchByCases('a', "", text);
      assert w + "$" == "$";
    } else {
      var v := w[1..];
      assert w == [w[0]] + v && w + "$" == [w[0]] + (v + "$");
      MatchByCases(w[0], v, text);
      MatchByCases(w[0], v + "$", text);
      if text != "" {
        WordPrefix(v, text[1..]);
        assert text == [text[0]] + text[1..];
      }
    }
  }
}
