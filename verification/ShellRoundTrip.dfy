/** Parsing the printed form of a command tree gives the tree back (p2b/user/sh.c:330-447). */
module ShellRoundTrip {
  import opened ShellParse
  import opened ShellStrings
  import opened ShellTrees

  // ------------------------------------------------------------------ blanks in front do not matter

  lemma {:induction false} ExecSkips(t: string, p: nat)
    requires p <= |t| && IsLine(t)
    ensures ParseExec(t, SkipSpace(t, p)) == ParseExec(t, p)
  {
    hide ParseRedirs, ParseArgs, ParseBlock;
    SkipTwice(t, p);
  }

  lemma {:induction false} PipeSkips(t: string, p: nat)
    requires p <= |t| && IsLine(t)
    ensures ParsePipe(t, SkipSpace(t, p)) == ParsePipe(t, p)
  {
    ExecSkips(t, p);
    hide ParseExec;
  }

  lemma {:induction false} LineSkips(t: string, p: nat)
    requires p <= |t| && IsLine(t)
    ensures ParseLine(t, SkipSpace(t, p)) == ParseLine(t, p)
  {
    PipeSkips(t, p);
    hide ParsePipe, ParseTail;
  }

  // ------------------------------------------------------------------ one step of the parser

  lemma {:induction false} PipeMore(t: string, p: nat, cmd: Cmd, p1: nat, right: Cmd, p2: nat)
    requires p <= |t| && IsLine(t) && p1 < |t| && ParseExec(t, p) == Ok(cmd, p1) && SkipSpace(t, p1) == p1
    requires At(t, p1) == '|'
    requires ParsePipe(t, GetToken(t, p1).next) == Ok(right, p2)
    ensures ParsePipe(t, p) == Ok(Pipe(cmd, right), p2)
  {
    hide IsLine, GetToken, ParseExec;
  }

  lemma {:induction false} PipeEnds(t: string, p: nat, cmd: Cmd, p1: nat)
    requires p <= |t| && IsLine(t) && p1 <= |t| && ParseExec(t, p) == Ok(cmd, p1) && Next(t, p1) != '|'
    ensures ParsePipe(t, p) == Ok(cmd, SkipSpace(t, p1))
  {
    hide IsLine, GetToken, ParseExec;
  }

  lemma {:induction false} LineStarts(t: string, p: nat, cmd: Cmd, p1: nat)
    requires p <= |t| && IsLine(t) && p1 <= |t| && ParsePipe(t, p) == Ok(cmd, p1)
    ensures ParseLine(t, p) == ParseTail(t, cmd, p1)
  {
    hide IsLine, GetToken, ParsePipe, ParseTail;
  }

  lemma {:induction false} TailBack(t: string, cmd: Cmd, p: nat)
    requires p < |t| && IsLine(t) && At(t, SkipSpace(t, p)) == '&'
    ensures ParseTail(t, cmd, p) == ParseTail(t, Back(cmd), GetToken(t, SkipSpace(t, p)).next)
  {
    hide IsLine, GetToken, ParseLine;
  }

  lemma {:induction false} TailMore(t: string, cmd: Cmd, p: nat, right: Cmd, p1: nat)
    requires p < |t| && IsLine(t) && At(t, SkipSpace(t, p)) == ';'
    requires ParseLine(t, GetToken(t, SkipSpace(t, p)).next) == Ok(right, p1)
    ensures ParseTail(t, cmd, p) == Ok(List(cmd, right), p1)
  {
    hide IsLine, GetToken, ParseLine;
  }

  lemma {:induction false} TailEnds(t: string, cmd: Cmd, p: nat)
    requires p <= |t| && IsLine(t) && Next(t, p) != '&' && Next(t, p) != ';'
    ensures ParseTail(t, cmd, p) == Ok(cmd, SkipSpace(t, p))
  {
    hide IsLine, GetToken, ParseLine;
  }

  lemma {:induction false} BlockIs(t: string, p: nat, q: nat, cmd: Cmd, p1: nat)
    requires p <= |t| && IsLine(t) && SkipSpace(t, p) == q && At(t, q) == '('
    requires ParseLine(t, GetToken(t, q).next) == Ok(cmd, p1) && p1 < |t| && SkipSpace(t, p1) == p1 && At(t, p1) == ')'
    ensures ParseExec(t, p) == ParseRedirs(t, cmd, GetToken(t, p1).next)
  {
    hide IsLine, GetToken, ParseLine, ParseRedirs, ParseArgs;
  }

  // ------------------------------------------------------------------ simple commands

  /** parseexec, about to look for redirections, with the command so far. */
  function Cont(t: string, ret: Cmd, p: nat): Result
    requires p <= |t| && IsLine(t)
  {
    match ParseRedirs(t, ret, p)
    case Panic(e) => Panic(e)
    case Ok(ret2, p2) => ParseArgs(t, ret2, p2)
  }

  lemma {:induction false} ContSkips(t: string, ret: Cmd, p: nat)
    requires p <= |t| && IsLine(t)
    ensures Cont(t, ret, SkipSpace(t, p)) == Cont(t, ret, p)
  {
    RedirsSkips(t, ret, p);
    hide ParseRedirs, ParseArgs;
  }

  lemma {:induction false} NoRedirs(t: string, cmd: Cmd, p: nat)
    requires p <= |t| && IsLine(t) && At(t, SkipSpace(t, p)) != '<' && At(t, SkipSpace(t, p)) != '>'
    ensures ParseRedirs(t, cmd, p) == Ok(cmd, SkipSpace(t, p))
  {
  }

  lemma {:induction false} WordStep(t: string, cmd: Cmd, p: nat, w: string)
    requires IsLine(t) && IsWord(w) && Here(t, p, " " + w) && Boundary(t, p + 1 + |w|) && Argc(cmd) + 1 < MAXARGS
    ensures Cont(t, cmd, p) == Cont(t, AddArg(cmd, Span(p + 1, p + 1 + |w|)), p + 1 + |w|)
    ensures Boundary(t, p) && Next(t, p) != '('
  {
    hide IsLine, GetToken, SkipSpace, Here, Boundary, IsWord, ParseRedirs;
    WordToken(t, p, w);
    WordNext(t, p, w);
    var e := p + 1 + |w|;
    var ret1 := AddArg(cmd, Span(p + 1, e));
    SkipTwice(t, p);
    NoRedirs(t, cmd, p);
    assert ParseArgs(t, cmd, p + 1) == Cont(t, ret1, SkipSpace(t, e));
    ContSkips(t, ret1, e);
  }

  lemma {:induction false} WordNext(t: string, p: nat, w: string)
    requires IsLine(t) && IsWord(w) && Here(t, p, " " + w) && Boundary(t, p + 1 + |w|)
    ensures Boundary(t, p) && Next(t, p) != '('
  {
    WordToken(t, p, w);
    HereAt(t, p, " " + w, 0);
    hide IsLine, GetToken, SkipSpace;
  }

  /** The sign and the file of a redirection printed at p. */
  lemma {:induction false} RedirTokens(t: string, p: nat, x: Item)
    requires IsLine(t) && x.To? && ItemOk(x) && Here(t, p, Text(x)) && Boundary(t, p + |Text(x)|)
    ensures var c, s := if x.mode.In? then '<' else '>', p + |Sign(x.mode)|;
            && Boundary(t, p) && SkipSpace(t, p) == p + 1 && At(t, p + 1) == c && s + 1 + |x.file| <= |t|
            && (GetToken(t, p + 1).kind == Symbol('<') <==> x.mode.In?)
            && GetToken(t, GetToken(t, p + 1).next)
               == Token(Word, s + 1, s + 1 + |x.file|, SkipSpace(t, s + 1 + |x.file|))
  {
    hide IsLine, GetToken, SkipSpace, Boundary, Here, Sign, Text, ItemOk, IsToken;
    FileToken(t, p, x);
    SignToken(t, p, x.mode);
  }

  lemma ToText(x: Item)
    requires x.To? && ItemOk(x)
    ensures Text(x) == Sign(x.mode) + (" " + x.file) && |Text(x)| == |Sign(x.mode)| + 1 + |x.file| && IsWord(x.file)
  {
    hide Sign;
  }

  /** The file of a redirection printed at p. */
  lemma {:induction false} FileToken(t: string, p: nat, x: Item)
    requires IsLine(t) && x.To? && ItemOk(x) && Here(t, p, Text(x)) && Boundary(t, p + |Text(x)|)
    ensures |Text(x)| == |Sign(x.mode)| + 1 + |x.file| && p + |Text(x)| <= |t| && Here(t, p, Sign(x.mode))
    ensures var s, e := p + |Sign(x.mode)|, p + |Text(x)|;
            && GetToken(t, s) == GetToken(t, s + 1) == Token(Word, s + 1, e, SkipSpace(t, e))
            && SkipSpace(t, s) == s + 1 && IsToken(t, Span(s + 1, e)) && t[s + 1..e] == x.file && At(t, s) == ' '
  {
    hide IsLine, GetToken, SkipSpace, Boundary, Here, Sign, Text, IsToken, IsWord, ItemOk;
    var s := p + |Sign(x.mode)|;
    ToText(x);
    HereSplit(t, p, Sign(x.mode), " " + x.file);
    WordToken(t, s, x.file);
    HereAt(t, s, " " + x.file, 0);
    HereInside(t, s, " " + x.file);
  }

  lemma HereInside(t: string, p: nat, s: string)
    requires Here(t, p, s)
    ensures p + |s| <= |t|
  {
  }

  lemma {:induction false} SignToken(t: string, p: nat, mode: Mode)
    requires IsLine(t) && Here(t, p, Sign(mode)) && At(t, p + |Sign(mode)|) != '>'
    ensures Boundary(t, p) && SkipSpace(t, p) == p + 1 && At(t, p + 1) == if mode.In? then '<' else '>'
    ensures GetToken(t, p + 1).kind == Symbol('<') <==> mode.In?
    ensures GetToken(t, p + 1).next == SkipSpace(t, p + |Sign(mode)|)
  {
    hide IsLine, GetToken, SkipSpace, Boundary, Here;
    if mode.Append? {
      AppendToken(t, p);
    } else {
      var c := if mode.In? then '<' else '>';
      assert Sign(mode) == " " + [c];
      SymbolToken(t, p, c);
    }
  }

  /** A redirection printed at p is read as one. */
  lemma {:induction false} RedirStep(t: string, cmd: Cmd, p: nat, x: Item)
    requires IsLine(t) && x.To? && ItemOk(x) && Here(t, p, Text(x)) && Boundary(t, p + |Text(x)|)
    ensures ParseRedirs(t, cmd, p) == ParseRedirs(t, WithItem(cmd, x, p), p + |Text(x)|)
    ensures Boundary(t, p) && Next(t, p) != '('
  {
    hide IsLine, GetToken, SkipSpace, ItemOk, Boundary, Here, Sign, Text;
    ToText(x);
    RedirTokens(t, p, x);
    RedirsSkips(t, WithItem(cmd, x, p), p + |Text(x)|);
  }

  lemma {:induction false} ItemStep(t: string, cmd: Cmd, p: nat, x: Item)
    requires IsLine(t) && ItemOk(x) && Here(t, p, Text(x)) && Boundary(t, p + |Text(x)|)
    requires x.Arg? ==> Argc(cmd) + 1 < MAXARGS
    ensures Cont(t, cmd, p) == Cont(t, WithItem(cmd, x, p), p + |Text(x)|)
    ensures Boundary(t, p) && Next(t, p) != '('
  {
    hide IsLine, GetToken, SkipSpace, Boundary, Here, ParseRedirs, ParseArgs;
    match x
    case Arg(w) =>
      hide Cont;
      WordStep(t, cmd, p, w);
    case To(_, _) =>
      RedirStep(t, cmd, p, x);
  }

  lemma {:induction false} ItemsSimple(items: seq<Item>, p: nat)
    ensures Simple(Items(items, p)) && Argc(Items(items, p)) == |ArgsOf(items)|
  {
    if items != [] {
      var n := |items| - 1;
      ItemsSimple(items[..n], p);
      if items[n].Arg? {
        var q := p + |Words(items[..n])|;
        AddArgSimple(Items(items[..n], p), Span(q + 1, q + 1 + |items[n].word|));
      }
    }
  }

  lemma {:induction false} ItemsParts(items: seq<Item>)
    requires items != [] && Printable(TExec(items))
    ensures var n := |items| - 1;
            && Words(items) == Words(items[..n]) + Text(items[n])
            && Printable(TExec(items[..n])) && ItemOk(items[n])
            && ArgsOf(items) == ArgsOf(items[..n]) + (if items[n].Arg? then [items[n]] else [])
  {
    assert forall i :: 0 <= i < |items| - 1 ==> items[..|items| - 1][i] == items[i];
  }

  lemma {:induction false} ItemsCont(t: string, items: seq<Item>, p: nat)
    requires IsLine(t) && Printable(TExec(items)) && Here(t, p, Words(items)) && Boundary(t, p + |Words(items)|)
    ensures Cont(t, Exec([]), p) == Cont(t, Items(items, p), p + |Words(items)|)
    ensures Next(t, p + |Words(items)|) != '(' ==> Next(t, p) != '('
  {
    hide IsLine, Cont, Here, Boundary, Next, ItemOk, WithItem, Text;
    if items != [] {
      var n := |items| - 1;
      var rest, x := items[..n], items[n];
      ItemsParts(items);
      ItemsSimple(rest, p);
      hide ArgsOf, Printable;
      HereSplit(t, p, Words(rest), Text(x));
      ItemStep(t, Items(rest, p), p + |Words(rest)|, x);
      ItemsCont(t, rest, p);
    }
  }

  lemma {:induction false} PrintExec(items: seq<Item>, p: nat)
    ensures Print(TExec(items), 0) == Words(items) && PlacedAt(TExec(items), 0, p) == Items(items, p)
  {
  }

  /** The printed form of a redirection, and the command for it. */
  lemma {:induction false} PrintRedir(c: Tree, p: nat)
    requires c.TRedir?
    ensures var x := To(c.mode, c.file);
            && Print(c, 0) == Print(c.cmd, 0) + Text(x)
            && PlacedAt(c, 0, p) == WithItem(PlacedAt(c.cmd, 0, p), x, p + |Print(c.cmd, 0)|)
  {
  }

  /** The redirection is what follows the rest of the command. */
  lemma {:induction false} RedirOf(t: string, c: Tree, p: nat)
    requires IsLine(t) && c.TRedir? && IsWord(c.file) && Here(t, p, Print(c, 0)) && Boundary(t, p + |Print(c, 0)|)
    ensures var e := p + |Print(c.cmd, 0)|;
            && Here(t, p, Print(c.cmd, 0)) && Boundary(t, e) && Next(t, e) != '('
            && ParseRedirs(t, PlacedAt(c.cmd, 0, p), e) == ParseRedirs(t, PlacedAt(c, 0, p), p + |Print(c, 0)|)
  {
    hide IsLine, GetToken, SkipSpace, IsWord, Boundary, Print, PlacedAt, ParseRedirs, Next, Text, WithItem;
    var x := To(c.mode, c.file);
    PrintRedir(c, p);
    HereSplit(t, p, Print(c.cmd, 0), Text(x));
    RedirStep(t, PlacedAt(c.cmd, 0, p), p + |Print(c.cmd, 0)|, x);
  }

  /** A command, perhaps with redirections, that is printed without parentheses. */
  predicate Plain(c: Tree) {
    c.TExec? || (c.TRedir? && Plain(c.cmd))
  }

  lemma {:induction false} PlainCont(t: string, c: Tree, p: nat)
    requires IsLine(t) && Plain(c) && Printable(c) && Here(t, p, Print(c, 0)) && Boundary(t, p + |Print(c, 0)|)
    ensures Cont(t, Exec([]), p) == Cont(t, PlacedAt(c, 0, p), p + |Print(c, 0)|)
    ensures Next(t, p + |Print(c, 0)|) != '(' ==> Next(t, p) != '('
  {
    hide IsLine, GetToken, ParseArgs, SkipSpace, ParseRedirs, Print, PlacedAt, Next, Boundary, Here, Words, Items,
      ArgsOf, ItemOk;
    if c.TExec? {
      PrintExec(c.items, p);
      ItemsCont(t, c.items, p);
    } else {
      RedirOf(t, c, p);
      PlainCont(t, c.cmd, p);
    }
  }

  lemma NextIs(t: string, p: nat)
    requires p <= |t|
    ensures Next(t, p) == At(t, SkipSpace(t, p))
  {
  }

  /** What ends a simple command. */
  predicate Stop(c: char) {
    c == '\0' || c == '|' || c == ')' || c == '&' || c == ';'
  }

  lemma {:induction false} ContStops(t: string, cmd: Cmd, e: nat)
    requires e <= |t| && IsLine(t) && Stop(Next(t, e))
    ensures Cont(t, cmd, e) == Ok(cmd, SkipSpace(t, e)) == ParseRedirs(t, cmd, e)
  {
    SkipTwice(t, e);
    assert SkipSpace(t, |t|) == |t|;
  }

  // ------------------------------------------------------------------ the four levels

  /** Parentheses, perhaps with redirections behind them. */
  lemma {:induction false} BlockRedirs(t: string, c: Tree, p: nat)
    requires IsLine(t) && !Plain(c) && Printable(c) && Here(t, p, Print(c, 0)) && Boundary(t, p + |Print(c, 0)|)
    ensures ParseExec(t, p) == ParseRedirs(t, PlacedAt(c, 0, p), p + |Print(c, 0)|)
    decreases c, if Level(c) > 0 then 5 else 0
  {
    hide IsLine, GetToken, SkipSpace, ParseExec, ParseLine, ParseRedirs, Print, PlacedAt, Next, Boundary, Here, At;
    if c.TRedir? {
      RedirOf(t, c, p);
      BlockRedirs(t, c.cmd, p);
    } else {
      Parenthesised(t, c, p);
      LevelThree(t, c, p + 2);
      LineSkips(t, p + 2);
      var e := p + 2 + |Body(c)|;
      SkipTwice(t, e);
      BlockIs(t, p, p + 1, PlacedAt(c, 3, p + 2), e + 1);
      RedirsSkips(t, PlacedAt(c, 3, p + 2), e + 2);
      PlacedInside(c, p);
    }
  }

  lemma {:induction false} PlacedInside(c: Tree, p: nat)
    requires Level(c) > 0
    ensures PlacedAt(c, 0, p) == PlacedAt(c, 3, p + 2) == Placed(c, p + 2)
  {
  }

  lemma {:induction false} PrintParentheses(c: Tree)
    requires Level(c) > 0
    ensures Print(c, 0) == " (" + (Body(c) + " )") && Print(c, 3) == Body(c)
  {
    assert " (" + Body(c) + " )" == " (" + (Body(c) + " )");
  }

  /** The pieces of " (" + Body(c) + " )". */
  lemma {:induction false} Parenthesised(t: string, c: Tree, p: nat)
    requires IsLine(t) && Level(c) > 0 && Here(t, p, Print(c, 0))
    ensures SkipSpace(t, p) == p + 1 && At(t, p + 1) == '(' && GetToken(t, p + 1).next == SkipSpace(t, p + 2)
    ensures Here(t, p + 2, Print(c, 3)) && Print(c, 3) == Body(c)
    ensures var e := p + 2 + |Body(c)|;
            && |Print(c, 0)| == |Body(c)| + 4 && e + 2 <= |t|
            && Boundary(t, e) && SkipSpace(t, e) == e + 1 && At(t, e + 1) == ')' && Next(t, e) == ')'
            && GetToken(t, e + 1).next == SkipSpace(t, e + 2)
  {
    hide IsLine, GetToken, SkipSpace, Boundary, At;
    PrintParentheses(c);
    hide Print, Body;
    HereSplit(t, p, " (", Body(c) + " )");
    HereSplit(t, p + 2, Body(c), " )");
    SymbolToken(t, p, '(');
    SymbolToken(t, p + 2 + |Body(c)|, ')');
  }

  lemma {:induction false} LevelZero(t: string, c: Tree, p: nat)
    requires IsLine(t) && Printable(c) && Here(t, p, Print(c, 0)) && Boundary(t, p + |Print(c, 0)|)
    requires Stop(Next(t, p + |Print(c, 0)|))
    ensures ParseExec(t, p) == Ok(PlacedAt(c, 0, p), SkipSpace(t, p + |Print(c, 0)|))
    decreases c, if Level(c) > 0 then 6 else 1
  {
    hide IsLine, GetToken, SkipSpace, ParseExec, ParseRedirs, Cont, PlacedAt, Print, Boundary, Here, Next, At,
      Printable;
    var e, cmd := p + |Print(c, 0)|, PlacedAt(c, 0, p);
    BoundaryInside(t, e);
    ContStops(t, cmd, e);
    if Plain(c) {
      PlainCont(t, c, p);
      PlainExec(t, p);
    } else {
      BlockRedirs(t, c, p);
    }
  }

  lemma {:induction false} PlainExec(t: string, p: nat)
    requires p <= |t| && IsLine(t) && Next(t, p) != '('
    ensures ParseExec(t, p) == Cont(t, Exec([]), p)
  {
    ContSkips(t, Exec([]), p);
    hide ParseRedirs, ParseArgs;
  }

  lemma BoundaryInside(t: string, e: nat)
    requires Boundary(t, e)
    ensures e <= |t|
  {
  }

  /** A symbol printed between two commands. */
  lemma {:induction false} Between(t: string, p: nat, a: string, c: char, b: string)
    requires IsLine(t) && IsSymbol(c) && c != '>' && Here(t, p, a + (" " + [c]) + b)
    ensures var e := p + |a|;
            && Here(t, p, a) && Boundary(t, e) && Next(t, e) == c && SkipSpace(t, e) == e + 1 && At(t, e + 1) == c
            && e + 2 <= |t| && GetToken(t, e + 1).next == SkipSpace(t, e + 2) && SkipSpace(t, e + 1) == e + 1
            && Here(t, e + 2, b)
  {
    hide IsLine, GetToken, SkipSpace, Boundary, IsSymbol;
    HereSplit(t, p, a + (" " + [c]), b);
    HereSplit(t, p, a, " " + [c]);
    SymbolToken(t, p + |a|, c);
    SkipTwice(t, p + |a|);
  }

  /** The printed form at the level of each operator, and the command for it; elsewhere the level does not matter. */
  lemma {:induction false} PrintLoose(c: Tree, p: nat)
    ensures c.TPipe? ==> Print(c, 1) == Print(c.left, 0) + (" " + ['|']) + Print(c.right, 1)
                         && PlacedAt(c, 1, p)
                               == Pipe(PlacedAt(c.left, 0, p), PlacedAt(c.right, 1, p + |Print(c.left, 0)| + 2))
    ensures c.TBack? ==>
              Print(c, 2) == Print(c.cmd, 2) + (" " + ['&']) + "" && PlacedAt(c, 2, p) == Back(PlacedAt(c.cmd, 2, p))
    ensures c.TList? ==> Print(c, 3) == Print(c.left, 2) + (" " + [';']) + Print(c.right, 3)
                         && PlacedAt(c, 3, p)
                               == List(PlacedAt(c.left, 2, p), PlacedAt(c.right, 3, p + |Print(c.left, 2)| + 2))
    ensures !c.TPipe? ==> Print(c, 1) == Print(c, 0) && PlacedAt(c, 1, p) == PlacedAt(c, 0, p)
    ensures !c.TBack? ==> Print(c, 2) == Print(c, 1) && PlacedAt(c, 2, p) == PlacedAt(c, 1, p)
    ensures !c.TList? ==> Print(c, 3) == Print(c, 2) && PlacedAt(c, 3, p) == PlacedAt(c, 2, p)
  {
  }

  lemma PrintableParts(c: Tree)
    requires Printable(c)
    ensures c.TRedir? || c.TBack? ==> Printable(c.cmd)
    ensures c.TRedir? ==> IsWord(c.file) && ItemOk(To(c.mode, c.file))
    ensures c.TPipe? || c.TList? ==> Printable(c.left) && Printable(c.right)
  {
  }

  lemma {:induction false} LevelOne(t: string, c: Tree, p: nat)
    requires IsLine(t) && Printable(c) && Here(t, p, Print(c, 1)) && Boundary(t, p + |Print(c, 1)|)
    requires Stop(Next(t, p + |Print(c, 1)|)) && Next(t, p + |Print(c, 1)|) != '|'
    ensures ParsePipe(t, p) == Ok(PlacedAt(c, 1, p), SkipSpace(t, p + |Print(c, 1)|))
    decreases c, if Level(c) > 1 then 7 else 2
  {
    hide IsLine, GetToken, SkipSpace, ParseExec, ParsePipe, Print, PlacedAt, Boundary, Here, Next, At, Printable;
    PrintLoose(c, p);
    PrintableParts(c);
    if c.TPipe? {
      var e := p + |Print(c.left, 0)|;
      Between(t, p, Print(c.left, 0), '|', Print(c.right, 1));
      LevelZero(t, c.left, p);
      LevelOne(t, c.right, e + 2);
      PipeSkips(t, e + 2);
      PipeMore(t, p, PlacedAt(c.left, 0, p), e + 1, PlacedAt(c.right, 1, e + 2), SkipSpace(t, p + |Print(c, 1)|));
    } else {
      var e := p + |Print(c, 1)|;
      LevelZero(t, c, p);
      SkipTwice(t, e);
      NextIs(t, e);
      NextIs(t, SkipSpace(t, e));
      PipeEnds(t, p, PlacedAt(c, 0, p), SkipSpace(t, e));
    }
  }

  lemma {:induction false} LevelTwo(t: string, c: Tree, p: nat)
    requires IsLine(t) && Printable(c) && Here(t, p, Print(c, 2)) && Boundary(t, p + |Print(c, 2)|)
    requires Stop(Next(t, p + |Print(c, 2)|)) && Next(t, p + |Print(c, 2)|) != '|'
    ensures ParseLine(t, p) == ParseTail(t, PlacedAt(c, 2, p), p + |Print(c, 2)|)
    decreases c, if Level(c) > 2 then 8 else 3
  {
    hide IsLine, GetToken, SkipSpace, ParsePipe, ParseLine, ParseTail, Print, PlacedAt, Boundary, Here, Next, At,
      Printable;
    PrintLoose(c, p);
    PrintableParts(c);
    if c.TBack? {
      var e, cmd := p + |Print(c.cmd, 2)|, PlacedAt(c.cmd, 2, p);
      Between(t, p, Print(c.cmd, 2), '&', "");
      LevelTwo(t, c.cmd, p);
      TailBack(t, cmd, e);
      TailSkips(t, Back(cmd), e + 2);
    } else {
      var e := p + |Print(c, 2)|;
      LevelOne(t, c, p);
      LineStarts(t, p, PlacedAt(c, 1, p), SkipSpace(t, e));
      TailSkips(t, PlacedAt(c, 2, p), e);
    }
  }

  lemma {:induction false} LevelThree(t: string, c: Tree, p: nat)
    requires IsLine(t) && Printable(c) && Here(t, p, Print(c, 3)) && Boundary(t, p + |Print(c, 3)|)
    requires Next(t, p + |Print(c, 3)|) == '\0' || Next(t, p + |Print(c, 3)|) == ')'
    ensures ParseLine(t, p) == Ok(PlacedAt(c, 3, p), SkipSpace(t, p + |Print(c, 3)|))
    decreases c, 4
  {
    hide IsLine, GetToken, SkipSpace, ParseLine, ParseTail, Print, PlacedAt, Boundary, Here, Next, At, Printable;
    PrintLoose(c, p);
    PrintableParts(c);
    if c.TList? {
      var e := p + |Print(c.left, 2)|;
      Between(t, p, Print(c.left, 2), ';', Print(c.right, 3));
      LevelTwo(t, c.left, p);
      LevelThree(t, c.right, e + 2);
      LineSkips(t, e + 2);
      TailMore(t, PlacedAt(c.left, 2, p), e, PlacedAt(c.right, 3, e + 2), SkipSpace(t, p + |Print(c, 3)|));
    } else {
      LevelTwo(t, c, p);
      BoundaryInside(t, p + |Print(c, 3)|);
      TailEnds(t, PlacedAt(c, 2, p), p + |Print(c, 3)|);
    }
  }

  // ------------------------------------------------------------------ reading the command back

  /** cmd reads as tree c. */
  ghost predicate Reads(t: string, cmd: Cmd, c: Tree) {
    Tokens(t, cmd) && Read(t, cmd) == c
  }

  /** One more word for the command inside the redirections. */
  function AddWord(c: Tree, x: Item): Tree {
    match c
    case TExec(items) => TExec(items + [x])
    case TRedir(c1, file, mode) => TRedir(AddWord(c1, x), file, mode)
    case _ => c
  }

  lemma TokenInside(t: string, a: Span)
    requires IsToken(t, a)
    ensures a.q <= a.eq <= |t|
  {
  }

  lemma {:induction false} AddArgReads(t: string, cmd: Cmd, c: Tree, a: Span)
    requires Simple(cmd) && Reads(t, cmd, c) && IsToken(t, a)
    ensures Reads(t, AddArg(cmd, a), AddWord(c, Arg(t[a.q..a.eq])))
  {
    TokenInside(t, a);
    hide IsToken;
    match cmd
    case Exec(argv) =>
      assert Read(t, Exec(argv + [a])).items == c.items + [Arg(t[a.q..a.eq])];
    case Redir(cmd1, _, _) =>
      AddArgReads(t, cmd1, c.cmd, a);
  }

  lemma {:induction false} AroundAdds(args: seq<Item>, files: seq<Item>, x: Item)
    requires forall i :: 0 <= i < |files| ==> files[i].To?
    ensures AddWord(Around(TExec(args), files), x) == Around(TExec(args + [x]), files)
  {
    if files != [] {
      AroundAdds(args, files[..|files| - 1], x);
    }
  }

  /** An item added to a printed command is added to its meaning. */
  lemma {:induction false} MeaningNext(items: seq<Item>, x: Item)
    ensures Meaning(TExec(items + [x]))
            == if x.Arg? then AddWord(Meaning(TExec(items)), x)
               else TRedir(Meaning(TExec(items)), x.file, if x.mode.In? then In else Out)
  {
    assert (items + [x])[..|items|] == items;
    if x.Arg? {
      AroundAdds(ArgsOf(items), FilesOf(items), x);
      assert FilesOf(items) + [] == FilesOf(items);
    } else {
      assert ArgsOf(items) + [] == ArgsOf(items);
      assert (FilesOf(items) + [x])[..|FilesOf(items)|] == FilesOf(items);
    }
  }

  lemma {:induction false} ToReads(t: string, cmd: Cmd, c: Tree, q: nat, x: Item)
    requires IsLine(t) && x.To? && ItemOk(x) && Here(t, q, Text(x)) && Boundary(t, q + |Text(x)|) && Reads(t, cmd, c)
    ensures Reads(t, WithItem(cmd, x, q), TRedir(c, x.file, if x.mode.In? then In else Out))
  {
    hide IsLine, GetToken, SkipSpace, Here, Boundary, IsToken, Sign, Reads, Text, ItemOk;
    FileToken(t, q, x);
    var e := q + |Sign(x.mode)| + 1;
    RedirIs(t, cmd, c, Span(e, e + |x.file|), x.file, !x.mode.In?);
  }

  lemma {:induction false} RedirIs(t: string, cmd: Cmd, c: Tree, a: Span, file: string, out: bool)
    requires Reads(t, cmd, c) && IsToken(t, a) && a.q <= a.eq <= |t| && t[a.q..a.eq] == file
    ensures Reads(t, Redir(cmd, a, out), TRedir(c, file, if out then Out else In))
  {
    hide IsToken;
  }

  /** An item printed at q behind a command that reads as c. */
  lemma {:induction false} ItemReads(t: string, cmd: Cmd, c: Tree, q: nat, x: Item)
    requires IsLine(t) && ItemOk(x) && Here(t, q, Text(x)) && Boundary(t, q + |Text(x)|) && Reads(t, cmd, c)
    requires x.Arg? ==> Simple(cmd)
    ensures Reads(t, WithItem(cmd, x, q),
                  if x.Arg? then AddWord(c, x) else TRedir(c, x.file, if x.mode.In? then In else Out))
  {
    hide IsLine, GetToken, SkipSpace, Here, Boundary, IsToken, Simple, Reads, AddWord, AddArg, Sign;
    if x.Arg? {
      WordToken(t, q, x.word);
      AddArgReads(t, cmd, c, Span(q + 1, q + 1 + |x.word|));
    } else {
      ToReads(t, cmd, c, q, x);
    }
  }

  lemma {:induction false} ItemsRead(t: string, items: seq<Item>, p: nat)
    requires IsLine(t) && Printable(TExec(items)) && Here(t, p, Words(items)) && Boundary(t, p + |Words(items)|)
    ensures Reads(t, Items(items, p), Meaning(TExec(items)))
  {
    hide IsLine, Here, Boundary, ItemOk, WithItem, Text, Meaning, Reads, Cont, Next, Items, Words, ArgsOf, Printable,
      Simple;
    if items == [] {
      NothingReads(t, p);
    } else {
      var n := |items| - 1;
      var rest, x := items[..n], items[n];
      ItemsParts(items);
      ItemsLast(items, p);
      ItemsSimple(rest, p);
      if x.Arg? { RoomForWord(items); }
      HereSplit(t, p, Words(rest), Text(x));
      ItemStep(t, Items(rest, p), p + |Words(rest)|, x);
      ItemsRead(t, rest, p);
      ItemReads(t, Items(rest, p), Meaning(TExec(rest)), p + |Words(rest)|, x);
      MeaningNext(rest, x);
      assert items == rest + [x];
    }
  }

  lemma {:induction false} ItemsLast(items: seq<Item>, p: nat)
    requires items != []
    ensures var n := |items| - 1;
            Items(items, p) == WithItem(Items(items[..n], p), items[n], p + |Words(items[..n])|)
  {
  }

  lemma {:induction false} RoomForWord(items: seq<Item>)
    requires Printable(TExec(items)) && items != [] && items[|items| - 1].Arg?
    ensures |ArgsOf(items[..|items| - 1])| + 1 < MAXARGS
  {
  }

  lemma {:induction false} NothingReads(t: string, p: nat)
    ensures Reads(t, Items([], p), Meaning(TExec([])))
  {
    assert Read(t, Exec([])).items == [];
  }

  /** The command for a printed tree points at the tree's words. */
  lemma {:induction false} PlacedReads(t: string, c: Tree, lv: nat, p: nat)
    requires IsLine(t) && Printable(c) && Here(t, p, Print(c, lv)) && Boundary(t, p + |Print(c, lv)|)
    ensures Reads(t, PlacedAt(c, lv, p), Meaning(c))
    decreases c, 2
  {
    hide IsLine, GetToken, SkipSpace, Body, Placed, Here, Boundary, Printable, Next, At, Reads, Meaning;
    if Level(c) <= lv {
      BodyReads(t, c, p);
    } else {
      assert Print(c, lv) == Print(c, 0);
      Parenthesised(t, c, p);
      BodyReads(t, c, p + 2);
    }
  }

  /** A pair of commands, or one in the background, reads as what its parts read as. */
  lemma {:induction false} NodeReads(t: string, x: Cmd, c: Tree)
    requires match c
             case TPipe(l, r) => x.Pipe? && Reads(t, x.left, Meaning(l)) && Reads(t, x.right, Meaning(r))
             case TList(l, r) => x.List? && Reads(t, x.left, Meaning(l)) && Reads(t, x.right, Meaning(r))
             case TBack(c1) => x.Back? && Reads(t, x.cmd, Meaning(c1))
             case _ => false
    ensures Reads(t, x, Meaning(c))
  {
    hide IsToken, ArgsOf, FilesOf, Around;
  }

  lemma {:induction false} BodyReads(t: string, c: Tree, p: nat)
    requires IsLine(t) && Printable(c) && Here(t, p, Body(c)) && Boundary(t, p + |Body(c)|)
    ensures Reads(t, Placed(c, p), Meaning(c))
    decreases c, 1
  {
    hide IsLine, GetToken, SkipSpace, Print, PlacedAt, Body, Placed, Here, Boundary, IsToken, IsWord, ParseRedirs,
      Printable, Words, Items, WithItem, Next, At, Reads, Meaning;
    PrintableParts(c);
    BodyIs(c, p);
    PrintLoose(c, p);
    match c
    case TExec(items) =>
      PrintExec(items, p);
      ItemsRead(t, items, p);
    case TRedir(c1, file, mode) =>
      RedirOf(t, c, p);
      PrintRedir(c, p);
      PlacedReads(t, c1, 0, p);
      RedirReads(t, c, p);
    case TPipe(l, r) =>
      PairReads(t, c, p);
    case TBack(c1) =>
      Between(t, p, Print(c1, 2), '&', "");
      PlacedReads(t, c1, 2, p);
      NodeReads(t, Placed(c, p), c);
    case TList(l, r) =>
      PairReads(t, c, p);
  }

  lemma {:induction false} PairReads(t: string, c: Tree, p: nat)
    requires IsLine(t) && Printable(c) && Here(t, p, Body(c)) && Boundary(t, p + |Body(c)|) && (c.TPipe? || c.TList?)
    ensures Reads(t, Placed(c, p), Meaning(c))
    decreases c, 0
  {
    hide IsLine, GetToken, SkipSpace, Print, PlacedAt, Body, Placed, Here, Boundary, IsToken, IsWord, ParseRedirs,
      Printable, Words, Items, WithItem, Next, At, Reads, Meaning;
    PrintableParts(c);
    BodyIs(c, p);
    PrintLoose(c, p);
    var lv := if c.TPipe? then 0 else 2;
    Between(t, p, Print(c.left, lv), if c.TPipe? then '|' else ';', Print(c.right, lv + 1));
    PlacedReads(t, c.left, lv, p);
    PlacedReads(t, c.right, lv + 1, p + |Print(c.left, lv)| + 2);
    NodeReads(t, Placed(c, p), c);
  }

  lemma {:induction false} BodyIs(c: Tree, p: nat)
    ensures Body(c) == Print(c, Level(c)) && Placed(c, p) == PlacedAt(c, Level(c), p)
  {
  }

  lemma {:induction false} RedirReads(t: string, c: Tree, p: nat)
    requires IsLine(t) && c.TRedir? && Printable(c) && Here(t, p, Print(c, 0)) && Boundary(t, p + |Print(c, 0)|)
    requires Reads(t, PlacedAt(c.cmd, 0, p), Meaning(c.cmd))
    ensures Reads(t, PlacedAt(c, 0, p), Meaning(c))
  {
    hide IsLine, GetToken, SkipSpace, Print, PlacedAt, Here, Boundary, ParseRedirs, IsWord, Reads, Text, WithItem;
    var x := To(c.mode, c.file);
    PrintableParts(c);
    PrintRedir(c, p);
    HereSplit(t, p, Print(c.cmd, 0), Text(x));
    ItemReads(t, PlacedAt(c.cmd, 0, p), Meaning(c.cmd), p + |Print(c.cmd, 0)|, x);
  }

  lemma LineCat(a: string, b: string)
    ensures IsLine(a + b) <==> IsLine(a) && IsLine(b)
  {
    assert forall i :: 0 <= i < |a| ==> (a + b)[i] == a[i];
    assert forall i :: 0 <= i < |b| ==> (a + b)[|a| + i] == b[i];
  }

  /** What Print puts between words and commands. */
  lemma LineBits()
    ensures IsLine("") && IsLine(" ") && IsLine(" |") && IsLine(" &") && IsLine(" ;") && IsLine(" (") && IsLine(" )")
    ensures forall mode :: IsLine(Sign(mode))
  {
  }

  lemma {:induction false} PrintIsLine(c: Tree, lv: nat)
    requires Printable(c)
    ensures IsLine(Print(c, lv)) && IsLine(Body(c))
    decreases c
  {
    hide IsLine, Printable;
    PrintableParts(c);
    LineBits();
    match c {
      case TExec(items) =>
        ExecIsLine(items);
      case TRedir(c1, file, mode) =>
        PrintIsLine(c1, 0);
        TextIsLine(To(mode, file));
        LineCat(Print(c1, 0), Text(To(mode, file)));
      case TPipe(l, r) =>
        PrintIsLine(l, 0);
        PrintIsLine(r, 1);
        LineCat(Print(l, 0) + " |", Print(r, 1));
        LineCat(Print(l, 0), " |");
      case TBack(c1) =>
        PrintIsLine(c1, 2);
        LineCat(Print(c1, 2), " &");
      case TList(l, r) =>
        PrintIsLine(l, 2);
        PrintIsLine(r, 3);
        LineCat(Print(l, 2) + " ;", Print(r, 3));
        LineCat(Print(l, 2), " ;");
    }
    LineCat(" (" + Body(c), " )");
    LineCat(" (", Body(c));
  }

  lemma WordIsLine(w: string)
    requires IsWord(w)
    ensures IsLine(w)
  {
  }

  lemma {:induction false} TextIsLine(x: Item)
    requires ItemOk(x)
    ensures IsLine(Text(x))
  {
    hide IsLine;
    LineBits();
    match x
    case Arg(w) =>
      WordIsLine(w);
      LineCat(" ", w);
    case To(mode, file) =>
      WordIsLine(file);
      LineCat(" ", file);
      LineCat(Sign(mode), " " + file);
  }

  lemma {:induction false} ExecIsLine(items: seq<Item>)
    requires Printable(TExec(items))
    ensures IsLine(Words(items))
  {
    hide IsLine, ItemOk, Text;
    LineBits();
    if items != [] {
      var n := |items| - 1;
      ItemsParts(items);
      ExecIsLine(items[..n]);
      TextIsLine(items[n]);
      LineCat(Words(items[..n]), Text(items[n]));
    }
  }

  /** A line, as what stands at its start. */
  lemma {:induction false} WholeLine(t: string)
    ensures Here(t, 0, t) && Boundary(t, |t|) && Next(t, |t|) == '\0' && SkipSpace(t, |t|) == |t|
  {
    assert t[0..|t|] == t;
  }

  /** parsecmd of the printed form of any tree accepts it and yields its meaning, which is the tree itself if it has
      neither ">>" nor redirections between words. */
  lemma {:induction false} RoundTrip(c: Tree)
    requires Printable(c)
    ensures var t := Print(c, 3);
            && IsLine(t) && ParseCmd(t).Ok? && Tokens(t, ParseCmd(t).cmd)
            && Read(t, ParseCmd(t).cmd) == Meaning(c) && (Canonical(c) ==> Read(t, ParseCmd(t).cmd) == c)
  {
    hide IsLine, Printable, Print, ParseLine, Here, Boundary, Next, SkipSpace, PlacedAt, Meaning, Canonical;
    var t := Print(c, 3);
    PrintIsLine(c, 3);
    WholeLine(t);
    LevelThree(t, c, 0);
    PlacedReads(t, c, 3, 0);
    if Canonical(c) {
      CanonicalMeans(c);
    }
  }
}
