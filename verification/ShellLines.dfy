/** Which lines the shell's parser accepts, by their characters (p2b/user/sh.c:236-447). */
module ShellLines {
  import opened ShellParse
  import opened ShellStrings
  import opened ShellTrees
  import opened ShellRoundTrip

  // ------------------------------------------------------------------ one blank is as good as another

  /** The lines differ only in which of the five blanks they use. */
  ghost predicate Alike(t: string, u: string) {
    |t| == |u| && forall i :: 0 <= i < |t| ==>
      t[i] == u[i] || (t[i] in [' ', '\t', '\r', '\n', 11 as char] && u[i] in [' ', '\t', '\r', '\n', 11 as char])
  }

  lemma AlikeAt(t: string, u: string, i: nat)
    requires Alike(t, u) && i < |t|
    ensures IsSpace(t[i]) == IsSpace(u[i]) && IsWordChar(t[i]) == IsWordChar(u[i])
    ensures !IsSpace(t[i]) || !IsSpace(u[i]) ==> t[i] == u[i]
  {
  }

  lemma {:induction false} SpaceAlike(t: string, u: string, p: nat)
    requires Alike(t, u) && p <= |t|
    ensures SkipSpace(t, p) == SkipSpace(u, p) && At(t, SkipSpace(t, p)) == At(u, SkipSpace(t, p))
    decreases |t| - p
  {
    if p < |t| {
      AlikeAt(t, u, p);
      hide Alike, IsSpace;
      SpaceAlike(t, u, p + 1);
    }
  }

  lemma {:induction false} WordAlike(t: string, u: string, p: nat)
    requires Alike(t, u) && p <= |t|
    ensures SkipWord(t, p) == SkipWord(u, p)
    decreases |t| - p
  {
    if p < |t| {
      AlikeAt(t, u, p);
      hide Alike, IsWordChar;
      WordAlike(t, u, p + 1);
    }
  }

  lemma LinesAlike(t: string, u: string)
    requires Alike(t, u) && IsLine(t)
    ensures IsLine(u)
  {
  }

  lemma {:induction false} TokenAlike(t: string, u: string, p: nat)
    requires Alike(t, u) && p <= |t| && IsLine(t) && IsLine(u)
    ensures GetToken(t, p) == GetToken(u, p)
  {
    hide SkipSpace, SkipWord, IsLine, IsSymbol;
    SpaceAlike(t, u, p);
    var q := SkipSpace(t, p);
    WordAlike(t, u, q);
    SpaceAlike(t, u, SkipWord(t, q));
    SpaceAlike(t, u, q);
    if q < |t| {
      SpaceAlike(t, u, q + 1);
      NextAlike(t, u, q + 1);
    }
    if q + 1 < |t| {
      SpaceAlike(t, u, q + 2);
    }
  }

  lemma NextAlike(t: string, u: string, p: nat)
    requires Alike(t, u) && p <= |t|
    ensures At(t, p) == '>' <==> At(u, p) == '>'
  {
  }

  lemma {:induction false} RedirsAlike(t: string, u: string, cmd: Cmd, p: nat)
    requires Alike(t, u) && p <= |t| && IsLine(t) && IsLine(u)
    ensures ParseRedirs(t, cmd, p) == ParseRedirs(u, cmd, p)
    decreases |t| - p
  {
    hide Alike, SkipSpace, GetToken, IsLine, At;
    SpaceAlike(t, u, p);
    var q := SkipSpace(t, p);
    TokenAlike(t, u, q);
    if At(t, q) == '<' || At(t, q) == '>' {
      var f := GetToken(t, GetToken(t, q).next);
      TokenAlike(t, u, GetToken(t, q).next);
      if f.kind == Word {
        RedirsAlike(t, u, Redir(cmd, Span(f.q, f.eq), GetToken(t, q).kind != Symbol('<')), f.next);
      }
    }
  }

  lemma {:induction false} ArgsAlike(t: string, u: string, ret: Cmd, p: nat)
    requires Alike(t, u) && p <= |t| && IsLine(t) && IsLine(u)
    ensures ParseArgs(t, ret, p) == ParseArgs(u, ret, p)
    decreases |t| - p
  {
    hide Alike, SkipSpace, GetToken, IsLine, At, ParseRedirs, AddArg, Argc;
    SpaceAlike(t, u, p);
    var q := SkipSpace(t, p);
    TokenAlike(t, u, q);
    var tok := GetToken(t, q);
    var ret1 := AddArg(ret, Span(tok.q, tok.eq));
    RedirsAlike(t, u, ret1, tok.next);
    if tok.kind == Word {
      match ParseRedirs(t, ret1, tok.next)
      case Panic(_) =>
      case Ok(ret2, p2) => ArgsAlike(t, u, ret2, p2);
    }
  }

  lemma {:induction false} LineAlike(t: string, u: string, p: nat)
    requires Alike(t, u) && p <= |t| && IsLine(t) && IsLine(u)
    ensures ParseLine(t, p) == ParseLine(u, p)
    decreases |t| - p, 4
  {
    hide Alike, SkipSpace, GetToken, IsLine, At, ParsePipe, ParseTail;
    PipeAlike(t, u, p);
    match ParsePipe(t, p)
    case Panic(_) =>
    case Ok(cmd, p1) => TailAlike(t, u, cmd, p1);
  }

  lemma {:induction false} TailAlike(t: string, u: string, cmd: Cmd, p: nat)
    requires Alike(t, u) && p <= |t| && IsLine(t) && IsLine(u)
    ensures ParseTail(t, cmd, p) == ParseTail(u, cmd, p)
    decreases |t| - p, 3
  {
    hide Alike, SkipSpace, GetToken, IsLine, ParseLine;
    SpaceAlike(t, u, p);
    var q := SkipSpace(t, p);
    TokenAlike(t, u, q);
    if At(t, q) == '&' {
      TokenMoves(t, q);
      TailAlike(t, u, Back(cmd), GetToken(t, q).next);
    } else if At(t, q) == ';' {
      TokenMoves(t, q);
      LineAlike(t, u, GetToken(t, q).next);
    }
  }

  lemma {:induction false} PipeAlike(t: string, u: string, p: nat)
    requires Alike(t, u) && p <= |t| && IsLine(t) && IsLine(u)
    ensures ParsePipe(t, p) == ParsePipe(u, p)
    decreases |t| - p, 2
  {
    hide Alike, SkipSpace, GetToken, IsLine, ParseExec;
    ExecAlike(t, u, p);
    match ParseExec(t, p)
    case Panic(_) =>
    case Ok(_, p1) =>
      SpaceAlike(t, u, p1);
      var q := SkipSpace(t, p1);
      TokenAlike(t, u, q);
      if At(t, q) == '|' {
        TokenMoves(t, q);
        PipeAlike(t, u, GetToken(t, q).next);
      }
  }

  lemma {:induction false} ExecAlike(t: string, u: string, p: nat)
    requires Alike(t, u) && p <= |t| && IsLine(t) && IsLine(u)
    ensures ParseExec(t, p) == ParseExec(u, p)
    decreases |t| - p, 1
  {
    hide Alike, SkipSpace, GetToken, IsLine, At, ParseRedirs, ParseArgs, ParseBlock;
    SpaceAlike(t, u, p);
    var q := SkipSpace(t, p);
    if At(t, q) == '(' {
      BlockAlike(t, u, q);
    } else {
      RedirsAlike(t, u, Exec([]), q);
      match ParseRedirs(t, Exec([]), q)
      case Panic(_) =>
      case Ok(ret, p1) => ArgsAlike(t, u, ret, p1);
    }
  }

  lemma {:induction false} BlockAlike(t: string, u: string, p: nat)
    requires Alike(t, u) && p <= |t| && IsLine(t) && IsLine(u) && At(t, p) == At(u, p) == '('
    ensures ParseBlock(t, p) == ParseBlock(u, p)
    decreases |t| - p, 0
  {
    TokenMoves(t, p);
    hide Alike, SkipSpace, GetToken, IsLine, At, ParseLine, ParseRedirs;
    TokenAlike(t, u, p);
    LineAlike(t, u, GetToken(t, p).next);
    match ParseLine(t, GetToken(t, p).next)
    case Panic(_) =>
    case Ok(cmd, p1) =>
      SpaceAlike(t, u, p1);
      var q := SkipSpace(t, p1);
      TokenAlike(t, u, q);
      RedirsAlike(t, u, cmd, GetToken(t, q).next);
  }

  lemma {:induction false} TokenMoves(t: string, p: nat)
    requires p <= |t| && IsLine(t) && (At(t, p) == '(' || At(t, p) == '&' || At(t, p) == ';' || At(t, p) == '|')
    ensures p < GetToken(t, p).next
  {
  }

  /** Which blanks a line has makes no difference. */
  lemma {:induction false} CmdAlike(t: string, u: string)
    requires Alike(t, u) && IsLine(t)
    ensures IsLine(u) && ParseCmd(t) == ParseCmd(u)
  {
    LinesAlike(t, u);
    hide Alike, SkipSpace, IsLine, ParseLine;
    LineAlike(t, u, 0);
    match ParseLine(t, 0)
    case Panic(_) =>
    case Ok(_, p) => SpaceAlike(t, u, p);
  }

  // ------------------------------------------------------------------ what an accepted line looks like

  /** Opening minus closing parentheses in the first k characters. */
  function Depth(t: string, k: nat): int
    requires k <= |t|
  {
    if k == 0 then 0 else Depth(t, k - 1) + if t[k - 1] == '(' then 1 else if t[k - 1] == ')' then -1 else 0
  }

  /** A '<', '>' or ">>" at position i has a word behind it. */
  predicate HasFile(t: string, i: nat)
    requires i < |t|
  {
    t[i] == '<' || t[i] == '>' ==>
      || (Next(t, i + 1) != '\0' && IsWordChar(Next(t, i + 1)))
      || (t[i] == '>' && At(t, i + 1) == '>' && Next(t, i + 2) != '\0' && IsWordChar(Next(t, i + 2)))
  }

  /** Between p and q the parentheses match, and every redirection has a file. */
  ghost predicate Proper(t: string, p: nat, q: nat) {
    && p <= q <= |t| && Depth(t, q) == Depth(t, p)
    && (forall k :: p <= k <= q ==> Depth(t, k) >= Depth(t, p))
    && forall k :: p <= k < q ==> HasFile(t, k)
  }

  lemma ProperTrans(t: string, p: nat, q: nat, r: nat)
    requires Proper(t, p, q) && Proper(t, q, r)
    ensures Proper(t, p, r)
  {
    hide Depth, HasFile;
  }

  lemma ProperNone(t: string, p: nat)
    requires p <= |t|
    ensures Proper(t, p, p)
  {
  }

  lemma ProperStep(t: string, p: nat)
    requires p < |t| && t[p] != '(' && t[p] != ')' && HasFile(t, p)
    ensures Proper(t, p, p + 1)
  {
    hide HasFile;
  }

  lemma {:induction false} SpaceProper(t: string, p: nat)
    requires p <= |t|
    ensures Proper(t, p, SkipSpace(t, p))
    decreases |t| - p
  {
    if p < |t| && IsSpace(t[p]) {
      ProperStep(t, p);
      SpaceProper(t, p + 1);
      hide Proper;
      ProperTrans(t, p, p + 1, SkipSpace(t, p));
    } else {
      ProperNone(t, p);
    }
  }

  lemma {:induction false} WordProper(t: string, p: nat)
    requires p <= |t|
    ensures Proper(t, p, SkipWord(t, p))
    decreases |t| - p
  {
    if p < |t| && IsWordChar(t[p]) {
      ProperStep(t, p);
      WordProper(t, p + 1);
      hide Proper;
      ProperTrans(t, p, p + 1, SkipWord(t, p));
    } else {
      ProperNone(t, p);
    }
  }

  /** A token that is neither a parenthesis nor a redirection. */
  lemma {:induction false} TokenProper(t: string, p: nat)
    requires p <= |t| && IsLine(t)
    requires var k := GetToken(t, p).kind;
             k == End || k == Word || k == Symbol('|') || k == Symbol('&') || k == Symbol(';')
    ensures Proper(t, p, GetToken(t, p).next)
  {
    var tok := GetToken(t, p);
    SpaceProper(t, p);
    WordProper(t, tok.q);
    ProperNone(t, tok.q);
    SpaceProper(t, tok.eq);
    if tok.kind.Symbol? {
      ProperStep(t, tok.q);
    }
    hide Proper, GetToken, SkipSpace, SkipWord;
    ProperTrans(t, p, tok.q, tok.eq);
    ProperTrans(t, p, tok.eq, tok.next);
  }

  /** A redirection with its file. */
  lemma {:induction false} RedirProper(t: string, q: nat)
    requires q <= |t| && IsLine(t) && SkipSpace(t, q) == q && (At(t, q) == '<' || At(t, q) == '>')
    requires GetToken(t, GetToken(t, q).next).kind == Word
    ensures Proper(t, q, GetToken(t, GetToken(t, q).next).next)
  {
    var tok := GetToken(t, q);
    var f := GetToken(t, tok.next);
    FileNext(t, q);
    ProperStep(t, q);
    if tok.kind == Kind.Append {
      ProperStep(t, q + 1);
      ProperTrans(t, q, q + 1, q + 2);
    }
    SpaceProper(t, tok.eq);
    TokenProper(t, tok.next);
    hide Proper, GetToken, SkipSpace;
    ProperTrans(t, q, tok.eq, tok.next);
    ProperTrans(t, q, tok.next, f.next);
  }

  lemma {:induction false} FileNext(t: string, q: nat)
    requires q < |t| && IsLine(t) && SkipSpace(t, q) == q && (At(t, q) == '<' || At(t, q) == '>')
    requires GetToken(t, GetToken(t, q).next).kind == Word
    ensures HasFile(t, q)
    ensures GetToken(t, q).kind == Kind.Append ==> q + 1 < |t| && t[q + 1] == '>' && HasFile(t, q + 1)
    ensures GetToken(t, q).eq == if GetToken(t, q).kind == Kind.Append then q + 2 else q + 1
  {
    var eq := GetToken(t, q).eq;
    SkipTwice(t, eq);
  }

  lemma {:induction false} RedirsProper(t: string, cmd: Cmd, p: nat)
    requires p <= |t| && IsLine(t) && ParseRedirs(t, cmd, p).Ok?
    ensures Proper(t, p, ParseRedirs(t, cmd, p).pos)
    decreases |t| - p
  {
    hide Proper, GetToken, SkipSpace, IsLine;
    SpaceProper(t, p);
    SkipTwice(t, p);
    var q := SkipSpace(t, p);
    if At(t, q) == '<' || At(t, q) == '>' {
      var tok := GetToken(t, q);
      var f := GetToken(t, tok.next);
      RedirProper(t, q);
      RedirsProper(t, Redir(cmd, Span(f.q, f.eq), tok.kind != Symbol('<')), f.next);
      ProperTrans(t, p, q, f.next);
      ProperTrans(t, p, f.next, ParseRedirs(t, cmd, p).pos);
    }
  }

  lemma {:induction false} ArgsProper(t: string, ret: Cmd, p: nat)
    requires p <= |t| && IsLine(t) && ParseArgs(t, ret, p).Ok?
    ensures Proper(t, p, ParseArgs(t, ret, p).pos)
    decreases |t| - p
  {
    hide Proper, GetToken, SkipSpace, IsLine, At, ParseRedirs, AddArg, Argc;
    SpaceProper(t, p);
    var q := SkipSpace(t, p);
    var tok := GetToken(t, q);
    if At(t, q) == '|' || At(t, q) == ')' || At(t, q) == '&' || At(t, q) == ';' {
    } else {
      TokenProper(t, q);
      ProperTrans(t, p, q, tok.next);
      if tok.kind == Word {
        var ret1 := AddArg(ret, Span(tok.q, tok.eq));
        var r := ParseRedirs(t, ret1, tok.next);
        RedirsProper(t, ret1, tok.next);
        ArgsProper(t, r.cmd, r.pos);
        ProperTrans(t, p, tok.next, r.pos);
        ProperTrans(t, p, r.pos, ParseArgs(t, ret, p).pos);
      }
    }
  }

  lemma {:induction false} SymbolProper(t: string, q: nat)
    requires q <= |t| && IsLine(t) && (At(t, q) == '|' || At(t, q) == '&' || At(t, q) == ';')
    ensures Proper(t, q, GetToken(t, q).next) && q < GetToken(t, q).next
  {
    hide Proper;
    TokenProper(t, q);
  }

  lemma {:induction false} LineProper(t: string, p: nat)
    requires p <= |t| && IsLine(t) && ParseLine(t, p).Ok?
    ensures Proper(t, p, ParseLine(t, p).pos)
    decreases |t| - p, 4
  {
    hide Proper, GetToken, SkipSpace, IsLine, At, ParsePipe, ParseTail;
    var r := ParsePipe(t, p);
    PipeProper(t, p);
    TailProper(t, r.cmd, r.pos);
    ProperTrans(t, p, r.pos, ParseLine(t, p).pos);
  }

  lemma {:induction false} TailProper(t: string, cmd: Cmd, p: nat)
    requires p <= |t| && IsLine(t) && ParseTail(t, cmd, p).Ok?
    ensures Proper(t, p, ParseTail(t, cmd, p).pos)
    decreases |t| - p, 3
  {
    hide Proper, GetToken, SkipSpace, IsLine, ParseLine;
    SpaceProper(t, p);
    var q := SkipSpace(t, p);
    var n := GetToken(t, q).next;
    if At(t, q) == '&' {
      SymbolProper(t, q);
      TailProper(t, Back(cmd), n);
      ProperTrans(t, p, q, n);
      ProperTrans(t, p, n, ParseTail(t, cmd, p).pos);
    } else if At(t, q) == ';' {
      SymbolProper(t, q);
      LineProper(t, n);
      ProperTrans(t, p, q, n);
      ProperTrans(t, p, n, ParseTail(t, cmd, p).pos);
    }
  }

  lemma {:induction false} PipeProper(t: string, p: nat)
    requires p <= |t| && IsLine(t) && ParsePipe(t, p).Ok?
    ensures Proper(t, p, ParsePipe(t, p).pos)
    decreases |t| - p, 2
  {
    hide Proper, GetToken, SkipSpace, IsLine, ParseExec;
    var r := ParseExec(t, p);
    ExecProper(t, p);
    SpaceProper(t, r.pos);
    var q := SkipSpace(t, r.pos);
    ProperTrans(t, p, r.pos, q);
    if At(t, q) == '|' {
      var n := GetToken(t, q).next;
      SymbolProper(t, q);
      PipeProper(t, n);
      ProperTrans(t, p, q, n);
      ProperTrans(t, p, n, ParsePipe(t, p).pos);
    }
  }

  lemma {:induction false} ExecProper(t: string, p: nat)
    requires p <= |t| && IsLine(t) && ParseExec(t, p).Ok?
    ensures Proper(t, p, ParseExec(t, p).pos)
    decreases |t| - p, 1
  {
    hide Proper, GetToken, SkipSpace, IsLine, ParseRedirs, ParseArgs, ParseBlock;
    SpaceProper(t, p);
    var q := SkipSpace(t, p);
    if At(t, q) == '(' {
      BlockProper(t, q);
    } else {
      var r := ParseRedirs(t, Exec([]), q);
      RedirsProper(t, Exec([]), q);
      ArgsProper(t, r.cmd, r.pos);
      ProperTrans(t, q, r.pos, ParseExec(t, p).pos);
    }
    ProperTrans(t, p, q, ParseExec(t, p).pos);
  }

  /** "(", something proper, and ")". */
  lemma {:induction false} Enclosed(t: string, p: nat, q: nat)
    requires p < q < |t| && IsLine(t) && At(t, p) == '(' && At(t, q) == ')' && Proper(t, GetToken(t, p).next, q)
    ensures Proper(t, p, GetToken(t, q).next)
  {
    var n, m := GetToken(t, p).next, GetToken(t, q).next;
    SymbolEnds(t, p);
    SymbolEnds(t, q);
    SpaceProper(t, p + 1);
    SpaceProper(t, q + 1);
    hide GetToken, SkipSpace, Proper;
    ProperTrans(t, p + 1, n, q);
    Wrapped(t, p, q);
    ProperTrans(t, p, q + 1, m);
  }

  lemma {:induction false} Wrapped(t: string, p: nat, q: nat)
    requires p < q < |t| && t[p] == '(' && t[q] == ')' && Proper(t, p + 1, q)
    ensures Proper(t, p, q + 1)
  {
    PlainHasFile(t, p);
    PlainHasFile(t, q);
    assert Depth(t, p + 1) == Depth(t, p) + 1 && Depth(t, q + 1) == Depth(t, q) - 1;
    hide Depth, HasFile;
  }

  lemma PlainHasFile(t: string, p: nat)
    requires p < |t| && t[p] != '<' && t[p] != '>'
    ensures HasFile(t, p)
  {
  }

  lemma {:induction false} SymbolEnds(t: string, p: nat)
    requires p < |t| && IsLine(t) && (At(t, p) == '(' || At(t, p) == ')')
    ensures GetToken(t, p).next == SkipSpace(t, p + 1)
  {
    SkipNone(t, p);
  }

  lemma {:induction false} BlockProper(t: string, p: nat)
    requires p < |t| && IsLine(t) && At(t, p) == '(' && ParseBlock(t, p).Ok?
    ensures Proper(t, p, ParseBlock(t, p).pos)
    decreases |t| - p, 0
  {
    TokenMoves(t, p);
    hide Proper, GetToken, SkipSpace, IsLine, ParseLine, ParseRedirs;
    var n := GetToken(t, p).next;
    var r := ParseLine(t, n);
    LineProper(t, n);
    SpaceProper(t, r.pos);
    var q := SkipSpace(t, r.pos);
    ProperTrans(t, n, r.pos, q);
    Enclosed(t, p, q);
    RedirsProper(t, r.cmd, GetToken(t, q).next);
    ProperTrans(t, p, GetToken(t, q).next, ParseBlock(t, p).pos);
  }

  /** In an accepted line the parentheses match, and behind every redirection there is a word. */
  lemma {:induction false} AcceptedIsProper(t: string)
    requires IsLine(t) && ParseCmd(t).Ok?
    ensures Depth(t, |t|) == 0 && forall k :: 0 <= k <= |t| ==> Depth(t, k) >= 0
    ensures forall k :: 0 <= k < |t| ==> HasFile(t, k)
  {
    hide GetToken, SkipSpace, IsLine, ParseLine, HasFile;
    LineProper(t, 0);
    SpaceProper(t, ParseLine(t, 0).pos);
    ProperTrans(t, 0, ParseLine(t, 0).pos, |t|);
  }

  // ------------------------------------------------------------------ too many words

  lemma {:induction false} TenthWord(items: seq<Item>) returns (m: nat)
    requires |ArgsOf(items)| >= 10
    ensures m < |items| && items[m].Arg? && |ArgsOf(items[..m])| == 9
  {
    var n := |items| - 1;
    if |ArgsOf(items[..n])| >= 10 {
      m := TenthWord(items[..n]);
      assert items[..n][..m] == items[..m];
    } else {
      m := n;
    }
  }

  /** Every item of a printed command ends at a boundary. */
  lemma {:induction false} ItemsHere(t: string, items: seq<Item>, k: nat)
    requires Here(t, 0, Words(items)) && Boundary(t, |Words(items)|) && k <= |items|
    ensures Here(t, 0, Words(items[..k])) && Boundary(t, |Words(items[..k])|)
    decreases |items|
  {
    hide Boundary, Here, Text;
    if k == |items| {
      assert items[..k] == items;
    } else {
      var n := |items| - 1;
      HereSplit(t, 0, Words(items[..n]), Text(items[n]));
      TextBoundary(t, |Words(items[..n])|, items[n]);
      ItemsHere(t, items[..n], k);
      assert items[..n][..k] == items[..k];
    }
  }

  lemma TextBoundary(t: string, p: nat, x: Item)
    requires Here(t, p, Text(x))
    ensures Boundary(t, p)
  {
    HereAt(t, p, Text(x), 0);
  }

  lemma {:induction false} FullStep(t: string, cmd: Cmd, p: nat, w: string)
    requires IsLine(t) && IsWord(w) && Here(t, p, " " + w) && Boundary(t, p + 1 + |w|) && Argc(cmd) == 9
    ensures Cont(t, cmd, p) == Panic(TooManyArgs) && Next(t, p) != '('
  {
    hide IsLine, GetToken, SkipSpace, Here, Boundary, IsWord, ParseRedirs;
    WordToken(t, p, w);
    WordNext(t, p, w);
    SkipTwice(t, p);
    NoRedirs(t, cmd, p);
  }

  lemma {:induction false} PanicUp(t: string, e: Error)
    requires IsLine(t) && ParseExec(t, 0) == Panic(e)
    ensures ParseCmd(t) == Panic(e)
  {
    hide ParseExec, IsLine;
    assert ParsePipe(t, 0) == Panic(e);
    assert ParseLine(t, 0) == Panic(e);
  }

  /** The tenth word is where the parser panics. */
  lemma {:induction false} TooMany(t: string, rest: seq<Item>, x: Item)
    requires IsLine(t) && Printable(TExec(rest)) && |ArgsOf(rest)| == 9 && x.Arg? && ItemOk(x)
    requires Here(t, 0, Words(rest) + Text(x)) && Boundary(t, |Words(rest)|) && Boundary(t, |Words(rest)| + |Text(x)|)
    ensures ParseCmd(t) == Panic(TooManyArgs)
  {
    hide IsLine, Here, Boundary, Next, Cont, ParseExec, ParseCmd, Words, ArgsOf, Printable, Items, IsWord;
    HereSplit(t, 0, Words(rest), Text(x));
    ItemsCont(t, rest, 0);
    ItemsSimple(rest, 0);
    FullStep(t, Items(rest, 0), |Words(rest)|, x.word);
    PlainExec(t, 0);
    PanicUp(t, TooManyArgs);
  }

  lemma {:induction false} FirstItems(items: seq<Item>, m: nat)
    requires m < |items| && items[m].Arg? && |ArgsOf(items[..m])| == 9
    requires forall i :: 0 <= i < |items| ==> ItemOk(items[i])
    ensures Words(items[..m + 1]) == Words(items[..m]) + Text(items[m]) && Printable(TExec(items[..m]))
  {
    hide ItemOk, Text, ArgsOf;
    assert items[..m + 1][..m] == items[..m];
  }

  /** A command may have nine words: with more the parser panics, whatever redirections stand between them. */
  lemma {:induction false} WordLimit(items: seq<Item>)
    requires forall i :: 0 <= i < |items| ==> ItemOk(items[i])
    requires IsLine(Words(items))
    ensures |ArgsOf(items)| >= 10 ==> ParseCmd(Words(items)) == Panic(TooManyArgs)
    ensures |ArgsOf(items)| < 10 ==> ParseCmd(Words(items)).Ok?
  {
    hide IsLine, ItemOk, Here, Boundary, Next, Tokens, Read, Meaning, ParseCmd, Canonical, Words, ArgsOf, Text;
    var t := Words(items);
    WholeLine(t);
    if |ArgsOf(items)| >= 10 {
      var m := TenthWord(items);
      ItemsHere(t, items, m);
      ItemsHere(t, items, m + 1);
      FirstItems(items, m);
      TooMany(t, items[..m], items[m]);
    } else {
      RoundTrip(TExec(items));
      PrintExec3(items);
    }
  }

  lemma PrintExec3(items: seq<Item>)
    ensures Print(TExec(items), 3) == Words(items)
  {
  }
}
