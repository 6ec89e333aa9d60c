/** The C strings that nulterminate makes of the tokens (p2b/user/sh.c:449-492). */
module ShellStrings {
  import opened ShellParse

  /** A maximal run of word characters. */
  predicate IsToken(t: string, a: Span) {
    && a.q < a.eq <= |t| && (forall i :: a.q <= i < a.eq ==> IsWordChar(t[i]))
    && (a.eq < |t| ==> !IsWordChar(t[a.eq]))
  }

  /** All pointers of the command are tokens of the line. */
  predicate Tokens(t: string, cmd: Cmd) {
    match cmd
    case Exec(argv) => forall i :: 0 <= i < |argv| ==> IsToken(t, argv[i])
    case Redir(c, file, _) => Tokens(t, c) && IsToken(t, file)
    case Pipe(l, r) => Tokens(t, l) && Tokens(t, r)
    case List(l, r) => Tokens(t, l) && Tokens(t, r)
    case Back(c) => Tokens(t, c)
  }

  // ------------------------------------------------------------------ the parser yields tokens

  lemma {:induction false} WordChars(t: string, p: nat)
    requires p <= |t|
    ensures forall i :: p <= i < SkipWord(t, p) ==> IsWordChar(t[i])
    decreases |t| - p
  {
    if p < |t| && IsWordChar(t[p]) {
      WordChars(t, p + 1);
    }
  }

  lemma {:induction false} WordIsToken(t: string, p: nat)
    requires p <= |t| && IsLine(t) && GetToken(t, p).kind == Word
    ensures IsToken(t, Span(GetToken(t, p).q, GetToken(t, p).eq))
  {
    WordChars(t, SkipSpace(t, p));
    hide SkipWord, SkipSpace;
  }

  lemma {:induction false} AddArgTokens(t: string, c: Cmd, a: Span)
    requires Tokens(t, c) && IsToken(t, a)
    ensures Tokens(t, AddArg(c, a))
  {
    if c.Redir? {
      AddArgTokens(t, c.cmd, a);
    }
  }

  lemma {:induction false} RedirsTokens(t: string, cmd: Cmd, p: nat)
    requires p <= |t| && IsLine(t) && Tokens(t, cmd)
    ensures var r := ParseRedirs(t, cmd, p); r.Ok? ==> Tokens(t, r.cmd)
    decreases |t| - p
  {
    var q := SkipSpace(t, p);
    if At(t, q) == '<' || At(t, q) == '>' {
      var tok := GetToken(t, q);
      var f := GetToken(t, tok.next);
      if f.kind == Word {
        WordIsToken(t, tok.next);
        RedirsTokens(t, Redir(cmd, Span(f.q, f.eq), tok.kind != Symbol('<')), f.next);
      }
    }
  }

  lemma {:induction false} ArgsTokens(t: string, ret: Cmd, p: nat)
    requires p <= |t| && IsLine(t) && Tokens(t, ret)
    ensures var r := ParseArgs(t, ret, p); r.Ok? ==> Tokens(t, r.cmd)
    decreases |t| - p
  {
    var q := SkipSpace(t, p);
    var tok := GetToken(t, q);
    if tok.kind == Word {
      WordIsToken(t, q);
      AddArgTokens(t, ret, Span(tok.q, tok.eq));
      var ret1 := AddArg(ret, Span(tok.q, tok.eq));
      RedirsTokens(t, ret1, tok.next);
      var r := ParseRedirs(t, ret1, tok.next);
      if r.Ok? {
        ArgsTokens(t, r.cmd, r.pos);
      }
    }
  }

  lemma {:induction false} LineTokens(t: string, p: nat)
    requires p <= |t| && IsLine(t)
    ensures var r := ParseLine(t, p); r.Ok? ==> Tokens(t, r.cmd)
    decreases |t| - p, 4
  {
    PipeTokens(t, p);
    var r := ParsePipe(t, p);
    if r.Ok? {
      TailTokens(t, r.cmd, r.pos);
    }
  }

  lemma {:induction false} TailTokens(t: string, cmd: Cmd, p: nat)
    requires p <= |t| && IsLine(t) && Tokens(t, cmd)
    ensures var r := ParseTail(t, cmd, p); r.Ok? ==> Tokens(t, r.cmd)
    decreases |t| - p, 3
  {
    var q := SkipSpace(t, p);
    if At(t, q) == '&' {
      TailTokens(t, Back(cmd), GetToken(t, q).next);
    } else if At(t, q) == ';' {
      LineTokens(t, GetToken(t, q).next);
    }
  }

  lemma {:induction false} PipeTokens(t: string, p: nat)
    requires p <= |t| && IsLine(t)
    ensures var r := ParsePipe(t, p); r.Ok? ==> Tokens(t, r.cmd)
    decreases |t| - p, 2
  {
    ExecTokens(t, p);
    var r := ParseExec(t, p);
    if r.Ok? {
      var q := SkipSpace(t, r.pos);
      if At(t, q) == '|' {
        PipeTokens(t, GetToken(t, q).next);
      }
    }
  }

  lemma {:induction false} ExecTokens(t: string, p: nat)
    requires p <= |t| && IsLine(t)
    ensures var r := ParseExec(t, p); r.Ok? ==> Tokens(t, r.cmd)
    decreases |t| - p, 1
  {
    var q := SkipSpace(t, p);
    if At(t, q) == '(' {
      BlockTokens(t, q);
    } else {
      RedirsTokens(t, Exec([]), q);
      var r := ParseRedirs(t, Exec([]), q);
      if r.Ok? {
        ArgsTokens(t, r.cmd, r.pos);
      }
    }
  }

  lemma {:induction false} BlockTokens(t: string, p: nat)
    requires p <= |t| && IsLine(t) && At(t, p) == '('
    ensures var r := ParseBlock(t, p); r.Ok? ==> Tokens(t, r.cmd)
    decreases |t| - p, 0
  {
    LineTokens(t, GetToken(t, p).next);
    var r := ParseLine(t, GetToken(t, p).next);
    if r.Ok? {
      var q := SkipSpace(t, r.pos);
      if At(t, q) == ')' {
        RedirsTokens(t, r.cmd, GetToken(t, q).next);
      }
    }
  }

  // ------------------------------------------------------------------ nulterminate

  /** Where nulterminate writes. */
  ghost function Ends(cmd: Cmd): set<nat> {
    match cmd
    case Exec(argv) => set i | 0 <= i < |argv| :: argv[i].eq
    case Redir(c, file, _) => Ends(c) + {file.eq}
    case Pipe(l, r) => Ends(l) + Ends(r)
    case List(l, r) => Ends(l) + Ends(r)
    case Back(c) => Ends(c)
  }

  ghost predicate Terminated(b: string, b': string, ends: set<nat>) {
    |b'| == |b| && forall i :: 0 <= i < |b| ==> b'[i] == if i in ends then '\0' else b[i]
  }

  /** The bytes from q up to the first NUL. */
  function CString(b: string, q: nat): string
    requires q <= |b|
    decreases |b| - q
  {
    if q == |b| || b[q] == '\0' then [] else [b[q]] + CString(b, q + 1)
  }

  lemma {:induction false} CStringIs(b: string, q: nat, e: nat)
    requires q <= e < |b| && b[e] == '\0' && forall i :: q <= i < e ==> b[i] != '\0'
    ensures CString(b, q) == b[q..e]
    decreases e - q
  {
    if q < e {
      CStringIs(b, q + 1, e);
      assert b[q..e] == [b[q]] + b[q + 1..e];
    }
  }

  /** a is one of the pointers of the command. */
  ghost predicate PointsTo(cmd: Cmd, a: Span) {
    match cmd
    case Exec(argv) => a in argv
    case Redir(c, file, _) => PointsTo(c, a) || a == file
    case Pipe(l, r) => PointsTo(l, a) || PointsTo(r, a)
    case List(l, r) => PointsTo(l, a) || PointsTo(r, a)
    case Back(c) => PointsTo(c, a)
  }

  lemma {:induction false} PointsToToken(t: string, cmd: Cmd, a: Span)
    requires Tokens(t, cmd) && PointsTo(cmd, a)
    ensures IsToken(t, a) && a.eq in Ends(cmd)
  {
    match cmd
    case Exec(argv) =>
    case Redir(c, file, _) => if a != file { PointsToToken(t, c, a); }
    case Pipe(l, r) => if PointsTo(l, a) { PointsToToken(t, l, a); } else { PointsToToken(t, r, a); }
    case List(l, r) => if PointsTo(l, a) { PointsToToken(t, l, a); } else { PointsToToken(t, r, a); }
    case Back(c) => PointsToToken(t, c, a);
  }

  /** No terminator lands inside a token: a token ends where no word character stands. */
  lemma {:induction false} EndsOutside(t: string, cmd: Cmd, e: nat)
    requires Tokens(t, cmd) && e in Ends(cmd)
    ensures e == |t| || (e < |t| && !IsWordChar(t[e]))
  {
    match cmd
    case Exec(argv) =>
      var i :| 0 <= i < |argv| && argv[i].eq == e;
      assert IsToken(t, argv[i]);
    case Redir(c, file, _) => if e in Ends(c) { EndsOutside(t, c, e); }
    case Pipe(l, r) => if e in Ends(l) { EndsOutside(t, l, e); } else { EndsOutside(t, r, e); }
    case List(l, r) => if e in Ends(l) { EndsOutside(t, l, e); } else { EndsOutside(t, r, e); }
    case Back(c) => EndsOutside(t, c, e);
  }

  lemma {:induction false} CmdTokens(t: string)
    requires IsLine(t) && ParseCmd(t).Ok?
    ensures Tokens(t, ParseCmd(t).cmd)
  {
    LineTokens(t, 0);
    hide ParseLine, Tokens;
  }

  /** A token, with a NUL behind it and none inside, read as a C string. */
  lemma {:induction false} TerminatedToken(t: string, b: string, ends: set<nat>, a: Span)
    requires IsLine(t) && IsToken(t, a) && a.eq in ends && Terminated(t + "\0", b, ends)
    requires forall i :: a.q <= i < a.eq ==> i !in ends
    ensures a.q < |b| && CString(b, a.q) == t[a.q..a.eq]
  {
    hide CString, IsWordChar;
    forall i | a.q <= i < a.eq ensures b[i] == t[i] {
      assert (t + "\0")[i] == t[i];
    }
    CStringIs(b, a.q, a.eq);
    assert b[a.q..a.eq] == t[a.q..a.eq];
  }

  /** After nulterminate, each pointer of the command read as a C string is its token. */
  lemma {:induction false} StringsAreTokens(t: string, b: string, a: Span)
    requires IsLine(t) && ParseCmd(t).Ok? && PointsTo(ParseCmd(t).cmd, a)
    requires Terminated(t + "\0", b, Ends(ParseCmd(t).cmd))
    ensures a.q < a.eq <= |t| && a.q < |b| && CString(b, a.q) == t[a.q..a.eq]
  {
    hide IsLine, ParseCmd, Tokens, PointsTo, Ends, Terminated, CString, IsWordChar;
    var cmd := ParseCmd(t).cmd;
    CmdTokens(t);
    PointsToToken(t, cmd, a);
    forall i | a.q <= i < a.eq ensures i !in Ends(cmd) {
      if i in Ends(cmd) {
        EndsOutside(t, cmd, i);
      }
    }
    TerminatedToken(t, b, Ends(cmd), a);
  }
}
