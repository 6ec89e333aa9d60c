/** The grammar that the shell's parser accepts (p2b/user/sh.c:282-447), as functions on the command line. */
module ShellParse {

  const MAXARGS := 10

  /** A token's place in the line: the pointers q and eq. */
  datatype Span = Span(q: nat, eq: nat)

  /** A parsed command, with pointers into the line.  `out` is O_WRONLY|O_CREATE on descriptor 1, else O_RDONLY on 0. */
  datatype Cmd =
    | Exec(argv: seq<Span>)
    | Redir(cmd: Cmd, file: Span, out: bool)
    | Pipe(left: Cmd, right: Cmd)
    | List(left: Cmd, right: Cmd)
    | Back(cmd: Cmd)

  /** The calls of panic in the parser. */
  datatype Error = Leftovers | MissingFile | MissingParen | BadToken | TooManyArgs

  datatype Result = Ok(cmd: Cmd, pos: nat) | Panic(error: Error)

  // ------------------------------------------------------------------ tokens

  predicate IsSpace(c: char) {
    c == ' ' || c == '\t' || c == '\r' || c == '\n' || c == 11 as char
  }

  predicate IsSymbol(c: char) {
    c == '<' || c == '|' || c == '>' || c == '&' || c == ';' || c == '(' || c == ')'
  }

  /** *s, for a line t that ends where strlen says. */
  function At(t: string, p: nat): char {
    if p < |t| then t[p] else '\0'
  }

  predicate IsLine(t: string) {
    forall i :: 0 <= i < |t| ==> t[i] != '\0'
  }

  function SkipSpace(t: string, p: nat): (q: nat)
    requires p <= |t|
    ensures p <= q <= |t| && !(q < |t| && IsSpace(t[q]))
    decreases |t| - p
  {
    if p < |t| && IsSpace(t[p]) then SkipSpace(t, p + 1) else p
  }

  predicate IsWordChar(c: char) {
    !IsSpace(c) && !IsSymbol(c)
  }

  function SkipWord(t: string, p: nat): (q: nat)
    requires p <= |t|
    ensures p <= q <= |t| && (q < |t| ==> !IsWordChar(t[q])) && (q > p ==> IsWordChar(t[p]))
    decreases |t| - p
  {
    if p < |t| && IsWordChar(t[p]) then SkipWord(t, p + 1) else p
  }

  datatype Kind = End | Symbol(c: char) | Append | Word

  datatype Token = Token(kind: Kind, q: nat, eq: nat, next: nat)

  /** gettoken */
  function GetToken(t: string, p: nat): (k: Token)
    requires p <= |t| && IsLine(t)
    ensures p <= k.q <= k.eq <= k.next <= |t| && (k.kind != End ==> k.q < k.eq)
  {
    var q := SkipSpace(t, p);
    var c := At(t, q);
    var (kind, eq) :=
      if q == |t| then (End, q)
      else if c == '>' then if At(t, q + 1) == '>' then (Append, q + 2) else (Symbol(c), q + 1)
      else if IsSymbol(c) then (Symbol(c), q + 1)
      else (Word, SkipWord(t, q));
    Token(kind, q, eq, SkipSpace(t, eq))
  }

  /** The character that peek looks at. */
  function Next(t: string, p: nat): char
    requires p <= |t|
  {
    At(t, SkipSpace(t, p))
  }

  // ------------------------------------------------------------------ commands

  /** cmd->argv[argc] = q; cmd->eargv[argc] = eq, for the execcmd inside ret. */
  function AddArg(ret: Cmd, arg: Span): Cmd {
    match ret
    case Exec(argv) => Exec(argv + [arg])
    case Redir(cmd, file, out) => Redir(AddArg(cmd, arg), file, out)
    case _ => ret
  }

  function Argc(ret: Cmd): nat {
    match ret
    case Exec(argv) => |argv|
    case Redir(cmd, _, _) => Argc(cmd)
    case _ => 0
  }

  /** An execcmd, perhaps inside redirections. */
  predicate Simple(c: Cmd) {
    c.Exec? || (c.Redir? && Simple(c.cmd))
  }

  lemma {:induction false} AddArgSimple(c: Cmd, arg: Span)
    requires Simple(c)
    ensures Simple(AddArg(c, arg)) && Argc(AddArg(c, arg)) == Argc(c) + 1
  {
    if c.Redir? {
      AddArgSimple(c.cmd, arg);
    }
  }

  lemma {:induction false} RedirsSimple(t: string, cmd: Cmd, p: nat)
    requires p <= |t| && IsLine(t) && Simple(cmd)
    ensures var r := ParseRedirs(t, cmd, p); r.Ok? ==> Simple(r.cmd) && Argc(r.cmd) == Argc(cmd)
    decreases |t| - p
  {
    var q := SkipSpace(t, p);
    if At(t, q) == '<' || At(t, q) == '>' {
      var tok := GetToken(t, q);
      var f := GetToken(t, tok.next);
      if f.kind == Word {
        RedirsSimple(t, Redir(cmd, Span(f.q, f.eq), tok.kind != Symbol('<')), f.next);
      }
    }
  }

  function ParseRedirs(t: string, cmd: Cmd, p: nat): (r: Result)
    requires p <= |t| && IsLine(t)
    ensures r.Ok? ==> p <= r.pos <= |t|
    decreases |t| - p
  {
    var q := SkipSpace(t, p);
    if At(t, q) == '<' || At(t, q) == '>' then
      var tok := GetToken(t, q);
      var f := GetToken(t, tok.next);
      if f.kind != Word then Panic(MissingFile)
      else ParseRedirs(t, Redir(cmd, Span(f.q, f.eq), tok.kind != Symbol('<')), f.next)
    else Ok(cmd, q)
  }

  /** The loop of parseexec, with the command so far. */
  function ParseArgs(t: string, ret: Cmd, p: nat): (r: Result)
    requires p <= |t| && IsLine(t)
    ensures r.Ok? ==> p <= r.pos <= |t|
    decreases |t| - p
  {
    var q := SkipSpace(t, p);
    if At(t, q) == '|' || At(t, q) == ')' || At(t, q) == '&' || At(t, q) == ';' then Ok(ret, q)
    else
      var tok := GetToken(t, q);
      if tok.kind == End then Ok(ret, tok.next)
      else if tok.kind != Word then Panic(BadToken)
      else
        var ret1 := AddArg(ret, Span(tok.q, tok.eq));
        if Argc(ret) + 1 >= MAXARGS then Panic(TooManyArgs)
        else
          match ParseRedirs(t, ret1, tok.next)
          case Panic(e) => Panic(e)
          case Ok(ret2, p2) => ParseArgs(t, ret2, p2)
  }

  function ParseLine(t: string, p: nat): (r: Result)
    requires p <= |t| && IsLine(t)
    ensures r.Ok? ==> p <= r.pos <= |t|
    decreases |t| - p, 4
  {
    match ParsePipe(t, p)
    case Panic(e) => Panic(e)
    case Ok(cmd, p1) => ParseTail(t, cmd, p1)
  }

  /** What follows a pipeline in parseline: any number of '&', then perhaps ';' and another line. */
  function ParseTail(t: string, cmd: Cmd, p: nat): (r: Result)
    requires p <= |t| && IsLine(t)
    ensures r.Ok? ==> p <= r.pos <= |t|
    decreases |t| - p, 3
  {
    var q := SkipSpace(t, p);
    if At(t, q) == '&' then ParseTail(t, Back(cmd), GetToken(t, q).next)
    else if At(t, q) == ';' then
      match ParseLine(t, GetToken(t, q).next)
      case Panic(e) => Panic(e)
      case Ok(right, p1) => Ok(List(cmd, right), p1)
    else Ok(cmd, q)
  }

  function ParsePipe(t: string, p: nat): (r: Result)
    requires p <= |t| && IsLine(t)
    ensures r.Ok? ==> p <= r.pos <= |t|
    decreases |t| - p, 2
  {
    match ParseExec(t, p)
    case Panic(e) => Panic(e)
    case Ok(cmd, p1) =>
      var q := SkipSpace(t, p1);
      if At(t, q) == '|' then
        match ParsePipe(t, GetToken(t, q).next)
        case Panic(e) => Panic(e)
        case Ok(right, p2) => Ok(Pipe(cmd, right), p2)
      else Ok(cmd, q)
  }

  function ParseExec(t: string, p: nat): (r: Result)
    requires p <= |t| && IsLine(t)
    ensures r.Ok? ==> p <= r.pos <= |t|
    decreases |t| - p, 1
  {
    var q := SkipSpace(t, p);
    if At(t, q) == '(' then ParseBlock(t, q)
    else
      match ParseRedirs(t, Exec([]), q)
      case Panic(e) => Panic(e)
      case Ok(ret, p1) => ParseArgs(t, ret, p1)
  }

  function ParseBlock(t: string, p: nat): (r: Result)
    requires p <= |t| && IsLine(t) && At(t, p) == '('
    ensures r.Ok? ==> p <= r.pos <= |t|
    decreases |t| - p, 0
  {
    match ParseLine(t, GetToken(t, p).next)
    case Panic(e) => Panic(e)
    case Ok(cmd, p1) =>
      var q := SkipSpace(t, p1);
      if At(t, q) == ')' then ParseRedirs(t, cmd, GetToken(t, q).next) else Panic(MissingParen)
  }

  /** parsecmd, up to nulterminate. */
  function ParseCmd(t: string): (r: Result)
    requires IsLine(t)
    ensures r.Ok? ==> r.pos <= |t|
  {
    match ParseLine(t, 0)
    case Panic(e) => Panic(e)
    case Ok(cmd, p) => if SkipSpace(t, p) != |t| then Panic(Leftovers) else Ok(cmd, SkipSpace(t, p))
  }

  // ------------------------------------------------------------------ blanks in front do not matter

  lemma {:induction false} SkipTwice(t: string, p: nat)
    requires p <= |t|
    ensures SkipSpace(t, SkipSpace(t, p)) == SkipSpace(t, p)
  {
  }

  lemma {:induction false} TailSkips(t: string, cmd: Cmd, p: nat)
    requires p <= |t| && IsLine(t)
    ensures ParseTail(t, cmd, SkipSpace(t, p)) == ParseTail(t, cmd, p)
  {
    SkipTwice(t, p);
  }

  lemma {:induction false} RedirsSkips(t: string, cmd: Cmd, p: nat)
    requires p <= |t| && IsLine(t)
    ensures ParseRedirs(t, cmd, SkipSpace(t, p)) == ParseRedirs(t, cmd, p)
  {
    SkipTwice(t, p);
  }

  lemma {:induction false} ArgsSkips(t: string, cmd: Cmd, p: nat)
    requires p <= |t| && IsLine(t)
    ensures ParseArgs(t, cmd, SkipSpace(t, p)) == ParseArgs(t, cmd, p)
  {
    SkipTwice(t, p);
  }
}
