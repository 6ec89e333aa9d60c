/** Command trees with their words, and a printer for them (p2b/user/sh.c:18-49, 285-296).

    What is printed may have redirections between the words of a command and ">>" for ">"; its meaning has them
    around the command, as the parser builds them. */
module ShellTrees {
  import opened ShellParse
  import opened ShellStrings

  datatype Mode = In | Out | Append

  /** A word of a command, or a redirection among its words. */
  datatype Item = Arg(word: string) | To(mode: Mode, file: string)

  datatype Tree =
    | TExec(items: seq<Item>)
    | TRedir(cmd: Tree, file: string, mode: Mode)
    | TPipe(left: Tree, right: Tree)
    | TList(left: Tree, right: Tree)
    | TBack(cmd: Tree)

  /** Words that the line can carry: neither blanks nor symbols nor NUL. */
  predicate IsWord(w: string) {
    w != [] && forall i :: 0 <= i < |w| ==> IsWordChar(w[i]) && w[i] != '\0'
  }

  /** The words among the items, and the redirections. */
  function ArgsOf(items: seq<Item>): (args: seq<Item>)
    ensures forall i :: 0 <= i < |args| ==> args[i].Arg? && args[i] in items
  {
    if items == [] then []
    else
      var x := items[|items| - 1];
      ArgsOf(items[..|items| - 1]) + if x.Arg? then [x] else []
  }

  function FilesOf(items: seq<Item>): (files: seq<Item>)
    ensures forall i :: 0 <= i < |files| ==> files[i].To? && files[i] in items
  {
    if items == [] then []
    else
      var x := items[|items| - 1];
      FilesOf(items[..|items| - 1]) + if x.To? then [x] else []
  }

  predicate ItemOk(x: Item) {
    IsWord(if x.Arg? then x.word else x.file)
  }

  /** Trees that the parser has room for. */
  predicate Printable(c: Tree) {
    match c
    case TExec(items) => |ArgsOf(items)| < MAXARGS && forall i :: 0 <= i < |items| ==> ItemOk(items[i])
    case TRedir(c1, file, _) => Printable(c1) && IsWord(file)
    case TPipe(l, r) => Printable(l) && Printable(r)
    case TList(l, r) => Printable(l) && Printable(r)
    case TBack(c1) => Printable(c1)
  }

  // ------------------------------------------------------------------ what a tree means

  /** The redirections around a command, the first one innermost; appending is writing. */
  function Around(c: Tree, files: seq<Item>): Tree
    requires forall i :: 0 <= i < |files| ==> files[i].To?
  {
    if files == [] then c
    else
      var x := files[|files| - 1];
      TRedir(Around(c, files[..|files| - 1]), x.file, if x.mode.In? then In else Out)
  }

  /** The tree that the parser makes of a printed one. */
  function Meaning(c: Tree): Tree {
    match c
    case TExec(items) => Around(TExec(ArgsOf(items)), FilesOf(items))
    case TRedir(c1, file, mode) => TRedir(Meaning(c1), file, if mode.In? then In else Out)
    case TPipe(l, r) => TPipe(Meaning(l), Meaning(r))
    case TList(l, r) => TList(Meaning(l), Meaning(r))
    case TBack(c1) => TBack(Meaning(c1))
  }

  /** Words only, and no ">>". */
  predicate Canonical(c: Tree) {
    match c
    case TExec(items) => forall i :: 0 <= i < |items| ==> items[i].Arg?
    case TRedir(c1, _, mode) => Canonical(c1) && !mode.Append?
    case TPipe(l, r) => Canonical(l) && Canonical(r)
    case TList(l, r) => Canonical(l) && Canonical(r)
    case TBack(c1) => Canonical(c1)
  }

  lemma {:induction false} OnlyArgs(items: seq<Item>)
    requires forall i :: 0 <= i < |items| ==> items[i].Arg?
    ensures ArgsOf(items) == items && FilesOf(items) == []
  {
    if items != [] {
      OnlyArgs(items[..|items| - 1]);
      assert items == items[..|items| - 1] + [items[|items| - 1]];
    }
  }

  lemma {:induction false} CanonicalMeans(c: Tree)
    requires Canonical(c)
    ensures Meaning(c) == c
  {
    match c
    case TExec(items) => OnlyArgs(items);
    case TRedir(c1, _, _) => CanonicalMeans(c1);
    case TPipe(l, r) => CanonicalMeans(l); CanonicalMeans(r);
    case TList(l, r) => CanonicalMeans(l); CanonicalMeans(r);
    case TBack(c1) => CanonicalMeans(c1);
  }

  // ------------------------------------------------------------------ the printer

  /** How loosely the operator binds: a command, a pipeline, a command in the background, a list. */
  function Level(c: Tree): nat {
    match c
    case TExec(_) => 0
    case TRedir(_, _, _) => 0
    case TPipe(_, _) => 1
    case TBack(_) => 2
    case TList(_, _) => 3
  }

  function Sign(mode: Mode): (s: string)
    ensures |s| == if mode.Append? then 3 else 2
  {
    match mode
    case In => " <"
    case Out => " >"
    case Append => " >>"
  }

  function Text(x: Item): string {
    match x
    case Arg(w) => " " + w
    case To(mode, file) => Sign(mode) + (" " + file)
  }

  function Words(items: seq<Item>): string {
    if items == [] then "" else Words(items[..|items| - 1]) + Text(items[|items| - 1])
  }

  function Body(c: Tree): string
    decreases c, 0
  {
    match c
    case TExec(items) => Words(items)
    case TRedir(c1, file, mode) => Print(c1, 0) + (Sign(mode) + (" " + file))
    case TPipe(l, r) => Print(l, 0) + " |" + Print(r, 1)
    case TBack(c1) => Print(c1, 2) + " &"
    case TList(l, r) => Print(l, 2) + " ;" + Print(r, 3)
  }

  /** The tree where at most level lv may stand: in parentheses if it binds more loosely. */
  function Print(c: Tree, lv: nat): string
    decreases c, 1
  {
    if Level(c) <= lv then Body(c) else " (" + Body(c) + " )"
  }

  // ------------------------------------------------------------------ the command that the printed form stands for

  /** The command cmd with item x, which is printed at q. */
  function WithItem(cmd: Cmd, x: Item, q: nat): Cmd {
    match x
    case Arg(w) => AddArg(cmd, Span(q + 1, q + 1 + |w|))
    case To(mode, file) =>
      var e := q + |Sign(mode)| + 1;
      Redir(cmd, Span(e, e + |file|), !mode.In?)
  }

  function Items(items: seq<Item>, p: nat): Cmd {
    if items == [] then Exec([]) else
    var n := |items| - 1;
    WithItem(Items(items[..n], p), items[n], p + |Words(items[..n])|)
  }

  function Placed(c: Tree, p: nat): Cmd
    decreases c, 0
  {
    match c
    case TExec(items) => Items(items, p)
    case TRedir(c1, file, mode) => WithItem(PlacedAt(c1, 0, p), To(mode, file), p + |Print(c1, 0)|)
    case TPipe(l, r) => Pipe(PlacedAt(l, 0, p), PlacedAt(r, 1, p + |Print(l, 0)| + 2))
    case TBack(c1) => Back(PlacedAt(c1, 2, p))
    case TList(l, r) => List(PlacedAt(l, 2, p), PlacedAt(r, 3, p + |Print(l, 2)| + 2))
  }

  /** The command for Print(c, lv) at position p of the line. */
  function PlacedAt(c: Tree, lv: nat, p: nat): Cmd
    decreases c, 1
  {
    if Level(c) <= lv then Placed(c, p) else Placed(c, p + 2)
  }

  /** The tree that a command stands for in line t. */
  function Read(t: string, cmd: Cmd): Tree
    requires Tokens(t, cmd)
  {
    match cmd
    case Exec(argv) =>
      TExec(seq(|argv|, (i: nat) requires i < |argv| && IsToken(t, argv[i]) => Arg(t[argv[i].q..argv[i].eq])))
    case Redir(c, file, out) => TRedir(Read(t, c), t[file.q..file.eq], if out then Out else In)
    case Pipe(l, r) => TPipe(Read(t, l), Read(t, r))
    case List(l, r) => TList(Read(t, l), Read(t, r))
    case Back(c) => TBack(Read(t, c))
  }

  // ------------------------------------------------------------------ pieces of a line

  /** s stands at position p of the line. */
  predicate Here(t: string, p: nat, s: string) {
    p + |s| <= |t| && t[p..p + |s|] == s
  }

  lemma HereSplit(t: string, p: nat, a: string, b: string)
    requires Here(t, p, a + b)
    ensures Here(t, p, a) && Here(t, p + |a|, b)
  {
    assert t[p..p + |a|] == (a + b)[..|a|];
    assert t[p + |a|..p + |a| + |b|] == (a + b)[|a|..];
  }

  lemma HereAt(t: string, p: nat, s: string, i: nat)
    requires Here(t, p, s) && i < |s|
    ensures t[p + i] == s[i]
  {
    assert t[p..p + |s|][i] == t[p + i];
  }

  /** No word goes on at position e. */
  predicate Boundary(t: string, e: nat) {
    e == |t| || (e < |t| && !IsWordChar(t[e]))
  }

  lemma {:induction false} SkipBlank(t: string, p: nat)
    requires p < |t| && t[p] == ' '
    ensures SkipSpace(t, p) == SkipSpace(t, p + 1)
  {
  }

  lemma {:induction false} SkipNone(t: string, p: nat)
    requires p <= |t| && (p < |t| ==> !IsSpace(t[p]))
    ensures SkipSpace(t, p) == p
  {
  }

  lemma {:induction false} SkipWordTo(t: string, p: nat, e: nat)
    requires p <= e <= |t| && Boundary(t, e) && forall i :: p <= i < e ==> IsWordChar(t[i])
    ensures SkipWord(t, p) == e
    decreases e - p
  {
    if p < e {
      SkipWordTo(t, p + 1, e);
    }
  }

  /** " w" is read as one word. */
  lemma {:induction false} WordToken(t: string, p: nat, w: string)
    requires IsLine(t) && IsWord(w) && Here(t, p, " " + w) && Boundary(t, p + 1 + |w|)
    ensures GetToken(t, p) == Token(Word, p + 1, p + 1 + |w|, SkipSpace(t, p + 1 + |w|))
    ensures GetToken(t, p + 1) == GetToken(t, p) && SkipSpace(t, p) == p + 1 && IsWordChar(t[p + 1])
    ensures IsToken(t, Span(p + 1, p + 1 + |w|)) && t[p + 1..p + 1 + |w|] == w
  {
    var s := " " + w;
    HereAt(t, p, s, 0);
    forall i | 0 <= i < |w| ensures t[p + 1 + i] == w[i] {
      HereAt(t, p, s, i + 1);
    }
    assert t[p + 1] == w[0];
    SkipBlank(t, p);
    SkipNone(t, p + 1);
    forall i | p + 1 <= i < p + 1 + |w| ensures IsWordChar(t[i]) {
      assert t[i] == w[i - p - 1];
    }
    SkipWordTo(t, p + 1, p + 1 + |w|);
    assert t[p + 1..p + 1 + |w|] == w;
  }

  /** " c", for a symbol that no second '>' follows, is read as that symbol. */
  lemma {:induction false} SymbolToken(t: string, p: nat, c: char)
    requires IsLine(t) && IsSymbol(c) && Here(t, p, " " + [c]) && (c == '>' ==> At(t, p + 2) != '>')
    ensures SkipSpace(t, p) == p + 1 && At(t, p + 1) == c
    ensures GetToken(t, p + 1) == Token(Symbol(c), p + 1, p + 2, SkipSpace(t, p + 2))
    ensures Boundary(t, p)
  {
    HereAt(t, p, " " + [c], 0);
    HereAt(t, p, " " + [c], 1);
    SkipBlank(t, p);
    SkipNone(t, p + 1);
  }

  /** " >>" is read as one symbol. */
  lemma {:induction false} AppendToken(t: string, p: nat)
    requires IsLine(t) && Here(t, p, " >>")
    ensures SkipSpace(t, p) == p + 1 && At(t, p + 1) == '>'
    ensures GetToken(t, p + 1) == Token(Kind.Append, p + 1, p + 3, SkipSpace(t, p + 3))
    ensures Boundary(t, p)
  {
    HereAt(t, p, " >>", 0);
    HereAt(t, p, " >>", 1);
    HereAt(t, p, " >>", 2);
    SkipBlank(t, p);
    SkipNone(t, p + 1);
  }
}
