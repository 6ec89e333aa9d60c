/** The shell's parser (p2b/user/sh.c): one cursor over the line, advanced by every function, and the
    terminators that nulterminate writes into the line. */
module Shell {
  import opened ShellParse
  import opened ShellStrings

  class Parser {
    const line: string   // the line as strlen delimits it
    var s: nat           // *ps

    constructor (line: string)
      ensures this.line == line && s == 0
    {
      this.line, s := line, 0;
    }

    ghost predicate Valid()
      reads this
    {
      IsLine(line) && s <= |line|
    }

    method Gettoken() returns (kind: Kind, q: nat, eq: nat)
      requires Valid()
      modifies this
      ensures Valid() && var k := GetToken(line, old(s)); kind == k.kind && q == k.q && eq == k.eq && s == k.next
    {
      while s < |line| && IsSpace(line[s])
        invariant Valid() && SkipSpace(line, old(s)) == SkipSpace(line, s)
      {
        s := s + 1;
      }
      q := s;
      if s == |line| {
        kind := End;
      } else if line[s] == '|' || line[s] == '(' || line[s] == ')' || line[s] == ';' || line[s] == '&'
          || line[s] == '<' {
        kind := Symbol(line[s]);
        s := s + 1;
      } else if line[s] == '>' {
        kind := Symbol('>');
        s := s + 1;
        if s < |line| && line[s] == '>' {
          kind := Append;
          s := s + 1;
        }
      } else {
        kind := Word;
        while s < |line| && !IsSpace(line[s]) && !IsSymbol(line[s])
          invariant Valid() && SkipWord(line, q) == SkipWord(line, s)
        {
          s := s + 1;
        }
      }
      eq := s;
      while s < |line| && IsSpace(line[s])
        invariant Valid() && SkipSpace(line, eq) == SkipSpace(line, s)
      {
        s := s + 1;
      }
    }

    /** peek: the first character behind the blanks, NUL at the end of the line. */
    method Peek() returns (c: char)
      requires Valid()
      modifies this
      ensures Valid() && s == SkipSpace(line, old(s)) && c == At(line, s)
    {
      while s < |line| && IsSpace(line[s])
        invariant Valid() && SkipSpace(line, old(s)) == SkipSpace(line, s)
      {
        s := s + 1;
      }
      c := if s < |line| then line[s] else '\0';
    }

    /** The result of a parser function, with the cursor behind what it read. */
    ghost predicate Answers(r: Result, spec: Result)
      reads this
    {
      r == spec && (r.Ok? ==> s == r.pos)
    }

    /** parsecmd on the buffer that holds the line and the NUL behind it. */
    method Parsecmd(buf: array<char>) returns (r: Result)
      requires Valid() && s == 0 && buf[..] == line + "\0"
      modifies this, buf
      ensures r == ParseCmd(line)
      ensures r.Panic? ==> buf[..] == line + "\0"
      ensures r.Ok? ==> Terminated(line + "\0", buf[..], Ends(r.cmd))
    {
      r := Parseline();
      if r.Ok? {
        var c := Peek();
        r := if s != |line| then Panic(Leftovers) else Ok(r.cmd, s);
        if r.Ok? {
          LineTokens(line, 0);
          EndsInside(line, r.cmd);
          Nulterminate(r.cmd, buf);
        }
      }
    }

    method Parseline() returns (r: Result)
      requires Valid()
      modifies this
      ensures Valid() && Answers(r, ParseLine(line, old(s)))
      decreases |line| - s, 3
    {
      r := Parsepipe();
      if r.Panic? {
        return;
      }
      var cmd := r.cmd;
      var c := Peek();
      while c == '&'
        invariant Valid() && s <= |line| && old(s) <= s && c == At(line, s) && s == SkipSpace(line, s)
        invariant ParseLine(line, old(s)) == ParseTail(line, cmd, s)
        decreases |line| - s
      {
        TokenAdvances(line, s);
        var kind, q, eq := Gettoken();
        cmd := Back(cmd);
        TailSkips(line, cmd, s);
        c := Peek();
      }
      if c == ';' {
        TokenAdvances(line, s);
        var kind, q, eq := Gettoken();
        r := Parseline();
        if r.Ok? {
          r := Ok(List(cmd, r.cmd), s);
        }
        return;
      }
      r := Ok(cmd, s);
    }

    method Parsepipe() returns (r: Result)
      requires Valid()
      modifies this
      ensures Valid() && Answers(r, ParsePipe(line, old(s)))
      decreases |line| - s, 2
    {
      r := Parseexec();
      if r.Panic? {
        return;
      }
      var cmd := r.cmd;
      var c := Peek();
      if c == '|' {
        TokenAdvances(line, s);
        var kind, q, eq := Gettoken();
        r := Parsepipe();
        if r.Ok? {
          r := Ok(Pipe(cmd, r.cmd), s);
        }
        return;
      }
      r := Ok(cmd, s);
    }

    method Parseredirs(cmd0: Cmd) returns (r: Result)
      requires Valid()
      modifies this
      ensures Valid() && Answers(r, ParseRedirs(line, cmd0, old(s)))
    {
      var cmd := cmd0;
      var c := Peek();
      while c == '<' || c == '>'
        invariant Valid() && old(s) <= s && c == At(line, s) && s == SkipSpace(line, s)
        invariant ParseRedirs(line, cmd0, old(s)) == ParseRedirs(line, cmd, s)
        decreases |line| - s
      {
        TokenAdvances(line, s);
        var tok, q0, eq0 := Gettoken();
        var kind, q, eq := Gettoken();
        if kind != Word {
          return Panic(MissingFile);
        }
        cmd := Redir(cmd, Span(q, eq), tok != Symbol('<'));
        RedirsSkips(line, cmd, s);
        c := Peek();
      }
      r := Ok(cmd, s);
    }

    /** parseblock, behind a successful peek for '('. */
    method Parseblock() returns (r: Result)
      requires Valid() && At(line, s) == '('
      modifies this
      ensures Valid() && Answers(r, ParseBlock(line, old(s)))
      decreases |line| - s, 0
    {
      TokenAdvances(line, s);
      var kind, q, eq := Gettoken();
      r := Parseline();
      if r.Panic? {
        return;
      }
      var cmd := r.cmd;
      var c := Peek();
      if c != ')' {
        return Panic(MissingParen);
      }
      kind, q, eq := Gettoken();
      r := Parseredirs(cmd);
    }

    method Parseexec() returns (r: Result)
      requires Valid()
      modifies this
      ensures Valid() && Answers(r, ParseExec(line, old(s)))
      decreases |line| - s, 1
    {
      var c := Peek();
      if c == '(' {
        r := Parseblock();
        return;
      }
      var argc := 0;
      r := Parseredirs(Exec([]));
      if r.Panic? {
        return;
      }
      var ret := r.cmd;
      RedirsSimple(line, Exec([]), SkipSpace(line, old(s)));
      ArgsSkips(line, ret, s);
      c := Peek();
      while c != '|' && c != ')' && c != '&' && c != ';'
        invariant Valid() && old(s) <= s && c == At(line, s) && s == SkipSpace(line, s) && Simple(ret)
        invariant argc == Argc(ret)
        invariant ParseExec(line, old(s)) == ParseArgs(line, ret, s)
        decreases |line| - s
      {
        var kind, q, eq := Gettoken();
        if kind == End {
          break;
        }
        if kind != Word {
          return Panic(BadToken);
        }
        AddArgSimple(ret, Span(q, eq));
        ret := AddArg(ret, Span(q, eq));
        argc := argc + 1;
        if argc >= MAXARGS {
          return Panic(TooManyArgs);
        }
        RedirsSimple(line, ret, s);
        r := Parseredirs(ret);
        if r.Panic? {
          return;
        }
        ret := r.cmd;
        ArgsSkips(line, ret, s);
        c := Peek();
      }
      r := Ok(ret, s);
    }
  }

  /** nulterminate */
  method Nulterminate(cmd: Cmd, buf: array<char>)
    requires forall e :: e in Ends(cmd) ==> e < buf.Length
    modifies buf
    ensures Terminated(old(buf[..]), buf[..], Ends(cmd))
    decreases cmd
  {
    match cmd {
      case Exec(argv) =>
        var i := 0;
        while i < |argv|
          invariant 0 <= i <= |argv|
          invariant forall k :: 0 <= k < buf.Length ==>
                      buf[k] == if exists j :: 0 <= j < i && argv[j].eq == k then '\0' else old(buf[k])
        {
          assert argv[i].eq in Ends(cmd);
          buf[argv[i].eq] := '\0';
          i := i + 1;
        }
      case Redir(c, file, _) =>
        assert Ends(cmd) == Ends(c) + {file.eq};
        Nulterminate(c, buf);
        buf[file.eq] := '\0';
      case Pipe(l, r) =>
        assert Ends(cmd) == Ends(l) + Ends(r);
        Nulterminate(l, buf);
        Nulterminate(r, buf);
      case List(l, r) =>
        assert Ends(cmd) == Ends(l) + Ends(r);
        Nulterminate(l, buf);
        Nulterminate(r, buf);
      case Back(c) =>
        assert Ends(cmd) == Ends(c);
        Nulterminate(c, buf);
    }
  }

  lemma {:induction false} EndsInside(t: string, cmd: Cmd)
    requires Tokens(t, cmd)
    ensures forall e :: e in Ends(cmd) ==> e <= |t|
  {
    forall e | e in Ends(cmd) ensures e <= |t| {
      EndsOutside(t, cmd, e);
    }
  }

  lemma TokenAdvances(t: string, p: nat)
    requires p < |t| && IsLine(t)
    ensures GetToken(t, p).next > p
  {
  }
}
