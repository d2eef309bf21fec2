/** The shell's command language (usr/sh.c): what its parser computes on the text still to be read. */
module ShellSpec {
  const MAXARGS := 10
  const O_RDONLY := 0
  const O_WRONLY_CREATE := 0x201

  /** A command tree with words of type `W`. */
  datatype Cmd<W> =
    | Exec(argv: seq<W>)
    | Redir(cmd: Cmd<W>, file: W, mode: int, fd: int)
    | Pipe(left: Cmd<W>, right: Cmd<W>)
    | List(left: Cmd<W>, right: Cmd<W>)
    | Back(cmd: Cmd<W>)

  /** The calls of panic in the parser. */
  datatype Error = MissingFile | MissingParen | Syntax | TooManyArgs

  datatype Result<A> = Ok(value: A, rest: string) | Panic(error: Error)

  // ---------- tokens ----------

  predicate Space(c: char) { c in [' ', '\t', '\r', '\n', 11 as char] }

  predicate Symbol(c: char) { c in "<|>&;()" }

  predicate WordChar(c: char) { !Space(c) && !Symbol(c) }

  function Skip(s: string): (t: string)
    ensures |t| <= |s| && (t != "" ==> !Space(t[0]))
  {
    if s != "" && Space(s[0]) then Skip(s[1..]) else s
  }

  /** The longest beginning made of word characters. */
  function WordOf(s: string): (w: string)
    ensures w <= s
  {
    if s != "" && WordChar(s[0]) then [s[0]] + WordOf(s[1..]) else ""
  }

  datatype Token = End | Sym(c: char) | Append | Word(w: string)

  /** gettoken: the next token and the text after it and after the white space behind it. */
  function Next(s: string): (r: (Token, string))
    ensures |r.1| <= |s| && (!r.0.End? ==> |r.1| < |s|)
    ensures r.0.End? <==> Skip(s) == ""
  {
    var t := Skip(s);
    if t == "" then (End, "")
    else if t[0] == '>' && |t| > 1 && t[1] == '>' then (Append, Skip(t[2..]))
    else if Symbol(t[0]) then (Sym(t[0]), Skip(t[1..]))
    else (Word(WordOf(t)), Skip(t[|WordOf(t)|..]))
  }

  predicate Peek(s: string, toks: string) { Skip(s) != "" && Skip(s)[0] in toks }

  // ---------- the grammar ----------

  datatype Rd<W> = Rd(file: W, mode: int, fd: int)

  function ModeOf(t: Token): (int, int) {
    if t == Sym('<') then (O_RDONLY, 0) else (O_WRONLY_CREATE, 1)
  }

  /** parseredirs: the redirections at the front of the text. */
  function Redirs(s: string): (r: Result<seq<Rd<string>>>)
    ensures r.Ok? ==> |r.rest| <= |s|
    decreases |s|
  {
    if !Peek(s, "<>") then Ok([], Skip(s))
    else
      var (op, s1) := Next(s);
      var (name, s2) := Next(s1);
      if !name.Word? then Panic(MissingFile)
      else
        var more := Redirs(s2);
        if more.Panic? then more else Ok([Rd(name.w, ModeOf(op).0, ModeOf(op).1)] + more.value, more.rest)
  }

  /** Each redirection wraps the command once more. */
  function Wrapped<W>(c: Cmd<W>, rds: seq<Rd<W>>): Cmd<W> {
    if rds == [] then c
    else
      var last := rds[|rds| - 1];
      Redir(Wrapped(c, rds[..|rds| - 1]), last.file, last.mode, last.fd)
  }

  /** The loop of parseexec, `argv` and `rds` being the words and redirections so far. */
  function Args(argv: seq<string>, rds: seq<Rd<string>>, s: string): (r: Result<Cmd<string>>)
    ensures r.Ok? ==> |r.rest| <= |s|
    decreases |s|
  {
    if Peek(s, "|)&;") then Ok(Wrapped(Exec(argv), rds), Skip(s))
    else
      var (tok, s1) := Next(s);
      if tok.End? then Ok(Wrapped(Exec(argv), rds), s1)
      else if !tok.Word? then Panic(Syntax)
      else if |argv| + 1 >= MAXARGS then Panic(TooManyArgs)
      else
        var more := Redirs(s1);
        if more.Panic? then Panic(more.error) else Args(argv + [tok.w], rds + more.value, more.rest)
  }

  function ParseExec(s: string): (r: Result<Cmd<string>>)
    ensures r.Ok? ==> |r.rest| <= |s|
    decreases |s|, 1
  {
    if Peek(s, "(") then ParseBlock(s)
    else
      var first := Redirs(s);
      if first.Panic? then Panic(first.error) else Args([], first.value, first.rest)
  }

  function ParseBlock(s: string): (r: Result<Cmd<string>>)
    requires Peek(s, "(")
    ensures r.Ok? ==> |r.rest| <= |s|
    decreases |s|, 0
  {
    var inner := ParseLine(Next(s).1);
    if inner.Panic? then inner
    else if !Peek(inner.rest, ")") then Panic(MissingParen)
    else
      var after := Redirs(Next(inner.rest).1);
      if after.Panic? then Panic(after.error) else Ok(Wrapped(inner.value, after.value), after.rest)
  }

  function ParsePipe(s: string): (r: Result<Cmd<string>>)
    ensures r.Ok? ==> |r.rest| <= |s|
    decreases |s|, 2
  {
    var left := ParseExec(s);
    if left.Panic? || !Peek(left.rest, "|") then left
    else
      var right := ParsePipe(Next(left.rest).1);
      if right.Panic? then right else Ok(Pipe(left.value, right.value), right.rest)
  }

  /** The loop over `&`. */
  function Backs(c: Cmd<string>, s: string): (r: (Cmd<string>, string))
    ensures |r.1| <= |s|
    decreases |s|
  {
    if Peek(s, "&") then Backs(Back(c), Next(s).1) else (c, Skip(s))
  }

  function ParseLine(s: string): (r: Result<Cmd<string>>)
    ensures r.Ok? ==> |r.rest| <= |s|
    decreases |s|, 3
  {
    var first := ParsePipe(s);
    if first.Panic? then first
    else
      var (c, s1) := Backs(first.value, first.rest);
      if !Peek(s1, ";") then Ok(c, s1)
      else
        var more := ParseLine(Next(s1).1);
        if more.Panic? then more else Ok(List(c, more.value), more.rest)
  }

  /** parsecmd: a line is one command, with nothing left over. */
  function Parse(s: string): (r: Result<Cmd<string>>) {
    var line := ParseLine(s);
    if line.Ok? && Skip(line.rest) != "" then Panic(Syntax) else line
  }
}
