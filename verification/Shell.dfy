/** The shell's parser over a line in memory (usr/sh.c): a cursor that only moves forward, and tokens that are ended
    in place once the whole line has been read. */
module Shell {
  import opened ShellGrammar
  import opened ShellRound
  import opened ShellSpec

  /** A token: where it starts and where it ends. */
  datatype Tok = Tok(q: nat, eq: nat)

  datatype Parsed<A> = Good(value: A, pos: nat) | Bad(error: Error)

  /** A maximal run of word characters. */
  ghost predicate WordTok(line: string, t: Tok) {
    && t.q < t.eq <= |line|
    && (forall i :: t.q <= i < t.eq ==> WordChar(line[i]))
    && (t.eq < |line| ==> !WordChar(line[t.eq]))
  }

  ghost predicate Toks(line: string, c: Cmd<Tok>) {
    match c
    case Exec(argv) => forall i :: 0 <= i < |argv| ==> WordTok(line, argv[i])
    case Redir(d, file, mode, fd) => Toks(line, d) && WordTok(line, file)
    case Pipe(l, r) => Toks(line, l) && Toks(line, r)
    case List(l, r) => Toks(line, l) && Toks(line, r)
    case Back(d) => Toks(line, d)
  }

  ghost function Text(line: string, t: Tok): string
  {
    if t.q <= t.eq <= |line| then line[t.q..t.eq] else ""
  }

  ghost function Texts(line: string, ts: seq<Tok>): seq<string> {
    seq(|ts|, i requires 0 <= i < |ts| => Text(line, ts[i]))
  }

  /** The tree with the words themselves in place of their positions. */
  ghost function Words(line: string, c: Cmd<Tok>): Cmd<string> {
    match c
    case Exec(argv) => Exec(Texts(line, argv))
    case Redir(d, file, mode, fd) => Redir(Words(line, d), Text(line, file), mode, fd)
    case Pipe(l, r) => Pipe(Words(line, l), Words(line, r))
    case List(l, r) => List(Words(line, l), Words(line, r))
    case Back(d) => Back(Words(line, d))
  }

  // ---------- tokens ----------

  method SkipSpace(line: string, i: nat) returns (j: nat)
    requires i <= |line|
    ensures i <= j <= |line| && line[j..] == Skip(line[i..])
  {
    j := i;
    while j < |line| && Space(line[j])
      invariant i <= j <= |line| && Skip(line[j..]) == Skip(line[i..])
    {
      assert line[j..][1..] == line[j + 1..];
      j := j + 1;
    }
  }

  /** The text at `i` starts, after blanks, with one of `toks`; the cursor moves past the blanks. */
  method PeekAt(line: string, i: nat, toks: string) returns (yes: bool, j: nat)
    requires i <= |line|
    ensures i <= j <= |line| && line[j..] == Skip(line[i..]) && (yes <==> Peek(line[i..], toks))
  {
    j := SkipSpace(line, i);
    yes := j < |line| && line[j] in toks;
  }

  method WordEnd(line: string, i: nat) returns (j: nat)
    requires i <= |line|
    ensures i <= j <= |line| && line[i..j] == WordOf(line[i..])
    ensures (forall k :: i <= k < j ==> WordChar(line[k])) && (j < |line| ==> !WordChar(line[j]))
  {
    hide WordOf, WordChar;
    j := i;
    while j < |line| && WordChar(line[j])
      invariant i <= j <= |line|
      invariant forall k :: i <= k < j ==> WordChar(line[k])
    {
      j := j + 1;
    }
    assert line[i..] == line[i..j] + line[j..];
    WordOfExact(line[i..j], line[j..]);
  }

  /** The next token, its place in the line, and the cursor after the blanks that follow it. */
  method GetToken(line: string, i: nat) returns (tok: Token, place: Tok, j: nat)
    requires i <= |line|
    ensures i <= j <= |line| && (tok, line[j..]) == Next(line[i..])
    ensures tok.Word? ==> WordTok(line, place) && tok.w == Text(line, place)
  {
    hide WordOf;
    var s := SkipSpace(line, i);
    var e := s;
    if s == |line| {
      tok := End;
    } else if line[s] == '>' && s + 1 < |line| && line[s + 1] == '>' {
      tok, e := Append, s + 2;
      assert line[s..][2..] == line[e..];
    } else if Symbol(line[s]) {
      tok, e := Sym(line[s]), s + 1;
      assert line[s..][1..] == line[e..];
    } else {
      e := WordEnd(line, s);
      tok := Word(line[s..e]);
      assert line[s..][e - s..] == line[e..];
    }
    place := Tok(s, e);
    j := SkipSpace(line, e);
  }

  // ---------- redirections ----------

  ghost function RdText(line: string, rd: Rd<Tok>): Rd<string> { Rd(Text(line, rd.file), rd.mode, rd.fd) }

  ghost function RdTexts(line: string, rds: seq<Rd<Tok>>): (r: seq<Rd<string>>)
    ensures |r| == |rds|
  {
    seq(|rds|, i requires 0 <= i < |rds| => RdText(line, rds[i]))
  }

  ghost predicate RdToks(line: string, rds: seq<Rd<Tok>>) {
    forall i :: 0 <= i < |rds| ==> WordTok(line, rds[i].file)
  }

  lemma {:induction false} WordsWrapped(line: string, c: Cmd<Tok>, rds: seq<Rd<Tok>>)
    requires Toks(line, c) && RdToks(line, rds)
    ensures Toks(line, Wrapped(c, rds)) && Words(line, Wrapped(c, rds)) == Wrapped(Words(line, c), RdTexts(line, rds))
    decreases |rds|
  {
    hide WordTok;
    if rds != [] {
      var front := rds[..|rds| - 1];
      WordsWrapped(line, c, front);
      assert RdTexts(line, rds)[..|rds| - 1] == RdTexts(line, front);
    }
  }

  ghost predicate RedirsAgree(line: string, i: nat, r: Parsed<seq<Rd<Tok>>>, spec: Result<seq<Rd<string>>>) {
    match spec
    case Panic(e) => r == Bad(e)
    case Ok(v, rest) =>
      && r.Good? && i <= r.pos <= |line| && line[r.pos..] == rest
      && RdTexts(line, r.value) == v && RdToks(line, r.value)
  }

  /** What is still to come, with `done` before it. */
  function After(done: seq<Rd<string>>, r: Result<seq<Rd<string>>>): Result<seq<Rd<string>>> {
    if r.Panic? then r else Ok(done + r.value, r.rest)
  }

  lemma AfterNone(r: Result<seq<Rd<string>>>)
    ensures After([], r) == r
  {
    if r.Ok? {
      assert [] + r.value == r.value;
    }
  }

  lemma AfterStep(done: seq<Rd<string>>, s: string, op: Token, s1: string, name: Token, s2: string)
    requires Peek(s, "<>") && Next(s) == (op, s1) && Next(s1) == (name, s2)
    ensures if name.Word? then
              After(done, Redirs(s)) == After(done + [Rd(name.w, ModeOf(op).0, ModeOf(op).1)], Redirs(s2))
            else Redirs(s) == Panic(MissingFile)
  {
    hide Next, Peek;
    if name.Word? && Redirs(s2).Ok? {
      var rd := Rd(name.w, ModeOf(op).0, ModeOf(op).1);
      assert done + ([rd] + Redirs(s2).value) == done + [rd] + Redirs(s2).value;
    }
  }

  method ParseRedirs(line: string, i: nat) returns (r: Parsed<seq<Rd<Tok>>>)
    requires i <= |line|
    ensures RedirsAgree(line, i, r, Redirs(line[i..]))
  {
    hide Next, Peek, WordTok, Skip, Redirs;
    var rds, pos: nat := [], i;
    AfterNone(Redirs(line[i..]));
    while true
      invariant i <= pos <= |line| && RdToks(line, rds)
      invariant After(RdTexts(line, rds), Redirs(line[pos..])) == Redirs(line[i..])
      decreases |line| - pos
    {
      var more, p0 := PeekAt(line, pos, "<>");
      if !more {
        RedirsEnd(RdTexts(line, rds), line[pos..]);
        return Good(rds, p0);
      }
      var op, _, p1 := GetToken(line, pos);
      var name, place, p2 := GetToken(line, p1);
      AfterStep(RdTexts(line, rds), line[pos..], op, line[p1..], name, line[p2..]);
      PeekMoves(line[pos..], "<>");
      if !name.Word? {
        return Bad(MissingFile);
      }
      var rd := Rd(place, ModeOf(op).0, ModeOf(op).1);
      assert RdTexts(line, rds + [rd]) == RdTexts(line, rds) + [RdText(line, rd)];
      rds, pos := rds + [rd], p2;
    }
  }

  lemma RedirsEnd(done: seq<Rd<string>>, s: string)
    requires !Peek(s, "<>")
    ensures After(done, Redirs(s)) == Ok(done, Skip(s))
  {
    assert done + [] == done;
  }

  lemma PeekMoves(s: string, toks: string)
    requires Peek(s, toks)
    ensures |Next(s).1| < |s|
  {
  }

  // ---------- commands ----------

  ghost predicate Agrees(line: string, i: nat, r: Parsed<Cmd<Tok>>, spec: Result<Cmd<string>>) {
    match spec
    case Panic(e) => r == Bad(e)
    case Ok(c, rest) =>
      && r.Good? && i <= r.pos <= |line| && line[r.pos..] == rest
      && Words(line, r.value) == c && Toks(line, r.value)
  }

  /** What has been read is a form of the grammar that binds at least as tightly as level `k`, and the tree is its
      meaning. */
  ghost predicate Reads(line: string, i: nat, r: Parsed<Cmd<Tok>>, k: nat)
    requires i <= |line| && (r.Good? ==> r.pos <= |line|)
  {
    r.Good? ==> exists f ::
      && FormOk(f) && Level(f) <= k && Denotes(f, Words(line, r.value))
      && Tokens(line[i..]) == FormToks(f) + Tokens(line[r.pos..])
  }

  lemma NothingRead(line: string, i: nat, k: nat)
    requires i <= |line|
    ensures forall e :: Reads(line, i, Bad(e), k)
  {
  }

  lemma ReadsExec(line: string, i: nat, r: Parsed<Cmd<Tok>>)
    requires i <= |line| && Agrees(line, i, r, ParseExec(line[i..]))
    ensures Reads(line, i, r, 0)
  {
    hide FormOk, FormToks, Tokens, Denotes, Words, Toks, ParseExec;
    if r.Good? {
      var f := ExecSound(line[i..]);
    }
  }

  lemma ReadsPipe(line: string, i: nat, r: Parsed<Cmd<Tok>>)
    requires i <= |line| && Agrees(line, i, r, ParsePipe(line[i..]))
    ensures Reads(line, i, r, 1)
  {
    hide FormOk, FormToks, Tokens, Denotes, Words, Toks, ParsePipe;
    if r.Good? {
      var f := PipeSound(line[i..]);
    }
  }

  lemma ReadsLine(line: string, i: nat, r: Parsed<Cmd<Tok>>)
    requires i <= |line| && Agrees(line, i, r, ParseLine(line[i..]))
    ensures Reads(line, i, r, 3)
  {
    hide FormOk, FormToks, Tokens, Denotes, Words, Toks, ParseLine;
    if r.Good? {
      var f := LineSound(line[i..]);
    }
  }

  lemma Finish(line: string, argv: seq<Tok>, rds: seq<Rd<Tok>>)
    requires (forall i :: 0 <= i < |argv| ==> WordTok(line, argv[i])) && RdToks(line, rds)
    ensures var c := Wrapped(Exec(argv), rds);
            Toks(line, c) && Words(line, c) == Wrapped(Exec(Texts(line, argv)), RdTexts(line, rds))
  {
    hide WordTok;
    WordsWrapped(line, Exec(argv), rds);
  }

  lemma ArgsUnfold(argv: seq<string>, rds: seq<Rd<string>>, s: string, tok: Token, s1: string)
    requires Next(s) == (tok, s1) && !Peek(s, "|)&;")
    ensures Args(argv, rds, s) ==
            if tok.End? then Ok(Wrapped(Exec(argv), rds), s1)
            else if !tok.Word? then Panic(Syntax)
            else if |argv| + 1 >= MAXARGS then Panic(TooManyArgs)
            else if Redirs(s1).Panic? then Panic(Redirs(s1).error)
            else Args(argv + [tok.w], rds + Redirs(s1).value, Redirs(s1).rest)
  {
    hide Next, Peek, Redirs;
  }

  lemma ArgsEnd(argv: seq<string>, rds: seq<Rd<string>>, s: string)
    requires Peek(s, "|)&;")
    ensures Args(argv, rds, s) == Ok(Wrapped(Exec(argv), rds), Skip(s))
  {
  }

  /** The loop of parseexec. */
  method ParseArgs(line: string, i: nat, first: seq<Rd<Tok>>) returns (r: Parsed<Cmd<Tok>>)
    requires i <= |line| && RdToks(line, first)
    ensures Agrees(line, i, r, Args([], RdTexts(line, first), line[i..]))
  {
    hide Next, Peek, WordTok, Skip, Redirs, Args, Wrapped, Words, Toks;
    var argv: seq<Tok>, rds, pos: nat := [], first, i;
    assert Texts(line, argv) == [];
    while true
      invariant i <= pos <= |line| && RdToks(line, rds) && |argv| < MAXARGS
      invariant forall k :: 0 <= k < |argv| ==> WordTok(line, argv[k])
      invariant Args(Texts(line, argv), RdTexts(line, rds), line[pos..]) == Args([], RdTexts(line, first), line[i..])
      decreases |line| - pos
    {
      Finish(line, argv, rds);
      var stop, p0 := PeekAt(line, pos, "|)&;");
      if stop {
        ArgsEnd(Texts(line, argv), RdTexts(line, rds), line[pos..]);
        return Good(Wrapped(Exec(argv), rds), p0);
      }
      var tok, place, p1 := GetToken(line, pos);
      ArgsUnfold(Texts(line, argv), RdTexts(line, rds), line[pos..], tok, line[p1..]);
      if tok.End? {
        return Good(Wrapped(Exec(argv), rds), p1);
      }
      if !tok.Word? {
        return Bad(Syntax);
      }
      if |argv| + 1 >= MAXARGS {
        return Bad(TooManyArgs);
      }
      var more := ParseRedirs(line, p1);
      if more.Bad? {
        return Bad(more.error);
      }
      assert Texts(line, argv + [place]) == Texts(line, argv) + [tok.w];
      assert RdTexts(line, rds + more.value) == RdTexts(line, rds) + RdTexts(line, more.value);
      NextMoves(line[pos..]);
      argv, rds, pos := argv + [place], rds + more.value, more.pos;
    }
  }

  lemma NextMoves(s: string)
    ensures !Next(s).0.End? ==> |Next(s).1| < |s|
  {
  }

  method ParseExecAt(line: string, i: nat) returns (r: Parsed<Cmd<Tok>>)
    requires i <= |line|
    ensures Agrees(line, i, r, ParseExec(line[i..])) && Reads(line, i, r, 0)
    decreases |line| - i, 1
  {
    hide Next, Peek, Skip, Redirs, Args, ParseBlock, Words, Toks, WordTok, Reads;
    NothingRead(line, i, 0);
    var block, _ := PeekAt(line, i, "(");
    if block {
      r := ParseBlockAt(line, i);
      return;
    }
    var first := ParseRedirs(line, i);
    if first.Bad? {
      return Bad(first.error);
    }
    r := ParseArgs(line, first.pos, first.value);
    ReadsExec(line, i, r);
  }

  method ParseBlockAt(line: string, i: nat) returns (r: Parsed<Cmd<Tok>>)
    requires i <= |line| && Peek(line[i..], "(")
    ensures Agrees(line, i, r, ParseBlock(line[i..])) && Reads(line, i, r, 0)
    decreases |line| - i, 0
  {
    hide Next, Peek, Skip, Redirs, ParseLine, Words, Toks, WordTok, Wrapped, Reads;
    NothingRead(line, i, 0);
    PeekMoves(line[i..], "(");
    var _, _, p1 := GetToken(line, i);
    var inner := ParseLineAt(line, p1);
    if inner.Bad? {
      return inner;
    }
    var close, _ := PeekAt(line, inner.pos, ")");
    if !close {
      return Bad(MissingParen);
    }
    var _, _, p2 := GetToken(line, inner.pos);
    var after := ParseRedirs(line, p2);
    if after.Bad? {
      return Bad(after.error);
    }
    WordsWrapped(line, inner.value, after.value);
    r := Good(Wrapped(inner.value, after.value), after.pos);
    ReadsExec(line, i, r);
  }

  method ParsePipeAt(line: string, i: nat) returns (r: Parsed<Cmd<Tok>>)
    requires i <= |line|
    ensures Agrees(line, i, r, ParsePipe(line[i..])) && Reads(line, i, r, 1)
    decreases |line| - i, 2
  {
    hide Next, Peek, Skip, ParseExec, WordTok, Reads;
    NothingRead(line, i, 1);
    r := ParseExecAt(line, i);
    if r.Bad? {
      return;
    }
    var bar, _ := PeekAt(line, r.pos, "|");
    if bar {
      PeekMoves(line[r.pos..], "|");
      var _, _, p1 := GetToken(line, r.pos);
      var right := ParsePipeAt(line, p1);
      r := if right.Bad? then right else Good(Pipe(r.value, right.value), right.pos);
    }
    ReadsPipe(line, i, r);
  }

  method ParseLineAt(line: string, i: nat) returns (r: Parsed<Cmd<Tok>>)
    requires i <= |line|
    ensures Agrees(line, i, r, ParseLine(line[i..])) && Reads(line, i, r, 3)
    decreases |line| - i, 3
  {
    hide Next, Peek, Skip, ParsePipe, WordTok, Backs, Reads;
    NothingRead(line, i, 3);
    r := ParsePipeAt(line, i);
    if r.Bad? {
      return;
    }
    var c, pos := ParseBacks(line, r.pos, r.value);
    var semi, _ := PeekAt(line, pos, ";");
    if !semi {
      r := Good(c, pos);
      ReadsLine(line, i, r);
      return;
    }
    PeekMoves(line[pos..], ";");
    var _, _, p1 := GetToken(line, pos);
    var more := ParseLineAt(line, p1);
    r := if more.Bad? then more else Good(List(c, more.value), more.pos);
    ReadsLine(line, i, r);
  }

  /** The loop over `&`. */
  method ParseBacks(line: string, i: nat, c0: Cmd<Tok>) returns (c: Cmd<Tok>, pos: nat)
    requires i <= |line| && Toks(line, c0)
    ensures i <= pos <= |line| && Toks(line, c) && (Words(line, c), line[pos..]) == Backs(Words(line, c0), line[i..])
  {
    hide Next, Peek, Skip, WordTok, Backs;
    c, pos := c0, i;
    while true
      invariant i <= pos <= |line| && Toks(line, c)
      invariant Backs(Words(line, c), line[pos..]) == Backs(Words(line, c0), line[i..])
      decreases |line| - pos
    {
      var amp, p0 := PeekAt(line, pos, "&");
      BacksUnfold(Words(line, c), line[pos..]);
      if !amp {
        return c, p0;
      }
      PeekMoves(line[pos..], "&");
      var _, _, p1 := GetToken(line, pos);
      c, pos := Back(c), p1;
    }
  }

  lemma BacksUnfold(c: Cmd<string>, s: string)
    ensures Backs(c, s) == if Peek(s, "&") then Backs(Back(c), Next(s).1) else (c, Skip(s))
  {
  }

  // ---------- ending the tokens in place ----------

  /** Some word of the tree ends at `k`. */
  ghost predicate IsEnd(c: Cmd<Tok>, k: nat) {
    match c
    case Exec(argv) => exists i :: 0 <= i < |argv| && argv[i].eq == k
    case Redir(d, file, mode, fd) => IsEnd(d, k) || k == file.eq
    case Pipe(l, r) => IsEnd(l, k) || IsEnd(r, k)
    case List(l, r) => IsEnd(l, k) || IsEnd(r, k)
    case Back(d) => IsEnd(d, k)
  }

  ghost predicate Within(c: Cmd<Tok>, n: nat) {
    match c
    case Exec(argv) => forall i :: 0 <= i < |argv| ==> argv[i].eq < n
    case Redir(d, file, mode, fd) => Within(d, n) && file.eq < n
    case Pipe(l, r) => Within(l, n) && Within(r, n)
    case List(l, r) => Within(l, n) && Within(r, n)
    case Back(d) => Within(d, n)
  }

  /** The end of every token of the tree, and no other place in the buffer, is overwritten by a zero. */
  method NulTerminate(c: Cmd<Tok>, buf: array<char>)
    requires Within(c, buf.Length)
    modifies buf
    ensures forall k :: 0 <= k < buf.Length ==> buf[k] == if IsEnd(c, k) then '\0' else old(buf[k])
    decreases c
  {
    match c
    case Exec(argv) =>
      var i := 0;
      while i < |argv|
        invariant 0 <= i <= |argv|
        invariant forall k :: 0 <= k < buf.Length ==>
                    buf[k] == if (exists j :: 0 <= j < i && argv[j].eq == k) then '\0' else old(buf[k])
      {
        buf[argv[i].eq] := '\0';
        i := i + 1;
      }
    case Redir(d, file, mode, fd) =>
      NulTerminate(d, buf);
      buf[file.eq] := '\0';
    case Pipe(l, r) =>
      NulTerminate(l, buf);
      NulTerminate(r, buf);
    case List(l, r) =>
      NulTerminate(l, buf);
      NulTerminate(r, buf);
    case Back(d) =>
      NulTerminate(d, buf);
  }

  /** The string that starts at `q` in memory. */
  function CString(m: seq<char>, q: nat): string
    decreases |m| - q
  {
    if q >= |m| || m[q] == '\0' then "" else [m[q]] + CString(m, q + 1)
  }

  ghost predicate HasTok(c: Cmd<Tok>, t: Tok) {
    match c
    case Exec(argv) => t in argv
    case Redir(d, file, mode, fd) => t == file || HasTok(d, t)
    case Pipe(l, r) => HasTok(l, t) || HasTok(r, t)
    case List(l, r) => HasTok(l, t) || HasTok(r, t)
    case Back(d) => HasTok(d, t)
  }

  /** A tree's ends are ends of word tokens, so none falls inside a word. */
  lemma {:induction false} EndsOutside(line: string, c: Cmd<Tok>, e: nat)
    requires Toks(line, c) && IsEnd(c, e)
    ensures e <= |line| && (e < |line| ==> !WordChar(line[e]))
    decreases c
  {
    match c
    case Exec(argv) =>
      var i :| 0 <= i < |argv| && argv[i].eq == e;
      assert WordTok(line, argv[i]);
    case Redir(d, file, mode, fd) => if IsEnd(d, e) { EndsOutside(line, d, e); }
    case Pipe(l, r) => if IsEnd(l, e) { EndsOutside(line, l, e); } else { EndsOutside(line, r, e); }
    case List(l, r) => if IsEnd(l, e) { EndsOutside(line, l, e); } else { EndsOutside(line, r, e); }
    case Back(d) => EndsOutside(line, d, e);
  }

  lemma {:induction false} TokEnds(line: string, c: Cmd<Tok>, t: Tok)
    requires Toks(line, c) && HasTok(c, t)
    ensures WordTok(line, t) && IsEnd(c, t.eq)
    decreases c
  {
    match c
    case Exec(argv) =>
      var i :| 0 <= i < |argv| && argv[i] == t;
      assert WordTok(line, argv[i]);
    case Redir(d, file, mode, fd) => if t != file { TokEnds(line, d, t); }
    case Pipe(l, r) => if HasTok(l, t) { TokEnds(line, l, t); } else { TokEnds(line, r, t); }
    case List(l, r) => if HasTok(l, t) { TokEnds(line, l, t); } else { TokEnds(line, r, t); }
    case Back(d) => TokEnds(line, d, t);
  }

  /** Memory after nulterminate: the line with its terminator, and a NUL at every token's end. */
  ghost predicate Ended(line: string, c: Cmd<Tok>, m: seq<char>) {
    && |m| > |line| && m[|line|] == '\0'
    && forall k :: 0 <= k < |line| ==> m[k] == if IsEnd(c, k) then '\0' else line[k]
  }

  /** Every word of the tree, read up to its NUL, is exactly its token: no terminator has hit another word. */
  lemma TokensReadBack(line: string, c: Cmd<Tok>, m: seq<char>, t: Tok)
    requires Toks(line, c) && HasTok(c, t) && Ended(line, c, m) && '\0' !in line
    ensures CString(m, t.q) == Text(line, t)
  {
    hide Toks, HasTok, IsEnd, Text;
    TokEnds(line, c, t);
    forall k | t.q <= k < t.eq
      ensures m[k] == line[k] != '\0'
    {
      if IsEnd(c, k) { EndsOutside(line, c, k); }
    }
    ReadUpTo(line, m, t.q, t.eq);
    TextIs(line, t);
  }

  lemma TextIs(line: string, t: Tok)
    requires t.q <= t.eq <= |line|
    ensures Text(line, t) == line[t.q..t.eq]
  {
  }

  lemma {:induction false} ReadUpTo(line: string, m: seq<char>, q: nat, e: nat)
    requires q <= e <= |line| && e < |m| && m[e] == '\0' && forall k :: q <= k < e ==> m[k] == line[k] != '\0'
    ensures CString(m, q) == line[q..e]
    decreases e - q
  {
    if q < e {
      ReadUpTo(line, m, q + 1, e);
      assert line[q..e] == [line[q]] + line[q + 1..e];
    }
  }

  /** parsecmd on a line of `n` characters in `buf`: the tree the grammar gives, and its words ended in place. */
  method ParseCmd(buf: array<char>, n: nat) returns (r: Parsed<Cmd<Tok>>)
    requires n < buf.Length && buf[n] == '\0' && '\0' !in buf[..n]
    modifies buf
    ensures match Parse(old(buf[..n]))
            case Panic(e) => r == Bad(e)
            case Ok(c, rest) =>
              && r.Good? && Words(old(buf[..n]), r.value) == c && Toks(old(buf[..n]), r.value)
              && Ended(old(buf[..n]), r.value, buf[..])
              && forall t :: HasTok(r.value, t) ==> CString(buf[..], t.q) == Text(old(buf[..n]), t)
    ensures r.Good? <==> exists f :: FormOk(f) && FormToks(f) == Tokens(old(buf[..n]))
    ensures forall f :: FormOk(f) && FormToks(f) == Tokens(old(buf[..n])) ==> Denotes(f, Words(old(buf[..n]), r.value))
  {
    hide FormOk, FormToks, Tokens, Denotes, Words, Toks, HasTok, IsEnd, Text, ParseLine, Skip, WordTok, CString;
    var line := buf[..n];
    assert line[0..] == line;
    ByGrammar(line);
    r := ParseLineAt(line, 0);
    if r.Bad? {
      return;
    }
    var pos := SkipSpace(line, r.pos);
    if pos != n {
      return Bad(Syntax);
    }
    EndsWithin(line, r.value);
    WithinMore(r.value, n + 1, buf.Length);
    NulTerminate(r.value, buf);
    assert Ended(line, r.value, buf[..]) by {
      NulAtEnd(line, r.value, buf[..]);
    }
    forall t | HasTok(r.value, t)
      ensures CString(buf[..], t.q) == Text(line, t)
    {
      TokensReadBack(line, r.value, buf[..], t);
    }
  }

  lemma ByGrammar(line: string)
    ensures Parse(line).Ok? <==> exists f :: FormOk(f) && FormToks(f) == Tokens(line)
    ensures forall f :: FormOk(f) && FormToks(f) == Tokens(line) ==> Denotes(f, Parse(line).value)
  {
    hide FormOk, FormToks, Tokens, Denotes, Parse;
    AcceptsExactly(line);
    forall f | FormOk(f) && FormToks(f) == Tokens(line)
      ensures Parse(line).Ok? && Denotes(f, Parse(line).value)
    {
      FormParses(f, line);
    }
  }

  lemma {:induction false} EndsWithin(line: string, c: Cmd<Tok>)
    requires Toks(line, c)
    ensures Within(c, |line| + 1)
    decreases c
  {
    match c
    case Exec(argv) =>
    case Redir(d, file, mode, fd) => EndsWithin(line, d);
    case Pipe(l, r) =>
      EndsWithin(line, l);
      EndsWithin(line, r);
    case List(l, r) =>
      EndsWithin(line, l);
      EndsWithin(line, r);
    case Back(d) => EndsWithin(line, d);
  }

  lemma {:induction false} WithinMore(c: Cmd<Tok>, n: nat, m: nat)
    requires Within(c, n) && n <= m
    ensures Within(c, m)
    decreases c
  {
    match c
    case Exec(argv) =>
    case Redir(d, file, mode, fd) => WithinMore(d, n, m);
    case Pipe(l, r) =>
      WithinMore(l, n, m);
      WithinMore(r, n, m);
    case List(l, r) =>
      WithinMore(l, n, m);
      WithinMore(r, n, m);
    case Back(d) => WithinMore(d, n, m);
  }

  lemma NulAtEnd(line: string, c: Cmd<Tok>, m: seq<char>)
    requires |m| > |line| && (m[|line|] == '\0')
    requires forall k :: 0 <= k < |line| ==> m[k] == if IsEnd(c, k) then '\0' else line[k]
    ensures Ended(line, c, m)
  {
  }
}
