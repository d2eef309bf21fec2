/** The shell's command language as a grammar over tokens, written apart from the parser: the parser accepts exactly
    this language and builds the tree the grammar assigns. */
module ShellGrammar {
  import opened ShellSpec

  /** The line as the parser's lexer splits it. */
  function Tokens(s: string): (ts: seq<Token>)
    decreases |s|
  {
    var (tok, rest) := Next(s);
    if tok.End? then [] else [tok] + Tokens(rest)
  }

  // ---------- the grammar ----------

  /** A redirection as it is written, and a word with the redirections behind it. */
  datatype Rdr = Rdr(op: Token, file: string)
  datatype Arg = Arg(word: string, rds: seq<Rdr>)

  /** What can be written: a simple command with redirections anywhere, a block with redirections behind it, a
      pipeline, a command in the background, a list. */
  datatype Form =
    | Simple(lead: seq<Rdr>, args: seq<Arg>)
    | Group(body: Form, rds: seq<Rdr>)
    | Bar(left: Form, right: Form)
    | Amp(body: Form)
    | Semi(left: Form, right: Form)

  predicate RdrsOk(rds: seq<Rdr>) {
    forall i :: 0 <= i < |rds| ==> rds[i].op == Sym('<') || rds[i].op == Sym('>') || rds[i].op == Append
  }

  predicate ArgsOk(args: seq<Arg>) { forall i :: 0 <= i < |args| ==> RdrsOk(args[i].rds) }

  /** How loosely the form binds. */
  function Level(f: Form): nat {
    match f
    case Simple(_, _) => 0
    case Group(_, _) => 0
    case Bar(_, _) => 1
    case Amp(_) => 2
    case Semi(_, _) => 3
  }

  /** `|` binds tighter than `&`, which binds tighter than `;`; `|` and `;` group to the right; a simple command has at
      most nine words. */
  predicate FormOk(f: Form) {
    match f
    case Simple(lead, args) => RdrsOk(lead) && ArgsOk(args) && |args| <= 9
    case Group(b, rds) => FormOk(b) && RdrsOk(rds)
    case Bar(l, r) => FormOk(l) && FormOk(r) && Level(l) == 0 && Level(r) <= 1
    case Amp(b) => FormOk(b) && Level(b) <= 2
    case Semi(l, r) => FormOk(l) && FormOk(r) && Level(l) <= 2
  }

  function RdrToks(rds: seq<Rdr>): seq<Token> {
    if rds == [] then [] else [rds[0].op, Word(rds[0].file)] + RdrToks(rds[1..])
  }

  function ArgToks(args: seq<Arg>): seq<Token> {
    if args == [] then [] else [Word(args[0].word)] + RdrToks(args[0].rds) + ArgToks(args[1..])
  }

  /** The form written out. */
  function FormToks(f: Form): seq<Token> {
    match f
    case Simple(lead, args) => RdrToks(lead) + ArgToks(args)
    case Group(b, rds) => [Sym('(')] + FormToks(b) + [Sym(')')] + RdrToks(rds)
    case Bar(l, r) => FormToks(l) + [Sym('|')] + FormToks(r)
    case Amp(b) => FormToks(b) + [Sym('&')]
    case Semi(l, r) => FormToks(l) + [Sym(';')] + FormToks(r)
  }

  // ---------- the tree of a form ----------

  function WordsOf(args: seq<Arg>): seq<string> {
    if args == [] then [] else [args[0].word] + WordsOf(args[1..])
  }

  /** All redirections of a command, from left to right. */
  function RdrsOf(args: seq<Arg>): seq<Rdr> {
    if args == [] then [] else args[0].rds + RdrsOf(args[1..])
  }

  /** The outermost layers of the tree are the redirections, the last one outermost: `<` opens descriptor 0 for
      reading, `>` and `>>` alike open descriptor 1 for writing. */
  predicate Layers(c: Cmd<string>, rds: seq<Rdr>)
    decreases |rds|
  {
    rds == []
    || (var last := rds[|rds| - 1];
        && c.Redir? && c.file == last.file
        && (c.mode, c.fd) == (if last.op == Sym('<') then (0, 0) else (0x201, 1))
        && Layers(c.cmd, rds[..|rds| - 1]))
  }

  /** The tree under its `n` outermost redirections. */
  function Peel(c: Cmd<string>, n: nat): Cmd<string>
    decreases n
  {
    if n == 0 || !c.Redir? then c else Peel(c.cmd, n - 1)
  }

  /** The tree `c` is the meaning of `f`. */
  predicate Denotes(f: Form, c: Cmd<string>)
    decreases f
  {
    match f
    case Simple(lead, args) =>
      Layers(c, lead + RdrsOf(args)) && Peel(c, |lead + RdrsOf(args)|) == Exec(WordsOf(args))
    case Group(b, rds) => Layers(c, rds) && Denotes(b, Peel(c, |rds|))
    case Bar(l, r) => c.Pipe? && Denotes(l, c.left) && Denotes(r, c.right)
    case Amp(b) => c.Back? && Denotes(b, c.cmd)
    case Semi(l, r) => c.List? && Denotes(l, c.left) && Denotes(r, c.right)
  }

  lemma {:induction false} LayersOne(c: Cmd<string>, d: Cmd<string>, rds: seq<Rdr>)
    requires Layers(c, rds) && Layers(d, rds) && Peel(c, |rds|) == Peel(d, |rds|)
    ensures c == d
    decreases |rds|
  {
    if rds != [] {
      LayersOne(c.cmd, d.cmd, rds[..|rds| - 1]);
    }
  }

  /** A form has one meaning. */
  lemma {:induction false} DenotesOne(f: Form, c: Cmd<string>, d: Cmd<string>)
    requires Denotes(f, c) && Denotes(f, d)
    ensures c == d
    decreases f
  {
    hide Layers, Peel;
    match f
    case Simple(lead, args) => LayersOne(c, d, lead + RdrsOf(args));
    case Group(b, rds) =>
      DenotesOne(b, Peel(c, |rds|), Peel(d, |rds|));
      LayersOne(c, d, rds);
    case Bar(l, r) =>
      DenotesOne(l, c.left, d.left);
      DenotesOne(r, c.right, d.right);
    case Amp(b) => DenotesOne(b, c.cmd, d.cmd);
    case Semi(l, r) =>
      DenotesOne(l, c.left, d.left);
      DenotesOne(r, c.right, d.right);
  }

  /** The parser's wrapping puts the redirections around the command in order. */
  lemma {:induction false} WrappedLayers(c: Cmd<string>, rds: seq<Rdr>, vs: seq<Rd<string>>)
    requires Matches(rds, vs)
    ensures Layers(Wrapped(c, vs), rds) && Peel(Wrapped(c, vs), |rds|) == c
    decreases |rds|
  {
    if rds != [] {
      var n := |rds| - 1;
      MatchesFront(rds, vs);
      WrappedLayers(c, rds[..n], vs[..n]);
    }
  }

  // ---------- redirections as the parser holds them ----------

  predicate Same(rd: Rdr, v: Rd<string>) {
    v == Rd(rd.file, if rd.op == Sym('<') then 0 else 0x201, if rd.op == Sym('<') then 0 else 1)
  }

  predicate Matches(rds: seq<Rdr>, vs: seq<Rd<string>>) {
    |rds| == |vs| && forall i :: 0 <= i < |rds| ==> Same(rds[i], vs[i])
  }

  lemma MatchesFront(rds: seq<Rdr>, vs: seq<Rd<string>>)
    requires Matches(rds, vs) && rds != []
    ensures var n := |rds| - 1;
            Matches(rds[..n], vs[..n]) && Same(rds[n], vs[n])
  {
  }

  lemma MatchesNone()
    ensures Matches([], [])
  {
  }

  lemma MatchesBoth(rds: seq<Rdr>, vs: seq<Rd<string>>, more: seq<Rdr>, ws: seq<Rd<string>>)
    requires Matches(rds, vs) && Matches(more, ws)
    ensures Matches(rds + more, vs + ws)
  {
  }

  // ---------- tokens and the parser's tests ----------

  lemma Head(s: string)
    ensures Tokens(s) == [] <==> Next(s).0.End?
    ensures Tokens(s) != [] ==> Next(s).0 == Tokens(s)[0] && Tokens(Next(s).1) == Tokens(s)[1..]
  {
  }

  lemma TokensSkip(s: string)
    ensures Tokens(Skip(s)) == Tokens(s)
  {
    assert Skip(Skip(s)) == Skip(s);
    assert Next(Skip(s)) == Next(s);
  }

  /** The tokens start with one of the symbols `x`. */
  predicate Starts(ts: seq<Token>, x: string) {
    ts != [] && ((ts[0].Sym? && ts[0].c in x) || (ts[0].Append? && '>' in x))
  }

  lemma PeekStarts(s: string, x: string)
    requires forall c :: c in x ==> Symbol(c)
    ensures Peek(s, x) <==> Starts(Tokens(s), x)
  {
  }

  /** Where a command may end. */
  predicate Ends(ts: seq<Token>, x: string) { ts == [] || Starts(ts, x) }

  // ---------- a form and what follows it, regrouped ----------

  lemma RdrText(rds: seq<Rdr>, more: seq<Token>)
    ensures RdrToks(rds) + more ==
            if rds == [] then more else [rds[0].op] + ([Word(rds[0].file)] + (RdrToks(rds[1..]) + more))
  {
  }

  lemma ArgText(args: seq<Arg>, more: seq<Token>)
    ensures ArgToks(args) + more ==
            if args == [] then more
            else [Word(args[0].word)] + (RdrToks(args[0].rds) + (ArgToks(args[1..]) + more))
  {
    hide RdrToks;
    if args != [] {
      var front, rest := [Word(args[0].word)] + RdrToks(args[0].rds), ArgToks(args[1..]);
      assert front + rest + more == front + (rest + more);
    }
  }

  lemma FormText(f: Form, more: seq<Token>)
    ensures FormToks(f) + more ==
            match f
            case Simple(lead, args) => RdrToks(lead) + (ArgToks(args) + more)
            case Group(b, rds) => [Sym('(')] + (FormToks(b) + ([Sym(')')] + (RdrToks(rds) + more)))
            case Bar(l, r) => FormToks(l) + ([Sym('|')] + (FormToks(r) + more))
            case Amp(b) => FormToks(b) + ([Sym('&')] + more)
            case Semi(l, r) => FormToks(l) + ([Sym(';')] + (FormToks(r) + more))
  {
    hide RdrToks, ArgToks;
    match f
    case Simple(lead, args) =>
    case Group(b, rds) =>
      var front, back := [Sym('(')] + FormToks(b), RdrToks(rds) + more;
      assert front + [Sym(')')] + RdrToks(rds) + more == front + ([Sym(')')] + back);
    case Bar(l, r) =>
    case Amp(b) =>
    case Semi(l, r) =>
  }

  // ---------- every form is accepted, with its tree ----------

  lemma {:induction false} RedirsComplete(rds: seq<Rdr>, s: string, more: seq<Token>)
    requires Tokens(s) == RdrToks(rds) + more && RdrsOk(rds) && !Starts(more, "<>")
    ensures Redirs(s).Ok? && Matches(rds, Redirs(s).value) && Tokens(Redirs(s).rest) == more
    decreases |rds|
  {
    hide RdrToks, ArgToks, Skip, Next, Peek, Tokens;
    PeekStarts(s, "<>");
    Head(s);
    RdrText(rds, more);
    if rds == [] {
      TokensSkip(s);
    } else {
      var s1 := Next(s).1;
      Head(s1);
      RedirsComplete(rds[1..], Next(s1).1, more);
    }
  }

  lemma {:induction false} ArgsComplete(argv: seq<string>, vs: seq<Rd<string>>, args: seq<Arg>, s: string, more: seq<Token>)
    returns (ws: seq<Rd<string>>)
    requires Tokens(s) == ArgToks(args) + more && ArgsOk(args) && |argv| + |args| <= 9 && Ends(more, "|)&;")
    ensures Matches(RdrsOf(args), ws)
    ensures var r := Args(argv, vs, s);
            r.Ok? && r.value == Wrapped(Exec(argv + WordsOf(args)), vs + ws) && Tokens(r.rest) == more
    decreases |args|
  {
    hide Matches, RdrsOk, RdrToks, ArgToks, Skip, Next, Peek, Tokens, Redirs, Wrapped;
    PeekStarts(s, "|)&;");
    Head(s);
    ArgText(args, more);
    if args == [] {
      ws := [];
      MatchesNone();
      assert argv + WordsOf(args) == argv && vs + ws == vs;
      TokensSkip(s);
      if !Peek(s, "|)&;") { Head(Next(s).1); EndIsEmpty(s); }
    } else {
      var s1, rest := Next(s).1, ArgToks(args[1..]) + more;
      assert !Starts(rest, "<>") by { ArgsStart(args[1..], more); }
      RedirsComplete(args[0].rds, s1, rest);
      var now := Redirs(s1).value;
      var later := ArgsComplete(argv + [args[0].word], vs + now, args[1..], Redirs(s1).rest, more);
      ws := now + later;
      MatchesBoth(args[0].rds, now, RdrsOf(args[1..]), later);
      assert argv + [args[0].word] + WordsOf(args[1..]) == argv + WordsOf(args);
      assert vs + now + later == vs + ws;
    }
  }

  lemma EndIsEmpty(s: string)
    ensures Next(s).0.End? ==> Next(s).1 == "" && Tokens("") == []
  {
  }

  lemma ArgsStart(args: seq<Arg>, more: seq<Token>)
    requires Ends(more, "|)&;")
    ensures !Starts(ArgToks(args) + more, "<>") && !Starts(ArgToks(args) + more, "(")
  {
    if args == [] {
      assert ArgToks(args) + more == more;
    }
  }

  lemma LeadStart(lead: seq<Rdr>, ts: seq<Token>)
    requires RdrsOk(lead) && !Starts(ts, "(")
    ensures !Starts(RdrToks(lead) + ts, "(")
  {
    if lead == [] {
      assert RdrToks(lead) + ts == ts;
    }
  }

  lemma SimpleComplete(lead: seq<Rdr>, args: seq<Arg>, s: string, more: seq<Token>)
    requires FormOk(Simple(lead, args)) && Tokens(s) == FormToks(Simple(lead, args)) + more && Ends(more, "|)&;")
    ensures var r := ParseExec(s);
            r.Ok? && Denotes(Simple(lead, args), r.value) && Tokens(r.rest) == more
  {
    hide RdrToks, ArgToks, RdrsOk, ArgsOk, Matches, FormToks, Skip, Next, Peek, Tokens, Redirs, Wrapped, Args;
    hide Layers, Peel, ParseBlock;
    var rest := ArgToks(args) + more;
    FormText(Simple(lead, args), more);
    ArgsStart(args, more);
    LeadStart(lead, rest);
    PeekStarts(s, "(");
    RedirsComplete(lead, s, rest);
    var first := Redirs(s);
    var ws := ArgsComplete([], first.value, args, first.rest, more);
    assert [] + WordsOf(args) == WordsOf(args);
    MatchesBoth(lead, first.value, RdrsOf(args), ws);
    WrappedLayers(Exec(WordsOf(args)), lead + RdrsOf(args), first.value + ws);
  }

  lemma {:induction false} GroupComplete(b: Form, rds: seq<Rdr>, s: string, more: seq<Token>)
    requires FormOk(Group(b, rds)) && Tokens(s) == FormToks(Group(b, rds)) + more && Ends(more, "|)&;")
    ensures var r := ParseExec(s);
            r.Ok? && Denotes(Group(b, rds), r.value) && Tokens(r.rest) == more
    decreases b, 5
  {
    hide FormToks, Skip, Next, Peek, Tokens, Redirs, Wrapped, Args, Layers, Peel, ParseLine;
    var back := [Sym(')')] + (RdrToks(rds) + more);
    FormText(Group(b, rds), more);
    PeekStarts(s, "(");
    Head(s);
    var s1 := Next(s).1;
    LineComplete(b, s1, back);
    var inner := ParseLine(s1);
    PeekStarts(inner.rest, ")");
    Head(inner.rest);
    var s2 := Next(inner.rest).1;
    assert Tokens(s2) == RdrToks(rds) + more;
    RedirsComplete(rds, s2, more);
    WrappedLayers(inner.value, rds, Redirs(s2).value);
  }

  lemma {:induction false} PipeComplete(f: Form, s: string, more: seq<Token>)
    requires FormOk(f) && Level(f) <= 1 && Tokens(s) == FormToks(f) + more && Ends(more, ")&;")
    ensures var r := ParsePipe(s);
            r.Ok? && Denotes(f, r.value) && Tokens(r.rest) == more
    decreases f, 1
  {
    hide FormToks, Skip, Next, Peek, Tokens, ParseExec, Layers, Peel;
    match f
    case Simple(lead, args) =>
      SimpleComplete(lead, args, s, more);
      PeekStarts(ParseExec(s).rest, "|");
    case Group(b, rds) =>
      GroupComplete(b, rds, s, more);
      PeekStarts(ParseExec(s).rest, "|");
    case Bar(l, r) =>
      var back := [Sym('|')] + (FormToks(r) + more);
      FormText(f, more);
      if l.Simple? { SimpleComplete(l.lead, l.args, s, back); } else { GroupComplete(l.body, l.rds, s, back); }
      var left := ParseExec(s);
      PeekStarts(left.rest, "|");
      Head(left.rest);
      PipeComplete(r, Next(left.rest).1, more);
  }

  /** A pipeline and the `&` behind it: the parser's loop over `&` passes through the tree of the form. */
  lemma {:induction false} BacksComplete(f: Form, s: string, more: seq<Token>) returns (c: Cmd<string>, t: string)
    requires FormOk(f) && Level(f) <= 2 && Tokens(s) == FormToks(f) + more && Ends(more, ")&;")
    ensures Denotes(f, c) && Tokens(t) == more
    ensures ParsePipe(s).Ok? && Backs(ParsePipe(s).value, ParsePipe(s).rest) == Backs(c, t)
    decreases f, 2
  {
    hide FormToks, Skip, Next, Peek, Tokens, ParsePipe, Layers, Peel, Backs;
    if f.Amp? {
      FormText(f, more);
      var d, u := BacksComplete(f.body, s, [Sym('&')] + more);
      PeekStarts(u, "&");
      Head(u);
      c, t := Back(d), Next(u).1;
      BacksStep(d, u);
    } else {
      PipeComplete(f, s, more);
      c, t := ParsePipe(s).value, ParsePipe(s).rest;
    }
  }

  lemma BacksStep(c: Cmd<string>, s: string)
    ensures Backs(c, s) == if Peek(s, "&") then Backs(Back(c), Next(s).1) else (c, Skip(s))
  {
  }

  lemma {:induction false} LineComplete(f: Form, s: string, more: seq<Token>)
    requires FormOk(f) && Tokens(s) == FormToks(f) + more && Ends(more, ")")
    ensures var r := ParseLine(s);
            r.Ok? && Denotes(f, r.value) && Tokens(r.rest) == more
    decreases f, 3
  {
    hide FormToks, Skip, Next, Peek, Tokens, ParsePipe, Layers, Peel, Backs;
    var head, back := f, more;
    if f.Semi? {
      head, back := f.left, [Sym(';')] + (FormToks(f.right) + more);
      FormText(f, more);
    }
    var c, t := BacksComplete(head, s, back);
    PeekStarts(t, "&");
    BacksStep(c, t);
    TokensSkip(t);
    PeekStarts(Skip(t), ";");
    if f.Semi? {
      Head(Skip(t));
      LineComplete(f.right, Next(Skip(t)).1, more);
    }
  }

  // ---------- whatever is accepted is a form ----------

  lemma {:induction false} RedirsSound(s: string) returns (rds: seq<Rdr>)
    requires Redirs(s).Ok?
    ensures RdrsOk(rds) && Matches(rds, Redirs(s).value) && Tokens(s) == RdrToks(rds) + Tokens(Redirs(s).rest)
    decreases |s|
  {
    hide RdrToks, ArgToks, Skip, Next, Peek, Tokens;
    PeekStarts(s, "<>");
    Head(s);
    if !Peek(s, "<>") {
      rds := [];
      TokensSkip(s);
      RdrText(rds, Tokens(s));
    } else {
      var (op, s1) := Next(s);
      var (name, s2) := Next(s1);
      Head(s1);
      var more := RedirsSound(s2);
      rds := [Rdr(op, name.w)] + more;
      assert rds[1..] == more;
      assert Tokens(s) == [op] + Tokens(s1) && Tokens(s1) == [name] + Tokens(s2);
      RdrText(rds, Tokens(Redirs(s).rest));
    }
  }

  lemma {:induction false} ArgsSound(argv: seq<string>, vs: seq<Rd<string>>, s: string)
    returns (args: seq<Arg>, ws: seq<Rd<string>>)
    requires Args(argv, vs, s).Ok? && |argv| <= 9
    ensures var r := Args(argv, vs, s);
            && ArgsOk(args) && |argv| + |args| <= 9 && Matches(RdrsOf(args), ws)
            && r.value == Wrapped(Exec(argv + WordsOf(args)), vs + ws) && Tokens(s) == ArgToks(args) + Tokens(r.rest)
    decreases |s|
  {
    hide Matches, RdrsOk, RdrToks, ArgToks, Skip, Next, Peek, Tokens, Redirs, Wrapped;
    Head(s);
    if Peek(s, "|)&;") || Next(s).0.End? {
      args, ws := [], [];
      MatchesNone();
      assert argv + WordsOf(args) == argv && vs + ws == vs;
      TokensSkip(s);
      EndIsEmpty(s);
      ArgText(args, Tokens(s));
    } else {
      var (tok, s1) := Next(s);
      var now := Redirs(s1);
      var rds := RedirsSound(s1);
      var later, more := ArgsSound(argv + [tok.w], vs + now.value, now.rest);
      args, ws := [Arg(tok.w, rds)] + later, now.value + more;
      assert args[1..] == later;
      MatchesBoth(rds, now.value, RdrsOf(later), more);
      assert argv + [tok.w] + WordsOf(later) == argv + WordsOf(args);
      assert vs + now.value + more == vs + ws;
      ArgText(args, Tokens(Args(argv, vs, s).rest));
    }
  }

  lemma {:induction false} ExecSound(s: string) returns (f: Form)
    requires ParseExec(s).Ok?
    ensures FormOk(f) && Level(f) == 0 && Denotes(f, ParseExec(s).value)
    ensures Tokens(s) == FormToks(f) + Tokens(ParseExec(s).rest)
    decreases |s|, 1
  {
    hide FormToks, Skip, Next, Peek, Tokens, Redirs, Wrapped, Args, Layers, Peel, ParseLine;
    if Peek(s, "(") {
      f := BlockSound(s);
    } else {
      var first := Redirs(s);
      var lead := RedirsSound(s);
      var args, ws := ArgsSound([], first.value, first.rest);
      f := Simple(lead, args);
      assert [] + WordsOf(args) == WordsOf(args);
      MatchesBoth(lead, first.value, RdrsOf(args), ws);
      WrappedLayers(Exec(WordsOf(args)), lead + RdrsOf(args), first.value + ws);
      FormText(f, Tokens(ParseExec(s).rest));
    }
  }

  lemma {:induction false} BlockSound(s: string) returns (f: Form)
    requires Peek(s, "(") && ParseBlock(s).Ok?
    ensures FormOk(f) && Level(f) == 0 && Denotes(f, ParseBlock(s).value)
    ensures Tokens(s) == FormToks(f) + Tokens(ParseBlock(s).rest)
    decreases |s|, 0
  {
    hide Denotes, FormOk, RdrToks, RdrsOk, Matches, FormToks, Skip, Next, Peek, Tokens, Redirs, Wrapped, Args;
    hide Layers, Peel, ParseLine;
    PeekStarts(s, "(");
    Head(s);
    var s1 := Next(s).1;
    assert Tokens(s) == [Sym('(')] + Tokens(s1);
    var inner := ParseLine(s1);
    var b := LineSound(s1);
    PeekStarts(inner.rest, ")");
    Head(inner.rest);
    var s2 := Next(inner.rest).1;
    assert Tokens(inner.rest) == [Sym(')')] + Tokens(s2);
    var rds := RedirsSound(s2);
    f := Group(b, rds);
    GroupMeaning(b, inner.value, rds, Redirs(s2).value);
    FormText(f, Tokens(ParseBlock(s).rest));
  }

  lemma GroupMeaning(b: Form, c: Cmd<string>, rds: seq<Rdr>, vs: seq<Rd<string>>)
    requires FormOk(b) && Denotes(b, c) && RdrsOk(rds) && Matches(rds, vs)
    ensures FormOk(Group(b, rds)) && Denotes(Group(b, rds), Wrapped(c, vs))
  {
    hide Layers, Peel, Wrapped, Matches, RdrsOk;
    WrappedLayers(c, rds, vs);
  }

  lemma {:induction false} PipeSound(s: string) returns (f: Form)
    requires ParsePipe(s).Ok?
    ensures FormOk(f) && Level(f) <= 1 && Denotes(f, ParsePipe(s).value)
    ensures Tokens(s) == FormToks(f) + Tokens(ParsePipe(s).rest)
    decreases |s|, 2
  {
    hide FormToks, Skip, Next, Peek, Tokens, ParseExec, Layers, Peel;
    var left := ParseExec(s);
    var l := ExecSound(s);
    if !Peek(left.rest, "|") {
      f := l;
    } else {
      PeekStarts(left.rest, "|");
      Head(left.rest);
      var r := PipeSound(Next(left.rest).1);
      f := Bar(l, r);
      FormText(f, Tokens(ParsePipe(s).rest));
    }
  }

  lemma {:induction false} BacksSound(f: Form, c: Cmd<string>, s: string) returns (g: Form)
    requires FormOk(f) && Level(f) <= 2 && Denotes(f, c)
    ensures FormOk(g) && Level(g) <= 2 && Denotes(g, Backs(c, s).0)
    ensures FormToks(f) + Tokens(s) == FormToks(g) + Tokens(Backs(c, s).1)
    decreases |s|
  {
    hide FormToks, Skip, Next, Peek, Tokens, Layers, Peel;
    if Peek(s, "&") {
      PeekStarts(s, "&");
      Head(s);
      var s1 := Next(s).1;
      g := BacksSound(Amp(f), Back(c), s1);
      FormText(Amp(f), Tokens(s1));
    } else {
      g := f;
      TokensSkip(s);
    }
  }

  lemma {:induction false} LineSound(s: string) returns (f: Form)
    requires ParseLine(s).Ok?
    ensures FormOk(f) && Denotes(f, ParseLine(s).value)
    ensures Tokens(s) == FormToks(f) + Tokens(ParseLine(s).rest)
    decreases |s|, 3
  {
    hide FormToks, Skip, Next, Peek, Tokens, ParsePipe, Layers, Peel, Backs;
    var first := ParsePipe(s);
    var p := PipeSound(s);
    var l := BacksSound(p, first.value, first.rest);
    var (c, s1) := Backs(first.value, first.rest);
    if !Peek(s1, ";") {
      f := l;
    } else {
      PeekStarts(s1, ";");
      Head(s1);
      var r := LineSound(Next(s1).1);
      f := Semi(l, r);
      FormText(f, Tokens(ParseLine(s).rest));
    }
  }

  // ---------- the parser and the grammar ----------

  lemma NothingLeft(s: string)
    ensures Skip(s) == "" <==> Tokens(s) == []
  {
    Head(s);
  }

  lemma {:induction false} LineRest(s: string)
    ensures ParseLine(s).Ok? ==> Skip(ParseLine(s).rest) == ParseLine(s).rest
    decreases |s|
  {
    hide Next, ParsePipe, Skip;
    var first := ParsePipe(s);
    if first.Ok? {
      BacksRest(first.value, first.rest);
      var s1 := Backs(first.value, first.rest).1;
      if Peek(s1, ";") { LineRest(Next(s1).1); }
    }
  }

  lemma {:induction false} BacksRest(c: Cmd<string>, s: string)
    ensures Skip(Backs(c, s).1) == Backs(c, s).1
    decreases |s|
  {
    hide Next;
    if Peek(s, "&") { BacksRest(Back(c), Next(s).1); }
  }

  /** Every form, however it is spaced, parses to its meaning. */
  lemma FormParses(f: Form, s: string)
    requires FormOk(f) && Tokens(s) == FormToks(f)
    ensures Parse(s).Ok? && Denotes(f, Parse(s).value) && Parse(s).rest == ""
  {
    hide Tokens, FormToks, FormOk, Denotes, ParseLine, Skip;
    assert FormToks(f) + [] == FormToks(f);
    LineComplete(f, s, []);
    LineRest(s);
    NothingLeft(ParseLine(s).rest);
  }

  /** A line that parses is a form of the grammar, and the tree is its meaning. */
  lemma ParsedForm(s: string) returns (f: Form)
    requires Parse(s).Ok?
    ensures FormOk(f) && Tokens(s) == FormToks(f) && Denotes(f, Parse(s).value)
  {
    hide Tokens, FormToks, FormOk, Denotes, ParseLine, Skip;
    f := LineSound(s);
    NothingLeft(ParseLine(s).rest);
    assert FormToks(f) + [] == FormToks(f);
  }

  /** The parser accepts exactly the lines of the grammar, and the grammar is unambiguous: whatever form a line is
      given, the tree is the same. */
  lemma AcceptsExactly(s: string)
    ensures Parse(s).Ok? <==> exists f :: FormOk(f) && FormToks(f) == Tokens(s)
    ensures forall f, c :: FormOk(f) && FormToks(f) == Tokens(s) && Denotes(f, c) ==> Parse(s) == Ok(c, "")
  {
    hide Tokens, FormToks, FormOk, Denotes, Parse;
    if Parse(s).Ok? {
      var f := ParsedForm(s);
    }
    forall f | FormOk(f) && FormToks(f) == Tokens(s)
      ensures Parse(s).Ok?
    {
      FormParses(f, s);
    }
    forall f, c | FormOk(f) && FormToks(f) == Tokens(s) && Denotes(f, c)
      ensures Parse(s) == Ok(c, "")
    {
      FormParses(f, s);
      DenotesOne(f, c, Parse(s).value);
    }
  }
}
