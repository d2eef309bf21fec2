/** Lines as text: tokens written with any spacing are read back, and so is any command tree written out with no more
    parentheses than it needs. */
module ShellRound {
  import opened ShellSpec
  import opened ShellGrammar

  predicate IsWord(w: string) { w != "" && forall i :: 0 <= i < |w| ==> WordChar(w[i]) }

  predicate Blank(s: string) { forall i :: 0 <= i < |s| ==> Space(s[i]) }

  /** Text that does not continue a word. */
  predicate NoWord(t: string) { t == "" || !WordChar(t[0]) }

  // ---------- tokens written out ----------

  predicate TokenOk(t: Token) {
    match t
    case End => false
    case Sym(c) => Symbol(c)
    case Append => true
    case Word(w) => IsWord(w)
  }

  predicate TokensOk(ts: seq<Token>) { forall i :: 0 <= i < |ts| ==> TokenOk(ts[i]) }

  function Written(t: Token): string {
    match t
    case End => ""
    case Sym(c) => [c]
    case Append => ">>"
    case Word(w) => w
  }

  /** The two tokens can stand next to each other without a blank between them. */
  predicate Joins(t: Token, u: Token) {
    !(t.Word? && u.Word?) && !(t == Sym('>') && (u == Sym('>') || u == Append))
  }

  /** The tokens with the given blanks before, between and behind them. */
  function Spell(ts: seq<Token>, gaps: seq<string>): string
    requires |gaps| == |ts| + 1
  {
    if ts == [] then gaps[0] else gaps[0] + (Written(ts[0]) + Spell(ts[1..], gaps[1..]))
  }

  predicate Spaced(ts: seq<Token>, gaps: seq<string>) {
    && |gaps| == |ts| + 1 && (forall i :: 0 <= i < |gaps| ==> Blank(gaps[i]))
    && forall i :: 0 < i < |ts| ==> gaps[i] != "" || Joins(ts[i - 1], ts[i])
  }

  lemma {:induction false} SkipBlank(b: string, t: string)
    requires Blank(b)
    ensures Skip(b + t) == Skip(t)
    decreases |b|
  {
    if b == "" {
      assert b + t == t;
    } else {
      SkipBlank(b[1..], t);
      assert (b + t)[1..] == b[1..] + t;
    }
  }

  lemma {:induction false} WordOfExact(w: string, t: string)
    requires (forall i :: 0 <= i < |w| ==> WordChar(w[i])) && NoWord(t)
    ensures WordOf(w + t) == w
    decreases |w|
  {
    if w == "" {
      assert w + t == t;
    } else {
      WordOfExact(w[1..], t);
      assert (w + t)[1..] == w[1..] + t;
    }
  }

  /** Text behind a token that the token does not swallow. */
  predicate Apart(tok: Token, t: string) {
    (tok.Word? ==> NoWord(t)) && (tok == Sym('>') ==> t == "" || t[0] != '>')
  }

  /** A token with blanks before it is the next one. */
  lemma NextWritten(b: string, tok: Token, t: string)
    requires Blank(b) && TokenOk(tok) && Apart(tok, t)
    ensures Next(b + (Written(tok) + t)) == (tok, Skip(t))
  {
    hide WordOf, Blank;
    var s := Written(tok) + t;
    SkipBlank(b, s);
    assert s[|Written(tok)|..] == t;
    assert s[0] == Written(tok)[0];
    if tok.Word? {
      WordOfExact(tok.w, t);
    } else if tok.Append? {
      assert s[1] == '>';
    }
  }

  /** The rest of a spelling leaves the token before it alone. */
  lemma SpellApart(tok: Token, ts: seq<Token>, gaps: seq<string>)
    requires TokenOk(tok) && TokensOk(ts) && Spaced([tok] + ts, [""] + gaps) && |gaps| == |ts| + 1
    ensures Apart(tok, Spell(ts, gaps))
  {
    assert Blank(([""] + gaps)[1]);
    if gaps[0] != "" {
      assert Space(gaps[0][0]) && Spell(ts, gaps)[0] == gaps[0][0];
    } else if ts != [] {
      assert Joins(([tok] + ts)[0], ([tok] + ts)[1]);
      assert TokenOk(ts[0]) && Spell(ts, gaps)[0] == Written(ts[0])[0];
    }
  }

  /** Tokens written with any spacing that keeps them apart are read back. */
  lemma {:induction false} SpelledTokens(ts: seq<Token>, gaps: seq<string>)
    requires TokensOk(ts) && Spaced(ts, gaps)
    ensures Tokens(Spell(ts, gaps)) == ts
    decreases |ts|
  {
    hide Skip, Next, TokenOk, Joins, Blank, Apart;
    if ts == [] {
      BlankIsEnd(gaps[0]);
    } else {
      var more, later := ts[1..], gaps[1..];
      SpacedRest(ts, gaps);
      SpellApart(ts[0], more, later);
      NextWritten(gaps[0], ts[0], Spell(more, later));
      NotEnd(ts[0]);
      TokensSkip(Spell(more, later));
      SpelledTokens(more, later);
    }
  }

  lemma NotEnd(t: Token)
    requires TokenOk(t)
    ensures !t.End?
  {
  }

  lemma SpacedRest(ts: seq<Token>, gaps: seq<string>)
    requires ts != [] && Spaced(ts, gaps)
    ensures Spaced(ts[1..], gaps[1..]) && Spaced([ts[0]] + ts[1..], [""] + gaps[1..])
  {
    hide Joins;
    var us, hs := ts[1..], gaps[1..];
    assert [ts[0]] + us == ts;
    forall i | 0 < i < |us|
      ensures hs[i] != "" || Joins(us[i - 1], us[i])
    {
      assert hs[i] == gaps[i + 1] && us[i] == ts[i + 1] && us[i - 1] == ts[i];
    }
  }

  lemma BlankIsEnd(b: string)
    requires Blank(b)
    ensures Tokens(b) == []
  {
    SkipBlank(b, "");
    assert b + "" == b;
  }

  // ---------- every line is its tokens with some spacing ----------

  /** The blanks that Skip passes. */
  lemma {:induction false} Lead(s: string) returns (b: string)
    ensures Blank(b) && s == b + Skip(s)
    decreases |s|
  {
    if s != "" && Space(s[0]) {
      var more := Lead(s[1..]);
      b := [s[0]] + more;
    } else {
      b := "";
    }
  }

  lemma {:induction false} WordOfIsWord(s: string)
    ensures forall i :: 0 <= i < |WordOf(s)| ==> WordChar(WordOf(s)[i])
    ensures s != "" && WordChar(s[0]) ==> WordOf(s) != ""
    ensures NoWord(s[|WordOf(s)|..])
    decreases |s|
  {
    if s != "" && WordChar(s[0]) {
      WordOfIsWord(s[1..]);
      assert s[|WordOf(s)|..] == s[1..][|WordOf(s[1..])|..];
    }
  }

  /** The next token, where it stands. */
  lemma NextStands(s: string) returns (t: string)
    requires s != "" && Skip(s) == s
    ensures TokenOk(Next(s).0) && s == Written(Next(s).0) + t && Next(s).1 == Skip(t) && Apart(Next(s).0, t)
  {
    WordOfIsWord(s);
    if s[0] == '>' && |s| > 1 && s[1] == '>' {
      t := s[2..];
    } else if Symbol(s[0]) {
      t := s[1..];
    } else {
      t := s[|WordOf(s)|..];
    }
  }

  /** Every line is a spelling of its tokens. */
  lemma {:induction false} LineSpelled(s: string) returns (gaps: seq<string>)
    ensures TokensOk(Tokens(s)) && Spaced(Tokens(s), gaps) && s == Spell(Tokens(s), gaps)
    decreases |s|
  {
    hide Skip, Next, TokenOk, Joins, Blank, Apart, Written;
    var b := Lead(s);
    var u := Skip(s);
    SkipTwice(s);
    if u == "" {
      gaps := [b];
      assert b + "" == b;
    } else {
      var tok, v := Next(u).0, Next(u).1;
      var t := NextStands(u);
      NextShorter(s);
      var later := LineSpelled(v);
      var c := Lead(t);
      gaps := SpellMore(b, tok, t, c, Tokens(v), later);
      assert Tokens(s) == [tok] + Tokens(v);
    }
  }

  lemma SkipTwice(s: string)
    ensures Skip(Skip(s)) == Skip(s) && Next(Skip(s)) == Next(s)
    ensures Skip(s) == "" ==> Tokens(s) == []
  {
  }

  lemma NextShorter(s: string)
    requires Skip(s) != ""
    ensures |Next(s).1| < |s| && !Next(s).0.End?
  {
  }

  /** One more token in front of a spelling. */
  lemma SpellMore(b: string, tok: Token, t: string, c: string, ts: seq<Token>, later: seq<string>)
    returns (gaps: seq<string>)
    requires Blank(b) && Blank(c) && TokenOk(tok) && Apart(tok, t) && TokensOk(ts) && Spaced(ts, later)
    requires t == c + Spell(ts, later)
    ensures Spaced([tok] + ts, gaps) && b + (Written(tok) + t) == Spell([tok] + ts, gaps)
  {
    hide Joins, TokenOk, Apart, Written;
    var front := c + later[0];
    gaps := [b, front] + later[1..];
    var us := [tok] + ts;
    assert us[1..] == ts && gaps[1..] == [front] + later[1..];
    if ts == [] {
      assert Spell(ts, gaps[1..]) == front == t;
    } else {
      var rest := Written(ts[0]) + Spell(ts[1..], later[1..]);
      assert gaps[1..][1..] == later[1..];
      assert c + (later[0] + rest) == front + rest;
      assert Spell(ts, gaps[1..]) == t;
      if front == "" { JoinsHere(tok, t, ts[0]); }
    }
    forall i | 0 < i < |us|
      ensures gaps[i] != "" || Joins(us[i - 1], us[i])
    {
      if i > 1 { assert gaps[i] == later[i - 1] && us[i] == ts[i - 1] && us[i - 1] == ts[i - 2]; }
    }
  }

  lemma JoinsHere(tok: Token, t: string, u: Token)
    requires TokenOk(tok) && TokenOk(u) && Apart(tok, t) && Written(u) <= t
    ensures Joins(tok, u)
  {
    assert Written(u)[0] == t[0];
  }

  // ---------- trees written out ----------

  predicate ModeOk(mode: int, fd: int) { (mode, fd) == (O_RDONLY, 0) || (mode, fd) == (O_WRONLY_CREATE, 1) }

  /** A tree the parser can produce: words without blanks or symbols, at most nine per command. */
  predicate WellFormed(c: Cmd<string>) {
    match c
    case Exec(argv) => |argv| < MAXARGS && forall i :: 0 <= i < |argv| ==> IsWord(argv[i])
    case Redir(d, file, mode, fd) => WellFormed(d) && IsWord(file) && ModeOk(mode, fd)
    case Pipe(l, r) => WellFormed(l) && WellFormed(r)
    case List(l, r) => WellFormed(l) && WellFormed(r)
    case Back(d) => WellFormed(d)
  }

  /** The form, in parentheses if it binds more loosely than `k`. */
  function Within(f: Form, k: nat): Form { if Level(f) <= k then f else Group(f, []) }

  function OneMore(f: Form, rd: Rdr): Form {
    match f
    case Simple(lead, args) =>
      if args == [] then Simple(lead + [rd], [])
      else Simple(lead, LastExtended(args, rd))
    case Group(b, rds) => Group(b, rds + [rd])
    case _ => Group(f, [rd])
  }

  function Bare(argv: seq<string>): seq<Arg> {
    if argv == [] then [] else [Arg(argv[0], [])] + Bare(argv[1..])
  }

  /** A tree as one would write it: redirections behind the words, parentheses only where they are needed. */
  function FormOf(c: Cmd<string>): Form {
    match c
    case Exec(argv) => Simple([], Bare(argv))
    case Redir(d, file, mode, fd) => OneMore(FormOf(d), Rdr(Sym(if fd == 0 then '<' else '>'), file))
    case Pipe(l, r) => Bar(Within(FormOf(l), 0), Within(FormOf(r), 1))
    case Back(d) => Amp(Within(FormOf(d), 2))
    case List(l, r) => Semi(Within(FormOf(l), 2), FormOf(r))
  }

  function Show(c: Cmd<string>): string {
    var ts := FormToks(FormOf(c));
    Spell(ts, seq(|ts| + 1, _ => " "))
  }

  /** The form is right for the tree: it denotes it, and its tokens are proper ones. */
  ghost predicate Fits(f: Form, c: Cmd<string>) { FormOk(f) && Denotes(f, c) && TokensOk(FormToks(f)) }

  lemma SplitOk(a: seq<Token>, b: seq<Token>)
    requires TokensOk(a + b)
    ensures TokensOk(a) && TokensOk(b)
  {
    hide TokenOk;
    assert forall i :: 0 <= i < |a| ==> a[i] == (a + b)[i];
    assert forall i :: 0 <= i < |b| ==> b[i] == (a + b)[|a| + i];
  }

  lemma JoinOk(a: seq<Token>, b: seq<Token>)
    requires TokensOk(a) && TokensOk(b)
    ensures TokensOk(a + b)
  {
  }

  lemma SymOk(c: char)
    requires Symbol(c)
    ensures TokensOk([Sym(c)])
  {
  }

  lemma WordOk(w: string)
    requires IsWord(w)
    ensures TokensOk([Word(w)])
  {
  }

  lemma NoToks()
    ensures TokensOk([])
  {
  }

  lemma WithinFits(f: Form, k: nat, c: Cmd<string>)
    requires Fits(f, c)
    ensures Fits(Within(f, k), c) && Level(Within(f, k)) <= k
  {
    hide TokensOk;
    if Level(f) > k {
      assert FormToks(Group(f, [])) == [Sym('(')] + FormToks(f) + [Sym(')')];
      SymOk('(');
      SymOk(')');
      JoinOk([Sym('(')], FormToks(f));
      JoinOk([Sym('(')] + FormToks(f), [Sym(')')]);
    }
  }

  lemma {:induction false} BareFits(argv: seq<string>)
    requires forall i :: 0 <= i < |argv| ==> IsWord(argv[i])
    ensures |Bare(argv)| == |argv| && ShellGrammar.ArgsOk(Bare(argv)) && TokensOk(ArgToks(Bare(argv)))
    ensures WordsOf(Bare(argv)) == argv && RdrsOf(Bare(argv)) == []
  {
    hide IsWord, TokensOk, RdrToks, RdrsOk;
    NoRdrs();
    if argv == [] {
      NoToks();
    } else {
      var first, args := [Word(argv[0])], Bare(argv);
      BareFits(argv[1..]);
      assert args[0] == Arg(argv[0], []) && args[1..] == Bare(argv[1..]);
      WordOk(argv[0]);
      JoinOk(first, ArgToks(args[1..]));
      assert first + [] == first;
    }
  }

  lemma {:induction false} RdrToksMore(rds: seq<Rdr>, more: seq<Rdr>)
    ensures RdrToks(rds + more) == RdrToks(rds) + RdrToks(more)
  {
    if rds == [] {
      assert rds + more == more;
    } else {
      RdrToksMore(rds[1..], more);
      assert (rds + more)[1..] == rds[1..] + more;
    }
  }

  lemma OneRdr(rd: Rdr)
    ensures RdrToks([rd]) == [rd.op, Word(rd.file)]
    ensures TokenOk(rd.op) && IsWord(rd.file) <==> TokensOk(RdrToks([rd]))
  {
    assert [rd][1..] == [];
    var ts := [rd.op, Word(rd.file)];
    assert TokensOk(ts) ==> TokenOk(ts[0]) && TokenOk(ts[1]);
  }

  function LastExtended(args: seq<Arg>, rd: Rdr): seq<Arg>
    requires args != []
  {
    var n := |args| - 1;
    args[..n] + [Arg(args[n].word, args[n].rds + [rd])]
  }

  lemma ExtendedRest(args: seq<Arg>, rd: Rdr)
    requires |args| > 1
    ensures var more := LastExtended(args, rd);
            more != [] && more[0] == args[0] && more[1..] == LastExtended(args[1..], rd)
  {
  }

  /** A redirection behind the last word is the last one of the command. */
  lemma {:induction false} LastArg(args: seq<Arg>, rd: Rdr)
    requires args != []
    ensures var more := LastExtended(args, rd);
            && WordsOf(more) == WordsOf(args) && RdrsOf(more) == RdrsOf(args) + [rd]
            && ArgToks(more) == ArgToks(args) + RdrToks([rd])
    decreases |args|
  {
    hide RdrToks, LastExtended;
    var more := LastExtended(args, rd);
    if |args| == 1 {
      LastOne(args, rd);
    } else {
      ExtendedRest(args, rd);
      LastArg(args[1..], rd);
      var first := [Word(args[0].word)] + RdrToks(args[0].rds);
      assert first + (ArgToks(args[1..]) + RdrToks([rd])) == first + ArgToks(args[1..]) + RdrToks([rd]);
      assert args[0].rds + (RdrsOf(args[1..]) + [rd]) == args[0].rds + RdrsOf(args[1..]) + [rd];
    }
  }

  lemma LastOne(args: seq<Arg>, rd: Rdr)
    requires |args| == 1
    ensures var more := LastExtended(args, rd);
            && WordsOf(more) == WordsOf(args) && RdrsOf(more) == RdrsOf(args) + [rd]
            && ArgToks(more) == ArgToks(args) + RdrToks([rd])
  {
    hide RdrToks, WordsOf, RdrsOf, ArgToks, LastExtended;
    var a := args[0];
    var b := Arg(a.word, a.rds + [rd]);
    ExtendedOne(a, rd);
    assert args == [a];
    RdrToksMore(a.rds, [rd]);
    SingleArg(a);
    SingleArg(b);
    assert [Word(a.word)] + (RdrToks(a.rds) + RdrToks([rd])) == [Word(a.word)] + RdrToks(a.rds) + RdrToks([rd]);
  }

  lemma ExtendedOne(a: Arg, rd: Rdr)
    ensures LastExtended([a], rd) == [Arg(a.word, a.rds + [rd])]
  {
  }

  lemma SingleArg(a: Arg)
    ensures WordsOf([a]) == [a.word] && RdrsOf([a]) == a.rds && ArgToks([a]) == [Word(a.word)] + RdrToks(a.rds)
  {
    hide RdrToks;
    assert [a][1..] == [];
  }

  lemma ExtendedOk(args: seq<Arg>, rd: Rdr)
    requires args != [] && ShellGrammar.ArgsOk(args) && RdrsOk([rd])
    ensures |LastExtended(args, rd)| == |args| && ShellGrammar.ArgsOk(LastExtended(args, rd))
  {
    hide RdrsOk;
    MoreOk(args[|args| - 1].rds, rd);
  }

  lemma MoreOk(rds: seq<Rdr>, rd: Rdr)
    requires RdrsOk(rds) && RdrsOk([rd])
    ensures RdrsOk(rds + [rd])
  {
    assert [rd][0] == rd;
  }

  lemma OneMoreToks(f: Form, rd: Rdr)
    ensures FormToks(OneMore(f, rd)) == FormToks(Within(f, 0)) + RdrToks([rd])
  {
    hide RdrToks, LastExtended;
    match f
    case Simple(lead, args) =>
      if args == [] {
        RdrToksMore(lead, [rd]);
      } else {
        LastArg(args, rd);
        assert RdrToks(lead) + (ArgToks(args) + RdrToks([rd])) == RdrToks(lead) + ArgToks(args) + RdrToks([rd]);
      }
    case Group(b, rds) =>
      var front := [Sym('(')] + FormToks(b) + [Sym(')')];
      RdrToksMore(rds, [rd]);
      assert front + (RdrToks(rds) + RdrToks([rd])) == front + RdrToks(rds) + RdrToks([rd]);
    case _ => NoRdrs();
  }

  lemma OneMoreDenotes(f: Form, c: Cmd<string>, rd: Rdr, d: Cmd<string>)
    requires FormOk(f) && Denotes(f, c) && RdrsOk([rd]) && d.Redir? && d.cmd == c && d.file == rd.file
    requires (d.mode, d.fd) == (if rd.op == Sym('<') then (0, 0) else (0x201, 1))
    ensures FormOk(OneMore(f, rd)) && Denotes(OneMore(f, rd), d)
  {
    hide Layers, Peel, RdrsOk, ShellGrammar.ArgsOk, LastExtended;
    match f
    case Simple(lead, args) =>
      if args == [] {
        MoreOk(lead, rd);
        assert lead + RdrsOf(args) == lead && lead + [rd] + RdrsOf(args) == lead + [rd];
        LayerMore(c, lead, rd, d);
      } else {
        LastArg(args, rd);
        ExtendedOk(args, rd);
        assert lead + (RdrsOf(args) + [rd]) == lead + RdrsOf(args) + [rd];
        LayerMore(c, lead + RdrsOf(args), rd, d);
      }
    case Group(b, rds) =>
      MoreOk(rds, rd);
      LayerMore(c, rds, rd, d);
    case _ =>
      NoLayers(c);
      LayerMore(c, [], rd, d);
      assert [] + [rd] == [rd];
  }

  lemma NoLayers(c: Cmd<string>)
    ensures Layers(c, []) && Peel(c, 0) == c
  {
  }

  lemma OneMoreFits(f: Form, c: Cmd<string>, rd: Rdr, mode: int, fd: int)
    requires Fits(f, c) && IsWord(rd.file)
    requires (rd.op, mode, fd) == (Sym('<'), 0, 0) || (rd.op, mode, fd) == (Sym('>'), 0x201, 1)
    ensures Fits(OneMore(f, rd), Redir(c, rd.file, mode, fd))
  {
    hide FormOk, Denotes, TokensOk, Within, OneMore, FormToks;
    OneMoreDenotes(f, c, rd, Redir(c, rd.file, mode, fd));
    OneMoreToks(f, rd);
    WithinFits(f, 0, c);
    OneRdr(rd);
    JoinOk(FormToks(Within(f, 0)), RdrToks([rd]));
  }

  lemma LayerMore(c: Cmd<string>, rds: seq<Rdr>, rd: Rdr, d: Cmd<string>)
    requires Layers(c, rds) && d.Redir? && d.cmd == c && d.file == rd.file
    requires (d.mode, d.fd) == (if rd.op == Sym('<') then (0, 0) else (0x201, 1))
    ensures Layers(d, rds + [rd]) && Peel(d, |rds + [rd]|) == Peel(c, |rds|)
  {
    assert (rds + [rd])[..|rds|] == rds;
  }

  lemma {:induction false} FormFits(c: Cmd<string>)
    requires WellFormed(c)
    ensures Fits(FormOf(c), c)
  {
    hide Fits, OneMore, Within;
    match c
    case Exec(argv) => ExecFits(argv);
    case Redir(d, file, mode, fd) =>
      FormFits(d);
      OneMoreFits(FormOf(d), d, Rdr(Sym(if fd == 0 then '<' else '>'), file), mode, fd);
    case Pipe(l, r) =>
      FormFits(l);
      FormFits(r);
      WithinFits(FormOf(l), 0, l);
      WithinFits(FormOf(r), 1, r);
      PipeFits(Within(FormOf(l), 0), Within(FormOf(r), 1), l, r);
    case Back(d) =>
      FormFits(d);
      WithinFits(FormOf(d), 2, d);
      BackFits(Within(FormOf(d), 2), d);
    case List(l, r) =>
      FormFits(l);
      FormFits(r);
      WithinFits(FormOf(l), 2, l);
      ListFits(Within(FormOf(l), 2), FormOf(r), l, r);
  }

  lemma ExecFits(argv: seq<string>)
    requires WellFormed(Exec(argv))
    ensures Fits(Simple([], Bare(argv)), Exec(argv))
  {
    BareFits(argv);
    assert RdrToks([]) + ArgToks(Bare(argv)) == ArgToks(Bare(argv));
    assert [] + RdrsOf(Bare(argv)) == [];
  }

  lemma PipeFits(f: Form, g: Form, l: Cmd<string>, r: Cmd<string>)
    requires Fits(f, l) && Fits(g, r) && Level(f) == 0 && Level(g) <= 1
    ensures Fits(Bar(f, g), Pipe(l, r))
  {
    hide TokensOk;
    SymOk('|');
    JoinOk(FormToks(f), [Sym('|')]);
    JoinOk(FormToks(f) + [Sym('|')], FormToks(g));
  }

  lemma BackFits(f: Form, d: Cmd<string>)
    requires Fits(f, d) && Level(f) <= 2
    ensures Fits(Amp(f), Back(d))
  {
    hide TokensOk;
    SymOk('&');
    JoinOk(FormToks(f), [Sym('&')]);
  }

  lemma ListFits(f: Form, g: Form, l: Cmd<string>, r: Cmd<string>)
    requires Fits(f, l) && Fits(g, r) && Level(f) <= 2
    ensures Fits(Semi(f, g), List(l, r))
  {
    hide TokensOk;
    SymOk(';');
    JoinOk(FormToks(f), [Sym(';')]);
    JoinOk(FormToks(f) + [Sym(';')], FormToks(g));
  }

  /** A form written with any spacing that keeps its tokens apart parses to its meaning. */
  lemma WrittenForm(f: Form, c: Cmd<string>, gaps: seq<string>)
    requires FormOk(f) && Denotes(f, c) && TokensOk(FormToks(f)) && Spaced(FormToks(f), gaps)
    ensures Parse(Spell(FormToks(f), gaps)) == Ok(c, "")
  {
    hide FormOk, Denotes, FormToks, Parse, Tokens, Spell, TokensOk, Joins, Blank;
    SpelledTokens(FormToks(f), gaps);
    AcceptsExactly(Spell(FormToks(f), gaps));
  }

  /** Any well-formed tree, written out with no more parentheses than it needs, parses back to itself. */
  lemma RoundTrip(c: Cmd<string>)
    requires WellFormed(c)
    ensures Parse(Show(c)) == Ok(c, "")
  {
    hide FormOk, Denotes, FormToks, Parse, Spell, TokensOk, FormOf;
    FormFits(c);
    var ts := FormToks(FormOf(c));
    WrittenForm(FormOf(c), c, seq(|ts| + 1, _ => " "));
  }

  // ---------- what the parser produces is well formed ----------

  lemma {:induction false} LayersWell(c: Cmd<string>, rds: seq<Rdr>)
    requires Layers(c, rds) && TokensOk(RdrToks(rds)) && WellFormed(Peel(c, |rds|))
    ensures WellFormed(c)
    decreases |rds|
  {
    if rds != [] {
      var n := |rds| - 1;
      assert rds == rds[..n] + [rds[n]];
      RdrToksMore(rds[..n], [rds[n]]);
      OneRdr(rds[n]);
      SplitOk(RdrToks(rds[..n]), RdrToks([rds[n]]));
      LayersWell(c.cmd, rds[..n]);
    }
  }

  lemma {:induction false} ArgsWell(args: seq<Arg>)
    requires TokensOk(ArgToks(args))
    ensures |WordsOf(args)| == |args| && (forall i :: 0 <= i < |args| ==> IsWord(WordsOf(args)[i]))
    ensures TokensOk(RdrToks(RdrsOf(args)))
    decreases |args|
  {
    hide IsWord;
    if args != [] {
      var first, rest := [Word(args[0].word)] + RdrToks(args[0].rds), ArgToks(args[1..]);
      assert ArgToks(args) == first + rest;
      SplitOk(first, rest);
      SplitOk([Word(args[0].word)], RdrToks(args[0].rds));
      assert TokenOk([Word(args[0].word)][0]);
      ArgsWell(args[1..]);
      RdrToksMore(args[0].rds, RdrsOf(args[1..]));
    }
  }

  lemma {:induction false} FormWell(f: Form, c: Cmd<string>)
    requires FormOk(f) && Denotes(f, c) && TokensOk(FormToks(f))
    ensures WellFormed(c)
    decreases f
  {
    hide TokensOk, Layers, Peel;
    match f
    case Simple(lead, args) =>
      SplitOk(RdrToks(lead), ArgToks(args));
      ArgsWell(args);
      RdrToksMore(lead, RdrsOf(args));
      JoinOk(RdrToks(lead), RdrToks(RdrsOf(args)));
      LayersWell(c, lead + RdrsOf(args));
    case Group(b, rds) =>
      SplitOk([Sym('(')] + FormToks(b) + [Sym(')')], RdrToks(rds));
      SplitOk([Sym('(')] + FormToks(b), [Sym(')')]);
      SplitOk([Sym('(')], FormToks(b));
      FormWell(b, Peel(c, |rds|));
      LayersWell(c, rds);
    case Bar(l, r) =>
      SplitOk(FormToks(l) + [Sym('|')], FormToks(r));
      SplitOk(FormToks(l), [Sym('|')]);
      FormWell(l, c.left);
      FormWell(r, c.right);
    case Amp(b) =>
      SplitOk(FormToks(b), [Sym('&')]);
      FormWell(b, c.cmd);
    case Semi(l, r) =>
      SplitOk(FormToks(l) + [Sym(';')], FormToks(r));
      SplitOk(FormToks(l), [Sym(';')]);
      FormWell(l, c.left);
      FormWell(r, c.right);
  }

  /** Every line that parses to a tree has a form with fewest parentheses that parses to the same tree. */
  lemma Normalised(s: string)
    requires Parse(s).Ok?
    ensures WellFormed(Parse(s).value) && Parse(Show(Parse(s).value)) == Ok(Parse(s).value, "")
  {
    hide FormOk, Denotes, FormToks, Parse, Tokens, Spell, Show, TokensOk, Spaced;
    var f := ParsedForm(s);
    var gaps := LineSpelled(s);
    FormWell(f, Parse(s).value);
    RoundTrip(Parse(s).value);
  }

  // ---------- the ordinary cases, spelled out ----------

  function WordToks(words: seq<string>): seq<Token> {
    if words == [] then [] else [Word(words[0])] + WordToks(words[1..])
  }

  /** Words followed by any list of redirections: the tree has them all, the first innermost and the last outermost,
      around the command itself. */
  lemma CommandWithRedirections(words: seq<string>, rds: seq<Rdr>, gaps: seq<string>)
    requires |words| <= 9 && RdrsOk(rds) && TokensOk(WordToks(words) + RdrToks(rds))
    requires Spaced(WordToks(words) + RdrToks(rds), gaps)
    ensures var r := Parse(Spell(WordToks(words) + RdrToks(rds), gaps));
            r.Ok? && Layers(r.value, rds) && Peel(r.value, |rds|) == Exec(words)
  {
    hide Parse, Layers, Peel, Spell, Tokens, TokenOk, Joins, Blank;
    var ts := WordToks(words) + RdrToks(rds);
    var f := Ordinary(words, rds);
    SpelledTokens(ts, gaps);
    FormParses(f, Spell(ts, gaps));
    assert f.lead + RdrsOf(f.args) == rds;
  }

  lemma Ordinary(words: seq<string>, rds: seq<Rdr>) returns (f: Form)
    requires |words| <= 9 && RdrsOk(rds)
    ensures f.Simple? && FormOk(f) && FormToks(f) == WordToks(words) + RdrToks(rds)
    ensures f.lead + RdrsOf(f.args) == rds && WordsOf(f.args) == words
  {
    if words == [] {
      f := Simple(rds, []);
      assert RdrToks(rds) + [] == [] + RdrToks(rds);
    } else {
      var args := OrdinaryArgs(words, rds);
      f := Simple([], args);
      assert [] + ArgToks(args) == ArgToks(args) && [] + RdrsOf(args) == RdrsOf(args);
    }
  }

  lemma {:induction false} OrdinaryArgs(words: seq<string>, rds: seq<Rdr>) returns (args: seq<Arg>)
    requires words != [] && RdrsOk(rds)
    ensures |args| == |words| && ShellGrammar.ArgsOk(args) && ArgToks(args) == WordToks(words) + RdrToks(rds)
    ensures RdrsOf(args) == rds && WordsOf(args) == words
    decreases |words|
  {
    hide RdrToks, RdrsOk;
    NoRdrs();
    var first := [Word(words[0])];
    if |words| == 1 {
      args := [Arg(words[0], rds)];
      assert args[1..] == [] && words[1..] == [];
      SingleArg(args[0]);
      assert WordToks(words) == first + [] == first;
    } else {
      var more := OrdinaryArgs(words[1..], rds);
      args := [Arg(words[0], [])] + more;
      assert args[1..] == more;
      assert ArgToks(args) == first + ArgToks(more);
    }
  }

  lemma NoRdrs()
    ensures RdrToks([]) == [] && RdrsOk([])
  {
  }

  /** A block followed by any list of redirections. */
  lemma BlockWithRedirections(b: Form, c: Cmd<string>, rds: seq<Rdr>, gaps: seq<string>)
    requires FormOk(b) && Denotes(b, c) && RdrsOk(rds) && TokensOk(FormToks(b) + RdrToks(rds))
    requires Spaced([Sym('(')] + FormToks(b) + [Sym(')')] + RdrToks(rds), gaps)
    ensures var r := Parse(Spell([Sym('(')] + FormToks(b) + [Sym(')')] + RdrToks(rds), gaps));
            r.Ok? && Layers(r.value, rds) && Peel(r.value, |rds|) == c
  {
    hide Parse, Layers, Peel, Spell, Tokens, TokensOk, Joins, Blank;
    var f := Group(b, rds);
    SplitOk(FormToks(b), RdrToks(rds));
    SymOk('(');
    SymOk(')');
    JoinOk([Sym('(')], FormToks(b));
    JoinOk([Sym('(')] + FormToks(b), [Sym(')')]);
    JoinOk([Sym('(')] + FormToks(b) + [Sym(')')], RdrToks(rds));
    SpelledTokens(FormToks(f), gaps);
    FormParses(f, Spell(FormToks(f), gaps));
    DenotesOne(b, c, Peel(Parse(Spell(FormToks(f), gaps)).value, |rds|));
  }
}
