/** The parser of sh.c: a cursor into the line, and trees whose words are still spans of it. */
module ShellParser {
  import opened Options
  import opened Shell

  datatype Span = Span(lo: nat, hi: nat)

  datatype Cmd =
    | ExecCmd(argv: seq<Span>)
    | RedirCmd(cmd: Cmd, file: Span, mode: nat, fd: nat)
    | PipeCmd(left: Cmd, right: Cmd)
    | ListCmd(left: Cmd, right: Cmd)
    | BackCmd(cmd: Cmd)

  const O_RDONLY := 0
  const O_WRONLY := 1
  const O_CREATE := 0x200
  const O_TRUNC := 0x400

  // ---- what a tree means ----

  /** `sp` is a whole word of the line. */
  ghost predicate WordSpan(s: string, sp: Span) {
    && sp.lo < sp.hi <= |s| && (forall i :: sp.lo <= i < sp.hi ==> WordChar(s[i]))
    && (sp.hi < |s| ==> !WordChar(s[sp.hi]))
  }

  function TextOf(s: string, sp: Span): string {
    if sp.lo <= sp.hi <= |s| then s[sp.lo..sp.hi] else ""
  }

  function Texts(s: string, argv: seq<Span>): (r: seq<string>)
    ensures |r| == |argv| && forall i :: 0 <= i < |argv| ==> r[i] == TextOf(s, argv[i])
  {
    seq(|argv|, i requires 0 <= i < |argv| => TextOf(s, argv[i]))
  }

  function KindOf(mode: nat): char {
    if mode == O_RDONLY then '<' else if mode == O_WRONLY + O_CREATE then '+' else '>'
  }

  function Meaning(s: string, c: Cmd): Ast {
    match c
    case ExecCmd(argv) => Exec(Texts(s, argv))
    case RedirCmd(d, file, mode, _) => Redir(Meaning(s, d), KindOf(mode), TextOf(s, file))
    case PipeCmd(l, r) => Pipe(Meaning(s, l), Meaning(s, r))
    case ListCmd(l, r) => List(Meaning(s, l), Meaning(s, r))
    case BackCmd(d) => Back(Meaning(s, d))
  }

  /** How a redirection opens its file, and which descriptor it replaces. */
  predicate Opens(kind: char, mode: nat, fd: nat) {
    if kind == '<' then mode == 0x000 && fd == 0
    else if kind == '>' then mode == 0x601 && fd == 1
    else kind == '+' && mode == 0x201 && fd == 1
  }

  /** Every redirection of `c` opens its file as the same one in the tree `t` asks for. */
  ghost predicate OpensAll(c: Cmd, t: Ast) {
    match c
    case ExecCmd(_) => t.Exec?
    case RedirCmd(d, _, mode, fd) => t.Redir? && Opens(t.kind, mode, fd) && OpensAll(d, t.cmd)
    case PipeCmd(l, r) => t.Pipe? && OpensAll(l, t.left) && OpensAll(r, t.right)
    case ListCmd(l, r) => t.List? && OpensAll(l, t.left) && OpensAll(r, t.right)
    case BackCmd(d) => t.Back? && OpensAll(d, t.cmd)
  }

  lemma {:induction false} ProperOpens(s: string, c: Cmd)
    requires Proper(s, c)
    ensures OpensAll(c, Meaning(s, c))
  {
    match c
    case ExecCmd(_) =>
    case RedirCmd(d, _, _, _) => ProperOpens(s, d);
    case PipeCmd(l, r) => ProperOpens(s, l); ProperOpens(s, r);
    case ListCmd(l, r) => ProperOpens(s, l); ProperOpens(s, r);
    case BackCmd(d) => ProperOpens(s, d);
  }

  /** All words are whole words of the line, and redirections open their files as they should. */
  ghost predicate Proper(s: string, c: Cmd) {
    match c
    case ExecCmd(argv) => forall i :: 0 <= i < |argv| ==> WordSpan(s, argv[i])
    case RedirCmd(d, file, mode, fd) => Proper(s, d) && WordSpan(s, file) && Opens(KindOf(mode), mode, fd)
    case PipeCmd(l, r) => Proper(s, l) && Proper(s, r)
    case ListCmd(l, r) => Proper(s, l) && Proper(s, r)
    case BackCmd(d) => Proper(s, d)
  }

  /** What `gettoken` returns for a token. */
  function Code(t: Tok): char {
    if t.Word? then 'a' else t.c
  }

  /** What `peek` looks at: the first character of the next token. */
  predicate Heads(ts: seq<Tok>, cs: string) {
    ts != [] && ts[0].Sym? && (if ts[0].c == '+' then '>' else ts[0].c) in cs
  }

  /** The exec node at the bottom of `c`, which later arguments are still added to. */
  function SetArgs(c: Cmd, argv: seq<Span>): Cmd {
    match c
    case ExecCmd(_) => ExecCmd(argv)
    case RedirCmd(d, file, mode, fd) => RedirCmd(SetArgs(d, argv), file, mode, fd)
    case _ => c
  }

  /** A command with redirections around it, and nothing else. */
  predicate Simple(c: Cmd) {
    c.ExecCmd? || (c.RedirCmd? && Simple(c.cmd))
  }

  function RedirsOf(s: string, c: Cmd): seq<Redirection> {
    if c.RedirCmd? then RedirsOf(s, c.cmd) + [Redirection(KindOf(c.mode), TextOf(s, c.file))] else []
  }

  /** Arguments added later reach the command through whatever redirections are around it by then. */
  lemma {:induction false} SetArgsMeaning(s: string, c: Cmd, argv: seq<Span>)
    requires Simple(c)
    ensures Simple(SetArgs(c, argv)) && RedirsOf(s, SetArgs(c, argv)) == RedirsOf(s, c)
    ensures Meaning(s, SetArgs(c, argv)) == Wrap(Exec(Texts(s, argv)), RedirsOf(s, c))
  {
    if c.RedirCmd? {
      SetArgsMeaning(s, c.cmd, argv);
      var rs := RedirsOf(s, c);
      assert rs[..|rs| - 1] == RedirsOf(s, c.cmd);
    }
  }

  lemma {:induction false} SetArgsProper(s: string, c: Cmd, argv: seq<Span>)
    requires Simple(c) && Proper(s, c) && forall i :: 0 <= i < |argv| ==> WordSpan(s, argv[i])
    ensures Proper(s, SetArgs(c, argv))
  {
    if c.RedirCmd? { SetArgsProper(s, c.cmd, argv); }
  }

  lemma WrapLast(t: Ast, rs: seq<Redirection>, r: Redirection)
    ensures Wrap(t, rs + [r]) == Redir(Wrap(t, rs), r.kind, r.file)
  {
    assert (rs + [r])[..|rs|] == rs;
  }

  class Parser {
    const s: string
    var p: nat

    ghost predicate Valid()
      reads this
    {
      p <= |s| && NoNul(s)
    }

    /** The tokens still to be parsed. */
    ghost function Rest(): seq<Tok>
      requires Valid()
      reads this
    {
      Lex(s, p)
    }

    constructor (s: string)
      requires NoNul(s)
      ensures Valid() && this.s == s && p == 0
    {
      this.s, p := s, 0;
    }

    method SkipWhite()
      requires Valid()
      modifies this
      ensures Valid() && p == SkipBlanks(s, old(p)) && Rest() == old(Rest())
    {
      while p < |s| && Blank(s[p])
        invariant p <= |s| && SkipBlanks(s, p) == SkipBlanks(s, old(p)) && Lex(s, p) == Lex(s, old(p))
      {
        SkipOne(s, p);
        p := p + 1;
      }
    }

    /** The next token: its code, zero at the end of the line, and where it starts and ends. */
    method Gettoken() returns (ret: char, q: nat, eq: nat)
      requires Valid()
      modifies this
      ensures Valid()
      ensures old(Rest()) == [] ==> ret == '\0' && Rest() == []
      ensures old(Rest()) != [] ==> ret == Code(old(Rest())[0]) && Rest() == old(Rest())[1..] && ret != '\0'
      ensures old(Rest()) != [] ==> (ret == 'a' <==> old(Rest())[0].Word?)
      ensures old(Rest()) != [] && old(Rest())[0].Word? ==> WordSpan(s, Span(q, eq)) && s[q..eq] == old(Rest())[0].w
    {
      hide Lex, TokOf, TokEnd, WordChar, Blank, Symbol;
      SkipWhite();
      q := p;
      if p == |s| {
        LexEnd(s);
        ret := '\0';
      } else {
        SkipStops(s, old(p));
        LexFirst(s, q);
        TokWord(s, q);
        ret := Advance();
      }
      eq := p;
      SkipWhite();
    }

    /** The cursor moved over the token at it. */
    method Advance() returns (ret: char)
      requires Valid() && p < |s| && !Blank(s[p])
      modifies this
      ensures Valid() && p == TokEnd(s, old(p)) && ret == Code(TokOf(s, old(p)))
    {
      ghost var q := p;
      ret := s[p];
      if s[p] in "|();&<" {
        p := p + 1;
      } else if s[p] == '>' {
        p := p + 1;
        if p < |s| && s[p] == '>' {
          ret := '+';
          p := p + 1;
        }
      } else {
        ret := 'a';
        while p < |s| && !Blank(s[p]) && !Symbol(s[p])
          invariant q <= p <= |s| && WordEnd(s, p) == WordEnd(s, q)
        {
          p := p + 1;
        }
      }
    }

    /** Whether the next token starts with one of `toks`; the cursor only skips blanks. */
    method Peek(toks: string) returns (r: bool)
      requires Valid() && forall i :: 0 <= i < |toks| ==> Symbol(toks[i])
      modifies this
      ensures Valid() && Rest() == old(Rest()) && r == Heads(Rest(), toks) && (p < |s| ==> !Blank(s[p]))
    {
      SkipWhite();
      if p == |s| {
        LexEnd(s);
      } else {
        LexFirst(s, p);
      }
      r := p < |s| && s[p] in toks;
    }

    /** The redirections that come next, put around `cmd`, which is `base` with `rs` around it so far, perhaps a simple command. */
    method Parseredirs(cmd: Cmd, ghost base: Ast, ghost rs: seq<Redirection>, ghost simple: bool) returns (r: Option<Cmd>)
      requires Valid() && Proper(s, cmd) && Meaning(s, cmd) == Wrap(base, rs) && (simple ==> Simple(cmd) && RedirsOf(s, cmd) == rs)
      modifies this
      ensures Valid() && (r.None? <==> ParseRedirs(rs, old(Rest())).Panic?)
      ensures r.Some? ==>
        && Proper(s, r.value) && Rest() == ParseRedirs(rs, old(Rest())).rest
        && Meaning(s, r.value) == Wrap(base, ParseRedirs(rs, old(Rest())).value)
        && (simple ==> Simple(r.value) && RedirsOf(s, r.value) == ParseRedirs(rs, old(Rest())).value)
    {
      hide Lex, Wrap, ParseRedirs, Heads, Meaning, Proper, RedirsOf, Simple;
      var c := cmd;
      ghost var qs := rs;
      var more := Peek("<>");
      while more
        invariant Valid() && more == Heads(Rest(), "<>") && ParseRedirs(qs, Rest()) == ParseRedirs(rs, old(Rest()))
        invariant Proper(s, c) && Meaning(s, c) == Wrap(base, qs) && (simple ==> Simple(c) && RedirsOf(s, c) == qs)
        decreases |Rest()|
      {
        ghost var ts := Rest();
        RedirsStep(qs, ts);
        HeadsSome(ts);
        var d := OneRedir(c, base, qs, simple);
        if d.None? { return None; }
        c := d.value;
        qs := qs + [Redirection(ts[0].c, ts[1].w)];
        more := Peek("<>");
      }
      RedirsStep(qs, Rest());
      r := Some(c);
    }

    /** The body of the loop of `parseredirs`. */
    method OneRedir(c: Cmd, ghost base: Ast, ghost qs: seq<Redirection>, ghost simple: bool) returns (r: Option<Cmd>)
      requires Valid() && Heads(Rest(), "<>")
      requires Proper(s, c) && Meaning(s, c) == Wrap(base, qs) && (simple ==> Simple(c) && RedirsOf(s, c) == qs)
      modifies this
      ensures Valid() && (r.None? <==> |old(Rest())| < 2 || !old(Rest())[1].Word?)
      ensures r.Some? ==> Proper(s, r.value) && old(Rest())[0].Sym? && Rest() == old(Rest())[1..][1..]
      ensures r.Some? ==> Meaning(s, r.value) == Wrap(base, qs + [Redirection(old(Rest())[0].c, old(Rest())[1].w)])
      ensures r.Some? && simple ==> Simple(r.value) && RedirsOf(s, r.value) == qs + [Redirection(old(Rest())[0].c, old(Rest())[1].w)]
    {
      hide Lex, Wrap;
      var tok, q0, e0 := Gettoken();
      var w, q, eq := Gettoken();
      if w != 'a' { return None; }
      var sp := Span(q, eq);
      WrapLast(base, qs, Redirection(tok, TextOf(s, sp)));
      if tok == '<' {
        r := Some(RedirCmd(c, sp, O_RDONLY, 0));
      } else if tok == '>' {
        r := Some(RedirCmd(c, sp, O_WRONLY + O_CREATE + O_TRUNC, 1));
      } else {
        r := Some(RedirCmd(c, sp, O_WRONLY + O_CREATE, 1));
      }
    }

    /** The arguments of a command, with redirections between them. */
    method Parseargs(cmd: Cmd, ghost rs: seq<Redirection>) returns (r: Option<Cmd>)
      requires Valid() && Proper(s, cmd) && Simple(cmd) && RedirsOf(s, cmd) == rs && Meaning(s, cmd) == Wrap(Exec([]), rs)
      modifies this
      ensures Valid() && (r.None? <==> ParseArgs([], rs, old(Rest())).Panic?)
      ensures r.Some? ==>
        Proper(s, r.value) && Rest() == ParseArgs([], rs, old(Rest())).rest && Meaning(s, r.value) == ParseArgs([], rs, old(Rest())).value
    {
      hide Lex, Wrap, ParseArgs, ParseRedirs, Heads, Meaning, Proper, RedirsOf, Simple, SetArgs, Texts;
      var ret := cmd;
      var argv: seq<Span> := [];
      ghost var qs := rs;
      NoTexts(s);
      var stop := Peek("|)&;");
      while !stop
        invariant Valid() && stop == Heads(Rest(), "|)&;") && Args(s, argv)
        invariant Proper(s, ret) && Simple(ret) && RedirsOf(s, ret) == qs && Meaning(s, ret) == Wrap(Exec(Texts(s, argv)), qs)
        invariant ParseArgs(Texts(s, argv), qs, Rest()) == ParseArgs([], rs, old(Rest()))
        decreases |Rest()|
      {
        ghost var ts := Rest();
        ArgsNext(Texts(s, argv), qs, ts);
        var tok, q, eq := Gettoken();
        if tok == '\0' { break; }
        if tok != 'a' { return None; }
        ArgsMore(s, ret, argv, Span(q, eq));
        argv := argv + [Span(q, eq)];
        ret := SetArgs(ret, argv);
        if |argv| >= MAXARGS { return None; }
        ghost var base := Exec(Texts(s, argv));
        var d := Parseredirs(ret, base, qs, true);
        if d.None? { return None; }
        ret := d.value;
        qs := ParseRedirs(qs, ts[1..]).value;
        stop := Peek("|)&;");
      }
      ArgsNext(Texts(s, argv), qs, Rest());
      r := Some(ret);
    }

    /** `r` is what the tokens `ts` parse to, and the cursor is past it. */
    ghost predicate Parsed(m: Result<Ast>, r: Option<Cmd>)
      reads this
    {
      Valid() && (r.None? <==> m.Panic?) && (r.Some? ==> Proper(s, r.value) && Meaning(s, r.value) == m.value && Rest() == m.rest)
    }

    method Parseexec() returns (r: Option<Cmd>)
      requires Valid()
      modifies this
      ensures Valid() && Parsed(ParseExec(old(Rest())), r)
      decreases |Rest()|, 0
    {
      hide Lex, Wrap, ParseArgs, ParseRedirs, ParseBlock, Texts, Heads;
      ExecStep(Rest());
      NoTexts(s);
      NoWrap(Exec([]));
      var block := Peek("(");
      if block {
        r := Parseblock();
        return;
      }
      var ret := ExecCmd([]);
      var d := Parseredirs(ret, Exec([]), [], true);
      if d.None? { return None; }
      r := Parseargs(d.value, RedirsOf(s, d.value));
    }

    method Parseblock() returns (r: Option<Cmd>)
      requires Valid() && Starts(Rest(), "(")
      modifies this
      ensures Valid() && Parsed(ParseBlock(old(Rest())), r)
      decreases |Rest()| - 1, 3
    {
      hide Lex, Wrap, ParseRedirs, ParseLine, Heads, Proper, Meaning;
      var tok, q, eq := Gettoken();
      var c := Parseline();
      if c.None? { return None; }
      CloseStep(Rest());
      var close := Peek(")");
      if !close { return None; }
      tok, q, eq := Gettoken();
      NoWrap(Meaning(s, c.value));
      r := Parseredirs(c.value, Meaning(s, c.value), [], false);
    }

    method Parsepipe() returns (r: Option<Cmd>)
      requires Valid()
      modifies this
      ensures Valid() && Parsed(ParsePipe(old(Rest())), r)
      decreases |Rest()|, 1
    {
      hide Lex, ParseExec, Heads;
      r := Parseexec();
      if r.None? { return; }
      CloseStep(Rest());
      var more := Peek("|");
      if more {
        var tok, q, eq := Gettoken();
        var right := Parsepipe();
        if right.None? { return None; }
        r := Some(PipeCmd(r.value, right.value));
      }
    }

    method Parseline() returns (r: Option<Cmd>)
      requires Valid()
      modifies this
      ensures Valid() && Parsed(ParseLine(old(Rest())), r)
      decreases |Rest()|, 2
    {
      hide Lex, ParsePipe, Heads;
      r := Parsepipe();
      if r.None? { return; }
      var c := r.value;
      ghost var p := ParsePipe(old(Rest()));
      CloseStep(Rest());
      var back := Peek("&");
      while back
        invariant Valid() && back == Starts(Rest(), "&") && Proper(s, c) && ParseBacks(Meaning(s, c), Rest()) == ParseBacks(p.value, p.rest)
        invariant |Rest()| <= |old(Rest())|
        decreases |Rest()|
      {
        var tok, q, eq := Gettoken();
        c := BackCmd(c);
        CloseStep(Rest());
        back := Peek("&");
      }
      CloseStep(Rest());
      var more := Peek(";");
      if more {
        var tok, q, eq := Gettoken();
        var right := Parseline();
        if right.None? { return None; }
        r := Some(ListCmd(c, right.value));
      } else {
        r := Some(c);
      }
    }

    /** The whole line as a tree, or a syntax error. */
    method Parsecmd() returns (r: Option<Cmd>)
      requires Valid() && p == 0
      modifies this
      ensures r.None? <==> ParseCmd(Lex(s, 0)).Panic?
      ensures r.Some? ==> Proper(s, r.value) && ParseCmd(Lex(s, 0)) == Ok(Meaning(s, r.value), [])
      ensures r.Some? ==> OpensAll(r.value, ParseCmd(Lex(s, 0)).value)
    {
      hide ParseLine, Meaning, Proper, OpensAll;
      r := Parseline();
      if r.None? { return; }
      var any := Peek("");
      AtEnd(s, p);
      if p != |s| { return None; }
      ProperOpens(s, r.value);
    }
  }

  lemma ExecStep(ts: seq<Tok>)
    ensures Heads(ts, "(") <==> Starts(ts, "(")
    ensures Starts(ts, "(") ==> ParseExec(ts) == ParseBlock(ts)
    ensures !Starts(ts, "(") ==> ParseExec(ts) == (var r := ParseRedirs([], ts); if r.Panic? then Panic else ParseArgs([], r.value, r.rest))
  {
    hide ParseRedirs, ParseArgs, ParseBlock;
  }

  lemma CloseStep(ts: seq<Tok>)
    ensures Heads(ts, ")") <==> Starts(ts, ")")
    ensures Heads(ts, "|") <==> Starts(ts, "|")
    ensures Heads(ts, "&") <==> Starts(ts, "&")
    ensures Heads(ts, ";") <==> Starts(ts, ";")
  {
  }

  lemma AtEnd(s: string, p: nat)
    requires p <= |s|
    ensures (p < |s| ==> !Blank(s[p])) ==> (Lex(s, p) == [] <==> p == |s|)
  {
  }

  ghost predicate Args(s: string, argv: seq<Span>) {
    |argv| < MAXARGS && forall i :: 0 <= i < |argv| ==> WordSpan(s, argv[i])
  }

  lemma NoTexts(s: string)
    ensures Texts(s, []) == []
  {
  }

  lemma ArgsNext(args: seq<string>, rs: seq<Redirection>, ts: seq<Tok>)
    ensures ts == [] || Heads(ts, "|)&;") ==> ParseArgs(args, rs, ts) == Ok(Wrap(Exec(args), rs), ts)
    ensures ts != [] && !Heads(ts, "|)&;") && !ts[0].Word? ==> ParseArgs(args, rs, ts) == Panic
    ensures ts != [] && ts[0].Word? && |args| + 1 >= MAXARGS ==> ParseArgs(args, rs, ts) == Panic
    ensures ts != [] && ts[0].Word? && |args| + 1 < MAXARGS ==>
      ParseArgs(args, rs, ts) == (var r := ParseRedirs(rs, ts[1..]); if r.Panic? then Panic else ParseArgs(args + [ts[0].w], r.value, r.rest))
  {
    hide Wrap, ParseRedirs;
  }

  lemma ArgsMore(s: string, c: Cmd, argv: seq<Span>, sp: Span)
    requires Simple(c) && Proper(s, c) && Args(s, argv) && WordSpan(s, sp)
    ensures var d := SetArgs(c, argv + [sp]);
      && Simple(d) && Proper(s, d) && RedirsOf(s, d) == RedirsOf(s, c)
      && Meaning(s, d) == Wrap(Exec(Texts(s, argv) + [s[sp.lo..sp.hi]]), RedirsOf(s, c))
      && Texts(s, argv + [sp]) == Texts(s, argv) + [s[sp.lo..sp.hi]]
  {
    SetArgsMeaning(s, c, argv + [sp]);
    SetArgsProper(s, c, argv + [sp]);
    assert Texts(s, argv + [sp]) == Texts(s, argv) + [s[sp.lo..sp.hi]];
    hide *;
  }

  lemma HeadsSome(ts: seq<Tok>)
    requires Heads(ts, "<>")
    ensures ts != []
  {
  }

  lemma RedirsStep(rs: seq<Redirection>, ts: seq<Tok>)
    ensures !Heads(ts, "<>") ==> ParseRedirs(rs, ts) == Ok(rs, ts)
    ensures Heads(ts, "<>") && (|ts| < 2 || !ts[1].Word?) ==> ParseRedirs(rs, ts) == Panic
    ensures Heads(ts, "<>") && |ts| >= 2 && ts[1].Word? ==>
      ts[0].c in "<>+" && ParseRedirs(rs, ts) == ParseRedirs(rs + [Redirection(ts[0].c, ts[1].w)], ts[1..][1..])
  {
    WordNext(ts);
    assert |ts| >= 2 ==> ts[1..][1..] == ts[2..];
  }

  lemma WordNext(ts: seq<Tok>)
    ensures Heads(ts, "<>") <==> Starts(ts, "<>+")
  {
  }

  // ---- nulterminate ----

  /** The ends of the words of a tree. */
  function Ends(c: Cmd): set<nat> {
    match c
    case ExecCmd(argv) => set i | 0 <= i < |argv| :: argv[i].hi
    case RedirCmd(d, file, _, _) => Ends(d) + {file.hi}
    case PipeCmd(l, r) => Ends(l) + Ends(r)
    case ListCmd(l, r) => Ends(l) + Ends(r)
    case BackCmd(d) => Ends(d)
  }

  /** The words of a tree. */
  ghost function Spans(c: Cmd): set<Span> {
    match c
    case ExecCmd(argv) => set i | 0 <= i < |argv| :: argv[i]
    case RedirCmd(d, file, _, _) => Spans(d) + {file}
    case PipeCmd(l, r) => Spans(l) + Spans(r)
    case ListCmd(l, r) => Spans(l) + Spans(r)
    case BackCmd(d) => Spans(d)
  }

  /** The buffer has a NUL at each of `ends`, and is otherwise as it was. */
  ghost predicate NulAt(b: seq<char>, b': seq<char>, ends: set<nat>) {
    |b'| == |b| && forall i: nat :: i < |b| ==> b'[i] == if i in ends then '\0' else b[i]
  }

  lemma NulTwice(a: seq<char>, b: seq<char>, c: seq<char>, e: set<nat>, f: set<nat>)
    requires NulAt(a, b, e) && NulAt(b, c, f)
    ensures NulAt(a, c, e + f)
  {
  }

  /** Put a NUL after every word of the tree. */
  method Nulterminate(s: string, c: Cmd, buf: array<char>)
    requires Proper(s, c) && buf.Length == |s| + 1
    modifies buf
    ensures NulAt(old(buf[..]), buf[..], Ends(c))
    decreases c
  {
    ghost var b0 := buf[..];
    match c
    case ExecCmd(argv) =>
      var i := 0;
      while i < |argv|
        invariant 0 <= i <= |argv| && NulAt(b0, buf[..], Ends(ExecCmd(argv[..i])))
      {
        assert WordSpan(s, argv[i]);
        ghost var b1 := buf[..];
        buf[argv[i].hi] := '\0';
        assert NulAt(b1, buf[..], {argv[i].hi});
        NulTwice(b0, b1, buf[..], Ends(ExecCmd(argv[..i])), {argv[i].hi});
        EndsMore(argv, i);
        i := i + 1;
      }
      assert argv[..i] == argv;
    case RedirCmd(d, file, _, _) =>
      Nulterminate(s, d, buf);
      ghost var b1 := buf[..];
      buf[file.hi] := '\0';
      assert NulAt(b1, buf[..], {file.hi});
      NulTwice(b0, b1, buf[..], Ends(d), {file.hi});
    case PipeCmd(l, r) =>
      Nulterminate(s, l, buf);
      ghost var b1 := buf[..];
      Nulterminate(s, r, buf);
      NulTwice(b0, b1, buf[..], Ends(l), Ends(r));
    case ListCmd(l, r) =>
      Nulterminate(s, l, buf);
      ghost var b1 := buf[..];
      Nulterminate(s, r, buf);
      NulTwice(b0, b1, buf[..], Ends(l), Ends(r));
    case BackCmd(d) =>
      Nulterminate(s, d, buf);
  }

  lemma EndsMore(argv: seq<Span>, i: nat)
    requires i < |argv|
    ensures Ends(ExecCmd(argv[..i + 1])) == Ends(ExecCmd(argv[..i])) + {argv[i].hi}
  {
    var a, b := argv[..i], argv[..i + 1];
    forall x | x in Ends(ExecCmd(b)) ensures x in Ends(ExecCmd(a)) + {argv[i].hi} {
      var k :| 0 <= k < |b| && b[k].hi == x;
      assert k < i ==> a[k].hi == x;
    }
    forall x | x in Ends(ExecCmd(a)) + {argv[i].hi} ensures x in Ends(ExecCmd(b)) {
      if x in Ends(ExecCmd(a)) {
        var k :| 0 <= k < |a| && a[k].hi == x;
        assert b[k].hi == x;
      } else {
        assert b[i].hi == x;
      }
    }
  }

  /** The string that starts at `i`: everything up to the first NUL. */
  function CString(b: seq<char>, i: nat): string
    decreases |b| - i
  {
    if i >= |b| || b[i] == '\0' then "" else [b[i]] + CString(b, i + 1)
  }

  lemma {:induction false} CStringIs(b: seq<char>, i: nat, e: nat)
    requires i <= e < |b| && b[e] == '\0' && forall k :: i <= k < e ==> b[k] != '\0'
    ensures CString(b, i) == b[i..e]
    decreases e - i
  {
    if i < e {
      CStringIs(b, i + 1, e);
      assert b[i..e] == [b[i]] + b[i + 1..e];
    }
  }

  /** No word ends inside a word. */
  lemma {:induction false} EndsOutside(s: string, c: Cmd, e: nat)
    requires Proper(s, c) && e in Ends(c)
    ensures e <= |s| && (e < |s| ==> !WordChar(s[e]))
  {
    match c
    case ExecCmd(argv) =>
      var k :| 0 <= k < |argv| && argv[k].hi == e;
      assert WordSpan(s, argv[k]);
    case RedirCmd(d, file, _, _) => if e in Ends(d) { EndsOutside(s, d, e); }
    case PipeCmd(l, r) => if e in Ends(l) { EndsOutside(s, l, e); } else { EndsOutside(s, r, e); }
    case ListCmd(l, r) => if e in Ends(l) { EndsOutside(s, l, e); } else { EndsOutside(s, r, e); }
    case BackCmd(d) => EndsOutside(s, d, e);
  }

  lemma {:induction false} SpansProper(s: string, c: Cmd, sp: Span)
    requires Proper(s, c) && sp in Spans(c)
    ensures WordSpan(s, sp) && sp.hi in Ends(c)
  {
    match c
    case ExecCmd(argv) =>
      var k :| 0 <= k < |argv| && argv[k] == sp;
      assert WordSpan(s, argv[k]);
    case RedirCmd(d, file, _, _) => if sp in Spans(d) { SpansProper(s, d, sp); }
    case PipeCmd(l, r) => if sp in Spans(l) { SpansProper(s, l, sp); } else { SpansProper(s, r, sp); }
    case ListCmd(l, r) => if sp in Spans(l) { SpansProper(s, l, sp); } else { SpansProper(s, r, sp); }
    case BackCmd(d) => SpansProper(s, d, sp);
  }

  /** After `nulterminate` every argument and file name, read as a C string, is the word that `gettoken` delimited. */
  lemma WordsTerminated(s: string, c: Cmd, b: seq<char>, sp: Span)
    requires Proper(s, c) && NulAt(s + ['\0'], b, Ends(c)) && sp in Spans(c)
    ensures CString(b, sp.lo) == TextOf(s, sp)
  {
    SpansProper(s, c, sp);
    forall k | sp.lo <= k < sp.hi ensures b[k] == s[k] && b[k] != '\0' {
      assert WordChar(s[k]);
      if k in Ends(c) { EndsOutside(s, c, k); }
    }
    CStringIs(b, sp.lo, sp.hi);
    assert b[sp.lo..sp.hi] == s[sp.lo..sp.hi];
  }

  lemma SkipStops(s: string, p: nat)
    requires p <= |s|
    ensures SkipBlanks(s, p) < |s| ==> !Blank(s[SkipBlanks(s, p)])
  {
  }

  /** A token is a word of the line or one of the symbols. */
  lemma TokWord(s: string, q: nat)
    requires NoNul(s) && q < |s| && !Blank(s[q])
    ensures q < TokEnd(s, q) <= |s| && Code(TokOf(s, q)) != '\0' && (Code(TokOf(s, q)) == 'a' <==> TokOf(s, q).Word?)
    ensures TokOf(s, q).Word? ==> WordSpan(s, Span(q, TokEnd(s, q))) && TokOf(s, q).w == s[q..TokEnd(s, q)]
  {
  }
}
