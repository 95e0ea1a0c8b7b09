/**
 The shell's language: characters to tokens, tokens to command trees, and trees back to tokens and
 characters. These functions are what the parser in ShellParser is proved against.
 */
module Shell {
  const MAXARGS := 10

  // ---- characters and tokens ----

  predicate Blank(c: char) {
    c in " \t\r\n\U{0B}"
  }

  predicate Symbol(c: char) {
    c in "<|>&;()"
  }

  predicate WordChar(c: char) {
    !Blank(c) && !Symbol(c) && c != '\0'
  }

  /** `Sym('+')` is the token `>>`. */
  datatype Tok = Sym(c: char) | Word(w: string)

  function SkipBlanks(s: string, p: nat): (q: nat)
    requires p <= |s|
    ensures p <= q <= |s| && (q < |s| ==> !Blank(s[q])) && forall i :: p <= i < q ==> Blank(s[i])
    decreases |s| - p
  {
    if p < |s| && Blank(s[p]) then SkipBlanks(s, p + 1) else p
  }

  function WordEnd(s: string, p: nat): (q: nat)
    requires p <= |s|
    ensures p <= q <= |s| && (q < |s| ==> Blank(s[q]) || Symbol(s[q])) && forall i :: p <= i < q ==> !Blank(s[i]) && !Symbol(s[i])
    decreases |s| - p
  {
    if p < |s| && !Blank(s[p]) && !Symbol(s[p]) then WordEnd(s, p + 1) else p
  }

  /** Where the token that starts at `q` ends. */
  function TokEnd(s: string, q: nat): (e: nat)
    requires q < |s| && !Blank(s[q])
    ensures q < e <= |s|
  {
    if s[q] == '>' && q + 1 < |s| && s[q + 1] == '>' then q + 2
    else if Symbol(s[q]) then q + 1
    else WordEnd(s, q)
  }

  function TokOf(s: string, q: nat): Tok
    requires q < |s| && !Blank(s[q])
  {
    if !Symbol(s[q]) then Word(s[q..TokEnd(s, q)])
    else if TokEnd(s, q) == q + 2 then Sym('+')
    else Sym(s[q])
  }

  /** The tokens of `s` from position `p` on. */
  function Lex(s: string, p: nat): seq<Tok>
    requires p <= |s|
    decreases |s| - p
  {
    var q := SkipBlanks(s, p);
    if q == |s| then [] else [TokOf(s, q)] + Lex(s, TokEnd(s, q))
  }

  // ---- trees ----

  /** A redirection: `kind` is `<`, `>`, or `+` for `>>`. */
  datatype Ast =
    | Exec(args: seq<string>)
    | Redir(cmd: Ast, kind: char, file: string)
    | Pipe(left: Ast, right: Ast)
    | List(left: Ast, right: Ast)
    | Back(cmd: Ast)

  datatype Redirection = Redirection(kind: char, file: string)

  /** Redirections apply from the inside out, in the order in which they are written. */
  function Wrap(t: Ast, rs: seq<Redirection>): Ast {
    if rs == [] then t else Redir(Wrap(t, rs[..|rs| - 1]), rs[|rs| - 1].kind, rs[|rs| - 1].file)
  }

  // ---- tokens to trees ----

  datatype Result<T> = Ok(value: T, rest: seq<Tok>) | Panic

  predicate Starts(ts: seq<Tok>, cs: string) {
    ts != [] && ts[0].Sym? && ts[0].c in cs
  }

  function ParseRedirs(rs: seq<Redirection>, ts: seq<Tok>): (r: Result<seq<Redirection>>)
    ensures r.Ok? ==> |r.rest| <= |ts| && !Starts(r.rest, "<>+")
    decreases |ts|
  {
    if !Starts(ts, "<>+") then Ok(rs, ts)
    else if |ts| < 2 || !ts[1].Word? then Panic  // missing file for redirection
    else ParseRedirs(rs + [Redirection(ts[0].c, ts[1].w)], ts[2..])
  }

  /** The loop of `parseexec`, after `args` and `rs`. */
  function ParseArgs(args: seq<string>, rs: seq<Redirection>, ts: seq<Tok>): (r: Result<Ast>)
    ensures r.Ok? ==> |r.rest| <= |ts|
    decreases |ts|
  {
    if ts == [] || Starts(ts, "|)&;") then Ok(Wrap(Exec(args), rs), ts)
    else if !ts[0].Word? then Panic              // syntax
    else if |args| + 1 >= MAXARGS then Panic     // too many args
    else
      var r := ParseRedirs(rs, ts[1..]);
      if r.Panic? then Panic else ParseArgs(args + [ts[0].w], r.value, r.rest)
  }

  function ParseExec(ts: seq<Tok>): (r: Result<Ast>)
    ensures r.Ok? ==> |r.rest| <= |ts|
    decreases |ts|, 0
  {
    if Starts(ts, "(") then ParseBlock(ts)
    else
      var r := ParseRedirs([], ts);
      if r.Panic? then Panic else ParseArgs([], r.value, r.rest)
  }

  function ParseBlock(ts: seq<Tok>): (r: Result<Ast>)
    requires Starts(ts, "(")
    ensures r.Ok? ==> |r.rest| <= |ts|
    decreases |ts| - 1, 3
  {
    var l := ParseLine(ts[1..]);
    if l.Panic? || !Starts(l.rest, ")") then Panic  // missing )
    else
      var r := ParseRedirs([], l.rest[1..]);
      if r.Panic? then Panic else Ok(Wrap(l.value, r.value), r.rest)
  }

  function ParsePipe(ts: seq<Tok>): (r: Result<Ast>)
    ensures r.Ok? ==> |r.rest| <= |ts|
    decreases |ts|, 1
  {
    var l := ParseExec(ts);
    if l.Ok? && Starts(l.rest, "|") then
      var r := ParsePipe(l.rest[1..]);
      if r.Panic? then Panic else Ok(Pipe(l.value, r.value), r.rest)
    else l
  }

  function ParseBacks(t: Ast, ts: seq<Tok>): (r: Result<Ast>)
    ensures r.Ok? && |r.rest| <= |ts| && !Starts(r.rest, "&")
    decreases |ts|
  {
    if Starts(ts, "&") then ParseBacks(Back(t), ts[1..]) else Ok(t, ts)
  }

  function ParseLine(ts: seq<Tok>): (r: Result<Ast>)
    ensures r.Ok? ==> |r.rest| <= |ts|
    decreases |ts|, 2
  {
    var p := ParsePipe(ts);
    if p.Panic? then Panic else
    var l := ParseBacks(p.value, p.rest);
    if Starts(l.rest, ";") then
      var r := ParseLine(l.rest[1..]);
      if r.Panic? then Panic else Ok(List(l.value, r.value), r.rest)
    else l
  }

  /** What `parsecmd` makes of the tokens of a line. */
  function ParseCmd(ts: seq<Tok>): (r: Result<Ast>)
    ensures r.Ok? ==> r.rest == []
  {
    var l := ParseLine(ts);
    if l.Ok? && l.rest != [] then Panic else l  // leftovers
  }

  // ---- trees to tokens ----

  /** How tightly a tree binds: where the context binds tighter, it needs parentheses. */
  function Level(t: Ast): nat {
    match t
    case List(_, _) => 0
    case Back(_) => 1
    case Pipe(_, _) => 2
    case _ => 3
  }

  function Words(args: seq<string>): seq<Tok> {
    if args == [] then [] else [Word(args[0])] + Words(args[1..])
  }

  /** The tokens of a tree in a context of level `ctx`. */
  function Toks(t: Ast, ctx: nat): seq<Tok>
    decreases t, if Level(t) < ctx then 1 else 0
  {
    if Level(t) < ctx then [Sym('(')] + Toks(t, 0) + [Sym(')')] else
    match t
    case Exec(args) => Words(args)
    case Redir(c, kind, file) => Toks(c, 3) + [Sym(kind), Word(file)]
    case Pipe(l, r) => Toks(l, 3) + [Sym('|')] + Toks(r, 2)
    case List(l, r) => Toks(l, 1) + [Sym(';')] + Toks(r, 0)
    case Back(c) => Toks(c, 1) + [Sym('&')]
  }

  /** At most MAXARGS - 1 arguments to a command, and only the three redirections. */
  predicate Fits(t: Ast) {
    match t
    case Exec(args) => |args| < MAXARGS
    case Redir(c, kind, _) => Fits(c) && kind in "<>+"
    case Pipe(l, r) => Fits(l) && Fits(r)
    case List(l, r) => Fits(l) && Fits(r)
    case Back(c) => Fits(c)
  }

  // ---- and back ----

  function RedirToks(rs: seq<Redirection>): seq<Tok> {
    if rs == [] then [] else [Sym(rs[0].kind), Word(rs[0].file)] + RedirToks(rs[1..])
  }

  predicate Kinds(rs: seq<Redirection>) {
    forall i :: 0 <= i < |rs| ==> rs[i].kind in "<>+"
  }

  /** `rest` ends what precedes it: nothing, or a symbol of `cs`. */
  predicate Stops(rest: seq<Tok>, cs: string) {
    rest == [] || Starts(rest, cs)
  }

  lemma {:induction false} ReadRedirs(qs: seq<Redirection>, rs: seq<Redirection>, rest: seq<Tok>)
    requires Kinds(rs) && !Starts(rest, "<>+")
    ensures ParseRedirs(qs, RedirToks(rs) + rest) == Ok(qs + rs, rest)
    decreases |rs|
  {
    if rs == [] {
      assert RedirToks(rs) + rest == rest && qs + rs == qs;
    } else {
      var ts := RedirToks(rs) + rest;
      assert ts[0] == Sym(rs[0].kind) && ts[1] == Word(rs[0].file) && ts[2..] == RedirToks(rs[1..]) + rest;
      assert Redirection(rs[0].kind, rs[0].file) == rs[0];
      ReadRedirs(qs + [rs[0]], rs[1..], rest);
      assert qs + [rs[0]] + rs[1..] == qs + rs;
    }
  }

  lemma ArgsStep(done: seq<string>, rs: seq<Redirection>, w: string, tail: seq<Tok>)
    requires |done| + 1 < MAXARGS
    ensures ParseArgs(done, rs, [Word(w)] + tail) ==
      (var r := ParseRedirs(rs, tail); if r.Panic? then Panic else ParseArgs(done + [w], r.value, r.rest))
  {
    hide ParseRedirs;
    assert ([Word(w)] + tail)[1..] == tail;
  }

  lemma {:induction false} ReadArgs(done: seq<string>, args: seq<string>, rs: seq<Redirection>, rest: seq<Tok>)
    requires args != [] && |done| + |args| < MAXARGS && Kinds(rs) && Stops(rest, "|)&;")
    ensures ParseArgs(done, [], Words(args) + (RedirToks(rs) + rest)) == Ok(Wrap(Exec(done + args), rs), rest)
    decreases |args|
  {
    hide ParseRedirs, Wrap, RedirToks;
    var more := RedirToks(rs) + rest;
    var tail := Words(args[1..]) + more;
    assert Words(args) + more == [Word(args[0])] + tail;
    assert done + [args[0]] + args[1..] == done + args;
    ArgsStep(done, [], args[0], tail);
    if |args| == 1 {
      assert tail == more;
      ReadRedirs([], rs, rest);
      assert [] + rs == rs && done + [args[0]] == done + args;
    } else {
      assert tail[0] == Word(args[1]);
      NoRedirs(tail);
      hide ParseArgs, Words;
      ReadArgs(done + [args[0]], args[1..], rs, rest);
    }
  }

  lemma NoRedirs(ts: seq<Tok>)
    requires !Starts(ts, "<>+")
    ensures ParseRedirs([], ts) == Ok([], ts)
  {
  }

  lemma {:induction false} WrapFirst(t: Ast, r: Redirection, rs: seq<Redirection>)
    ensures Wrap(t, [r] + rs) == Wrap(Redir(t, r.kind, r.file), rs)
    decreases |rs|
  {
    if rs != [] {
      assert ([r] + rs)[..|rs|] == [r] + rs[..|rs| - 1];
      WrapFirst(t, r, rs[..|rs| - 1]);
    } else {
      assert ([r] + rs)[..0] == [];
    }
  }

  /** The order in which the following lemmas rely on each other. */
  function Turn(t: Ast, ctx: nat): nat
    requires ctx <= 3
  {
    if Level(t) < ctx then 13 - ctx else 3 - ctx
  }

  lemma ReadCommand(args: seq<string>, rs: seq<Redirection>, rest: seq<Tok>)
    requires |args| < MAXARGS && Kinds(rs) && Stops(rest, "|)&;")
    ensures ParseExec(Words(args) + (RedirToks(rs) + rest)) == Ok(Wrap(Exec(args), rs), rest)
  {
    hide ParseRedirs, Wrap, ParseArgs;
    var ts := Words(args) + (RedirToks(rs) + rest);
    if args == [] {
      assert ts == RedirToks(rs) + rest;
      ReadRedirs([], rs, rest);
      assert [] + rs == rs;
      ArgsStop(rs, rest);
      assert !Starts(ts, "(") by { if rs != [] { assert ts[0] == Sym(rs[0].kind); } }
    } else {
      assert ts[0] == Word(args[0]);
      NoRedirs(ts);
      ReadArgs([], args, rs, rest);
      assert [] + args == args;
    }
  }

  lemma ArgsStop(rs: seq<Redirection>, rest: seq<Tok>)
    requires Stops(rest, "|)&;")
    ensures ParseArgs([], rs, rest) == Ok(Wrap(Exec([]), rs), rest)
  {
    hide Wrap;
  }

  lemma ReadBlock(line: seq<Tok>, t: Ast, rs: seq<Redirection>, rest: seq<Tok>)
    requires Kinds(rs) && !Starts(rest, "<>+")
    requires ParseLine(line + ([Sym(')')] + (RedirToks(rs) + rest))) == Ok(t, [Sym(')')] + (RedirToks(rs) + rest))
    ensures ParseExec([Sym('(')] + line + [Sym(')')] + (RedirToks(rs) + rest)) == Ok(Wrap(t, rs), rest)
  {
    hide ParseLine, ParseRedirs, Wrap, RedirToks;
    var more := RedirToks(rs) + rest;
    var ts := [Sym('(')] + line + [Sym(')')] + more;
    assert ts[1..] == line + ([Sym(')')] + more) && ts[0] == Sym('(');
    assert ([Sym(')')] + more)[1..] == more;
    ReadRedirs([], rs, rest);
    assert [] + rs == rs;
  }

  lemma {:induction false} ReadExec(t: Ast, rs: seq<Redirection>, rest: seq<Tok>)
    requires Fits(t) && Kinds(rs) && Stops(rest, "|)&;")
    ensures ParseExec(Toks(t, 3) + (RedirToks(rs) + rest)) == Ok(Wrap(t, rs), rest)
    decreases t, Turn(t, 3)
  {
    hide ParseExec, ParseLine, Wrap, RedirToks;
    var more := RedirToks(rs) + rest;
    match t
    case Exec(args) =>
      ReadCommand(args, rs, rest);
    case Redir(c, kind, file) =>
      var r := Redirection(kind, file);
      RedirFirst(r, rs);
      assert Toks(t, 3) + more == Toks(c, 3) + (RedirToks([r] + rs) + rest);
      ReadExec(c, [r] + rs, rest);
      WrapFirst(c, r, rs);
    case _ =>
      ReadLine(t, [Sym(')')] + more);
      ReadBlock(Toks(t, 0), t, rs, rest);
  }

  lemma RedirFirst(r: Redirection, rs: seq<Redirection>)
    ensures RedirToks([r] + rs) == [Sym(r.kind), Word(r.file)] + RedirToks(rs)
  {
    assert ([r] + rs)[1..] == rs;
  }

  lemma FitsParts(t: Ast)
    requires Fits(t) && t.Pipe?
    ensures Fits(t.left) && Fits(t.right)
  {
  }

  lemma NoRedirToks()
    ensures RedirToks([]) == []
  {
  }

  lemma NoWrap(t: Ast)
    ensures Wrap(t, []) == t
  {
  }

  lemma {:induction false} ReadPipe(t: Ast, rest: seq<Tok>)
    requires Fits(t) && Stops(rest, ")&;")
    ensures ParsePipe(Toks(t, 2) + rest) == Ok(t, rest)
    decreases t, Turn(t, 2)
  {
    hide ParseExec, Wrap, Fits;
    NoWrap(t);
    NoRedirToks();
    hide RedirToks;
    if t.Pipe? {
      FitsParts(t);
      NoWrap(t.left);
      var tail := [Sym('|')] + Toks(t.right, 2) + rest;
      assert Toks(t, 2) + rest == Toks(t.left, 3) + (RedirToks([]) + tail);
      ReadExec(t.left, [], tail);
      assert tail[1..] == Toks(t.right, 2) + rest;
      ReadPipe(t.right, rest);
    } else {
      assert Toks(t, 2) + rest == Toks(t, 3) + (RedirToks([]) + rest);
      ReadExec(t, [], rest);
    }
  }

  /** What `parseline` does before it looks for a semicolon. */
  function ParseBack(ts: seq<Tok>): Result<Ast> {
    var p := ParsePipe(ts);
    if p.Panic? then Panic else ParseBacks(p.value, p.rest)
  }

  lemma {:induction false} ReadBack(t: Ast, rest: seq<Tok>)
    requires Fits(t) && Stops(rest, ")&;")
    ensures ParseBack(Toks(t, 1) + rest) == ParseBacks(t, rest)
    decreases t, Turn(t, 1)
  {
    if t.Back? {
      assert Toks(t, 1) + rest == Toks(t.cmd, 1) + ([Sym('&')] + rest);
      ReadBack(t.cmd, [Sym('&')] + rest);
      assert ([Sym('&')] + rest)[1..] == rest;
    } else {
      assert Toks(t, 1) == Toks(t, 2);
      ReadPipe(t, rest);
    }
  }

  lemma {:induction false} ReadLine(t: Ast, rest: seq<Tok>)
    requires Fits(t) && Stops(rest, ")")
    ensures ParseLine(Toks(t, 0) + rest) == Ok(t, rest)
    decreases t, Turn(t, 0)
  {
    if t.List? {
      var tail := [Sym(';')] + Toks(t.right, 0) + rest;
      assert Toks(t, 0) + rest == Toks(t.left, 1) + tail;
      ReadBack(t.left, tail);
      assert tail[1..] == Toks(t.right, 0) + rest;
      ReadLine(t.right, rest);
    } else {
      assert Toks(t, 0) == Toks(t, 1);
      ReadBack(t, rest);
    }
  }

  /** Parsing the tokens of a tree gives the tree. */
  lemma ParseToks(t: Ast)
    requires Fits(t)
    ensures ParseCmd(Toks(t, 0)) == Ok(t, [])
  {
    assert Toks(t, 0) + [] == Toks(t, 0);
    ReadLine(t, []);
  }

  // ---- tokens to characters ----

  function Text(t: Tok): string {
    if t.Word? then t.w else if t.c == '+' then ">>" else [t.c]
  }

  function Spell(ts: seq<Tok>): string {
    if ts == [] then "" else Text(ts[0]) + " " + Spell(ts[1..])
  }

  predicate GoodWord(w: string) {
    w != "" && forall i :: 0 <= i < |w| ==> WordChar(w[i])
  }

  predicate Good(t: Tok) {
    if t.Word? then GoodWord(t.w) else t.c in "<|>&;()+"
  }

  lemma {:induction false} WordEndIs(s: string, p: nat, e: nat)
    requires p <= e <= |s| && (forall i :: p <= i < e ==> WordChar(s[i])) && (e < |s| ==> Blank(s[e]))
    ensures WordEnd(s, p) == e
    decreases e - p
  {
    if p < e { WordEndIs(s, p + 1, e); }
  }

  /** A token followed by a blank is read as that token. */
  lemma TokRead(s: string, q: nat, t: Tok)
    requires Good(t) && q + |Text(t)| < |s| && s[q..q + |Text(t)|] == Text(t) && s[q + |Text(t)|] == ' '
    ensures !Blank(s[q]) && TokEnd(s, q) == q + |Text(t)| && TokOf(s, q) == t
  {
    var e := q + |Text(t)|;
    assert s[q] == s[q..e][0] == Text(t)[0];
    if t.Word? {
      forall i | q <= i < e ensures WordChar(s[i]) { assert s[i] == s[q..e][i - q]; }
      WordEndIs(s, q, e);
    } else if t.c == '+' {
      assert s[q + 1] == s[q..e][1];
    }
  }

  lemma SkipOne(s: string, p: nat)
    requires p < |s| && Blank(s[p])
    ensures Lex(s, p) == Lex(s, p + 1)
  {
    assert SkipBlanks(s, p) == SkipBlanks(s, p + 1);
  }

  lemma {:induction false} LexSpell(pre: string, ts: seq<Tok>)
    requires forall i :: 0 <= i < |ts| ==> Good(ts[i])
    ensures Lex(pre + Spell(ts), |pre|) == ts
    decreases |ts|
  {
    hide Lex, TokOf, TokEnd, Text, Good, Blank;
    var s := pre + Spell(ts);
    if ts == [] {
      assert s == pre;
      LexEnd(s);
    } else {
      var x := Text(ts[0]);
      SpellFirst(pre, ts);
      TokRead(s, |pre|, ts[0]);
      LexFirst(s, |pre|);
      BlankSpace();
      SkipOne(s, |pre| + |x|);
      hide Spell;
      LexSpell(pre + x + " ", ts[1..]);
      assert ts == [ts[0]] + ts[1..];
    }
  }

  lemma BlankSpace()
    ensures Blank(' ')
  {
  }

  lemma SpellFirst(pre: string, ts: seq<Tok>)
    requires ts != []
    ensures var s, x := pre + Spell(ts), Text(ts[0]);
      && s == pre + x + " " + Spell(ts[1..]) && |pre| + |x| < |s| && s[|pre|..|pre| + |x|] == x && s[|pre| + |x|] == ' '
  {
    hide Text;
    Around(pre, Text(ts[0]), Spell(ts[1..]));
  }

  lemma Around(pre: string, x: string, r: string)
    ensures var s := pre + (x + " " + r);
      && s == pre + x + " " + r && |pre| + |x| < |s| && s[|pre|..|pre| + |x|] == x && s[|pre| + |x|] == ' '
  {
    assert pre + (x + " " + r) == pre + x + " " + r;
  }

  lemma LexEnd(s: string)
    ensures Lex(s, |s|) == []
  {
  }

  lemma LexFirst(s: string, p: nat)
    requires p < |s| && !Blank(s[p])
    ensures Lex(s, p) == [TokOf(s, p)] + Lex(s, TokEnd(s, p))
  {
    assert SkipBlanks(s, p) == p;
  }

  /** Arguments and file names are nonempty and have no blanks, symbols or NULs in them. */
  predicate GoodTree(t: Ast) {
    match t
    case Exec(args) => forall i :: 0 <= i < |args| ==> GoodWord(args[i])
    case Redir(c, kind, file) => GoodTree(c) && kind in "<>+" && GoodWord(file)
    case Pipe(l, r) => GoodTree(l) && GoodTree(r)
    case List(l, r) => GoodTree(l) && GoodTree(r)
    case Back(c) => GoodTree(c)
  }

  lemma {:induction false} WordsGood(args: seq<string>)
    requires forall i :: 0 <= i < |args| ==> GoodWord(args[i])
    ensures forall i :: 0 <= i < |Words(args)| ==> Good(Words(args)[i])
  {
    if args != [] { WordsGood(args[1..]); }
  }

  lemma {:induction false} ToksGood(t: Ast, ctx: nat)
    requires GoodTree(t)
    ensures forall i :: 0 <= i < |Toks(t, ctx)| ==> Good(Toks(t, ctx)[i])
    decreases t, if Level(t) < ctx then 1 else 0
  {
    if Level(t) < ctx {
      ToksGood(t, 0);
    } else {
      match t
      case Exec(args) => WordsGood(args);
      case Redir(c, kind, file) => ToksGood(c, 3);
      case Pipe(l, r) => ToksGood(l, 3); ToksGood(r, 2);
      case List(l, r) => ToksGood(l, 1); ToksGood(r, 0);
      case Back(c) => ToksGood(c, 1);
    }
  }

  function Print(t: Ast): string {
    Spell(Toks(t, 0))
  }

  /** Printing a tree and parsing what was printed gives the tree. */
  lemma PrintParse(t: Ast)
    requires Fits(t) && GoodTree(t)
    ensures ParseCmd(Lex(Print(t), 0)) == Ok(t, [])
  {
    ToksGood(t, 0);
    LexSpell("", Toks(t, 0));
    assert "" + Spell(Toks(t, 0)) == Print(t);
    ParseToks(t);
  }

  // ---- what the parser accepts ----

  /** No more arguments than fit, and words that can be read back: what the parser makes of a line. */
  predicate Sound(t: Ast) {
    Fits(t) && GoodTree(t)
  }

  predicate AllGood(ts: seq<Tok>) {
    forall i :: 0 <= i < |ts| ==> Good(ts[i])
  }

  predicate GoodRedirs(rs: seq<Redirection>) {
    forall i :: 0 <= i < |rs| ==> rs[i].kind in "<>+" && GoodWord(rs[i].file)
  }

  predicate NoNul(s: string) {
    forall i :: 0 <= i < |s| ==> s[i] != '\0'
  }

  lemma TokGood(s: string, q: nat)
    requires NoNul(s) && q < |s| && !Blank(s[q])
    ensures Good(TokOf(s, q))
  {
    if !Symbol(s[q]) {
      var e := TokEnd(s, q);
      forall i | 0 <= i < |s[q..e]| ensures WordChar(s[q..e][i]) { assert s[q..e][i] == s[q + i]; }
    }
  }

  lemma {:induction false} LexGood(s: string, p: nat)
    requires NoNul(s) && p <= |s|
    ensures AllGood(Lex(s, p))
    decreases |s| - p
  {
    var q := SkipBlanks(s, p);
    if q < |s| {
      TokGood(s, q);
      hide Good, TokOf, TokEnd, NoNul;
      LexGood(s, TokEnd(s, q));
    }
  }

  lemma {:induction false} WrapSound(t: Ast, rs: seq<Redirection>)
    requires Sound(t) && GoodRedirs(rs)
    ensures Sound(Wrap(t, rs))
    decreases |rs|
  {
    if rs != [] { WrapSound(t, rs[..|rs| - 1]); }
  }

  lemma {:induction false} RedirsSound(rs: seq<Redirection>, ts: seq<Tok>)
    requires GoodRedirs(rs) && AllGood(ts)
    ensures var r := ParseRedirs(rs, ts); r.Ok? ==> GoodRedirs(r.value) && AllGood(r.rest)
    decreases |ts|
  {
    if Starts(ts, "<>+") && |ts| >= 2 && ts[1].Word? {
      assert Good(ts[1]);
      RedirsSound(rs + [Redirection(ts[0].c, ts[1].w)], ts[2..]);
    }
  }

  lemma {:induction false} ArgsSound(args: seq<string>, rs: seq<Redirection>, ts: seq<Tok>)
    requires |args| < MAXARGS && (forall i :: 0 <= i < |args| ==> GoodWord(args[i])) && GoodRedirs(rs) && AllGood(ts)
    ensures var r := ParseArgs(args, rs, ts); r.Ok? ==> Sound(r.value) && AllGood(r.rest)
    decreases |ts|
  {
    if ts == [] || Starts(ts, "|)&;") {
      WrapSound(Exec(args), rs);
    } else if ts[0].Word? && |args| + 1 < MAXARGS {
      assert Good(ts[0]);
      RedirsSound(rs, ts[1..]);
      hide GoodRedirs, ParseRedirs, GoodWord;
      var r := ParseRedirs(rs, ts[1..]);
      if r.Ok? { ArgsSound(args + [ts[0].w], r.value, r.rest); }
    }
  }

  lemma {:induction false} ExecSound(ts: seq<Tok>)
    requires AllGood(ts)
    ensures var r := ParseExec(ts); r.Ok? ==> Sound(r.value) && AllGood(r.rest)
    decreases |ts|, 0
  {
    hide Sound, ParseArgs, ParseRedirs, ParseBlock, Good;
    if Starts(ts, "(") {
      BlockSound(ts);
    } else {
      RedirsSound([], ts);
      var r := ParseRedirs([], ts);
      if r.Ok? { ArgsSound([], r.value, r.rest); }
    }
  }

  lemma {:induction false} BlockSound(ts: seq<Tok>)
    requires AllGood(ts) && Starts(ts, "(")
    ensures var r := ParseBlock(ts); r.Ok? ==> Sound(r.value) && AllGood(r.rest)
    decreases |ts| - 1, 3
  {
    hide Sound, ParseRedirs, ParseLine, Good, Wrap;
    LineSound(ts[1..]);
    var l := ParseLine(ts[1..]);
    if l.Ok? && Starts(l.rest, ")") {
      RedirsSound([], l.rest[1..]);
      var r := ParseRedirs([], l.rest[1..]);
      if r.Ok? { WrapSound(l.value, r.value); }
    }
  }

  lemma {:induction false} PipeSound(ts: seq<Tok>)
    requires AllGood(ts)
    ensures var r := ParsePipe(ts); r.Ok? ==> Sound(r.value) && AllGood(r.rest)
    decreases |ts|, 1
  {
    hide ParseExec, Good;
    ExecSound(ts);
    var l := ParseExec(ts);
    if l.Ok? && Starts(l.rest, "|") { PipeSound(l.rest[1..]); }
  }

  lemma {:induction false} BacksSound(t: Ast, ts: seq<Tok>)
    requires Sound(t) && AllGood(ts)
    ensures Sound(ParseBacks(t, ts).value) && AllGood(ParseBacks(t, ts).rest)
    decreases |ts|
  {
    if Starts(ts, "&") { BacksSound(Back(t), ts[1..]); }
  }

  lemma {:induction false} LineSound(ts: seq<Tok>)
    requires AllGood(ts)
    ensures var r := ParseLine(ts); r.Ok? ==> Sound(r.value) && AllGood(r.rest)
    decreases |ts|, 2
  {
    hide ParsePipe, ParseBacks, Good;
    PipeSound(ts);
    var p := ParsePipe(ts);
    if p.Ok? {
      BacksSound(p.value, p.rest);
      var l := ParseBacks(p.value, p.rest);
      if Starts(l.rest, ";") { LineSound(l.rest[1..]); }
    }
  }

  /** Printing what the parser makes of any line that it accepts, and parsing that, gives the same tree. */
  lemma Reparse(s: string)
    requires NoNul(s) && ParseCmd(Lex(s, 0)).Ok?
    ensures var t := ParseCmd(Lex(s, 0)).value; Fits(t) && GoodTree(t) && ParseCmd(Lex(Print(t), 0)) == Ok(t, [])
  {
    LexGood(s, 0);
    LineSound(Lex(s, 0));
    hide ParseLine, Lex;
    PrintParse(ParseLine(Lex(s, 0)).value);
  }

  // ---- the characters that matter ----

  /** Neither blank nor symbol nor NUL. */
  predicate Plain(w: string) {
    w != "" && forall i :: 0 <= i < |w| ==> w[i] !in " \t\r\n\U{0B}<|>&;()\0"
  }

  lemma PlainGood(w: string)
    ensures Plain(w) <==> GoodWord(w)
  {
  }

  /** The stretch of `s` from `p` to `e` is a word. */
  ghost predicate IsWord(s: string, p: nat, e: nat) {
    && p < e <= |s| && Plain(s[p..e]) && (e < |s| ==> s[e] in " \t\r\n\U{0B}<|>&;()")
  }

  lemma WordChars(s: string, p: nat, e: nat)
    requires IsWord(s, p, e)
    ensures !Blank(s[p]) && !Symbol(s[p]) && WordEnd(s, p) == e
  {
    forall i | p <= i < e ensures WordChar(s[i]) { assert s[i] == s[p..e][i - p]; }
    WordEnds(s, p, e);
  }

  lemma PlainAt(s: string, p: nat, e: nat)
    requires IsWord(s, p, e)
    ensures Lex(s, p) == [Word(s[p..e])] + Lex(s, e)
  {
    WordChars(s, p, e);
    hide Lex, Plain, WordEnd, IsWord;
    LexFirst(s, p);
    assert s[p] != '>' by { GreaterSymbol(); }
  }

  lemma GreaterSymbol()
    ensures Symbol('>')
  {
  }

  lemma {:induction false} WordEnds(s: string, p: nat, e: nat)
    requires p <= e <= |s| && (forall i :: p <= i < e ==> WordChar(s[i])) && (e < |s| ==> Blank(s[e]) || Symbol(s[e]))
    ensures WordEnd(s, p) == e
    decreases e - p
  {
    if p < e { WordEnds(s, p + 1, e); }
  }

  lemma BlankAt(s: string, p: nat)
    requires p < |s| && s[p] in " \t\r\n\U{0B}"
    ensures Lex(s, p) == Lex(s, p + 1)
  {
    SkipOne(s, p);
  }

  lemma SymbolAt(s: string, p: nat)
    requires p < |s| && s[p] in "<|>&;()" && (p + 1 < |s| ==> s[p + 1] != '>')
    ensures Lex(s, p) == [Sym(s[p])] + Lex(s, p + 1)
  {
    LexFirst(s, p);
    hide Lex;
  }

  lemma AppendAt(s: string, p: nat)
    requires p + 1 < |s| && s[p] == s[p + 1] == '>'
    ensures Lex(s, p) == [Sym('+')] + Lex(s, p + 2)
  {
    LexFirst(s, p);
    hide Lex;
  }

  lemma BetweenParts(a: string, m: string, b: string, s: string)
    requires Plain(a) && Plain(b) && m != "" && m[0] in " \t\r\n\U{0B}<|>&;()" && s == a + m + b
    ensures IsWord(s, 0, |a|) && IsWord(s, |a| + |m|, |s|) && s[0..|a|] == a && s[|a| + |m|..|s|] == b
    ensures (forall i :: 0 <= i < |m| ==> s[|a| + i] == m[i]) && s[|a| + |m|] != '>'
  {
    assert s[0..|a|] == a && s[|a|] == m[0] && s[|a| + |m|] == b[0] && s[|a| + |m|..|s|] == b;
    assert b[0] != '>';
    hide Plain;
  }

  /** Two words with something between them. */
  lemma Between(s: string, p: nat, q: nat)
    requires IsWord(s, 0, p) && IsWord(s, q, |s|)
    ensures Lex(s, 0) == [Word(s[0..p])] + Lex(s, p) && Lex(s, q) == [Word(s[q..|s|])]
  {
    PlainAt(s, 0, p);
    PlainAt(s, q, |s|);
    LexEnd(s);
    hide *;
  }

  /** Any of the five blanks separates two words. */
  lemma BlanksSeparate(a: string, c: char, b: string)
    requires Plain(a) && Plain(b) && c in " \t\r\n\U{0B}"
    ensures Lex(a + [c] + b, 0) == [Word(a), Word(b)]
  {
    hide Lex, Plain, IsWord;
    var s := a + [c] + b;
    BetweenParts(a, [c], b, s);
    Between(s, |a|, |a| + 1);
    BlankAt(s, |a|);
  }

  /** Any of the seven symbols does, and is a token of its own. */
  lemma SymbolsSeparate(a: string, c: char, b: string)
    requires Plain(a) && Plain(b) && c in "<|>&;()"
    ensures Lex(a + [c] + b, 0) == [Word(a), Sym(c), Word(b)]
  {
    hide Lex, Plain, IsWord;
    var s := a + [c] + b;
    BetweenParts(a, [c], b, s);
    Between(s, |a|, |a| + 1);
    SymbolAt(s, |a|);
  }

  /** And so do two `>`, which are one token. */
  lemma AppendSeparates(a: string, b: string)
    requires Plain(a) && Plain(b)
    ensures Lex(a + ">>" + b, 0) == [Word(a), Sym('+'), Word(b)]
  {
    hide Lex, Plain, IsWord;
    var s := a + ">>" + b;
    BetweenParts(a, ">>", b, s);
    Between(s, |a|, |a| + 2);
    AppendAt(s, |a|);
  }

  lemma WordsStep(w: string, rest: seq<string>)
    ensures Words([w] + rest) == [Word(w)] + Words(rest) && !Starts(Words(rest), "<>+|)&;(")
  {
    assert ([w] + rest)[1..] == rest;
    assert rest != [] ==> Words(rest)[0] == Word(rest[0]);
  }

  lemma ArgsEnd(args: seq<string>)
    ensures ParseArgs(args, [], []) == Ok(Exec(args), [])
  {
  }

  lemma ArgsTooMany(args: seq<string>, w: string, rest: seq<Tok>)
    requires |args| == 9
    ensures ParseArgs(args, [], [Word(w)] + rest) == Panic
  {
  }

  /** A command has at most nine words. */
  lemma {:induction false} WordLimit(args: seq<string>, rest: seq<string>)
    requires |args| < 10
    ensures ParseArgs(args, [], Words(rest)) == if |args| + |rest| < 10 then Ok(Exec(args + rest), []) else Panic
    decreases |rest|
  {
    hide ParseArgs, ParseRedirs;
    if rest == [] {
      assert args + rest == args;
      ArgsEnd(args);
    } else {
      var w, more := rest[0], rest[1..];
      assert rest == [w] + more && args + [w] + more == args + rest;
      WordsStep(w, more);
      hide Words;
      if |args| == 9 {
        ArgsTooMany(args, w, Words(more));
      } else {
        ArgsStep(args, [], w, Words(more));
        NoRedirs(Words(more));
        WordLimit(args + [w], more);
      }
    }
  }

  lemma CommandLimit(args: seq<string>)
    ensures ParseCmd(Words(args)) == if |args| < 10 then Ok(Exec(args), []) else Panic
  {
    WordsStep("", args);
    WordLimit([], args);
    assert [] + args == args;
    NoRedirs(Words(args));
    hide ParseArgs, ParseRedirs, Words;
    LineOfCommand(Words(args));
  }

  lemma LineOfCommand(ts: seq<Tok>)
    requires !Starts(ts, "(") && ParseRedirs([], ts) == Ok([], ts)
    requires var r := ParseArgs([], [], ts); r.Ok? ==> r.rest == []
    ensures ParseCmd(ts) == ParseArgs([], [], ts)
  {
    hide ParseArgs, ParseRedirs;
    assert ParseExec(ts) == ParseArgs([], [], ts);
    assert ParsePipe(ts) == ParseArgs([], [], ts);
    hide ParseExec, ParsePipe;
  }
}
