/**
 The shell's grammar, apart from the parser: what a line derives, token by token, and the command each
 derivation stands for. The parser accepts exactly the lines that have a derivation, and builds its command.
 */
module ShellGrammar {
  import opened ShellSyntax

  // ---------- The tokens of a line ----------

  datatype Lexeme<W> = Mark(tok: Tok) | Text(word: W)

  function LexemeOf(t: Token): Lexeme<Span> { if t.tok == Word then Text(Span(t.q, t.eq)) else Mark(t.tok) }

  // From i the tokens are ls, and the one after them is at j.
  predicate Reads(s: string, i: nat, ls: seq<Lexeme<Span>>, j: nat)
    requires i <= |s|
    decreases |ls|
  {
    if ls == [] then j == SkipSpace(s, i)
    else
      var t := GetToken(s, i);
      t.tok != End && LexemeOf(t) == ls[0] && Reads(s, t.next, ls[1..], j)
  }

  // ---------- Derivations ----------

  predicate IsRedirOp(op: Tok) { op == Sym('<') || op == Sym('>') || op == Append }

  datatype RedirT<W> = RedirT(op: Tok, file: W)

  datatype ArgT<W> = ArgT(word: W, rs: seq<RedirT<W>>)

  // exec: "(" line ")" redir*  |  redir* (word redir*)*
  datatype ExecT<W> = Block(line: LineT<W>, rs: seq<RedirT<W>>) | Simple(rs: seq<RedirT<W>>, args: seq<ArgT<W>>)

  // pipe: exec  |  exec "|" pipe
  datatype PipeT<W> = OnePipe(cmd: ExecT<W>) | MorePipe(cmd: ExecT<W>, rest: PipeT<W>)

  // line: pipe "&"*  |  pipe "&"* ";" line
  datatype LineT<W> = OneLine(cmd: PipeT<W>, amps: nat) | MoreLine(cmd: PipeT<W>, amps: nat, rest: LineT<W>)

  function FlatRedirs<W>(rs: seq<RedirT<W>>): seq<Lexeme<W>> {
    if rs == [] then [] else [Mark(rs[0].op), Text(rs[0].file)] + FlatRedirs(rs[1..])
  }

  function FlatArgs<W>(args: seq<ArgT<W>>): seq<Lexeme<W>> {
    if args == [] then [] else [Text(args[0].word)] + FlatRedirs(args[0].rs) + FlatArgs(args[1..])
  }

  function Amps<W>(n: nat): seq<Lexeme<W>> { if n == 0 then [] else [Mark(Sym('&'))] + Amps(n - 1) }

  function FlatExec<W>(x: ExecT<W>): seq<Lexeme<W>> {
    match x
    case Block(line, rs) => [Mark(Sym('('))] + (FlatLine(line) + ([Mark(Sym(')'))] + FlatRedirs(rs)))
    case Simple(rs, args) => FlatRedirs(rs) + FlatArgs(args)
  }

  function FlatPipe<W>(x: PipeT<W>): seq<Lexeme<W>> {
    match x
    case OnePipe(cmd) => FlatExec(cmd)
    case MorePipe(cmd, rest) => FlatExec(cmd) + ([Mark(Sym('|'))] + FlatPipe(rest))
  }

  function FlatLine<W>(x: LineT<W>): seq<Lexeme<W>> {
    match x
    case OneLine(cmd, n) => FlatPipe(cmd) + Amps(n)
    case MoreLine(cmd, n, rest) => FlatPipe(cmd) + Amps(n) + ([Mark(Sym(';'))] + FlatLine(rest))
  }

  predicate GoodRedirs<W>(rs: seq<RedirT<W>>) { forall k :: 0 <= k < |rs| ==> IsRedirOp(rs[k].op) }

  predicate GoodArgs<W>(args: seq<ArgT<W>>) { forall k :: 0 <= k < |args| ==> GoodRedirs(args[k].rs) }

  // Redirections have one of the three operators, and a command fewer than MAXARGS words.
  predicate GoodExec<W>(x: ExecT<W>) {
    match x
    case Block(line, rs) => GoodLine(line) && GoodRedirs(rs)
    case Simple(rs, args) => GoodRedirs(rs) && |args| < MAXARGS && GoodArgs(args)
  }

  predicate GoodPipe<W>(x: PipeT<W>) {
    match x
    case OnePipe(cmd) => GoodExec(cmd)
    case MorePipe(cmd, rest) => GoodExec(cmd) && GoodPipe(rest)
  }

  predicate GoodLine<W>(x: LineT<W>) {
    match x
    case OneLine(cmd, n) => GoodPipe(cmd)
    case MoreLine(cmd, n, rest) => GoodPipe(cmd) && GoodLine(rest)
  }

  // ---------- What a derivation stands for ----------

  // The first redirection is the innermost; only "<" is for input.
  function Around<W>(c: Cmd<W>, rs: seq<RedirT<W>>): Cmd<W>
    decreases |rs|
  {
    if rs == [] then c else Around(Redir(c, rs[0].file, rs[0].op == Sym('<')), rs[1..])
  }

  function WordsOf<W>(args: seq<ArgT<W>>): seq<W> { seq(|args|, k requires 0 <= k < |args| => args[k].word) }

  function RedirsOf<W>(args: seq<ArgT<W>>): seq<RedirT<W>> {
    if args == [] then [] else args[0].rs + RedirsOf(args[1..])
  }

  function Backs<W>(c: Cmd<W>, n: nat): Cmd<W> { if n == 0 then c else Back(Backs(c, n - 1)) }

  function TreeExec<W>(x: ExecT<W>): Cmd<W> {
    match x
    case Block(line, rs) => Around(TreeLine(line), rs)
    case Simple(rs, args) => Around(Exec(WordsOf(args)), rs + RedirsOf(args))
  }

  function TreePipe<W>(x: PipeT<W>): Cmd<W> {
    match x
    case OnePipe(cmd) => TreeExec(cmd)
    case MorePipe(cmd, rest) => Pipe(TreeExec(cmd), TreePipe(rest))
  }

  function TreeLine<W>(x: LineT<W>): Cmd<W> {
    match x
    case OneLine(cmd, n) => Backs(TreePipe(cmd), n)
    case MoreLine(cmd, n, rest) => List(Backs(TreePipe(cmd), n), TreeLine(rest))
  }

  // The tokens of the whole line are those of the derivation.
  predicate Derives(s: string, x: LineT<Span>) { GoodLine(x) && Reads(s, 0, FlatLine(x), |s|) }

  // ---------- Reading tokens ----------

  lemma {:induction false} SkipReads(s: string, i: nat, ls: seq<Lexeme<Span>>, j: nat)
    requires i <= |s|
    ensures Reads(s, i, ls, j) <==> Reads(s, SkipSpace(s, i), ls, j)
    ensures SkipSpace(s, SkipSpace(s, i)) == SkipSpace(s, i) && GetToken(s, SkipSpace(s, i)) == GetToken(s, i)
  {
    SkipTwice(s, i);
  }

  lemma {:induction false} Join(s: string, i: nat, a: seq<Lexeme<Span>>, j: nat, b: seq<Lexeme<Span>>, k: nat)
    requires i <= |s| && j <= |s| && Reads(s, i, a, j) && Reads(s, j, b, k)
    ensures Reads(s, i, a + b, k)
    decreases |a|
  {
    if a == [] {
      assert a + b == b;
      SkipReads(s, i, b, k);
    } else {
      assert (a + b)[1..] == a[1..] + b;
      Join(s, GetToken(s, i).next, a[1..], j, b, k);
    }
  }

  lemma {:induction false} Split(s: string, i: nat, a: seq<Lexeme<Span>>, b: seq<Lexeme<Span>>, k: nat) returns (j: nat)
    requires i <= |s| && Reads(s, i, a + b, k)
    ensures i <= j <= |s| && Reads(s, i, a, j) && Reads(s, j, b, k) && SkipSpace(s, j) == j
    ensures a != [] ==> i < j
    decreases |a|
  {
    if a == [] {
      assert a + b == b;
      j := SkipSpace(s, i);
      SkipReads(s, i, b, k);
    } else {
      assert (a + b)[1..] == a[1..] + b;
      j := Split(s, GetToken(s, i).next, a[1..], b, k);
    }
  }

  // What the parser's tests see of the next token.
  lemma Peeks(s: string, i: nat)
    requires i <= |s|
    ensures Peek(s, i, "<>") <==> IsRedirOp(GetToken(s, i).tok)
    ensures Peek(s, i, "|)&;") || GetToken(s, i).tok == End <==> EndsExec(GetToken(s, i).tok)
    ensures Peek(s, i, "(") <==> GetToken(s, i).tok == Sym('(')
    ensures Peek(s, i, ")") <==> GetToken(s, i).tok == Sym(')')
    ensures Peek(s, i, "|") <==> GetToken(s, i).tok == Sym('|')
    ensures Peek(s, i, "&") <==> GetToken(s, i).tok == Sym('&')
    ensures Peek(s, i, ";") <==> GetToken(s, i).tok == Sym(';')
  {
  }

  predicate EndsExec(t: Tok) { t == End || t == Sym('|') || t == Sym(')') || t == Sym('&') || t == Sym(';') }

  lemma {:induction false} One(s: string, i: nat, x: Lexeme<Span>, j: nat)
    requires i <= |s|
    ensures var t := GetToken(s, i);
      Reads(s, i, [x], j) <==> t.tok != End && LexemeOf(t) == x && j == t.next
  {
    var t := GetToken(s, i);
    if t.tok != End { SkipReads(s, t.eq, [], j); }
  }

  // ---------- Redirections ----------

  function Plain(rs: seq<RedirT<Span>>): seq<Redirection<Span>> {
    seq(|rs|, k requires 0 <= k < |rs| => Redirection(rs[k].file, rs[k].op == Sym('<')))
  }

  lemma {:induction false} WrapIsAround(c: Cmd<Span>, rs: seq<RedirT<Span>>)
    ensures Wrap(c, Plain(rs)) == Around(c, rs)
    decreases |rs|
  {
    if rs != [] {
      var first, tail := Plain(rs)[0], Plain(rs[1..]);
      assert Plain(rs) == [first] + tail;
      WrapFirst(c, first, tail);
      WrapIsAround(Redir(c, first.file, first.input), rs[1..]);
    }
  }

  lemma {:induction false} RedirsCons(r: RedirT<Span>, rs: seq<RedirT<Span>>)
    ensures Plain([r] + rs) == [Redirection(r.file, r.op == Sym('<'))] + Plain(rs)
    ensures FlatRedirs([r] + rs) == [Mark(r.op)] + ([Text(r.file)] + FlatRedirs(rs))
    ensures IsRedirOp(r.op) && GoodRedirs(rs) ==> GoodRedirs([r] + rs)
  {
    assert ([r] + rs)[1..] == rs;
  }

  // An operator and the word after it make the first redirection: for input after <, for output after > and >>.
  lemma {:induction false} FirstRedir(s: string, i: nat)
    requires i <= |s| && IsRedirOp(GetToken(s, i).tok)
    ensures var op, r := GetToken(s, i).tok, ParseRedirs(s, i);
      var f := GetToken(s, GetToken(s, i).next);
      && (r.Ok? <==> f.tok == Word && ParseRedirs(s, f.next).Ok?)
      && (r.Ok? ==> r.v != [] && r.v[1..] == ParseRedirs(s, f.next).v && r.i == ParseRedirs(s, f.next).i)
      && (r.Ok? && op == Sym('<') ==> r.v[0] == Redirection(Span(f.q, f.eq), true))
      && (r.Ok? && (op == Sym('>') || op == Append) ==> r.v[0] == Redirection(Span(f.q, f.eq), false))
  {
    Peeks(s, i);
  }

  lemma {:induction false} RedirsComplete(s: string, i: nat, rs: seq<RedirT<Span>>, j: nat)
    requires i <= |s| && j <= |s| && Reads(s, i, FlatRedirs(rs), j) && GoodRedirs(rs)
    requires !IsRedirOp(GetToken(s, j).tok)
    ensures ParseRedirs(s, i) == Ok(Plain(rs), j)
    decreases |rs|
  {
    Peeks(s, i);
    if rs == [] {
      SkipReads(s, i, [], j);
      assert Plain(rs) == [];
    } else {
      var more := rs[1..];
      assert rs == [rs[0]] + more;
      RedirsCons(rs[0], more);
      var f := Split(s, i, [Mark(rs[0].op)], [Text(rs[0].file)] + FlatRedirs(more), j);
      One(s, i, Mark(rs[0].op), f);
      var k := Split(s, f, [Text(rs[0].file)], FlatRedirs(more), j);
      One(s, f, Text(rs[0].file), k);
      RedirsComplete(s, k, more, j);
    }
  }

  lemma {:induction false} RedirsSound(s: string, i: nat) returns (rs: seq<RedirT<Span>>)
    requires i <= |s| && ParseRedirs(s, i).Ok?
    ensures GoodRedirs(rs) && ParseRedirs(s, i).v == Plain(rs) && Reads(s, i, FlatRedirs(rs), ParseRedirs(s, i).i)
    decreases |s| - i
  {
    Peeks(s, i);
    if !IsRedirOp(GetToken(s, i).tok) {
      rs := [];
    } else {
      var op := GetToken(s, i);
      var f := GetToken(s, op.next);
      var more := RedirsSound(s, f.next);
      var first := RedirT(op.tok, Span(f.q, f.eq));
      rs := [first] + more;
      RedirsCons(first, more);
      One(s, i, Mark(op.tok), op.next);
      One(s, op.next, Text(first.file), f.next);
      Join(s, op.next, [Text(first.file)], f.next, FlatRedirs(more), ParseRedirs(s, i).i);
      Join(s, i, [Mark(op.tok)], op.next, [Text(first.file)] + FlatRedirs(more), ParseRedirs(s, i).i);
    }
  }

  // ---------- Words and their redirections ----------

  predicate WordsAt(s: string, argv: seq<Span>) { forall k :: 0 <= k < |argv| ==> WordSpan(s, argv[k]) }

  lemma PlainPlus(a: seq<RedirT<Span>>, b: seq<RedirT<Span>>)
    ensures Plain(a + b) == Plain(a) + Plain(b)
  {
  }

  lemma {:induction false} ArgsCons(x: ArgT<Span>, args: seq<ArgT<Span>>, argv: seq<Span>, rs: seq<RedirT<Span>>)
    ensures FlatArgs([x] + args) == [Text(x.word)] + (FlatRedirs(x.rs) + FlatArgs(args))
    ensures argv + WordsOf([x] + args) == argv + [x.word] + WordsOf(args)
    ensures rs + RedirsOf([x] + args) == rs + x.rs + RedirsOf(args)
    ensures GoodRedirs(x.rs) && GoodArgs(args) ==> GoodArgs([x] + args)
  {
    assert ([x] + args)[1..] == args;
  }

  // One turn of the argument loop.
  lemma {:induction false} ArgsTurn(s: string, i: nat, argv: seq<Span>, rs: seq<RedirT<Span>>, x: ArgT<Span>, j: nat)
    requires i <= |s| && WordsAt(s, argv) && |argv| + 1 < MAXARGS && WordRedirections(s, Plain(rs))
    requires LexemeOf(GetToken(s, i)) == Text(x.word)
    requires ParseRedirs(s, GetToken(s, i).next) == Ok(Plain(x.rs), j)
    ensures WordsAt(s, argv + [x.word]) && WordRedirections(s, Plain(rs + x.rs))
    ensures i < j <= |s| && ParseArgs(s, i, argv, Plain(rs)) == ParseArgs(s, j, argv + [x.word], Plain(rs + x.rs))
  {
    Peeks(s, i);
    PlainPlus(rs, x.rs);
  }

  // The loop's end.
  lemma {:induction false} ArgsEnd(s: string, i: nat, argv: seq<Span>, rs: seq<RedirT<Span>>)
    requires i <= |s| && WordsAt(s, argv) && |argv| < MAXARGS && WordRedirections(s, Plain(rs))
    requires EndsExec(GetToken(s, i).tok)
    ensures ParseArgs(s, i, argv, Plain(rs)) == Ok(Around(Exec(argv + WordsOf([])), rs + RedirsOf([])), SkipSpace(s, i))
  {
    Peeks(s, i);
    WrapIsAround(Exec(argv), rs);
    assert argv + WordsOf([]) == argv && rs + RedirsOf([]) == rs;
  }

  lemma {:induction false} ArgsComplete(s: string, i: nat, args: seq<ArgT<Span>>, argv: seq<Span>,
                                        rs: seq<RedirT<Span>>, j: nat)
    requires i <= |s| && j <= |s| && Reads(s, i, FlatArgs(args), j) && GoodArgs(args)
    requires WordsAt(s, argv) && |argv| + |args| < MAXARGS && WordRedirections(s, Plain(rs))
    requires EndsExec(GetToken(s, j).tok)
    ensures ParseArgs(s, i, argv, Plain(rs)) == Ok(Around(Exec(argv + WordsOf(args)), rs + RedirsOf(args)), j)
    decreases |args|
  {
    if args == [] {
      SkipReads(s, i, [], j);
      ArgsEnd(s, i, argv, rs);
    } else {
      var x, more := args[0], args[1..];
      assert args == [x] + more;
      ArgsCons(x, more, argv, rs);
      var k := Split(s, i, [Text(x.word)], FlatRedirs(x.rs) + FlatArgs(more), j);
      One(s, i, Text(x.word), k);
      var m := Split(s, k, FlatRedirs(x.rs), FlatArgs(more), j);
      ArgsFirst(s, m, more, j);
      RedirsComplete(s, k, x.rs, m);
      ArgsTurn(s, i, argv, rs, x, m);
      ArgsComplete(s, m, more, argv + [x.word], rs + x.rs, j);
    }
  }

  // Before the words and after them the next token is no redirection and opens no block.
  lemma {:induction false} ArgsFirst(s: string, i: nat, args: seq<ArgT<Span>>, j: nat)
    requires i <= |s| && j <= |s| && Reads(s, i, FlatArgs(args), j) && EndsExec(GetToken(s, j).tok)
    ensures !IsRedirOp(GetToken(s, i).tok) && GetToken(s, i).tok != Sym('(')
  {
    if args == [] { SkipReads(s, i, [], j); }
  }

  lemma {:induction false} ArgsSound(s: string, i: nat, argv: seq<Span>, rs: seq<RedirT<Span>>)
    returns (args: seq<ArgT<Span>>)
    requires i <= |s| && WordsAt(s, argv) && |argv| < MAXARGS && WordRedirections(s, Plain(rs))
    requires ParseArgs(s, i, argv, Plain(rs)).Ok?
    ensures var r := ParseArgs(s, i, argv, Plain(rs));
      && GoodArgs(args) && |argv| + |args| < MAXARGS
      && r.v == Around(Exec(argv + WordsOf(args)), rs + RedirsOf(args))
      && Reads(s, i, FlatArgs(args), r.i)
    decreases |s| - i
  {
    Peeks(s, i);
    if EndsExec(GetToken(s, i).tok) {
      args := [];
      ArgsEnd(s, i, argv, rs);
    } else {
      var t := GetToken(s, i);
      var own := RedirsSound(s, t.next);
      var j, x := ParseRedirs(s, t.next).i, ArgT(Span(t.q, t.eq), own);
      ArgsTurn(s, i, argv, rs, x, j);
      var more := ArgsSound(s, j, argv + [x.word], rs + own);
      var k := ParseArgs(s, i, argv, Plain(rs)).i;
      args := [x] + more;
      ArgsCons(x, more, argv, rs);
      One(s, i, Text(x.word), t.next);
      Join(s, t.next, FlatRedirs(own), j, FlatArgs(more), k);
      Join(s, i, [Text(x.word)], t.next, FlatRedirs(own) + FlatArgs(more), k);
    }
  }

  // ---------- Commands: every derivation is parsed ----------

  predicate EndsPipe(t: Tok) { EndsExec(t) && t != Sym('|') }

  predicate EndsLine(t: Tok) { t == End || t == Sym(')') }

  lemma {:induction false} Settled(s: string, i: nat, ls: seq<Lexeme<Span>>, j: nat)
    requires i <= |s| && Reads(s, i, ls, j)
    ensures i <= j <= |s| && SkipSpace(s, j) == j
  {
    assert ls + [] == ls;
    var k := Split(s, i, ls, [], j);
  }

  // A symbol stands between a and b.
  lemma {:induction false} Parted(s: string, i: nat, a: seq<Lexeme<Span>>, t: Tok, b: seq<Lexeme<Span>>, j: nat)
    returns (k: nat, m: nat)
    requires i <= |s| && t != Word && Reads(s, i, a + ([Mark(t)] + b), j)
    ensures i <= k < m <= |s| && Reads(s, i, a, k) && Reads(s, m, b, j)
    ensures GetToken(s, k).tok == t && GetToken(s, k).next == m
  {
    k := Split(s, i, a, [Mark(t)] + b, j);
    m := Split(s, k, [Mark(t)], b, j);
    One(s, k, Mark(t), m);
  }

  lemma {:induction false} Between(s: string, i: nat, a: seq<Lexeme<Span>>, k: nat, b: seq<Lexeme<Span>>, j: nat)
    requires i <= |s| && k <= |s| && Reads(s, i, a, k)
    requires GetToken(s, k).tok != End && GetToken(s, k).tok != Word && Reads(s, GetToken(s, k).next, b, j)
    ensures Reads(s, i, a + ([Mark(GetToken(s, k).tok)] + b), j)
  {
    var t := GetToken(s, k);
    One(s, k, Mark(t.tok), t.next);
    Join(s, k, [Mark(t.tok)], t.next, b, j);
    Join(s, i, a, k, [Mark(t.tok)] + b, j);
  }

  lemma {:induction false} ExecComplete(s: string, i: nat, x: ExecT<Span>, j: nat)
    requires i <= |s| && j <= |s| && Reads(s, i, FlatExec(x), j) && GoodExec(x) && EndsExec(GetToken(s, j).tok)
    ensures ParseExec(s, i) == Ok(TreeExec(x), j)
    decreases x, 1
  {
    Peeks(s, i);
    match x
    case Block(line, rs) =>
      BlockComplete(s, i, line, rs, j);
    case Simple(rs, args) =>
      var k := Split(s, i, FlatRedirs(rs), FlatArgs(args), j);
      ArgsFirst(s, k, args, j);
      RedirsComplete(s, i, rs, k);
      if rs == [] { SkipReads(s, i, [], k); }
      ArgsComplete(s, k, args, [], rs, j);
      assert [] + WordsOf(args) == WordsOf(args);
  }

  lemma {:induction false} BlockComplete(s: string, i: nat, line: LineT<Span>, rs: seq<RedirT<Span>>, j: nat)
    requires i <= |s| && j <= |s| && Reads(s, i, FlatExec(Block(line, rs)), j) && GoodLine(line) && GoodRedirs(rs)
    requires EndsExec(GetToken(s, j).tok)
    ensures ParseExec(s, i) == Ok(Around(TreeLine(line), rs), j)
    decreases line, 4
  {
    var inner := FlatLine(line) + ([Mark(Sym(')'))] + FlatRedirs(rs));
    var k := Split(s, i, [Mark(Sym('('))], inner, j);
    One(s, i, Mark(Sym('(')), k);
    var m, n := Parted(s, k, FlatLine(line), Sym(')'), FlatRedirs(rs), j);
    LineComplete(s, k, line, m);
    RedirsComplete(s, n, rs, j);
    Peeks(s, i);
    Peeks(s, m);
    WrapIsAround(TreeLine(line), rs);
  }

  lemma {:induction false} PipeComplete(s: string, i: nat, x: PipeT<Span>, j: nat)
    requires i <= |s| && j <= |s| && Reads(s, i, FlatPipe(x), j) && GoodPipe(x) && EndsPipe(GetToken(s, j).tok)
    ensures ParsePipe(s, i) == Ok(TreePipe(x), j)
    decreases x, 2
  {
    match x
    case OnePipe(cmd) =>
      ExecComplete(s, i, cmd, j);
      Settled(s, i, FlatExec(cmd), j);
      Peeks(s, j);
    case MorePipe(cmd, rest) =>
      var k, m := Parted(s, i, FlatExec(cmd), Sym('|'), FlatPipe(rest), j);
      ExecComplete(s, i, cmd, k);
      Peeks(s, k);
      PipeComplete(s, m, rest, j);
  }

  lemma {:induction false} BacksInside(c: Cmd<Span>, n: nat)
    ensures Backs(Back(c), n) == Backs(c, n + 1)
  {
    if n > 0 { BacksInside(c, n - 1); }
  }

  lemma {:induction false} AmpsComplete(s: string, i: nat, c: Cmd<Span>, n: nat, j: nat)
    requires i <= |s| && j <= |s| && Reads(s, i, Amps(n), j) && GetToken(s, j).tok != Sym('&') && WordSpans(s, c)
    ensures Ampersands(s, i, c) == (Backs(c, n), j)
    decreases n
  {
    Peeks(s, i);
    if n == 0 {
      SkipReads(s, i, [], j);
    } else {
      var k := Split(s, i, [Mark(Sym('&'))], Amps(n - 1), j);
      One(s, i, Mark(Sym('&')), k);
      AmpsComplete(s, k, Back(c), n - 1, j);
      BacksInside(c, n - 1);
    }
  }

  // A pipeline and the ampersands after it.
  lemma {:induction false} ItemComplete(s: string, i: nat, cmd: PipeT<Span>, n: nat, j: nat) returns (k: nat)
    requires i <= |s| && j <= |s| && Reads(s, i, FlatPipe(cmd) + Amps(n), j) && GoodPipe(cmd)
    requires EndsLine(GetToken(s, j).tok) || GetToken(s, j).tok == Sym(';')
    ensures k <= |s| && ParsePipe(s, i) == Ok(TreePipe(cmd), k)
    ensures Ampersands(s, k, TreePipe(cmd)) == (Backs(TreePipe(cmd), n), j)
    decreases cmd, 4
  {
    k := Split(s, i, FlatPipe(cmd), Amps(n), j);
    if n == 0 {
      SkipReads(s, k, [], j);
    } else {
      var m := Split(s, k, [Mark(Sym('&'))], Amps(n - 1), j);
      One(s, k, Mark(Sym('&')), m);
    }
    PipeComplete(s, i, cmd, k);
    AmpsComplete(s, k, TreePipe(cmd), n, j);
  }

  lemma {:induction false} LineComplete(s: string, i: nat, x: LineT<Span>, j: nat)
    requires i <= |s| && j <= |s| && Reads(s, i, FlatLine(x), j) && GoodLine(x) && EndsLine(GetToken(s, j).tok)
    ensures ParseLine(s, i) == Ok(TreeLine(x), j)
    decreases x, 3
  {
    match x
    case OneLine(cmd, n) =>
      var k := ItemComplete(s, i, cmd, n, j);
      Peeks(s, j);
    case MoreLine(cmd, n, rest) =>
      var k, m := Parted(s, i, FlatPipe(cmd) + Amps(n), Sym(';'), FlatLine(rest), j);
      var h := ItemComplete(s, i, cmd, n, k);
      Peeks(s, k);
      LineComplete(s, m, rest, j);
  }

  // ---------- Commands: every parse has a derivation ----------

  lemma {:induction false} ExecSound(s: string, i: nat) returns (x: ExecT<Span>)
    requires i <= |s| && ParseExec(s, i).Ok?
    ensures GoodExec(x) && ParseExec(s, i).v == TreeExec(x) && Reads(s, i, FlatExec(x), ParseExec(s, i).i)
    decreases |s| - i, 1
  {
    Peeks(s, i);
    if Peek(s, i, "(") {
      x := BlockSound(s, i);
    } else {
      var rs := RedirsSound(s, i);
      var j, k := ParseRedirs(s, i).i, ParseExec(s, i).i;
      var args := ArgsSound(s, j, [], rs);
      assert [] + WordsOf(args) == WordsOf(args);
      x := Simple(rs, args);
      Join(s, i, FlatRedirs(rs), j, FlatArgs(args), k);
    }
  }

  lemma {:induction false} BlockSound(s: string, i: nat) returns (x: ExecT<Span>)
    requires i <= |s| && Peek(s, i, "(") && ParseBlock(s, i).Ok?
    ensures GoodExec(x) && ParseBlock(s, i).v == TreeExec(x) && Reads(s, i, FlatExec(x), ParseBlock(s, i).i)
    decreases |s| - i, 0
  {
    Peeks(s, i);
    var k := GetToken(s, i).next;
    var line := LineSound(s, k);
    var m := ParseLine(s, k).i;
    Peeks(s, m);
    var rs := RedirsSound(s, GetToken(s, m).next);
    x := Block(line, rs);
    WrapIsAround(TreeLine(line), rs);
    var j := ParseBlock(s, i).i;
    Between(s, k, FlatLine(line), m, FlatRedirs(rs), j);
    One(s, i, Mark(Sym('(')), k);
    Join(s, i, [Mark(Sym('('))], k, FlatLine(line) + ([Mark(Sym(')'))] + FlatRedirs(rs)), j);
  }

  lemma {:induction false} PipeSound(s: string, i: nat) returns (x: PipeT<Span>)
    requires i <= |s| && ParsePipe(s, i).Ok?
    ensures GoodPipe(x) && ParsePipe(s, i).v == TreePipe(x) && Reads(s, i, FlatPipe(x), ParsePipe(s, i).i)
    decreases |s| - i, 2
  {
    var cmd := ExecSound(s, i);
    var k := ParseExec(s, i).i;
    Peeks(s, k);
    if Peek(s, k, "|") {
      var rest := PipeSound(s, GetToken(s, k).next);
      x := MorePipe(cmd, rest);
      Between(s, i, FlatExec(cmd), k, FlatPipe(rest), ParsePipe(s, i).i);
    } else {
      x := OnePipe(cmd);
      Settled(s, i, FlatExec(cmd), k);
    }
  }

  lemma {:induction false} AmpsSound(s: string, i: nat, c: Cmd<Span>) returns (n: nat)
    requires i <= |s| && WordSpans(s, c)
    ensures Ampersands(s, i, c).0 == Backs(c, n) && Reads(s, i, Amps(n), Ampersands(s, i, c).1)
    decreases |s| - i
  {
    Peeks(s, i);
    if Peek(s, i, "&") {
      var k := GetToken(s, i).next;
      var more := AmpsSound(s, k, Back(c));
      n := more + 1;
      BacksInside(c, more);
      One(s, i, Mark(Sym('&')), k);
      Join(s, i, [Mark(Sym('&'))], k, Amps(more), Ampersands(s, i, c).1);
    } else {
      n := 0;
    }
  }

  lemma {:induction false} LineSound(s: string, i: nat) returns (x: LineT<Span>)
    requires i <= |s| && ParseLine(s, i).Ok?
    ensures GoodLine(x) && ParseLine(s, i).v == TreeLine(x) && Reads(s, i, FlatLine(x), ParseLine(s, i).i)
    decreases |s| - i, 3
  {
    var cmd := PipeSound(s, i);
    var j := ParsePipe(s, i).i;
    var n := AmpsSound(s, j, TreePipe(cmd));
    var k := Ampersands(s, j, TreePipe(cmd)).1;
    Join(s, i, FlatPipe(cmd), j, Amps(n), k);
    Peeks(s, k);
    if Peek(s, k, ";") {
      var rest := LineSound(s, GetToken(s, k).next);
      x := MoreLine(cmd, n, rest);
      Between(s, i, FlatPipe(cmd) + Amps(n), k, FlatLine(rest), ParseLine(s, i).i);
    } else {
      x := OneLine(cmd, n);
    }
  }

  // The parser accepts exactly the lines that have a derivation, and builds what the derivation stands for.
  lemma {:induction false} ParsesExactly(s: string)
    ensures ParseCmd(s).Ok? <==> exists x :: Derives(s, x)
    ensures forall x :: Derives(s, x) ==> ParseCmd(s) == Ok(TreeLine(x), |s|)
  {
    forall x | Derives(s, x)
      ensures ParseCmd(s) == Ok(TreeLine(x), |s|)
    {
      LineComplete(s, 0, x, |s|);
    }
    if ParseCmd(s).Ok? {
      var x := LineSound(s, 0);
      var j := ParseLine(s, 0).i;
      Settled(s, 0, FlatLine(x), j);
      assert Derives(s, x);
    }
  }
}
