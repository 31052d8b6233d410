/**
 The shell's parser as sh.c runs it: pointers into the line buffer advanced by loops, the argument
 array filled in place, and nulterminate writing the ends of the words into the buffer afterwards.
 */
module ShellParser {
  import opened ShellSyntax
  import G = ShellGrammar

  // The buffer holds the C string s: its characters, then the terminating zero.
  ghost predicate Holds(buf: array<char>, s: string)
    reads buf
  {
    && buf.Length == |s| + 1 && buf[|s|] == '\0'
    && forall k :: 0 <= k < |s| ==> buf[k] == s[k] && s[k] != '\0'
  }

  // ---------- White space before a token makes no difference ----------

  lemma RedirsSkip(s: string, i: nat)
    requires i <= |s|
    ensures ParseRedirs(s, SkipSpace(s, i)) == ParseRedirs(s, i)
  {
    SkipTwice(s, i);
  }

  lemma AmpersandsSkip(s: string, i: nat, c: Cmd<Span>)
    requires i <= |s| && WordSpans(s, c)
    ensures Ampersands(s, SkipSpace(s, i), c) == Ampersands(s, i, c)
  {
    SkipTwice(s, i);
  }

  lemma ArgsSkip(s: string, i: nat, argv: seq<Span>, rs: seq<Redirection<Span>>)
    requires i <= |s| && |argv| < MAXARGS && (forall k :: 0 <= k < |argv| ==> WordSpan(s, argv[k]))
    requires WordRedirections(s, rs)
    ensures ParseArgs(s, SkipSpace(s, i), argv, rs) == ParseArgs(s, i, argv, rs)
  {
    SkipTwice(s, i);
  }

  // ---------- Tokens ----------

  method Skip(buf: array<char>, es: nat, i: nat, ghost s: string) returns (j: nat)
    requires Holds(buf, s) && es == |s| && i <= |s|
    ensures j == SkipSpace(s, i)
  {
    j := i;
    while j < es && IsSpace(buf[j])
      invariant i <= j <= |s| && SkipSpace(s, j) == SkipSpace(s, i)
    {
      j := j + 1;
    }
  }

  method Gettoken(buf: array<char>, es: nat, i: nat, ghost s: string) returns (t: Token)
    requires Holds(buf, s) && es == |s| && i <= |s|
    ensures t == GetToken(s, i)
  {
    var q := Skip(buf, es, i, s);
    var p, tok := q, End;
    if buf[q] == '\0' {
    } else if buf[q] == '>' {
      p, tok := p + 1, Sym('>');
      if buf[p] == '>' {
        p, tok := p + 1, Append;
      }
    } else if IsSymbol(buf[q]) {
      p, tok := p + 1, Sym(buf[q]);
    } else {
      tok := Word;
      while p < es && !IsSpace(buf[p]) && !IsSymbol(buf[p])
        invariant q <= p <= |s| && WordEnd(s, p) == WordEnd(s, q)
      {
        p := p + 1;
      }
    }
    var next := Skip(buf, es, p, s);
    t := Token(tok, q, p, next);
  }

  method PeekFor(buf: array<char>, es: nat, i: nat, toks: string, ghost s: string) returns (found: bool, j: nat)
    requires Holds(buf, s) && es == |s| && i <= |s| && '\0' !in toks
    ensures found == Peek(s, i, toks) && j == SkipSpace(s, i)
  {
    j := Skip(buf, es, i, s);
    found := buf[j] != '\0' && buf[j] in toks;
  }

  // ---------- Redirections ----------

  // What a list of redirections makes of the command in front of it.
  function Redirect(c: Cmd<Span>, rs: Parsed<seq<Redirection<Span>>>): Parsed<Cmd<Span>> {
    match rs
    case Panic => Panic
    case Ok(rs, j) => Ok(Wrap(c, rs), j)
  }

  method Parseredirs(c: Cmd<Span>, buf: array<char>, es: nat, i: nat, ghost s: string) returns (r: Parsed<Cmd<Span>>)
    requires Holds(buf, s) && es == |s| && i <= |s|
    ensures r == Redirect(c, ParseRedirs(s, i))
  {
    var cmd := c;
    var found, p := PeekFor(buf, es, i, "<>", s);
    RedirsSkip(s, i);
    while found
      invariant p <= |s| && found == Peek(s, p, "<>") && p == SkipSpace(s, p)
      invariant Redirect(cmd, ParseRedirs(s, p)) == Redirect(c, ParseRedirs(s, i))
      decreases |s| - p
    {
      var op := Gettoken(buf, es, p, s);
      var f := Gettoken(buf, es, op.next, s);
      if f.tok != Word {
        return Panic;
      }
      ghost var was, more := cmd, ParseRedirs(s, f.next);
      ghost var first := Redirection(Span(f.q, f.eq), op.tok == Sym('<'));
      if more.Ok? { WrapFirst(was, first, more.v); }
      cmd := Redir(cmd, Span(f.q, f.eq), op.tok == Sym('<'));
      RedirsSkip(s, f.next);
      SkipTwice(s, f.next);
      found, p := PeekFor(buf, es, f.next, "<>", s);
    }
    r := Ok(cmd, p);
  }

  // ---------- Commands ----------

  // The command that parseexec builds is written through `cmd` while `ret` already points at the
  // redirections around it: the words at the core of a chain of redirections.
  function WithArgv<W>(c: Cmd<W>, argv: seq<W>): Cmd<W> {
    match c
    case Exec(_) => Exec(argv)
    case Redir(d, file, input) => Redir(WithArgv(d, argv), file, input)
    case _ => c
  }

  lemma {:induction false} WithArgvWrap<W>(was: seq<W>, rs: seq<Redirection<W>>, argv: seq<W>)
    ensures WithArgv(Wrap(Exec(was), rs), argv) == Wrap(Exec(argv), rs)
    decreases |rs|
  {
    if rs != [] { WithArgvWrap(was, rs[..|rs| - 1], argv); }
  }

  lemma {:induction false} WrapMore<W>(c: Cmd<W>, rs: seq<Redirection<W>>, more: seq<Redirection<W>>)
    ensures Wrap(Wrap(c, rs), more) == Wrap(c, rs + more)
    decreases |more|
  {
    var all := rs + more;
    if more == [] {
      assert all == rs;
    } else {
      assert all[..|all| - 1] == rs + more[..|more| - 1];
      WrapMore(c, rs, more[..|more| - 1]);
    }
  }

  predicate SpanPrefix(s: string, argv: seq<Span>) { forall k :: 0 <= k < |argv| ==> WordSpan(s, argv[k]) }

  // One turn of the argument loop: a word, and the redirections after it.
  lemma ArgsTurn(s: string, p: nat, argv: seq<Span>, rs: seq<Redirection<Span>>)
    requires p <= |s| && |argv| + 1 < MAXARGS && SpanPrefix(s, argv) && WordRedirections(s, rs)
    requires !Peek(s, p, "|)&;") && GetToken(s, p).tok == Word
    ensures var t, r := GetToken(s, p), ParseRedirs(s, GetToken(s, p).next);
      && (r.Panic? ==> ParseArgs(s, p, argv, rs) == Panic)
      && (r.Ok? ==>
            && SpanPrefix(s, argv + [Span(t.q, t.eq)]) && WordRedirections(s, rs + r.v)
            && ParseArgs(s, p, argv, rs) == ParseArgs(s, r.i, argv + [Span(t.q, t.eq)], rs + r.v)
            && Wrap(Wrap(Exec([]), rs), r.v) == Wrap(Exec([]), rs + r.v))
  {
    var r := ParseRedirs(s, GetToken(s, p).next);
    if r.Ok? { WrapMore<Span>(Exec([]), rs, r.v); }
  }

  predicate RemainsAt(s: string, p: nat, argv: seq<Span>, rs: seq<Redirection<Span>>, cur: Cmd<Span>,
                      r: Parsed<Cmd<Span>>, z: int) {
    && p <= |s| && p == SkipSpace(s, p) && |argv| < MAXARGS && SpanPrefix(s, argv) && WordRedirections(s, rs)
    && cur == Wrap(Exec([]), rs) && ParseArgs(s, p, argv, rs) == r
  }

  // The argument loop at p, with argv and rs collected and cur built around them, has r to return;
  // quantified over an unused z so that the verifier unfolds it only where asked to.
  ghost predicate Remains(s: string, p: nat, argv: seq<Span>, rs: seq<Redirection<Span>>, cur: Cmd<Span>,
                          r: Parsed<Cmd<Span>>) {
    forall z {:trigger RemainsAt(s, p, argv, rs, cur, r, z)} :: RemainsAt(s, p, argv, rs, cur, r, z)
  }

  lemma LoopBegins(s: string, i: nat, rs: seq<Redirection<Span>>)
    requires i <= |s| && WordRedirections(s, rs)
    ensures Remains(s, SkipSpace(s, i), [], rs, Wrap(Exec([]), rs), ParseArgs(s, i, [], rs))
  {
    SkipTwice(s, i);
    ArgsSkip(s, i, [], rs);
  }

  lemma LoopEnds(s: string, p: nat, argv: seq<Span>, rs: seq<Redirection<Span>>, cur: Cmd<Span>, r: Parsed<Cmd<Span>>)
    requires Remains(s, p, argv, rs, cur, r) && p <= |s| && (Peek(s, p, "|)&;") || GetToken(s, p).tok == End)
    ensures r == Ok(WithArgv(cur, argv), p)
  {
    assert RemainsAt(s, p, argv, rs, cur, r, 0);
    WithArgvWrap([], rs, argv);
  }

  lemma LoopPanics(s: string, p: nat, argv: seq<Span>, rs: seq<Redirection<Span>>, cur: Cmd<Span>, r: Parsed<Cmd<Span>>)
    requires Remains(s, p, argv, rs, cur, r) && p <= |s| && !Peek(s, p, "|)&;") && GetToken(s, p).tok != End
    requires GetToken(s, p).tok != Word || |argv| + 1 >= MAXARGS
    ensures r == Panic
  {
    assert RemainsAt(s, p, argv, rs, cur, r, 0);
  }

  lemma LoopTurns(s: string, p: nat, argv: seq<Span>, rs: seq<Redirection<Span>>, cur: Cmd<Span>, r: Parsed<Cmd<Span>>)
    requires Remains(s, p, argv, rs, cur, r) && p <= |s| && !Peek(s, p, "|)&;") && GetToken(s, p).tok == Word
    requires |argv| + 1 < MAXARGS
    ensures var t := GetToken(s, p);
      var m := ParseRedirs(s, t.next);
      if m.Panic? then r == Panic
      else p < m.i <= |s| && Remains(s, SkipSpace(s, m.i), argv + [Span(t.q, t.eq)], rs + m.v, Wrap(cur, m.v), r)
  {
    assert RemainsAt(s, p, argv, rs, cur, r, 0);
    ArgsTurn(s, p, argv, rs);
    var t := GetToken(s, p);
    var m := ParseRedirs(s, t.next);
    if m.Ok? {
      SkipTwice(s, m.i);
      ArgsSkip(s, m.i, argv + [Span(t.q, t.eq)], rs + m.v);
    }
  }

  // The words of a simple command, collected into cmd->argv.
  method Words(ret: Cmd<Span>, buf: array<char>, es: nat, i: nat, ghost s: string, ghost rs: seq<Redirection<Span>>)
    returns (r: Parsed<Cmd<Span>>)
    requires Holds(buf, s) && es == |s| && i <= |s| && WordRedirections(s, rs) && ret == Wrap(Exec([]), rs)
    ensures r == ParseArgs(s, i, [], rs)
  {
    var argv := new Span[MAXARGS](_ => Span(0, 0));
    var argc, cur := 0, ret;
    ghost var all, result := rs, ParseArgs(s, i, [], rs);
    LoopBegins(s, i, rs);
    var found, p := PeekFor(buf, es, i, "|)&;", s);
    SkipTwice(s, i);
    assert argv[..argc] == [];
    while !found
      invariant Holds(buf, s) && p <= |s| && found == Peek(s, p, "|)&;")
      invariant argc < MAXARGS && Remains(s, p, argv[..argc], all, cur, result)
      decreases |s| - p
    {
      var t := Gettoken(buf, es, p, s);
      if t.tok == End {
        break;
      }
      if t.tok != Word {
        LoopPanics(s, p, argv[..argc], all, cur, result);
        return Panic;
      }
      ghost var before := argv[..argc];
      argv[argc] := Span(t.q, t.eq);
      argc := argc + 1;
      if argc >= MAXARGS {
        LoopPanics(s, p, before, all, cur, result);
        return Panic;
      }
      assert argv[..argc] == before + [Span(t.q, t.eq)];
      LoopTurns(s, p, before, all, cur, result);
      var next := Parseredirs(cur, buf, es, t.next, s);
      if next.Panic? {
        return Panic;
      }
      cur := next.v;
      all := all + ParseRedirs(s, t.next).v;
      SkipTwice(s, next.i);
      found, p := PeekFor(buf, es, next.i, "|)&;", s);
    }
    LoopEnds(s, p, argv[..argc], all, cur, result);
    r := Ok(WithArgv(cur, argv[..argc]), p);
  }

  method Parseexec(buf: array<char>, es: nat, i: nat, ghost s: string) returns (r: Parsed<Cmd<Span>>)
    requires Holds(buf, s) && es == |s| && i <= |s|
    ensures r == ParseExec(s, i)
    decreases |s| - i, 1
  {
    var block, p := PeekFor(buf, es, i, "(", s);
    if block {
      r := Parseblock(buf, es, i, s);
      return;
    }
    var ret := Parseredirs(Exec([]), buf, es, i, s);
    if ret.Panic? {
      return Panic;
    }
    r := Words(ret.v, buf, es, ret.i, s, ParseRedirs(s, i).v);
  }

  method Parseblock(buf: array<char>, es: nat, i: nat, ghost s: string) returns (r: Parsed<Cmd<Span>>)
    requires Holds(buf, s) && es == |s| && i <= |s| && Peek(s, i, "(")
    ensures r == ParseBlock(s, i)
    decreases |s| - i, 0
  {
    var open := Gettoken(buf, es, i, s);
    var line := Parseline(buf, es, open.next, s);
    if line.Panic? {
      return Panic;
    }
    var closed, p := PeekFor(buf, es, line.i, ")", s);
    if !closed {
      return Panic;
    }
    SkipTwice(s, line.i);
    var close := Gettoken(buf, es, p, s);
    r := Parseredirs(line.v, buf, es, close.next, s);
  }

  method Parsepipe(buf: array<char>, es: nat, i: nat, ghost s: string) returns (r: Parsed<Cmd<Span>>)
    requires Holds(buf, s) && es == |s| && i <= |s|
    ensures r == ParsePipe(s, i)
    decreases |s| - i, 2
  {
    r := Parseexec(buf, es, i, s);
    if r.Panic? {
      return;
    }
    var bar, p := PeekFor(buf, es, r.i, "|", s);
    SkipTwice(s, r.i);
    if !bar {
      return Ok(r.v, p);
    }
    var t := Gettoken(buf, es, p, s);
    var right := Parsepipe(buf, es, t.next, s);
    return match right case Panic => Panic case Ok(c, k) => Ok(Pipe(r.v, c), k);
  }

  method Parseline(buf: array<char>, es: nat, i: nat, ghost s: string) returns (r: Parsed<Cmd<Span>>)
    requires Holds(buf, s) && es == |s| && i <= |s|
    ensures r == ParseLine(s, i)
    decreases |s| - i, 3
  {
    r := Parsepipe(buf, es, i, s);
    if r.Panic? {
      return;
    }
    var c, p := Background(r.v, buf, es, r.i, s);
    var semi, k := PeekFor(buf, es, p, ";", s);
    SkipTwice(s, p);
    if !semi {
      return Ok(c, k);
    }
    var t := Gettoken(buf, es, k, s);
    var right := Parseline(buf, es, t.next, s);
    return match right case Panic => Panic case Ok(d, m) => Ok(List(c, d), m);
  }

  // The & loop of parseline.
  method Background(c: Cmd<Span>, buf: array<char>, es: nat, i: nat, ghost s: string) returns (d: Cmd<Span>, p: nat)
    requires Holds(buf, s) && es == |s| && i <= |s| && WordSpans(s, c)
    ensures (d, p) == Ampersands(s, i, c) && SkipSpace(s, p) == p
  {
    var amp;
    d := c;
    amp, p := PeekFor(buf, es, i, "&", s);
    SkipTwice(s, i);
    AmpersandsSkip(s, i, c);
    while amp
      invariant p <= |s| && p == SkipSpace(s, p) && amp == Peek(s, p, "&") && WordSpans(s, d)
      invariant Ampersands(s, p, d) == Ampersands(s, i, c)
      decreases |s| - p
    {
      var t := Gettoken(buf, es, p, s);
      d := Back(d);
      amp, p := PeekFor(buf, es, t.next, "&", s);
      SkipTwice(s, t.next);
      AmpersandsSkip(s, t.next, d);
    }
  }

  // ---------- nulterminate ----------

  // Where the words of a command end.
  function Ends(c: Cmd<Span>): set<nat> {
    match c
    case Exec(argv) => set k | 0 <= k < |argv| :: argv[k].eq
    case Redir(d, file, input) => Ends(d) + {file.eq}
    case Pipe(l, r) => Ends(l) + Ends(r)
    case List(l, r) => Ends(l) + Ends(r)
    case Back(d) => Ends(d)
  }

  // now is was with zeros exactly at `at`.
  ghost predicate Zeroed(was: seq<char>, now: seq<char>, at: set<nat>) {
    |now| == |was| && forall k: nat | k < |was| :: now[k] == if k in at then '\0' else was[k]
  }

  lemma ZeroedTwice(a: seq<char>, b: seq<char>, c: seq<char>, at: set<nat>, more: set<nat>)
    requires Zeroed(a, b, at) && Zeroed(b, c, more)
    ensures Zeroed(a, c, at + more)
  {
  }

  lemma {:induction false} EndsInLine(s: string, c: Cmd<Span>)
    requires WordSpans(s, c)
    ensures forall e :: e in Ends(c) ==> e <= |s| && (e < |s| ==> !IsWord(s[e]))
    decreases c
  {
    match c
    case Exec(argv) =>
    case Redir(d, file, input) => EndsInLine(s, d);
    case Pipe(l, r) => EndsInLine(s, l); EndsInLine(s, r);
    case List(l, r) => EndsInLine(s, l); EndsInLine(s, r);
    case Back(d) => EndsInLine(s, d);
  }

  method ZeroEnds(argv: seq<Span>, buf: array<char>)
    requires forall k :: 0 <= k < |argv| ==> argv[k].eq < buf.Length
    modifies buf
    ensures Zeroed(old(buf[..]), buf[..], Ends(Exec(argv)))
  {
    var i := 0;
    while i < |argv|
      invariant 0 <= i <= |argv|
      invariant Zeroed(old(buf[..]), buf[..], set k | 0 <= k < i :: argv[k].eq)
    {
      buf[argv[i].eq] := '\0';
      i := i + 1;
    }
  }

  method Nulterminate(c: Cmd<Span>, buf: array<char>, ghost s: string)
    requires WordSpans(s, c) && |s| < buf.Length
    modifies buf
    ensures Zeroed(old(buf[..]), buf[..], Ends(c))
    decreases c
  {
    match c
    case Exec(argv) =>
      ZeroEnds(argv, buf);
    case Redir(d, file, input) =>
      Nulterminate(d, buf, s);
      buf[file.eq] := '\0';
    case Pipe(l, r) =>
      Nulterminate(l, buf, s);
      ghost var mid := buf[..];
      Nulterminate(r, buf, s);
      ZeroedTwice(old(buf[..]), mid, buf[..], Ends(l), Ends(r));
    case List(l, r) =>
      Nulterminate(l, buf, s);
      ghost var mid := buf[..];
      Nulterminate(r, buf, s);
      ZeroedTwice(old(buf[..]), mid, buf[..], Ends(l), Ends(r));
    case Back(d) =>
      Nulterminate(d, buf, s);
  }

  // The C string at p.
  function CString(b: seq<char>, p: nat): string
    requires p <= |b|
    decreases |b| - p
  {
    if p == |b| || b[p] == '\0' then [] else [b[p]] + CString(b, p + 1)
  }

  lemma {:induction false} CStringRun(b: seq<char>, p: nat, e: nat)
    requires p <= e < |b| && b[e] == '\0' && forall k :: p <= k < e ==> b[k] != '\0'
    ensures CString(b, p) == b[p..e]
    decreases e - p
  {
    if p < e {
      CStringRun(b, p + 1, e);
      assert b[p..e] == [b[p]] + b[p + 1..e];
    }
  }

  // The words of a command, wherever they occur in it.
  function Tokens(c: Cmd<Span>): set<Span> {
    match c
    case Exec(argv) => set k | 0 <= k < |argv| :: argv[k]
    case Redir(d, file, input) => Tokens(d) + {file}
    case Pipe(l, r) => Tokens(l) + Tokens(r)
    case List(l, r) => Tokens(l) + Tokens(r)
    case Back(d) => Tokens(d)
  }

  lemma {:induction false} TokenEnds(s: string, c: Cmd<Span>, w: Span)
    requires WordSpans(s, c) && w in Tokens(c)
    ensures WordSpan(s, w) && w.eq in Ends(c)
    decreases c
  {
    match c
    case Exec(argv) =>
    case Redir(d, file, input) => if w != file { TokenEnds(s, d, w); }
    case Pipe(l, r) => if w in Tokens(l) { TokenEnds(s, l, w); } else { TokenEnds(s, r, w); }
    case List(l, r) => if w in Tokens(l) { TokenEnds(s, l, w); } else { TokenEnds(s, r, w); }
    case Back(d) => TokenEnds(s, d, w);
  }

  /** After nulterminate every word, read as a C string, is exactly its token: no zero falls inside one. */
  lemma WordsAreTokens(s: string, c: Cmd<Span>, was: seq<char>, now: seq<char>, w: Span)
    requires WordSpans(s, c) && w in Tokens(c)
    requires |was| == |s| + 1 && was[..|s|] == s && '\0' !in s
    requires Zeroed(was, now, Ends(c))
    ensures w.q <= w.eq <= |s| && CString(now, w.q) == s[w.q..w.eq]
  {
    TokenEnds(s, c, w);
    EndsInLine(s, c);
    forall k: nat | w.q <= k < w.eq ensures now[k] == s[k] && now[k] != '\0' {
      assert IsWord(s[k]) && k !in Ends(c);
      assert was[k] == was[..|s|][k];
    }
    CStringRun(now, w.q, w.eq);
  }

  method Strlen(buf: array<char>, ghost s: string) returns (n: nat)
    requires Holds(buf, s)
    ensures n == |s|
  {
    n := 0;
    while buf[n] != '\0'
      invariant n <= |s|
      decreases |s| - n
    {
      n := n + 1;
    }
  }

  // A line that the shell refuses, with panic(), is left as it was.
  method Parsecmd(buf: array<char>, ghost s: string) returns (r: Parsed<Cmd<Span>>)
    requires Holds(buf, s)
    modifies buf
    ensures r == ParseCmd(s)
    ensures r.Ok? <==> exists x :: G.Derives(s, x)
    ensures forall x :: G.Derives(s, x) ==> r == Ok(G.TreeLine(x), |s|)
    ensures r.Panic? ==> buf[..] == old(buf[..])
    ensures r.Ok? ==> forall w :: w in Tokens(r.v) ==> w.q <= w.eq <= |s| && CString(buf[..], w.q) == s[w.q..w.eq]
  {
    G.ParsesExactly(s);
    var es := Strlen(buf, s);
    r := Parseline(buf, es, 0, s);
    if r.Panic? {
      return;
    }
    var _, p := PeekFor(buf, es, r.i, "", s);
    if p != es {
      return Panic;
    }
    r := Ok(r.v, p);
    ghost var was := buf[..];
    assert was[..|s|] == s;
    Nulterminate(r.v, buf, s);
    forall w | w in Tokens(r.v) ensures w.q <= w.eq <= |s| && CString(buf[..], w.q) == s[w.q..w.eq] {
      TokenEnds(s, r.v, w);
      WordsAreTokens(s, r.v, was, buf[..], w);
    }
  }
}
