/**
 The shell's grammar as sh.c parses it: tokens and commands as functions of the input line. A parse
 that the shell would end with panic() yields Panic.
 */
module ShellSyntax {

  const MAXARGS := 10

  predicate IsSpace(c: char) { c == ' ' || c == '\t' || c == '\r' || c == '\n' || c == 11 as char }

  predicate IsSymbol(c: char) {
    c == '<' || c == '|' || c == '>' || c == '&' || c == ';' || c == '(' || c == ')'
  }

  predicate IsWord(c: char) { !IsSpace(c) && !IsSymbol(c) }

  // A word of the input, as the pair of pointers the parser keeps.
  datatype Span = Span(q: nat, eq: nat)

  // Both > and >> open the file for writing and creation on descriptor 1.
  datatype Cmd<W> =
    | Exec(argv: seq<W>)
    | Redir(cmd: Cmd<W>, file: W, input: bool)
    | Pipe(left: Cmd<W>, right: Cmd<W>)
    | List(left: Cmd<W>, right: Cmd<W>)
    | Back(cmd: Cmd<W>)

  datatype Tok = End | Sym(c: char) | Append | Word

  datatype Token = Token(tok: Tok, q: nat, eq: nat, next: nat)

  datatype Parsed<T> = Ok(v: T, i: nat) | Panic

  // ---------- Tokens ----------

  function SkipSpace(s: string, i: nat): (j: nat)
    requires i <= |s|
    ensures i <= j <= |s| && (j < |s| ==> !IsSpace(s[j]))
    decreases |s| - i
  {
    if i < |s| && IsSpace(s[i]) then SkipSpace(s, i + 1) else i
  }

  function WordEnd(s: string, i: nat): (j: nat)
    requires i <= |s|
    ensures i <= j <= |s| && (j < |s| ==> !IsWord(s[j]))
    decreases |s| - i
  {
    if i < |s| && IsWord(s[i]) then WordEnd(s, i + 1) else i
  }

  lemma {:induction false} WordRun(s: string, i: nat)
    requires i <= |s|
    ensures forall k :: i <= k < WordEnd(s, i) ==> IsWord(s[k])
    decreases |s| - i
  {
    if i < |s| && IsWord(s[i]) { WordRun(s, i + 1); }
  }

  function GetToken(s: string, i: nat): (t: Token)
    requires i <= |s|
    ensures i <= t.q <= t.eq <= t.next <= |s| && (t.tok != End ==> t.q < t.eq)
    ensures t.tok == Word ==> WordSpan(s, Span(t.q, t.eq))
  {
    var q := SkipSpace(s, i);
    if q == |s| then Token(End, q, q, q)
    else if s[q] == '>' then
      if q + 1 < |s| && s[q + 1] == '>' then Token(Append, q, q + 2, SkipSpace(s, q + 2))
      else Token(Sym('>'), q, q + 1, SkipSpace(s, q + 1))
    else if IsSymbol(s[q]) then Token(Sym(s[q]), q, q + 1, SkipSpace(s, q + 1))
    else
      var eq := WordEnd(s, q);
      WordRun(s, q);
      Token(Word, q, eq, SkipSpace(s, eq))
  }

  // A maximal run of word characters.
  predicate WordSpan(s: string, w: Span) {
    w.q < w.eq <= |s| && (forall k :: w.q <= k < w.eq ==> IsWord(s[k])) && (w.eq < |s| ==> !IsWord(s[w.eq]))
  }

  predicate Peek(s: string, i: nat, toks: string)
    requires i <= |s|
  {
    var j := SkipSpace(s, i);
    j < |s| && s[j] in toks
  }

  // White space before a token makes no difference.
  lemma SkipTwice(s: string, i: nat)
    requires i <= |s|
    ensures var j := SkipSpace(s, i);
      SkipSpace(s, j) == j && GetToken(s, j) == GetToken(s, i) && forall toks :: Peek(s, j, toks) == Peek(s, i, toks)
  {
  }

  lemma {:induction false} SkipRun(s: string, i: nat)
    requires i <= |s|
    ensures forall k :: i <= k < SkipSpace(s, i) ==> IsSpace(s[k])
    decreases |s| - i
  {
    if i < |s| && IsSpace(s[i]) { SkipRun(s, i + 1); }
  }

  // A token, told from the characters of the line.
  lemma {:induction false} TokenIs(s: string, i: nat)
    requires i <= |s|
    ensures var t := GetToken(s, i);
      && (forall k :: i <= k < t.q || t.eq <= k < t.next ==> IsSpace(s[k]))
      && (t.q < |s| ==> !IsSpace(s[t.q])) && (t.next < |s| ==> !IsSpace(s[t.next]))
      && (t.tok == End <==> t.q == |s|)
      && (t.tok == Append <==> t.q + 1 < |s| && s[t.q] == '>' && s[t.q + 1] == '>')
      && (t.tok == Word <==> t.q < |s| && IsWord(s[t.q]))
      && (t.tok.Sym? ==> t.q < |s| && IsSymbol(s[t.q]) && t.tok.c == s[t.q] && t.eq == t.q + 1)
      && (t.tok == Append ==> t.eq == t.q + 2)
      && (t.tok == Word ==> WordSpan(s, Span(t.q, t.eq)))
  {
    SkipRun(s, i);
    SkipRun(s, GetToken(s, i).eq);
  }

  // ---------- Commands ----------

  datatype Redirection<W> = Redirection(file: W, input: bool)

  function Wrap<W>(c: Cmd<W>, rs: seq<Redirection<W>>): Cmd<W> {
    if rs == [] then c else Redir(Wrap(c, rs[..|rs| - 1]), rs[|rs| - 1].file, rs[|rs| - 1].input)
  }

  lemma {:induction false} WrapFirst<W>(c: Cmd<W>, r: Redirection<W>, rs: seq<Redirection<W>>)
    ensures Wrap(c, [r] + rs) == Wrap(Redir(c, r.file, r.input), rs)
    decreases |rs|
  {
    var all := [r] + rs;
    if rs != [] {
      assert all[..|all| - 1] == [r] + rs[..|rs| - 1];
      WrapFirst(c, r, rs[..|rs| - 1]);
    } else {
      assert all[..|all| - 1] == [];
    }
  }

  predicate WordSpans(s: string, c: Cmd<Span>) {
    match c
    case Exec(argv) => |argv| < MAXARGS && forall k :: 0 <= k < |argv| ==> WordSpan(s, argv[k])
    case Redir(c, file, input) => WordSpans(s, c) && WordSpan(s, file)
    case Pipe(l, r) => WordSpans(s, l) && WordSpans(s, r)
    case List(l, r) => WordSpans(s, l) && WordSpans(s, r)
    case Back(c) => WordSpans(s, c)
  }

  predicate WordRedirections(s: string, rs: seq<Redirection<Span>>) {
    forall k :: 0 <= k < |rs| ==> WordSpan(s, rs[k].file)
  }

  lemma {:induction false} WrapSpans(s: string, c: Cmd<Span>, rs: seq<Redirection<Span>>)
    requires WordSpans(s, c) && WordRedirections(s, rs)
    ensures WordSpans(s, Wrap(c, rs))
    decreases |rs|
  {
    if rs != [] { WrapSpans(s, c, rs[..|rs| - 1]); }
  }

  function ParseRedirs(s: string, i: nat): (r: Parsed<seq<Redirection<Span>>>)
    requires i <= |s|
    ensures r.Ok? ==> i <= r.i <= |s| && WordRedirections(s, r.v)
    decreases |s| - i
  {
    if !Peek(s, i, "<>") then Ok([], SkipSpace(s, i))
    else
      var op := GetToken(s, i);
      var f := GetToken(s, op.next);
      if f.tok != Word then Panic
      else
        match ParseRedirs(s, f.next)
        case Panic => Panic
        case Ok(rs, j) => Ok([Redirection(Span(f.q, f.eq), op.tok == Sym('<'))] + rs, j)
  }

  // The argument loop of parseexec, with what it has collected so far.
  function ParseArgs(s: string, i: nat, argv: seq<Span>, rs: seq<Redirection<Span>>): (r: Parsed<Cmd<Span>>)
    requires i <= |s| && |argv| < MAXARGS && (forall k :: 0 <= k < |argv| ==> WordSpan(s, argv[k]))
    requires WordRedirections(s, rs)
    ensures r.Ok? ==> i <= r.i <= |s| && WordSpans(s, r.v)
    decreases |s| - i
  {
    WrapSpans(s, Exec(argv), rs);
    var t := GetToken(s, i);
    if Peek(s, i, "|)&;") || t.tok == End then Ok(Wrap(Exec(argv), rs), SkipSpace(s, i))
    else if t.tok != Word || |argv| + 1 >= MAXARGS then Panic
    else
      match ParseRedirs(s, t.next)
      case Panic => Panic
      case Ok(more, j) => ParseArgs(s, j, argv + [Span(t.q, t.eq)], rs + more)
  }

  function ParseExec(s: string, i: nat): (r: Parsed<Cmd<Span>>)
    requires i <= |s|
    ensures r.Ok? ==> i <= r.i <= |s| && WordSpans(s, r.v)
    decreases |s| - i, 1
  {
    if Peek(s, i, "(") then ParseBlock(s, i)
    else
      match ParseRedirs(s, i)
      case Panic => Panic
      case Ok(rs, j) => ParseArgs(s, j, [], rs)
  }

  function ParseBlock(s: string, i: nat): (r: Parsed<Cmd<Span>>)
    requires i <= |s| && Peek(s, i, "(")
    ensures r.Ok? ==> i <= r.i <= |s| && WordSpans(s, r.v)
    decreases |s| - i, 0
  {
    match ParseLine(s, GetToken(s, i).next)
    case Panic => Panic
    case Ok(c, j) =>
      if !Peek(s, j, ")") then Panic
      else
        match ParseRedirs(s, GetToken(s, j).next)
        case Panic => Panic
        case Ok(rs, k) => WrapSpans(s, c, rs); Ok(Wrap(c, rs), k)
  }

  function ParsePipe(s: string, i: nat): (r: Parsed<Cmd<Span>>)
    requires i <= |s|
    ensures r.Ok? ==> i <= r.i <= |s| && WordSpans(s, r.v)
    decreases |s| - i, 2
  {
    match ParseExec(s, i)
    case Panic => Panic
    case Ok(c, j) =>
      if !Peek(s, j, "|") then Ok(c, SkipSpace(s, j))
      else
        match ParsePipe(s, GetToken(s, j).next)
        case Panic => Panic
        case Ok(right, k) => Ok(Pipe(c, right), k)
  }

  // The & loop of parseline.
  function Ampersands(s: string, i: nat, c: Cmd<Span>): (r: (Cmd<Span>, nat))
    requires i <= |s| && WordSpans(s, c)
    ensures i <= r.1 <= |s| && WordSpans(s, r.0)
    decreases |s| - i
  {
    if Peek(s, i, "&") then Ampersands(s, GetToken(s, i).next, Back(c)) else (c, SkipSpace(s, i))
  }

  function ParseLine(s: string, i: nat): (r: Parsed<Cmd<Span>>)
    requires i <= |s|
    ensures r.Ok? ==> i <= r.i <= |s| && WordSpans(s, r.v)
    decreases |s| - i, 3
  {
    match ParsePipe(s, i)
    case Panic => Panic
    case Ok(c, j) =>
      var (d, k) := Ampersands(s, j, c);
      if !Peek(s, k, ";") then Ok(d, k)
      else
        match ParseLine(s, GetToken(s, k).next)
        case Panic => Panic
        case Ok(right, m) => Ok(List(d, right), m)
  }

  function ParseCmd(s: string): (r: Parsed<Cmd<Span>>)
    ensures r.Ok? ==> WordSpans(s, r.v)
  {
    match ParseLine(s, 0)
    case Panic => Panic
    case Ok(c, i) => if SkipSpace(s, i) == |s| then Ok(c, |s|) else Panic
  }
}
