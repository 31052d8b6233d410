/**
 Writing a derivation out, with any white space that keeps its tokens apart, and parsing the text gives the
 command the derivation stands for; and every command tree has derivations.
 */
module ShellRoundTrip {
  import opened ShellSyntax
  import opened ShellGrammar

  // ---------- Writing ----------

  predicate Blank(pad: string) { forall k :: 0 <= k < |pad| ==> IsSpace(pad[k]) }

  predicate GoodWord(w: string) { w != [] && forall k :: 0 <= k < |w| ==> IsWord(w[k]) }

  predicate Proper(x: Lexeme<string>) {
    match x
    case Text(w) => GoodWord(w)
    case Mark(t) => t == Append || (t.Sym? && IsSymbol(t.c))
  }

  predicate AllProper(ls: seq<Lexeme<string>>) { forall k :: 0 <= k < |ls| ==> Proper(ls[k]) }

  function Spell(x: Lexeme<string>): (w: string)
    ensures Proper(x) ==> w != [] && !IsSpace(w[0])
  {
    match x
    case Text(w) => w
    case Mark(t) => if t == Append then ">>" else if t.Sym? then [t.c] else []
  }

  // Each token and the white space after it.
  function Write(ls: seq<Lexeme<string>>, pads: seq<string>): string
    requires |pads| == |ls|
  {
    if ls == [] then [] else Spell(ls[0]) + (pads[0] + Write(ls[1..], pads[1..]))
  }

  // Two words, or > and a token that begins with >, would run into one another.
  predicate Glue(x: Lexeme<string>, y: Lexeme<string>) {
    (x.Text? && y.Text?) || (x == Mark(Sym('>')) && (y == Mark(Sym('>')) || y == Mark(Append)))
  }

  predicate Apart(ls: seq<Lexeme<string>>, pads: seq<string>) {
    && |pads| == |ls|
    && (forall k :: 0 <= k < |pads| ==> Blank(pads[k]))
    && (forall k :: 0 <= k < |ls| - 1 && Glue(ls[k], ls[k + 1]) ==> pads[k] != [])
  }

  function TextOf(s: string, w: Span): string
    requires WordSpan(s, w)
  {
    s[w.q..w.eq]
  }

  // The tree with the words themselves in place of pointers into the line.
  function Words(s: string, c: Cmd<Span>): Cmd<string>
    requires WordSpans(s, c)
  {
    match c
    case Exec(argv) => Exec(seq(|argv|, k requires 0 <= k < |argv| => TextOf(s, argv[k])))
    case Redir(c, file, input) => Redir(Words(s, c), TextOf(s, file), input)
    case Pipe(l, r) => Pipe(Words(s, l), Words(s, r))
    case List(l, r) => List(Words(s, l), Words(s, r))
    case Back(c) => Back(Words(s, c))
  }

  // ---------- The tokens of written text ----------

  lemma {:induction false} SkipsTo(s: string, i: nat, j: nat)
    requires i <= j <= |s| && (forall k :: i <= k < j ==> IsSpace(s[k])) && (j < |s| ==> !IsSpace(s[j]))
    ensures SkipSpace(s, i) == j
    decreases j - i
  {
    if i < j { SkipsTo(s, i + 1, j); }
  }

  lemma {:induction false} WordTo(s: string, i: nat, j: nat)
    requires i <= j <= |s| && (forall k :: i <= k < j ==> IsWord(s[k])) && (j < |s| ==> !IsWord(s[j]))
    ensures WordEnd(s, i) == j
    decreases j - i
  {
    if i < j { WordTo(s, i + 1, j); }
  }

  predicate At(s: string, i: nat, p: string) { i + |p| <= |s| && forall k :: 0 <= k < |p| ==> s[i + k] == p[k] }

  predicate Like(s: string, w: Span, v: string) { WordSpan(s, w) && TextOf(s, w) == v }

  predicate Same(s: string, t: Lexeme<Span>, x: Lexeme<string>) {
    match x
    case Text(v) => t.Text? && Like(s, t.word, v)
    case Mark(tok) => t == Mark(tok)
  }

  predicate AllSame(s: string, ts: seq<Lexeme<Span>>, ls: seq<Lexeme<string>>) {
    |ts| == |ls| && forall k :: 0 <= k < |ls| ==> Same(s, ts[k], ls[k])
  }

  // A token, white space, and then something else.
  lemma {:induction false} OneToken(s: string, i: nat, x: Lexeme<string>, pad: string)
    requires Proper(x) && Blank(pad) && At(s, i, Spell(x)) && At(s, i + |Spell(x)|, pad)
    requires var e := i + |Spell(x)|;
      && (e + |pad| < |s| ==> !IsSpace(s[e + |pad|]))
      && (e < |s| ==> (x.Text? ==> !IsWord(s[e])) && (x == Mark(Sym('>')) ==> s[e] != '>'))
    ensures var t := GetToken(s, i);
      t.tok != End && t.next == i + |Spell(x)| + |pad| && Same(s, LexemeOf(t), x)
  {
    var e := i + |Spell(x)|;
    assert s[i] == s[i + 0] == Spell(x)[0];
    SkipsTo(s, i, i);
    forall k | e <= k < e + |pad| ensures IsSpace(s[k]) { assert s[e + (k - e)] == pad[k - e]; }
    SkipsTo(s, e, e + |pad|);
    match x
    case Text(w) =>
      forall k | i <= k < e ensures IsWord(s[k]) { assert s[i + (k - i)] == w[k - i]; }
      WordTo(s, i, e);
      assert s[i..e] == w;
    case Mark(t) =>
      if t == Append { assert s[i + 1] == Spell(x)[1]; }
  }

  // Text at i, cut in two.
  lemma AtPlus(s: string, i: nat, p: string, q: string)
    requires At(s, i, p + q)
    ensures At(s, i, p) && At(s, i + |p|, q)
  {
    assert forall k :: 0 <= k < |p| ==> (p + q)[k] == p[k];
    forall k | 0 <= k < |q| ensures s[i + |p| + k] == q[k] { assert s[i + (|p| + k)] == (p + q)[|p| + k]; }
  }

  lemma FirstChar(s: string, i: nat, ls: seq<Lexeme<string>>, pads: seq<string>)
    requires AllProper(ls) && |pads| == |ls| && At(s, i, Write(ls, pads)) && i + |Write(ls, pads)| == |s|
    ensures i < |s| <==> ls != []
    ensures ls != [] ==> s[i] == Spell(ls[0])[0]
  {
    if ls != [] {
      assert Write(ls, pads)[0] == Spell(ls[0])[0];
      assert s[i + 0] == Write(ls, pads)[0];
    }
  }

  lemma ApartTail(ls: seq<Lexeme<string>>, pads: seq<string>)
    requires AllProper(ls) && Apart(ls, pads) && ls != []
    ensures AllProper(ls[1..]) && Apart(ls[1..], pads[1..])
  {
    assert forall k :: 0 <= k < |ls| - 1 ==> ls[1..][k] == ls[k + 1];
  }

  lemma {:induction false} WriteParts(s: string, i: nat, ls: seq<Lexeme<string>>, pads: seq<string>)
    requires |pads| == |ls| && ls != [] && At(s, i, Write(ls, pads)) && i + |Write(ls, pads)| == |s|
    ensures var e, tail := i + |Spell(ls[0])|, Write(ls[1..], pads[1..]);
      At(s, i, Spell(ls[0])) && At(s, e, pads[0]) && At(s, e + |pads[0]|, tail) && e + |pads[0]| + |tail| == |s|
  {
    var tail := Write(ls[1..], pads[1..]);
    assert Write(ls, pads) == Spell(ls[0]) + (pads[0] + tail);
    Concat(s, i, Spell(ls[0]), pads[0], tail);
  }

  lemma Concat(s: string, i: nat, p: string, q: string, r: string)
    requires At(s, i, p + (q + r))
    ensures At(s, i, p) && At(s, i + |p|, q) && At(s, i + |p| + |q|, r)
  {
    AtPlus(s, i, p, q + r);
    AtPlus(s, i + |p|, q, r);
  }

  // The first token of written text, and the text after it.
  lemma {:induction false} HeadToken(s: string, i: nat, ls: seq<Lexeme<string>>, pads: seq<string>)
    requires AllProper(ls) && Apart(ls, pads) && At(s, i, Write(ls, pads)) && i + |Write(ls, pads)| == |s| && ls != []
    ensures var t := GetToken(s, i);
      && t.tok != End && Same(s, LexemeOf(t), ls[0]) && AllProper(ls[1..]) && Apart(ls[1..], pads[1..])
      && At(s, t.next, Write(ls[1..], pads[1..])) && t.next + |Write(ls[1..], pads[1..])| == |s|
  {
    ApartTail(ls, pads);
    WriteParts(s, i, ls, pads);
    FirstChar(s, i + |Spell(ls[0])| + |pads[0]|, ls[1..], pads[1..]);
    KeepsApart(s, i + |Spell(ls[0])|, ls, pads);
    OneToken(s, i, ls[0], pads[0]);
  }

  lemma {:induction false} KeepsApart(s: string, e: nat, ls: seq<Lexeme<string>>, pads: seq<string>)
    requires AllProper(ls) && Apart(ls, pads) && ls != [] && At(s, e, pads[0])
    requires e + |pads[0]| < |s| <==> |ls| > 1
    requires |ls| > 1 ==> s[e + |pads[0]|] == Spell(ls[1])[0]
    ensures e < |s| ==> (ls[0].Text? ==> !IsWord(s[e])) && (ls[0] == Mark(Sym('>')) ==> s[e] != '>')
  {
    if pads[0] != [] {
      assert s[e + 0] == pads[0][0];
    } else if |ls| > 1 {
      assert !Glue(ls[0], ls[0 + 1]);
    }
  }

  lemma ReadsCons(s: string, i: nat, ts: seq<Lexeme<Span>>, j: nat)
    requires i <= |s| && GetToken(s, i).tok != End && Reads(s, GetToken(s, i).next, ts, j)
    ensures Reads(s, i, [LexemeOf(GetToken(s, i))] + ts, j)
  {
    assert ([LexemeOf(GetToken(s, i))] + ts)[1..] == ts;
  }

  lemma SameCons(s: string, t: Lexeme<Span>, ts: seq<Lexeme<Span>>, ls: seq<Lexeme<string>>)
    requires ls != [] && Same(s, t, ls[0]) && AllSame(s, ts, ls[1..])
    ensures AllSame(s, [t] + ts, ls)
  {
    forall k | 0 <= k < |ls| ensures Same(s, ([t] + ts)[k], ls[k]) {
      if k > 0 { assert Same(s, ts[k - 1], ls[1..][k - 1]); }
    }
  }

  // Written text has the tokens it was written from.
  lemma {:induction false} Lexes(s: string, i: nat, ls: seq<Lexeme<string>>, pads: seq<string>)
    returns (ts: seq<Lexeme<Span>>)
    requires AllProper(ls) && Apart(ls, pads) && At(s, i, Write(ls, pads)) && i + |Write(ls, pads)| == |s|
    ensures Reads(s, i, ts, |s|) && AllSame(s, ts, ls)
    decreases |ls|
  {
    if ls == [] {
      ts := [];
    } else {
      HeadToken(s, i, ls, pads);
      var t := GetToken(s, i);
      var more := Lexes(s, t.next, ls[1..], pads[1..]);
      ts := [LexemeOf(t)] + more;
      ReadsCons(s, i, more, |s|);
      SameCons(s, LexemeOf(t), more, ls);
    }
  }

  // ---------- The marks of a derivation are the shell's symbols ----------

  predicate Marked(ls: seq<Lexeme<string>>) { forall k :: 0 <= k < |ls| && ls[k].Mark? ==> Proper(ls[k]) }

  predicate Worded(ls: seq<Lexeme<string>>) { forall k :: 0 <= k < |ls| && ls[k].Text? ==> GoodWord(ls[k].word) }

  lemma {:induction false} MarkedRedirs(rs: seq<RedirT<string>>)
    requires GoodRedirs(rs)
    ensures Marked(FlatRedirs(rs))
    decreases |rs|
  {
    if rs != [] { MarkedRedirs(rs[1..]); }
  }

  lemma {:induction false} MarkedArgs(args: seq<ArgT<string>>)
    requires GoodArgs(args)
    ensures Marked(FlatArgs(args))
    decreases |args|
  {
    if args != [] {
      MarkedRedirs(args[0].rs);
      MarkedArgs(args[1..]);
    }
  }

  lemma {:induction false} MarkedExec(x: ExecT<string>)
    requires GoodExec(x)
    ensures Marked(FlatExec(x))
    decreases x, 1
  {
    MarkedRedirs(x.rs);
    if x.Block? { MarkedLine(x.line); } else { MarkedArgs(x.args); }
  }

  lemma {:induction false} MarkedPipe(x: PipeT<string>)
    requires GoodPipe(x)
    ensures Marked(FlatPipe(x))
    decreases x, 2
  {
    MarkedExec(x.cmd);
    if x.MorePipe? { MarkedPipe(x.rest); }
  }

  lemma {:induction false} MarkedAmps(n: nat)
    ensures Marked(Amps(n))
  {
    if n > 0 { MarkedAmps(n - 1); }
  }

  lemma {:induction false} MarkedLine(x: LineT<string>)
    requires GoodLine(x)
    ensures Marked(FlatLine(x))
    decreases x, 3
  {
    MarkedPipe(x.cmd);
    MarkedAmps(x.amps);
    if x.MoreLine? { MarkedLine(x.rest); }
  }

  // ---------- The same derivation over the words of the line ----------

  predicate LikeRedirs(s: string, ys: seq<RedirT<Span>>, rs: seq<RedirT<string>>) {
    |ys| == |rs| && forall k :: 0 <= k < |rs| ==> ys[k].op == rs[k].op && Like(s, ys[k].file, rs[k].file)
  }

  predicate LikeArg(s: string, y: ArgT<Span>, x: ArgT<string>) { Like(s, y.word, x.word) && LikeRedirs(s, y.rs, x.rs) }

  predicate LikeArgs(s: string, ys: seq<ArgT<Span>>, xs: seq<ArgT<string>>) {
    |ys| == |xs| && forall k :: 0 <= k < |xs| ==> LikeArg(s, ys[k], xs[k])
  }

  predicate LikeExec(s: string, y: ExecT<Span>, x: ExecT<string>) {
    match x
    case Block(line, rs) => y.Block? && LikeLine(s, y.line, line) && LikeRedirs(s, y.rs, rs)
    case Simple(rs, args) => y.Simple? && LikeRedirs(s, y.rs, rs) && LikeArgs(s, y.args, args)
  }

  predicate LikePipe(s: string, y: PipeT<Span>, x: PipeT<string>) {
    match x
    case OnePipe(cmd) => y.OnePipe? && LikeExec(s, y.cmd, cmd)
    case MorePipe(cmd, rest) => y.MorePipe? && LikeExec(s, y.cmd, cmd) && LikePipe(s, y.rest, rest)
  }

  predicate LikeLine(s: string, y: LineT<Span>, x: LineT<string>) {
    match x
    case OneLine(cmd, n) => y.OneLine? && y.amps == n && LikePipe(s, y.cmd, cmd)
    case MoreLine(cmd, n, rest) =>
      y.MoreLine? && y.amps == n && LikePipe(s, y.cmd, cmd) && LikeLine(s, y.rest, rest)
  }

  lemma SameSplit(s: string, ts: seq<Lexeme<Span>>, a: seq<Lexeme<string>>, b: seq<Lexeme<string>>)
    returns (ta: seq<Lexeme<Span>>, tb: seq<Lexeme<Span>>)
    requires AllSame(s, ts, a + b)
    ensures ts == ta + tb && AllSame(s, ta, a) && AllSame(s, tb, b)
  {
    ta, tb := ts[..|a|], ts[|a|..];
    forall k | 0 <= k < |a| ensures Same(s, ta[k], a[k]) { assert Same(s, ts[k], (a + b)[k]); }
    forall k | 0 <= k < |b| ensures Same(s, tb[k], b[k]) { assert Same(s, ts[|a| + k], (a + b)[|a| + k]); }
  }

  // A symbol stands between a and b.
  lemma SameParted(s: string, ts: seq<Lexeme<Span>>, a: seq<Lexeme<string>>, t: Tok, b: seq<Lexeme<string>>)
    returns (ta: seq<Lexeme<Span>>, tb: seq<Lexeme<Span>>)
    requires AllSame(s, ts, a + ([Mark(t)] + b))
    ensures ts == ta + ([Mark(t)] + tb) && AllSame(s, ta, a) && AllSame(s, tb, b)
  {
    var tc;
    ta, tc := SameSplit(s, ts, a, [Mark(t)] + b);
    var tm;
    tm, tb := SameSplit(s, tc, [Mark(t)], b);
    assert tm == [Mark(t)];
  }

  lemma {:induction false} RelabelRedirs(s: string, rs: seq<RedirT<string>>, ts: seq<Lexeme<Span>>)
    returns (ys: seq<RedirT<Span>>)
    requires AllSame(s, ts, FlatRedirs(rs))
    ensures FlatRedirs(ys) == ts && LikeRedirs(s, ys, rs)
    decreases |rs|
  {
    if rs == [] {
      ys := [];
    } else {
      var head, tail := SameSplit(s, ts, [Mark(rs[0].op), Text(rs[0].file)], FlatRedirs(rs[1..]));
      var more := RelabelRedirs(s, rs[1..], tail);
      assert Same(s, head[1], Text(rs[0].file));
      ys := [RedirT(rs[0].op, head[1].word)] + more;
      assert ys[1..] == more && head == [Mark(ys[0].op), Text(ys[0].file)];
    }
  }

  lemma {:induction false} RelabelArgs(s: string, xs: seq<ArgT<string>>, ts: seq<Lexeme<Span>>)
    returns (ys: seq<ArgT<Span>>)
    requires AllSame(s, ts, FlatArgs(xs))
    ensures FlatArgs(ys) == ts && LikeArgs(s, ys, xs)
    decreases |xs|
  {
    if xs == [] {
      ys := [];
    } else {
      var first, tail := SameSplit(s, ts, [Text(xs[0].word)] + FlatRedirs(xs[0].rs), FlatArgs(xs[1..]));
      var word, own := SameSplit(s, first, [Text(xs[0].word)], FlatRedirs(xs[0].rs));
      var rs := RelabelRedirs(s, xs[0].rs, own);
      var more := RelabelArgs(s, xs[1..], tail);
      assert Same(s, word[0], Text(xs[0].word));
      ys := [ArgT(word[0].word, rs)] + more;
      assert ys[1..] == more && word == [Text(ys[0].word)];
    }
  }

  lemma {:induction false} RelabelExec(s: string, x: ExecT<string>, ts: seq<Lexeme<Span>>) returns (y: ExecT<Span>)
    requires AllSame(s, ts, FlatExec(x))
    ensures FlatExec(y) == ts && LikeExec(s, y, x)
    decreases x, 1
  {
    match x
    case Block(line, rs) =>
      var open, rest := SameSplit(s, ts, [Mark(Sym('('))], FlatLine(line) + ([Mark(Sym(')'))] + FlatRedirs(rs)));
      var inner, after := SameParted(s, rest, FlatLine(line), Sym(')'), FlatRedirs(rs));
      var l := RelabelLine(s, line, inner);
      var r := RelabelRedirs(s, rs, after);
      y := Block(l, r);
      assert open == [Mark(Sym('('))];
    case Simple(rs, args) =>
      var before, after := SameSplit(s, ts, FlatRedirs(rs), FlatArgs(args));
      var r := RelabelRedirs(s, rs, before);
      var a := RelabelArgs(s, args, after);
      y := Simple(r, a);
  }

  lemma {:induction false} RelabelPipe(s: string, x: PipeT<string>, ts: seq<Lexeme<Span>>) returns (y: PipeT<Span>)
    requires AllSame(s, ts, FlatPipe(x))
    ensures FlatPipe(y) == ts && LikePipe(s, y, x)
    decreases x, 2
  {
    match x
    case OnePipe(cmd) =>
      var c := RelabelExec(s, cmd, ts);
      y := OnePipe(c);
    case MorePipe(cmd, rest) =>
      var before, after := SameParted(s, ts, FlatExec(cmd), Sym('|'), FlatPipe(rest));
      var c := RelabelExec(s, cmd, before);
      var r := RelabelPipe(s, rest, after);
      y := MorePipe(c, r);
  }

  lemma {:induction false} RelabelAmps(s: string, n: nat, ts: seq<Lexeme<Span>>)
    requires AllSame(s, ts, Amps(n))
    ensures ts == Amps(n)
  {
    if n > 0 {
      assert Same(s, ts[0], Amps<string>(n)[0]);
      assert ts == [ts[0]] + ts[1..];
      RelabelAmps(s, n - 1, ts[1..]);
    }
  }

  lemma {:induction false} RelabelItem(s: string, cmd: PipeT<string>, n: nat, ts: seq<Lexeme<Span>>)
    returns (y: PipeT<Span>)
    requires AllSame(s, ts, FlatPipe(cmd) + Amps(n))
    ensures FlatPipe(y) + Amps(n) == ts && LikePipe(s, y, cmd)
    decreases cmd, 3
  {
    var before, after := SameSplit(s, ts, FlatPipe(cmd), Amps(n));
    RelabelAmps(s, n, after);
    y := RelabelPipe(s, cmd, before);
  }

  lemma {:induction false} RelabelLine(s: string, x: LineT<string>, ts: seq<Lexeme<Span>>) returns (y: LineT<Span>)
    requires AllSame(s, ts, FlatLine(x))
    ensures FlatLine(y) == ts && LikeLine(s, y, x)
    decreases x, 4
  {
    match x
    case OneLine(cmd, n) =>
      var c := RelabelItem(s, cmd, n, ts);
      y := OneLine(c, n);
    case MoreLine(cmd, n, rest) =>
      var before, after := SameParted(s, ts, FlatPipe(cmd) + Amps(n), Sym(';'), FlatLine(rest));
      var c := RelabelItem(s, cmd, n, before);
      var r := RelabelLine(s, rest, after);
      y := MoreLine(c, n, r);
  }

  // ---------- Like derivations stand for like commands ----------

  predicate LikeCmd(s: string, c: Cmd<Span>, d: Cmd<string>) { WordSpans(s, c) && Words(s, c) == d }

  lemma {:induction false} LikeAround(s: string, c: Cmd<Span>, d: Cmd<string>,
                                      ys: seq<RedirT<Span>>, rs: seq<RedirT<string>>)
    requires LikeCmd(s, c, d) && LikeRedirs(s, ys, rs)
    ensures LikeCmd(s, Around(c, ys), Around(d, rs))
    decreases |rs|
  {
    if rs != [] {
      var input := rs[0].op == Sym('<');
      LikeAround(s, Redir(c, ys[0].file, input), Redir(d, rs[0].file, input), ys[1..], rs[1..]);
    }
  }

  lemma {:induction false} LikeRedirsOf(s: string, ys: seq<ArgT<Span>>, xs: seq<ArgT<string>>)
    requires LikeArgs(s, ys, xs)
    ensures LikeRedirs(s, RedirsOf(ys), RedirsOf(xs))
    decreases |xs|
  {
    if xs != [] {
      assert LikeArg(s, ys[0], xs[0]);
      assert LikeArgs(s, ys[1..], xs[1..]) by {
        forall k | 0 <= k < |xs| - 1 ensures LikeArg(s, ys[1..][k], xs[1..][k]) {
          assert LikeArg(s, ys[k + 1], xs[k + 1]);
        }
      }
      LikeRedirsOf(s, ys[1..], xs[1..]);
    }
  }

  lemma LikeSimple(s: string, ys: seq<ArgT<Span>>, xs: seq<ArgT<string>>)
    requires LikeArgs(s, ys, xs) && |xs| < MAXARGS
    ensures LikeCmd(s, Exec(WordsOf(ys)), Exec(WordsOf(xs)))
  {
    forall k | 0 <= k < |xs| ensures Like(s, WordsOf(ys)[k], WordsOf(xs)[k]) { assert LikeArg(s, ys[k], xs[k]); }
    var c := Exec(WordsOf(ys));
    assert Words(s, c).argv == WordsOf(xs);
  }

  lemma {:induction false} LikeTreeExec(s: string, y: ExecT<Span>, x: ExecT<string>)
    requires LikeExec(s, y, x) && GoodExec(x)
    ensures GoodExec(y) && LikeCmd(s, TreeExec(y), TreeExec(x))
    decreases x, 1
  {
    match x
    case Block(line, rs) =>
      LikeTreeLine(s, y.line, line);
      LikeAround(s, TreeLine(y.line), TreeLine(line), y.rs, rs);
    case Simple(rs, args) =>
      LikeSimple(s, y.args, args);
      LikeRedirsOf(s, y.args, args);
      LikeAround(s, Exec(WordsOf(y.args)), Exec(WordsOf(args)), y.rs + RedirsOf(y.args), rs + RedirsOf(args));
      forall k | 0 <= k < |args| ensures GoodRedirs(y.args[k].rs) {
        assert LikeArg(s, y.args[k], args[k]) && GoodRedirs(args[k].rs);
      }
  }

  lemma {:induction false} LikeTreePipe(s: string, y: PipeT<Span>, x: PipeT<string>)
    requires LikePipe(s, y, x) && GoodPipe(x)
    ensures GoodPipe(y) && LikeCmd(s, TreePipe(y), TreePipe(x))
    decreases x, 2
  {
    LikeTreeExec(s, y.cmd, x.cmd);
    if x.MorePipe? { LikeTreePipe(s, y.rest, x.rest); }
  }

  lemma {:induction false} LikeBacks(s: string, c: Cmd<Span>, d: Cmd<string>, n: nat)
    requires LikeCmd(s, c, d)
    ensures LikeCmd(s, Backs(c, n), Backs(d, n))
  {
    if n > 0 { LikeBacks(s, c, d, n - 1); }
  }

  lemma {:induction false} LikeTreeLine(s: string, y: LineT<Span>, x: LineT<string>)
    requires LikeLine(s, y, x) && GoodLine(x)
    ensures GoodLine(y) && LikeCmd(s, TreeLine(y), TreeLine(x))
    decreases x, 3
  {
    LikeTreePipe(s, y.cmd, x.cmd);
    LikeBacks(s, TreePipe(y.cmd), TreePipe(x.cmd), x.amps);
    if x.MoreLine? { LikeTreeLine(s, y.rest, x.rest); }
  }

  // ---------- Round trips ----------

  lemma {:induction false} LexesAll(ls: seq<Lexeme<string>>, lead: string, pads: seq<string>)
    returns (ts: seq<Lexeme<Span>>)
    requires AllProper(ls) && Blank(lead) && Apart(ls, pads)
    ensures var s := lead + Write(ls, pads);
      Reads(s, 0, ts, |s|) && AllSame(s, ts, ls)
  {
    var s := lead + Write(ls, pads);
    assert At(s, |lead|, Write(ls, pads));
    FirstChar(s, |lead|, ls, pads);
    SkipsTo(s, 0, |lead|);
    ts := Lexes(s, |lead|, ls, pads);
    SkipReads(s, 0, ts, |s|);
  }

  // However a derivation is spaced, its text parses to the command it stands for.
  lemma {:induction false} WrittenParses(x: LineT<string>, lead: string, pads: seq<string>)
    requires GoodLine(x) && Worded(FlatLine(x)) && Blank(lead) && Apart(FlatLine(x), pads)
    ensures var s := lead + Write(FlatLine(x), pads);
      ParseCmd(s).Ok? && Words(s, ParseCmd(s).v) == TreeLine(x)
  {
    var s := lead + Write(FlatLine(x), pads);
    MarkedLine(x);
    var ts := LexesAll(FlatLine(x), lead, pads);
    var y := RelabelLine(s, x, ts);
    LikeTreeLine(s, y, x);
    assert Derives(s, y);
    ParsesExactly(s);
  }

  // The trees the shell can represent: at most MAXARGS - 1 words a command.
  predicate Printable(t: Cmd<string>) {
    match t
    case Exec(argv) => |argv| < MAXARGS && forall k :: 0 <= k < |argv| ==> GoodWord(argv[k])
    case Redir(c, file, input) => Printable(c) && GoodWord(file)
    case Pipe(l, r) => Printable(l) && Printable(r)
    case List(l, r) => Printable(l) && Printable(r)
    case Back(c) => Printable(c)
  }

  function Bare(argv: seq<string>): seq<ArgT<string>> {
    seq(|argv|, k requires 0 <= k < |argv| => ArgT(argv[k], []))
  }

  function Group(line: LineT<string>): ExecT<string> { Block(line, []) }

  // Every subcommand in parentheses; `twice` chooses between > and >> for each redirection, by its place in the tree.
  function Grouped(t: Cmd<string>, twice: seq<bool> -> bool, at: seq<bool>): LineT<string> {
    match t
    case Exec(argv) => OneLine(OnePipe(Simple([], Bare(argv))), 0)
    case Redir(c, file, input) =>
      var op := if input then Sym('<') else if twice(at) then Append else Sym('>');
      OneLine(OnePipe(Block(Grouped(c, twice, at + [false]), [RedirT(op, file)])), 0)
    case Pipe(l, r) =>
      OneLine(MorePipe(Group(Grouped(l, twice, at + [false])), OnePipe(Group(Grouped(r, twice, at + [true])))), 0)
    case List(l, r) =>
      MoreLine(OnePipe(Group(Grouped(l, twice, at + [false]))), 0,
               OneLine(OnePipe(Group(Grouped(r, twice, at + [true]))), 0))
    case Back(c) => OneLine(OnePipe(Group(Grouped(c, twice, at + [false]))), 1)
  }

  lemma {:induction false} BareArgs(argv: seq<string>)
    ensures RedirsOf(Bare(argv)) == [] && WordsOf(Bare(argv)) == argv && GoodArgs(Bare(argv))
    ensures (forall k :: 0 <= k < |argv| ==> GoodWord(argv[k])) ==> Worded(FlatArgs(Bare(argv)))
    decreases |argv|
  {
    if argv != [] {
      assert Bare(argv)[1..] == Bare(argv[1..]);
      BareArgs(argv[1..]);
    }
  }

  predicate ExecFits(x: ExecT<string>, t: Cmd<string>) { GoodExec(x) && TreeExec(x) == t && Worded(FlatExec(x)) }

  predicate PipeFits(x: PipeT<string>, t: Cmd<string>) { GoodPipe(x) && TreePipe(x) == t && Worded(FlatPipe(x)) }

  predicate Fits(x: LineT<string>, t: Cmd<string>) { GoodLine(x) && TreeLine(x) == t && Worded(FlatLine(x)) }

  lemma GroupFits(x: LineT<string>, t: Cmd<string>)
    requires Fits(x, t)
    ensures ExecFits(Group(x), t) && PipeFits(OnePipe(Group(x)), t)
  {
  }

  lemma RedirFits(x: LineT<string>, t: Cmd<string>, op: Tok, file: string)
    requires Fits(x, t) && IsRedirOp(op) && GoodWord(file)
    ensures ExecFits(Block(x, [RedirT(op, file)]), Redir(t, file, op == Sym('<')))
  {
    var rs := [RedirT(op, file)];
    assert FlatRedirs(rs) == [Mark(op), Text(file)];
    assert Around(t, rs) == Redir(t, file, op == Sym('<'));
  }

  lemma LineFits(x: PipeT<string>, t: Cmd<string>)
    requires PipeFits(x, t)
    ensures Fits(OneLine(x, 0), t) && Fits(OneLine(x, 1), Back(t))
  {
    assert Amps<string>(1) == [Mark(Sym('&'))];
    assert Backs(t, 1) == Back(t);
  }

  // Whatever the choices, the derivation stands for the tree.
  lemma {:induction false} GroupedFits(t: Cmd<string>, twice: seq<bool> -> bool, at: seq<bool>)
    requires Printable(t)
    ensures Fits(Grouped(t, twice, at), t)
    decreases t
  {
    match t
    case Exec(argv) =>
      BareArgs(argv);
      var x := Simple([], Bare(argv));
      assert [] + RedirsOf(x.args) == [];
      assert FlatExec(x) == FlatArgs(x.args);
      LineFits(OnePipe(x), t);
    case Redir(c, file, input) =>
      GroupedFits(c, twice, at + [false]);
      var op := if input then Sym('<') else if twice(at) then Append else Sym('>');
      RedirFits(Grouped(c, twice, at + [false]), c, op, file);
      LineFits(OnePipe(Block(Grouped(c, twice, at + [false]), [RedirT(op, file)])), t);
    case Pipe(l, r) =>
      GroupedFits(l, twice, at + [false]);
      GroupedFits(r, twice, at + [true]);
      GroupFits(Grouped(l, twice, at + [false]), l);
      GroupFits(Grouped(r, twice, at + [true]), r);
      LineFits(MorePipe(Group(Grouped(l, twice, at + [false])), OnePipe(Group(Grouped(r, twice, at + [true])))), t);
    case List(l, r) =>
      GroupedFits(l, twice, at + [false]);
      GroupedFits(r, twice, at + [true]);
      GroupFits(Grouped(l, twice, at + [false]), l);
      GroupFits(Grouped(r, twice, at + [true]), r);
      LineFits(OnePipe(Group(Grouped(l, twice, at + [false]))), l);
      LineFits(OnePipe(Group(Grouped(r, twice, at + [true]))), r);
    case Back(c) =>
      GroupedFits(c, twice, at + [false]);
      GroupFits(Grouped(c, twice, at + [false]), c);
      LineFits(OnePipe(Group(Grouped(c, twice, at + [false]))), c);
  }

  // Printing a tree, with > or >> for each output redirection and any white space, and parsing gives it back.
  lemma RoundTrip(t: Cmd<string>, twice: seq<bool> -> bool, lead: string, pads: seq<string>)
    requires Printable(t) && Blank(lead) && Apart(FlatLine(Grouped(t, twice, [])), pads)
    ensures var s := lead + Write(FlatLine(Grouped(t, twice, [])), pads);
      ParseCmd(s).Ok? && Words(s, ParseCmd(s).v) == t
  {
    GroupedFits(t, twice, []);
    WrittenParses(Grouped(t, twice, []), lead, pads);
  }
}
