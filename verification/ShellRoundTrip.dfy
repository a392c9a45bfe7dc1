/** Printing a command and parsing it back. */
module ShellRoundTrip {
  import opened ShellParser
  import opened CStrings

  /** A command with its words written out. */
  datatype Tree =
    | TExec(args: seq<string>)
    | TRedir(cmd: Tree, file: string, output: bool)
    | TPipe(left: Tree, right: Tree)
    | TList(left: Tree, right: Tree)
    | TBack(cmd: Tree)

  ghost predicate Word(w: string) {
    w != "" && forall k :: 0 <= k < |w| ==> WordChar(w[k])
  }

  ghost predicate WellFormed(t: Tree) {
    match t
    case TExec(args) => |args| < MAXARGS && AllWords(args)
    case TRedir(c, file, _) => WellFormed(c) && Word(file)
    case TPipe(l, r) => WellFormed(l) && WellFormed(r)
    case TList(l, r) => WellFormed(l) && WellFormed(r)
    case TBack(c) => WellFormed(c)
  }

  // ----- the printed form -----

  function Words(args: seq<string>): string {
    if args == [] then "" else " " + args[0] + Words(args[1..])
  }

  function RedirText(file: string, output: bool): string {
    (if output then ">" else "<") + file
  }

  function Operand(t: Tree): string
    decreases t, 1
  {
    if t.TExec? then Words(t.args) else "(" + Print(t) + ")"
  }

  function Print(t: Tree): string
    decreases t, 0
  {
    match t
    case TExec(args) => Words(args)
    case TRedir(c, file, output) => Operand(c) + RedirText(file, output)
    case TPipe(l, r) => Operand(l) + "|" + Operand(r)
    case TList(l, r) => Operand(l) + ";" + Operand(r)
    case TBack(c) => Operand(c) + "&"
  }

  // ----- reading a parsed command back from the line -----

  function TextOf(s: string, x: Span): string { if x.q <= x.eq <= |s| then s[x.q..x.eq] else "" }

  function Read(s: string, c: Cmd): Tree {
    match c
    case Exec(argv) => TExec(seq(|argv|, k requires 0 <= k < |argv| => TextOf(s, argv[k])))
    case Redir(c, r) => TRedir(Read(s, c), TextOf(s, r.file), r.output)
    case Pipe(l, r) => TPipe(Read(s, l), Read(s, r))
    case List(l, r) => TList(Read(s, l), Read(s, r))
    case Back(c) => TBack(Read(s, c))
  }

  // ----- scanning one token of a known text -----

  /** `s` reads `u` from `i` up to `e`. */
  ghost predicate Reads(s: string, i: nat, e: nat, u: string) {
    i <= e <= |s| && s[i..e] == u
  }

  lemma ReadsSplit(s: string, i: nat, e: nat, u: string, v: string) returns (m: nat)
    requires Reads(s, i, e, u + v)
    ensures m == i + |u| && Reads(s, i, m, u) && Reads(s, m, e, v)
  {
    m := i + |u|;
    assert s[i..m] == s[i..e][..|u|];
    assert s[m..e] == s[i..e][|u|..];
  }

  lemma ReadsChar(s: string, i: nat, e: nat, u: string)
    requires Reads(s, i, e, u) && u != ""
    ensures i < |s| && s[i] == u[0]
  {
    assert s[i] == s[i..e][0];
  }

  lemma SkipNothing(s: string, i: nat)
    requires i <= |s| && (i < |s| ==> !Space(s[i]))
    ensures Skip(s, i) == i
  {
  }

  lemma SkipOne(s: string, i: nat)
    requires i < |s| && s[i] == ' ' && (i + 1 < |s| ==> !Space(s[i+1]))
    ensures Skip(s, i) == i + 1
  {
    SkipNothing(s, i + 1);
  }

  lemma SkipTwice(s: string, i: nat)
    requires i <= |s|
    ensures Skip(s, Skip(s, i)) == Skip(s, i)
  {
  }

  lemma {:induction false} WordEndAt(s: string, i: nat, j: nat)
    requires i <= j <= |s| && (forall k :: i <= k < j ==> WordChar(s[k]))
    requires j < |s| ==> Space(s[j]) || Symbol(s[j])
    ensures WordEnd(s, i) == j
    decreases j - i
  {
    if i < j { WordEndAt(s, i + 1, j); }
  }

  lemma SymbolAt(s: string, i: nat, c: char)
    requires i < |s| && s[i] == c && Symbol(c) && (c == '>' ==> At(s, i + 1) != '>')
    ensures Skip(s, i) == i && GetToken(s, i) == Token(c, i, i + 1, Skip(s, i + 1))
  {
    SkipNothing(s, i);
  }

  lemma WordToken(s: string, i: nat, j: nat, w: string)
    requires Word(w) && Reads(s, i, j, w) && (j < |s| ==> Space(s[j]) || Symbol(s[j]))
    ensures Skip(s, i) == i && GetToken(s, i) == Token('a', i, j, Skip(s, j)) && TextOf(s, Span(i, j)) == w
  {
    forall k | i <= k < j ensures WordChar(s[k]) {
      assert s[k] == s[i..j][k - i];
    }
    SkipNothing(s, i);
    WordEndAt(s, i, j);
  }

  lemma SpacedWordToken(s: string, i: nat, j: nat, w: string)
    requires Word(w) && Reads(s, i, j, " " + w) && (j < |s| ==> Space(s[j]) || Symbol(s[j]))
    ensures i + 1 < |s| && WordChar(s[i+1]) && Skip(s, i) == i + 1
    ensures GetToken(s, i) == Token('a', i + 1, j, Skip(s, j)) && TextOf(s, Span(i + 1, j)) == w
  {
    var m := ReadsSplit(s, i, j, " ", w);
    ReadsChar(s, i, m, " ");
    ReadsChar(s, m, j, w);
    SkipOne(s, i);
    WordToken(s, i + 1, j, w);
  }

  // ----- redirections -----

  /** An operand ends at `j`. */
  ghost predicate Stops(s: string, j: nat) {
    j <= |s| && (j < |s| ==> s[j] == '|' || s[j] == ')' || s[j] == '&' || s[j] == ';')
  }

  lemma NoRedir(s: string, i: nat, rs: seq<Redirection>)
    requires i <= |s| && (Skip(s, i) < |s| ==> s[Skip(s, i)] != '<' && s[Skip(s, i)] != '>')
    ensures ParseRedirs(s, i, rs) == Redirs(rs, Skip(s, i))
  {
  }

  lemma RedirTurn(s: string, i: nat, c: char, j: nat, rs: seq<Redirection>)
    requires i + 1 < j <= |s| && Skip(s, i) == i && s[i] == c && (c == '<' || c == '>')
    requires GetToken(s, i) == Token(c, i, i + 1, i + 1) && GetToken(s, i + 1) == Token('a', i + 1, j, j)
    ensures ParseRedirs(s, i, rs) == ParseRedirs(s, j, rs + [Redirection(Span(i + 1, j), c != '<')])
  {
  }

  lemma OneRedir(s: string, i: nat, j: nat, file: string, output: bool) returns (r: Redirection)
    requires Word(file) && Reads(s, i, j, RedirText(file, output)) && Stops(s, j)
    ensures ParseRedirs(s, i, []) == Redirs([r], j)
    ensures r.output == output && TextOf(s, r.file) == file
  {
    var c: char := if output then '>' else '<';
    var m := ReadsSplit(s, i, j, [c], file);
    ReadsChar(s, i, m, [c]);
    ReadsChar(s, m, j, file);
    SymbolAt(s, i, c);
    WordToken(s, i + 1, j, file);
    SkipNothing(s, j);
    r := Redirection(Span(i + 1, j), output);
    RedirTurn(s, i, c, j, []);
    NoRedir(s, j, [r]);
    assert [] + [r] == [r];
  }

  /** At most one redirection after an operand. */
  datatype Tail = NoTail | Tail(file: string, output: bool)

  function TailText(tail: Tail): string {
    match tail case NoTail => "" case Tail(file, output) => RedirText(file, output)
  }

  ghost predicate TailOk(tail: Tail) { tail.Tail? ==> Word(tail.file) }

  function WithTail(t: Tree, tail: Tail): Tree {
    match tail case NoTail => t case Tail(file, output) => TRedir(t, file, output)
  }

  ghost predicate TailRead(s: string, rs: seq<Redirection>, tail: Tail) {
    match tail
    case NoTail => rs == []
    case Tail(file, output) => |rs| == 1 && TextOf(s, rs[0].file) == file && rs[0].output == output
  }

  lemma WrapReads(s: string, c: Cmd, rs: seq<Redirection>, tail: Tail)
    requires TailRead(s, rs, tail)
    ensures Read(s, Wrap(c, rs)) == WithTail(Read(s, c), tail)
  {
    if rs != [] { assert Wrap(c, rs) == Redir(Wrap(c, rs[..0]), rs[0]) && Wrap(c, rs[..0]) == c; }
  }

  /** Where a tail starts there is no space. */
  lemma TailStart(s: string, i: nat, e: nat, tail: Tail)
    requires Reads(s, i, e, TailText(tail)) && Stops(s, e)
    ensures Skip(s, i) == i && (i < |s| ==> Symbol(s[i]) && s[i] != '(')
  {
    if tail.Tail? { ReadsChar(s, i, e, TailText(tail)); }
    SkipNothing(s, i);
  }

  lemma TailRedirs(s: string, i: nat, e: nat, tail: Tail) returns (rs: seq<Redirection>)
    requires TailOk(tail) && Reads(s, i, e, TailText(tail)) && Stops(s, e)
    ensures ParseRedirs(s, i, []) == Redirs(rs, e) && TailRead(s, rs, tail)
  {
    if tail.NoTail? {
      TailStart(s, i, e, tail);
      NoRedir(s, i, []);
      rs := [];
    } else {
      var r := OneRedir(s, i, e, tail.file, tail.output);
      rs := [r];
    }
  }

  // ----- the words of a simple command -----

  ghost predicate SpansRead(s: string, argv: seq<Span>, args: seq<string>) {
    |argv| == |args| && forall k :: 0 <= k < |argv| ==> TextOf(s, argv[k]) == args[k]
  }

  ghost predicate AllWords(args: seq<string>) { forall k :: 0 <= k < |args| ==> Word(args[k]) }

  /** The loop of parseexec does not care whether the spaces before the next token
      have been skipped. */
  lemma ArgsAfterSkip(s: string, i: nat, argv: seq<Span>, rs: seq<Redirection>)
    requires i <= |s|
    ensures ParseArgs(s, Skip(s, i), argv, rs) == ParseArgs(s, i, argv, rs)
  {
    SkipTwice(s, i);
  }

  lemma ArgsEnd(s: string, i: nat, argv: seq<Span>, rs: seq<Redirection>)
    requires Stops(s, i)
    ensures ParseArgs(s, i, argv, rs) == Ok(Wrap(Exec(argv), rs), i)
  {
    SkipNothing(s, i);
  }

  /** One turn of the loop of parseexec on a word. */
  lemma ArgsTurn(s: string, i: nat, argv: seq<Span>, x: Span, next: nat, rs: seq<Redirection>, pos: nat)
    requires i <= |s| && Skip(s, i) == x.q < |s| && WordChar(s[x.q])
    requires next <= |s| && GetToken(s, i) == Token('a', x.q, x.eq, next)
    requires ParseRedirs(s, next, []) == Redirs(rs, pos) && pos <= |s|
    requires |argv| + 1 < MAXARGS
    ensures ParseArgs(s, i, argv, []) == ParseArgs(s, pos, argv + [x], rs)
  {
  }

  lemma WordsFirst(args: seq<string>, tail: Tail)
    requires args != []
    ensures Words(args) + TailText(tail) == (" " + args[0]) + (Words(args[1..]) + TailText(tail))
  {
  }

  /** What comes right after a word of a simple command, or before its first one. */
  lemma AfterWord(s: string, j: nat, e: nat, more: seq<string>, tail: Tail)
    requires AllWords(more)
    requires Reads(s, j, e, Words(more) + TailText(tail)) && Stops(s, e)
    ensures j <= |s| && (j < |s| ==> Space(s[j]) || (Symbol(s[j]) && s[j] != '('))
    ensures more != [] ==> Skip(s, j) < |s| && WordChar(s[Skip(s, j)])
    ensures more == [] ==> Skip(s, j) == j && Reads(s, j, e, TailText(tail))
  {
    if more != [] {
      WordsFirst(more, tail);
      var m := ReadsSplit(s, j, e, " " + more[0], Words(more[1..]) + TailText(tail));
      var n := ReadsSplit(s, j, m, " ", more[0]);
      ReadsChar(s, j, n, " ");
      ReadsChar(s, n, m, more[0]);
      SkipOne(s, j);
    } else {
      assert Words(more) + TailText(tail) == TailText(tail);
      TailStart(s, j, e, tail);
    }
  }

  lemma LastArg(s: string, i: nat, e: nat, w: string, argv: seq<Span>, tail: Tail)
    returns (x: Span, rs: seq<Redirection>)
    requires Word(w) && TailOk(tail) && |argv| + 1 < MAXARGS
    requires Reads(s, i, e, Words([w]) + TailText(tail)) && Stops(s, e)
    ensures ParseArgs(s, i, argv, []) == Ok(Wrap(Exec(argv + [x]), rs), e)
    ensures TextOf(s, x) == w && TailRead(s, rs, tail)
  {
    WordsFirst([w], tail);
    var j := ReadsSplit(s, i, e, " " + w, Words([]) + TailText(tail));
    AfterWord(s, j, e, [], tail);
    SpacedWordToken(s, i, j, w);
    x := Span(i + 1, j);
    rs := TailRedirs(s, j, e, tail);
    ArgsTurn(s, i, argv, x, j, rs, e);
    ArgsEnd(s, e, argv + [x], rs);
  }

  lemma OneArg(s: string, i: nat, e: nat, args: seq<string>, argv: seq<Span>, tail: Tail)
    returns (x: Span, j: nat)
    requires AllWords(args) && |args| > 1 && |argv| + 1 < MAXARGS
    requires Reads(s, i, e, Words(args) + TailText(tail)) && Stops(s, e)
    ensures i <= j <= |s| && ParseArgs(s, i, argv, []) == ParseArgs(s, j, argv + [x], [])
    ensures TextOf(s, x) == args[0] && Reads(s, j, e, Words(args[1..]) + TailText(tail))
  {
    var w, more := args[0], args[1..];
    WordsFirst(args, tail);
    j := ReadsSplit(s, i, e, " " + w, Words(more) + TailText(tail));
    AfterWord(s, j, e, more, tail);
    SpacedWordToken(s, i, j, w);
    x := Span(i + 1, j);
    SkipTwice(s, j);
    NoRedir(s, Skip(s, j), []);
    ArgsTurn(s, i, argv, x, Skip(s, j), [], Skip(s, j));
    ArgsAfterSkip(s, j, argv + [x], []);
  }

  lemma OnlyArg(s: string, i: nat, e: nat, args: seq<string>, argv: seq<Span>, tail: Tail)
    returns (argv': seq<Span>, rs: seq<Redirection>)
    requires |args| == 1 && AllWords(args) && TailOk(tail) && |argv| + 1 < MAXARGS
    requires Reads(s, i, e, Words(args) + TailText(tail)) && Stops(s, e)
    ensures ParseArgs(s, i, argv, []) == Ok(Wrap(Exec(argv + argv'), rs), e)
    ensures SpansRead(s, argv', args) && TailRead(s, rs, tail)
  {
    assert args == [args[0]];
    var x;
    x, rs := LastArg(s, i, e, args[0], argv, tail);
    argv' := [x];
  }

  lemma SpansCons(s: string, argv: seq<Span>, x: Span, more: seq<Span>, args: seq<string>)
    requires args != [] && TextOf(s, x) == args[0] && SpansRead(s, more, args[1..])
    ensures SpansRead(s, [x] + more, args) && (argv + [x]) + more == argv + ([x] + more)
  {
  }

  lemma {:induction false} ArgsOk(s: string, i: nat, e: nat, args: seq<string>, argv: seq<Span>, tail: Tail)
    returns (argv': seq<Span>, rs: seq<Redirection>)
    requires AllWords(args) && TailOk(tail) && |argv| + |args| < MAXARGS && args != []
    requires Reads(s, i, e, Words(args) + TailText(tail)) && Stops(s, e)
    ensures ParseArgs(s, i, argv, []) == Ok(Wrap(Exec(argv + argv'), rs), e)
    ensures SpansRead(s, argv', args) && TailRead(s, rs, tail)
    decreases |args|
  {
    if |args| == 1 {
      argv', rs := OnlyArg(s, i, e, args, argv, tail);
    } else {
      var x, j := OneArg(s, i, e, args, argv, tail);
      var more, r := ArgsOk(s, j, e, args[1..], argv + [x], tail);
      SpansCons(s, argv, x, more, args);
      argv', rs := [x] + more, r;
    }
  }

  lemma ExecReads(s: string, argv: seq<Span>, args: seq<string>)
    requires SpansRead(s, argv, args)
    ensures Read(s, Exec(argv)) == TExec(args)
  {
  }

  /** parseexec on anything but a block. */
  lemma ExecStart(s: string, i: nat, rs: seq<Redirection>, pos: nat)
    requires i <= |s| && (Skip(s, i) < |s| ==> s[Skip(s, i)] != '(')
    requires ParseRedirs(s, i, []) == Redirs(rs, pos) && pos <= |s|
    ensures ParseExec(s, i) == ParseArgs(s, pos, [], rs)
  {
  }

  /** A simple command, possibly with a redirection after it. */
  lemma SimpleOk(s: string, i: nat, e: nat, args: seq<string>, tail: Tail) returns (c: Cmd)
    requires |args| < MAXARGS && AllWords(args) && TailOk(tail)
    requires Reads(s, i, e, Words(args) + TailText(tail)) && Stops(s, e)
    ensures ParseExec(s, i) == Ok(c, e)
    ensures Read(s, c) == WithTail(TExec(args), tail)
  {
    AfterWord(s, i, e, args, tail);
    var argv, rs;
    if args == [] {
      rs := TailRedirs(s, i, e, tail);
      ExecStart(s, i, rs, e);
      ArgsEnd(s, e, [], rs);
      argv := [];
    } else {
      NoRedir(s, i, []);
      ExecStart(s, i, [], Skip(s, i));
      ArgsAfterSkip(s, i, [], []);
      argv, rs := ArgsOk(s, i, e, args, [], tail);
      assert [] + argv == argv;
    }
    c := Wrap(Exec(argv), rs);
    ExecReads(s, argv, args);
    WrapReads(s, Exec(argv), rs, tail);
  }

  // ----- spaces before a command -----

  lemma TokenAfterSkip(s: string, i: nat)
    requires i <= |s|
    ensures GetToken(s, Skip(s, i)) == GetToken(s, i)
  {
    SkipTwice(s, i);
  }

  lemma RedirsAfterSkip(s: string, i: nat)
    requires i <= |s|
    ensures ParseRedirs(s, Skip(s, i), []) == ParseRedirs(s, i, [])
  {
    SkipTwice(s, i);
    TokenAfterSkip(s, i);
  }

  /** No parsing function cares about spaces before its first token. */
  lemma ExecAfterSkip(s: string, i: nat)
    requires i <= |s|
    ensures ParseExec(s, Skip(s, i)) == ParseExec(s, i)
  {
    SkipTwice(s, i);
    TokenAfterSkip(s, i);
    RedirsAfterSkip(s, i);
  }

  lemma PipeAfterSkip(s: string, i: nat)
    requires i <= |s|
    ensures ParsePipe(s, Skip(s, i)) == ParsePipe(s, i)
  {
    ExecAfterSkip(s, i);
  }

  lemma LineAfterSkip(s: string, i: nat)
    requires i <= |s|
    ensures ParseLine(s, Skip(s, i)) == ParseLine(s, i)
  {
    PipeAfterSkip(s, i);
  }

  // ----- one production at a time -----

  /** A line or block ends at `j`. */
  ghost predicate LineEnds(s: string, j: nat) { j <= |s| && (j < |s| ==> s[j] == ')') }

  /** A parenthesised line and its redirections, as parseblock reads them. */
  lemma BlockOpen(s: string, i: nat)
    requires i < |s| && s[i] == '('
    ensures ParseBlock(s, i) == CloseBlock(s, ParseLine(s, i + 1))
  {
    SymbolAt(s, i, '(');
    LineAfterSkip(s, i + 1);
  }

  lemma BlockClose(s: string, j: nat, inner: Cmd, rs: seq<Redirection>, e: nat)
    requires j < |s| && s[j] == ')' && Skip(s, j + 1) == j + 1 && ParseRedirs(s, j + 1, []) == Redirs(rs, e)
    ensures CloseBlock(s, Ok(inner, j)) == Ok(Wrap(inner, rs), e)
  {
    SymbolAt(s, j, ')');
  }

  lemma ExecBlock(s: string, i: nat)
    requires i < |s| && s[i] == '('
    ensures ParseExec(s, i) == ParseBlock(s, i)
  {
    SymbolAt(s, i, '(');
  }

  lemma PipeOfExec(s: string, i: nat, c: Cmd, j: nat)
    requires i <= j && Stops(s, j) && ParseExec(s, i) == Ok(c, j) && At(s, j) != '|'
    ensures ParsePipe(s, i) == Ok(c, j)
  {
    SkipNothing(s, j);
  }

  lemma PipeParse(s: string, i: nat, j: nat, left: Cmd, right: Cmd, e: nat)
    requires i <= j < |s| && s[j] == '|' && ParseExec(s, i) == Ok(left, j) && ParsePipe(s, j + 1) == Ok(right, e)
    ensures ParsePipe(s, i) == Ok(Pipe(left, right), e)
  {
    PipeBar(s, j);
    PipeAfterSkip(s, j + 1);
    PipeJoin(s, i, left, j, right, e);
  }

  lemma PipeBar(s: string, j: nat)
    requires j < |s| && s[j] == '|'
    ensures Peek(s, j, "|") && GetToken(s, j).next == Skip(s, j + 1)
  {
    SymbolAt(s, j, '|');
  }

  /** The step of parsepipe behind its first operand. */
  lemma PipeJoin(s: string, i: nat, left: Cmd, j: nat, right: Cmd, e: nat)
    requires i <= j < |s| && ParseExec(s, i) == Ok(left, j) && Peek(s, j, "|")
    requires GetToken(s, j).next <= |s| && ParsePipe(s, GetToken(s, j).next) == Ok(right, e)
    ensures ParsePipe(s, i) == Ok(Pipe(left, right), e)
  {
  }

  lemma LineOfPipe(s: string, i: nat, c: Cmd, j: nat)
    requires i <= j && LineEnds(s, j) && ParsePipe(s, i) == Ok(c, j)
    ensures ParseLine(s, i) == Ok(c, j)
  {
    SkipNothing(s, j);
  }

  lemma ListParse(s: string, i: nat, j: nat, left: Cmd, right: Cmd, e: nat)
    requires i <= j < |s| && s[j] == ';' && ParsePipe(s, i) == Ok(left, j) && ParseLine(s, j + 1) == Ok(right, e)
    ensures ParseLine(s, i) == Ok(List(left, right), e)
  {
    SymbolAt(s, j, ';');
    LineAfterSkip(s, j + 1);
    assert ParseBacks(s, j, left) == Ok(left, j);
  }

  lemma BackParse(s: string, i: nat, j: nat, c: Cmd, e: nat)
    requires i <= j < |s| && s[j] == '&' && ParsePipe(s, i) == Ok(c, j) && e == j + 1 && LineEnds(s, e)
    ensures ParseLine(s, i) == Ok(Back(c), e)
  {
    SymbolAt(s, j, '&');
    SkipNothing(s, j + 1);
    assert ParseBacks(s, j + 1, Back(c)) == Ok(Back(c), j + 1);
    assert ParseBacks(s, j, c) == ParseBacks(s, j + 1, Back(c));
  }

  // ----- whole commands -----

  lemma Regroup(a: string, u: string, b: string, v: string)
    ensures a + u + b + v == a + (u + (b + v))
  {
  }

  /** A text in parentheses, and what stands behind it. */
  lemma BlockText(s: string, i: nat, e: nat, u: string, v: string) returns (j: nat)
    requires Reads(s, i, e, "(" + u + ")" + v)
    ensures i < j < |s| && s[i] == '(' && s[j] == ')' && Reads(s, i + 1, j, u) && Reads(s, j + 1, e, v)
  {
    Regroup("(", u, ")", v);
    var a := ReadsSplit(s, i, e, "(", u + (")" + v));
    j := ReadsSplit(s, a, e, u, ")" + v);
    var b := ReadsSplit(s, j, e, ")", v);
    ReadsChar(s, i, a, "(");
    ReadsChar(s, j, b, ")");
  }

  /** Two operands around symbol `c`, which is found at `j`. */
  lemma Halves(s: string, i: nat, e: nat, l: string, c: char, r: string) returns (j: nat)
    requires Reads(s, i, e, l + [c] + r)
    ensures i <= j < |s| && s[j] == c
    ensures Reads(s, i, j, l + TailText(NoTail)) && Reads(s, j + 1, e, r + TailText(NoTail))
  {
    assert l + [c] + r == l + ([c] + r);
    j := ReadsSplit(s, i, e, l, [c] + r);
    var m := ReadsSplit(s, j, e, [c], r);
    ReadsChar(s, j, m, [c]);
    assert l + TailText(NoTail) == l && r + TailText(NoTail) == r;
  }

  lemma BlockParse(s: string, i: nat, j: nat, inner: Cmd, rs: seq<Redirection>, e: nat)
    requires i < |s| && s[i] == '(' && ParseLine(s, i + 1) == Ok(inner, j)
    requires j < |s| && s[j] == ')' && Skip(s, j + 1) == j + 1 && ParseRedirs(s, j + 1, []) == Redirs(rs, e)
    ensures ParseBlock(s, i) == Ok(Wrap(inner, rs), e)
  {
    BlockOpen(s, i);
    BlockClose(s, j, inner, rs, e);
  }

  /** The operands of a pipe. */
  lemma PipeParts(s: string, i: nat, e: nat, l: Tree, r: Tree) returns (j: nat, left: Cmd, right: Cmd)
    requires WellFormed(l) && WellFormed(r) && Reads(s, i, e, Operand(l) + "|" + Operand(r)) && LineEnds(s, e)
    ensures i <= j < |s| && s[j] == '|'
    ensures ParseExec(s, i) == Ok(left, j) && Read(s, left) == WithTail(l, NoTail)
    ensures ParsePipe(s, j + 1) == Ok(right, e) && Read(s, right) == WithTail(r, NoTail)
    decreases TPipe(l, r), 1
  {
    j := Halves(s, i, e, Operand(l), '|', Operand(r));
    left := OperandOk(s, i, j, l, NoTail);
    right := OperandPipe(s, j + 1, e, r, NoTail);
  }

  /** The redirection behind a parenthesis. */
  lemma TailParse(s: string, i: nat, e: nat, tail: Tail) returns (rs: seq<Redirection>)
    requires TailOk(tail) && Stops(s, e) && Reads(s, i, e, TailText(tail))
    ensures Skip(s, i) == i && ParseRedirs(s, i, []) == Redirs(rs, e) && TailRead(s, rs, tail)
  {
    TailStart(s, i, e, tail);
    rs := TailRedirs(s, i, e, tail);
  }

  lemma BlockWrap(s: string, i: nat, j: nat, inner: Cmd, rs: seq<Redirection>, e: nat, t: Tree, tail: Tail)
    returns (c: Cmd)
    requires i < j < |s| && s[i] == '(' && s[j] == ')' && ParseLine(s, i + 1) == Ok(inner, j) && Read(s, inner) == t
    requires Skip(s, j + 1) == j + 1 && ParseRedirs(s, j + 1, []) == Redirs(rs, e) && TailRead(s, rs, tail)
    ensures ParseBlock(s, i) == Ok(c, e) && Read(s, c) == WithTail(t, tail)
  {
    c := Wrap(inner, rs);
    BlockParse(s, i, j, inner, rs, e);
    WrapReads(s, inner, rs, tail);
  }

  /** A line in parentheses at `i` and `j`, and the redirection behind them. */
  lemma BlockOk(s: string, i: nat, j: nat, e: nat, t: Tree, tail: Tail) returns (c: Cmd)
    requires WellFormed(t) && !t.TExec? && TailOk(tail) && Stops(s, e)
    requires i < j < |s| && s[i] == '(' && s[j] == ')'
    requires Reads(s, i + 1, j, Print(t)) && Reads(s, j + 1, e, TailText(tail))
    ensures ParseBlock(s, i) == Ok(c, e) && Read(s, c) == WithTail(t, tail)
    decreases t, 5
  {
    var inner := LineOk(s, i + 1, j, t);
    var rs := TailParse(s, j + 1, e, tail);
    c := BlockWrap(s, i, j, inner, rs, e, t, tail);
  }

  lemma {:induction false} OperandOk(s: string, i: nat, e: nat, t: Tree, tail: Tail) returns (c: Cmd)
    requires WellFormed(t) && TailOk(tail)
    requires Reads(s, i, e, Operand(t) + TailText(tail)) && Stops(s, e)
    ensures ParseExec(s, i) == Ok(c, e) && Read(s, c) == WithTail(t, tail)
    decreases t, 6
  {
    if t.TExec? {
      c := SimpleOk(s, i, e, t.args, tail);
    } else {
      var j := BlockText(s, i, e, Print(t), TailText(tail));
      c := BlockOk(s, i, j, e, t, tail);
      ExecBlock(s, i);
    }
  }

  /** An operand that no | follows. */
  lemma OperandPipe(s: string, i: nat, e: nat, t: Tree, tail: Tail) returns (c: Cmd)
    requires WellFormed(t) && TailOk(tail)
    requires Reads(s, i, e, Operand(t) + TailText(tail)) && Stops(s, e) && At(s, e) != '|'
    ensures ParsePipe(s, i) == Ok(c, e) && Read(s, c) == WithTail(t, tail)
    decreases t, 7
  {
    c := OperandOk(s, i, e, t, tail);
    PipeOfExec(s, i, c, e);
  }

  /** An operand that ends its line. */
  lemma OperandLine(s: string, i: nat, e: nat, t: Tree, tail: Tail) returns (c: Cmd)
    requires WellFormed(t) && TailOk(tail)
    requires Reads(s, i, e, Operand(t) + TailText(tail)) && LineEnds(s, e)
    ensures ParseLine(s, i) == Ok(c, e) && Read(s, c) == WithTail(t, tail)
    decreases t, 8
  {
    c := OperandPipe(s, i, e, t, tail);
    LineOfPipe(s, i, c, e);
  }

  lemma ReadPair(s: string, left: Cmd, right: Cmd, l: Tree, r: Tree)
    requires Read(s, left) == WithTail(l, NoTail) && Read(s, right) == WithTail(r, NoTail)
    ensures Read(s, Pipe(left, right)) == TPipe(l, r) && Read(s, List(left, right)) == TList(l, r)
  {
  }

  lemma PipeLine(s: string, i: nat, e: nat, l: Tree, r: Tree) returns (c: Cmd)
    requires WellFormed(l) && WellFormed(r) && Reads(s, i, e, Operand(l) + "|" + Operand(r)) && LineEnds(s, e)
    ensures ParseLine(s, i) == Ok(c, e) && Read(s, c) == TPipe(l, r)
    decreases TPipe(l, r), 2
  {
    var j, left, right := PipeParts(s, i, e, l, r);
    PipeParse(s, i, j, left, right, e);
    c := Pipe(left, right);
    LineOfPipe(s, i, c, e);
    ReadPair(s, left, right, l, r);
  }

  lemma ListParts(s: string, i: nat, e: nat, l: Tree, r: Tree) returns (j: nat, left: Cmd, right: Cmd)
    requires WellFormed(l) && WellFormed(r) && Reads(s, i, e, Operand(l) + ";" + Operand(r)) && LineEnds(s, e)
    ensures i <= j < |s| && s[j] == ';'
    ensures ParsePipe(s, i) == Ok(left, j) && Read(s, left) == WithTail(l, NoTail)
    ensures ParseLine(s, j + 1) == Ok(right, e) && Read(s, right) == WithTail(r, NoTail)
    decreases TList(l, r), 1
  {
    j := Halves(s, i, e, Operand(l), ';', Operand(r));
    left := OperandPipe(s, i, j, l, NoTail);
    right := OperandLine(s, j + 1, e, r, NoTail);
  }

  lemma ListLine(s: string, i: nat, e: nat, l: Tree, r: Tree) returns (c: Cmd)
    requires WellFormed(l) && WellFormed(r) && Reads(s, i, e, Operand(l) + ";" + Operand(r)) && LineEnds(s, e)
    ensures ParseLine(s, i) == Ok(c, e) && Read(s, c) == TList(l, r)
    decreases TList(l, r), 2
  {
    var j, left, right := ListParts(s, i, e, l, r);
    ListParse(s, i, j, left, right, e);
    c := List(left, right);
    ReadPair(s, left, right, l, r);
  }

  lemma BackParts(s: string, i: nat, e: nat, sub: Tree) returns (j: nat, inner: Cmd)
    requires WellFormed(sub) && Reads(s, i, e, Operand(sub) + "&") && LineEnds(s, e)
    ensures i <= j < |s| && s[j] == '&' && j + 1 == e
    ensures ParsePipe(s, i) == Ok(inner, j) && Read(s, inner) == WithTail(sub, NoTail)
    decreases TBack(sub), 1
  {
    assert Operand(sub) + "&" == Operand(sub) + ['&'] + "";
    j := Halves(s, i, e, Operand(sub), '&', "");
    inner := OperandPipe(s, i, j, sub, NoTail);
  }

  lemma BackLine(s: string, i: nat, e: nat, sub: Tree) returns (c: Cmd)
    requires WellFormed(sub) && Reads(s, i, e, Operand(sub) + "&") && LineEnds(s, e)
    ensures ParseLine(s, i) == Ok(c, e) && Read(s, c) == TBack(sub)
    decreases TBack(sub), 2
  {
    var j, inner := BackParts(s, i, e, sub);
    BackParse(s, i, j, inner, e);
    c := Back(inner);
  }

  lemma {:induction false} LineOk(s: string, i: nat, e: nat, t: Tree) returns (c: Cmd)
    requires WellFormed(t) && Reads(s, i, e, Print(t)) && LineEnds(s, e)
    ensures ParseLine(s, i) == Ok(c, e) && Read(s, c) == t
    decreases t, if t.TExec? then 9 else 3
  {
    match t
    case TExec(args) =>
      assert Operand(t) + TailText(NoTail) == Print(t);
      c := OperandLine(s, i, e, t, NoTail);
    case TRedir(sub, file, output) =>
      c := OperandLine(s, i, e, sub, Tail(file, output));
    case TPipe(l, r) =>
      c := PipeLine(s, i, e, l, r);
    case TList(l, r) =>
      c := ListLine(s, i, e, l, r);
    case TBack(sub) =>
      c := BackLine(s, i, e, sub);
  }

  /** Printing a well-formed command and parsing the line gives the command back. */
  lemma RoundTrip(t: Tree)
    requires WellFormed(t)
    ensures ParseCmd(Print(t)).Ok? && Read(Print(t), ParseCmd(Print(t)).cmd) == t
  {
    var s := Print(t);
    assert s[0..|s|] == s;
    var c := LineOk(s, 0, |s|, t);
  }
}
