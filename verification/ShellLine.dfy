/** The parser's loops over the line, and nulterminate over the buffer. */
module ShellLine {
  import opened ShellParser
  import opened CStrings

  // ----- the parser as it runs -----

  method SkipSpaces(line: string, ps: nat) returns (r: nat)
    requires ps <= |line|
    ensures r == Skip(line, ps)
  {
    r := ps;
    while r < |line| && Space(line[r])
      invariant ps <= r <= |line| && Skip(line, r) == Skip(line, ps)
    {
      r := r + 1;
    }
  }

  method NextToken(line: string, ps: nat) returns (t: Token)
    requires ps <= |line|
    ensures t == GetToken(line, ps)
  {
    var s := SkipSpaces(line, ps);
    var q := s;
    var kind := At(line, s);
    if kind == '\0' {
    } else if kind == '>' {
      s := s + 1;
      if At(line, s) == '>' {
        kind := '+';
        s := s + 1;
      }
    } else if Symbol(kind) {
      s := s + 1;
    } else {
      kind := 'a';
      while s < |line| && !Space(line[s]) && !Symbol(line[s])
        invariant q <= s <= |line| && WordEnd(line, s) == WordEnd(line, q)
      {
        s := s + 1;
      }
    }
    var next := SkipSpaces(line, s);
    t := Token(kind, q, s, next);
  }

  method PeekAt(line: string, ps: nat, toks: string) returns (found: bool, next: nat)
    requires ps <= |line|
    ensures next == Skip(line, ps) && (found <==> Peek(line, ps, toks))
  {
    next := SkipSpaces(line, ps);
    found := At(line, next) != '\0' && At(line, next) in toks;
  }

  /** The parsing functions see the same line after peek has skipped spaces. */
  lemma SameAfterPeek(line: string, ps: nat)
    requires ps <= |line|
    ensures Skip(line, Skip(line, ps)) == Skip(line, ps)
    ensures GetToken(line, Skip(line, ps)) == GetToken(line, ps)
  {
  }

  method Redirections(line: string, start: nat, rs0: seq<Redirection>) returns (r: ShellParser.Redirections)
    requires start <= |line|
    ensures r == ParseRedirs(line, start, rs0)
  {
    var ps, rs := start, rs0;
    while true
      invariant ps <= |line| && ParseRedirs(line, ps, rs) == ParseRedirs(line, start, rs0)
      decreases |line| - ps
    {
      SameAfterPeek(line, ps);
      var found, next := PeekAt(line, ps, "<>");
      if !found { return Redirs(rs, next); }
      var tok := NextToken(line, next);
      var file := NextToken(line, tok.next);
      if file.kind != 'a' { return BadRedir; }
      rs := rs + [Redirection(Span(file.q, file.eq), tok.kind != '<')];
      ps := file.next;
    }
  }

  method ExecCmd(line: string, start: nat) returns (r: Parse)
    requires start <= |line|
    ensures r == ParseExec(line, start)
    decreases |line| - start, 1
  {
    var paren, _ := PeekAt(line, start, "(");
    if paren {
      r := BlockCmd(line, start);
      return;
    }
    var more := Redirections(line, start, []);
    if more.BadRedir? { return Err(MISSING_FILE); }
    var ps, rs := more.pos, more.rs;
    var argv: seq<Span> := [];
    ghost var whole := ParseExec(line, start);
    while true
      invariant ps <= |line| && ParseArgs(line, ps, argv, rs) == whole && |argv| < MAXARGS
      decreases |line| - ps
    {
      SameAfterPeek(line, ps);
      var stop, next := PeekAt(line, ps, "|)&;");
      if stop { return Ok(Wrap(Exec(argv), rs), next); }
      var tok := NextToken(line, next);
      if tok.kind == '\0' { return Ok(Wrap(Exec(argv), rs), tok.next); }
      if tok.kind != 'a' { return Err("syntax"); }
      if |argv| + 1 >= MAXARGS { return Err("too many args"); }
      more := Redirections(line, tok.next, rs);
      if more.BadRedir? { return Err(MISSING_FILE); }
      argv := argv + [Span(tok.q, tok.eq)];
      ps, rs := more.pos, more.rs;
    }
  }

  method BlockCmd(line: string, start: nat) returns (r: Parse)
    requires start <= |line|
    ensures r == ParseBlock(line, start)
    decreases |line| - start, 0
  {
    var open, _ := PeekAt(line, start, "(");
    if !open { return Err("parseblock"); }
    var tok := NextToken(line, start);
    r := LineCmd(line, tok.next);
    if r.Err? { return; }
    var close, _ := PeekAt(line, r.pos, ")");
    if !close { return Err("syntax - missing )"); }
    tok := NextToken(line, r.pos);
    var rs := Redirections(line, tok.next, []);
    if rs.BadRedir? { return Err(MISSING_FILE); }
    r := Ok(Wrap(r.cmd, rs.rs), rs.pos);
  }

  method PipeCmd(line: string, start: nat) returns (r: Parse)
    requires start <= |line|
    ensures r == ParsePipe(line, start)
    decreases |line| - start, 2
  {
    r := ExecCmd(line, start);
    if r.Err? { return; }
    var bar, next := PeekAt(line, r.pos, "|");
    if !bar { return Ok(r.cmd, next); }
    var tok := NextToken(line, r.pos);
    var right := PipeCmd(line, tok.next);
    if right.Err? { return right; }
    r := Ok(Pipe(r.cmd, right.cmd), right.pos);
  }

  method LineCmd(line: string, start: nat) returns (r: Parse)
    requires start <= |line|
    ensures r == ParseLine(line, start)
    decreases |line| - start, 3
  {
    r := PipeCmd(line, start);
    if r.Err? { return; }
    var cmd, ps := r.cmd, r.pos;
    ghost var backs := ParseBacks(line, ps, cmd);
    var more, next := PeekAt(line, ps, "&");
    while more
      invariant start <= ps <= |line| && ParseBacks(line, ps, cmd) == backs
      invariant next == Skip(line, ps) && (more <==> Peek(line, ps, "&"))
      decreases |line| - ps
    {
      var tok := NextToken(line, ps);
      cmd, ps := Back(cmd), tok.next;
      more, next := PeekAt(line, ps, "&");
    }
    ps := next;
    var semi, _ := PeekAt(line, ps, ";");
    SameAfterPeek(line, ps);
    if !semi { return Ok(cmd, ps); }
    var tok := NextToken(line, ps);
    var right := LineCmd(line, tok.next);
    if right.Err? { return right; }
    r := Ok(List(cmd, right.cmd), right.pos);
  }

  // ----- where the words are -----

  function Spans(c: Cmd): set<Span> {
    match c
    case Exec(argv) => set x | x in argv
    case Redir(c, r) => Spans(c) + {r.file}
    case Pipe(l, r) => Spans(l) + Spans(r)
    case List(l, r) => Spans(l) + Spans(r)
    case Back(c) => Spans(c)
  }

  /** `x` is a maximal run of word characters. */
  ghost predicate WordSpan(s: string, x: Span) {
    && x.q < x.eq <= |s|
    && (forall k :: x.q <= k < x.eq ==> WordChar(s[k]))
    && (x.eq < |s| ==> !WordChar(s[x.eq]))
  }

  ghost predicate AllWordSpans(s: string, c: Cmd) { forall x :: x in Spans(c) ==> WordSpan(s, x) }

  lemma TokenSpan(s: string, i: nat)
    requires IsCString(s) && i <= |s| && GetToken(s, i).kind == 'a'
    ensures WordSpan(s, Span(GetToken(s, i).q, GetToken(s, i).eq))
  {
    var q := Skip(s, i);
    assert s[q] in s;
    forall k | q <= k < WordEnd(s, q) ensures WordChar(s[k]) {
      assert s[k] in s;
    }
  }

  ghost predicate RedirSpans(s: string, rs: seq<Redirection>) {
    forall k :: 0 <= k < |rs| ==> WordSpan(s, rs[k].file)
  }

  lemma {:induction false} RedirsSpans(s: string, i: nat, rs: seq<Redirection>)
    requires IsCString(s) && i <= |s| && RedirSpans(s, rs)
    ensures ParseRedirs(s, i, rs).Redirs? ==> RedirSpans(s, ParseRedirs(s, i, rs).rs)
    decreases |s| - i
  {
    if Peek(s, i, "<>") {
      var tok := GetToken(s, i);
      var file := GetToken(s, tok.next);
      if file.kind == 'a' {
        TokenSpan(s, tok.next);
        RedirsSpans(s, file.next, rs + [Redirection(Span(file.q, file.eq), tok.kind != '<')]);
      }
    }
  }

  lemma {:induction false} WrapSpans(s: string, c: Cmd, rs: seq<Redirection>)
    requires AllWordSpans(s, c) && RedirSpans(s, rs)
    ensures AllWordSpans(s, Wrap(c, rs))
  {
    if rs != [] { WrapSpans(s, c, rs[..|rs|-1]); }
  }

  lemma {:induction false} ArgsSpans(s: string, i: nat, argv: seq<Span>, rs: seq<Redirection>)
    requires IsCString(s) && i <= |s| && RedirSpans(s, rs) && AllWordSpans(s, Exec(argv))
    ensures ParseArgs(s, i, argv, rs).Ok? ==> AllWordSpans(s, ParseArgs(s, i, argv, rs).cmd)
    decreases |s| - i
  {
    WrapSpans(s, Exec(argv), rs);
    var tok := GetToken(s, i);
    if !Peek(s, i, "|)&;") && tok.kind == 'a' && |argv| + 1 < MAXARGS {
      TokenSpan(s, i);
      RedirsSpans(s, tok.next, rs);
      var more := ParseRedirs(s, tok.next, rs);
      if more.Redirs? {
        ArgsSpans(s, more.pos, argv + [Span(tok.q, tok.eq)], more.rs);
      }
    }
  }

  lemma {:induction false} BacksSpans(s: string, i: nat, c: Cmd)
    requires i <= |s| && AllWordSpans(s, c)
    ensures AllWordSpans(s, ParseBacks(s, i, c).cmd)
    decreases |s| - i
  {
    if Peek(s, i, "&") { BacksSpans(s, GetToken(s, i).next, Back(c)); }
  }

  lemma PairSpans(s: string, l: Cmd, r: Cmd)
    requires AllWordSpans(s, l) && AllWordSpans(s, r)
    ensures AllWordSpans(s, Pipe(l, r)) && AllWordSpans(s, List(l, r))
  {
  }

  lemma {:induction false} ExecSpans(s: string, i: nat)
    requires IsCString(s) && i <= |s|
    ensures ParseExec(s, i).Ok? ==> AllWordSpans(s, ParseExec(s, i).cmd)
    decreases |s| - i, 1
  {
    if Peek(s, i, "(") {
      var inner := ParseLine(s, GetToken(s, i).next);
      LineSpans(s, GetToken(s, i).next);
      if inner.Ok? {
        var next := GetToken(s, inner.pos).next;
        RedirsSpans(s, next, []);
        if ParseRedirs(s, next, []).Redirs? { WrapSpans(s, inner.cmd, ParseRedirs(s, next, []).rs); }
      }
    } else {
      RedirsSpans(s, i, []);
      var first := ParseRedirs(s, i, []);
      if first.Redirs? { ArgsSpans(s, first.pos, [], first.rs); }
    }
  }

  lemma {:induction false} PipeSpans(s: string, i: nat)
    requires IsCString(s) && i <= |s|
    ensures ParsePipe(s, i).Ok? ==> AllWordSpans(s, ParsePipe(s, i).cmd)
    decreases |s| - i, 2
  {
    ExecSpans(s, i);
    var left := ParseExec(s, i);
    if left.Ok? && Peek(s, left.pos, "|") {
      var next := GetToken(s, left.pos).next;
      PipeSpans(s, next);
      if ParsePipe(s, next).Ok? { PairSpans(s, left.cmd, ParsePipe(s, next).cmd); }
    }
  }

  lemma {:induction false} LineSpans(s: string, i: nat)
    requires IsCString(s) && i <= |s|
    ensures ParseLine(s, i).Ok? ==> AllWordSpans(s, ParseLine(s, i).cmd)
    decreases |s| - i, 3
  {
    PipeSpans(s, i);
    var first := ParsePipe(s, i);
    if first.Ok? {
      BacksSpans(s, first.pos, first.cmd);
      var left := ParseBacks(s, first.pos, first.cmd);
      if Peek(s, left.pos, ";") { LineSpans(s, GetToken(s, left.pos).next); }
    }
  }

  // ----- nulterminate -----

  function Ends(c: Cmd): set<nat> { set x | x in Spans(c) :: x.eq }

  /** `b` with a NUL at each position of `ends`. */
  function Cut(b: seq<char>, ends: set<nat>): (r: seq<char>)
    ensures |r| == |b|
  {
    seq(|b|, i requires 0 <= i < |b| => if i in ends then '\0' else b[i])
  }

  lemma CutTwice(b: seq<char>, x: set<nat>, y: set<nat>)
    ensures Cut(Cut(b, x), y) == Cut(b, x + y)
  {
  }

  method NulTerminate(c: Cmd, buf: array<char>)
    requires forall x :: x in Spans(c) ==> x.eq < buf.Length
    modifies buf
    ensures buf[..] == Cut(old(buf[..]), Ends(c))
    decreases c
  {
    ghost var b := buf[..];
    match c
    case Exec(argv) =>
      var i := 0;
      assert b == Cut(b, {});
      while i < |argv|
        invariant 0 <= i <= |argv|
        invariant buf[..] == Cut(b, set x | x in argv[..i] :: x.eq)
      {
        assert argv[i] in Spans(c);
        ghost var now := buf[..];
        buf[argv[i].eq] := '\0';
        assert argv[..i + 1] == argv[..i] + [argv[i]];
        assert buf[..] == now[argv[i].eq := '\0'];
        i := i + 1;
      }
      assert argv[..i] == argv;
    case Redir(c', r) =>
      NulTerminate(c', buf);
      assert r.file in Spans(c);
      ghost var now := buf[..];
      buf[r.file.eq] := '\0';
      assert buf[..] == now[r.file.eq := '\0'];
      assert Ends(c) == Ends(c') + {r.file.eq};
    case Pipe(l, r) =>
      NulTerminate(l, buf);
      NulTerminate(r, buf);
      CutTwice(b, Ends(l), Ends(r));
      assert Ends(c) == Ends(l) + Ends(r);
    case List(l, r) =>
      NulTerminate(l, buf);
      NulTerminate(r, buf);
      CutTwice(b, Ends(l), Ends(r));
      assert Ends(c) == Ends(l) + Ends(r);
    case Back(c') =>
      NulTerminate(c', buf);
      assert Ends(c) == Ends(c');
  }

  /** The C string that starts at `i`. */
  function CString(b: seq<char>, i: nat): string
    requires i <= |b|
    decreases |b| - i
  {
    if i == |b| || b[i] == '\0' then "" else [b[i]] + CString(b, i + 1)
  }

  lemma {:induction false} CStringIs(b: seq<char>, i: nat, j: nat)
    requires i <= j < |b| && b[j] == '\0' && forall k :: i <= k < j ==> b[k] != '\0'
    ensures CString(b, i) == b[i..j]
    decreases j - i
  {
    if i < j { CStringIs(b, i + 1, j); }
  }

  /** parsecmd on the buffer holding `line` and its NUL: the words of the result, read
      as C strings from the buffer, are exactly the tokens parsed. */
  method ParseCmdInPlace(line: string, buf: array<char>) returns (r: Parse)
    requires IsCString(line) && buf[..] == line + ['\0']
    modifies buf
    ensures r == ParseCmd(line)
    ensures r.Err? ==> buf[..] == old(buf[..])
    ensures r.Ok? ==> forall x :: x in Spans(r.cmd) ==>
        x.q <= x.eq <= |line| && CString(buf[..], x.q) == line[x.q..x.eq]
  {
    r := LineCmd(line, 0);
    if r.Err? { return; }
    var _, end := PeekAt(line, r.pos, "");
    if end != |line| { return Err("syntax"); }
    r := Ok(r.cmd, |line|);
    LineSpans(line, 0);
    assert AllWordSpans(line, r.cmd);
    NulTerminate(r.cmd, buf);
    forall x | x in Spans(r.cmd) ensures CString(buf[..], x.q) == line[x.q..x.eq] {
      WordReads(line, r.cmd, x);
    }
  }

  /** The NULs fall only behind words, never inside one. */
  lemma WordReads(line: string, c: Cmd, x: Span)
    requires AllWordSpans(line, c) && x in Spans(c)
    ensures WordSpan(line, x) && CString(Cut(line + ['\0'], Ends(c)), x.q) == line[x.q..x.eq]
  {
    var b := Cut(line + ['\0'], Ends(c));
    assert x.eq in Ends(c);
    forall k | x.q <= k < x.eq ensures b[k] == line[k] != '\0' {
      forall y | y in Spans(c) ensures y.eq != k {
        assert WordSpan(line, y);
      }
      assert k !in Ends(c);
    }
    CStringIs(b, x.q, x.eq);
    assert b[x.q..x.eq] == line[x.q..x.eq];
  }
}
