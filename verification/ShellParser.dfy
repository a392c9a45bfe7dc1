/** The shell's recursive-descent parser, as functions of the line and a position. */
module ShellParser {
  import opened CStrings

  // ----- characters and tokens -----

  predicate Space(c: char) { c == ' ' || c == '\t' || c == '\r' || c == '\n' || c == '\U{0B}' }

  predicate Symbol(c: char) {
    c == '<' || c == '|' || c == '>' || c == '&' || c == ';' || c == '(' || c == ')'
  }

  predicate WordChar(c: char) { c != '\0' && !Space(c) && !Symbol(c) }

  /** First position from `i` on that holds no space. */
  function Skip(s: string, i: nat): (r: nat)
    requires i <= |s|
    ensures i <= r <= |s| && (r < |s| ==> !Space(s[r]))
    ensures forall k :: i <= k < r ==> Space(s[k])
    decreases |s| - i
  {
    if i < |s| && Space(s[i]) then Skip(s, i + 1) else i
  }

  /** First position from `i` on that holds no word character. */
  function WordEnd(s: string, i: nat): (r: nat)
    requires i <= |s|
    ensures i <= r <= |s| && (r < |s| ==> Space(s[r]) || Symbol(s[r]))
    ensures forall k :: i <= k < r ==> !Space(s[k]) && !Symbol(s[k])
    decreases |s| - i
  {
    if i < |s| && !Space(s[i]) && !Symbol(s[i]) then WordEnd(s, i + 1) else i
  }

  /** `kind` is the symbol, '+' for >>, 'a' for a word, NUL at the end; the token's
      text is `q .. eq`, and scanning goes on at `next`. */
  datatype Token = Token(kind: char, q: nat, eq: nat, next: nat)

  function GetToken(s: string, i: nat): (t: Token)
    requires i <= |s|
    ensures i <= t.q <= t.eq <= t.next <= |s|
    ensures t.kind != '\0' ==> i < t.next
  {
    var q := Skip(s, i);
    var c := At(s, q);
    if c == '\0' then Token('\0', q, q, Skip(s, q))
    else if c == '>' && At(s, q + 1) == '>' then Token('+', q, q + 2, Skip(s, q + 2))
    else if Symbol(c) then Token(c, q, q + 1, Skip(s, q + 1))
    else Token('a', q, WordEnd(s, q), Skip(s, WordEnd(s, q)))
  }

  /** The next token starts with one of `toks`. */
  predicate Peek(s: string, i: nat, toks: string)
    requires i <= |s|
  {
    At(s, Skip(s, i)) != '\0' && At(s, Skip(s, i)) in toks
  }

  // ----- commands -----

  /** A span of the line. */
  datatype Span = Span(q: nat, eq: nat)

  datatype Redirection = Redirection(file: Span, output: bool)

  datatype Cmd =
    | Exec(argv: seq<Span>)
    | Redir(cmd: Cmd, redirection: Redirection)
    | Pipe(left: Cmd, right: Cmd)
    | List(left: Cmd, right: Cmd)
    | Back(cmd: Cmd)

  const MAXARGS := 10

  datatype Parse = Ok(cmd: Cmd, pos: nat) | Err(message: string)

  datatype Redirections = Redirs(rs: seq<Redirection>, pos: nat) | BadRedir

  /** Redirections wrap a command from the inside out. */
  function Wrap(cmd: Cmd, rs: seq<Redirection>): Cmd {
    if rs == [] then cmd else Redir(Wrap(cmd, rs[..|rs|-1]), rs[|rs|-1])
  }

  function ParseRedirs(s: string, i: nat, rs: seq<Redirection>): (r: Redirections)
    requires i <= |s|
    ensures r.Redirs? ==> i <= r.pos <= |s|
    decreases |s| - i
  {
    if !Peek(s, i, "<>") then Redirs(rs, Skip(s, i))
    else
      var tok := GetToken(s, i);
      var file := GetToken(s, tok.next);
      if file.kind != 'a' then BadRedir
      else ParseRedirs(s, file.next, rs + [Redirection(Span(file.q, file.eq), tok.kind != '<')])
  }

  const MISSING_FILE := "missing file for redirection"

  /** The loop of parseexec, with the words and redirections found so far. */
  function ParseArgs(s: string, i: nat, argv: seq<Span>, rs: seq<Redirection>): (r: Parse)
    requires i <= |s|
    ensures r.Ok? ==> i <= r.pos <= |s|
    decreases |s| - i
  {
    if Peek(s, i, "|)&;") then Ok(Wrap(Exec(argv), rs), Skip(s, i))
    else
      var tok := GetToken(s, i);
      if tok.kind == '\0' then Ok(Wrap(Exec(argv), rs), tok.next)
      else if tok.kind != 'a' then Err("syntax")
      else if |argv| + 1 >= MAXARGS then Err("too many args")
      else
        var more := ParseRedirs(s, tok.next, rs);
        if more.BadRedir? then Err(MISSING_FILE)
        else ParseArgs(s, more.pos, argv + [Span(tok.q, tok.eq)], more.rs)
  }

  function ParseExec(s: string, i: nat): (r: Parse)
    requires i <= |s|
    ensures r.Ok? ==> i <= r.pos <= |s|
    decreases |s| - i, 1
  {
    if Peek(s, i, "(") then ParseBlock(s, i)
    else
      var first := ParseRedirs(s, i, []);
      if first.BadRedir? then Err(MISSING_FILE) else ParseArgs(s, first.pos, [], first.rs)
  }

  function ParseBlock(s: string, i: nat): (r: Parse)
    requires i <= |s|
    ensures r.Ok? ==> i <= r.pos <= |s|
    decreases |s| - i, 0
  {
    if !Peek(s, i, "(") then Err("parseblock") else CloseBlock(s, ParseLine(s, GetToken(s, i).next))
  }

  /** The rest of parseblock after the line inside. */
  function CloseBlock(s: string, inner: Parse): (r: Parse)
    requires inner.Ok? ==> inner.pos <= |s|
    ensures r.Ok? ==> inner.Ok? && inner.pos <= r.pos <= |s|
  {
    if inner.Err? then inner
    else if !Peek(s, inner.pos, ")") then Err("syntax - missing )")
    else
      var rs := ParseRedirs(s, GetToken(s, inner.pos).next, []);
      if rs.BadRedir? then Err(MISSING_FILE) else Ok(Wrap(inner.cmd, rs.rs), rs.pos)
  }

  function ParsePipe(s: string, i: nat): (r: Parse)
    requires i <= |s|
    ensures r.Ok? ==> i <= r.pos <= |s|
    decreases |s| - i, 2
  {
    var left := ParseExec(s, i);
    if left.Err? || !Peek(s, left.pos, "|") then Settle(s, left)
    else
      var right := ParsePipe(s, GetToken(s, left.pos).next);
      if right.Err? then right else Ok(Pipe(left.cmd, right.cmd), right.pos)
  }

  /** peek moves past spaces even when it finds nothing. */
  function Settle(s: string, r: Parse): Parse
    requires r.Ok? ==> r.pos <= |s|
  {
    if r.Ok? then Ok(r.cmd, Skip(s, r.pos)) else r
  }

  /** The & loop of parseline. */
  function ParseBacks(s: string, i: nat, cmd: Cmd): (r: Parse)
    requires i <= |s|
    ensures r.Ok? && i <= r.pos <= |s|
    decreases |s| - i
  {
    if Peek(s, i, "&") then ParseBacks(s, GetToken(s, i).next, Back(cmd)) else Ok(cmd, Skip(s, i))
  }

  function ParseLine(s: string, i: nat): (r: Parse)
    requires i <= |s|
    ensures r.Ok? ==> i <= r.pos <= |s|
    decreases |s| - i, 3
  {
    var first := ParsePipe(s, i);
    if first.Err? then first
    else
      var left := ParseBacks(s, first.pos, first.cmd);
      if !Peek(s, left.pos, ";") then Settle(s, left)
      else
        var right := ParseLine(s, GetToken(s, left.pos).next);
        if right.Err? then right else Ok(List(left.cmd, right.cmd), right.pos)
  }

  function ParseCmd(s: string): (r: Parse)
    ensures r.Ok? ==> r.pos == |s|
  {
    var r := ParseLine(s, 0);
    if r.Err? then r
    else if Skip(s, r.pos) != |s| then Err("syntax")
    else Ok(r.cmd, |s|)
  }
}
