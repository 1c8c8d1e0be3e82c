/** sh.c: the shell's parser. A command line is read by a cursor; the words of the tree are
    spans of the line. */
module ParserSpec {

  const MAXARGS := 10

  /** A command, with its words as spans of a line or as strings. O_RDONLY on 0 or
      O_WRONLY|O_CREATE on 1 are the only two redirections: > and >> mean the same. */
  datatype Cmd<W> =
    | Exec(args: seq<W>)
    | Redir(cmd: Cmd<W>, file: W, out: bool)
    | Pipe(left: Cmd<W>, right: Cmd<W>)
    | List(left: Cmd<W>, right: Cmd<W>)
    | Back(cmd: Cmd<W>)

  datatype Span = Span(lo: nat, hi: nat)

  predicate White(c: char) { c == ' ' || c == '\t' || c == '\r' || c == '\n' || c == '\U{b}' }

  predicate Symbol(c: char) { c == '<' || c == '|' || c == '>' || c == '&' || c == ';' || c == '(' || c == ')' }

  predicate Letter(c: char) { !White(c) && !Symbol(c) }

  // ---- tokens ----

  function Skip(b: string, s: nat): (r: nat)
    requires s <= |b|
    ensures s <= r <= |b| && (r < |b| ==> !White(b[r]))
    decreases |b| - s
  {
    if s < |b| && White(b[s]) then Skip(b, s + 1) else s
  }

  function WordEnd(b: string, s: nat): (r: nat)
    requires s <= |b|
    ensures s <= r <= |b| && (r < |b| ==> !Letter(b[r])) && forall x | s <= x < r :: Letter(b[x])
    decreases |b| - s
  {
    if s < |b| && Letter(b[s]) then WordEnd(b, s + 1) else s
  }

  /** kind is '\0' at the end of the line, 'a' for a word, '+' for >>. */
  datatype Tok = Tok(kind: char, lo: nat, hi: nat, next: nat)

  function Token(b: string, s: nat): (t: Tok)
    requires s <= |b|
    ensures s <= t.lo <= t.hi <= t.next <= |b| && (t.kind != '\0' ==> s < t.next)
    ensures t.kind == 'a' ==> IsWord(b, Span(t.lo, t.hi))
  {
    var q := Skip(b, s);
    if q == |b| then Tok('\0', q, q, q)
    else if Symbol(b[q]) && b[q] != '>' then Tok(b[q], q, q + 1, Skip(b, q + 1))
    else if b[q] == '>' then
      if q + 1 < |b| && b[q + 1] == '>' then Tok('+', q, q + 2, Skip(b, q + 2)) else Tok('>', q, q + 1, Skip(b, q + 1))
    else Tok('a', q, WordEnd(b, q), Skip(b, WordEnd(b, q)))
  }

  /** The span is a whole word of the line. */
  ghost predicate IsWord(b: string, w: Span)
  {
    && w.lo < w.hi <= |b| && (forall x | w.lo <= x < w.hi :: Letter(b[x]))
    && (w.hi < |b| ==> !Letter(b[w.hi]))
  }

  /** The character peek looks at, '\0' at the end of the line. */
  function Look(b: string, s: nat): (c: char)
    requires s <= |b|
  {
    var q := Skip(b, s);
    if q < |b| then b[q] else '\0'
  }

  predicate Ends(c: char) { c == '|' || c == ')' || c == '&' || c == ';' }

  // ---- the grammar ----

  datatype Redirection = Redirection(file: Span, out: bool)

  datatype RedirResult = RedirOk(list: seq<Redirection>, pos: nat) | RedirErr

  datatype ExecResult = ExecOk(args: seq<Span>, list: seq<Redirection>, pos: nat) | ExecErr

  datatype Result = Ok(cmd: Cmd<Span>, pos: nat) | Err

  function Wrap(c: Cmd<Span>, list: seq<Redirection>): Cmd<Span>
    decreases |list|
  {
    if list == [] then c else Wrap(Redir(c, list[0].file, list[0].out), list[1..])
  }

  function Redirs(b: string, s: nat): (r: RedirResult)
    requires s <= |b|
    ensures r.RedirOk? ==> s <= r.pos <= |b|
    decreases |b| - s
  {
    if Look(b, s) == '<' || Look(b, s) == '>' then
      var t := Token(b, s);
      var f := Token(b, t.next);
      if t.kind == '\0' || f.kind != 'a' then RedirErr else
        var r := Redirs(b, f.next);
        if r.RedirErr? then r else RedirOk([Redirection(Span(f.lo, f.hi), t.kind != '<')] + r.list, r.pos)
    else RedirOk([], Skip(b, s))
  }

  function Words(b: string, s: nat, args: seq<Span>, list: seq<Redirection>): (r: ExecResult)
    requires s <= |b|
    ensures r.ExecOk? ==> s <= r.pos <= |b|
    decreases |b| - s
  {
    if Ends(Look(b, s)) then ExecOk(args, list, Skip(b, s)) else
      var t := Token(b, s);
      if t.kind == '\0' then ExecOk(args, list, t.next)
      else if t.kind != 'a' || |args| + 1 >= MAXARGS then ExecErr
      else
        var r := Redirs(b, t.next);
        if r.RedirErr? then ExecErr else Words(b, r.pos, args + [Span(t.lo, t.hi)], list + r.list)
  }

  function ParseExec(b: string, s: nat): (r: Result)
    requires s <= |b|
    ensures r.Ok? ==> s <= r.pos <= |b|
    decreases |b| - s, 1
  {
    if Look(b, s) == '(' then ParseBlock(b, s) else
      var d := Redirs(b, s);
      if d.RedirErr? then Err else
        var x := Words(b, d.pos, [], d.list);
        if x.ExecErr? then Err else Ok(Wrap(Exec(x.args), x.list), x.pos)
  }

  function ParseBlock(b: string, s: nat): (r: Result)
    requires s <= |b|
    ensures r.Ok? ==> s <= r.pos <= |b|
    decreases |b| - s, 0
  {
    if Look(b, s) != '(' then Err else
      var c := ParseLine(b, Token(b, s).next);
      if c.Err? || Look(b, c.pos) != ')' then Err else
        var d := Redirs(b, Token(b, c.pos).next);
        if d.RedirErr? then Err else Ok(Wrap(c.cmd, d.list), d.pos)
  }

  function ParsePipe(b: string, s: nat): (r: Result)
    requires s <= |b|
    ensures r.Ok? ==> s <= r.pos <= |b|
    decreases |b| - s, 2
  {
    var c := ParseExec(b, s);
    if c.Err? then Err
    else if Look(b, c.pos) != '|' then Ok(c.cmd, Skip(b, c.pos))
    else
      var d := ParsePipe(b, Token(b, c.pos).next);
      if d.Err? then Err else Ok(Pipe(c.cmd, d.cmd), d.pos)
  }

  function Backs(b: string, c: Cmd<Span>, s: nat): (r: Result)
    requires s <= |b|
    ensures r.Ok? && s <= r.pos <= |b|
    decreases |b| - s
  {
    if Look(b, s) == '&' then Backs(b, Back(c), Token(b, s).next) else Ok(c, Skip(b, s))
  }

  function ParseLine(b: string, s: nat): (r: Result)
    requires s <= |b|
    ensures r.Ok? ==> s <= r.pos <= |b|
    decreases |b| - s, 3
  {
    var p := ParsePipe(b, s);
    if p.Err? then Err else
      var c := Backs(b, p.cmd, p.pos);
      if Look(b, c.pos) != ';' then c else
        var d := ParseLine(b, Token(b, c.pos).next);
        if d.Err? then Err else Ok(List(c.cmd, d.cmd), d.pos)
  }

  /** parsecmd, before nulterminate. */
  function Parse(b: string): (r: Result)
  {
    var c := ParseLine(b, 0);
    if c.Err? || Skip(b, c.pos) != |b| then Err else c
  }
}
