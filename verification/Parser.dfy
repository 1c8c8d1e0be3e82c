/** The parser as it runs: a cursor moved by loops and recursive descent. None is a panic. */
module Parser {
  import opened Basics
  import opened ParserSpec
  import opened ParserWords

  class Parser {
    const b: string       // the line, up to es
    var ps: nat           // the cursor

    constructor (b: string)
      ensures this.b == b && ps == 0
    {
      this.b := b;
      ps := 0;
    }

    /** The loop at the head and tail of gettoken and in peek. */
    method SkipWhite(s: nat) returns (r: nat)
      requires s <= |b|
      ensures r == Skip(b, s)
    {
      r := s;
      while r < |b| && White(b[r])
        invariant s <= r <= |b| && Skip(b, r) == Skip(b, s)
      {
        r := r + 1;
      }
    }

    method Gettoken() returns (kind: char, q: nat, eq: nat)
      requires ps <= |b|
      modifies this
      ensures ps <= |b| && Tok(kind, q, eq, ps) == Token(b, old(ps))
    {
      var s := SkipWhite(ps);
      q := s;
      if s == |b| {
        kind := '\0';
      } else if Symbol(b[s]) && b[s] != '>' {
        kind := b[s];
        s := s + 1;
      } else if b[s] == '>' {
        kind := '>';
        s := s + 1;
        if s < |b| && b[s] == '>' {
          kind := '+';
          s := s + 1;
        }
      } else {
        kind := 'a';
        while s < |b| && !White(b[s]) && !Symbol(b[s])
          invariant q <= s <= |b| && WordEnd(b, s) == WordEnd(b, q)
        {
          s := s + 1;
        }
      }
      eq := s;
      ps := SkipWhite(s);
    }

    method Peek(toks: set<char>) returns (r: bool)
      requires ps <= |b| && '\0' !in toks
      modifies this
      ensures ps == Skip(b, old(ps)) <= |b| && (r <==> Look(b, old(ps)) in toks)
    {
      ps := SkipWhite(ps);
      r := ps < |b| && b[ps] in toks;
    }

    /** parseredirs; the redirections are listed, innermost first. */
    method ParseRedirs(list: seq<Redirection>) returns (r: Option<seq<Redirection>>)
      requires ps <= |b|
      modifies this
      ensures ps <= |b| && r.Some? == Redirs(b, old(ps)).RedirOk?
      ensures r.Some? ==> r.value == list + Redirs(b, old(ps)).list && ps == Redirs(b, old(ps)).pos
    {
      hide Redirs, Token, Look, Skip;
      var done := [];
      SkipSame(b, ps);
      var more := Peek({'<', '>'});
      while more
        invariant ps <= |b| && Skip(b, ps) == ps && (more <==> Look(b, ps) == '<' || Look(b, ps) == '>')
        invariant Joined(Redirs(b, old(ps)), done, Redirs(b, ps))
        decreases |b| - ps
      {
        RedirsStep(b, ps, done, Redirs(b, old(ps)));
        var tok, q0, eq0 := Gettoken();
        var word, q, eq := Gettoken();
        if word != 'a' {
          return None;
        }
        done := done + [Redirection(Span(q, eq), tok != '<')];
        SkipSame(b, ps);
        more := Peek({'<', '>'});
      }
      RedirsEnd(b, ps);
      return Some(list + done);
    }

    /** parseexec's loop over the words, and the redirections among them. */
    method ParseWords(list: seq<Redirection>) returns (r: Option<Cmd<Span>>)
      requires ps <= |b|
      modifies this
      ensures ps <= |b|
      ensures
        var x := Words(b, old(ps), [], list);
        r.Some? == x.ExecOk? && (r.Some? ==> r.value == Wrap(Exec(x.args), x.list) && ps == x.pos)
    {
      hide Words, Redirs, Token, Look, Skip, Wrap;
      var args, reds := [], list;
      SkipSame(b, ps);
      WordsSame(b, ps, args, reds);
      var end := Peek({'|', ')', '&', ';'});
      while !end
        invariant ps <= |b| && Skip(b, ps) == ps && (end <==> Ends(Look(b, ps)))
        invariant Words(b, ps, args, reds) == Words(b, old(ps), [], list)
        decreases |b| - ps
      {
        WordsStep(b, ps, args, reds);
        ghost var p := ps;
        var tok, q, eq := Gettoken();
        if tok == '\0' {
          return Some(Wrap(Exec(args), reds));
        }
        if tok != 'a' {
          return None;
        }
        args := args + [Span(q, eq)];
        if |args| >= MAXARGS {
          return None;
        }
        var more := ParseRedirs(reds);
        if more.None? {
          return None;
        }
        reds := more.value;
        SkipSame(b, ps);
        WordsSame(b, ps, args, reds);
        end := Peek({'|', ')', '&', ';'});
      }
      WordsEnd(b, ps, args, reds);
      return Some(Wrap(Exec(args), reds));
    }

    method ParseExec() returns (r: Option<Cmd<Span>>)
      requires ps <= |b|
      modifies this
      ensures ps <= |b| && Agrees(r, ps, ParserSpec.ParseExec(b, old(ps)))
      decreases |b| - ps, 1
    {
      hide Words, Redirs, Token, Skip, Wrap, ParserSpec.ParseBlock;
      ExecSame(b, ps);
      SkipSame(b, ps);
      var block := Peek({'('});
      if block {
        r := ParseBlock();
        return;
      }
      ghost var d := Redirs(b, ps);
      var list := ParseRedirs([]);
      if list.None? {
        return None;
      }
      assert [] + d.list == d.list;
      r := ParseWords(list.value);
    }

    method ParseBlock() returns (r: Option<Cmd<Span>>)
      requires ps <= |b|
      modifies this
      ensures ps <= |b| && Agrees(r, ps, ParserSpec.ParseBlock(b, old(ps)))
      decreases |b| - ps, 0
    {
      hide Redirs, Token, Look, Skip, Wrap, ParserSpec.ParseLine;
      LookToken(b, ps);
      SkipSame(b, ps);
      var open := Peek({'('});
      if !open {
        return None;
      }
      var k0, q0, e0 := Gettoken();
      var c := ParseLine();
      if c.None? {
        return None;
      }
      SkipSame(b, ps);
      var close := Peek({')'});
      if !close {
        return None;
      }
      var k1, q1, e1 := Gettoken();
      ghost var d := Redirs(b, ps);
      var list := ParseRedirs([]);
      if list.None? {
        return None;
      }
      assert [] + d.list == d.list;
      r := Some(Wrap(c.value, list.value));
    }

    method ParsePipe() returns (r: Option<Cmd<Span>>)
      requires ps <= |b|
      modifies this
      ensures ps <= |b| && Agrees(r, ps, ParserSpec.ParsePipe(b, old(ps)))
      decreases |b| - ps, 2
    {
      hide Token, Look, Skip, ParserSpec.ParseExec;
      r := ParseExec();
      if r.None? {
        return;
      }
      SkipSame(b, ps);
      LookToken(b, ps);
      var more := Peek({'|'});
      if more {
        var k, q, e := Gettoken();
        PipeStep(b, old(ps));
        var right := ParsePipe();
        if right.None? {
          return None;
        }
        r := Some(Pipe(r.value, right.value));
      }
    }

    method ParseLine() returns (r: Option<Cmd<Span>>)
      requires ps <= |b|
      modifies this
      ensures ps <= |b| && Agrees(r, ps, ParserSpec.ParseLine(b, old(ps)))
      decreases |b| - ps, 3
    {
      hide Token, Look, Skip, Backs, ParserSpec.ParsePipe;
      r := ParsePipe();
      if r.None? {
        return;
      }
      var c := r.value;
      BacksSame(b, c, ps);
      SkipSame(b, ps);
      var more := Peek({'&'});
      while more
        invariant old(ps) <= ps <= |b| && Skip(b, ps) == ps && (more <==> Look(b, ps) == '&')
        invariant Backs(b, c, ps) == Backs(b, ParserSpec.ParsePipe(b, old(ps)).cmd,
                        ParserSpec.ParsePipe(b, old(ps)).pos)
        decreases |b| - ps
      {
        LookToken(b, ps);
        BacksStep(b, c, ps);
        var k, q, e := Gettoken();
        c := Back(c);
        BacksSame(b, c, ps);
        SkipSame(b, ps);
        more := Peek({'&'});
      }
      BacksEnd(b, c, ps);
      LookToken(b, ps);
      LineStep(b, old(ps));
      var list := Peek({';'});
      r := Some(c);
      if list {
        var k, q, e := Gettoken();
        var right := ParseLine();
        if right.None? {
          return None;
        }
        r := Some(List(c, right.value));
      }
    }
  }

  ghost predicate Agrees(r: Option<Cmd<Span>>, ps: nat, x: Result)
  {
    r.Some? == x.Ok? && (r.Some? ==> r.value == x.cmd && ps == x.pos)
  }

  /** What has been read, and what the rest gives, is the whole. */
  ghost predicate Joined(whole: RedirResult, done: seq<Redirection>, rest: RedirResult)
  {
    if rest.RedirErr? then whole.RedirErr? else whole == RedirOk(done + rest.list, rest.pos)
  }

  /** Skipping white space first makes no difference. */
  lemma SkipSame(b: string, s: nat)
    requires s <= |b|
    ensures
      var q := Skip(b, s);
      Skip(b, q) == q && Look(b, q) == Look(b, s) && Token(b, q) == Token(b, s) && Redirs(b, q) == Redirs(b, s)
  {
    TokenSame(b, s);
    hide Token, Look, Skip;
  }

  lemma TokenSame(b: string, s: nat)
    requires s <= |b|
    ensures
      var q := Skip(b, s);
      Skip(b, q) == q && Look(b, q) == Look(b, s) && Token(b, q) == Token(b, s)
  {
  }

  lemma RedirsStep(b: string, s: nat, done: seq<Redirection>, whole: RedirResult)
    requires s <= |b| && (Look(b, s) == '<' || Look(b, s) == '>') && Joined(whole, done, Redirs(b, s))
    ensures
      var t := Token(b, s);
      var f := Token(b, t.next);
      && s < t.next
      && (f.kind != 'a' ==> whole.RedirErr?)
      && (f.kind == 'a' ==> Joined(whole, done + [Redirection(Span(f.lo, f.hi), t.kind != '<')], Redirs(b, f.next)))
  {
    LookToken(b, s);
    RedirsUnfold(b, s);
    hide Token, Look, Skip, Redirs;
    var t := Token(b, s);
    var f := Token(b, t.next);
    if f.kind == 'a' {
      JoinedStep(whole, done, Redirection(Span(f.lo, f.hi), t.kind != '<'), Redirs(b, f.next), Redirs(b, s));
    }
  }

  lemma JoinedStep(whole: RedirResult, done: seq<Redirection>, x: Redirection, rest: RedirResult, from: RedirResult)
    requires Joined(whole, done, from)
    requires from == if rest.RedirErr? then RedirErr else RedirOk([x] + rest.list, rest.pos)
    ensures Joined(whole, done + [x], rest)
  {
    if rest.RedirOk? { assert done + ([x] + rest.list) == (done + [x]) + rest.list; }
  }

  lemma RedirsUnfold(b: string, s: nat)
    requires s <= |b| && (Look(b, s) == '<' || Look(b, s) == '>')
    ensures
      var t := Token(b, s);
      var f := Token(b, t.next);
      var r := Redirs(b, f.next);
      Redirs(b, s) == if f.kind != 'a' || r.RedirErr? then RedirErr
                      else RedirOk([Redirection(Span(f.lo, f.hi), t.kind != '<')] + r.list, r.pos)
  {
    LookToken(b, s);
    hide Token, Look, Skip;
  }

  lemma LookToken(b: string, s: nat)
    requires s <= |b|
    ensures Token(b, s).kind == '\0' ==> Look(b, s) == '\0'
    ensures Look(b, s) == '<' || Look(b, s) == '>' ==> Token(b, s).kind != '\0'
    ensures Symbol(Look(b, s)) ==> s < Token(b, s).next
  {
  }

  lemma RedirsEnd(b: string, s: nat)
    requires s <= |b| && Look(b, s) != '<' && Look(b, s) != '>'
    ensures Redirs(b, s) == RedirOk([], Skip(b, s))
  {
  }

  lemma WordsSame(b: string, s: nat, args: seq<Span>, list: seq<Redirection>)
    requires s <= |b|
    ensures Words(b, Skip(b, s), args, list) == Words(b, s, args, list)
  {
    TokenSame(b, s);
    hide Token, Look, Skip, Redirs;
  }

  lemma WordsStep(b: string, s: nat, args: seq<Span>, list: seq<Redirection>)
    requires s <= |b| && !Ends(Look(b, s))
    ensures
      var t := Token(b, s);
      var r := Redirs(b, t.next);
      && (t.kind == '\0' ==> Words(b, s, args, list) == ExecOk(args, list, t.next))
      && (t.kind != '\0' ==> s < t.next)
      && (t.kind != '\0' && (t.kind != 'a' || |args| + 1 >= MAXARGS || r.RedirErr?) ==>
            Words(b, s, args, list) == ExecErr)
      && (t.kind == 'a' && |args| + 1 < MAXARGS && r.RedirOk? ==>
            Words(b, s, args, list) == Words(b, r.pos, args + [Span(t.lo, t.hi)], list + r.list))
  {
    hide Token, Look, Skip, Redirs;
  }

  lemma WordsEnd(b: string, s: nat, args: seq<Span>, list: seq<Redirection>)
    requires s <= |b| && Ends(Look(b, s))
    ensures Words(b, s, args, list) == ExecOk(args, list, Skip(b, s))
  {
    hide Token, Look, Skip, Redirs;
  }

  lemma ExecSame(b: string, s: nat)
    requires s <= |b|
    ensures ParserSpec.ParseBlock(b, Skip(b, s)) == ParserSpec.ParseBlock(b, s)
  {
    TokenSame(b, s);
    hide Token, Look, Skip, Redirs, ParserSpec.ParseLine;
  }

  lemma PipeStep(b: string, s: nat)
    requires s <= |b|
    ensures
      var c := ParserSpec.ParseExec(b, s);
      c.Ok? && Look(b, c.pos) == '|' ==>
        var d := ParserSpec.ParsePipe(b, Token(b, c.pos).next);
        ParserSpec.ParsePipe(b, s) == if d.Err? then Err else Ok(Pipe(c.cmd, d.cmd), d.pos)
  {
    hide Token, Look, Skip, ParserSpec.ParseExec;
  }

  lemma BacksSame(b: string, c: Cmd<Span>, s: nat)
    requires s <= |b|
    ensures Backs(b, c, Skip(b, s)) == Backs(b, c, s)
  {
    TokenSame(b, s);
    hide Token, Look, Skip;
  }

  lemma BacksStep(b: string, c: Cmd<Span>, s: nat)
    requires s <= |b| && Look(b, s) == '&'
    ensures Backs(b, c, s) == Backs(b, Back(c), Token(b, s).next)
  {
    hide Token, Look, Skip;
  }

  lemma BacksEnd(b: string, c: Cmd<Span>, s: nat)
    requires s <= |b| && Look(b, s) != '&'
    ensures Backs(b, c, s) == Ok(c, Skip(b, s))
  {
    hide Token, Look, Skip;
  }

  lemma LineStep(b: string, s: nat)
    requires s <= |b| && ParserSpec.ParsePipe(b, s).Ok?
    ensures
      var p := ParserSpec.ParsePipe(b, s);
      var c := Backs(b, p.cmd, p.pos);
      ParserSpec.ParseLine(b, s) ==
        if Look(b, c.pos) != ';' then c else
          var d := ParserSpec.ParseLine(b, Token(b, c.pos).next);
          if d.Err? then Err else Ok(List(c.cmd, d.cmd), d.pos)
  {
    hide Token, Look, Skip, Backs, ParserSpec.ParsePipe;
  }

  /** The line as a C string of length n at the start of a. */
  ghost predicate IsLine(a: seq<char>, n: nat)
  {
    n < |a| && a[n] == '\0' && forall x | 0 <= x < n :: a[x] != '\0'
  }

  /** parsecmd: the tree of the line, each of its words now a C string in the buffer. */
  method Parsecmd(a: array<char>, n: nat) returns (r: Option<Cmd<Span>>)
    requires IsLine(a[..], n)
    modifies a
    ensures var x := Parse(old(a[..n])); r.Some? == x.Ok? && (r.Some? ==> r.value == x.cmd)
    ensures r.Some? ==>
      forall w | ParserWords.Has(r.value, w) :: w.lo <= w.hi <= n && CString(a[..], w.lo) == old(a[w.lo..w.hi])
  {
    var b := a[..n];
    var p := new Parser(b);
    r := p.ParseLine();
    if r.None? {
      return;
    }
    var left := p.Peek({});
    if p.ps != n {
      return None;
    }
    LineWords(b, 0);
    CutsNoLetters(b, r.value);
    assert forall x | x in Cuts(r.value) :: NoLetter(b, x);
    Nulterminate(a, r.value);
    forall w | ParserWords.Has(r.value, w) ensures w.lo <= w.hi <= n && CString(a[..], w.lo) == old(a[w.lo..w.hi]) {
      WordsAreStrings(b, old(a[..]), a[..], r.value, w);
    }
  }
}
