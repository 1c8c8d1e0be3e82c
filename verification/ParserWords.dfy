/** Words of a parsed line become C strings in place. */
module ParserWords {
  import opened ParserSpec

  ghost predicate AllWords(b: string, c: Cmd<Span>)
  {
    match c
    case Exec(args) => forall i | 0 <= i < |args| :: IsWord(b, args[i])
    case Redir(c, file, out) => AllWords(b, c) && IsWord(b, file)
    case Pipe(l, r) => AllWords(b, l) && AllWords(b, r)
    case List(l, r) => AllWords(b, l) && AllWords(b, r)
    case Back(c) => AllWords(b, c)
  }

  ghost predicate AllFiles(b: string, list: seq<Redirection>)
  {
    forall i | 0 <= i < |list| :: IsWord(b, list[i].file)
  }

  lemma {:induction false} WrapWords(b: string, c: Cmd<Span>, list: seq<Redirection>)
    requires AllWords(b, c) && AllFiles(b, list)
    ensures AllWords(b, Wrap(c, list))
    decreases |list|
  {
    if list != [] {
      assert IsWord(b, list[0].file);
      WrapWords(b, Redir(c, list[0].file, list[0].out), list[1..]);
    }
  }

  lemma {:induction false} RedirsWords(b: string, s: nat)
    requires s <= |b|
    ensures Redirs(b, s).RedirOk? ==> AllFiles(b, Redirs(b, s).list)
    decreases |b| - s
  {
    hide Token, Look, IsWord;
    if Look(b, s) == '<' || Look(b, s) == '>' {
      var t := Token(b, s);
      var f := Token(b, t.next);
      if t.kind != '\0' && f.kind == 'a' { RedirsWords(b, f.next); }
    }
  }

  lemma {:induction false} WordsWords(b: string, s: nat, args: seq<Span>, list: seq<Redirection>)
    requires s <= |b| && AllWords(b, Exec(args)) && AllFiles(b, list)
    ensures
      var r := Words(b, s, args, list);
      r.ExecOk? ==> AllWords(b, Exec(r.args)) && AllFiles(b, r.list)
    decreases |b| - s
  {
    var t := Token(b, s);
    if !Ends(Look(b, s)) && t.kind == 'a' && |args| + 1 < MAXARGS {
      RedirsWords(b, t.next);
      var r := Redirs(b, t.next);
      if r.RedirOk? { WordsWords(b, r.pos, args + [Span(t.lo, t.hi)], list + r.list); }
    }
  }

  lemma ExecWords(b: string, s: nat)
    requires s <= |b|
    ensures ParseExec(b, s).Ok? ==> AllWords(b, ParseExec(b, s).cmd)
    decreases |b| - s, 1
  {
    if Look(b, s) == '(' {
      BlockWords(b, s);
    } else {
      var d := Redirs(b, s);
      RedirsWords(b, s);
      if d.RedirOk? {
        WordsWords(b, d.pos, [], d.list);
        var x := Words(b, d.pos, [], d.list);
        if x.ExecOk? { WrapWords(b, Exec(x.args), x.list); }
      }
    }
  }

  lemma BlockWords(b: string, s: nat)
    requires s <= |b|
    ensures ParseBlock(b, s).Ok? ==> AllWords(b, ParseBlock(b, s).cmd)
    decreases |b| - s, 0
  {
    if ParseBlock(b, s).Ok? {
      LineWords(b, Token(b, s).next);
      var c := ParseLine(b, Token(b, s).next);
      RedirsWords(b, Token(b, c.pos).next);
      WrapWords(b, c.cmd, Redirs(b, Token(b, c.pos).next).list);
    }
  }

  lemma PipeWords(b: string, s: nat)
    requires s <= |b|
    ensures ParsePipe(b, s).Ok? ==> AllWords(b, ParsePipe(b, s).cmd)
    decreases |b| - s, 2
  {
    ExecWords(b, s);
    var c := ParseExec(b, s);
    if c.Ok? && Look(b, c.pos) == '|' { PipeWords(b, Token(b, c.pos).next); }
  }

  lemma {:induction false} BacksWords(b: string, c: Cmd<Span>, s: nat)
    requires s <= |b| && AllWords(b, c)
    ensures AllWords(b, Backs(b, c, s).cmd)
    decreases |b| - s
  {
    if Look(b, s) == '&' { BacksWords(b, Back(c), Token(b, s).next); }
  }

  /** Every span in a parsed command is a whole word of the line. */
  lemma LineWords(b: string, s: nat)
    requires s <= |b|
    ensures ParseLine(b, s).Ok? ==> AllWords(b, ParseLine(b, s).cmd)
    decreases |b| - s, 3
  {
    PipeWords(b, s);
    var p := ParsePipe(b, s);
    if p.Ok? {
      BacksWords(b, p.cmd, p.pos);
      var c := Backs(b, p.cmd, p.pos);
      if Look(b, c.pos) == ';' { LineWords(b, Token(b, c.pos).next); }
    }
  }

  // ---- nulterminate ----

  /** Where nulterminate writes. */
  ghost function Cuts(c: Cmd<Span>): set<nat>
  {
    match c
    case Exec(args) => set i | 0 <= i < |args| :: args[i].hi
    case Redir(c, file, out) => Cuts(c) + {file.hi}
    case Pipe(l, r) => Cuts(l) + Cuts(r)
    case List(l, r) => Cuts(l) + Cuts(r)
    case Back(c) => Cuts(c)
  }

  /** The words of a command. */
  ghost predicate Has(c: Cmd<Span>, w: Span)
  {
    match c
    case Exec(args) => w in args
    case Redir(c, file, out) => w == file || Has(c, w)
    case Pipe(l, r) => Has(l, w) || Has(r, w)
    case List(l, r) => Has(l, w) || Has(r, w)
    case Back(c) => Has(c, w)
  }

  ghost predicate Cut(was: seq<char>, now: seq<char>, cuts: set<nat>)
  {
    |now| == |was| && forall x: nat | x < |was| :: now[x] == if x in cuts then '\0' else was[x]
  }

  /** The C string at i. */
  function CString(s: seq<char>, i: nat): string
    decreases |s| - i
  {
    if i < |s| && s[i] != '\0' then [s[i]] + CString(s, i + 1) else []
  }

  lemma {:induction false} CStringIs(s: seq<char>, lo: nat, hi: nat)
    requires lo <= hi < |s| && s[hi] == '\0' && forall x | lo <= x < hi :: s[x] != '\0'
    ensures CString(s, lo) == s[lo..hi]
    decreases hi - lo
  {
    if lo < hi {
      CStringIs(s, lo + 1, hi);
      assert s[lo..hi] == [s[lo]] + s[lo + 1..hi];
    }
  }

  /** A cut is behind a word: on no letter of the line. */
  ghost predicate NoLetter(b: string, x: nat)
  {
    x <= |b| && (x < |b| ==> !Letter(b[x]))
  }

  lemma CutsNoLetters(b: string, c: Cmd<Span>)
    requires AllWords(b, c)
    ensures forall x | x in Cuts(c) :: NoLetter(b, x)
  {
    match c
    case Exec(args) =>
    case Redir(d, file, out) => CutsNoLetters(b, d);
    case Pipe(l, r) => CutsNoLetters(b, l); CutsNoLetters(b, r);
    case List(l, r) => CutsNoLetters(b, l); CutsNoLetters(b, r);
    case Back(d) => CutsNoLetters(b, d);
  }

  lemma HasWord(b: string, c: Cmd<Span>, w: Span)
    requires AllWords(b, c) && Has(c, w)
    ensures IsWord(b, w) && w.hi in Cuts(c)
  {
    match c
    case Exec(args) =>
      var i :| 0 <= i < |args| && args[i] == w;
      assert args[i].hi in Cuts(c);
    case Redir(d, file, out) => if w != file { HasWord(b, d, w); }
    case Pipe(l, r) => if Has(l, w) { HasWord(b, l, w); } else { HasWord(b, r, w); }
    case List(l, r) => if Has(l, w) { HasWord(b, l, w); } else { HasWord(b, r, w); }
    case Back(d) => HasWord(b, d, w);
  }

  /** After the cuts, each word of the command is a C string and the same word. */
  lemma WordsAreStrings(b: string, was: seq<char>, now: seq<char>, c: Cmd<Span>, w: Span)
    requires AllWords(b, c) && Has(c, w) && |was| > |b| && was[..|b|] == b && '\0' !in b && Cut(was, now, Cuts(c))
    ensures w.lo <= w.hi <= |b| && CString(now, w.lo) == b[w.lo..w.hi]
  {
    HasWord(b, c, w);
    CutsNoLetters(b, c);
    forall x | w.lo <= x < w.hi ensures now[x] == b[x] && now[x] != '\0' {
      assert Letter(b[x]) && !NoLetter(b, x);
      assert was[..|b|][x] == was[x];
    }
    CStringIs(now, w.lo, w.hi);
    assert now[w.lo..w.hi] == b[w.lo..w.hi];
  }

  method NulExec(a: array<char>, args: seq<Span>)
    requires forall i | 0 <= i < |args| :: args[i].hi < a.Length
    modifies a
    ensures Cut(old(a[..]), a[..], Cuts(Exec(args)))
  {
    var i := 0;
    while i < |args|
      invariant 0 <= i <= |args|
      invariant Cut(old(a[..]), a[..], Cuts(Exec(args[..i])))
    {
      assert Cuts(Exec(args[..i + 1])) == Cuts(Exec(args[..i])) + {args[i].hi};
      a[args[i].hi] := '\0';
      i := i + 1;
    }
    assert args[..i] == args;
  }

  method Nulterminate(a: array<char>, c: Cmd<Span>)
    requires forall x | x in Cuts(c) :: x < a.Length
    modifies a
    ensures Cut(old(a[..]), a[..], Cuts(c))
    decreases c
  {
    match c
    case Exec(args) =>
      assert forall i | 0 <= i < |args| :: args[i].hi in Cuts(c);
      NulExec(a, args);
    case Redir(d, file, out) =>
      assert Cuts(c) == Cuts(d) + {file.hi};
      assert file.hi in Cuts(c);
      Nulterminate(a, d);
      a[file.hi] := '\0';
    case Pipe(l, r) =>
      assert Cuts(c) == Cuts(l) + Cuts(r);
      Nulterminate(a, l);
      Nulterminate(a, r);
    case List(l, r) =>
      assert Cuts(c) == Cuts(l) + Cuts(r);
      Nulterminate(a, l);
      Nulterminate(a, r);
    case Back(d) =>
      assert Cuts(c) == Cuts(d);
      Nulterminate(a, d);
  }
}
