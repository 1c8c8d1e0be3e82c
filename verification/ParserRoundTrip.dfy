/** The shell's grammar as a datatype of its own, and that the parser reads every line of it. */
module ParserRoundTrip {
  import opened ParserSpec
  import opened ParserSimple

  /** Words and redirections, or a line in parentheses with redirections behind it. */
  datatype Atom = Simple(items: seq<Item>) | Group(line: Line, redirs: seq<Item>)

  /** Commands with | between them. */
  datatype Pipeline = Last(atom: Atom) | Into(atom: Atom, rest: Pipeline)

  /** A pipeline with any number of & behind it, and perhaps ; and more. */
  datatype Line = Single(pipes: Pipeline, amps: nat) | Then(pipes: Pipeline, amps: nat, more: Line)

  // ---- the text of a line ----

  function ItemText(x: Item): string
  {
    if x.W? then x.word else (if x.out then ">" else "<") + x.file
  }

  function ItemsText(items: seq<Item>): string
  {
    if items == [] then ""
    else if |items| == 1 then ItemText(items[0])
    else ItemText(items[0]) + " " + ItemsText(items[1..])
  }

  function Amps(n: nat): string { if n == 0 then "" else "&" + Amps(n - 1) }

  function AtomText(a: Atom): string
  {
    match a
    case Simple(items) => ItemsText(items)
    case Group(line, redirs) => "(" + LineText(line) + ")" + ItemsText(redirs)
  }

  function PipeText(p: Pipeline): string
  {
    match p
    case Last(atom) => AtomText(atom)
    case Into(atom, rest) => AtomText(atom) + "|" + PipeText(rest)
  }

  function LineText(l: Line): string
  {
    match l
    case Single(pipes, amps) => PipeText(pipes) + Amps(amps)
    case Then(pipes, amps, more) => PipeText(pipes) + Amps(amps) + ";" + LineText(more)
  }

  // ---- the command it means ----

  function Backed(t: Cmd<string>, n: nat): Cmd<string> { if n == 0 then t else Back(Backed(t, n - 1)) }

  function AtomTree(a: Atom): Cmd<string>
    requires AtomClean(a)
  {
    match a
    case Simple(items) => Redirected(Exec(WordsOf(items)), RedirsOf(items))
    case Group(line, redirs) => Redirected(LineTree(line), redirs)
  }

  /** | and ; group to the right. */
  function PipeTree(p: Pipeline): Cmd<string>
    requires PipeClean(p)
  {
    match p
    case Last(atom) => AtomTree(atom)
    case Into(atom, rest) => Pipe(AtomTree(atom), PipeTree(rest))
  }

  function LineTree(l: Line): Cmd<string>
    requires LineClean(l)
  {
    match l
    case Single(pipes, amps) => Backed(PipeTree(pipes), amps)
    case Then(pipes, amps, more) => List(Backed(PipeTree(pipes), amps), LineTree(more))
  }

  // ---- words are words ----

  predicate CleanWord(w: string)
  {
    |w| > 0 && forall x | 0 <= x < |w| :: Letter(w[x])
  }

  predicate CleanItem(x: Item) { CleanWord(if x.W? then x.word else x.file) }

  predicate AtomClean(a: Atom)
  {
    match a
    case Simple(items) => forall k | 0 <= k < |items| :: CleanItem(items[k])
    case Group(line, redirs) => LineClean(line) && forall k | 0 <= k < |redirs| :: redirs[k].R? && CleanItem(redirs[k])
  }

  predicate PipeClean(p: Pipeline)
  {
    match p
    case Last(atom) => AtomClean(atom)
    case Into(atom, rest) => AtomClean(atom) && PipeClean(rest)
  }

  predicate LineClean(l: Line)
  {
    PipeClean(l.pipes) && (l.Then? ==> LineClean(l.more))
  }

  // ---- text in a line ----

  ghost predicate Reads(b: string, s: nat, x: string)
  {
    s + |x| <= |b| && b[s..s + |x|] == x
  }

  /** What is read as x and then y, is read part by part. */
  lemma ReadsTwo(b: string, s: nat, x: string, y: string)
    requires Reads(b, s, x + y)
    ensures Reads(b, s, x) && Reads(b, s + |x|, y)
  {
    var t := b[s..s + |x + y|];
    assert t[..|x|] == b[s..s + |x|] && t[|x|..] == b[s + |x|..s + |x + y|];
    assert (x + y)[..|x|] == x && (x + y)[|x|..] == y;
  }

  lemma ReadsChar(b: string, s: nat, c: char)
    requires Reads(b, s, [c])
    ensures s < |b| && b[s] == c
  {
    assert b[s..s + 1][0] == b[s];
  }

  /** The text does not begin with white space. */
  ghost predicate Tight(x: string) { x == "" || !White(x[0]) }

  lemma TightAt(b: string, s: nat, x: string)
    requires Reads(b, s, x) && Tight(x) && Stop(b, s + |x|)
    ensures s <= |b| && (s < |b| ==> !White(b[s]))
  {
    if x != "" { assert b[s..s + |x|][0] == b[s]; }
  }

  lemma ItemsTight(items: seq<Item>)
    requires forall k | 0 <= k < |items| :: CleanItem(items[k])
    ensures Tight(ItemsText(items))
  {
  }

  lemma AtomTight(a: Atom)
    requires AtomClean(a)
    ensures Tight(AtomText(a))
  {
    if a.Simple? { ItemsTight(a.items); }
  }

  lemma PipeTight(p: Pipeline)
    requires PipeClean(p)
    ensures Tight(PipeText(p))
  {
    AtomTight(p.atom);
  }

  lemma LineTight(l: Line)
    requires LineClean(l)
    ensures Tight(LineText(l))
  {
    PipeTight(l.pipes);
  }

  // ---- simple commands ----

  lemma ReadsWord(b: string, s: nat, w: string)
    requires Reads(b, s, w) && CleanWord(w)
    ensures WordAt(b, s, w)
  {
    forall y | s <= y < s + |w| ensures Letter(b[y]) {
      assert b[s..s + |w|][y - s] == w[y - s];
    }
  }

  lemma ReadsItem(b: string, s: nat, x: Item)
    requires Reads(b, s, ItemText(x)) && CleanItem(x)
    ensures ItemAt(b, s, x) && |ItemText(x)| == Len(x)
  {
    if x.W? {
      ReadsWord(b, s, x.word);
    } else {
      var c := if x.out then ">" else "<";
      ReadsTwo(b, s, c, x.file);
      ReadsChar(b, s, c[0]);
      ReadsWord(b, s + 1, x.file);
    }
  }

  lemma {:induction false} ReadsItems(b: string, s: nat, items: seq<Item>)
    requires Reads(b, s, ItemsText(items)) && forall k | 0 <= k < |items| :: CleanItem(items[k])
    ensures ItemsAt(b, s, s + |ItemsText(items)|, items)
    decreases |items|
  {
    hide Reads, CleanItem, ItemAt, ItemText;
    if |items| == 1 {
      ReadsItem(b, s, items[0]);
    } else if |items| > 1 {
      var x, rest := ItemText(items[0]), ItemsText(items[1..]);
      assert x + " " + rest == x + (" " + rest);
      ReadsTwo(b, s, x, " " + rest);
      ReadsTwo(b, s + |x|, " ", rest);
      ReadsChar(b, s + |x|, ' ');
      ReadsItem(b, s, items[0]);
      ReadsItems(b, s + |x| + 1, items[1..]);
    } else {
      ReadsWithin(b, s, "");
    }
  }

  lemma ReadsWithin(b: string, s: nat, x: string)
    requires Reads(b, s, x)
    ensures s + |x| <= |b|
  {
  }

  // ---- the parser, level by level ----

  lemma SymbolToken(b: string, m: nat)
    requires m < |b| && Symbol(b[m]) && b[m] != '>' && (m + 1 < |b| ==> !White(b[m + 1]))
    ensures Look(b, m) == b[m] && Token(b, m) == Tok(b[m], m, m + 1, m + 1)
  {
    assert Skip(b, m) == m && Skip(b, m + 1) == m + 1;
  }

  /** Where a pipeline ends, ... */
  ghost predicate PipeStop(b: string, e: nat)
  {
    e == |b| || (e < |b| && (b[e] == '&' || b[e] == ';' || b[e] == ')'))
  }

  /** ... and where a line does. */
  ghost predicate LineStop(b: string, e: nat)
  {
    e == |b| || (e < |b| && b[e] == ')')
  }

  lemma StopLooks(b: string, e: nat)
    requires Stop(b, e)
    ensures e <= |b| && Skip(b, e) == e && Look(b, e) == if e < |b| then b[e] else '\0'
  {
  }

  lemma {:induction false} AllLead(xs: seq<Item>)
    requires forall k | 0 <= k < |xs| :: xs[k].R?
    ensures Leads(xs) == xs && Rest(xs) == []
  {
    if xs != [] { AllLead(xs[1..]); }
  }

  lemma GroupUnfold(b: string, s: nat, m: nat)
    requires s + 2 <= m <= |b| && b[s] == '(' && b[m - 1] == ')' && !White(b[s + 1]) && (m < |b| ==> !White(b[m]))
    ensures
      var c := ParseLine(b, s + 1);
      && (c.Err? ==> ParseExec(b, s) == Err)
      && (c.Ok? && c.pos == m - 1 ==>
            var d := Redirs(b, m);
            ParseExec(b, s) == if d.RedirErr? then Err else Ok(Wrap(c.cmd, d.list), d.pos))
  {
    hide ParseLine, Redirs, Words, Wrap;
    SymbolToken(b, s);
    SymbolToken(b, m - 1);
  }

  /** The parts of a group in the text. */
  lemma ReadsGroup(b: string, s: nat, x: string, redirs: seq<Item>)
    requires Reads(b, s, "(" + x + ")" + ItemsText(redirs)) && Tight(x)
    requires forall k | 0 <= k < |redirs| :: CleanItem(redirs[k])
    requires Stop(b, s + |"(" + x + ")" + ItemsText(redirs)|)
    ensures
      var m := s + |x| + 2;
      && m <= |b| && b[s] == '(' && Reads(b, s + 1, x) && b[m - 1] == ')' && Reads(b, m, ItemsText(redirs))
      && !White(b[s + 1]) && (m < |b| ==> !White(b[m]))
  {
    hide Reads, ItemsText, Tight, CleanItem;
    var y := ItemsText(redirs);
    assert "(" + x + ")" + y == "(" + (x + (")" + y));
    ReadsTwo(b, s, "(", x + (")" + y));
    ReadsTwo(b, s + 1, x, ")" + y);
    ReadsTwo(b, s + 1 + |x|, ")", y);
    ReadsChar(b, s, '(');
    ReadsChar(b, s + 1 + |x|, ')');
    TightAt(b, s + 1, x);
    ItemsTight(redirs);
    TightAt(b, s + |x| + 2, y);
  }

  lemma AtomReads(b: string, s: nat, a: Atom)
    requires AtomClean(a) && Reads(b, s, AtomText(a)) && Stop(b, s + |AtomText(a)|)
    ensures s <= |b| && Answer(b, ParseExec(b, s), s + |AtomText(a)|, AtomTree(a))
    decreases a
  {
    hide ParseExec, ParseLine, Redirs, Redirected, RedirsSay, ItemsAt, Tight, Wrap, Answer, ItemsText;
    var e := s + |AtomText(a)|;
    match a
    case Simple(items) =>
      ReadsItems(b, s, items);
      SimpleReads(b, s, e, items);
    case Group(line, redirs) =>
      var x := LineText(line);
      LineTight(line);
      ReadsGroup(b, s, x, redirs);
      LineReads(b, s + 1, line);
      GroupAnswer(b, s, s + |x| + 2, e, LineTree(line), redirs);
  }

  /** The command inside, and its redirections. */
  lemma GroupAnswer(b: string, s: nat, m: nat, e: nat, t: Cmd<string>, redirs: seq<Item>)
    requires s + 2 <= m <= |b| && b[s] == '(' && b[m - 1] == ')' && !White(b[s + 1]) && (m < |b| ==> !White(b[m]))
    requires Answer(b, ParseLine(b, s + 1), m - 1, t) && Reads(b, m, ItemsText(redirs)) && e == m + |ItemsText(redirs)|
    requires Stop(b, e) && forall k | 0 <= k < |redirs| :: redirs[k].R? && CleanItem(redirs[k])
    ensures Answer(b, ParseExec(b, s), e, Redirected(t, redirs))
  {
    hide ParseExec, ParseLine, Redirs, Redirected, RedirsSay, Wrap, ItemsText, CleanItem;
    GroupUnfold(b, s, m);
    ReadsItems(b, m, redirs);
    var d := Redirs(b, m);
    RedirsRead(b, m, e, redirs, d);
    AllLead(redirs);
    RedirectedFits(t, redirs);
    if Fits(t) { WrapSays(b, ParseLine(b, s + 1).cmd, d.list, t, redirs); }
  }

  lemma PipeUnfold(b: string, s: nat, m: nat)
    requires s <= m <= |b| && Stop(b, m)
    ensures
      var c := ParseExec(b, s);
      && (c.Err? ==> ParsePipe(b, s) == Err)
      && (c.Ok? && c.pos == m && PipeStop(b, m) ==> ParsePipe(b, s) == c)
      && (c.Ok? && c.pos == m && m < |b| && b[m] == '|' && (m + 1 < |b| ==> !White(b[m + 1])) ==>
            var d := ParsePipe(b, m + 1);
            ParsePipe(b, s) == if d.Err? then Err else Ok(Pipe(c.cmd, d.cmd), d.pos))
  {
    hide ParseExec;
    StopLooks(b, m);
    if m < |b| && b[m] == '|' && (m + 1 < |b| ==> !White(b[m + 1])) { SymbolToken(b, m); }
  }

  lemma ReadsInto(b: string, s: nat, a: Atom, rest: Pipeline)
    requires PipeClean(rest) && Reads(b, s, PipeText(Into(a, rest))) && Stop(b, s + |PipeText(Into(a, rest))|)
    ensures
      var m := s + |AtomText(a)|;
      && Reads(b, s, AtomText(a)) && m < |b| && b[m] == '|' && Reads(b, m + 1, PipeText(rest))
      && (m + 1 < |b| ==> !White(b[m + 1])) && m + 1 + |PipeText(rest)| == s + |PipeText(Into(a, rest))|
  {
    hide Reads, AtomText, Tight;
    var x, y := AtomText(a), PipeText(rest);
    assert x + "|" + y == x + ("|" + y);
    ReadsTwo(b, s, x, "|" + y);
    ReadsTwo(b, s + |x|, "|", y);
    ReadsChar(b, s + |x|, '|');
    PipeTight(rest);
    TightAt(b, s + |x| + 1, y);
  }

  lemma PipeReads(b: string, s: nat, p: Pipeline)
    requires PipeClean(p) && Reads(b, s, PipeText(p)) && PipeStop(b, s + |PipeText(p)|)
    ensures s <= |b| && Answer(b, ParsePipe(b, s), s + |PipeText(p)|, PipeTree(p))
    decreases p
  {
    hide ParseExec, ParsePipe, AtomText, AtomTree, Reads;
    match p
    case Last(atom) =>
      AtomReads(b, s, atom);
      PipeUnfold(b, s, s + |AtomText(atom)|);
    case Into(atom, rest) =>
      var m := s + |AtomText(atom)|;
      ReadsInto(b, s, atom, rest);
      AtomReads(b, s, atom);
      PipeReads(b, m + 1, rest);
      PipeUnfold(b, s, m);
  }

  function BackedSpans(c: Cmd<Span>, n: nat): Cmd<Span>
    decreases n
  {
    if n == 0 then c else BackedSpans(Back(c), n - 1)
  }

  lemma {:induction false} AmpsRead(b: string, c: Cmd<Span>, m: nat, n: nat)
    requires Reads(b, m, Amps(n)) && PipeStop(b, m + |Amps(n)|) && (m + |Amps(n)| < |b| ==> b[m + |Amps(n)|] != '&')
    ensures m <= |b| && Backs(b, c, m) == Ok(BackedSpans(c, n), m + |Amps(n)|)
    decreases n
  {
    if n == 0 {
      StopLooks(b, m);
    } else {
      ReadsTwo(b, m, "&", Amps(n - 1));
      ReadsChar(b, m, '&');
      if n > 1 { ReadsTwo(b, m + 1, "&", Amps(n - 2)); ReadsChar(b, m + 1, '&'); }
      SymbolToken(b, m);
      AmpsRead(b, Back(c), m + 1, n - 1);
    }
  }

  lemma {:induction false} BackedSays(b: string, c: Cmd<Span>, t: Cmd<string>, n: nat)
    requires Says(b, c, t)
    ensures Says(b, BackedSpans(c, n), Backed(t, n))
    decreases n
  {
    if n > 0 {
      BackedSays(b, Back(c), Back(t), n - 1);
      BackedFirst(t, n);
    }
  }

  lemma {:induction false} BackedFirst(t: Cmd<string>, n: nat)
    requires n > 0
    ensures Backed(Back(t), n - 1) == Backed(t, n)
  {
    if n > 1 { BackedFirst(t, n - 1); }
  }

  lemma {:induction false} BackedFits(t: Cmd<string>, n: nat)
    ensures Fits(Backed(t, n)) == Fits(t)
  {
    if n > 0 { BackedFits(t, n - 1); }
  }

  lemma LineUnfold(b: string, s: nat, m: nat, n: nat)
    requires s <= m <= |b| && Reads(b, m, Amps(n)) && PipeStop(b, m + |Amps(n)|)
    requires m + |Amps(n)| < |b| ==> b[m + |Amps(n)|] != '&'
    ensures
      var p, e := ParsePipe(b, s), m + |Amps(n)|;
      && (p.Err? ==> ParseLine(b, s) == Err)
      && (p.Ok? && p.pos == m && LineStop(b, e) ==> ParseLine(b, s) == Ok(BackedSpans(p.cmd, n), e))
      && (p.Ok? && p.pos == m && e < |b| && b[e] == ';' && (e + 1 < |b| ==> !White(b[e + 1])) ==>
            var d := ParseLine(b, e + 1);
            ParseLine(b, s) == if d.Err? then Err else Ok(List(BackedSpans(p.cmd, n), d.cmd), d.pos))
  {
    hide ParsePipe, Backs, BackedSpans, Amps;
    var p, e := ParsePipe(b, s), m + |Amps(n)|;
    if p.Ok? && p.pos == m { AmpsRead(b, p.cmd, m, n); }
    StopLooks(b, e);
    if e < |b| && b[e] == ';' && (e + 1 < |b| ==> !White(b[e + 1])) { SymbolToken(b, e); }
  }

  lemma {:induction false} AmpsFirst(n: nat)
    ensures n > 0 ==> Amps(n) != "" && Amps(n)[0] == '&'
  {
  }

  /** After the pipeline comes its first &, or what ends the line or this part of it. */
  lemma ReadsPart(b: string, s: nat, p: Pipeline, n: nat)
    requires Reads(b, s, PipeText(p) + Amps(n)) && PipeStop(b, s + |PipeText(p) + Amps(n)|)
    ensures Reads(b, s, PipeText(p)) && Reads(b, s + |PipeText(p)|, Amps(n)) && PipeStop(b, s + |PipeText(p)|)
  {
    hide PipeText;
    var m := s + |PipeText(p)|;
    ReadsTwo(b, s, PipeText(p), Amps(n));
    AmpsFirst(n);
    if n > 0 { assert b[m..m + |Amps(n)|][0] == b[m]; }
  }

  /** The parser reads every line of the grammar, wherever it stands. */
  lemma LineReads(b: string, s: nat, l: Line)
    requires LineClean(l) && Reads(b, s, LineText(l)) && LineStop(b, s + |LineText(l)|)
    ensures s <= |b| && Answer(b, ParseLine(b, s), s + |LineText(l)|, LineTree(l))
    decreases l
  {
    hide ParsePipe, ParseLine, PipeText, PipeTree, Amps, BackedSpans, Backed, Reads;
    match l
    case Single(pipes, n) =>
      var m := s + |PipeText(pipes)|;
      ReadsPart(b, s, pipes, n);
      PipeReads(b, s, pipes);
      LineUnfold(b, s, m, n);
      PartAnswer(b, ParsePipe(b, s), m, PipeTree(pipes), n);
    case Then(pipes, n, more) =>
      var m := s + |PipeText(pipes)|;
      var e := m + |Amps(n)|;
      ReadsThen(b, s, pipes, n, more);
      PipeReads(b, s, pipes);
      LineReads(b, e + 1, more);
      LineUnfold(b, s, m, n);
      PartAnswer(b, ParsePipe(b, s), m, PipeTree(pipes), n);
  }

  lemma ThenText(p: Pipeline, n: nat, more: Line)
    ensures LineText(Then(p, n, more)) == PipeText(p) + Amps(n) + (";" + LineText(more))
  {
    hide PipeText, Amps;
    var x, z := PipeText(p) + Amps(n), LineText(more);
    assert x + ";" + z == x + (";" + z);
  }

  lemma ReadsThen(b: string, s: nat, p: Pipeline, n: nat, more: Line)
    requires LineClean(more) && Reads(b, s, LineText(Then(p, n, more))) && LineStop(b, s + |LineText(Then(p, n, more))|)
    ensures
      var e := s + |PipeText(p)| + |Amps(n)|;
      && Reads(b, s, PipeText(p)) && Reads(b, s + |PipeText(p)|, Amps(n)) && PipeStop(b, s + |PipeText(p)|)
      && e < |b| && b[e] == ';' && Reads(b, e + 1, LineText(more)) && (e + 1 < |b| ==> !White(b[e + 1]))
      && e + 1 + |LineText(more)| == s + |LineText(Then(p, n, more))|
  {
    hide Reads, PipeText, LineText, Amps, Tight;
    var x, z := PipeText(p) + Amps(n), LineText(more);
    ThenText(p, n, more);
    ReadsTwo(b, s, x, ";" + z);
    ReadsTwo(b, s + |x|, ";", z);
    ReadsChar(b, s + |x|, ';');
    ReadsPart(b, s, p, n);
    LineTight(more);
    TightAt(b, s + |x| + 1, z);
  }

  lemma PartAnswer(b: string, r: Result, m: nat, t: Cmd<string>, n: nat)
    requires Answer(b, r, m, t)
    ensures Fits(Backed(t, n)) == Fits(t)
    ensures Fits(t) ==> r.Ok? && r.pos == m && Says(b, BackedSpans(r.cmd, n), Backed(t, n))
    ensures !Fits(t) ==> r == Err
  {
    BackedFits(t, n);
    if Fits(t) { BackedSays(b, r.cmd, t, n); }
  }

  /** The line as a whole: the parser returns its command, or gives up exactly if a command in it
      has MAXARGS words or more. */
  lemma EveryLine(l: Line)
    requires LineClean(l)
    ensures Parse(LineText(l)).Ok? <==> Fits(LineTree(l))
    ensures Fits(LineTree(l)) ==> Says(LineText(l), Parse(LineText(l)).cmd, LineTree(l))
  {
    hide ParseLine, LineText, LineTree;
    var b := LineText(l);
    assert b[0..0 + |b|] == b;
    LineReads(b, 0, l);
  }

  // ---- every command has a line ----

  ghost predicate Clean(t: Cmd<string>)
  {
    match t
    case Exec(args) => forall i | 0 <= i < |args| :: CleanWord(args[i])
    case Redir(c, file, out) => Clean(c) && CleanWord(file)
    case Pipe(l, r) => Clean(l) && Clean(r)
    case List(l, r) => Clean(l) && Clean(r)
    case Back(c) => Clean(c)
  }

  /** Fully parenthesised. */
  function Grouped(t: Cmd<string>): (l: Line)
  {
    match t
    case Exec(args) => Single(Last(Simple(Plain(args))), 0)
    case Redir(c, file, out) => Single(Last(Group(Grouped(c), [R(file, out)])), 0)
    case Pipe(l, r) => Single(Into(Group(Grouped(l), []), Last(Group(Grouped(r), []))), 0)
    case List(l, r) => Then(Last(Group(Grouped(l), [])), 0, Single(Last(Group(Grouped(r), [])), 0))
    case Back(c) => Single(Last(Group(Grouped(c), [])), 1)
  }

  lemma {:induction false} GroupedMeans(t: Cmd<string>)
    requires Clean(t)
    ensures LineClean(Grouped(t)) && LineTree(Grouped(t)) == t
    decreases t, 0
  {
    match t
    case Exec(args) =>
      PlainWords(args);
      var a := Simple(Plain(args));
      assert AtomClean(a) && AtomTree(a) == t;
      assert PipeTree(Last(a)) == t;
    case Redir(c, file, out) =>
      GroupedMeans(c);
      RedirectedOne(c, R(file, out));
      var a := Group(Grouped(c), [R(file, out)]);
      assert AtomClean(a) && AtomTree(a) == t;
      assert PipeTree(Last(a)) == t;
    case Pipe(l, r) =>
      GroupMeans(l);
      GroupMeans(r);
      assert PipeTree(Last(Group(Grouped(r), []))) == r;
    case List(l, r) =>
      GroupMeans(l);
      GroupMeans(r);
      assert LineTree(Single(Last(Group(Grouped(r), [])), 0)) == r;
    case Back(c) =>
      GroupMeans(c);
      assert Backed(PipeTree(Last(Group(Grouped(c), []))), 0) == c;
  }

  lemma RedirectedOne(t: Cmd<string>, x: Item)
    requires x.R?
    ensures Redirected(t, [x]) == Redir(t, x.file, x.out)
  {
    assert [x][..0] == [];
  }

  lemma GroupMeans(t: Cmd<string>)
    requires Clean(t)
    ensures AtomClean(Group(Grouped(t), [])) && AtomTree(Group(Grouped(t), [])) == t
    decreases t, 1
  {
    GroupedMeans(t);
  }

  /** Every command with clean words is read back from its parenthesised spelling, if none of its
      parts has MAXARGS words or more; otherwise the parser gives up. */
  lemma RoundTrip(t: Cmd<string>)
    requires Clean(t)
    ensures
      var b := LineText(Grouped(t));
      (Parse(b).Ok? <==> Fits(t)) && (Fits(t) ==> Says(b, Parse(b).cmd, t))
  {
    GroupedMeans(t);
    EveryLine(Grouped(t));
  }
}
