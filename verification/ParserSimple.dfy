/** Simple commands: words and redirections in any order, and which is which afterwards. */
module ParserSimple {
  import opened ParserSpec

  ghost predicate SpanSays(b: string, w: Span, word: string)
  {
    w.lo <= w.hi <= |b| && b[w.lo..w.hi] == word
  }

  /** The tree of spans spells the tree of strings. */
  ghost predicate Says(b: string, c: Cmd<Span>, t: Cmd<string>)
    decreases t
  {
    match t
    case Exec(args) => c.Exec? && |c.args| == |args| && forall i | 0 <= i < |args| :: SpanSays(b, c.args[i], args[i])
    case Redir(c', file, out) => c.Redir? && Says(b, c.cmd, c') && SpanSays(b, c.file, file) && c.out == out
    case Pipe(l, r) => c.Pipe? && Says(b, c.left, l) && Says(b, c.right, r)
    case List(l, r) => c.List? && Says(b, c.left, l) && Says(b, c.right, r)
    case Back(c') => c.Back? && Says(b, c.cmd, c')
  }

  /** No command has MAXARGS words or more. */
  ghost predicate Fits(t: Cmd<string>)
  {
    match t
    case Exec(args) => |args| < MAXARGS
    case Redir(c, file, out) => Fits(c)
    case Pipe(l, r) => Fits(l) && Fits(r)
    case List(l, r) => Fits(l) && Fits(r)
    case Back(c) => Fits(c)
  }

  /** The parser's answer for t ending at e: the tree, or failure if a command is too long. */
  ghost predicate Answer(b: string, r: Result, e: nat, t: Cmd<string>)
  {
    if Fits(t) then r.Ok? && r.pos == e && Says(b, r.cmd, t) else r == Err
  }

  /** A command ends where the line does, or before |, &, ; or ). */
  ghost predicate Stop(b: string, e: nat)
  {
    e == |b| || (e < |b| && Ends(b[e]))
  }

  /** A word, with nothing but letters, stands at s. */
  ghost predicate WordAt(b: string, s: nat, w: string)
  {
    |w| > 0 && s + |w| <= |b| && b[s..s + |w|] == w && forall y | s <= y < s + |w| :: Letter(b[y])
  }

  lemma {:induction false} WordEndAt(b: string, x: nat, e: nat)
    requires x <= e <= |b| && (forall y | x <= y < e :: Letter(b[y])) && (e < |b| ==> !Letter(b[e]))
    ensures WordEnd(b, x) == e
    decreases e - x
  {
    if x < e { WordEndAt(b, x + 1, e); }
  }

  /** A word, or < or > with a file name. */
  datatype Item = W(word: string) | R(file: string, out: bool)

  function WordsOf(items: seq<Item>): seq<string>
  {
    if items == [] then [] else (if items[0].W? then [items[0].word] else []) + WordsOf(items[1..])
  }

  function RedirsOf(items: seq<Item>): (r: seq<Item>)
    ensures forall k | 0 <= k < |r| :: r[k].R?
  {
    if items == [] then [] else (if items[0].R? then [items[0]] else []) + RedirsOf(items[1..])
  }

  function Len(x: Item): nat
  {
    if x.W? then |x.word| else 1 + |x.file|
  }

  ghost predicate ItemAt(b: string, s: nat, x: Item)
  {
    if x.W? then WordAt(b, s, x.word)
    else s < |b| && b[s] == (if x.out then '>' else '<') && WordAt(b, s + 1, x.file)
  }

  /** Items with single spaces between them stand from s to e. */
  ghost predicate ItemsAt(b: string, s: nat, e: nat, items: seq<Item>)
    decreases |items|
  {
    if items == [] then s == e <= |b|
    else
      && ItemAt(b, s, items[0])
      && var h := s + Len(items[0]);
         if |items| == 1 then h == e else h < |b| && b[h] == ' ' && ItemsAt(b, h + 1, e, items[1..])
  }

  ghost function Behind(s: nat, items: seq<Item>): nat
    requires items != []
  {
    s + Len(items[0]) + if |items| > 1 then 1 else 0
  }

  ghost predicate RedirSays(b: string, r: Redirection, x: Item)
  {
    x.R? && SpanSays(b, r.file, x.file) && r.out == x.out
  }

  ghost predicate RedirsSay(b: string, list: seq<Redirection>, i: nat, xs: seq<Item>)
  {
    |list| == i + |xs| && forall k | 0 <= k < |xs| :: RedirSays(b, list[i + k], xs[k])
  }

  lemma ItemEnds(b: string, s: nat, e: nat, items: seq<Item>)
    requires items != [] && ItemsAt(b, s, e, items) && Stop(b, e)
    ensures
      var n := Behind(s, items);
      && s < s + Len(items[0]) <= n <= |b| && ItemsAt(b, n, e, items[1..])
      && Skip(b, s + Len(items[0])) == n && Skip(b, n) == n
      && !White(b[s]) && (s + Len(items[0]) < |b| ==> !Letter(b[s + Len(items[0])]))
      && (n < |b| ==> Letter(b[n]) || Ends(b[n]) || b[n] == '<' || b[n] == '>')
      && (items[0].W? ==> Letter(b[s]))
  {
    var h := s + Len(items[0]);
    if |items| > 1 {
      assert ItemAt(b, h + 1, items[1]);
    }
  }

  lemma RedirTokens(b: string, s: nat, h: nat)
    requires s + 1 < h <= |b| && (b[s] == '<' || b[s] == '>') && (h < |b| ==> !Letter(b[h]))
    requires forall y | s + 1 <= y < h :: Letter(b[y])
    ensures Look(b, s) == b[s] && Token(b, s) == Tok(b[s], s, s + 1, s + 1)
    ensures Token(b, s + 1) == Tok('a', s + 1, h, Skip(b, h))
  {
    WordEndAt(b, s + 1, h);
    assert Letter(b[s + 1]);
    assert Skip(b, s) == s && Skip(b, s + 1) == s + 1;
  }

  lemma RedirUnfold(b: string, s: nat, h: nat, n: nat)
    requires s + 1 < h <= n <= |b| && (b[s] == '<' || b[s] == '>') && Look(b, s) == b[s]
    requires Token(b, s) == Tok(b[s], s, s + 1, s + 1) && Token(b, s + 1) == Tok('a', s + 1, h, n)
    ensures Redirs(b, s) == (var r := Redirs(b, n);
                             if r.RedirErr? then r
                             else RedirOk([Redirection(Span(s + 1, h), b[s] == '>')] + r.list, r.pos))
  {
    hide Token, Look, Skip;
  }

  lemma FirstItem(b: string, s: nat, e: nat, items: seq<Item>)
    requires items != [] && ItemsAt(b, s, e, items)
    ensures ItemAt(b, s, items[0])
  {
  }

  /** A redirection at s: its token, its file name, and the next item. */
  lemma RedirToken(b: string, s: nat, e: nat, items: seq<Item>)
    requires items != [] && items[0].R? && ItemsAt(b, s, e, items) && Stop(b, e)
    ensures
      var h, n := s + Len(items[0]), Behind(s, items);
      && h <= n <= |b| && SpanSays(b, Span(s + 1, h), items[0].file) && s < n
      && Redirs(b, s) == (var r := Redirs(b, n);
                          if r.RedirErr? then r
                          else RedirOk([Redirection(Span(s + 1, h), items[0].out)] + r.list, r.pos))
  {
    hide ItemsAt, Stop, Redirs, Token, Look, Skip;
    ItemEnds(b, s, e, items);
    FirstItem(b, s, e, items);
    var h := s + Len(items[0]);
    RedirTokens(b, s, h);
    RedirUnfold(b, s, h, Behind(s, items));
  }

  /** Nothing to redirect at m. */
  lemma NoRedirs(b: string, m: nat)
    requires m <= |b| && (m < |b| ==> !White(b[m]) && b[m] != '<' && b[m] != '>')
    ensures Skip(b, m) == m && Redirs(b, m) == RedirOk([], m)
  {
  }

  // ---- all items ----

  function Leads(items: seq<Item>): seq<Item>
  {
    if items != [] && items[0].R? then [items[0]] + Leads(items[1..]) else []
  }

  function Rest(items: seq<Item>): (r: seq<Item>)
    ensures |r| <= |items| && (r != [] ==> r[0].W?)
  {
    if items != [] && items[0].R? then Rest(items[1..]) else items
  }

  lemma {:induction false} LeadsRest(items: seq<Item>)
    ensures RedirsOf(items) == Leads(items) + RedirsOf(Rest(items)) && WordsOf(items) == WordsOf(Rest(items))
  {
    if items != [] && items[0].R? {
      LeadsRest(items[1..]);
      assert WordsOf(items) == [] + WordsOf(items[1..]);
    } else {
      assert RedirsOf(items) == [] + RedirsOf(items);
    }
  }

  lemma RedirsSayMore(b: string, r: Redirection, list: seq<Redirection>, x: Item, xs: seq<Item>)
    requires RedirSays(b, r, x) && RedirsSay(b, list, 0, xs)
    ensures RedirsSay(b, [r] + list, 0, [x] + xs)
  {
    forall k | 0 <= k < |xs| + 1 ensures RedirSays(b, ([r] + list)[0 + k], ([x] + xs)[k]) {
      if k > 0 { assert RedirSays(b, list[0 + (k - 1)], xs[k - 1]); }
    }
  }

  /** parseredirs takes the redirections up to the next word. */
  lemma {:induction false} RedirsRead(b: string, s: nat, e: nat, items: seq<Item>, r: RedirResult)
    requires ItemsAt(b, s, e, items) && Stop(b, e) && s <= |b| && r == Redirs(b, s)
    ensures r.RedirOk? && s <= r.pos <= |b| && ItemsAt(b, r.pos, e, Rest(items))
    ensures RedirsSay(b, r.list, 0, Leads(items))
    decreases |items|
  {
    if items != [] && items[0].R? {
      RedirToken(b, s, e, items);
      ItemEnds(b, s, e, items);
      hide Redirs;
      var n := Behind(s, items);
      var d := Redirs(b, n);
      RedirsRead(b, n, e, items[1..], d);
      RedirsSayMore(b, Redirection(Span(s + 1, s + Len(items[0])), items[0].out), d.list, items[0], Leads(items[1..]));
    } else {
      if items != [] { ItemEnds(b, s, e, items); }
      NoRedirs(b, s);
    }
  }

  /** The words from the i-th argument on are these. */
  ghost predicate Said(b: string, args: seq<Span>, i: nat, ws: seq<string>)
  {
    |args| == i + |ws| && forall k | 0 <= k < |ws| :: SpanSays(b, args[i + k], ws[k])
  }

  ghost predicate Outcomes(b: string, r: ExecResult, e: nat, args: seq<Span>, list: seq<Redirection>, items: seq<Item>)
  {
    var ws := WordsOf(items);
    if ws == [] || |args| + |ws| < MAXARGS then
      && r.ExecOk? && r.pos == e && args <= r.args && list <= r.list
      && Said(b, r.args, |args|, ws) && RedirsSay(b, r.list, |list|, RedirsOf(items))
    else r == ExecErr
  }

  lemma WordToken(b: string, s: nat, e: nat, items: seq<Item>)
    requires items != [] && items[0].W? && ItemsAt(b, s, e, items) && Stop(b, e)
    ensures
      var h, n := s + Len(items[0]), Behind(s, items);
      h <= n <= |b| && Token(b, s) == Tok('a', s, h, n) && !Ends(Look(b, s)) && SpanSays(b, Span(s, h), items[0].word)
  {
    ItemEnds(b, s, e, items);
    WordEndAt(b, s, s + Len(items[0]));
    assert Skip(b, s) == s;
  }

  lemma WordsTurn(b: string, s: nat, args: seq<Span>, list: seq<Redirection>, h: nat, n: nat, d: RedirResult)
    requires s <= h <= n <= |b| && !Ends(Look(b, s)) && Token(b, s) == Tok('a', s, h, n) && d == Redirs(b, n)
    requires d.RedirOk?
    ensures Words(b, s, args, list) == if |args| + 1 >= MAXARGS then ExecErr else Words(b, d.pos, args + [Span(s, h)],
                  list + d.list)
  {
    hide Token, Look, Skip, Redirs;
  }

  lemma OutcomesMore(b: string, r: ExecResult, e: nat, args: seq<Span>, list: seq<Redirection>, items: seq<Item>,
                     span: Span, more: seq<Redirection>)
    requires items != [] && items[0].W? && |args| + 1 < MAXARGS && SpanSays(b, span, items[0].word)
    requires RedirsSay(b, more, 0, Leads(items[1..])) && Outcomes(b, r, e, args + [span], list + more, Rest(items[1..]))
    ensures Outcomes(b, r, e, args, list, items)
  {
    hide WordsOf, RedirsOf, Leads, Rest, Said, RedirsSay, SpanSays;
    var rest := items[1..];
    FirstIsWord(items);
    LeadsRest(rest);
    var ws := WordsOf(rest);
    if |args| + 1 + |ws| < MAXARGS {
      OneMoreWord(b, r.args, args, span, items[0].word, ws);
      AllRedirs(b, r.list, list, more, Leads(rest), RedirsOf(Rest(rest)));
    }
  }

  lemma FirstIsWord(items: seq<Item>)
    requires items != [] && items[0].W?
    ensures WordsOf(items) == [items[0].word] + WordsOf(items[1..]) && RedirsOf(items) == RedirsOf(items[1..])
  {
    assert RedirsOf(items) == [] + RedirsOf(items[1..]);
  }

  lemma OneMoreWord(b: string, all: seq<Span>, args: seq<Span>, span: Span, w: string, ws: seq<string>)
    requires args + [span] <= all && SpanSays(b, span, w) && Said(b, all, |args| + 1, ws)
    ensures args <= all && Said(b, all, |args|, [w] + ws)
  {
    var more := args + [span];
    assert all[|args|] == more[|args|] == span;
    forall k | 0 <= k < |ws| + 1 ensures SpanSays(b, all[|args| + k], ([w] + ws)[k]) {
      if k > 0 { assert SpanSays(b, all[|args| + 1 + (k - 1)], ws[k - 1]); }
    }
  }

  lemma AllRedirs(b: string, all: seq<Redirection>, list: seq<Redirection>, more: seq<Redirection>, xs: seq<Item>,
                  ys: seq<Item>)
    requires list + more <= all && RedirsSay(b, more, 0, xs) && RedirsSay(b, all, |list| + |more|, ys)
    ensures list <= all && RedirsSay(b, all, |list|, xs + ys)
  {
    var first := list + more;
    forall k | 0 <= k < |xs + ys| ensures RedirSays(b, all[|list| + k], (xs + ys)[k]) {
      if k < |xs| {
        assert all[|list| + k] == first[|list| + k] == more[0 + k];
        assert RedirSays(b, more[0 + k], xs[k]);
      } else {
        assert RedirSays(b, all[|list| + |more| + (k - |xs|)], ys[k - |xs|]);
      }
    }
  }

  lemma {:induction false} ItemsRead(b: string, s: nat, e: nat, items: seq<Item>, args: seq<Span>,
                                     list: seq<Redirection>, r: ExecResult)
    requires ItemsAt(b, s, e, items) && Stop(b, e) && s <= |b| && (items != [] ==> items[0].W?)
    requires r == Words(b, s, args, list)
    ensures Outcomes(b, r, e, args, list, items)
    decreases |items|
  {
    if items == [] {
      ItemsNone(b, s, args, list);
    } else {
      WordToken(b, s, e, items);
      ItemEnds(b, s, e, items);
      hide Words, Redirs, Token, Look, Skip;
      var h, n := s + Len(items[0]), Behind(s, items);
      var d := Redirs(b, n);
      RedirsRead(b, n, e, items[1..], d);
      WordsTurn(b, s, args, list, h, n, d);
      if |args| + 1 < MAXARGS {
        ItemsRead(b, d.pos, e, Rest(items[1..]), args + [Span(s, h)], list + d.list, r);
        OutcomesMore(b, r, e, args, list, items, Span(s, h), d.list);
      } else {
        assert |WordsOf(items)| >= 1;
      }
    }
  }

  lemma ItemsNone(b: string, s: nat, args: seq<Span>, list: seq<Redirection>)
    requires s <= |b| && Stop(b, s)
    ensures Words(b, s, args, list) == ExecOk(args, list, s)
  {
    assert Skip(b, s) == s;
  }

  /** A command with redirections: the last one outside, down to the first. */
  function Redirected(t: Cmd<string>, xs: seq<Item>): Cmd<string>
    requires forall k | 0 <= k < |xs| :: xs[k].R?
  {
    if xs == [] then t
    else
      var last := xs[|xs| - 1];
      Redir(Redirected(t, xs[..|xs| - 1]), last.file, last.out)
  }

  lemma {:induction false} RedirectedFirst(t: Cmd<string>, xs: seq<Item>)
    requires xs != [] && forall k | 0 <= k < |xs| :: xs[k].R?
    ensures Redirected(Redir(t, xs[0].file, xs[0].out), xs[1..]) == Redirected(t, xs)
    decreases |xs|
  {
    if |xs| > 1 {
      var init := xs[..|xs| - 1];
      RedirectedFirst(t, init);
      assert xs[1..][..|xs| - 2] == init[1..];
    }
  }

  /** What the parser builds by wrapping one after the other. */
  lemma {:induction false} WrapSays(b: string, c: Cmd<Span>, list: seq<Redirection>, t: Cmd<string>, xs: seq<Item>)
    requires Says(b, c, t) && RedirsSay(b, list, 0, xs) && forall k | 0 <= k < |xs| :: xs[k].R?
    ensures Says(b, Wrap(c, list), Redirected(t, xs))
    decreases |list|
  {
    if list != [] {
      assert RedirSays(b, list[0 + 0], xs[0]);
      assert RedirsSay(b, list[1..], 0, xs[1..]) by {
        forall k | 0 <= k < |xs[1..]| ensures RedirSays(b, list[1..][0 + k], xs[1..][k]) {
          assert RedirSays(b, list[0 + (k + 1)], xs[k + 1]);
        }
      }
      WrapSays(b, Redir(c, list[0].file, list[0].out), list[1..], Redir(t, xs[0].file, xs[0].out), xs[1..]);
      RedirectedFirst(t, xs);
    }
  }

  lemma {:induction false} RedirectedFits(t: Cmd<string>, xs: seq<Item>)
    requires forall k | 0 <= k < |xs| :: xs[k].R?
    ensures Fits(Redirected(t, xs)) == Fits(t)
  {
    if xs != [] { RedirectedFits(t, xs[..|xs| - 1]); }
  }

  /** A simple command, its redirections before, between or behind the words: the tree has
      the words in order and, from outside, the redirections from the last to the first. */
  lemma SimpleReads(b: string, s: nat, e: nat, items: seq<Item>)
    requires ItemsAt(b, s, e, items) && Stop(b, e) && s <= |b|
    ensures Answer(b, ParseExec(b, s), e, Redirected(Exec(WordsOf(items)), RedirsOf(items)))
  {
    NotBlock(b, s, e, items);
    hide Words, Redirs, Look, ParseExec, Wrap, WordsOf, RedirsOf, Leads, Rest, Redirected, RedirsSay, Stop, ItemsAt;
    var d := Redirs(b, s);
    RedirsRead(b, s, e, items, d);
    var rest := Rest(items);
    var x := Words(b, d.pos, [], d.list);
    ItemsRead(b, d.pos, e, rest, [], d.list, x);
    LeadsRest(items);
    ExecIs(b, s);
    RedirectedFits(Exec(WordsOf(items)), RedirsOf(items));
    if x.ExecOk? {
      assert [] + d.list == d.list;
      AllRedirs(b, x.list, [], d.list, Leads(items), RedirsOf(rest));
      WrapSays(b, Exec(x.args), x.list, Exec(WordsOf(items)), RedirsOf(items));
    }
  }

  lemma NotBlock(b: string, s: nat, e: nat, items: seq<Item>)
    requires ItemsAt(b, s, e, items) && Stop(b, e) && s <= |b|
    ensures Look(b, s) != '(' && s <= e <= |b|
  {
    ItemsBound(b, s, e, items);
    if items != [] { ItemEnds(b, s, e, items); }
    assert Skip(b, s) == s;
  }

  lemma {:induction false} ItemsBound(b: string, s: nat, e: nat, items: seq<Item>)
    requires ItemsAt(b, s, e, items)
    ensures s <= e <= |b|
    decreases |items|
  {
    if |items| > 1 { ItemsBound(b, s + Len(items[0]) + 1, e, items[1..]); }
  }

  lemma ExecIs(b: string, s: nat)
    requires s <= |b| && Look(b, s) != '(' && Redirs(b, s).RedirOk?
    ensures
      var d := Redirs(b, s);
      var x := Words(b, d.pos, [], d.list);
      ParseExec(b, s) == if x.ExecErr? then Err else Ok(Wrap(Exec(x.args), x.list), x.pos)
  {
    hide Look, Redirs, Words;
  }

  /** Words only. */
  function Plain(ws: seq<string>): (r: seq<Item>)
    ensures |r| == |ws| && forall i | 0 <= i < |ws| :: r[i] == W(ws[i])
  {
    if ws == [] then [] else [W(ws[0])] + Plain(ws[1..])
  }

  lemma {:induction false} PlainWords(ws: seq<string>)
    ensures WordsOf(Plain(ws)) == ws && RedirsOf(Plain(ws)) == []
  {
    if ws != [] {
      FirstIsWord(Plain(ws));
      PlainWords(ws[1..]);
    }
  }

  /** >> is read like >: the file is opened for output, not for appending. */
  lemma AppendReads(b: string, m: nat, file: string)
    requires m + 1 < |b| && b[m] == '>' && b[m + 1] == '>' && WordAt(b, m + 2, file) && Stop(b, m + 2 + |file|)
    ensures Redirs(b, m) == RedirOk([Redirection(Span(m + 2, m + 2 + |file|), true)], m + 2 + |file|)
  {
    var e := m + 2 + |file|;
    assert Letter(b[m + 2]);
    assert Skip(b, m) == m && Skip(b, m + 2) == m + 2 && Skip(b, e) == e;
    WordEndAt(b, m + 2, e);
    assert Token(b, m) == Tok('+', m, m + 2, m + 2) && Token(b, m + 2) == Tok('a', m + 2, e, e) && Look(b, m) == '>';
    NoRedirs(b, e);
    hide Token, Look, Skip, WordEnd;
  }
}
