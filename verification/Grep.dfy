/** grep.c: the matcher, against the meaning of a pattern as a set of words. */
module Grep {

  /** One pattern character, a starred one, or a final $. */
  datatype Item = One(c: char) | Star(c: char) | End

  /** How the code reads a pattern: a character before * is starred, even another * or $; $ is
      an anchor only as the last character; any other character, a leading * included, stands
      for itself, and . for any. */
  function Parse(re: string): (items: seq<Item>)
  {
    if re == [] then []
    else if |re| >= 2 && re[1] == '*' then [Star(re[0])] + Parse(re[2..])
    else if re == ['$'] then [End]
    else [One(re[0])] + Parse(re[1..])
  }

  predicate Fits(c: char, x: char) { c == '.' || c == x }

  /** The words an item stands for. */
  ghost predicate Word(item: Item, w: string)
  {
    match item
    case One(c) => |w| == 1 && Fits(c, w[0])
    case Star(c) => forall i | 0 <= i < |w| :: Fits(c, w[i])
    case End => w == []
  }

  ghost function Join(ws: seq<string>): string
  {
    if ws == [] then [] else ws[0] + Join(ws[1..])
  }

  ghost predicate Spells(items: seq<Item>, ws: seq<string>, w: string)
  {
    |ws| == |items| && Join(ws) == w && forall i | 0 <= i < |items| :: Word(items[i], ws[i])
  }

  /** w is a word of each item in turn, put together. */
  ghost predicate Denotes(items: seq<Item>, w: string)
  {
    exists ws :: Spells(items, ws, w)
  }

  ghost predicate Anchored(items: seq<Item>)
  {
    |items| > 0 && items[|items| - 1] == End
  }

  /** The first k characters are a word of the pattern, all of them if it ends in $. */
  ghost predicate Prefix(items: seq<Item>, text: string, k: int)
  {
    0 <= k <= |text| && Denotes(items, text[..k]) && (Anchored(items) ==> k == |text|)
  }

  ghost predicate Here(re: string, text: string)
  {
    exists k :: Prefix(Parse(re), text, k)
  }

  ghost predicate Found(re: string, text: string)
  {
    if |re| > 0 && re[0] == '^' then Here(re[1..], text)
    else exists j :: 0 <= j <= |text| && Here(re, text[j..])
  }

  // ---- taking a pattern apart ----

  lemma DenotesNone(w: string)
    ensures Denotes([], w) <==> w == []
  {
    assert Spells([], [], []);
  }

  lemma DenotesFirst(item: Item, rest: seq<Item>, w: string, n: int)
    requires 0 <= n <= |w| && Word(item, w[..n]) && Denotes(rest, w[n..])
    ensures Denotes([item] + rest, w)
  {
    var ws :| Spells(rest, ws, w[n..]);
    var all := [w[..n]] + ws;
    assert all[1..] == ws && w == w[..n] + w[n..];
    assert Spells([item] + rest, all, w);
  }

  lemma DenotesRest(item: Item, rest: seq<Item>, w: string) returns (n: int)
    requires Denotes([item] + rest, w)
    ensures 0 <= n <= |w| && Word(item, w[..n]) && Denotes(rest, w[n..])
  {
    var items := [item] + rest;
    var ws :| Spells(items, ws, w);
    n := |ws[0]|;
    assert w == ws[0] + Join(ws[1..]) && w[..n] == ws[0] && w[n..] == Join(ws[1..]);
    assert Word(items[0], ws[0]);
    forall i | 0 <= i < |rest| ensures Word(rest[i], ws[1..][i]) {
      assert Word(items[i + 1], ws[i + 1]);
    }
    assert Spells(rest, ws[1..], w[n..]);
  }

  lemma HereFirst(re: string, item: Item, re': string, text: string, n: int)
    requires Parse(re) == [item] + Parse(re') && (item == End ==> re' == [] && n == |text|)
    requires 0 <= n <= |text| && Word(item, text[..n]) && Here(re', text[n..])
    ensures Here(re, text)
  {
    var k :| Prefix(Parse(re'), text[n..], k);
    assert text[..n + k][..n] == text[..n] && text[..n + k][n..] == text[n..][..k];
    DenotesFirst(item, Parse(re'), text[..n + k], n);
    assert Anchored(Parse(re)) ==> Anchored(Parse(re')) || item == End;
    assert Prefix(Parse(re), text, n + k);
  }

  lemma HereRest(re: string, item: Item, re': string, text: string) returns (n: int)
    requires Parse(re) == [item] + Parse(re') && Here(re, text)
    ensures 0 <= n <= |text| && Word(item, text[..n]) && Here(re', text[n..])
    ensures item == End && re' == [] ==> text == []
  {
    var k :| Prefix(Parse(re), text, k);
    n := DenotesRest(item, Parse(re'), text[..k]);
    assert text[..k][..n] == text[..n] && text[..k][n..] == text[n..][..k - n];
    assert Anchored(Parse(re')) ==> Anchored(Parse(re));
    assert Prefix(Parse(re'), text[n..], k - n);
    if item == End && re' == [] { DenotesNone(text[..k][n..]); }
  }

  lemma HereNone(text: string)
    ensures Here([], text)
  {
    DenotesNone(text[..0]);
    assert Prefix(Parse([]), text, 0);
  }

  // ---- the code ----

  method MatchHere(re: string, text: string) returns (r: bool)
    ensures r <==> Here(re, text)
    decreases |re|
  {
    if re == [] {
      HereNone(text);
      return true;
    }
    if |re| >= 2 && re[1] == '*' {
      r := MatchStar(re[0], re[2..], text);
      StarMeans(re, text);
      return;
    }
    if re[0] == '$' && |re| == 1 {
      EndMeans(re, text);
      return text == [];
    }
    OneMeans(re, text);
    if text != [] && (re[0] == '.' || re[0] == text[0]) {
      r := MatchHere(re[1..], text[1..]);
      return;
    }
    return false;
  }

  /** matchstar succeeds after some characters that c stands for. */
  ghost predicate AfterStar(c: char, re: string, text: string, n: int)
  {
    0 <= n <= |text| && Word(Star(c), text[..n]) && Here(re, text[n..])
  }

  method MatchStar(c: char, re: string, text: string) returns (r: bool)
    ensures r <==> exists n :: AfterStar(c, re, text, n)
    decreases |re| + 1
  {
    var i := 0;
    while true
      invariant 0 <= i <= |text| && Word(Star(c), text[..i])
      invariant forall n | 0 <= n < i :: !AfterStar(c, re, text, n)
      decreases |text| - i
    {
      r := MatchHere(re, text[i..]);
      if r {
        assert AfterStar(c, re, text, i);
        return;
      }
      if i == |text| || !(text[i] == c || c == '.') {
        break;
      }
      i := i + 1;
    }
    assert forall n | i < n <= |text| :: text[..n][i] == text[i];
    assert forall n :: !AfterStar(c, re, text, n);
    r := false;
  }

  method Match(re: string, text: string) returns (r: bool)
    ensures r <==> Found(re, text)
  {
    if |re| > 0 && re[0] == '^' {
      r := MatchHere(re[1..], text);
      return;
    }
    var i := 0;
    while true
      invariant 0 <= i <= |text|
      invariant forall j | 0 <= j < i :: !Here(re, text[j..])
      decreases |text| - i
    {
      r := MatchHere(re, text[i..]);
      if r {
        return;
      }
      if i == |text| {
        break;
      }
      i := i + 1;
    }
  }

  lemma StarMeans(re: string, text: string)
    requires |re| >= 2 && re[1] == '*'
    ensures Here(re, text) <==> exists n :: AfterStar(re[0], re[2..], text, n)
  {
    if n :| AfterStar(re[0], re[2..], text, n) {
      HereFirst(re, Star(re[0]), re[2..], text, n);
    }
    if Here(re, text) {
      var n := HereRest(re, Star(re[0]), re[2..], text);
      assert AfterStar(re[0], re[2..], text, n);
    }
  }

  lemma EndMeans(re: string, text: string)
    requires re == ['$']
    ensures Here(re, text) <==> text == []
  {
    assert Parse(re) == [End] + Parse([]);
    if text == [] {
      HereNone(text[0..]);
      HereFirst(re, End, [], text, 0);
    }
    if Here(re, text) {
      var n := HereRest(re, End, [], text);
    }
  }

  lemma OneMeans(re: string, text: string)
    requires re != [] && !(|re| >= 2 && re[1] == '*') && re != ['$']
    ensures Here(re, text) <==> text != [] && Fits(re[0], text[0]) && Here(re[1..], text[1..])
  {
    if text != [] && Fits(re[0], text[0]) && Here(re[1..], text[1..]) {
      assert text[..1] == [text[0]];
      HereFirst(re, One(re[0]), re[1..], text, 1);
    }
    if Here(re, text) {
      var n := HereRest(re, One(re[0]), re[1..], text);
      assert n == 1;
    }
  }

  /** No stars, no anchors. */
  predicate Simple(re: string)
  {
    (re != [] ==> re[0] != '^') && forall i | 0 <= i < |re| :: re[i] != '*' && re[i] != '$'
  }

  /** The text has these characters from position j on, with . for any. */
  ghost predicate Stands(re: string, text: string, j: int)
  {
    0 <= j && j + |re| <= |text| && forall i | 0 <= i < |re| :: re[i] == '.' || text[j + i] == re[i]
  }

  lemma {:induction false} SimpleHere(re: string, text: string)
    requires forall i | 0 <= i < |re| :: re[i] != '*' && re[i] != '$'
    ensures Here(re, text) <==> Stands(re, text, 0)
    decreases |re|
  {
    if re == [] {
      HereNone(text);
    } else {
      assert re[0] != '$' && (|re| >= 2 ==> re[1] != '*');
      OneMeans(re, text);
      if text != [] {
        SimpleHere(re[1..], text[1..]);
        assert Stands(re, text, 0) <==> (re[0] == '.' || text[0] == re[0]) && Stands(re[1..], text[1..], 0) by {
          if Stands(re[1..], text[1..], 0) {
            forall i | 0 < i < |re| ensures re[i] == '.' || text[0 + i] == re[i] {
              assert re[1..][i - 1] == re[i] && text[1..][0 + (i - 1)] == text[i];
            }
          }
        }
      }
    }
  }

  /** A pattern without stars and anchors is found exactly if it stands somewhere in the text. */
  lemma SimpleFound(re: string, text: string)
    requires Simple(re)
    ensures Found(re, text) <==> exists j :: Stands(re, text, j)
  {
    forall j | 0 <= j <= |text| ensures Here(re, text[j..]) <==> Stands(re, text, j) {
      SimpleHere(re, text[j..]);
      StandsAt(re, text, j);
    }
  }

  lemma StandsAt(re: string, text: string, j: int)
    requires 0 <= j <= |text|
    ensures Stands(re, text[j..], 0) <==> Stands(re, text, j)
  {
    if j + |re| <= |text| {
      var rest := text[j..];
      forall i | 0 <= i < |re| ensures rest[0 + i] == re[i] <==> text[j + i] == re[i] {
      }
    }
  }
}
