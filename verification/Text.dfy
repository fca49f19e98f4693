/** Character classes, words and joining. */
module Text {
  import opened Wrappers
  import opened Decimal

  /** What the regular expressions' digit and space classes hold; which characters beyond
      ASCII are in them is the runtime's table, so it is a parameter. */
  datatype Alphabet = Alphabet(digit: char -> Option<nat>, space: char -> bool) {
    ghost predicate Valid() {
      && space(' ') && digit(' ') == None
      && !space('[') && !space(']') && digit('[') == None && digit(']') == None
      && (forall c :: space(c) ==> digit(c) == None)
      && forall d: nat :: d < 10 ==> digit(Digit(d)) == Some(d)
    }
  }

  function Join(parts: seq<string>): string {
    if parts == [] then ""
    else if |parts| == 1 then parts[0]
    else parts[0] + " " + Join(parts[1..])
  }

  function Strip(a: Alphabet, s: string): string
    decreases |s|
  {
    if s == [] then []
    else if a.space(s[0]) then Strip(a, s[1..])
    else if a.space(s[|s| - 1]) then Strip(a, s[..|s| - 1])
    else s
  }

  /** How many characters at the front are spaces, or are not. */
  function Run(a: Alphabet, s: string, spaces: bool): (n: nat)
    ensures n <= |s| && (n < |s| ==> a.space(s[n]) != spaces)
    ensures forall i :: 0 <= i < n ==> a.space(s[i]) == spaces
  {
    if s == [] || a.space(s[0]) != spaces then 0 else 1 + Run(a, s[1..], spaces)
  }

  /** Every run of spaces replaced by one space. */
  function Collapse(a: Alphabet, s: string): string
    decreases |s|
  {
    if s == [] then []
    else if a.space(s[0]) then " " + Collapse(a, s[Run(a, s, true)..])
    else [s[0]] + Collapse(a, s[1..])
  }

  predicate Word(a: Alphabet, w: string) {
    w != [] && forall i :: 0 <= i < |w| ==> !a.space(w[i])
  }

  /** The maximal runs of characters that are not spaces. */
  function Words(a: Alphabet, s: string): (ws: seq<string>)
    ensures forall i :: 0 <= i < |ws| ==> Word(a, ws[i])
    decreases |s|
  {
    if s == [] then []
    else if a.space(s[0]) then Words(a, s[1..])
    else
      var n := Run(a, s, false);
      [s[..n]] + Words(a, s[n..])
  }

  // ---------------------------------------------------------------- splitting at a space

  /** The run at the front of `u` does not see past a space after it. */
  lemma {:induction false} RunStops(a: Alphabet, u: string, sp: char, v: string)
    requires a.space(sp)
    ensures Run(a, u + [sp] + v, false) == Run(a, u, false)
  {
    var s := u + [sp] + v;
    if u != [] && !a.space(u[0]) {
      assert s[1..] == u[1..] + [sp] + v;
      RunStops(a, u[1..], sp, v);
    }
  }

  lemma WordsStep(a: Alphabet, s: string)
    requires s != [] && !a.space(s[0])
    ensures Words(a, s) == [s[..Run(a, s, false)]] + Words(a, s[Run(a, s, false)..])
  {
  }

  lemma {:induction false} WordsSplit(a: Alphabet, u: string, sp: char, v: string)
    requires a.space(sp)
    ensures Words(a, u + [sp] + v) == Words(a, u) + Words(a, v)
    decreases |u|
  {
    var s := u + [sp] + v;
    if u == [] {
      assert s[1..] == v;
    } else if a.space(u[0]) {
      assert s[1..] == u[1..] + [sp] + v;
      WordsSplit(a, u[1..], sp, v);
    } else {
      hide Words;
      var n := Run(a, u, false);
      RunStops(a, u, sp, v);
      WordsStep(a, u);
      WordsStep(a, s);
      assert s[..n] == u[..n] && s[n..] == u[n..] + [sp] + v;
      WordsSplit(a, u[n..], sp, v);
    }
  }

  lemma {:induction false} WordsOfSpaces(a: Alphabet, s: string)
    requires forall c <- s :: a.space(c)
    ensures Words(a, s) == []
  {
    if s != [] {
      WordsOfSpaces(a, s[1..]);
    }
  }

  // ---------------------------------------------------------------- collapse, then strip

  lemma {:induction false} CollapseWord(a: Alphabet, w: string, rest: string)
    requires forall i :: 0 <= i < |w| ==> !a.space(w[i])
    ensures Collapse(a, w + rest) == w + Collapse(a, rest)
  {
    if w == [] {
      assert w + rest == rest;
    } else {
      assert (w + rest)[1..] == w[1..] + rest;
      CollapseWord(a, w[1..], rest);
    }
  }

  function Edge(there: bool): string {
    if there then " " else ""
  }

  lemma {:induction false} WordsAfterRun(a: Alphabet, s: string)
    ensures Words(a, s) == Words(a, s[Run(a, s, true)..])
  {
    if s != [] && a.space(s[0]) {
      WordsAfterRun(a, s[1..]);
      assert s[1..][Run(a, s[1..], true)..] == s[Run(a, s, true)..];
    }
  }

  predicate EndsInSpace(a: Alphabet, s: string) {
    s != [] && a.space(s[|s| - 1])
  }

  /** The words joined, with a space at an edge that had spaces. */
  function Framed(a: Alphabet, s: string): string {
    var ws := Words(a, s);
    Edge(s != [] && a.space(s[0])) + Join(ws) + Edge(ws != [] && EndsInSpace(a, s))
  }

  lemma FramedAfterSpaces(a: Alphabet, s: string)
    requires s != [] && a.space(s[0])
    ensures Framed(a, s) == " " + Framed(a, s[Run(a, s, true)..])
  {
    hide Words;
    var rest := s[Run(a, s, true)..];
    WordsAfterRun(a, s);
    if rest == [] {
      WordsOfSpaces(a, rest);
    }
  }

  lemma WordEdges(a: Alphabet, w: string, rest: string)
    requires Word(a, w)
    ensures w + rest != [] && !a.space((w + rest)[0])
    ensures EndsInSpace(a, w + rest) <==> EndsInSpace(a, rest)
  {
  }

  /** A word, then spaces if `spaced`, then the words `ws`, then spaces if `ends`. */
  lemma Glue(w: string, ws: seq<string>, spaced: bool, ends: bool)
    requires (ws != [] ==> spaced) && (ends ==> spaced) && (spaced && ws == [] ==> ends)
    ensures Edge(false) + Join([w] + ws) + Edge(ends) == w + (Edge(spaced) + Join(ws) + Edge(ws != [] && ends))
  {
    if ws == [] {
      assert [w] + ws == [w];
    } else {
      assert ([w] + ws)[1..] == ws;
      assert Join([w] + ws) == w + " " + Join(ws);
    }
  }

  lemma FramedAfterWord(a: Alphabet, w: string, rest: string)
    requires Word(a, w) && (rest != [] ==> a.space(rest[0]))
    requires Words(a, w + rest) == [w] + Words(a, rest)
    ensures Framed(a, w + rest) == w + Framed(a, rest)
  {
    hide Words, Word, Join, Edge;
    var ws := Words(a, rest);
    if rest == [] {
      WordsOfSpaces(a, rest);
    } else if ws == [] {
      NoWordsAllSpaces(a, rest);
    }
    WordEdges(a, w, rest);
    Glue(w, ws, rest != [], EndsInSpace(a, rest));
  }

  lemma NothingFramed(a: Alphabet)
    ensures Framed(a, []) == []
  {
  }

  lemma {:induction false} CollapseIsFramed(a: Alphabet, s: string)
    ensures Collapse(a, s) == Framed(a, s)
    decreases |s|
  {
    hide Framed, Words;
    if s == [] {
      NothingFramed(a);
    } else if a.space(s[0]) {
      FramedAfterSpaces(a, s);
      CollapseIsFramed(a, s[Run(a, s, true)..]);
    } else {
      var n := Run(a, s, false);
      assert s == s[..n] + s[n..];
      WordsStep(a, s);
      CollapseWord(a, s[..n], s[n..]);
      CollapseIsFramed(a, s[n..]);
      FramedAfterWord(a, s[..n], s[n..]);
    }
  }

  lemma {:induction false} NoWordsAllSpaces(a: Alphabet, s: string)
    requires Words(a, s) == []
    ensures forall i :: 0 <= i < |s| ==> a.space(s[i])
  {
    if s != [] {
      NoWordsAllSpaces(a, s[1..]);
    }
  }

  lemma {:induction false} JoinHasNoEdges(a: Alphabet, ws: seq<string>)
    requires ws != [] && forall i :: 0 <= i < |ws| ==> Word(a, ws[i])
    ensures var j := Join(ws); j != [] && !a.space(j[0]) && !a.space(j[|j| - 1])
  {
    if |ws| > 1 {
      JoinHasNoEdges(a, ws[1..]);
    }
  }

  lemma CollapseStripIsWords(a: Alphabet, s: string)
    requires a.Valid()
    ensures Strip(a, Collapse(a, s)) == Join(Words(a, s))
  {
    var ws := Words(a, s);
    CollapseIsFramed(a, s);
    if ws != [] {
      JoinHasNoEdges(a, ws);
      StripEdges(a, Edge(a.space(s[0])), Join(ws), Edge(EndsInSpace(a, s)));
    }
  }

  /** Spaces around text that neither begins nor ends with one are what stripping removes. */
  lemma {:induction false} StripPadded(a: Alphabet, l: string, j: string, r: string)
    requires (forall c <- l :: a.space(c)) && forall c <- r :: a.space(c)
    requires j != [] ==> !a.space(j[0]) && !a.space(j[|j| - 1])
    ensures Strip(a, l + j + r) == j
    decreases |l| + |r|
  {
    var s := l + j + r;
    if l != [] {
      assert s[1..] == l[1..] + j + r;
      StripPadded(a, l[1..], j, r);
    } else if r != [] {
      var n := |r| - 1;
      if j == [] {
        assert s == r && s[1..] == [] + [] + r[1..];
        StripPadded(a, [], [], r[1..]);
      } else {
        assert s[..|s| - 1] == [] + j + r[..n];
        StripPadded(a, [], j, r[..n]);
      }
    } else {
      assert s == j;
    }
  }

  lemma StripEdges(a: Alphabet, l: string, j: string, r: string)
    requires a.Valid() && (l == "" || l == " ") && (r == "" || r == " ")
    requires j != [] && !a.space(j[0]) && !a.space(j[|j| - 1])
    ensures Strip(a, l + j + r) == j
  {
    assert l == " " ==> (l + j + r)[1..] == j + r;
    assert l == "" ==> l + j + r == j + r;
    assert r == " " ==> (j + r)[..|j + r| - 1] == j;
    assert r == "" ==> j + r == j;
    assert Strip(a, j) == j;
    assert Strip(a, j + r) == j;
  }
}
