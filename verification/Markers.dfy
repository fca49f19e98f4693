/** The inline citation markers `[n]`. */
module Markers {
  import opened Wrappers
  import opened Decimal
  import opened Text

  /** Text read from left to right: markers, and the characters between them. */
  datatype Token = Mark(number: nat) | Plain(c: char)

  function Digits(a: Alphabet, s: string): (n: nat)
    ensures n <= |s| && (n < |s| ==> a.digit(s[n]).None?)
    ensures forall i :: 0 <= i < n ==> a.digit(s[i]).Some?
  {
    if s == [] || a.digit(s[0]).None? then 0 else 1 + Digits(a, s[1..])
  }

  /** The number that a run of digits spells. */
  function Number(a: Alphabet, s: string): nat
    requires forall i :: 0 <= i < |s| ==> a.digit(s[i]).Some?
  {
    if s == [] then 0 else Number(a, s[..|s| - 1]) * 10 + a.digit(s[|s| - 1]).value
  }

  /** The length of the marker at the front; 0 if there is none. */
  function MarkerAt(a: Alphabet, s: string): (n: nat)
    ensures n <= |s| && (n > 0 ==> n >= 3 && Digits(a, s[1..]) == n - 2)
  {
    if s == [] || s[0] != '[' then 0
    else
      var n := Digits(a, s[1..]);
      if n > 0 && n + 1 < |s| && s[n + 1] == ']' then n + 2 else 0
  }

  /** The token at the front and its length. */
  function First(a: Alphabet, s: string): (r: (Token, nat))
    requires s != []
    ensures 1 <= r.1 <= |s|
  {
    var n := MarkerAt(a, s);
    if n > 0 then (Mark(Number(a, s[1..n - 1])), n) else (Plain(s[0]), 1)
  }

  function Scan(a: Alphabet, s: string): seq<Token>
    decreases |s|
  {
    if s == [] then [] else [First(a, s).0] + Scan(a, s[First(a, s).1..])
  }

  function Numbers(ts: seq<Token>): seq<nat> {
    if ts == [] then []
    else if ts[0].Mark? then [ts[0].number] + Numbers(ts[1..])
    else Numbers(ts[1..])
  }

  function Characters(ts: seq<Token>): string {
    if ts == [] then []
    else if ts[0].Plain? then [ts[0].c] + Characters(ts[1..])
    else Characters(ts[1..])
  }

  /** Every marker's number, in order. */
  function AllMarkers(a: Alphabet, s: string): seq<nat> {
    Numbers(Scan(a, s))
  }

  /** The text without its markers. */
  function RemoveMarkers(a: Alphabet, s: string): string {
    Characters(Scan(a, s))
  }

  /** Without markers, runs of spaces collapsed, trimmed. */
  function StripMarkers(a: Alphabet, s: string): string {
    Strip(a, Collapse(a, RemoveMarkers(a, s)))
  }

  lemma {:induction false} DigitsOfRun(a: Alphabet, digits: string, rest: string)
    requires forall i :: 0 <= i < |digits| ==> a.digit(digits[i]).Some?
    requires rest != [] && a.digit(rest[0]).None?
    ensures Digits(a, digits + rest) == |digits|
  {
    if digits == [] {
      assert digits + rest == rest;
    } else {
      assert (digits + rest)[1..] == digits[1..] + rest;
      DigitsOfRun(a, digits[1..], rest);
    }
  }

  /** A run of digits in brackets is read as the marker of their number. */
  lemma BracketedDigitsAreRead(a: Alphabet, digits: string, rest: string)
    requires a.Valid() && digits != [] && forall i :: 0 <= i < |digits| ==> a.digit(digits[i]).Some?
    ensures AllMarkers(a, "[" + digits + "]" + rest) == [Number(a, digits)] + AllMarkers(a, rest)
    ensures RemoveMarkers(a, "[" + digits + "]" + rest) == RemoveMarkers(a, rest)
  {
    var s := "[" + digits + "]" + rest;
    hide Number;
    var n := |digits| + 2;
    assert s[1..] == digits + ([']'] + rest);
    DigitsOfRun(a, digits, [']'] + rest);
    assert MarkerAt(a, s) == n && s[1..n - 1] == digits && s[n..] == rest;
    assert Scan(a, s)[1..] == Scan(a, rest);
  }

  lemma {:induction false} NumberOfPrinted(a: Alphabet, n: nat)
    requires a.Valid()
    ensures forall i :: 0 <= i < |Print(n)| ==> a.digit(Print(n)[i]).Some?
    ensures Number(a, Print(n)) == n
  {
    var s := Print(n);
    if n < 10 {
      assert s[..0] == [];
      assert Number(a, s[..0]) == 0;
    } else {
      NumberOfPrinted(a, n / 10);
      assert s[..|s| - 1] == Print(n / 10);
    }
  }

  /** A number printed in brackets, which is how a source is to be cited, is read as the
      marker of that number. */
  lemma PrintedIsRead(a: Alphabet, n: nat, rest: string)
    requires a.Valid()
    ensures AllMarkers(a, "[" + Print(n) + "]" + rest) == [n] + AllMarkers(a, rest)
    ensures RemoveMarkers(a, "[" + Print(n) + "]" + rest) == RemoveMarkers(a, rest)
  {
    hide Print, Number, AllMarkers, RemoveMarkers;
    NumberOfPrinted(a, n);
    BracketedDigitsAreRead(a, Print(n), rest);
  }

  /** `s` begins with digits, at least one, in brackets. */
  ghost predicate BeginsBracketed(a: Alphabet, s: string) {
    exists n: nat :: 2 <= n < |s| && s[0] == '[' && s[n] == ']' && forall i :: 1 <= i < n ==> a.digit(s[i]).Some?
  }

  /** Nothing else is a marker: a character with which none begins stands for itself. */
  lemma OthersArePlain(a: Alphabet, s: string)
    requires a.Valid() && s != [] && !BeginsBracketed(a, s)
    ensures AllMarkers(a, s) == AllMarkers(a, s[1..]) && RemoveMarkers(a, s) == [s[0]] + RemoveMarkers(a, s[1..])
  {
    var n := MarkerAt(a, s);
    if n > 0 {
      assert forall i :: 1 <= i < n - 1 ==> s[i] == s[1..][i - 1];
    }
    assert Scan(a, s)[1..] == Scan(a, s[1..]);
  }

  /** Text without an opening bracket holds no marker and stays as it is. */
  lemma {:induction false} NoBracketNoMarker(a: Alphabet, s: string)
    requires forall i :: 0 <= i < |s| ==> s[i] != '['
    ensures AllMarkers(a, s) == [] && RemoveMarkers(a, s) == s
  {
    if s != [] {
      NoBracketNoMarker(a, s[1..]);
      assert Scan(a, s)[1..] == Scan(a, s[1..]);
    }
  }

  // ---------------------------------------------------------------- first-seen order

  function Distinct(xs: seq<nat>): seq<nat> {
    if xs == [] then []
    else
      var front := Distinct(xs[..|xs| - 1]);
      if xs[|xs| - 1] in front then front else front + [xs[|xs| - 1]]
  }

  function FirstAt(xs: seq<nat>, n: nat): (i: nat)
    requires n in xs
    ensures i < |xs| && xs[i] == n && n !in xs[..i]
  {
    if xs[0] == n then 0 else 1 + FirstAt(xs[1..], n)
  }

  /** The same numbers, each once, in the order of their first appearance. */
  lemma {:induction false} DistinctIsFirstSeen(xs: seq<nat>)
    ensures forall n :: n in Distinct(xs) <==> n in xs
    ensures forall i, j :: 0 <= i < j < |Distinct(xs)| ==>
              && Distinct(xs)[i] != Distinct(xs)[j]
              && Distinct(xs)[i] in xs && Distinct(xs)[j] in xs
              && FirstAt(xs, Distinct(xs)[i]) < FirstAt(xs, Distinct(xs)[j])
  {
    if xs != [] {
      var front, last := xs[..|xs| - 1], xs[|xs| - 1];
      DistinctIsFirstSeen(front);
      assert xs == front + [last];
      forall n | n in front ensures n in xs && FirstAt(xs, n) == FirstAt(front, n) {
        FirstAtIsUnique(xs, n, FirstAt(front, n));
      }
      if last !in front {
        FirstAtIsUnique(xs, last, |xs| - 1);
      }
    }
  }

  lemma {:induction false} FirstAtIsUnique(xs: seq<nat>, n: nat, i: nat)
    requires i < |xs| && xs[i] == n && n !in xs[..i]
    ensures n in xs && FirstAt(xs, n) == i
  {
    if i > 0 {
      assert xs[0] == xs[..i][0] && xs[1..][..i - 1] == xs[..i][1..];
      FirstAtIsUnique(xs[1..], n, i - 1);
    }
  }

  lemma NumbersOfFront(ts: seq<Token>, t: Token)
    ensures Numbers(ts + [t]) == if t.Mark? then Numbers(ts) + [t.number] else Numbers(ts)
  {
    NumbersAppend(ts, [t]);
  }

  lemma DistinctOfFront(xs: seq<nat>, n: nat)
    ensures Distinct(xs + [n]) == if n in Distinct(xs) then Distinct(xs) else Distinct(xs) + [n]
  {
    assert (xs + [n])[..|xs|] == xs;
  }

  lemma NothingRead()
    ensures Distinct(Numbers([])) == []
  {
  }

  lemma ReadOne(a: Alphabet, done: seq<Token>, rest: string)
    requires rest != []
    ensures var (token, length) := First(a, rest);
            && done + Scan(a, rest) == done + [token] + Scan(a, rest[length..])
            && Distinct(Numbers(done + [token])) ==
               if token.Mark? && token.number !in Distinct(Numbers(done)) then Distinct(Numbers(done)) + [token.number]
               else Distinct(Numbers(done))
  {
    hide First, Scan, Numbers, Distinct;
    var (token, length) := First(a, rest);
    ScanStep(a, rest);
    assert done + [token] + Scan(a, rest[length..]) == done + ([token] + Scan(a, rest[length..]));
    NumbersOfFront(done, token);
    if token.Mark? {
      DistinctOfFront(Numbers(done), token.number);
    }
  }

  /** The distinct numbers that `text` refers to, in first-seen order. */
  method ExtractCitationMarkers(a: Alphabet, text: string) returns (seen: seq<nat>)
    ensures seen == Distinct(AllMarkers(a, text))
  {
    hide First, Numbers, Distinct;
    seen := [];
    var rest := text;
    ghost var done: seq<Token> := [];
    NothingRead();
    while rest != []
      invariant Scan(a, text) == done + Scan(a, rest)
      invariant seen == Distinct(Numbers(done))
      decreases |rest|
    {
      var (token, length) := First(a, rest);
      ReadOne(a, done, rest);
      if token.Mark? && token.number !in seen {
        seen := seen + [token.number];
      }
      done := done + [token];
      rest := rest[length..];
    }
    assert done + [] == done;
  }

  // ---------------------------------------------------------------- no marker holds a space

  lemma {:induction false} NumbersAppend(x: seq<Token>, y: seq<Token>)
    ensures Numbers(x + y) == Numbers(x) + Numbers(y)
  {
    if x == [] {
      assert x + y == y;
    } else {
      assert (x + y)[1..] == x[1..] + y;
      NumbersAppend(x[1..], y);
    }
  }

  lemma {:induction false} CharactersAppend(x: seq<Token>, y: seq<Token>)
    ensures Characters(x + y) == Characters(x) + Characters(y)
  {
    if x == [] {
      assert x + y == y;
    } else {
      assert (x + y)[1..] == x[1..] + y;
      CharactersAppend(x[1..], y);
    }
  }

  lemma {:induction false} DigitsStop(a: Alphabet, u: string, sp: char, v: string)
    requires a.Valid() && a.space(sp)
    ensures Digits(a, u + [sp] + v) == Digits(a, u)
  {
    var s := u + [sp] + v;
    if u != [] && a.digit(u[0]).Some? {
      assert s[1..] == u[1..] + [sp] + v;
      DigitsStop(a, u[1..], sp, v);
    }
  }

  lemma MarkerStops(a: Alphabet, u: string, sp: char, v: string)
    requires a.Valid() && a.space(sp)
    ensures MarkerAt(a, u + [sp] + v) == MarkerAt(a, u)
  {
    var s := u + [sp] + v;
    if u != [] && u[0] == '[' {
      assert s[1..] == u[1..] + [sp] + v;
      DigitsStop(a, u[1..], sp, v);
    }
  }

  lemma FirstStops(a: Alphabet, u: string, sp: char, v: string)
    requires a.Valid() && a.space(sp) && u != []
    ensures First(a, u + [sp] + v) == First(a, u)
  {
    hide MarkerAt;
    MarkerStops(a, u, sp, v);
    var n := MarkerAt(a, u);
    assert n > 0 ==> (u + [sp] + v)[1..n - 1] == u[1..n - 1];
  }

  lemma ScanOfSpace(a: Alphabet, sp: char, v: string)
    requires a.Valid() && a.space(sp)
    ensures Scan(a, [sp] + v) == [Plain(sp)] + Scan(a, v)
    ensures Scan(a, []) == []
  {
    assert ([sp] + v)[1..] == v;
  }

  lemma ScanStep(a: Alphabet, s: string)
    requires s != []
    ensures Scan(a, s) == [First(a, s).0] + Scan(a, s[First(a, s).1..])
  {
  }

  lemma Regroup<T>(w: seq<T>, x: seq<T>, y: seq<T>, z: seq<T>)
    ensures w + (x + y + z) == (w + x) + y + z
  {
  }

  /** A marker cannot straddle a space: the text on each side reads as it does alone. */
  lemma {:induction false} ScanSplits(a: Alphabet, u: string, sp: char, v: string)
    requires a.Valid() && a.space(sp)
    ensures Scan(a, u + [sp] + v) == Scan(a, u) + [Plain(sp)] + Scan(a, v)
    decreases |u|
  {
    var s := u + [sp] + v;
    hide First, Scan;
    if u == [] {
      ScanOfSpace(a, sp, v);
      assert s == [sp] + v;
    } else {
      FirstStops(a, u, sp, v);
      ScanStep(a, u);
      ScanStep(a, s);
      var n := First(a, u).1;
      assert s[n..] == u[n..] + [sp] + v;
      ScanSplits(a, u[n..], sp, v);
      Regroup([First(a, u).0], Scan(a, u[n..]), [Plain(sp)], Scan(a, v));
    }
  }

  /** Markers on either side of a space. */
  lemma MarkersSplit(a: Alphabet, u: string, sp: char, v: string)
    requires a.Valid() && a.space(sp)
    ensures AllMarkers(a, u + [sp] + v) == AllMarkers(a, u) + AllMarkers(a, v)
  {
    ScanSplits(a, u, sp, v);
    NumbersAppend(Scan(a, u) + [Plain(sp)], Scan(a, v));
    NumbersOfFront(Scan(a, u), Plain(sp));
  }

  /** The words left when the markers are gone. */
  function Content(a: Alphabet, s: string): seq<string> {
    Words(a, RemoveMarkers(a, s))
  }

  lemma ContentSplits(a: Alphabet, u: string, sp: char, v: string)
    requires a.Valid() && a.space(sp)
    ensures Content(a, u + [sp] + v) == Content(a, u) + Content(a, v)
  {
    ScanSplits(a, u, sp, v);
    CharactersAppend(Scan(a, u) + [Plain(sp)], Scan(a, v));
    CharactersAppend(Scan(a, u), [Plain(sp)]);
    assert Characters([Plain(sp)]) == [sp];
    WordsSplit(a, RemoveMarkers(a, u), sp, RemoveMarkers(a, v));
  }

  /** What is displayed: the remaining words, one space apart. */
  lemma StripMarkersIsContent(a: Alphabet, s: string)
    requires a.Valid()
    ensures StripMarkers(a, s) == Join(Content(a, s))
  {
    CollapseStripIsWords(a, RemoveMarkers(a, s));
  }
}
