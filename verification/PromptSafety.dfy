/** Fencing of untrusted evidence by string replacement. */
module PromptSafety {

  const OPEN := "<retrieved_evidence>"
  const CLOSE := "</retrieved_evidence>"
  const DEFANGED_OPEN := "[retrieved_evidence]"
  const DEFANGED_CLOSE := "[/retrieved_evidence]"

  /** Every occurrence of `target` replaced, leftmost first and not overlapping. */
  function Replace(s: string, target: string, marker: string): string
    requires target != []
    decreases |s|
  {
    if s == [] then []
    else if target <= s then marker + Replace(s[|target|..], target, marker)
    else [s[0]] + Replace(s[1..], target, marker)
  }

  predicate OccursAt(s: string, t: string, i: int) {
    0 <= i <= |s| && t <= s[i..]
  }

  ghost predicate Absent(s: string, t: string) {
    forall i :: !OccursAt(s, t, i)
  }

  function Defang(evidence: string): string {
    Replace(Replace(evidence, OPEN, DEFANGED_OPEN), CLOSE, DEFANGED_CLOSE)
  }

  function FenceEvidence(evidence: string): string {
    OPEN + "\n" + Defang(evidence) + "\n" + CLOSE
  }

  // ---------------------------------------------------------------- replacement

  /** A replacement that cannot start `u` and whose first character is not in `u`. */
  predicate Inert(marker: string, u: string) {
    u != [] && marker != [] && marker[0] !in u && u[0] !in marker
  }

  /** Text without the replacement's first character that starts the result started the
      source. */
  lemma {:induction false} PrefixIsCopied(s: string, target: string, marker: string, w: string)
    requires target != [] && marker != [] && marker[0] !in w
    ensures w != [] && w <= Replace(s, target, marker) ==> w <= s && !(target <= s)
  {
    if w != [] && s != [] {
      if target <= s {
        assert Replace(s, target, marker)[0] == marker[0] != w[0];
      } else {
        PrefixIsCopied(s[1..], target, marker, w[1..]);
      }
    }
  }

  lemma AbsentInSuffix(s: string, u: string, n: nat)
    requires Absent(s, u) && n <= |s|
    ensures Absent(s[n..], u)
  {
    forall i ensures !OccursAt(s[n..], u, i) {
      if 0 <= i <= |s| - n {
        assert s[n..][i..] == s[n + i..];
        assert !OccursAt(s, u, n + i);
      }
    }
  }

  /** Replacing `target` leaves no `target` behind, and creates no `u` that was not there. */
  lemma {:induction false} ReplaceCreatesNone(s: string, target: string, marker: string, u: string)
    requires target != [] && Inert(marker, u) && (u == target || Absent(s, u))
    ensures Absent(Replace(s, target, marker), u)
    decreases |s|
  {
    var out := Replace(s, target, marker);
    if s != [] {
      var head := if target <= s then marker else [s[0]];
      var rest := if target <= s then s[|target|..] else s[1..];
      if u != target {
        AbsentInSuffix(s, u, |s| - |rest|);
      }
      ReplaceCreatesNone(rest, target, marker, u);
      var tail := Replace(rest, target, marker);
      PrefixIsCopied(s, target, marker, u);
      assert s[0..] == s && out[0..] == out;
      assert u != target ==> !OccursAt(s, u, 0);
      forall i ensures !OccursAt(out, u, i) {
        if 0 <= i < |head| && target <= s {
          assert out[i..][0] == marker[i] != u[0];
        } else if |head| <= i <= |out| {
          assert out[i..] == tail[i - |head|..];
          assert !OccursAt(tail, u, i - |head|);
        }
      }
    }
  }

  /** A string without `target` is unchanged. */
  lemma {:induction false} ReplaceOfAbsent(s: string, target: string, marker: string)
    requires target != [] && Absent(s, target)
    ensures Replace(s, target, marker) == s
    decreases |s|
  {
    if s != [] {
      assert s[0..] == s && !OccursAt(s, target, 0);
      AbsentInSuffix(s, target, 1);
      ReplaceOfAbsent(s[1..], target, marker);
    }
  }

  // ---------------------------------------------------------------- the fence

  /** A tag starts at its only `<` and stays on one line. */
  predicate Tag(t: string) {
    && t != [] && t[0] == '<' && '\n' !in t
    && (forall i :: 0 < i < |t| ==> t[i] != '<')
  }

  /** What stays on one line and starts within a text, but not wholly in it, does not
      occur in the text followed by a line break. */
  lemma DoesNotStraddle(d: string, rest: string, u: string, k: nat)
    requires Absent(d, u) && k <= |d| && rest != [] && rest[0] == '\n' && u != [] && '\n' !in u
    ensures !OccursAt(d + rest, u, k)
  {
    var all := d + rest;
    if k + |u| <= |d| {
      assert all[k..][..|u|] == d[k..][..|u|];
      assert !OccursAt(d, u, k);
    } else if k + |u| <= |all| {
      assert all[k..][|d| - k] == '\n' != u[|d| - k];
    }
  }

  /** In text fenced by two tags, a tag that the text lacks occurs nowhere but where a
      fence tag begins with it. */
  lemma OnlyAtTheFence(a: string, d: string, b: string, u: string, i: int)
    requires Tag(a) && Tag(b) && Tag(u) && Absent(d, u)
    ensures var out := a + "\n" + d + "\n" + b;
            OccursAt(out, u, i) <==> (i == 0 && u <= a) || (i == |out| - |b| && u <= b)
  {
    var out := a + "\n" + d + "\n" + b;
    var close := |out| - |b|;
    assert out[0..] == out && out[close..] == b;
    if i == 0 {
      if |a| < |u| <= |out| {
        assert out[|a|] == '\n' != u[|a|];
      } else if |u| <= |a| {
        assert out[..|u|] == a[..|u|];
      }
    } else if |a| < i < close - 1 {
      var k := i - |a| - 1;
      assert out[i..] == (d + ("\n" + b))[k..];
      DoesNotStraddle(d, "\n" + b, u, k);
    } else if 0 < i < |out| && i != close {
      assert out[i..][0] == out[i] != '<' == u[0];
    }
  }

  lemma DefangedHasNoTags(evidence: string)
    ensures Absent(Defang(evidence), OPEN) && Absent(Defang(evidence), CLOSE)
  {
    ReplaceCreatesNone(evidence, OPEN, DEFANGED_OPEN, OPEN);
    ReplaceCreatesNone(Replace(evidence, OPEN, DEFANGED_OPEN), CLOSE, DEFANGED_CLOSE, OPEN);
    ReplaceCreatesNone(Replace(evidence, OPEN, DEFANGED_OPEN), CLOSE, DEFANGED_CLOSE, CLOSE);
  }

  /** Whatever the evidence, the open tag occurs once, at the start, and the close tag
      once, at the end. */
  lemma FencedExactlyOnce(evidence: string)
    ensures forall i :: OccursAt(FenceEvidence(evidence), OPEN, i) <==> i == 0
    ensures forall i :: OccursAt(FenceEvidence(evidence), CLOSE, i) <==> i == |FenceEvidence(evidence)| - |CLOSE|
  {
    hide Defang, Absent;
    DefangedHasNoTags(evidence);
    assert OPEN[1] == 'r' && CLOSE[1] == '/';
    forall i ensures OccursAt(FenceEvidence(evidence), OPEN, i) <==> i == 0 {
      OnlyAtTheFence(OPEN, Defang(evidence), CLOSE, OPEN, i);
    }
    forall i ensures OccursAt(FenceEvidence(evidence), CLOSE, i) <==> i == |FenceEvidence(evidence)| - |CLOSE| {
      OnlyAtTheFence(OPEN, Defang(evidence), CLOSE, CLOSE, i);
    }
  }

  /** Evidence is altered only if it holds a tag. */
  lemma UnchangedIff(evidence: string)
    ensures Defang(evidence) == evidence <==> Absent(evidence, OPEN) && Absent(evidence, CLOSE)
  {
    DefangedHasNoTags(evidence);
    if Absent(evidence, OPEN) && Absent(evidence, CLOSE) {
      ReplaceOfAbsent(evidence, OPEN, DEFANGED_OPEN);
      ReplaceOfAbsent(evidence, CLOSE, DEFANGED_CLOSE);
    }
  }

  // ---------------------------------------------------------------- and everything else is kept

  lemma {:induction false} ReplaceSkips(w: string, v: string, target: string, marker: string)
    requires target != [] && target[0] !in w
    ensures Replace(w + v, target, marker) == w + Replace(v, target, marker)
  {
    if w == [] {
      assert w + v == v;
    } else {
      assert (w + v)[0] == w[0] && (w + v)[1..] == w[1..] + v;
      ReplaceSkips(w[1..], v, target, marker);
    }
  }

  /** `target` occurs neither in `m` nor across its beginning or end. */
  predicate Apart(m: string, target: string) {
    && m != [] && target != [] && m[0] !in target[1..] && target[0] !in m[1..]
    && exists d :: 0 <= d < |m| && d < |target| && m[d] != target[d]
  }

  lemma NotAtStart(u: string, m: string, v: string, target: string)
    requires target != [] && m != [] && m[0] !in target[1..] && !(target <= u)
    requires u != []
    ensures !(target <= u + m + v)
  {
    var s := u + m + v;
    assert s[|u|] == m[0];
    assert |target| <= |u| ==> s[..|target|] == u[..|target|];
    assert |u| < |target| ==> target[1..][|u| - 1] == target[|u|];
  }

  lemma ReplaceAtStart(rest: string, target: string, marker: string)
    requires target != []
    ensures Replace(target + rest, target, marker) == marker + Replace(rest, target, marker)
  {
    assert (target + rest)[|target|..] == rest;
  }

  lemma ReplaceNotAtStart(c: char, rest: string, target: string, marker: string)
    requires target != [] && !(target <= [c] + rest)
    ensures Replace([c] + rest, target, marker) == [c] + Replace(rest, target, marker)
  {
    assert ([c] + rest)[1..] == rest;
  }

  /** What happens at the front of `u` happens there whatever clear text follows. */
  lemma FrontIsAlone(u: string, m: string, v: string, target: string, marker: string) returns (head: string, n: nat)
    requires target != [] && m != [] && m[0] !in target[1..] && u != []
    ensures 0 < n <= |u|
    ensures Replace(u, target, marker) == head + Replace(u[n..], target, marker)
    ensures Replace(u + m + v, target, marker) == head + Replace(u[n..] + m + v, target, marker)
  {
    hide Replace;
    if target <= u {
      head, n := marker, |target|;
      assert u == target + u[n..] && u + m + v == target + (u[n..] + m + v);
      ReplaceAtStart(u[n..], target, marker);
      ReplaceAtStart(u[n..] + m + v, target, marker);
    } else {
      head, n := [u[0]], 1;
      NotAtStart(u, m, v, target);
      assert u == head + u[1..] && u + m + v == head + (u[1..] + m + v);
      ReplaceNotAtStart(u[0], u[1..], target, marker);
      ReplaceNotAtStart(u[0], u[1..] + m + v, target, marker);
    }
  }

  lemma Regroup(h: string, x: string, y: string, z: string)
    ensures h + (x + y + z) == h + x + y + z
  {
  }

  lemma NothingBefore(m: string, v: string, target: string, marker: string)
    requires target != []
    ensures [] + m + v == m + v && Replace([], target, marker) == []
  {
  }

  lemma ClearAtStart(m: string, v: string, target: string, marker: string)
    requires Apart(m, target)
    ensures Replace(m + v, target, marker) == m + Replace(v, target, marker)
  {
    hide Replace;
    var d :| 0 <= d < |m| && d < |target| && m[d] != target[d];
    assert (m + v)[d] == m[d];
    assert m + v == [m[0]] + (m[1..] + v) && [m[0]] + m[1..] == m;
    ReplaceNotAtStart(m[0], m[1..] + v, target, marker);
    ReplaceSkips(m[1..], v, target, marker);
  }

  /** Text that a target stays clear of is kept, and splits the replacement. */
  lemma {:induction false} ReplaceAround(u: string, m: string, v: string, target: string, marker: string)
    requires Apart(m, target)
    ensures Replace(u + m + v, target, marker) == Replace(u, target, marker) + m + Replace(v, target, marker)
    decreases |u|
  {
    hide Replace;
    if u == [] {
      NothingBefore(m, v, target, marker);
      ClearAtStart(m, v, target, marker);
    } else {
      var head, n := FrontIsAlone(u, m, v, target, marker);
      ReplaceAround(u[n..], m, v, target, marker);
      Regroup(head, Replace(u[n..], target, marker), m, Replace(v, target, marker));
    }
  }

  /** A target that cannot overlap itself is replaced where it stands. */
  lemma {:induction false} ReplaceThere(u: string, v: string, target: string, marker: string)
    requires target != [] && target[0] !in target[1..]
    ensures Replace(u + target + v, target, marker) == Replace(u, target, marker) + marker + Replace(v, target, marker)
    decreases |u|
  {
    hide Replace;
    if u == [] {
      NothingBefore(target, v, target, marker);
      ReplaceAtStart(v, target, marker);
    } else {
      var head, n := FrontIsAlone(u, target, v, target, marker);
      ReplaceThere(u[n..], v, target, marker);
      Regroup(head, Replace(u[n..], target, marker), marker, Replace(v, target, marker));
    }
  }

  lemma OpenIsTag()
    ensures OPEN[0] == '<' && '<' !in OPEN[1..] && OPEN[1] == 'r'
  {
  }

  lemma CloseIsTag()
    ensures CLOSE[0] == '<' && '<' !in CLOSE[1..] && CLOSE[1] == '/'
  {
  }

  lemma CloseHasNoBracket()
    ensures '[' !in CLOSE[1..]
  {
  }

  lemma BracketsAreNoTag()
    ensures DEFANGED_OPEN[0] == '[' && '<' !in DEFANGED_OPEN[1..]
  {
  }

  lemma AreApart(m: string, target: string, d: nat)
    requires d < |m| && d < |target| && m[d] != target[d]
    requires m[0] !in target[1..] && target[0] !in m[1..]
    ensures Apart(m, target)
  {
  }

  /** Each tag in the evidence, wherever it stands, becomes the same words in brackets, and
      the text on both sides is what it would be alone. With evidence that holds no tag
      being unchanged, that is all that happens to any evidence. */
  lemma TagsAreDefanged(u: string, v: string)
    ensures Defang(u + "<retrieved_evidence>" + v) == Defang(u) + "[retrieved_evidence]" + Defang(v)
    ensures Defang(u + "</retrieved_evidence>" + v) == Defang(u) + "[/retrieved_evidence]" + Defang(v)
  {
    hide Replace, Apart;
    OpenIsTag();
    CloseIsTag();
    CloseHasNoBracket();
    BracketsAreNoTag();
    AreApart(DEFANGED_OPEN, CLOSE, 0);
    AreApart(CLOSE, OPEN, 1);
    ReplaceThere(u, v, OPEN, DEFANGED_OPEN);
    var x, y := Replace(u, OPEN, DEFANGED_OPEN), Replace(v, OPEN, DEFANGED_OPEN);
    ReplaceAround(x, DEFANGED_OPEN, y, CLOSE, DEFANGED_CLOSE);
    ReplaceAround(u, CLOSE, v, OPEN, DEFANGED_OPEN);
    ReplaceThere(x, y, CLOSE, DEFANGED_CLOSE);
  }

  /** The fence holds the evidence, which is as it was if it holds no tag. */
  lemma FenceHoldsEvidence(evidence: string)
    ensures FenceEvidence(evidence) == "<retrieved_evidence>\n" + Defang(evidence) + "\n</retrieved_evidence>"
    ensures Absent(evidence, OPEN) && Absent(evidence, CLOSE) ==>
              FenceEvidence(evidence) == "<retrieved_evidence>\n" + evidence + "\n</retrieved_evidence>"
  {
    hide Defang, Absent;
    UnchangedIff(evidence);
    assert OPEN + "\n" == "<retrieved_evidence>\n" && "\n" + CLOSE == "\n</retrieved_evidence>";
    assert FenceEvidence(evidence) == (OPEN + "\n") + Defang(evidence) + ("\n" + CLOSE);
  }
}
