/** Sentences, and which of them survive the grounding check. */
module Grounding {
  import opened Text
  import opened Markers

  const GROUNDED := 0.55
  const UNGROUNDED := 0.35

  // ---------------------------------------------------------------- sentences

  predicate Breaks(a: Alphabet, s: string, i: nat) {
    0 < i < |s| && (s[i - 1] == '.' || s[i - 1] == '!' || s[i - 1] == '?') && a.space(s[i])
  }

  /** The first space, from `i` on, that follows a full stop or its like; the end if none. */
  function NextBreak(a: Alphabet, s: string, i: nat): (n: nat)
    requires i <= |s|
    ensures i <= n <= |s| && (n < |s| ==> Breaks(a, s, n))
    ensures forall k :: i <= k < n ==> !Breaks(a, s, k)
    decreases |s| - i
  {
    if i == |s| || Breaks(a, s, i) then i else NextBreak(a, s, i + 1)
  }

  /** Cut at every break, dropping its run of spaces. */
  function Cut(a: Alphabet, s: string): seq<string>
    decreases |s|
  {
    var n := NextBreak(a, s, 0);
    if n == |s| then [s] else [s[..n]] + Cut(a, s[n + Run(a, s[n..], true)..])
  }

  function NonEmpty(parts: seq<string>): seq<string> {
    if parts == [] then []
    else if parts[0] == "" then NonEmpty(parts[1..])
    else [parts[0]] + NonEmpty(parts[1..])
  }

  function SplitSentences(a: Alphabet, text: string): seq<string> {
    NonEmpty(Cut(a, Strip(a, text)))
  }

  /** Markers and words, sentence by sentence. */
  function MarkersOf(a: Alphabet, parts: seq<string>): seq<nat> {
    if parts == [] then [] else AllMarkers(a, parts[0]) + MarkersOf(a, parts[1..])
  }

  function ContentOf(a: Alphabet, parts: seq<string>): seq<string> {
    if parts == [] then [] else Content(a, parts[0]) + ContentOf(a, parts[1..])
  }

  /** Nothing lies in the empty text. */
  lemma EmptyText(a: Alphabet)
    ensures AllMarkers(a, "") == [] && Content(a, "") == []
  {
  }

  /** No marker straddles the join, and no word is made or lost by it. */
  lemma {:induction false} JoinKeepsMarkersAndWords(a: Alphabet, parts: seq<string>)
    requires a.Valid()
    ensures AllMarkers(a, Join(parts)) == MarkersOf(a, parts)
    ensures Content(a, Join(parts)) == ContentOf(a, parts)
  {
    hide AllMarkers, Content;
    EmptyText(a);
    if |parts| == 1 {
      assert MarkersOf(a, parts[1..]) == [] && ContentOf(a, parts[1..]) == [];
    } else if |parts| > 1 {
      JoinKeepsMarkersAndWords(a, parts[1..]);
      MarkersSplit(a, parts[0], ' ', Join(parts[1..]));
      ContentSplits(a, parts[0], ' ', Join(parts[1..]));
    }
  }

  lemma {:induction false} NonEmptyKeeps(a: Alphabet, parts: seq<string>)
    ensures MarkersOf(a, NonEmpty(parts)) == MarkersOf(a, parts)
    ensures ContentOf(a, NonEmpty(parts)) == ContentOf(a, parts)
  {
    hide AllMarkers, Content;
    EmptyText(a);
    if parts != [] {
      NonEmptyKeeps(a, parts[1..]);
      if parts[0] != "" {
        assert NonEmpty(parts)[1..] == NonEmpty(parts[1..]);
      }
    }
  }

  /** Spaces at the front hold no markers and no words. */
  lemma {:induction false} DropSpaces(a: Alphabet, s: string, k: nat)
    requires a.Valid() && k <= |s| && forall i :: 0 <= i < k ==> a.space(s[i])
    ensures AllMarkers(a, s[k..]) == AllMarkers(a, s) && Content(a, s[k..]) == Content(a, s)
  {
    hide AllMarkers, Content;
    if k == 0 {
      assert s[k..] == s;
    } else {
      EmptyText(a);
      assert s == "" + [s[0]] + s[1..] && s[1..][k - 1..] == s[k..];
      MarkersSplit(a, "", s[0], s[1..]);
      ContentSplits(a, "", s[0], s[1..]);
      DropSpaces(a, s[1..], k - 1);
    }
  }

  lemma {:induction false} StripKeeps(a: Alphabet, s: string)
    requires a.Valid()
    ensures AllMarkers(a, Strip(a, s)) == AllMarkers(a, s) && Content(a, Strip(a, s)) == Content(a, s)
    decreases |s|
  {
    hide AllMarkers, Content;
    if s == [] {
    } else if a.space(s[0]) {
      DropSpaces(a, s, 1);
      StripKeeps(a, s[1..]);
    } else if a.space(s[|s| - 1]) {
      var front := s[..|s| - 1];
      EmptyText(a);
      assert s == front + [s[|s| - 1]] + "";
      MarkersSplit(a, front, s[|s| - 1], "");
      ContentSplits(a, front, s[|s| - 1], "");
      StripKeeps(a, front);
    }
  }

  lemma {:induction false} CutKeeps(a: Alphabet, s: string)
    requires a.Valid()
    ensures MarkersOf(a, Cut(a, s)) == AllMarkers(a, s) && ContentOf(a, Cut(a, s)) == Content(a, s)
    decreases |s|
  {
    hide AllMarkers, Content, Cut, MarkersOf, ContentOf, NextBreak, Run;
    var n := NextBreak(a, s, 0);
    if n == |s| {
      LastPart(a, s);
      OnePart(a, [], s);
    } else {
      var gap := s[n..];
      var rest := s[n + Run(a, gap, true)..];
      BreakKeeps(a, s[..n], gap);
      assert s == s[..n] + gap && gap[Run(a, gap, true)..] == rest;
      CutKeeps(a, rest);
      CutStep(a, s);
      OnePart(a, Cut(a, rest), s[..n]);
    }
  }

  lemma OnePart(a: Alphabet, parts: seq<string>, s: string)
    ensures MarkersOf(a, [s] + parts) == AllMarkers(a, s) + MarkersOf(a, parts)
    ensures ContentOf(a, [s] + parts) == Content(a, s) + ContentOf(a, parts)
    ensures MarkersOf(a, [s]) == AllMarkers(a, s) && ContentOf(a, [s]) == Content(a, s)
  {
    hide AllMarkers, Content;
    assert ([s] + parts)[1..] == parts;
  }

  lemma CutStep(a: Alphabet, s: string)
    requires NextBreak(a, s, 0) < |s|
    ensures var n := NextBreak(a, s, 0);
            Cut(a, s) == [s[..n]] + Cut(a, s[n + Run(a, s[n..], true)..])
  {
    hide NextBreak, Run, Breaks;
  }

  /** Dropping a run of spaces between two texts keeps what each holds. */
  lemma BreakKeeps(a: Alphabet, u: string, gap: string)
    requires a.Valid() && gap != [] && a.space(gap[0])
    ensures AllMarkers(a, u + gap) == AllMarkers(a, u) + AllMarkers(a, gap[Run(a, gap, true)..])
    ensures Content(a, u + gap) == Content(a, u) + Content(a, gap[Run(a, gap, true)..])
  {
    hide AllMarkers, Content;
    var v, run := gap[1..], Run(a, gap, true);
    assert u + gap == u + [gap[0]] + v;
    MarkersSplit(a, u, gap[0], v);
    ContentSplits(a, u, gap[0], v);
    DropSpaces(a, v, run - 1);
    assert v[run - 1..] == gap[run..];
  }

  /** Splitting loses no marker and no word, and keeps their order. */
  lemma SplitKeepsMarkersAndWords(a: Alphabet, text: string)
    requires a.Valid()
    ensures MarkersOf(a, SplitSentences(a, text)) == AllMarkers(a, text)
    ensures ContentOf(a, SplitSentences(a, text)) == Content(a, text)
  {
    StripKeeps(a, text);
    CutKeeps(a, Strip(a, text));
    NonEmptyKeeps(a, Cut(a, Strip(a, text)));
  }

  predicate EndsSentence(s: string) {
    s != [] && (s[|s| - 1] == '.' || s[|s| - 1] == '!' || s[|s| - 1] == '?')
  }

  predicate Unbroken(a: Alphabet, s: string) {
    forall i :: 0 <= i < |s| ==> !Breaks(a, s, i)
  }

  /** No part can be cut further, and every part but the last ends like a sentence. */
  lemma {:induction false} PartsAreWhole(a: Alphabet, s: string)
    ensures var parts := Cut(a, s);
            && parts != []
            && (forall k :: 0 <= k < |parts| ==> Unbroken(a, parts[k]))
            && (forall k :: 0 <= k < |parts| - 1 ==> EndsSentence(parts[k]))
    decreases |s|
  {
    hide Cut;
    var n := NextBreak(a, s, 0);
    PrefixIsUnbroken(a, s, n);
    if n == |s| {
      LastPart(a, s);
    } else {
      CutStep(a, s);
      PartsAreWhole(a, s[n + Run(a, s[n..], true)..]);
    }
  }

  lemma LastPart(a: Alphabet, s: string)
    requires NextBreak(a, s, 0) == |s|
    ensures Cut(a, s) == [s] && s[..|s|] == s
  {
  }

  lemma PrefixIsUnbroken(a: Alphabet, s: string, n: nat)
    requires n <= |s| && forall i :: 0 <= i < n ==> !Breaks(a, s, i)
    ensures Unbroken(a, s[..n])
  {
    forall i | 0 <= i < n ensures !Breaks(a, s[..n], i) {
      assert !Breaks(a, s, i);
    }
  }

  /** The sentences are the parts that are not empty. */
  lemma {:induction false} SentencesAreParts(parts: seq<string>)
    ensures forall p :: p in NonEmpty(parts) <==> p in parts && p != ""
  {
    if parts != [] {
      SentencesAreParts(parts[1..]);
      assert parts == [parts[0]] + parts[1..];
    }
  }

  /** No sentence is empty or holds the end of another, that is, a full stop, an exclamation
      mark or a question mark followed by a space; and only these end a sentence that is not
      the last. */
  lemma SentencesAreWhole(a: Alphabet, text: string, k: nat, i: nat)
    requires k < |SplitSentences(a, text)|
    ensures var s := SplitSentences(a, text)[k];
            && s != ""
            && (0 < i < |s| && s[i - 1] in ".!?" ==> !a.space(s[i]))
            && (k < |SplitSentences(a, text)| - 1 ==> s[|s| - 1] in ".!?")
  {
    hide Unbroken, Cut, Breaks, EndsSentence;
    var parts := Cut(a, Strip(a, text));
    PartsAreWhole(a, Strip(a, text));
    SentencesAreParts(parts);
    FrontEnds(parts, k);
    var s := SplitSentences(a, text)[k];
    assert s in SplitSentences(a, text);
    UnbrokenAt(a, s, i);
  }

  lemma UnbrokenAt(a: Alphabet, s: string, i: nat)
    requires Unbroken(a, s)
    ensures 0 < i < |s| && s[i - 1] in ".!?" ==> !a.space(s[i])
  {
    if 0 < i < |s| {
      assert !Breaks(a, s, i);
      assert ".!?" == ['.', '!', '?'];
    }
  }

  lemma {:induction false} FrontEnds(parts: seq<string>, k: nat)
    requires (forall j :: 0 <= j < |parts| - 1 ==> EndsSentence(parts[j])) && k < |NonEmpty(parts)|
    ensures var s := NonEmpty(parts)[k];
            k < |NonEmpty(parts)| - 1 ==> s != "" && s[|s| - 1] in ".!?"
  {
    var rest := parts[1..];
    if parts[0] == "" {
      assert false;
    } else if k > 0 {
      FrontEnds(rest, k - 1);
    } else if |NonEmpty(parts)| > 1 {
      assert rest != [];
      assert EndsSentence(parts[0]);
      assert ".!?" == ['.', '!', '?'];
    }
  }

  // ---------------------------------------------------------------- grounding

  /** Cosine similarity of a sentence and a chunk, as the embedding model has it. */
  type Similarity = (string, string) -> real

  /** The greatest similarity of `clean` to any chunk. */
  function Best(similarity: Similarity, clean: string, chunks: seq<string>): (m: real)
    requires chunks != []
    ensures forall i :: 0 <= i < |chunks| ==> similarity(clean, chunks[i]) <= m
    ensures exists i :: 0 <= i < |chunks| && similarity(clean, chunks[i]) == m
  {
    var n := |chunks| - 1;
    var last := similarity(clean, chunks[n]);
    if n == 0 then last
    else
      var m := Best(similarity, clean, chunks[..n]);
      if m < last then last
      else
        var k :| 0 <= k < n && similarity(clean, chunks[..n][k]) == m;
        assert similarity(clean, chunks[k]) == m;
        m
  }

  /** Whether sentence `i` survives; `judge` is the model's verdict when asked about it. */
  predicate Survives(a: Alphabet, sentences: seq<string>, i: nat, chunks: seq<string>, similarity: Similarity,
                     judge: nat -> bool)
    requires i < |sentences|
  {
    var clean := StripMarkers(a, sentences[i]);
    && chunks != []
    && clean != ""
    && var best := Best(similarity, clean, chunks);
       best >= GROUNDED || (best > UNGROUNDED && judge(i))
  }

  /** The survivors among the first `n` sentences, by position. */
  function Kept(a: Alphabet, sentences: seq<string>, n: nat, chunks: seq<string>, similarity: Similarity,
                judge: nat -> bool): (ks: seq<nat>)
    requires n <= |sentences|
    ensures forall k :: 0 <= k < |ks| ==> ks[k] < n
  {
    if n == 0 then []
    else Kept(a, sentences, n - 1, chunks, similarity, judge)
         + if Survives(a, sentences, n - 1, chunks, similarity, judge) then [n - 1] else []
  }

  function Pick(sentences: seq<string>, at: seq<nat>): (r: seq<string>)
    requires forall k :: 0 <= k < |at| ==> at[k] < |sentences|
    ensures |r| == |at| && forall k :: 0 <= k < |at| ==> r[k] == sentences[at[k]]
  {
    if at == [] then [] else Pick(sentences, at[..|at| - 1]) + [sentences[at[|at| - 1]]]
  }

  /** The survivors among the first `n` sentences. */
  function Survivors(a: Alphabet, sentences: seq<string>, n: nat, chunks: seq<string>, similarity: Similarity,
                     judge: nat -> bool): seq<string>
    requires n <= |sentences|
  {
    Pick(sentences, Kept(a, sentences, n, chunks, similarity, judge))
  }

  lemma SurvivorsStep(a: Alphabet, sentences: seq<string>, n: nat, chunks: seq<string>, similarity: Similarity,
                      judge: nat -> bool)
    requires n < |sentences|
    ensures Survivors(a, sentences, n + 1, chunks, similarity, judge) ==
              if Survives(a, sentences, n, chunks, similarity, judge)
              then Survivors(a, sentences, n, chunks, similarity, judge) + [sentences[n]]
              else Survivors(a, sentences, n, chunks, similarity, judge)
    ensures Survivors(a, sentences, 0, chunks, similarity, judge) == []
  {
    hide Survives;
    var ks := Kept(a, sentences, n, chunks, similarity, judge);
    assert (ks + [n])[..|ks|] == ks && ks + [] == ks;
  }

  /** Text besides markers, and a chunk close enough, or close enough for the judge. */
  ghost predicate Supported(a: Alphabet, sentence: string, judged: bool, chunks: seq<string>, similarity: Similarity) {
    var clean := StripMarkers(a, sentence);
    && clean != ""
    && ((exists c <- chunks :: similarity(clean, c) >= 0.55)
        || (judged && exists c <- chunks :: similarity(clean, c) > 0.35))
  }

  /** The survivors are in the original order, and are exactly the supported sentences. */
  lemma {:induction false} KeptExactly(a: Alphabet, sentences: seq<string>, n: nat, chunks: seq<string>,
                                       similarity: Similarity, judge: nat -> bool)
    requires n <= |sentences|
    ensures var ks := Kept(a, sentences, n, chunks, similarity, judge);
            && (forall i, j :: 0 <= i < j < |ks| ==> ks[i] < ks[j])
            && (forall i :: 0 <= i < n ==> (i in ks <==> Supported(a, sentences[i], judge(i), chunks, similarity)))
  {
    hide Survives, Supported, Kept;
    KeptStep(a, sentences, n, chunks, similarity, judge);
    if n > 0 {
      var front := Kept(a, sentences, n - 1, chunks, similarity, judge);
      KeptExactly(a, sentences, n - 1, chunks, similarity, judge);
      SurvivesIff(a, sentences, n - 1, chunks, similarity, judge);
      if Survives(a, sentences, n - 1, chunks, similarity, judge) {
        AppendIncreases(front, n - 1);
      } else {
        assert n - 1 !in front;
      }
    }
  }

  lemma KeptStep(a: Alphabet, sentences: seq<string>, n: nat, chunks: seq<string>, similarity: Similarity,
                 judge: nat -> bool)
    requires n <= |sentences|
    ensures Kept(a, sentences, n, chunks, similarity, judge) ==
              if n == 0 then []
              else
                var front := Kept(a, sentences, n - 1, chunks, similarity, judge);
                if Survives(a, sentences, n - 1, chunks, similarity, judge) then front + [n - 1] else front
  {
    hide Survives;
  }

  /** A larger last element. */
  lemma AppendIncreases(ks: seq<nat>, n: nat)
    requires forall i, j :: 0 <= i < j < |ks| ==> ks[i] < ks[j]
    requires forall i :: 0 <= i < |ks| ==> ks[i] < n
    ensures forall i, j :: 0 <= i < j < |ks + [n]| ==> (ks + [n])[i] < (ks + [n])[j]
    ensures n !in ks && n in ks + [n] && forall i :: i != n ==> (i in ks + [n] <==> i in ks)
  {
  }

  lemma SurvivesIff(a: Alphabet, sentences: seq<string>, i: nat, chunks: seq<string>, similarity: Similarity,
                    judge: nat -> bool)
    requires i < |sentences|
    ensures Survives(a, sentences, i, chunks, similarity, judge) <==>
            Supported(a, sentences[i], judge(i), chunks, similarity)
  {
    hide StripMarkers;
    if chunks != [] {
      var clean := StripMarkers(a, sentences[i]);
      var best := Best(similarity, clean, chunks);
      var k :| 0 <= k < |chunks| && similarity(clean, chunks[k]) == best;
      assert chunks[k] in chunks;
    }
  }

  method MaxSimilarity(similarity: Similarity, clean: string, chunks: seq<string>) returns (best: real)
    requires chunks != []
    ensures best == Best(similarity, clean, chunks)
  {
    best := similarity(clean, chunks[0]);
    for j := 1 to |chunks|
      invariant best == Best(similarity, clean, chunks[..j])
    {
      assert chunks[..j + 1][..j] == chunks[..j];
      if best < similarity(clean, chunks[j]) {
        best := similarity(clean, chunks[j]);
      }
    }
    assert chunks[..|chunks|] == chunks;
  }

  /** The sentences that are grounded in the chunks. */
  method VerifyGrounding(a: Alphabet, sentences: seq<string>, chunks: seq<string>, similarity: Similarity,
                         judge: nat -> bool)
    returns (grounded: seq<string>)
    ensures grounded == Survivors(a, sentences, |sentences|, chunks, similarity, judge)
  {
    hide StripMarkers, Survivors, Best;
    if sentences == [] || chunks == [] {
      NoneSurvive(a, sentences, |sentences|, chunks, similarity, judge);
      return [];
    }
    grounded := [];
    SurvivorsStep(a, sentences, 0, chunks, similarity, judge);
    for i := 0 to |sentences|
      invariant grounded == Survivors(a, sentences, i, chunks, similarity, judge)
    {
      SurvivorsStep(a, sentences, i, chunks, similarity, judge);
      var clean := StripMarkers(a, sentences[i]);
      if clean == "" {
        continue;
      }
      var best := MaxSimilarity(similarity, clean, chunks);
      if best >= GROUNDED {
        grounded := grounded + [sentences[i]];
      } else if best > UNGROUNDED {
        if judge(i) {
          grounded := grounded + [sentences[i]];
        }
      }
    }
  }

  lemma NoneYet(a: Alphabet, sentences: seq<string>, chunks: seq<string>, similarity: Similarity, judge: nat -> bool)
    ensures Survivors(a, sentences, 0, chunks, similarity, judge) == []
  {
  }

  lemma {:induction false} NoneSurvive(a: Alphabet, sentences: seq<string>, n: nat, chunks: seq<string>,
                                       similarity: Similarity, judge: nat -> bool)
    requires n <= |sentences| && (n == 0 || chunks == [])
    ensures Survivors(a, sentences, n, chunks, similarity, judge) == []
  {
    hide Survivors, Best, StripMarkers;
    if n == 0 {
      NoneYet(a, sentences, chunks, similarity, judge);
    } else {
      NoneSurvive(a, sentences, n - 1, chunks, similarity, judge);
      SurvivorsStep(a, sentences, n - 1, chunks, similarity, judge);
    }
  }
}
