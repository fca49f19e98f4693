/**
The Answer Agent: sufficiency check, generation, grounding, citations, and the node that
retries them. What the models say is given; an attempt in which one of them fails raises.
 */
module AnswerNode {
  import opened Wrappers
  import opened Text
  import opened Markers
  import opened Grounding
  import opened Citations
  import opened Retry

  const NO_ANSWER_MARKER := "NO_ANSWER"
  const INSUFFICIENT_GROUNDING_MESSAGE :=
    "I don't have enough grounded information from the available sources to answer this confidently."

  datatype Verdict = Sufficient | Partial | Insufficient
  datatype Reason = SufficiencyInsufficient | SufficiencyPartial | ModelDeclined | GroundingFailed

  datatype AnswerOutcome =
    | Answered(text: string, citations: seq<Citation>)
    | NoAnswer(reason: Reason)

  /** What the models answer in one attempt: the sufficiency verdict, the draft, and the
      grounding oracles. */
  datatype Models = Models(verdict: Verdict, raw: string, similarity: Similarity, judge: nat -> bool)

  function Contents(chunks: seq<Chunk>): seq<string> {
    seq(|chunks|, i requires 0 <= i < |chunks| => chunks[i].content)
  }

  /** The sentences of the draft that reach the caller. */
  function Delivered(a: Alphabet, chunks: seq<Chunk>, m: Models): seq<string> {
    var sentences := SplitSentences(a, m.raw);
    Survivors(a, sentences, |sentences|, Contents(chunks), m.similarity, m.judge)
  }

  function OutcomeOf(a: Alphabet, chunks: seq<Chunk>, m: Models): AnswerOutcome {
    match m.verdict
    case Partial => NoAnswer(SufficiencyPartial)
    case Insufficient => NoAnswer(SufficiencyInsufficient)
    case Sufficient =>
      if Strip(a, m.raw) == NO_ANSWER_MARKER then NoAnswer(ModelDeclined)
      else
        var delivered := Delivered(a, chunks, m);
        if delivered == [] then NoAnswer(GroundingFailed)
        else
          var text := Join(delivered);
          Answered(StripMarkers(a, text), Cite(CitedBy(a, text, |chunks|), chunks))
  }

  method GenerateAnswerWithOutcome(a: Alphabet, chunks: seq<Chunk>, m: Models) returns (outcome: AnswerOutcome)
    ensures outcome == OutcomeOf(a, chunks, m)
  {
    hide Survivors, StripMarkers, Join, CitedBy, Cite, SplitSentences, Strip;
    if m.verdict != Sufficient {
      return NoAnswer(if m.verdict == Partial then SufficiencyPartial else SufficiencyInsufficient);
    }
    if Strip(a, m.raw) == NO_ANSWER_MARKER {
      return NoAnswer(ModelDeclined);
    }
    var sentences := SplitSentences(a, m.raw);
    var grounded := VerifyGrounding(a, sentences, Contents(chunks), m.similarity, m.judge);
    if grounded == [] {
      return NoAnswer(GroundingFailed);
    }
    var text := Join(grounded);
    var citations := BuildCitations(a, text, chunks);
    return Answered(StripMarkers(a, text), citations);
  }

  /** Every answer, whatever the models say: its text is the words of the surviving
      sentences, and its citations are the chunks that a surviving sentence cites, each
      once, in the order of first mention. */
  lemma AnswerIsGrounded(a: Alphabet, chunks: seq<Chunk>, m: Models)
    requires a.Valid() && OutcomeOf(a, chunks, m).Answered?
    ensures var delivered := Delivered(a, chunks, m);
            var cited := CitedBy(a, Join(delivered), |chunks|);
            && m.verdict == Sufficient && Strip(a, m.raw) != NO_ANSWER_MARKER && delivered != []
            && OutcomeOf(a, chunks, m).text == Join(ContentOf(a, delivered))
            && OutcomeOf(a, chunks, m).citations == Cite(cited, chunks)
            && (forall n: nat :: n in cited <==> 1 <= n <= |chunks| && exists s <- delivered :: n in AllMarkers(a, s))
            && (forall n <- cited :: n in MarkersOf(a, delivered))
            && (forall i, j :: 0 <= i < j < |cited| ==>
                  && cited[i] != cited[j]
                  && FirstAt(MarkersOf(a, delivered), cited[i]) < FirstAt(MarkersOf(a, delivered), cited[j]))
  {
    hide StripMarkers, Survivors, CitedBy, Cite, SplitSentences, Strip, AllMarkers;
    var delivered := Delivered(a, chunks, m);
    CitedByJoined(a, delivered, |chunks|);
    StripMarkersIsContent(a, Join(delivered));
    JoinKeepsMarkersAndWords(a, delivered);
  }

  /** Why there is no answer, exactly: the verdict, the model's own word for having none, or
      that no sentence of the draft is supported. */
  lemma DeclinesIff(a: Alphabet, chunks: seq<Chunk>, m: Models)
    ensures var outcome := OutcomeOf(a, chunks, m);
            var sentences := SplitSentences(a, m.raw);
            && (outcome == NoAnswer(SufficiencyPartial) <==> m.verdict == Partial)
            && (outcome == NoAnswer(SufficiencyInsufficient) <==> m.verdict == Insufficient)
            && (outcome == NoAnswer(ModelDeclined) <==> m.verdict == Sufficient && Strip(a, m.raw) == "NO_ANSWER")
            && (outcome == NoAnswer(GroundingFailed) <==>
                  && m.verdict == Sufficient && Strip(a, m.raw) != "NO_ANSWER"
                  && forall i :: 0 <= i < |sentences| ==>
                       !Supported(a, sentences[i], m.judge(i), Contents(chunks), m.similarity))
  {
    hide StripMarkers, Join, CitedBy, Cite, SplitSentences, Strip, Supported, Kept;
    var sentences := SplitSentences(a, m.raw);
    var ks := Kept(a, sentences, |sentences|, Contents(chunks), m.similarity, m.judge);
    KeptExactly(a, sentences, |sentences|, Contents(chunks), m.similarity, m.judge);
    assert |Delivered(a, chunks, m)| == |ks|;
    if ks != [] {
      assert ks[0] in ks;
    }
  }

  /** Every delivered sentence is one of the draft's, says something besides its markers,
      and has a retrieved chunk above the lower threshold. */
  lemma DeliveredIsSupported(a: Alphabet, chunks: seq<Chunk>, m: Models, k: nat)
    requires k < |Delivered(a, chunks, m)|
    ensures var s := Delivered(a, chunks, m)[k];
            && s in SplitSentences(a, m.raw) && StripMarkers(a, s) != ""
            && exists c <- chunks :: m.similarity(StripMarkers(a, s), c.content) > 0.35
  {
    hide StripMarkers, SplitSentences;
    var sentences := SplitSentences(a, m.raw);
    var texts := Contents(chunks);
    KeptExactly(a, sentences, |sentences|, texts, m.similarity, m.judge);
    var i := Kept(a, sentences, |sentences|, texts, m.similarity, m.judge)[k];
    var s := sentences[i];
    assert Supported(a, s, m.judge(i), texts, m.similarity);
    var t :| t in texts && m.similarity(StripMarkers(a, s), t) > 0.35;
    var n :| 0 <= n < |texts| && texts[n] == t;
    assert chunks[n] in chunks;
  }

  /** If no sentence is dropped, the caller gets the draft without its markers, and all of
      the draft's citations. */
  lemma NothingDropped(a: Alphabet, chunks: seq<Chunk>, m: Models)
    requires a.Valid() && OutcomeOf(a, chunks, m).Answered?
    requires Delivered(a, chunks, m) == SplitSentences(a, m.raw)
    ensures OutcomeOf(a, chunks, m) == Answered(StripMarkers(a, m.raw), Cite(CitedBy(a, m.raw, |chunks|), chunks))
  {
    hide StripMarkers, Survivors, Cite, SplitSentences, Strip, AllMarkers, Content;
    var sentences := SplitSentences(a, m.raw);
    SplitKeepsMarkersAndWords(a, m.raw);
    JoinKeepsMarkersAndWords(a, sentences);
    StripMarkersIsContent(a, Join(sentences));
    StripMarkersIsContent(a, m.raw);
  }

  // ---------------------------------------------------------------- the node

  datatype AskResponse = AskResponse(confidence: real, answer: string, answered: bool, citations: seq<Citation>)

  function InsufficientResult(confidence: Option<real>): AskResponse {
    AskResponse(confidence.GetOr(0.0), INSUFFICIENT_GROUNDING_MESSAGE, false, [])
  }

  /** One attempt as the retry helper sees it: raising where a model fails or the outcome
      is no answer. */
  function Verified(a: Alphabet, chunks: seq<Chunk>, attempt: Option<Models>): Option<(string, seq<Citation>)> {
    match attempt
    case None => None
    case Some(m) =>
      var outcome := OutcomeOf(a, chunks, m);
      if outcome.Answered? then Some((outcome.text, outcome.citations)) else None
  }

  /** Attempt `i` yields an answer. */
  predicate Answers(a: Alphabet, chunks: seq<Chunk>, attempts: nat -> Option<Models>, i: nat) {
    attempts(i).Some? && OutcomeOf(a, chunks, attempts(i).value).Answered?
  }

  lemma VerifiedIff(a: Alphabet, chunks: seq<Chunk>, attempts: nat -> Option<Models>, i: nat)
    ensures Verified(a, chunks, attempts(i)).Some? <==> Answers(a, chunks, attempts, i)
    ensures Answers(a, chunks, attempts, i) ==>
              && attempts(i).Some?
              && var o := OutcomeOf(a, chunks, attempts(i).value);
                 o.Answered? && Verified(a, chunks, attempts(i)).value == (o.text, o.citations)
  {
    hide OutcomeOf;
  }

  /** `r` is the answer of attempt `i`, which is the first that has one. */
  ghost predicate IsFirstAnswer(a: Alphabet, chunks: seq<Chunk>, attempts: nat -> Option<Models>, i: nat,
                                confidence: Option<real>, r: AskResponse) {
    && i < 3 && Answers(a, chunks, attempts, i)
    && (forall j :: 0 <= j < i ==> !Answers(a, chunks, attempts, j))
    && var o := OutcomeOf(a, chunks, attempts(i).value);
       r == AskResponse(confidence.GetOr(0.0), o.text, true, o.citations)
  }

  /** The node answers exactly if one of its first three attempts does, with the first such
      answer unaltered; otherwise, and without any call when nothing was retrieved, it says
      it has too little information and cites nothing. */
  method AnswerAgentNode(a: Alphabet, chunks: seq<Chunk>, confidence: Option<real>,
                         attempts: nat -> Option<Models>, retryCount: RetryCount)
    returns (r: AskResponse)
    modifies retryCount
    ensures r.answered <==> chunks != [] && exists i :: 0 <= i < 3 && Answers(a, chunks, attempts, i)
    ensures r.confidence == (match confidence case Some(c) => c case None => 0.0)
    ensures !r.answered ==>
      && r.citations == []
      && r.answer ==
         "I don't have enough grounded information from the available sources to answer this confidently."
    ensures r.answered ==> exists i :: IsFirstAnswer(a, chunks, attempts, i, confidence, r)
    ensures chunks == [] ==> retryCount.counts == old(retryCount.counts)
  {
    hide OutcomeOf, Verified, Answers;
    if chunks == [] {
      return InsufficientResult(confidence);
    }
    var operation := (i: nat) => Verified(a, chunks, attempts(i));
    forall i: nat ensures operation(i).Some? <==> Answers(a, chunks, attempts, i) {
      VerifiedIff(a, chunks, attempts, i);
    }
    var generated, calls := CallWithRetry("answer_agent.generate", operation, retryCount);
    if generated.None? {
      return InsufficientResult(confidence);
    }
    r := AskResponse(confidence.GetOr(0.0), generated.value.0, true, generated.value.1);
    VerifiedIff(a, chunks, attempts, calls - 1);
    assert IsFirstAnswer(a, chunks, attempts, calls - 1, confidence, r);
  }
}
