/**
The review of an investigation: a structural check and a semantic critique of the
hypotheses, at most one revision, and one more check and critique of that.
 */
module Review {
  import opened Wrappers
  import opened Text
  import opened Retry
  import opened Hypotheses
  import opened Critique

  datatype Status = NotReviewed | Reviewed | ReviewFailed

  datatype ReviewOutcome = ReviewOutcome(
    draft: Draft,
    status: Status,
    verdict: Option<Verdict>,
    revisionCount: nat,
    issues: seq<string>)

  const REJECTED_NEXT_STEPS := [
    "Automated critique found the generated hypothesis/hypotheses "
    + "insufficiently supported by the available evidence. Recommend manual "
    + "investigation of the evidence listed below."
  ]

  const NO_HYPOTHESES := "revision_produced_no_hypotheses"

  /** The models' replies, attempt by attempt, as parsed JSON: `None` where a call fails or
      its reply does not parse. */
  datatype Replies = Replies(critique: nat -> Option<Json>, revision: nat -> Option<Json>,
                             recritique: nat -> Option<Json>)

  /** What a review is given: the references of the evidence, and the draft to judge. */
  datatype Case = Case(evidence: seq<string>, draft: Draft)

  function Known(evidence: seq<string>): set<string> {
    set r | r in evidence
  }

  function Critiquing(a: Alphabet, known: set<string>, replies: nat -> Option<Json>): Operation<Semantic> {
    (i: nat) => match replies(i)
      case None => None
      case Some(j) => ValidateCritiqueResult(a, j, known)
  }

  function Revising(a: Alphabet, known: set<string>, replies: nat -> Option<Json>): Operation<Draft> {
    (i: nat) => match replies(i)
      case None => None
      case Some(j) => GenerateHypotheses(a, j, known)
  }

  function Issues(hs: seq<Hypothesis>, evidence: seq<string>, c: Settings): seq<string> {
    StructuralIssues(hs, |hs|, |evidence|, c)
  }

  predicate ForcedReject(issues: seq<string>, count: nat) {
    INSUFFICIENT in issues || count == 0
  }

  function Rejected(issues: seq<string>, revisionCount: nat): ReviewOutcome {
    ReviewOutcome(Draft([], None, REJECTED_NEXT_STEPS), Reviewed, Some(Reject), revisionCount, issues)
  }

  function Accepted(judged: Draft, semantic: Semantic, issues: seq<string>, revisionCount: nat,
                    tags: seq<string>): ReviewOutcome {
    var overconfident := Indices(issues).GetOr({});
    ReviewOutcome(judged.(hypotheses := Adjusted(judged.hypotheses, overconfident, semantic.unsupported)),
                  Reviewed, Some(Accept), revisionCount, tags)
  }

  /** The second pass, on the revised draft. */
  function SecondPass(a: Alphabet, c: Settings, evidence: seq<string>, revised: Draft, tags: seq<string>,
                      recritique: nat -> Option<Json>): ReviewOutcome {
    var issues := Issues(revised.hypotheses, evidence, c);
    if ForcedReject(issues, |revised.hypotheses|) then Rejected(tags + issues, 1)
    else
      match Outcome(Critiquing(a, Known(evidence), recritique))
      case None => ReviewOutcome(revised, ReviewFailed, Some(Revise), 1, tags + issues)
      case Some(semantic) =>
        var all := IssueTags(issues, semantic) + tags;
        if semantic.verdict != Accept then Rejected(all, 1)
        else Accepted(revised, semantic, issues, 1, all)
  }

  /** What follows a first verdict of "revise". */
  function Revision(a: Alphabet, c: Settings, k: Case, tags: seq<string>, replies: Replies): ReviewOutcome {
    match Outcome(Revising(a, Known(k.evidence), replies.revision))
    case None => ReviewOutcome(k.draft, ReviewFailed, Some(Revise), 0, tags)
    case Some(revised) =>
      if revised.hypotheses == [] then Rejected(tags + [NO_HYPOTHESES], 1)
      else SecondPass(a, c, k.evidence, revised, tags, replies.recritique)
  }

  function ReviewOf(a: Alphabet, c: Settings, k: Case, replies: Replies): ReviewOutcome {
    if !c.enabled || k.draft.hypotheses == [] then ReviewOutcome(k.draft, NotReviewed, None, 0, [])
    else
      var issues := Issues(k.draft.hypotheses, k.evidence, c);
      if ForcedReject(issues, |k.draft.hypotheses|) then Rejected(issues, 0)
      else
        match Outcome(Critiquing(a, Known(k.evidence), replies.critique))
        case None => ReviewOutcome(k.draft, ReviewFailed, None, 0, issues)
        case Some(semantic) =>
          var tags := IssueTags(issues, semantic);
          match semantic.verdict
          case Reject => Rejected(tags, 0)
          case Accept => Accepted(k.draft, semantic, issues, 0, tags)
          case Revise => Revision(a, c, k, tags, replies)
  }

  // ---------------------------------------------------------------- as the code does it

  /** What a review has cost: critiques, revisions, and model calls, retries included. */
  datatype Cost = Cost(critiques: nat, revisions: nat, calls: nat)

  method Penalise(judged: Draft, issues: seq<string>, semantic: Semantic, evidence: seq<string>, c: Settings,
                  revisionCount: nat, tags: seq<string>) returns (r: ReviewOutcome)
    requires issues == Issues(judged.hypotheses, evidence, c)
    ensures r == Accepted(judged, semantic, issues, revisionCount, tags)
  {
    TagsReadBack(judged.hypotheses, |judged.hypotheses|, |evidence|, c);
    var adjusted := ApplyPenalties(judged.hypotheses, issues, semantic);
    return ReviewOutcome(judged.(hypotheses := adjusted.value), Reviewed, Some(Accept), revisionCount, tags);
  }

  /** The review, with at most two critiques, one revision and nine model calls; none at
      all if it is switched off, there is nothing to judge, or too little evidence. */
  method ReviewInvestigation(a: Alphabet, c: Settings, k: Case, replies: Replies, retryCount: RetryCount)
    returns (r: ReviewOutcome, cost: Cost)
    modifies retryCount
    ensures r == ReviewOf(a, c, k, replies)
    ensures cost.critiques <= 2 && cost.revisions <= 1 && cost.critiques <= 1 + cost.revisions
    ensures cost.calls <= 3 * (cost.critiques + cost.revisions) <= 9
    ensures cost.calls == 0 <==> !c.enabled || k.draft.hypotheses == [] || |k.evidence| < c.minEvidenceCount
  {
    hide StructuralIssues, Adjusted, Indices, IssueTags, Critiquing, Revising, Outcome, Attempts;
    cost := Cost(0, 0, 0);
    if !c.enabled || k.draft.hypotheses == [] {
      return ReviewOutcome(k.draft, NotReviewed, None, 0, []), cost;
    }
    var known := Known(k.evidence);
    var issues := ValidateStructurally(k.draft.hypotheses, |k.evidence|, c);
    TagsReadBack(k.draft.hypotheses, |k.draft.hypotheses|, |k.evidence|, c);
    if ForcedReject(issues, |k.draft.hypotheses|) {
      return Rejected(issues, 0), cost;
    }
    var semantic, n :=
      CallWithRetry("investigation_agent.critique", Critiquing(a, known, replies.critique), retryCount);
    cost := Cost(1, 0, n);
    if semantic.None? {
      return ReviewOutcome(k.draft, ReviewFailed, None, 0, issues), cost;
    }
    var tags := IssueTags(issues, semantic.value);
    if semantic.value.verdict == Reject {
      return Rejected(tags, 0), cost;
    }
    if semantic.value.verdict == Accept {
      r := Penalise(k.draft, issues, semantic.value, k.evidence, c, 0, tags);
      return r, cost;
    }
    var revised, m := CallWithRetry("investigation_agent.revision", Revising(a, known, replies.revision), retryCount);
    cost := Cost(1, 1, n + m);
    if revised.None? {
      return ReviewOutcome(k.draft, ReviewFailed, Some(Revise), 0, tags), cost;
    }
    if revised.value.hypotheses == [] {
      return Rejected(tags + [NO_HYPOTHESES], 1), cost;
    }
    var l: nat;
    r, l := ReviewRevision(a, c, k.evidence, revised.value, tags, replies.recritique, retryCount);
    cost := Cost(if l > 0 then 2 else 1, 1, n + m + l);
  }

  method ReviewRevision(a: Alphabet, c: Settings, evidence: seq<string>, revised: Draft, tags: seq<string>,
                        recritique: nat -> Option<Json>, retryCount: RetryCount)
    returns (r: ReviewOutcome, calls: nat)
    modifies retryCount
    ensures r == SecondPass(a, c, evidence, revised, tags, recritique) && calls <= 3
  {
    hide StructuralIssues, Adjusted, Indices, IssueTags, Critiquing, Outcome, Attempts;
    var issues := ValidateStructurally(revised.hypotheses, |evidence|, c);
    if ForcedReject(issues, |revised.hypotheses|) {
      return Rejected(tags + issues, 1), 0;
    }
    var critiquing := Critiquing(a, Known(evidence), recritique);
    var semantic, n := CallWithRetry("investigation_agent.critique_revision", critiquing, retryCount);
    if semantic.None? {
      return ReviewOutcome(revised, ReviewFailed, Some(Revise), 1, tags + issues), n;
    }
    var all := IssueTags(issues, semantic.value) + tags;
    if semantic.value.verdict != Accept {
      return Rejected(all, 1), n;
    }
    r := Penalise(revised, issues, semantic.value, evidence, c, 1, all);
    return r, n;
  }

  // ---------------------------------------------------------------- every run

  function FirstCritique(a: Alphabet, k: Case, replies: Replies): Option<Semantic> {
    Outcome(Critiquing(a, Known(k.evidence), replies.critique))
  }

  function Revised(a: Alphabet, k: Case, replies: Replies): Option<Draft> {
    Outcome(Revising(a, Known(k.evidence), replies.revision))
  }

  function SecondCritique(a: Alphabet, k: Case, replies: Replies): Option<Semantic> {
    Outcome(Critiquing(a, Known(k.evidence), replies.recritique))
  }

  /** The critique succeeded with this verdict. */
  predicate Says(s: Option<Semantic>, v: Verdict) {
    s.Some? && s.value.verdict == v
  }

  /** The statuses: a review is complete exactly if it ends in accept or reject; it does
      not take place exactly if it is switched off or has nothing to judge; a rejection
      carries no hypotheses and no owner; a failed review alters nothing. */
  lemma StatusMeansVerdict(a: Alphabet, c: Settings, k: Case, replies: Replies)
    ensures var r := ReviewOf(a, c, k, replies);
            && (r.status == Reviewed <==> r.verdict == Some(Accept) || r.verdict == Some(Reject))
            && (r.status == NotReviewed <==> !c.enabled || k.draft.hypotheses == [])
            && (r.status == NotReviewed ==> r.draft == k.draft)
            && (r.verdict == Some(Reject) ==> r.draft == Draft([], None, REJECTED_NEXT_STEPS))
            && (r.verdict != Some(Reject) && r.status != NotReviewed ==> r.draft.hypotheses != [])
            && (r.status == ReviewFailed ==>
                  if r.revisionCount == 0 then r.draft == k.draft
                  else Revised(a, k, replies).Some? && r.draft == Revised(a, k, replies).value)
            && r.revisionCount <= 1
  {
    hide StructuralIssues, Adjusted, Indices, IssueTags, Critiquing, Revising, Outcome;
  }

  /** Acceptance, exactly: enough evidence, and either the first critique accepts, or it
      asks for a revision, there is one with hypotheses, and the second critique accepts. */
  lemma AcceptedIff(a: Alphabet, c: Settings, k: Case, replies: Replies)
    ensures ReviewOf(a, c, k, replies).verdict == Some(Accept) <==>
              && c.enabled && k.draft.hypotheses != [] && |k.evidence| >= c.minEvidenceCount
              && (Says(FirstCritique(a, k, replies), Accept)
                  || (Says(FirstCritique(a, k, replies), Revise)
                      && Revised(a, k, replies).Some? && Revised(a, k, replies).value.hypotheses != []
                      && Says(SecondCritique(a, k, replies), Accept)))
  {
    hide StructuralIssues, Adjusted, Indices, IssueTags, Critiquing, Revising, Outcome;
    TagsReadBack(k.draft.hypotheses, |k.draft.hypotheses|, |k.evidence|, c);
    if Revised(a, k, replies).Some? {
      var hs := Revised(a, k, replies).value.hypotheses;
      TagsReadBack(hs, |hs|, |k.evidence|, c);
    }
  }

  /** Enough evidence, and something to judge it by. */
  predicate IsJudged(c: Settings, k: Case) {
    c.enabled && k.draft.hypotheses != [] && |k.evidence| >= c.minEvidenceCount
  }

  /** Rejection, exactly: there is something to judge, and too little evidence, or the first
      critique rejects, or it asks for a revision, which has no hypotheses left or which the
      second critique does not accept either. */
  lemma RejectedIff(a: Alphabet, c: Settings, k: Case, replies: Replies)
    ensures ReviewOf(a, c, k, replies).verdict == Some(Reject) <==>
              && c.enabled && k.draft.hypotheses != []
              && (|| |k.evidence| < c.minEvidenceCount
                  || Says(FirstCritique(a, k, replies), Reject)
                  || (&& Says(FirstCritique(a, k, replies), Revise) && Revised(a, k, replies).Some?
                      && (|| Revised(a, k, replies).value.hypotheses == []
                          || Says(SecondCritique(a, k, replies), Reject)
                          || Says(SecondCritique(a, k, replies), Revise))))
  {
    hide StructuralIssues, Adjusted, Indices, IssueTags, Critiquing, Revising, Outcome;
    TagsReadBack(k.draft.hypotheses, |k.draft.hypotheses|, |k.evidence|, c);
    if Revised(a, k, replies).Some? {
      var hs := Revised(a, k, replies).value.hypotheses;
      TagsReadBack(hs, |hs|, |k.evidence|, c);
    }
  }

  /** Failure, exactly: the first critique never comes, or it asks for a revision and the
      revision, or the critique of a revision with hypotheses, never comes. The verdict is
      then missing, or the first one; and a revision is counted exactly if there is one. */
  lemma FailedIff(a: Alphabet, c: Settings, k: Case, replies: Replies)
    ensures var r := ReviewOf(a, c, k, replies);
            var first, revised, second :=
              FirstCritique(a, k, replies), Revised(a, k, replies), SecondCritique(a, k, replies);
            && (r.status == ReviewFailed <==>
                  && IsJudged(c, k)
                  && (|| first.None?
                      || (Says(first, Revise) && (revised.None? || (revised.value.hypotheses != [] && second.None?)))))
            && (r.status == ReviewFailed ==> r.verdict == (if first.None? then None else Some(Revise)))
            && (r.status == NotReviewed ==> r.verdict == None)
            && (r.revisionCount == 1 <==> IsJudged(c, k) && Says(first, Revise) && revised.Some?)
  {
    hide StructuralIssues, Adjusted, Indices, IssueTags, Critiquing, Revising, Outcome;
    TagsReadBack(k.draft.hypotheses, |k.draft.hypotheses|, |k.evidence|, c);
    if Revised(a, k, replies).Some? {
      var hs := Revised(a, k, replies).value.hypotheses;
      TagsReadBack(hs, |hs|, |k.evidence|, c);
    }
  }

  /** What is reported, exactly: the structural issues of the first draft, what the first
      critique adds, that a revision left no hypotheses, and otherwise the structural issues
      of the revision and what the second critique adds. */
  ghost predicate Reported(a: Alphabet, c: Settings, k: Case, replies: Replies, tag: string) {
    var first, revised := FirstCritique(a, k, replies), Revised(a, k, replies);
    && c.enabled && k.draft.hypotheses != []
    && (|| tag in Issues(k.draft.hypotheses, k.evidence, c)
        || (IsJudged(c, k) && first.Some? && Adds(first.value, tag))
        || (&& IsJudged(c, k) && Says(first, Revise) && revised.Some?
            && if revised.value.hypotheses == [] then tag == "revision_produced_no_hypotheses"
               else || tag in Issues(revised.value.hypotheses, k.evidence, c)
                    || (SecondCritique(a, k, replies).Some? && Adds(SecondCritique(a, k, replies).value, tag))))
  }

  lemma ReportedIff(a: Alphabet, c: Settings, k: Case, replies: Replies, tag: string)
    ensures tag in ReviewOf(a, c, k, replies).issues <==> Reported(a, c, k, replies, tag)
  {
    hide StructuralIssues, Adjusted, Indices, IssueTags, Adds, Critiquing, Revising, Outcome;
    var first, revised, second := FirstCritique(a, k, replies), Revised(a, k, replies), SecondCritique(a, k, replies);
    TagsReadBack(k.draft.hypotheses, |k.draft.hypotheses|, |k.evidence|, c);
    if first.Some? {
      IssueTagsAre(Issues(k.draft.hypotheses, k.evidence, c), first.value, tag);
    }
    if revised.Some? {
      var hs := revised.value.hypotheses;
      TagsReadBack(hs, |hs|, |k.evidence|, c);
      if second.Some? {
        IssueTagsAre(Issues(hs, k.evidence, c), second.value, tag);
      }
    }
  }

  /** Whatever the outcome of a review that takes place, it reports every structural issue
      of the first draft, and of the revised one if there is one to check. */
  lemma IssuesAreReported(a: Alphabet, c: Settings, k: Case, replies: Replies, tag: string)
    requires ReviewOf(a, c, k, replies).status != NotReviewed
    ensures var r := ReviewOf(a, c, k, replies);
            && (tag in Issues(k.draft.hypotheses, k.evidence, c) ==> tag in r.issues)
            && var revised := Revised(a, k, replies).GetOr(k.draft).hypotheses;
               (r.revisionCount == 1 && tag in Issues(revised, k.evidence, c) ==> tag in r.issues || revised == [])
  {
    hide StructuralIssues, Adjusted, Indices, UnsupportedTags, Critiquing, Revising, Outcome;
  }

  /** The draft that was judged last. */
  function Judged(a: Alphabet, k: Case, replies: Replies, revisionCount: nat): Draft {
    if revisionCount == 0 then k.draft else Revised(a, k, replies).GetOr(k.draft)
  }

  function JudgedBy(a: Alphabet, k: Case, replies: Replies, revisionCount: nat): Option<Semantic> {
    if revisionCount == 0 then FirstCritique(a, k, replies) else SecondCritique(a, k, replies)
  }

  /** What acceptance returns: the judged draft, of which nothing is altered but the
      confidence of each overconfident or unsupported hypothesis, lowered by the fixed
      penalties and no further than zero. */
  lemma AcceptOnlyLowers(a: Alphabet, c: Settings, k: Case, replies: Replies)
    requires ReviewOf(a, c, k, replies).verdict == Some(Accept)
    requires AllSound(k.draft.hypotheses, Known(k.evidence))
    ensures var r := ReviewOf(a, c, k, replies);
            var judged := Judged(a, k, replies, r.revisionCount);
            var semantic := JudgedBy(a, k, replies, r.revisionCount);
            && semantic.Some?
            && r.draft.ownerTeam == judged.ownerTeam && r.draft.nextSteps == judged.nextSteps
            && |r.draft.hypotheses| == |judged.hypotheses|
            && AllSound(r.draft.hypotheses, Known(k.evidence))
            && forall i :: 0 <= i < |judged.hypotheses| ==>
                 var h, h' := judged.hypotheses[i], r.draft.hypotheses[i];
                 var overconfident := h.confidence >= c.overconfidenceThreshold
                                      && |h.supportingEvidenceIds| < c.minEvidencePerHypothesis;
                 var penalty := (if overconfident then 0.2 else 0.0)
                                + (if i in semantic.value.unsupported then 0.3 else 0.0);
                 && h' == h.(confidence := h'.confidence)
                 && h'.confidence <= h.confidence
                 && (h'.confidence == h.confidence - penalty || h'.confidence == 0.0 >= h.confidence - penalty)
  {
    hide ReviewOf, StructuralIssues, IssueTags, Sound, AllSound, Adjusted, Flagged;
    var r := ReviewOf(a, c, k, replies);
    var judged := Judged(a, k, replies, r.revisionCount);
    AcceptedIsAdjusted(a, c, k, replies);
    if r.revisionCount != 0 {
      RevisedIsSound(a, k, replies);
    }
    var unsupported := JudgedBy(a, k, replies, r.revisionCount).value.unsupported;
    PenaltiesOnlyLower(judged.hypotheses, c, unsupported, Known(k.evidence));
  }

  lemma AcceptedIsAdjusted(a: Alphabet, c: Settings, k: Case, replies: Replies)
    requires ReviewOf(a, c, k, replies).verdict == Some(Accept)
    ensures var r := ReviewOf(a, c, k, replies);
            var judged := Judged(a, k, replies, r.revisionCount);
            var semantic := JudgedBy(a, k, replies, r.revisionCount);
            && semantic.Some? && (r.revisionCount != 0 ==> Revised(a, k, replies).Some?)
            && r.draft == judged.(hypotheses := Adjusted(judged.hypotheses,
                                                         Flagged(judged.hypotheses, |judged.hypotheses|, c),
                                                         semantic.value.unsupported))
  {
    hide StructuralIssues, Indices, IssueTags, Critiquing, Revising, Outcome, Overconfident, Adjusted, Flagged;
    var judged := Judged(a, k, replies, ReviewOf(a, c, k, replies).revisionCount);
    TagsReadBack(judged.hypotheses, |judged.hypotheses|, |k.evidence|, c);
  }

  lemma RevisedIsSound(a: Alphabet, k: Case, replies: Replies)
    requires Revised(a, k, replies).Some?
    ensures AllSound(Revised(a, k, replies).value.hypotheses, Known(k.evidence))
  {
    hide GenerateHypotheses, AllSound;
    var operation := Revising(a, Known(k.evidence), replies.revision);
    var i := Attempts(operation) - 1;
    assert operation(i) == Revised(a, k, replies);
    GeneratedAreSound(a, replies.revision(i).value, Known(k.evidence));
  }

  lemma PenaltiesOnlyLower(hs: seq<Hypothesis>, c: Settings, unsupported: seq<nat>, known: set<string>)
    requires AllSound(hs, known)
    ensures var r := Adjusted(hs, Flagged(hs, |hs|, c), unsupported);
            && |r| == |hs| && AllSound(r, known)
            && forall i :: 0 <= i < |hs| ==>
                 var penalty := Penalty(Overconfident(hs[i], c), i in unsupported);
                 && r[i] == hs[i].(confidence := r[i].confidence)
                 && r[i].confidence <= hs[i].confidence
                 && (|| r[i].confidence == hs[i].confidence - penalty
                     || r[i].confidence == 0.0 >= hs[i].confidence - penalty)
  {
    hide Overconfident;
    var flagged := Flagged(hs, |hs|, c);
    forall i | 0 <= i < |hs| ensures i in flagged <==> Overconfident(hs[i], c) {
    }
  }
}
