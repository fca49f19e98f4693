/** The checks, tags and penalties of the hypothesis critique. */
module Critique {
  import opened Wrappers
  import opened Decimal
  import opened Text
  import opened Hypotheses

  // ---------------------------------------------------------------- structural validation

  datatype Settings = Settings(enabled: bool, minEvidenceCount: nat, overconfidenceThreshold: real,
                               minEvidencePerHypothesis: nat)

  const INSUFFICIENT := "insufficient_information"
  const OVERCONFIDENT_PREFIX := "overconfidence:hypothesis_"

  predicate Overconfident(h: Hypothesis, c: Settings) {
    h.confidence >= c.overconfidenceThreshold && |h.supportingEvidenceIds| < c.minEvidencePerHypothesis
  }

  /** The issues found up to the `n`-th hypothesis. */
  function StructuralIssues(hs: seq<Hypothesis>, n: nat, evidenceCount: nat, c: Settings): seq<string>
    requires n <= |hs|
  {
    if n == 0 then (if evidenceCount < c.minEvidenceCount then [INSUFFICIENT] else [])
    else
      var front := StructuralIssues(hs, n - 1, evidenceCount, c);
      if Overconfident(hs[n - 1], c) then front + [OVERCONFIDENT_PREFIX + Print(n - 1)] else front
  }

  /** Hypothesis `i` is more confident than its evidence allows, and `tag` says so. */
  predicate Flags(hs: seq<Hypothesis>, i: int, c: Settings, tag: string) {
    && 0 <= i < |hs|
    && hs[i].confidence >= c.overconfidenceThreshold && |hs[i].supportingEvidenceIds| < c.minEvidencePerHypothesis
    && tag == "overconfidence:hypothesis_" + Print(i)
  }

  /** The issues, as they are reported: too little evidence, and each hypothesis that is at
      or above the threshold with fewer citations than are asked for. */
  lemma {:induction false} StructuralTagsAre(hs: seq<Hypothesis>, n: nat, evidenceCount: nat, c: Settings, tag: string)
    requires n <= |hs|
    ensures tag in StructuralIssues(hs, n, evidenceCount, c) <==>
              || (tag == "insufficient_information" && evidenceCount < c.minEvidenceCount)
              || exists i :: 0 <= i < n && Flags(hs, i, c, tag)
  {
    hide Print;
    if n > 0 {
      StructuralTagsAre(hs, n - 1, evidenceCount, c, tag);
      assert Overconfident(hs[n - 1], c) && tag == OVERCONFIDENT_PREFIX + Print(n - 1) <==> Flags(hs, n - 1, c, tag);
    }
  }

  method ValidateStructurally(hs: seq<Hypothesis>, evidenceCount: nat, c: Settings) returns (issues: seq<string>)
    ensures issues == StructuralIssues(hs, |hs|, evidenceCount, c)
  {
    issues := [];
    if evidenceCount < c.minEvidenceCount {
      issues := issues + [INSUFFICIENT];
    }
    for index := 0 to |hs|
      invariant issues == StructuralIssues(hs, index, evidenceCount, c)
    {
      var h := hs[index];
      if h.confidence >= c.overconfidenceThreshold && |h.supportingEvidenceIds| < c.minEvidencePerHypothesis {
        issues := issues + [OVERCONFIDENT_PREFIX + Print(index)];
      }
    }
  }

  // ---------------------------------------------------------------- reading the tags back

  function TagIndex(tag: string): Option<nat> {
    if OVERCONFIDENT_PREFIX <= tag then Parse(tag[|OVERCONFIDENT_PREFIX|..]) else None
  }

  /** The indices in the tags; none where a tag has the prefix and no number. */
  function Indices(issues: seq<string>): Option<set<nat>> {
    if issues == [] then Some({})
    else
      var tag := issues[|issues| - 1];
      match Indices(issues[..|issues| - 1])
      case None => None
      case Some(front) =>
        if !(OVERCONFIDENT_PREFIX <= tag) then Some(front)
        else if TagIndex(tag).Some? then Some(front + {TagIndex(tag).value})
        else None
  }

  method OverconfidentIndices(issues: seq<string>) returns (indices: Option<set<nat>>)
    ensures indices == Indices(issues)
  {
    var found: set<nat> := {};
    for k := 0 to |issues|
      invariant Indices(issues[..k]) == Some(found)
    {
      var tag := issues[k];
      assert issues[..k + 1][..k] == issues[..k];
      if OVERCONFIDENT_PREFIX <= tag {
        var index := Parse(tag[|OVERCONFIDENT_PREFIX|..]);
        if index.None? {
          IndicesStayNone(issues, k + 1, |issues|);
          assert issues[..|issues|] == issues;
          return None;
        }
        found := found + {index.value};
      }
    }
    assert issues[..|issues|] == issues;
    return Some(found);
  }

  lemma {:induction false} IndicesStayNone(issues: seq<string>, m: nat, n: nat)
    requires m <= n <= |issues| && Indices(issues[..m]).None?
    ensures Indices(issues[..n]).None?
  {
    if m < n {
      IndicesStayNone(issues, m, n - 1);
      assert issues[..n][..n - 1] == issues[..n - 1];
    }
  }

  lemma TagReadsBack(n: nat)
    ensures OVERCONFIDENT_PREFIX <= OVERCONFIDENT_PREFIX + Print(n)
    ensures TagIndex(OVERCONFIDENT_PREFIX + Print(n)) == Some(n)
    ensures OVERCONFIDENT_PREFIX + Print(n) != INSUFFICIENT
  {
    PrintParses(n);
    var tag := OVERCONFIDENT_PREFIX + Print(n);
    assert tag[|OVERCONFIDENT_PREFIX|..] == Print(n);
    assert tag[0] == 'o' && INSUFFICIENT[0] == 'i';
  }

  /** The overconfident hypotheses among the first `n`. */
  function Flagged(hs: seq<Hypothesis>, n: nat, c: Settings): set<nat>
    requires n <= |hs|
  {
    set i: nat | i < n && Overconfident(hs[i], c)
  }

  /** The printed tags read back as exactly the overconfident hypotheses, and the other tag
      is there exactly if there is too little evidence. */
  lemma {:induction false} TagsReadBack(hs: seq<Hypothesis>, n: nat, evidenceCount: nat, c: Settings)
    requires n <= |hs|
    ensures Indices(StructuralIssues(hs, n, evidenceCount, c)) == Some(Flagged(hs, n, c))
    ensures INSUFFICIENT in StructuralIssues(hs, n, evidenceCount, c) <==> evidenceCount < c.minEvidenceCount
  {
    hide TagIndex, Print, Overconfident;
    var issues := StructuralIssues(hs, n, evidenceCount, c);
    if n == 0 {
      assert INSUFFICIENT[0] == 'i' && OVERCONFIDENT_PREFIX[0] == 'o';
      assert [INSUFFICIENT][..0] == [];
      assert Flagged(hs, 0, c) == {};
      assert Indices([INSUFFICIENT][..0]) == Some({});
      assert Indices([INSUFFICIENT]) == Some({});
    } else {
      TagsReadBack(hs, n - 1, evidenceCount, c);
      TagReadsBack(n - 1);
      var front := StructuralIssues(hs, n - 1, evidenceCount, c);
      if Overconfident(hs[n - 1], c) {
        assert issues[..|issues| - 1] == front;
        assert Flagged(hs, n, c) == Flagged(hs, n - 1, c) + {n - 1};
      } else {
        assert Flagged(hs, n, c) == Flagged(hs, n - 1, c);
      }
    }
  }

  // ---------------------------------------------------------------- the model's critique

  datatype Verdict = Accept | Revise | Reject

  datatype Note = Note(evidenceIds: seq<string>, detail: string)

  datatype Semantic = Semantic(verdict: Verdict, unsupported: seq<nat>, contradictions: seq<Note>,
                               guidance: Option<string>)

  const MAX_GUIDANCE_CHARS := 500

  /** An observed contradiction: a detail, and two known references or more. */
  function KeptNote(a: Alphabet, entry: Json, known: set<string>): Option<Note> {
    if !entry.Obj? then None
    else
      var ids, detail := entry.Get("evidence_ids"), entry.Get("detail");
      if !ids.Arr? || !detail.Str? || Blank(a, detail.s) then None
      else if |RealIds(ids.items, known)| < 2 then None
      else Some(Note(RealIds(ids.items, known), Strip(a, detail.s)))
  }

  function Notes(a: Alphabet, items: seq<Json>, known: set<string>): seq<Note> {
    if items == [] then []
    else
      var front := Notes(a, items[..|items| - 1], known);
      match KeptNote(a, items[|items| - 1], known)
      case None => front
      case Some(note) => front + [note]
  }

  function NotesOf(a: Alphabet, raw: Json, known: set<string>): seq<Note> {
    if raw.Arr? then Notes(a, raw.items, known) else []
  }

  method FilterContradictions(a: Alphabet, raw: Json, known: set<string>) returns (notes: seq<Note>)
    ensures notes == NotesOf(a, raw, known)
  {
    hide Blank, RealIds, Strip;
    notes := [];
    if !raw.Arr? {
      return;
    }
    for k := 0 to |raw.items|
      invariant notes == Notes(a, raw.items[..k], known)
    {
      var entry := raw.items[k];
      assert raw.items[..k + 1][..k] == raw.items[..k];
      if !entry.Obj? {
        continue;
      }
      var ids, detail := entry.Get("evidence_ids"), entry.Get("detail");
      if !ids.Arr? || !detail.Str? || Blank(a, detail.s) {
        continue;
      }
      var realIds := RealIds(ids.items, known);
      if |realIds| < 2 {
        continue;
      }
      notes := notes + [Note(realIds, Strip(a, detail.s))];
    }
    assert raw.items[..|raw.items|] == raw.items;
  }

  /** No note cites an unknown reference, has fewer than two, or says nothing. */
  lemma {:induction false} NotesAreReal(a: Alphabet, items: seq<Json>, known: set<string>, k: nat)
    requires k < |Notes(a, items, known)|
    ensures var note := Notes(a, items, known)[k];
            && |note.evidenceIds| >= 2 && note.detail != ""
            && forall i :: 0 <= i < |note.evidenceIds| ==> note.evidenceIds[i] in known
  {
    hide Strip;
    var front := items[..|items| - 1];
    if k < |Notes(a, front, known)| {
      NotesAreReal(a, front, known, k);
    }
  }

  /** Two references that differ. */
  predicate NamesTwo(note: Note) {
    exists i, j :: 0 <= i < j < |note.evidenceIds| && note.evidenceIds[i] != note.evidenceIds[j]
  }

  /** A kept note names two different pieces of evidence exactly if the entry did, counting
      only references that are known; the number of references alone does not show it. */
  lemma NamesTwoIff(a: Alphabet, entry: Json, known: set<string>)
    requires KeptNote(a, entry, known).Some?
    ensures NamesTwo(KeptNote(a, entry, known).value) <==>
            exists x <- known, y <- known :: x != y && Str(x) in entry.Get("evidence_ids").items
                                             && Str(y) in entry.Get("evidence_ids").items
  {
    hide Blank, Strip;
    var items := entry.Get("evidence_ids").items;
    var ids := KeptNote(a, entry, known).value.evidenceIds;
    assert ids == RealIds(items, known);
    forall ref ensures ref in ids <==> Str(ref) in items && ref in known {
      RealIdsAre(items, known, ref);
    }
    if x, y :| x in known && y in known && x != y && Str(x) in items && Str(y) in items {
      assert x in ids && y in ids;
      var i :| 0 <= i < |ids| && ids[i] == x;
      var j :| 0 <= j < |ids| && ids[j] == y;
      assert NamesTwo(KeptNote(a, entry, known).value) by {
        assert i < j || j < i;
      }
    }
  }

  /** A note that names one reference twice counts as having two. */
  lemma OneReferenceTwiceIsKept(a: Alphabet, ref: string, detail: string)
    requires !Blank(a, detail)
    ensures var entry := Obj(map["evidence_ids" := Arr([Str(ref), Str(ref)]), "detail" := Str(detail)]);
            Notes(a, [entry], {ref}) == [Note([ref, ref], Strip(a, detail))]
  {
    hide Strip, Blank;
    var items := [Str(ref), Str(ref)];
    var entry := Obj(map["evidence_ids" := Arr(items), "detail" := Str(detail)]);
    assert items[1..] == [Str(ref)] && [Str(ref)][1..] == [];
    assert RealIds([Str(ref)], {ref}) == [ref];
    assert RealIds(items, {ref}) == [ref, ref];
    assert entry.Get("evidence_ids") == Arr(items) && entry.Get("detail") == Str(detail);
    assert [entry][..0] == [];
  }

  function Naturals(items: seq<Json>): seq<nat> {
    if items == [] then []
    else if items[0].Int? && items[0].i >= 0 then [items[0].i] + Naturals(items[1..])
    else Naturals(items[1..])
  }

  function VerdictOf(v: Json): Option<Verdict> {
    if v == Str("accept") then Some(Accept)
    else if v == Str("revise") then Some(Revise)
    else if v == Str("reject") then Some(Reject)
    else None
  }

  function Guidance(a: Alphabet, g: Json): Option<string> {
    if g.Str? && !Blank(a, g.s) then
      var s := Strip(a, g.s);
      Some(if |s| > MAX_GUIDANCE_CHARS then s[..MAX_GUIDANCE_CHARS] else s)
    else None
  }

  /** The critique of one reply; it raises on anything malformed, and so never reads as an
      acceptance. */
  function ValidateCritiqueResult(a: Alphabet, parsed: Json, known: set<string>): Option<Semantic> {
    if !parsed.Obj? then None
    else
      var verdict := VerdictOf(parsed.Get("verdict"));
      var indices := parsed.Default("unsupported_hypothesis_indices", Arr([]));
      if verdict.None? || !indices.Arr? then None
      else Some(Semantic(verdict.value, Naturals(indices.items),
                         NotesOf(a, parsed.Default("contradictory_evidence", Arr([])), known),
                         Guidance(a, parsed.Get("revision_guidance"))))
  }

  // ---------------------------------------------------------------- nothing well-formed is lost or altered

  lemma {:induction false} NaturalsAre(items: seq<Json>, n: int)
    ensures n in Naturals(items) <==> n >= 0 && Int(n) in items
  {
    if items != [] {
      NaturalsAre(items[1..], n);
      assert items == [items[0]] + items[1..];
    }
  }

  function Ints(ns: seq<nat>): seq<Json> {
    if ns == [] then [] else [Int(ns[0])] + Ints(ns[1..])
  }

  lemma {:induction false} IntsAreRead(ns: seq<nat>)
    ensures Naturals(Ints(ns)) == ns
  {
    if ns != [] {
      IntsAreRead(ns[1..]);
      assert Ints(ns)[1..] == Ints(ns[1..]);
    }
  }

  /** A note as the model is asked to write it, with spaces around the detail. */
  function NoteJson(pre: string, detail: string, post: string, ids: seq<Json>): Json {
    Obj(map["evidence_ids" := Arr(ids), "detail" := Str(pre + detail + post)])
  }

  /** It is kept exactly if two of its references are known, the same one twice included,
      with the detail trimmed and only the known references. */
  lemma NoteIsRead(a: Alphabet, pre: string, detail: string, post: string, ids: seq<Json>, known: set<string>)
    requires Trimmed(a, detail) && AllSpaces(a, pre) && AllSpaces(a, post)
    ensures KeptNote(a, NoteJson(pre, detail, post, ids), known) ==
              if |RealIds(ids, known)| >= 2 then Some(Note(RealIds(ids, known), detail)) else None
  {
    hide Strip, RealIds;
    StripPadded(a, pre, detail, post);
    var j := NoteJson(pre, detail, post, ids);
    assert j.Get("evidence_ids") == Arr(ids) && j.Get("detail") == Str(pre + detail + post);
  }

  function NoteOf(note: Note): Json {
    NoteJson("", note.detail, "", Strings(note.evidenceIds))
  }

  function NotesJson(notes: seq<Note>): seq<Json> {
    if notes == [] then [] else NotesJson(notes[..|notes| - 1]) + [NoteOf(notes[|notes| - 1])]
  }

  /** At least two references, all known, and a detail. */
  predicate GoodNote(a: Alphabet, note: Note, known: set<string>) {
    && |note.evidenceIds| >= 2 && Trimmed(a, note.detail)
    && forall i :: 0 <= i < |note.evidenceIds| ==> note.evidenceIds[i] in known
  }

  lemma NoteOfIsRead(a: Alphabet, note: Note, known: set<string>)
    requires GoodNote(a, note, known)
    ensures KeptNote(a, NoteOf(note), known) == Some(note)
  {
    hide KeptNote, Trimmed, Strings;
    RealIdsOfKnown(note.evidenceIds, known);
    NoteIsRead(a, "", note.detail, "", Strings(note.evidenceIds), known);
  }

  lemma NotesSnoc(a: Alphabet, items: seq<Json>, entry: Json, known: set<string>)
    ensures Notes(a, items + [entry], known) ==
              match KeptNote(a, entry, known)
              case None => Notes(a, items, known)
              case Some(note) => Notes(a, items, known) + [note]
  {
    hide KeptNote;
    assert (items + [entry])[..|items|] == items;
  }

  lemma NotesJsonSnoc(notes: seq<Note>, note: Note)
    ensures NotesJson(notes + [note]) == NotesJson(notes) + [NoteOf(note)]
  {
    hide NoteOf;
    assert (notes + [note])[..|notes|] == notes;
  }

  lemma NoNotes(a: Alphabet, known: set<string>)
    ensures Notes(a, NotesJson([]), known) == []
  {
  }

  lemma {:induction false} NotesAreRead(a: Alphabet, notes: seq<Note>, known: set<string>)
    requires forall i :: 0 <= i < |notes| ==> GoodNote(a, notes[i], known)
    ensures Notes(a, NotesJson(notes), known) == notes
  {
    hide Notes, NotesJson, NoteOf, GoodNote, KeptNote;
    if notes == [] {
      NoNotes(a, known);
    } else {
      var n := |notes| - 1;
      NotesAreRead(a, notes[..n], known);
      assert GoodNote(a, notes[n], known) && notes[..n] + [notes[n]] == notes;
      NoteOfIsRead(a, notes[n], known);
      NotesJsonSnoc(notes[..n], notes[n]);
      NotesSnoc(a, NotesJson(notes[..n]), NoteOf(notes[n]), known);
    }
  }

  /** A critique as the model is asked to write it. */
  function CritiqueJson(s: Semantic): Json {
    Obj(map["verdict" := Str(match s.verdict case Accept => "accept" case Revise => "revise" case Reject => "reject"),
            "unsupported_hypothesis_indices" := Arr(Ints(s.unsupported)),
            "contradictory_evidence" := Arr(NotesJson(s.contradictions)),
            "revision_guidance" := (match s.guidance case None => Null case Some(g) => Str(g))])
  }

  /** It is read back as it is, if its notes are good and its guidance is neither blank nor
      longer than 500 characters. */
  lemma CritiqueReadsBack(a: Alphabet, s: Semantic, known: set<string>)
    requires forall i :: 0 <= i < |s.contradictions| ==> GoodNote(a, s.contradictions[i], known)
    requires s.guidance.Some? ==> Trimmed(a, s.guidance.value) && |s.guidance.value| <= 500
    ensures ValidateCritiqueResult(a, CritiqueJson(s), known) == Some(s)
  {
    hide Strip, Notes, NotesJson, Naturals, Ints, GoodNote;
    IntsAreRead(s.unsupported);
    NotesAreRead(a, s.contradictions, known);
    if s.guidance.Some? {
      StripPadded(a, "", s.guidance.value, "");
      assert "" + s.guidance.value + "" == s.guidance.value;
    }
    var j := CritiqueJson(s);
    assert j.Get("verdict") ==
           Str(match s.verdict case Accept => "accept" case Revise => "revise" case Reject => "reject");
    assert j.Default("unsupported_hypothesis_indices", Arr([])) == Arr(Ints(s.unsupported));
    assert j.Default("contradictory_evidence", Arr([])) == Arr(NotesJson(s.contradictions));
    assert j.Get("revision_guidance") == (match s.guidance case None => Null case Some(g) => Str(g));
    VerdictsDiffer();
  }

  lemma VerdictsDiffer()
    ensures "accept" != "revise" && "accept" != "reject" && "revise" != "reject"
  {
    assert "accept"[0] != "revise"[0] && "revise"[2] != "reject"[2];
  }

  /** A critique raises exactly on a reply that is no object, whose verdict is none of the
      three words, or whose indices are there and no list: never is it taken for an
      acceptance. */
  lemma MalformedRaisesIff(a: Alphabet, parsed: Json, known: set<string>)
    ensures ValidateCritiqueResult(a, parsed, known).None? <==>
              || !parsed.Obj?
              || "verdict" !in parsed.fields
              || parsed.fields["verdict"] !in {Str("accept"), Str("revise"), Str("reject")}
              || ("unsupported_hypothesis_indices" in parsed.fields
                  && !parsed.fields["unsupported_hypothesis_indices"].Arr?)
  {
    hide Guidance, NotesOf, Naturals;
  }

  /** Guidance that is kept says something, and is the reply's, trimmed and cut at 500. */
  lemma GuidanceIsCut(a: Alphabet, pre: string, text: string, post: string)
    requires Trimmed(a, text) && AllSpaces(a, pre) && AllSpaces(a, post)
    ensures Guidance(a, Str(pre + text + post)) == Some(if |text| <= 500 then text else text[..500])
  {
    hide Strip;
    StripPadded(a, pre, text, post);
  }

  // ---------------------------------------------------------------- penalties

  const OVERCONFIDENCE_PENALTY := 0.2
  const UNSUPPORTED_CLAIM_PENALTY := 0.3

  /** The fixed penalty for being overconfident, and for an unsupported claim. */
  function Penalty(overconfident: bool, unsupported: bool): real {
    (if overconfident then OVERCONFIDENCE_PENALTY else 0.0) + (if unsupported then UNSUPPORTED_CLAIM_PENALTY else 0.0)
  }

  function Penalised(h: Hypothesis, penalty: real): Hypothesis {
    if penalty == 0.0 then h
    else h.(confidence := if h.confidence - penalty > 0.0 then h.confidence - penalty else 0.0)
  }

  function Adjusted(hs: seq<Hypothesis>, overconfident: set<nat>, unsupported: seq<nat>): (r: seq<Hypothesis>)
    ensures |r| == |hs|
    ensures forall i :: 0 <= i < |hs| ==> r[i] == Penalised(hs[i], Penalty(i in overconfident, i in unsupported))
  {
    if hs == [] then []
    else
      var n := |hs| - 1;
      Adjusted(hs[..n], overconfident, unsupported) + [Penalised(hs[n], Penalty(n in overconfident, n in unsupported))]
  }

  method ApplyPenalties(hs: seq<Hypothesis>, issues: seq<string>, semantic: Semantic)
    returns (adjusted: Option<seq<Hypothesis>>)
    ensures adjusted == if Indices(issues).None? then None
                        else Some(Adjusted(hs, Indices(issues).value, semantic.unsupported))
  {
    hide Indices;
    var overconfident := OverconfidentIndices(issues);
    if overconfident.None? {
      return None;
    }
    var result: seq<Hypothesis> := [];
    for index := 0 to |hs|
      invariant result == Adjusted(hs[..index], overconfident.value, semantic.unsupported)
    {
      assert hs[..index + 1][..index] == hs[..index];
      var penalty := 0.0;
      if index in overconfident.value {
        penalty := penalty + OVERCONFIDENCE_PENALTY;
      }
      if index in semantic.unsupported {
        penalty := penalty + UNSUPPORTED_CLAIM_PENALTY;
      }
      var h := hs[index];
      if penalty != 0.0 {
        h := h.(confidence := if h.confidence - penalty > 0.0 then h.confidence - penalty else 0.0);
      }
      result := result + [h];
    }
    assert hs[..|hs|] == hs;
    return Some(result);
  }

  const CONTRADICTORY := "contradictory_evidence"
  const UNSUPPORTED_PREFIX := "unsupported_claim:hypothesis_"

  function UnsupportedTags(indices: seq<nat>): seq<string> {
    if indices == [] then [] else [UNSUPPORTED_PREFIX + Print(indices[0])] + UnsupportedTags(indices[1..])
  }

  function IssueTags(issues: seq<string>, semantic: Semantic): seq<string> {
    issues + UnsupportedTags(semantic.unsupported) + (if semantic.contradictions != [] then [CONTRADICTORY] else [])
  }

  lemma {:induction false} UnsupportedTagsAre(indices: seq<nat>, tag: string)
    ensures tag in UnsupportedTags(indices) <==>
            exists i :: i in indices && NamesUnsupported(tag, i)
  {
    hide NamesUnsupported;
    if indices != [] {
      UnsupportedTagsAre(indices[1..], tag);
      assert indices == [indices[0]] + indices[1..];
      assert tag == UNSUPPORTED_PREFIX + Print(indices[0]) <==> NamesUnsupported(tag, indices[0]) by {
        NamesUnsupportedIs(tag, indices[0]);
      }
    }
  }

  predicate NamesUnsupported(tag: string, i: nat) {
    tag == "unsupported_claim:hypothesis_" + Print(i)
  }

  lemma NamesUnsupportedIs(tag: string, i: nat)
    ensures NamesUnsupported(tag, i) <==> tag == UNSUPPORTED_PREFIX + Print(i)
  {
  }

  /** What a critique adds: a tag for each unsupported hypothesis, and one if there is a
      contradiction. */
  lemma IssueTagsAre(issues: seq<string>, semantic: Semantic, tag: string)
    ensures tag in IssueTags(issues, semantic) <==> tag in issues || Adds(semantic, tag)
  {
    hide Print;
    UnsupportedTagsAre(semantic.unsupported, tag);
  }

  ghost predicate Adds(semantic: Semantic, tag: string) {
    || (exists i :: i in semantic.unsupported && NamesUnsupported(tag, i))
    || (semantic.contradictions != [] && tag == "contradictory_evidence")
  }
}
