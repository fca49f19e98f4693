/** What a model's JSON reply becomes before anything else reads it. */
module Hypotheses {
  import opened Wrappers
  import opened Text

  datatype Json =
    | Null
    | Bool(b: bool)
    | Int(i: int)
    | Float(r: real)
    | Str(s: string)
    | Arr(items: seq<Json>)
    | Obj(fields: map<string, Json>)
  {
    function Get(key: string): Json
      requires Obj?
    {
      if key in fields then fields[key] else Null
    }

    function Default(key: string, d: Json): Json
      requires Obj?
    {
      if key in fields then fields[key] else d
    }
  }

  datatype Hypothesis = Hypothesis(description: string, confidence: real, supportingEvidenceIds: seq<string>)

  /** A set of hypotheses with what is suggested beside them. */
  datatype Draft = Draft(hypotheses: seq<Hypothesis>, ownerTeam: Option<string>, nextSteps: seq<string>)

  /** The strings of a list that are known references, in order. */
  function RealIds(items: seq<Json>, known: set<string>): (ids: seq<string>)
    ensures forall i :: 0 <= i < |ids| ==> ids[i] in known
  {
    if items == [] then []
    else
      var rest := RealIds(items[1..], known);
      if items[0].Str? && items[0].s in known then [items[0].s] + rest else rest
  }

  function Clamp(x: real): real {
    if x < 0.0 then 0.0 else if x > 1.0 then 1.0 else x
  }

  function Blank(a: Alphabet, s: string): bool {
    Strip(a, s) == ""
  }

  /** A well-formed entry that cites at least one real reference. */
  function Validated(a: Alphabet, raw: Json, known: set<string>): Option<Hypothesis> {
    if !raw.Obj? then None
    else
      var description, confidence := raw.Get("description"), raw.Get("confidence");
      var ids := raw.Get("supporting_evidence_ids");
      if !description.Str? || Blank(a, description.s) then None
      else if !(confidence.Int? || confidence.Float?) || !ids.Arr? || RealIds(ids.items, known) == [] then None
      else
        var c := if confidence.Int? then confidence.i as real else confidence.r;
        Some(Hypothesis(Strip(a, description.s), Clamp(c), RealIds(ids.items, known)))
  }

  function ValidateHypotheses(a: Alphabet, items: seq<Json>, known: set<string>): seq<Hypothesis> {
    if items == [] then []
    else
      var front := ValidateHypotheses(a, items[..|items| - 1], known);
      match Validated(a, items[|items| - 1], known)
      case None => front
      case Some(h) => front + [h]
  }

  /** A confidence in [0, 1] and at least one citation, all of them real. */
  predicate Sound(h: Hypothesis, known: set<string>) {
    && 0.0 <= h.confidence <= 1.0
    && h.supportingEvidenceIds != []
    && forall i :: 0 <= i < |h.supportingEvidenceIds| ==> h.supportingEvidenceIds[i] in known
  }

  predicate AllSound(hs: seq<Hypothesis>, known: set<string>) {
    forall i :: 0 <= i < |hs| ==> Sound(hs[i], known)
  }

  /** Whatever the model wrote, every hypothesis that is kept is sound. */
  lemma {:induction false} ValidatedAreSound(a: Alphabet, items: seq<Json>, known: set<string>)
    ensures AllSound(ValidateHypotheses(a, items, known), known)
  {
    if items != [] {
      ValidatedAreSound(a, items[..|items| - 1], known);
    }
  }

  function KeptSteps(a: Alphabet, items: seq<Json>): seq<string> {
    if items == [] then []
    else
      var rest := KeptSteps(a, items[1..]);
      if items[0].Str? && !Blank(a, items[0].s) then [items[0].s] + rest else rest
  }

  /** One generation: it raises unless the reply is a JSON object. */
  function GenerateHypotheses(a: Alphabet, parsed: Json, known: set<string>): Option<Draft> {
    if !parsed.Obj? then None
    else
      var hypotheses := parsed.Default("hypotheses", Arr([]));
      var team := parsed.Get("suggested_owner_team");
      var steps := parsed.Default("suggested_next_steps", Arr([]));
      Some(Draft(
        if hypotheses.Arr? then ValidateHypotheses(a, hypotheses.items, known) else [],
        if team.Str? && !Blank(a, team.s) then Some(team.s) else None,
        if steps.Arr? then KeptSteps(a, steps.items) else []))
  }

  lemma {:induction false} StepsAreNotBlank(a: Alphabet, items: seq<Json>)
    ensures forall i :: 0 <= i < |KeptSteps(a, items)| ==> Strip(a, KeptSteps(a, items)[i]) != ""
  {
    hide Strip;
    if items != [] {
      StepsAreNotBlank(a, items[1..]);
    }
  }

  lemma GeneratedAreSound(a: Alphabet, parsed: Json, known: set<string>)
    requires GenerateHypotheses(a, parsed, known).Some?
    ensures var d := GenerateHypotheses(a, parsed, known).value;
            && AllSound(d.hypotheses, known)
            && (d.ownerTeam.Some? ==> Strip(a, d.ownerTeam.value) != "")
            && forall i :: 0 <= i < |d.nextSteps| ==> Strip(a, d.nextSteps[i]) != ""
  {
    hide Strip;
    var hypotheses, steps := parsed.Default("hypotheses", Arr([])), parsed.Default("suggested_next_steps", Arr([]));
    if steps.Arr? {
      StepsAreNotBlank(a, steps.items);
    }
    if hypotheses.Arr? {
      ValidatedAreSound(a, hypotheses.items, known);
    }
  }

  // ---------------------------------------------------------------- nothing well-formed is lost or altered

  function Strings(xs: seq<string>): (r: seq<Json>)
    ensures |r| == |xs| && forall i :: 0 <= i < |xs| ==> r[i] == Str(xs[i])
  {
    if xs == [] then [] else [Str(xs[0])] + Strings(xs[1..])
  }

  /** Of a list the known references are kept, however often they occur, in their order. */
  lemma {:induction false} RealIdsAppend(x: seq<Json>, y: seq<Json>, known: set<string>)
    ensures RealIds(x + y, known) == RealIds(x, known) + RealIds(y, known)
  {
    if x == [] {
      assert x + y == y;
    } else {
      assert (x + y)[1..] == x[1..] + y;
      RealIdsAppend(x[1..], y, known);
    }
  }

  lemma {:induction false} RealIdsOfKnown(ids: seq<string>, known: set<string>)
    requires forall i :: 0 <= i < |ids| ==> ids[i] in known
    ensures RealIds(Strings(ids), known) == ids
  {
    if ids != [] {
      RealIdsOfKnown(ids[1..], known);
      assert Strings(ids)[1..] == Strings(ids[1..]);
    }
  }

  lemma {:induction false} RealIdsAre(items: seq<Json>, known: set<string>, ref: string)
    ensures ref in RealIds(items, known) <==> Str(ref) in items && ref in known
  {
    if items != [] {
      RealIdsAre(items[1..], known, ref);
      assert items == [items[0]] + items[1..];
    }
  }

  /** Text that says something and has no spaces at its ends. */
  predicate Trimmed(a: Alphabet, s: string) {
    s != "" && !a.space(s[0]) && !a.space(s[|s| - 1])
  }

  predicate AllSpaces(a: Alphabet, s: string) {
    forall c <- s :: a.space(c)
  }

  /** An entry as the model is asked to write it, with spaces around the description. */
  function Entry(pre: string, description: string, post: string, confidence: Json, ids: seq<Json>): Json {
    Obj(map["description" := Str(pre + description + post), "confidence" := confidence,
            "supporting_evidence_ids" := Arr(ids)])
  }

  /** It is kept if it cites a known reference, with its description trimmed and its
      confidence brought into [0, 1], and what it cites cut down to known references. */
  lemma EntryIsRead(a: Alphabet, pre: string, description: string, post: string, confidence: real, ids: seq<Json>,
                    known: set<string>)
    requires Trimmed(a, description) && AllSpaces(a, pre) && AllSpaces(a, post)
    ensures Validated(a, Entry(pre, description, post, Float(confidence), ids), known) ==
              if RealIds(ids, known) == [] then None
              else Some(Hypothesis(description,
                                   if confidence <= 0.0 then 0.0 else if confidence >= 1.0 then 1.0 else confidence,
                                   RealIds(ids, known)))
    ensures forall i: int :: confidence == i as real ==>
              Validated(a, Entry(pre, description, post, Int(i), ids), known) ==
              Validated(a, Entry(pre, description, post, Float(confidence), ids), known)
  {
    hide Strip, RealIds;
    StripPadded(a, pre, description, post);
    var e := Entry(pre, description, post, Float(confidence), ids);
    assert e.Get("description") == Str(pre + description + post);
    assert e.Get("confidence") == Float(confidence) && e.Get("supporting_evidence_ids") == Arr(ids);
    forall i: int | confidence == i as real
      ensures Validated(a, Entry(pre, description, post, Int(i), ids), known) == Validated(a, e, known)
    {
      var d := Entry(pre, description, post, Int(i), ids);
      assert d.Get("description") == Str(pre + description + post);
      assert d.Get("confidence") == Int(i) && d.Get("supporting_evidence_ids") == Arr(ids);
    }
  }

  /** Whatever is kept was such an entry, whatever else it holds. */
  lemma KeptWasEntry(a: Alphabet, raw: Json, known: set<string>)
    requires Validated(a, raw, known).Some?
    ensures raw.Obj? && raw.Get("description").Str? && Strip(a, raw.Get("description").s) != ""
    ensures raw.Get("confidence").Int? || raw.Get("confidence").Float?
    ensures raw.Get("supporting_evidence_ids").Arr?
    ensures exists ref <- known :: Str(ref) in raw.Get("supporting_evidence_ids").items
  {
    hide Strip;
    var ids := raw.Get("supporting_evidence_ids").items;
    RealIdsAre(ids, known, RealIds(ids, known)[0]);
  }

  lemma ValidateSnoc(a: Alphabet, items: seq<Json>, raw: Json, known: set<string>)
    ensures ValidateHypotheses(a, items + [raw], known) ==
              match Validated(a, raw, known)
              case None => ValidateHypotheses(a, items, known)
              case Some(h) => ValidateHypotheses(a, items, known) + [h]
  {
    hide Validated;
    assert (items + [raw])[..|items|] == items;
  }

  function EntryOf(h: Hypothesis): Json {
    Entry("", h.description, "", Float(h.confidence), Strings(h.supportingEvidenceIds))
  }

  function Entries(hs: seq<Hypothesis>): (r: seq<Json>)
    ensures |r| == |hs|
  {
    if hs == [] then []
    else
      Entries(hs[..|hs| - 1]) + [EntryOf(hs[|hs| - 1])]
  }

  lemma {:induction false} EntriesAreRead(a: Alphabet, hs: seq<Hypothesis>, known: set<string>)
    requires AllSound(hs, known) && forall i :: 0 <= i < |hs| ==> Trimmed(a, hs[i].description)
    ensures ValidateHypotheses(a, Entries(hs), known) == hs
  {
    hide Validated, Trimmed, Sound, ValidateHypotheses, Entries, EntryOf;
    NothingToValidate(a, known);
    if hs != [] {
      var n := |hs| - 1;
      EntriesAreRead(a, hs[..n], known);
      EntriesSnoc(hs[..n], hs[n]);
      assert hs[..n] + [hs[n]] == hs && Trimmed(a, hs[n].description) && Sound(hs[n], known);
      EntryOfIsRead(a, hs[n], known);
      ValidateSnoc(a, Entries(hs[..n]), EntryOf(hs[n]), known);
    }
  }

  lemma NothingToValidate(a: Alphabet, known: set<string>)
    ensures ValidateHypotheses(a, Entries([]), known) == []
  {
  }

  lemma EntriesSnoc(hs: seq<Hypothesis>, h: Hypothesis)
    ensures Entries(hs + [h]) == Entries(hs) + [EntryOf(h)]
  {
    hide EntryOf;
    assert (hs + [h])[..|hs|] == hs;
  }

  lemma EntryOfIsRead(a: Alphabet, h: Hypothesis, known: set<string>)
    requires Sound(h, known) && Trimmed(a, h.description)
    ensures Validated(a, EntryOf(h), known) == Some(h)
  {
    hide Validated, Trimmed, Strings;
    RealIdsOfKnown(h.supportingEvidenceIds, known);
    EntryIsRead(a, "", h.description, "", h.confidence, Strings(h.supportingEvidenceIds), known);
  }

  lemma {:induction false} StepsAreRead(a: Alphabet, steps: seq<string>)
    requires forall i :: 0 <= i < |steps| ==> Strip(a, steps[i]) != ""
    ensures KeptSteps(a, Strings(steps)) == steps
  {
    hide Strip, KeptSteps;
    if steps == [] {
      NoSteps(a);
    } else {
      StepsAreRead(a, steps[1..]);
      assert Strings(steps) == [Str(steps[0])] + Strings(steps[1..]);
      KeptStep(a, steps[0], Strings(steps[1..]));
      assert [steps[0]] + steps[1..] == steps;
    }
  }

  lemma NoSteps(a: Alphabet)
    ensures KeptSteps(a, Strings([])) == []
  {
  }

  lemma KeptStep(a: Alphabet, step: string, rest: seq<Json>)
    requires Strip(a, step) != ""
    ensures KeptSteps(a, [Str(step)] + rest) == [step] + KeptSteps(a, rest)
  {
    hide Strip;
    assert ([Str(step)] + rest)[1..] == rest;
  }

  /** A draft as the model is asked to write it. */
  function DraftJson(d: Draft): Json {
    Obj(map["hypotheses" := Arr(Entries(d.hypotheses)),
            "suggested_owner_team" := (match d.ownerTeam case None => Null case Some(t) => Str(t)),
            "suggested_next_steps" := Arr(Strings(d.nextSteps))])
  }

  /** It is read back as it is, if the hypotheses are sound and nothing in it is blank. */
  lemma DraftReadsBack(a: Alphabet, d: Draft, known: set<string>)
    requires AllSound(d.hypotheses, known)
    requires forall i :: 0 <= i < |d.hypotheses| ==> Trimmed(a, d.hypotheses[i].description)
    requires d.ownerTeam.Some? ==> Strip(a, d.ownerTeam.value) != ""
    requires forall i :: 0 <= i < |d.nextSteps| ==> Strip(a, d.nextSteps[i]) != ""
    ensures GenerateHypotheses(a, DraftJson(d), known) == Some(d)
  {
    hide Strip, ValidateHypotheses, KeptSteps, Entries, Strings;
    EntriesAreRead(a, d.hypotheses, known);
    StepsAreRead(a, d.nextSteps);
    var j := DraftJson(d);
    assert j.Default("hypotheses", Arr([])) == Arr(Entries(d.hypotheses));
    assert j.Get("suggested_owner_team") == (match d.ownerTeam case None => Null case Some(t) => Str(t));
    assert j.Default("suggested_next_steps", Arr([])) == Arr(Strings(d.nextSteps));
  }
}
