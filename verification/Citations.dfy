/** The citations of an answer's markers. */
module Citations {
  import opened Wrappers
  import opened Text
  import opened Markers
  import opened Grounding

  datatype Chunk = Chunk(documentId: string, chunkId: string, sourceUrl: Option<string>, content: string)
  datatype Citation = Citation(documentId: string, chunkId: string, sourceUrl: Option<string>, excerpt: string)

  const EXCERPT_MAX_CHARS := 300

  function Excerpt(content: string): string {
    if |content| > EXCERPT_MAX_CHARS then content[..EXCERPT_MAX_CHARS] + "..." else content
  }

  function CitationOf(c: Chunk): Citation {
    Citation(c.documentId, c.chunkId, c.sourceUrl, Excerpt(c.content))
  }

  predicate AllWithin(numbers: seq<nat>, count: nat) {
    forall i :: 0 <= i < |numbers| ==> 1 <= numbers[i] <= count
  }

  /** The numbers that name one of `count` chunks. */
  function InRange(numbers: seq<nat>, count: nat): (r: seq<nat>)
    ensures AllWithin(r, count)
  {
    if numbers == [] then []
    else
      var n := numbers[|numbers| - 1];
      InRange(numbers[..|numbers| - 1], count) + if 1 <= n <= count then [n] else []
  }

  function Cite(numbers: seq<nat>, chunks: seq<Chunk>): (r: seq<Citation>)
    requires AllWithin(numbers, |chunks|)
    ensures |r| == |numbers|
  {
    if numbers == [] then []
    else [CitationOf(chunks[numbers[0] - 1])] + Cite(numbers[1..], chunks)
  }

  /** The chunk numbers cited by `text`: in range, each once, in first-seen order. */
  function CitedBy(a: Alphabet, text: string, count: nat): (r: seq<nat>)
    ensures AllWithin(r, count)
  {
    InRange(Distinct(AllMarkers(a, text)), count)
  }

  lemma {:induction false} CiteSnoc(numbers: seq<nat>, n: nat, chunks: seq<Chunk>)
    requires AllWithin(numbers, |chunks|) && 1 <= n <= |chunks|
    ensures Cite(numbers + [n], chunks) == Cite(numbers, chunks) + [CitationOf(chunks[n - 1])]
  {
    hide CitationOf;
    if numbers == [] {
    } else {
      assert (numbers + [n])[1..] == numbers[1..] + [n];
      CiteSnoc(numbers[1..], n, chunks);
    }
  }

  /** `citation` is of `chunk`: its ids and address, and its content or the first 300
      characters of it and three dots. */
  predicate IsCitationOf(citation: Citation, chunk: Chunk) {
    && citation.documentId == chunk.documentId && citation.chunkId == chunk.chunkId
    && citation.sourceUrl == chunk.sourceUrl
    && if |chunk.content| <= 300 then citation.excerpt == chunk.content
       else |citation.excerpt| == 303 && citation.excerpt[300..] == "..." && citation.excerpt[..300] <= chunk.content
  }

  /** The `i`-th citation is of the chunk that the `i`-th number names, counting from one. */
  lemma {:induction false} CiteAt(numbers: seq<nat>, i: nat, chunks: seq<Chunk>)
    requires AllWithin(numbers, |chunks|) && i < |numbers|
    ensures IsCitationOf(Cite(numbers, chunks)[i], chunks[numbers[i] - 1])
  {
    if i > 0 {
      hide CitationOf, IsCitationOf;
      CiteAt(numbers[1..], i - 1, chunks);
    }
  }

  lemma InRangeSnoc(numbers: seq<nat>, n: nat, count: nat)
    ensures InRange(numbers + [n], count) ==
              if 1 <= n <= count then InRange(numbers, count) + [n] else InRange(numbers, count)
  {
    assert (numbers + [n])[..|numbers|] == numbers;
  }

  /** One more marker: its chunk is cited if it is in range, and skipped if not. */
  lemma CiteOneMore(numbers: seq<nat>, n: nat, chunks: seq<Chunk>)
    ensures Cite(InRange(numbers + [n], |chunks|), chunks) ==
              if 1 <= n <= |chunks| then Cite(InRange(numbers, |chunks|), chunks) + [CitationOf(chunks[n - 1])]
              else Cite(InRange(numbers, |chunks|), chunks)
    ensures Cite(InRange([], |chunks|), chunks) == []
  {
    hide CitationOf;
    InRangeSnoc(numbers, n, |chunks|);
    if 1 <= n <= |chunks| {
      CiteSnoc(InRange(numbers, |chunks|), n, chunks);
    }
  }

  method MakeCitation(chunk: Chunk) returns (c: Citation)
    ensures c == CitationOf(chunk)
  {
    var excerpt := if |chunk.content| < EXCERPT_MAX_CHARS then chunk.content else chunk.content[..EXCERPT_MAX_CHARS];
    if |chunk.content| > EXCERPT_MAX_CHARS {
      excerpt := excerpt + "...";
    }
    c := Citation(chunk.documentId, chunk.chunkId, chunk.sourceUrl, excerpt);
  }

  method BuildCitations(a: Alphabet, text: string, chunks: seq<Chunk>) returns (citations: seq<Citation>)
    ensures citations == Cite(CitedBy(a, text, |chunks|), chunks)
  {
    hide InRange, Distinct, AllMarkers, Cite, CitationOf;
    citations := [];
    CiteOneMore([], 0, chunks);
    var numbers := ExtractCitationMarkers(a, text);
    for k := 0 to |numbers|
      invariant citations == Cite(InRange(numbers[..k], |chunks|), chunks)
    {
      assert numbers[..k + 1] == numbers[..k] + [numbers[k]];
      CiteOneMore(numbers[..k], numbers[k], chunks);
      var index := numbers[k] as int - 1;
      if index < 0 || index >= |chunks| {
        continue;
      }
      var c := MakeCitation(chunks[index]);
      citations := citations + [c];
    }
    assert numbers[..|numbers|] == numbers;
  }

  /** Filtering keeps the members in range, their order, and that each is there once. */
  lemma {:induction false} InRangeKeepsOrder(xs: seq<nat>, numbers: seq<nat>, count: nat)
    requires forall n <- numbers :: n in xs
    requires forall i, j :: 0 <= i < j < |numbers| ==> FirstAt(xs, numbers[i]) < FirstAt(xs, numbers[j])
    ensures forall n :: n in InRange(numbers, count) <==> n in numbers && 1 <= n <= count
    ensures forall i, j :: 0 <= i < j < |InRange(numbers, count)| ==>
              FirstAt(xs, InRange(numbers, count)[i]) < FirstAt(xs, InRange(numbers, count)[j])
  {
    hide FirstAt;
    if numbers != [] {
      var front, n := numbers[..|numbers| - 1], numbers[|numbers| - 1];
      assert numbers == front + [n];
      InRangeKeepsOrder(xs, front, count);
      InRangeSnoc(front, n, count);
      forall m | m in front ensures FirstAt(xs, m) < FirstAt(xs, n) {
        var k :| 0 <= k < |front| && front[k] == m;
        assert numbers[k] == m && numbers[|front|] == n;
      }
    }
  }

  /** The markers of a list of sentences are the markers of its members. */
  lemma {:induction false} MarkersOfMembers(a: Alphabet, parts: seq<string>, n: nat)
    ensures n in MarkersOf(a, parts) <==> exists s <- parts :: n in AllMarkers(a, s)
  {
    hide AllMarkers;
    if parts != [] {
      MarkersOfMembers(a, parts[1..], n);
      assert parts == [parts[0]] + parts[1..];
    }
  }

  /** What is cited by sentences joined into one text: the chunks whose number is in a
      marker of one of the sentences, each once, in the order in which the sentences first
      mention them. */
  lemma CitedByJoined(a: Alphabet, parts: seq<string>, count: nat)
    requires a.Valid()
    ensures var cited := CitedBy(a, Join(parts), count);
            && (forall n: nat :: n in cited <==> 1 <= n <= count && exists s <- parts :: n in AllMarkers(a, s))
            && (forall n <- cited :: n in MarkersOf(a, parts))
            && (forall i, j :: 0 <= i < j < |cited| ==>
                  && cited[i] != cited[j]
                  && FirstAt(MarkersOf(a, parts), cited[i]) < FirstAt(MarkersOf(a, parts), cited[j]))
  {
    hide AllMarkers;
    var xs := MarkersOf(a, parts);
    JoinKeepsMarkersAndWords(a, parts);
    DistinctIsFirstSeen(xs);
    InRangeKeepsOrder(xs, Distinct(xs), count);
    forall n: nat ensures n in xs <==> exists s <- parts :: n in AllMarkers(a, s) {
      MarkersOfMembers(a, parts, n);
    }
  }
}
