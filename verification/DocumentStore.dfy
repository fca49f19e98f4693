/**
The `documents` and chunk tables as one ingestion worker sees them, for one
organization and one source, and the decision `_process_one_item` takes about
one normalized item.

The table carries the unique key (organization, source, external id, content
hash), so a version whose content was already stored once cannot be stored
again: that insert is refused by the database.
 */
module DocumentStore {
  import opened Wrappers

  /** A fetched item after `normalize` and `process_document`. `bytes` is the
      UTF-8 size of the normalized content. */
  datatype Item = Item(externalId: string, contentHash: string, bytes: nat, chunks: seq<string>)

  datatype Document = Document(externalId: string, contentHash: string, version: nat)

  /** A chunk row; `document` is the identity of its document row, which the
      model takes to be that row's position in the table. */
  datatype Chunk = Chunk(document: nat, index: nat, content: string)

  datatype Store = Store(documents: seq<Document>, chunks: seq<Chunk>)

  datatype Limits = Limits(maxPages: nat, maxItems: nat, maxBytes: nat, maxChunks: nat)

  /** What processing one item does to the store. */
  datatype Effect = Unchanged | Inserted(store: Store) | Refused | TooLarge

  /** The row with the highest version among those of `id`. */
  function Latest(documents: seq<Document>, id: string): (d: Option<Document>)
    ensures d.Some? ==> d.value in documents && d.value.externalId == id
  {
    if |documents| == 0 then None
    else
      var last := documents[|documents| - 1];
      var before := Latest(documents[..|documents| - 1], id);
      if last.externalId == id && (before.None? || before.value.version < last.version) then Some(last)
      else before
  }

  /** The content hash a reader of `id` gets: that of the latest version. */
  function LatestHash(s: Store, id: string): Option<string> {
    match Latest(s.documents, id)
    case Some(d) => Some(d.contentHash)
    case None => None
  }

  /** All content hashes of `id`, oldest first. */
  function History(documents: seq<Document>, id: string): (hashes: seq<string>)
  {
    if |documents| == 0 then []
    else
      var last := documents[|documents| - 1];
      History(documents[..|documents| - 1], id) + (if last.externalId == id then [last.contentHash] else [])
  }

  /** Some version of `id` carries `hash`. */
  predicate Stored(s: Store, id: string, hash: string) {
    exists i :: 0 <= i < |s.documents| && s.documents[i].externalId == id && s.documents[i].contentHash == hash
  }

  function Add(s: Store, item: Item, version: nat): Store {
    Store(s.documents + [Document(item.externalId, item.contentHash, version)],
          s.chunks + ChunkRows(|s.documents|, item.chunks))
  }

  function ChunkRows(document: nat, texts: seq<string>): seq<Chunk> {
    seq(|texts|, i requires 0 <= i < |texts| => Chunk(document, i, texts[i]))
  }

  /** `_process_one_item`: reject an oversized item, do nothing for content that
      is already the latest version, otherwise add the next version. */
  function Process(limits: Limits, s: Store, item: Item): Effect {
    if item.bytes > limits.maxBytes || |item.chunks| > limits.maxChunks then TooLarge
    else
      var existing := Latest(s.documents, item.externalId);
      if existing.Some? && existing.value.contentHash == item.contentHash then Unchanged
      else if Stored(s, item.externalId, item.contentHash) then Refused
      else Inserted(Add(s, item, if existing.Some? then existing.value.version + 1 else 1))
  }

  /** The chunk texts of one document row, in table order. */
  function ChunksOf(chunks: seq<Chunk>, document: nat): (texts: seq<string>)
  {
    if |chunks| == 0 then []
    else
      var last := chunks[|chunks| - 1];
      ChunksOf(chunks[..|chunks| - 1], document) + (if last.document == document then [last.content] else [])
  }

  // ---------------------------------------------------------------- table invariant

  /** Row `i` carries the next version number of its id, and no earlier row of
      that id has the same hash. */
  predicate RowOk(documents: seq<Document>, i: nat)
    requires i < |documents|
  {
    && documents[i].version == |History(documents[..i], documents[i].externalId)| + 1
    && documents[i].contentHash !in History(documents[..i], documents[i].externalId)
  }

  /** Version chains run 1..n per id without a repeated hash, and every chunk row
      belongs to a document row, where its kind are numbered from 0. */
  predicate WellFormed(s: Store) {
    && (forall i :: 0 <= i < |s.documents| ==> RowOk(s.documents, i))
    && (forall c :: 0 <= c < |s.chunks| ==> s.chunks[c].document < |s.documents|)
    && (forall c :: 0 <= c < |s.chunks| ==> ChunkOk(s.chunks, c))
  }

  /** Chunk row `c` carries the next index of its document row, so no index comes twice. */
  predicate ChunkOk(chunks: seq<Chunk>, c: nat)
    requires c < |chunks|
  {
    chunks[c].index == |ChunksOf(chunks[..c], chunks[c].document)|
  }

  lemma {:induction false} HistoryMembers(documents: seq<Document>, id: string, hash: string)
    ensures hash in History(documents, id) <==>
            exists i :: 0 <= i < |documents| && documents[i].externalId == id && documents[i].contentHash == hash
  {
    if |documents| > 0 {
      var n := |documents| - 1;
      HistoryMembers(documents[..n], id, hash);
      if i :| 0 <= i < |documents| && documents[i].externalId == id && documents[i].contentHash == hash {
        if i < n {
          assert documents[..n][i] == documents[i];
        }
      }
    }
  }

  /** The row with the highest version is the one that was added last, and its
      version is the length of the chain. */
  lemma {:induction false} LatestIsNewest(s: Store, id: string)
    requires WellFormed(s)
    ensures var h := History(s.documents, id);
            && (Latest(s.documents, id).None? <==> h == [])
            && (h != [] ==> Latest(s.documents, id).value.version == |h|
                            && LatestHash(s, id) == Some(h[|h| - 1]))
    decreases |s.documents|
  {
    if |s.documents| > 0 {
      var n := |s.documents| - 1;
      var before := Store(s.documents[..n], []);
      PrefixWellFormed(s, n);
      LatestIsNewest(before, id);
      assert RowOk(s.documents, n);
    }
  }

  /** No hash ever comes back in a chain, so in particular adjacent versions differ. */
  lemma {:induction false} ChainDistinct(s: Store, id: string, i: nat, j: nat)
    requires WellFormed(s) && i < j < |History(s.documents, id)|
    ensures History(s.documents, id)[i] != History(s.documents, id)[j]
    decreases |s.documents|
  {
    var n := |s.documents| - 1;
    var before := Store(s.documents[..n], []);
    assert RowOk(s.documents, n);
    PrefixWellFormed(s, n);
    if j < |History(before.documents, id)| {
      ChainDistinct(before, id, i, j);
    }
  }

  lemma PrefixWellFormed(s: Store, n: nat)
    requires WellFormed(s) && n <= |s.documents|
    ensures WellFormed(Store(s.documents[..n], []))
  {
    forall i | 0 <= i < n ensures RowOk(s.documents[..n], i) {
      assert RowOk(s.documents, i);
      assert s.documents[..n][..i] == s.documents[..i];
    }
  }

  /** Processing an item keeps the table invariant. */
  lemma ProcessKeepsTable(limits: Limits, s: Store, item: Item)
    requires WellFormed(s) && Process(limits, s, item).Inserted?
    ensures WellFormed(Process(limits, s, item).store)
  {
    var t := Process(limits, s, item).store;
    var n := |s.documents|;
    LatestIsNewest(s, item.externalId);
    HistoryMembers(s.documents, item.externalId, item.contentHash);
    forall i | 0 <= i < n + 1 ensures RowOk(t.documents, i) {
      assert t.documents[..i] == s.documents[..i];
      if i < n {
        assert RowOk(s.documents, i);
      }
    }
    forall c | 0 <= c < |t.chunks| ensures ChunkOk(t.chunks, c) && t.chunks[c].document < |t.documents| {
      ChunksAreNumbered(s, item.chunks, c);
    }
  }

  /** Chunk rows that are added for a new document row, after the others. */
  lemma ChunksAreNumbered(s: Store, texts: seq<string>, c: nat)
    requires WellFormed(s) && c < |s.chunks| + |texts|
    ensures var chunks := s.chunks + ChunkRows(|s.documents|, texts);
            c < |chunks| && ChunkOk(chunks, c) && chunks[c].document <= |s.documents|
  {
    var n := |s.documents|;
    var chunks := s.chunks + ChunkRows(n, texts);
    if c < |s.chunks| {
      assert ChunkOk(s.chunks, c) && chunks[..c] == s.chunks[..c];
    } else {
      var k := c - |s.chunks|;
      assert chunks[..c] == s.chunks + ChunkRows(n, texts[..k]);
      ChunksAppend(s.chunks, ChunkRows(n, texts[..k]), n);
      ChunksOfRows(n, texts[..k], n);
      NoChunksYet(s.chunks, n);
    }
  }

  /** A new version appends exactly one hash to the item's own chain, becomes that
      id's latest content, and leaves every other id alone. */
  lemma ProcessAppends(limits: Limits, s: Store, item: Item, id: string)
    requires WellFormed(s) && Process(limits, s, item).Inserted?
    ensures var t := Process(limits, s, item).store;
            && History(t.documents, id) ==
               History(s.documents, id) + (if id == item.externalId then [item.contentHash] else [])
            && LatestHash(t, id) == (if id == item.externalId then Some(item.contentHash) else LatestHash(s, id))
  {
    var t := Process(limits, s, item).store;
    assert t.documents[..|s.documents|] == s.documents;
    ProcessKeepsTable(limits, s, item);
    LatestIsNewest(t, id);
    LatestIsNewest(s, id);
  }

  /** What becomes of an item, by the history of its id: too large if it breaks a limit;
      otherwise unchanged if its content is the last, refused if it is an earlier one, and a
      new version if it is neither. */
  lemma EffectIff(limits: Limits, s: Store, item: Item)
    requires WellFormed(s)
    ensures var e := Process(limits, s, item);
            var h := History(s.documents, item.externalId);
            var large := item.bytes > limits.maxBytes || |item.chunks| > limits.maxChunks;
            var last := h != [] && h[|h| - 1] == item.contentHash;
            && (e.TooLarge? <==> large)
            && (e.Unchanged? <==> !large && last)
            && (e.Refused? <==> !large && !last && item.contentHash in h)
            && (e.Inserted? <==> !large && item.contentHash !in h)
  {
    LatestIsNewest(s, item.externalId);
    HistoryMembers(s.documents, item.externalId, item.contentHash);
  }

  /** A version and its chunks arrive together: the new row owns exactly the item's
      chunks, and the chunks of every other row are what they were. */
  lemma ProcessAddsChunks(limits: Limits, s: Store, item: Item, row: nat)
    requires WellFormed(s) && Process(limits, s, item).Inserted?
    ensures ChunksOf(Process(limits, s, item).store.chunks, row) ==
            if row == |s.documents| then item.chunks else ChunksOf(s.chunks, row)
  {
    ChunksAppend(s.chunks, ChunkRows(|s.documents|, item.chunks), row);
    ChunksOfRows(|s.documents|, item.chunks, row);
    NoChunksYet(s.chunks, |s.documents|);
  }

  lemma {:induction false} ChunksAppend(a: seq<Chunk>, b: seq<Chunk>, row: nat)
    ensures ChunksOf(a + b, row) == ChunksOf(a, row) + ChunksOf(b, row)
  {
    if |b| == 0 {
      assert a + b == a;
    } else {
      ChunksAppend(a, b[..|b| - 1], row);
      assert (a + b)[..|a + b| - 1] == a + b[..|b| - 1];
    }
  }

  lemma {:induction false} ChunksOfRows(document: nat, texts: seq<string>, row: nat)
    ensures ChunksOf(ChunkRows(document, texts), row) == if row == document then texts else []
  {
    if |texts| > 0 {
      var m := |texts| - 1;
      ChunksOfRows(document, texts[..m], row);
      assert ChunkRows(document, texts)[..m] == ChunkRows(document, texts[..m]);
    }
  }

  lemma {:induction false} NoChunksYet(chunks: seq<Chunk>, row: nat)
    requires forall c :: 0 <= c < |chunks| ==> chunks[c].document < row
    ensures ChunksOf(chunks, row) == []
  {
    if |chunks| > 0 {
      NoChunksYet(chunks[..|chunks| - 1], row);
    }
  }

  /** Nothing stored is ever forgotten by adding a version. */
  lemma AddKeepsStored(s: Store, item: Item, version: nat, id: string, hash: string)
    ensures Stored(Add(s, item, version), id, hash) <==>
            Stored(s, id, hash) || (id == item.externalId && hash == item.contentHash)
  {
    var t := Add(s, item, version);
    if Stored(s, id, hash) {
      var i :| 0 <= i < |s.documents| && s.documents[i].externalId == id && s.documents[i].contentHash == hash;
      assert t.documents[i] == s.documents[i];
    }
    assert t.documents[|s.documents|] == Document(item.externalId, item.contentHash, version);
    if Stored(t, id, hash) {
      var i :| 0 <= i < |t.documents| && t.documents[i].externalId == id && t.documents[i].contentHash == hash;
      if i < |s.documents| {
        assert t.documents[i] == s.documents[i];
      }
    }
  }

  /** The latest hash is a stored hash. */
  lemma LatestIsStored(s: Store, id: string)
    requires LatestHash(s, id).Some?
    ensures Stored(s, id, LatestHash(s, id).value)
  {
    var d := Latest(s.documents, id).value;
    var i :| 0 <= i < |s.documents| && s.documents[i] == d;
  }
}
