/** Ingesting documents: `KnowledgeBaseService` of backend/app/services/knowledge_base.py. */
module KnowledgeBase {
  import opened Wrappers
  import opened Text
  import opened TextNormalization
  import opened Respacing
  import opened Chunking
  import opened ChunkingTheorems
  import opened Retrieval

  type DocumentId = nat

  datatype DocumentStatus = Processing | Indexed | Failed

  datatype IngestError = EmptyContent | TooLarge | AlreadyKnown | NotIndexed

  datatype DocumentRow = DocumentRow(content: string, contentHash: string, status: DocumentStatus, chunkCount: nat)

  datatype ChunkRow = ChunkRow(document: DocumentId, index: nat, content: string, embedding: Vector)

  datatype Store = Store(documents: map<DocumentId, DocumentRow>, chunks: seq<ChunkRow>, next: DocumentId)

  const EMPTY := Store(map[], [], 0)

  datatype Settings = Settings(size: nat, overlap: nat, maxBytes: nat, hash: string -> string)

  type Embedder = seq<string> -> Option<seq<Vector>>

  /** `len(text.encode("utf-8"))`. */
  function Utf8Length(text: string): nat {
    if text == "" then 0
    else
      var c := text[0] as int;
      (if c < 0x80 then 1 else if c < 0x800 then 2 else if c < 0x1_0000 then 3 else 4) + Utf8Length(text[1..])
  }

  function Contents(pieces: seq<Chunk>): (r: seq<string>)
    ensures |r| == |pieces|
    ensures forall i :: 0 <= i < |pieces| ==> r[i] == pieces[i].content
  {
    if pieces == [] then [] else [pieces[0].content] + Contents(pieces[1..])
  }

  function RowsOf(document: nat, pieces: seq<Chunk>, embeddings: seq<Vector>): (rows: seq<ChunkRow>)
    requires |pieces| == |embeddings|
    ensures |rows| == |pieces|
    ensures forall i :: 0 <= i < |pieces| ==>
              rows[i] == ChunkRow(document, pieces[i].index, pieces[i].content, embeddings[i])
  {
    seq(|pieces|, i requires 0 <= i < |pieces| =>
      ChunkRow(document, pieces[i].index, pieces[i].content, embeddings[i]))
  }

  function CountFor(rows: seq<ChunkRow>, document: nat): nat {
    if rows == [] then 0
    else CountFor(rows[..|rows| - 1], document) + if rows[|rows| - 1].document == document then 1 else 0
  }

  // ---------------------------------------------------------------------------
  // What is true of the tables
  // ---------------------------------------------------------------------------

  /** A chunk row repeats a contiguous, trimmed piece of what is stored for its document. */
  ghost predicate Faithful(documents: map<DocumentId, DocumentRow>, row: ChunkRow, size: nat) {
    && row.document in documents && documents[row.document].status == Indexed
    && WellCut(documents[row.document].content, Chunk(row.index, row.content), size)
  }

  ghost predicate AllFaithful(documents: map<DocumentId, DocumentRow>, chunks: seq<ChunkRow>, size: nat) {
    forall i :: 0 <= i < |chunks| ==> Faithful(documents, chunks[i], size)
  }

  ghost predicate Reachable(chunks: seq<ChunkRow>, document: DocumentId, content: string, p: nat) {
    exists i :: 0 <= i < |chunks| && chunks[i].document == document
                && Covers(content, Chunk(chunks[i].index, chunks[i].content), p, p + 1)
  }

  /** Every visible character of the document can be reached through one of its chunks. */
  ghost predicate Complete(chunks: seq<ChunkRow>, document: DocumentId, content: string) {
    forall p: nat :: p < |content| && !IsSpace(content[p]) ==> Reachable(chunks, document, content, p)
  }

  ghost predicate DocumentSound(row: DocumentRow, chunks: seq<ChunkRow>, d: DocumentId, hash: string -> string) {
    && row.content != "" && Normal(row.content) && row.contentHash == hash(row.content)
    && (row.status == Indexed ==> Complete(chunks, d, row.content))
    && row.status != Processing
    && row.chunkCount == CountFor(chunks, d)
  }

  ghost predicate Sound(s: Store, size: nat, hash: string -> string) {
    && AllFaithful(s.documents, s.chunks, size)
    && (forall d :: d in s.documents ==> d < s.next && DocumentSound(s.documents[d], s.chunks, d, hash))
    && (forall d, e | d in s.documents && e in s.documents ::
          s.documents[d].contentHash == s.documents[e].contentHash ==> d == e)
  }

  ghost predicate Known(documents: map<DocumentId, DocumentRow>, contentHash: string) {
    exists d :: d in documents && documents[d].contentHash == contentHash
  }

  // ---------------------------------------------------------------------------
  // Ingesting and deleting, on the tables
  // ---------------------------------------------------------------------------

  /** `_chunk_and_embed` up to the insert: the pieces and their embeddings, if the chunk
      settings are usable, there are pieces and the embedder answers with one vector each. */
  function Embedded(text: string, size: nat, overlap: nat, embed: Embedder):
      (r: Option<(seq<Chunk>, seq<Vector>)>)
    ensures r.Some? ==> |r.value.0| == |r.value.1| && overlap < size
                        && r.value.0 == ChunksOf(NormalizeText(text), size, overlap)
  {
    if overlap >= size then None
    else
      var pieces := ChunksOf(NormalizeText(text), size, overlap);
      if pieces == [] then None
      else
        var embeddings := embed(Contents(pieces));
        if embeddings.Some? && |embeddings.value| == |pieces| then Some((pieces, embeddings.value)) else None
  }

  lemma {:induction false} CountAppend(rows: seq<ChunkRow>, more: seq<ChunkRow>, d: nat)
    ensures CountFor(rows + more, d) == CountFor(rows, d) + CountFor(more, d)
  {
    if more == [] {
      assert rows + more == rows;
    } else {
      var n := |more| - 1;
      CountAppend(rows, more[..n], d);
      assert (rows + more)[..|rows| + n] == rows + more[..n];
    }
  }

  lemma {:induction false} CountUniform(rows: seq<ChunkRow>, document: nat, d: nat)
    requires forall i :: 0 <= i < |rows| ==> rows[i].document == document
    ensures CountFor(rows, d) == if d == document then |rows| else 0
  {
    if rows != [] {
      CountUniform(rows[..|rows| - 1], document, d);
    }
  }

  /** The checks of `ingest`, in their order; on success the new document. */
  ghost function IngestOutcome(s: Store, c: Settings, content: string, embed: Embedder): Result<DocumentId, IngestError> {
    var cleaned := NormalizeText(content);
    if cleaned == "" then Err(EmptyContent)
    else if Utf8Length(cleaned) > c.maxBytes then Err(TooLarge)
    else if Known(s.documents, c.hash(cleaned)) then Err(AlreadyKnown)
    else if Embedded(cleaned, c.size, c.overlap, embed).None? then Err(NotIndexed)
    else Ok(s.next)
  }

  function Added(s: Store, row: DocumentRow, more: seq<ChunkRow>): Store {
    Store(s.documents[s.next := row], s.chunks + more, s.next + 1)
  }

  /** A document that cannot be indexed stays, marked as failed, without chunks. */
  ghost function AfterIngest(s: Store, c: Settings, content: string, embed: Embedder): Store {
    var cleaned, outcome := NormalizeText(content), IngestOutcome(s, c, content, embed);
    if outcome == Err(NotIndexed) then Added(s, DocumentRow(cleaned, c.hash(cleaned), Failed, 0), [])
    else if outcome.Err? then s
    else
      var found := Embedded(cleaned, c.size, c.overlap, embed).value;
      Added(s, DocumentRow(cleaned, c.hash(cleaned), Indexed, |found.0|), RowsOf(s.next, found.0, found.1))
  }

  function RowsWithout(rows: seq<ChunkRow>, d: DocumentId): seq<ChunkRow> {
    if rows == [] then []
    else if rows[|rows| - 1].document == d then RowsWithout(rows[..|rows| - 1], d)
    else RowsWithout(rows[..|rows| - 1], d) + [rows[|rows| - 1]]
  }

  /** Deleting a document takes its chunks along. */
  function AfterDelete(s: Store, d: DocumentId): Store {
    s.(documents := s.documents - {d}, chunks := RowsWithout(s.chunks, d))
  }

  datatype Event = Upload(content: string, embed: Embedder) | Remove(document: DocumentId)

  ghost function Apply(s: Store, e: Event, c: Settings): Store {
    match e
    case Upload(content, embed) => AfterIngest(s, c, content, embed)
    case Remove(d) => AfterDelete(s, d)
  }

  ghost function Run(events: seq<Event>, c: Settings): Store {
    if events == [] then EMPTY
    else Apply(Run(events[..|events| - 1], c), events[|events| - 1], c)
  }

  // ---------------------------------------------------------------------------
  // Every step keeps the tables sound
  // ---------------------------------------------------------------------------

  lemma {:induction false} CountNone(rows: seq<ChunkRow>, d: nat)
    requires forall i :: 0 <= i < |rows| ==> rows[i].document != d
    ensures CountFor(rows, d) == 0
  {
    if rows != [] {
      CountNone(rows[..|rows| - 1], d);
    }
  }

  /** What was sound stays sound when rows of another document arrive. */
  lemma OldDocumentStaysSound(row: DocumentRow, chunks: seq<ChunkRow>, more: seq<ChunkRow>, d: DocumentId,
                              hash: string -> string)
    requires DocumentSound(row, chunks, d, hash)
    requires forall i :: 0 <= i < |more| ==> more[i].document != d
    ensures DocumentSound(row, chunks + more, d, hash)
  {
    hide Covers, Normal;
    CountAppend(chunks, more, d);
    CountNone(more, d);
    var content := row.content;
    if row.status == Indexed {
      forall p: nat | p < |content| && !IsSpace(content[p]) ensures Reachable(chunks + more, d, content, p) {
        assert Reachable(chunks, d, content, p);
        var i :| 0 <= i < |chunks| && chunks[i].document == d
                 && Covers(content, Chunk(chunks[i].index, chunks[i].content), p, p + 1);
        assert (chunks + more)[i] == chunks[i];
      }
    }
  }

  lemma NewRowsReach(chunks: seq<ChunkRow>, d: DocumentId, content: string, pieces: seq<Chunk>,
                     embeddings: seq<Vector>, p: nat)
    requires |embeddings| == |pieces| && SomeCovers(content, pieces, p, p + 1)
    ensures Reachable(chunks + RowsOf(d, pieces, embeddings), d, content, p)
  {
    hide Covers;
    var more := RowsOf(d, pieces, embeddings);
    var i :| 0 <= i < |pieces| && Covers(content, pieces[i], p, p + 1);
    assert (chunks + more)[|chunks| + i] == more[i];
    assert pieces[i] == Chunk(more[i].index, more[i].content);
  }

  lemma AddingKeepsFaithful(s: Store, row: DocumentRow, pieces: seq<Chunk>, embeddings: seq<Vector>, size: nat)
    requires AllFaithful(s.documents, s.chunks, size) && s.next !in s.documents
    requires |embeddings| == |pieces| && (pieces != [] ==> row.status == Indexed)
    requires forall i :: 0 <= i < |pieces| ==> WellCut(row.content, pieces[i], size)
    ensures var after := Added(s, row, RowsOf(s.next, pieces, embeddings));
            AllFaithful(after.documents, after.chunks, size)
  {
    hide WellCut;
    var after, more := Added(s, row, RowsOf(s.next, pieces, embeddings)), RowsOf(s.next, pieces, embeddings);
    forall i | 0 <= i < |after.chunks| ensures Faithful(after.documents, after.chunks[i], size) {
      if i < |s.chunks| {
        assert Faithful(s.documents, s.chunks[i], size);
      } else {
        assert pieces[i - |s.chunks|] == Chunk(after.chunks[i].index, after.chunks[i].content);
      }
    }
  }

  /** No chunk belongs to a document there is not. */
  lemma NoStrayChunks(s: Store, size: nat, d: DocumentId)
    requires AllFaithful(s.documents, s.chunks, size) && d !in s.documents
    ensures CountFor(s.chunks, d) == 0
  {
    hide WellCut;
    forall i | 0 <= i < |s.chunks| ensures s.chunks[i].document != d {
      assert Faithful(s.documents, s.chunks[i], size);
    }
    CountNone(s.chunks, d);
  }

  /** The chunks of a normal text make a sound document of it, although the chunker normalises
      the stored text once more. */
  lemma NewDocumentIsSound(s: Store, content: string, pieces: seq<Chunk>, embeddings: seq<Vector>, size: nat,
                           overlap: nat, hash: string -> string)
    requires AllFaithful(s.documents, s.chunks, size) && s.next !in s.documents
    requires Normal(content) && content != "" && overlap < size && |embeddings| == |pieces|
    requires pieces == ChunksOf(NormalizeText(content), size, overlap)
    ensures var row := DocumentRow(content, hash(content), Indexed, |pieces|);
            var after := Added(s, row, RowsOf(s.next, pieces, embeddings));
            DocumentSound(row, after.chunks, s.next, hash) && AllFaithful(after.documents, after.chunks, size)
  {
    FixedIffNormal(content);
    hide ChunksOf, WellCut, NormalizeText, Normal, Reachable, AllFaithful, SomeCovers, IsSpace;
    var row := DocumentRow(content, hash(content), Indexed, |pieces|);
    var more := RowsOf(s.next, pieces, embeddings);
    TrimmedBecauseNormal(content);
    ChunksAreWellCut(content, size, overlap);
    AddingKeepsFaithful(s, row, pieces, embeddings, size);
    NoStrayChunks(s, size, s.next);
    CountAppend(s.chunks, more, s.next);
    CountUniform(more, s.next, s.next);
    forall p: nat | p < |content| && !IsSpace(content[p]) ensures Reachable(s.chunks + more, s.next, content, p) {
      NothingIsSkipped(content, size, overlap, p);
      NewRowsReach(s.chunks, s.next, content, pieces, embeddings, p);
    }
  }

  lemma TrimmedBecauseNormal(content: string)
    requires Normal(content)
    ensures Trimmed(content)
  {
  }

  /** Adding a sound document whose content is not known keeps the tables sound. */
  lemma AddingKeepsSound(s: Store, row: DocumentRow, more: seq<ChunkRow>, size: nat, hash: string -> string)
    requires Sound(s, size, hash) && !Known(s.documents, row.contentHash)
    requires forall i :: 0 <= i < |more| ==> more[i].document == s.next
    requires DocumentSound(row, s.chunks + more, s.next, hash)
    requires var after := Added(s, row, more); AllFaithful(after.documents, after.chunks, size)
    ensures Sound(Added(s, row, more), size, hash)
  {
    hide DocumentSound, AllFaithful;
    var after := Added(s, row, more);
    forall d | d in after.documents ensures d < after.next && DocumentSound(after.documents[d], after.chunks, d, hash) {
      if d != s.next {
        OldDocumentStaysSound(s.documents[d], s.chunks, more, d, hash);
      }
    }
  }

  lemma IndexingKeepsSound(s: Store, content: string, pieces: seq<Chunk>, embeddings: seq<Vector>, size: nat,
                           overlap: nat, hash: string -> string)
    requires Sound(s, size, hash) && !Known(s.documents, hash(content))
    requires Normal(content) && content != "" && overlap < size && |embeddings| == |pieces|
    requires pieces == ChunksOf(NormalizeText(content), size, overlap)
    ensures Sound(Added(s, DocumentRow(content, hash(content), Indexed, |pieces|), RowsOf(s.next, pieces, embeddings)),
                  size, hash)
  {
    hide DocumentSound, Normal, ChunksOf, NormalizeText, AllFaithful, Known;
    NewDocumentIsSound(s, content, pieces, embeddings, size, overlap, hash);
    AddingKeepsSound(s, DocumentRow(content, hash(content), Indexed, |pieces|), RowsOf(s.next, pieces, embeddings), size, hash);
  }

  lemma FailingKeepsSound(s: Store, content: string, size: nat, hash: string -> string)
    requires Sound(s, size, hash) && !Known(s.documents, hash(content)) && Normal(content) && content != ""
    ensures Sound(Added(s, DocumentRow(content, hash(content), Failed, 0), []), size, hash)
  {
    hide Normal, WellCut, Known, AllFaithful;
    var row := DocumentRow(content, hash(content), Failed, 0);
    assert s.chunks + [] == s.chunks;
    NoStrayChunks(s, size, s.next);
    AddingKeepsFaithful(s, row, [], [], size);
    assert RowsOf(s.next, [], []) == [];
    AddingKeepsSound(s, row, [], size, hash);
  }

  lemma IngestKeepsSound(s: Store, c: Settings, content: string, embed: Embedder)
    requires Sound(s, c.size, c.hash)
    ensures Sound(AfterIngest(s, c, content, embed), c.size, c.hash)
  {
    hide Sound, Normal, ChunksOf, NormalizeText, Known, Utf8Length, Embedded;
    var cleaned, outcome := NormalizeText(content), IngestOutcome(s, c, content, embed);
    NormalizedIsNormal(content);
    if outcome == Err(NotIndexed) {
      FailingKeepsSound(s, cleaned, c.size, c.hash);
    } else if outcome.Ok? {
      var found := Embedded(cleaned, c.size, c.overlap, embed).value;
      IndexingKeepsSound(s, cleaned, found.0, found.1, c.size, c.overlap, c.hash);
    }
  }

  lemma {:induction false} RowsWithoutElements(rows: seq<ChunkRow>, d: DocumentId)
    ensures forall r :: r in RowsWithout(rows, d) <==> r in rows && r.document != d
  {
    if rows != [] {
      var n := |rows| - 1;
      RowsWithoutElements(rows[..n], d);
      assert rows == rows[..n] + [rows[n]];
    }
  }

  lemma {:induction false} CountWithout(rows: seq<ChunkRow>, d: DocumentId, e: DocumentId)
    requires d != e
    ensures CountFor(RowsWithout(rows, d), e) == CountFor(rows, e)
  {
    if rows != [] {
      var n := |rows| - 1;
      CountWithout(rows[..n], d, e);
      var kept := RowsWithout(rows[..n], d);
      assert (kept + [rows[n]])[..|kept|] == kept;
    }
  }

  /** The chunks of another document are all still there. */
  lemma OtherDocumentStaysSound(row: DocumentRow, chunks: seq<ChunkRow>, d: DocumentId, e: DocumentId, hash: string -> string)
    requires d != e && DocumentSound(row, chunks, e, hash)
    ensures DocumentSound(row, RowsWithout(chunks, d), e, hash)
  {
    hide Covers, Normal, RowsWithout;
    CountWithout(chunks, d, e);
    RowsWithoutElements(chunks, d);
    var content, kept := row.content, RowsWithout(chunks, d);
    if row.status == Indexed {
      forall p: nat | p < |content| && !IsSpace(content[p]) ensures Reachable(kept, e, content, p) {
        assert Reachable(chunks, e, content, p);
        var i :| 0 <= i < |chunks| && chunks[i].document == e
                 && Covers(content, Chunk(chunks[i].index, chunks[i].content), p, p + 1);
        assert chunks[i] in kept;
        var k :| 0 <= k < |kept| && kept[k] == chunks[i];
      }
    }
  }

  lemma DeleteKeepsSound(s: Store, d: DocumentId, size: nat, hash: string -> string)
    requires Sound(s, size, hash)
    ensures Sound(AfterDelete(s, d), size, hash)
  {
    hide DocumentSound, WellCut, RowsWithout;
    var after := AfterDelete(s, d);
    RowsWithoutElements(s.chunks, d);
    forall e | e in after.documents ensures DocumentSound(after.documents[e], after.chunks, e, hash) {
      OtherDocumentStaysSound(s.documents[e], s.chunks, d, e, hash);
    }
    forall i | 0 <= i < |after.chunks| ensures Faithful(after.documents, after.chunks[i], size) {
      assert after.chunks[i] in after.chunks;
      var k :| 0 <= k < |s.chunks| && s.chunks[k] == after.chunks[i];
      assert Faithful(s.documents, s.chunks[k], size);
    }
  }

  /** After every run of uploads and deletions each stored chunk is a contiguous piece of what
      is stored for its document, every visible character of an indexed document is in one of
      its chunks, the chunk counts are right and no two documents have one content hash. */
  lemma {:induction false} RunsAreSound(events: seq<Event>, c: Settings)
    ensures Sound(Run(events, c), c.size, c.hash)
  {
    hide Sound, AfterIngest, AfterDelete;
    if events == [] {
      EmptyIsSound(c);
    } else {
      var s := Run(events[..|events| - 1], c);
      RunsAreSound(events[..|events| - 1], c);
      match events[|events| - 1]
      case Upload(content, embed) => IngestKeepsSound(s, c, content, embed);
      case Remove(d) => DeleteKeepsSound(s, d, c.size, c.hash);
    }
  }

  lemma EmptyIsSound(c: Settings)
    ensures Sound(EMPTY, c.size, c.hash)
  {
  }

  /** `len` of the UTF-8 encoding, character by character. */
  lemma {:induction false} BytesAddUp(text: string, c: char)
    ensures Utf8Length("") == 0
    ensures Utf8Length(text + [c]) == Utf8Length(text) +
              (if c as int <= 0x7F then 1 else if c as int <= 0x7FF then 2 else if c as int <= 0xFFFF then 3 else 4)
  {
    if text == "" {
      assert text + [c] == [c] && [c][1..] == "";
    } else {
      BytesAddUp(text[1..], c);
      assert (text + [c])[0] == text[0] && (text + [c])[1..] == text[1..] + [c];
    }
  }

  /** A text cleans to nothing exactly if there is nothing visible in it. */
  lemma BlankIffEmpty(content: string)
    ensures NormalizeText(content) == "" <==> AllSpace(content)
  {
    hide NormalizeText, Visible, IsSpace;
    NormalizingKeepsTheText(content);
    NothingVisible(content);
    NothingVisible(NormalizeText(content));
    NormalizedIsNormal(content);
  }

  lemma CleanedHasPieces(content: string, size: nat, overlap: nat)
    requires overlap < size && NormalizeText(content) != ""
    ensures ChunksOf(NormalizeText(content), size, overlap) != []
  {
    hide NormalizeText, ChunksOf, LinesTrimmed, NoRuns, NoReturns;
    NormalizedIsNormal(content);
    NothingIsSkipped(NormalizeText(content), size, overlap, 0);
  }

  /** The answers to an upload: nothing visible, too many bytes, content known already; else it
      is indexed exactly if the overlap is below the chunk size and the embedder gives as many
      vectors as there are chunks. */
  lemma UploadAnswers(s: Store, c: Settings, content: string, embed: Embedder)
    ensures var cleaned, outcome := NormalizeText(content), IngestOutcome(s, c, content, embed);
            var large := Utf8Length(cleaned) > c.maxBytes;
            var known := exists d :: d in s.documents && s.documents[d].contentHash == c.hash(cleaned);
            && (outcome == Err(EmptyContent) <==> AllSpace(content))
            && (outcome == Err(TooLarge) <==> !AllSpace(content) && large)
            && (outcome == Err(AlreadyKnown) <==> !AllSpace(content) && !large && known)
            && (outcome.Ok? || outcome == Err(NotIndexed) <==> !AllSpace(content) && !large && !known)
            && (outcome.Ok? ==>
                  && outcome.value == s.next && c.overlap < c.size
                  && embed(Contents(ChunksOf(cleaned, c.size, c.overlap))).Some?
                  && |embed(Contents(ChunksOf(cleaned, c.size, c.overlap))).value| == |ChunksOf(cleaned, c.size, c.overlap)|)
            && (outcome == Err(NotIndexed) ==>
                  || c.overlap >= c.size
                  || embed(Contents(ChunksOf(cleaned, c.size, c.overlap))).None?
                  || |embed(Contents(ChunksOf(cleaned, c.size, c.overlap))).value| != |ChunksOf(cleaned, c.size, c.overlap)|)
  {
    hide NormalizeText, ChunksOf, Utf8Length, AllSpace, Contents;
    BlankIffEmpty(content);
    NormalizeIsIdempotent(content);
    if c.overlap < c.size && NormalizeText(content) != "" {
      CleanedHasPieces(content, c.size, c.overlap);
    }
  }

  /** A successful upload adds the cleaned document and its chunks in order, each with the
      vector the embedder gave for it; one that could not be indexed only a failed document;
      any other nothing. */
  lemma UploadStores(s: Store, c: Settings, content: string, embed: Embedder)
    ensures var cleaned, outcome := NormalizeText(content), IngestOutcome(s, c, content, embed);
            var after := AfterIngest(s, c, content, embed);
            && (outcome == Err(NotIndexed) ==>
                  && after.documents == s.documents[s.next := DocumentRow(cleaned, c.hash(cleaned), Failed, 0)]
                  && after.chunks == s.chunks && after.next == s.next + 1)
            && (outcome.Err? && outcome != Err(NotIndexed) ==> after == s)
            && (outcome.Ok? ==>
                  c.overlap < c.size &&
                  var pieces := ChunksOf(cleaned, c.size, c.overlap);
                  var vectors := embed(Contents(pieces));
                  && vectors.Some? && |vectors.value| == |pieces| && after.next == s.next + 1
                  && after.documents == s.documents[s.next := DocumentRow(cleaned, c.hash(cleaned), Indexed, |pieces|)]
                  && |after.chunks| == |s.chunks| + |pieces| && s.chunks <= after.chunks
                  && forall i :: 0 <= i < |pieces| ==>
                       after.chunks[|s.chunks| + i] ==
                       ChunkRow(s.next, pieces[i].index, pieces[i].content, vectors.value[i]))
  {
    hide NormalizeText, ChunksOf, Utf8Length, Contents, Known;
    NormalizeIsIdempotent(content);
  }

  /** A document that could not be indexed stands in the way of its own content: uploading it
      again is refused as known, however well the embedder works by then. Once the failed
      document is deleted the upload fares as it would have fared without the first attempt. */
  lemma FailedUploadBlocksARetry(events: seq<Event>, c: Settings, content: string, embed: Embedder, retry: Embedder)
    requires IngestOutcome(Run(events, c), c, content, embed) == Err(NotIndexed)
    ensures var s := Run(events, c);
            var failed := AfterIngest(s, c, content, embed);
            var removed := AfterDelete(failed, s.next);
            && IngestOutcome(failed, c, content, retry) == Err(AlreadyKnown)
            && (IngestOutcome(removed, c, content, retry).Ok? <==> IngestOutcome(s, c, content, retry).Ok?)
            && IngestOutcome(removed, c, content, retry) != Err(AlreadyKnown)
  {
    var s := Run(events, c);
    RunsAreSound(events, c);
    hide Run, AllFaithful, NormalizeText, Utf8Length, Embedded, DocumentSound;
    var failed := AfterIngest(s, c, content, embed);
    assert failed.documents[s.next].contentHash == c.hash(NormalizeText(content));
    assert AfterDelete(failed, s.next).documents == s.documents;
  }

  // ---------------------------------------------------------------------------
  // The service
  // ---------------------------------------------------------------------------

  class Document {
    const content: string
    const contentHash: string
    var status: DocumentStatus
    var chunkCount: nat

    constructor (content: string, contentHash: string)
      ensures Row() == DocumentRow(content, contentHash, Processing, 0)
    {
      this.content, this.contentHash, status, chunkCount := content, contentHash, Processing, 0;
    }

    ghost function Row(): DocumentRow
      reads this
    {
      DocumentRow(content, contentHash, status, chunkCount)
    }
  }

  class KnowledgeBaseService {
    const config: Settings
    var documents: map<DocumentId, Document>
    var chunks: seq<ChunkRow>
    var next: DocumentId

    constructor (config: Settings)
      ensures Valid() && Now() == EMPTY && this.config == config
    {
      this.config := config;
      documents, chunks, next := map[], [], 0;
    }

    ghost function Rows(): map<DocumentId, DocumentRow>
      reads this, documents.Values
    {
      map d | d in documents :: documents[d].Row()
    }

    ghost function Now(): Store
      reads this, documents.Values
    {
      Store(Rows(), chunks, next)
    }

    ghost predicate Valid()
      reads this, documents.Values
    {
      Sound(Now(), config.size, config.hash)
    }

    /** Split a text, embed every piece and store the rows; nothing is stored on failure. */
    method ChunkAndEmbed(document: DocumentId, text: string, embed: Embedder) returns (count: Option<nat>)
      modifies this`chunks
      ensures var found := Embedded(text, config.size, config.overlap, embed);
              && (found.None? ==> count == None && chunks == old(chunks))
              && (found.Some? ==> count == Some(|found.value.0|) &&
                                  chunks == old(chunks) + RowsOf(document, found.value.0, found.value.1))
    {
      hide ChunksOf, NormalizeText;
      var split := ChunkText(text, config.size, config.overlap);
      if split.Err? || split.value == [] {
        return None;
      }
      var pieces := split.value;
      var embeddings := embed(Contents(pieces));
      if embeddings.None? || |embeddings.value| != |pieces| {
        return None;
      }
      chunks := chunks + RowsOf(document, pieces, embeddings.value);
      return Some(|pieces|);
    }

    method Ingest(content: string, embed: Embedder) returns (result: Result<DocumentId, IngestError>)
      requires Valid()
      modifies this
      ensures Valid()
      ensures result == old(IngestOutcome(Now(), config, content, embed))
      ensures Now() == old(AfterIngest(Now(), config, content, embed))
      ensures result.Err? && result.error != NotIndexed ==> Now() == old(Now())
      ensures result == Err(NotIndexed) ==> chunks == old(chunks)
      ensures result.Ok? ==> old(chunks) < chunks && forall r :: r in chunks[|old(chunks)|..] ==> r.document == result.value
    {
      hide ChunksOf, NormalizeText, Normal, Sound, Utf8Length, Embedded, Known, Rows;
      ghost var before := Now();
      IngestKeepsSound(before, config, content, embed);
      var cleaned := NormalizeText(content);
      if cleaned == "" {
        return Err(EmptyContent);
      }
      if Utf8Length(cleaned) > config.maxBytes {
        return Err(TooLarge);
      }
      var contentHash := config.hash(cleaned);
      var known := GetByHash(contentHash);
      if known {
        return Err(AlreadyKnown);
      }
      FreshIsFree(before, config.size, config.hash);
      RowKeys();
      var document := new Document(cleaned, contentHash);
      var d := next;
      documents := documents[d := document];
      next := next + 1;
      var count := ChunkAndEmbed(d, cleaned, embed);
      if count.None? {
        document.status := Failed;
        DocumentAdded(d);
        assert chunks == before.chunks + [];
        return Err(NotIndexed);
      }
      document.status := Indexed;
      document.chunkCount := count.value;
      DocumentAdded(d);
      SomeRows(cleaned, embed, d);
      return Ok(d);
    }

    lemma SomeRows(text: string, embed: Embedder, d: DocumentId)
      requires Embedded(text, config.size, config.overlap, embed).Some?
      ensures var found := Embedded(text, config.size, config.overlap, embed).value;
              RowsOf(d, found.0, found.1) != []
    {
    }

    /** Its chunks go with it. */
    method DeleteDocument(d: DocumentId) returns (found: bool)
      requires Valid()
      modifies this`documents, this`chunks
      ensures Valid() && found == (d in old(documents))
      ensures Now() == if found then AfterDelete(old(Now()), d) else old(Now())
    {
      hide Sound, RowsWithout, Rows;
      DeleteKeepsSound(Now(), d, config.size, config.hash);
      found := d in documents;
      if found {
        documents := documents - {d};
        chunks := RowsWithout(chunks, d);
        DocumentRemoved(d);
      }
    }

    /** A new document object adds one row. */
    twostate lemma DocumentAdded(d: DocumentId)
      requires d !in old(documents) && d in documents && documents == old(documents)[d := documents[d]]
      requires forall e :: e in old(documents) ==> unchanged(old(documents)[e])
      ensures Rows() == old(Rows())[d := documents[d].Row()]
    {
    }

    twostate lemma DocumentRemoved(d: DocumentId)
      requires documents == old(documents) - {d} && forall e :: e in documents ==> unchanged(documents[e])
      ensures Rows() == old(Rows()) - {d}
    {
    }

    lemma RowKeys()
      ensures Rows().Keys == documents.Keys
    {
    }

    method GetByHash(contentHash: string) returns (known: bool)
      ensures known == Known(Rows(), contentHash)
    {
      known := exists d :: d in documents && documents[d].contentHash == contentHash;
      if known {
        var d :| d in documents && documents[d].contentHash == contentHash;
        assert Rows()[d].contentHash == contentHash;
      } else {
        assert forall d :: d in documents ==> Rows()[d].contentHash == documents[d].contentHash;
      }
    }
  }

  lemma FreshIsFree(s: Store, size: nat, hash: string -> string)
    requires Sound(s, size, hash)
    ensures s.next !in s.documents
  {
  }
}
