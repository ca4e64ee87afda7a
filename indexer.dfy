/**
 * The record-building loop of the indexing script: every document is split
 * into sections, every section with content into chunks, and every chunk
 * becomes one record upserted into the search index, after the index has
 * been reset.
 *
 * The search service is modelled as a map from record id to record together
 * with a log of the calls made to it. Whether a call succeeds is decided by
 * the service and is left open.
 */
module Indexer {
  import opened Wrappers
  import opened Text
  import opened Slug
  import opened FrontMatter
  import opened Sections
  import opened Chunker

  /** A document as `processMarkdownFile` returns it: `_meta.path`, title and text. */
  datatype Document = Document(path: string, title: string, content: string)

  /**
   * `SearchMetadata`, with its `type` field named `kind`. The chunk fields are
   * `None` where the source leaves them out of the object.
   */
  datatype Metadata = Metadata(
    title: string, path: string, level: nat, kind: string, content: string,
    documentTitle: string, chunkIndex: Option<nat>, totalChunks: Option<nat>)

  /** One upserted record: its id, its searchable `{title, content}` and its metadata. */
  datatype Record = Record(id: string, title: string, content: string, metadata: Metadata)

  const SectionKind := "section"
  const ChunkKind := "section-chunk"

  /* ---- Documents ---- */

  /**
   * `processMarkdownFile` once the file is read: `dirPath` is the file's
   * directory, relative to the working directory, with the docs path
   * rewritten to `docs`.
   */
  function ProcessMarkdownFile(dirPath: string, fileName: string, content: string): Document {
    Document(dirPath + "/" + DocumentId(content, fileName), ExtractTitle(content, fileName), content)
  }

  /**
   * A markdown file without front matter is filed under its stem and titled
   * with its stem in title case.
   */
  lemma PlainFileDocument(dirPath: string, stem: string, ext: string, content: string)
    requires stem != [] && (ext == ".md" || ext == ".mdx")
    requires !StartsAt(content, 0, "---")
    ensures ProcessMarkdownFile(dirPath, stem + ext, content)
            == Document(dirPath + "/" + stem, TitleCase(stem, true), content)
  {
    StripMarkdownExtensionRoundTrip(stem);
    StemOfMarkdownFile(stem, ext);
    FileNameTitleIsTitleCase(stem + ext);
  }

  /**
   * A front-matter `id` line, with no earlier line starting with `id:`,
   * names the document's path, whatever the file is called.
   */
  lemma FrontMatterIdDocument(dirPath: string, fileName: string, s: string, pre: string,
                              quote: string, v: string, more: string, body: string)
    requires quote == [] || quote == "\"" || quote == "'"
    requires v != [] && IsTrimmed(v)
    requires forall i :: 0 <= i < |v| ==> !IsLineTerminator(v[i]) && !IsQuote(v[i])
    requires s == "---" + pre + ("\nid: " + quote + v + quote + "\n" + more + "---" + body)
    requires forall k :: 3 <= k < 3 + |pre| ==> !StartsAt(s, k, "\nid:")
    ensures ProcessMarkdownFile(dirPath, fileName, s).path == dirPath + "/" + v
  {
    ExtractIdRoundTrip(s, fileName, pre, quote, v, more, body);
  }

  /* ---- Records ---- */

  /** The chunks of a section's content, as `splitContentIntoChunks` cuts them at the default size and overlap. */
  function SectionChunks(sec: Section): seq<Chunk> {
    Chunks(sec.content, DefaultMaxChunkSize, DefaultOverlapSize)
  }

  /** The `-chunk-n` suffix, numbered from 1, of a record whose section has several chunks. */
  function ChunkSuffix(chunks: seq<Chunk>, chunk: Chunk): string {
    if |chunks| > 1 then "-chunk-" + NatToString(chunk.chunkIndex + 1) else ""
  }

  /** The id prefix every record of a section shares: its document's path, `#` and its slug. */
  function SectionAnchor(doc: Document, sec: Section): string {
    doc.path + "#" + Slugify(sec.title)
  }

  /** The record of one chunk of a section whose records' ids open with `anchor`. */
  function ChunkRecord(anchor: string, doc: Document, sec: Section, chunks: seq<Chunk>, chunk: Chunk): Record {
    var several := |chunks| > 1;
    Record(anchor + ChunkSuffix(chunks, chunk), sec.title, chunk.content,
           Metadata(sec.title, doc.path, sec.level, if several then ChunkKind else SectionKind,
                    chunk.content, doc.title,
                    if several then Some(chunk.chunkIndex) else None,
                    if several then Some(chunk.totalChunks) else None))
  }

  /** The records of the chunks `chunks` of a section, in chunk order. */
  function ChunkRecords(anchor: string, doc: Document, sec: Section, chunks: seq<Chunk>): (recs: seq<Record>)
    ensures |recs| == |chunks|
  {
    seq(|chunks|, k requires 0 <= k < |chunks| => ChunkRecord(anchor, doc, sec, chunks, chunks[k]))
  }

  /** The records of one section; none when its content is empty. */
  function SectionRecords(doc: Document, sec: Section): (recs: seq<Record>) {
    if sec.content == [] then [] else ChunkRecords(SectionAnchor(doc, sec), doc, sec, SectionChunks(sec))
  }

  /** `plan` lists the records of each of the sections `secs`, in order. */
  predicate Planned(doc: Document, secs: seq<Section>, plan: seq<seq<Record>>) {
    && |plan| == |secs|
    && forall i {:trigger SectionRecords(doc, secs[i])} :: 0 <= i < |secs| ==> plan[i] == SectionRecords(doc, secs[i])
  }

  /** The records of every section of `secs`, section by section. */
  function SectionPlan(doc: Document, secs: seq<Section>): (plan: seq<seq<Record>>)
    ensures Planned(doc, secs, plan)
  {
    seq(|secs|, i requires 0 <= i < |secs| => SectionRecords(doc, secs[i]))
  }

  /** The lists of `plan`, one after the other. */
  function Flatten(plan: seq<seq<Record>>): seq<Record> {
    if plan == [] then [] else Flatten(plan[..|plan| - 1]) + plan[|plan| - 1]
  }

  /** The records of the sections `secs`, section after section. */
  function SectionsRecords(doc: Document, secs: seq<Section>): seq<Record> {
    Flatten(SectionPlan(doc, secs))
  }

  /** The records one document produces. */
  function DocumentRecords(doc: Document): seq<Record> {
    SectionsRecords(doc, SplitMdxByHeadings(doc.content))
  }

  /**
   * A document written as well-formed sections, each a heading line and its
   * content, yields the records of exactly those sections, in order.
   */
  lemma RenderedDocumentRecords(doc: Document, secs: seq<Section>)
    requires forall i :: 0 <= i < |secs| ==> WellFormed(secs[i])
    requires doc.content == Render(secs)
    ensures DocumentRecords(doc) == SectionsRecords(doc, secs)
  {
    SplitRenderRoundTrip(secs);
  }

  /** Chunks as the chunker returns them: non-empty, carrying their count, indices increasing. */
  predicate WellNumbered(cs: seq<Chunk>) {
    && (forall k :: 0 <= k < |cs| ==> cs[k].content != [] && cs[k].totalChunks == |cs|)
    && (forall k, m :: 0 <= k < m < |cs| ==> cs[k].chunkIndex < cs[m].chunkIndex)
  }

  /** Chunk indices that increase step by step increase across any gap. */
  lemma {:induction false} IncreasingPairs(cs: seq<Chunk>, k: nat, m: nat)
    requires forall j :: 0 <= j < |cs| - 1 ==> cs[j].chunkIndex < cs[j + 1].chunkIndex
    requires k < m < |cs|
    ensures cs[k].chunkIndex < cs[m].chunkIndex
    decreases m - k
  {
    if k + 1 < m {
      IncreasingPairs(cs, k + 1, m);
    }
  }

  /** The chunks of a section with content are well numbered. */
  lemma SectionChunksWellNumbered(sec: Section)
    requires sec.content != []
    ensures WellNumbered(SectionChunks(sec))
  {
    var content := sec.content;
    var cs := SectionChunks(sec);
    if |content| > DefaultMaxChunkSize {
      ChunksProperties(content, DefaultMaxChunkSize, DefaultOverlapSize);
      forall k, m | 0 <= k < m < |cs| ensures cs[k].chunkIndex < cs[m].chunkIndex {
        IncreasingPairs(cs, k, m);
      }
    }
  }

  /** A trimmed section with content has at least one chunk. */
  lemma TrimmedSectionHasChunks(sec: Section)
    requires sec.content != [] && IsTrimmed(sec.content)
    ensures SectionChunks(sec) != []
  {
    var content := sec.content;
    if |content| > DefaultMaxChunkSize {
      var overlap := EffectiveOverlap(DefaultMaxChunkSize, DefaultOverlapSize);
      var ws := Windows(content, DefaultMaxChunkSize, overlap, 0, 0,
                        MaxIterations(|content|, DefaultMaxChunkSize, overlap));
      WindowsShape(content, DefaultMaxChunkSize, overlap, 0, 0,
                   MaxIterations(|content|, DefaultMaxChunkSize, overlap), ws);
      var first := Slice(content, 0, ws[0].end);
      assert first[0] == content[0];
      TrimEmptyIffBlank(first);
      EmittedCons(content, ws[0], ws[1..]);
      assert [ws[0]] + ws[1..] == ws;
    }
  }

  /** What the record of chunk `i` says, for well-numbered chunks. */
  predicate RecordFits(anchor: string, doc: Document, sec: Section, n: nat, r: Record) {
    && StartsAt(r.id, 0, anchor)
    && r.title == r.metadata.title == sec.title
    && r.metadata.level == sec.level
    && r.metadata.path == doc.path
    && r.metadata.documentTitle == doc.title
    && r.content == r.metadata.content != []
    && (r.metadata.kind == ChunkKind <==> n > 1)
    && (r.metadata.kind == SectionKind <==> n <= 1)
    && (r.metadata.chunkIndex.Some? <==> n > 1)
    && (r.metadata.totalChunks.Some? <==> n > 1)
    && (r.metadata.totalChunks.Some? ==> r.metadata.totalChunks.value == n)
  }

  /** Every record built from well-numbered chunks fits its section and document. */
  lemma ChunkRecordsFit(anchor: string, doc: Document, sec: Section, cs: seq<Chunk>)
    requires WellNumbered(cs)
    ensures forall i :: 0 <= i < |cs| ==> RecordFits(anchor, doc, sec, |cs|, ChunkRecords(anchor, doc, sec, cs)[i])
  {
    var recs := ChunkRecords(anchor, doc, sec, cs);
    forall i | 0 <= i < |cs| ensures RecordFits(anchor, doc, sec, |cs|, recs[i]) {
      assert recs[i].id == anchor + ChunkSuffix(cs, cs[i]);
      assert recs[i].id[..|anchor|] == anchor;
      assert StartsAt(recs[i].id, 0, anchor);
    }
  }

  /**
   * What every record of a section says: its id opens with the section's
   * anchor; its title, level, path and document title are the section's and
   * the document's; its content is a non-empty chunk; its type is
   * `section-chunk`, with the chunk fields present, exactly when the section
   * has several records, and `totalChunks` is then their number. A section
   * with empty content has no record, and a trimmed one with content has some.
   */
  lemma SectionRecordsShape(doc: Document, sec: Section)
    ensures var recs := SectionRecords(doc, sec);
            && (sec.content == [] ==> recs == [])
            && (sec.content != [] && IsTrimmed(sec.content) ==> recs != [])
            && forall i :: 0 <= i < |recs| ==> RecordFits(SectionAnchor(doc, sec), doc, sec, |recs|, recs[i])
  {
    if sec.content != [] {
      SectionChunksWellNumbered(sec);
      ChunkRecordsFit(SectionAnchor(doc, sec), doc, sec, SectionChunks(sec));
      if IsTrimmed(sec.content) {
        TrimmedSectionHasChunks(sec);
      }
    }
  }

  /** A short section is one record: id `path#slug`, type `section`, no chunk fields, content untouched. */
  lemma ShortSectionRecord(doc: Document, sec: Section)
    requires sec.content != [] && |sec.content| <= DefaultMaxChunkSize
    ensures SectionRecords(doc, sec)
            == [Record(doc.path + "#" + Slugify(sec.title), sec.title, sec.content,
                       Metadata(sec.title, doc.path, sec.level, "section", sec.content, doc.title, None, None))]
  {
    assert SectionChunks(sec) == [Chunk(sec.content, 0, 1)];
    assert doc.path + "#" + Slugify(sec.title) + "" == doc.path + "#" + Slugify(sec.title);
  }

  /**
   * Among several chunks, record `i` is the anchor followed by `-chunk-` and
   * one more than the chunk's index, the index its metadata carries.
   */
  lemma ChunkRecordId(anchor: string, doc: Document, sec: Section, cs: seq<Chunk>, i: nat)
    requires |cs| > 1 && i < |cs|
    ensures var r := ChunkRecords(anchor, doc, sec, cs)[i];
            && r.metadata.chunkIndex == Some(cs[i].chunkIndex)
            && r.id == anchor + "-chunk-" + NatToString(cs[i].chunkIndex + 1)
  {
  }

  /** Different chunk numbers after the same prefix give different ids. */
  lemma NumberedIdsDistinct(p: string, a: nat, b: nat)
    requires a != b
    ensures p + NatToString(a) != p + NatToString(b)
  {
    if p + NatToString(a) == p + NatToString(b) {
      assert NatToString(a) == (p + NatToString(a))[|p|..];
      assert NatToString(b) == (p + NatToString(b))[|p|..];
      NatToStringInjective(a, b);
    }
  }

  /** No two records built from well-numbered chunks share an id. */
  lemma ChunkRecordIdsDistinct(anchor: string, doc: Document, sec: Section, cs: seq<Chunk>, i: nat, j: nat)
    requires WellNumbered(cs) && i < j < |cs|
    ensures ChunkRecords(anchor, doc, sec, cs)[i].id != ChunkRecords(anchor, doc, sec, cs)[j].id
  {
    if |cs| > 1 {
      ChunkRecordId(anchor, doc, sec, cs, i);
      ChunkRecordId(anchor, doc, sec, cs, j);
      NumberedIdsDistinct(anchor + "-chunk-", cs[i].chunkIndex + 1, cs[j].chunkIndex + 1);
    }
  }

  /** No two records of one section share an id. */
  lemma SectionRecordIdsDistinct(doc: Document, sec: Section, i: nat, j: nat)
    requires i < j < |SectionRecords(doc, sec)|
    ensures SectionRecords(doc, sec)[i].id != SectionRecords(doc, sec)[j].id
  {
    SectionChunksWellNumbered(sec);
    ChunkRecordIdsDistinct(SectionAnchor(doc, sec), doc, sec, SectionChunks(sec), i, j);
  }

  /** Two short sections with the same title in one document get the same record id. */
  lemma SameTitleSameId(doc: Document, s1: Section, s2: Section)
    requires s1.title == s2.title
    requires s1.content != [] && |s1.content| <= DefaultMaxChunkSize
    requires s2.content != [] && |s2.content| <= DefaultMaxChunkSize
    ensures SectionRecords(doc, s1)[0].id == SectionRecords(doc, s2)[0].id
  {
    ShortSectionRecord(doc, s1);
    ShortSectionRecord(doc, s2);
  }

  /* ---- The search index ---- */

  /** A call made to the search service, and whether it succeeded. */
  datatype Call = ResetCall(ok: bool) | UpsertCall(rec: Record, ok: bool)

  /** What one call does to an index holding `m`. */
  function Step(m: map<string, Record>, c: Call): map<string, Record> {
    match c
    case ResetCall(ok) => if ok then map[] else m
    case UpsertCall(r, ok) => if ok then m[r.id := r] else m
  }

  /**
   * What the calls `calls` leave in an index that held `m`: a successful
   * reset empties it, a successful upsert stores its record under its id,
   * and a failed call changes nothing.
   */
  function Replay(m: map<string, Record>, calls: seq<Call>): map<string, Record>
    decreases |calls|
  {
    if calls == [] then m else Replay(Step(m, calls[0]), calls[1..])
  }

  /** Replaying one more call is one more step. */
  lemma {:induction false} ReplaySnoc(m: map<string, Record>, calls: seq<Call>, c: Call)
    ensures Replay(m, calls + [c]) == Step(Replay(m, calls), c)
    decreases |calls|
  {
    if calls != [] {
      assert (calls + [c])[1..] == calls[1..] + [c];
      ReplaySnoc(Step(m, calls[0]), calls[1..], c);
    }
  }

  /** The remote index: the records it holds, what it held at first, and the calls made to it since. */
  class SearchIndex {
    var records: map<string, Record>
    ghost var initial: map<string, Record>
    ghost var calls: seq<Call>

    /** The records are what the calls made so far left in the initial index. */
    ghost predicate Valid()
      reads this
    {
      records == Replay(initial, calls)
    }

    /** An index that already holds `existing`. */
    constructor (existing: map<string, Record>)
      ensures Valid() && initial == existing && calls == [] && records == existing
    {
      records := existing;
      initial := existing;
      calls := [];
    }

    /** `index.reset()`: the service empties the index, or fails and leaves it alone. */
    method Reset() returns (ok: bool)
      requires Valid()
      modifies this
      ensures Valid() && initial == old(initial) && calls == old(calls) + [ResetCall(ok)]
      ensures records == if ok then map[] else old(records)
    {
      ok :| true;
      ReplaySnoc(initial, calls, ResetCall(ok));
      calls := calls + [ResetCall(ok)];
      if ok {
        records := map[];
      }
    }

    /** `index.upsert(rec)`: the service stores `rec` under its id, or fails and leaves the index alone. */
    method Upsert(rec: Record) returns (ok: bool)
      requires Valid()
      modifies this
      ensures Valid() && initial == old(initial) && calls == old(calls) + [UpsertCall(rec, ok)]
      ensures records == if ok then old(records)[rec.id := rec] else old(records)
    {
      ok :| true;
      ReplaySnoc(initial, calls, UpsertCall(rec, ok));
      calls := calls + [UpsertCall(rec, ok)];
      if ok {
        records := records[rec.id := rec];
      }
    }
  }

  /* ---- The indexing run ---- */

  /** Successful upserts of `recs`, in order. */
  function Successes(recs: seq<Record>): (calls: seq<Call>)
    ensures |calls| == |recs|
  {
    seq(|recs|, i requires 0 <= i < |recs| => UpsertCall(recs[i], true))
  }

  lemma SuccessesAppend(a: seq<Record>, b: seq<Record>)
    ensures Successes(a + b) == Successes(a) + Successes(b)
  {
  }

  /** One more successful upsert extends the successes of the records before it. */
  lemma SuccessesSnoc(recs: seq<Record>, i: nat)
    requires i < |recs|
    ensures Successes(recs[..i + 1]) == Successes(recs[..i]) + [UpsertCall(recs[i], true)]
  {
    assert recs[..i + 1] == recs[..i] + [recs[i]];
    SuccessesAppend(recs[..i], [recs[i]]);
  }

  /** How far one document got: how many of its records were stored, and whether all of them were. */
  datatype Outcome = Outcome(upserted: nat, ok: bool)

  /**
   * An outcome the records `recs` can have: the upserts go in order and stop
   * at the first failure, so all of them succeed or a prefix does and the
   * next one fails.
   */
  predicate Possible(recs: seq<Record>, o: Outcome) {
    o.upserted <= |recs| && (o.ok <==> o.upserted == |recs|)
  }

  /** The calls made for the records `recs` with outcome `o`. */
  function Attempt(recs: seq<Record>, o: Outcome): seq<Call>
    requires Possible(recs, o)
  {
    Successes(recs[..o.upserted]) + (if o.ok then [] else [UpsertCall(recs[o.upserted], false)])
  }

  /** When every upsert succeeds, the attempt is the successes of all the records. */
  lemma AttemptAll(recs: seq<Record>)
    ensures Possible(recs, Outcome(|recs|, true))
    ensures Attempt(recs, Outcome(|recs|, true)) == Successes(recs)
  {
    assert recs[..|recs|] == recs;
    assert Successes(recs) + [] == Successes(recs);
  }

  /** Every call of an attempt upserts the record at its position; those before the stopping point succeed. */
  lemma AttemptAt(recs: seq<Record>, o: Outcome, q: nat)
    requires Possible(recs, o) && q < |Attempt(recs, o)|
    ensures q < |recs| && Attempt(recs, o)[q] == UpsertCall(recs[q], q < o.upserted)
  {
  }

  /** The records of every document, document by document. */
  function DocumentPlan(docs: seq<Document>): (plan: seq<seq<Record>>)
    ensures |plan| == |docs|
  {
    seq(|docs|, i requires 0 <= i < |docs| => DocumentRecords(docs[i]))
  }

  /** An outcome for every list of records in `plan`. */
  predicate RunOf(plan: seq<seq<Record>>, outcomes: seq<Outcome>) {
    |outcomes| == |plan| && forall i :: 0 <= i < |plan| ==> Possible(plan[i], outcomes[i])
  }

  /** The calls of the document loop: every document's attempt, one after the other. */
  function RunCalls(plan: seq<seq<Record>>, outcomes: seq<Outcome>): seq<Call>
    requires RunOf(plan, outcomes)
    decreases |plan|
  {
    if plan == [] then []
    else
      var n := |plan| - 1;
      RunCalls(plan[..n], outcomes[..n]) + Attempt(plan[n], outcomes[n])
  }

  /** One more document adds its attempt after the calls of the documents before it. */
  lemma RunCallsSnoc(plan: seq<seq<Record>>, i: nat, outcomes: seq<Outcome>, o: Outcome)
    requires i < |plan| && RunOf(plan[..i], outcomes) && Possible(plan[i], o)
    ensures RunOf(plan[..i + 1], outcomes + [o])
    ensures RunCalls(plan[..i + 1], outcomes + [o]) == RunCalls(plan[..i], outcomes) + Attempt(plan[i], o)
  {
    assert plan[..i + 1][..i] == plan[..i] && (outcomes + [o])[..i] == outcomes;
  }

  /** The chunk loop's attempt, extended by the records of the sections before it. */
  lemma AttemptExtends(all: seq<Record>, done: seq<Record>, recs: seq<Record>, o: Outcome)
    requires Possible(recs, o) && !o.ok
    requires |done| + |recs| <= |all| && all[..|done| + |recs|] == done + recs
    ensures Possible(all, Outcome(|done| + o.upserted, false))
    ensures Successes(done) + Attempt(recs, o) == Attempt(all, Outcome(|done| + o.upserted, false))
  {
    var n := |done| + o.upserted;
    assert all[..n] == done + recs[..o.upserted];
    assert all[n] == recs[o.upserted];
    SuccessesAppend(done, recs[..o.upserted]);
  }

  /** The lists of a prefix of a plan open the lists of all of it. */
  lemma {:induction false} FlattenPrefix(plan: seq<seq<Record>>, j: nat)
    requires j <= |plan|
    ensures |Flatten(plan[..j])| <= |Flatten(plan)| && Flatten(plan)[..|Flatten(plan[..j])|] == Flatten(plan[..j])
    decreases |plan|
  {
    if j < |plan| {
      var n := |plan| - 1;
      assert plan[..n][..j] == plan[..j];
      FlattenPrefix(plan[..n], j);
    } else {
      assert plan[..j] == plan;
    }
  }

  /** One turn of the chunk loop: build the id (opening with `anchor`) and metadata of chunk `i` and upsert the record. */
  method UpsertChunk(index: SearchIndex, anchor: string, doc: Document, sec: Section, chunks: seq<Chunk>, i: nat)
    returns (ok: bool)
    requires index.Valid() && i < |chunks|
    modifies index
    ensures index.Valid() && index.initial == old(index.initial)
    ensures index.calls == old(index.calls) + [UpsertCall(ChunkRecord(anchor, doc, sec, chunks, chunks[i]), ok)]
  {
    var chunk := chunks[i];
    var several := |chunks| > 1;
    var chunkSuffix := if several then "-chunk-" + NatToString(chunk.chunkIndex + 1) else "";
    var metadata := Metadata(sec.title, doc.path, sec.level, if several then ChunkKind else SectionKind,
                             chunk.content, doc.title,
                             if several then Some(chunk.chunkIndex) else None,
                             if several then Some(chunk.totalChunks) else None);
    ok := index.Upsert(Record(anchor + chunkSuffix, sec.title, chunk.content, metadata));
  }

  /** The chunk loop over the chunks `chunks` of a section: upserts in order, stopping at the first failure. */
  method UpsertChunks(index: SearchIndex, anchor: string, doc: Document, sec: Section, chunks: seq<Chunk>)
    returns (ok: bool, ghost upserted: nat)
    requires index.Valid()
    modifies index
    ensures index.Valid() && index.initial == old(index.initial)
    ensures Possible(ChunkRecords(anchor, doc, sec, chunks), Outcome(upserted, ok))
    ensures index.calls == old(index.calls) + Attempt(ChunkRecords(anchor, doc, sec, chunks), Outcome(upserted, ok))
  {
    ghost var recs := ChunkRecords(anchor, doc, sec, chunks);
    var i := 0;
    while i < |chunks|
      invariant i <= |chunks| == |recs|
      invariant index.Valid() && index.initial == old(index.initial)
      invariant index.calls == old(index.calls) + Successes(recs[..i])
    {
      ok := UpsertChunk(index, anchor, doc, sec, chunks, i);
      assert ChunkRecord(anchor, doc, sec, chunks, chunks[i]) == recs[i];
      ConcatAssoc(old(index.calls), Successes(recs[..i]), [UpsertCall(recs[i], ok)]);
      if !ok {
        assert Attempt(recs, Outcome(i, false)) == Successes(recs[..i]) + [UpsertCall(recs[i], false)];
        return false, i;
      }
      SuccessesSnoc(recs, i);
      i := i + 1;
    }
    assert recs[..i] == recs;
    AttemptAll(recs);
    return true, i;
  }

  /**
   * The chunk loop of section `j`: it upserts the section's records in
   * order and stops at the first failure. A section without content is
   * skipped.
   */
  method IndexSection(index: SearchIndex, doc: Document, sections: seq<Section>, j: nat, ghost plan: seq<seq<Record>>)
    returns (ok: bool, ghost upserted: nat)
    requires index.Valid() && j < |sections| && Planned(doc, sections, plan)
    modifies index
    ensures index.Valid() && index.initial == old(index.initial)
    ensures Possible(plan[j], Outcome(upserted, ok))
    ensures index.calls == old(index.calls) + Attempt(plan[j], Outcome(upserted, ok))
  {
    var sec := sections[j];
    assert plan[j] == SectionRecords(doc, sec);
    if sec.content == [] {
      return true, 0;
    }
    var chunks := SplitContentIntoChunks(sec.content, DefaultMaxChunkSize, DefaultOverlapSize);
    var anchor := doc.path + "#" + Slugify(sec.title);
    ok, upserted := UpsertChunks(index, anchor, doc, sec, chunks);
  }

  /** One more list adds its records after those of the lists before it. */
  lemma FlattenSnoc(plan: seq<seq<Record>>, j: nat)
    requires j < |plan|
    ensures Flatten(plan[..j + 1]) == Flatten(plan[..j]) + plan[j]
  {
    assert plan[..j + 1][..j] == plan[..j];
  }

  /** A section whose records all went in extends the successes of the sections before it. */
  lemma SectionSucceeded(plan: seq<seq<Record>>, j: nat, n: nat)
    requires j < |plan| && Possible(plan[j], Outcome(n, true))
    ensures Successes(Flatten(plan[..j])) + Attempt(plan[j], Outcome(n, true)) == Successes(Flatten(plan[..j + 1]))
  {
    FlattenSnoc(plan, j);
    assert plan[j][..n] == plan[j];
    SuccessesAppend(Flatten(plan[..j]), plan[j]);
  }

  /** A section whose upserts stopped early stops the whole document at the same record. */
  lemma SectionFailed(plan: seq<seq<Record>>, j: nat, n: nat)
    requires j < |plan| && Possible(plan[j], Outcome(n, false))
    ensures var done := Flatten(plan[..j]);
            && Possible(Flatten(plan), Outcome(|done| + n, false))
            && Successes(done) + Attempt(plan[j], Outcome(n, false))
               == Attempt(Flatten(plan), Outcome(|done| + n, false))
  {
    FlattenSnoc(plan, j);
    FlattenPrefix(plan, j + 1);
    AttemptExtends(Flatten(plan), Flatten(plan[..j]), plan[j], Outcome(n, false));
  }

  /**
   * One turn of the section loop: the chunk loop of section `j`, after the
   * sections before it went in with the calls `before` already made. The
   * document goes on when it succeeds and stops where it failed otherwise.
   */
  method IndexNextSection(index: SearchIndex, doc: Document, sections: seq<Section>, j: nat,
                          ghost plan: seq<seq<Record>>, ghost before: seq<Call>)
    returns (ok: bool, ghost upserted: nat)
    requires index.Valid() && j < |sections| && Planned(doc, sections, plan)
    requires index.calls == before + Successes(Flatten(plan[..j]))
    modifies index
    ensures index.Valid() && index.initial == old(index.initial)
    ensures ok ==> index.calls == before + Successes(Flatten(plan[..j + 1]))
    ensures !ok ==> Possible(Flatten(plan), Outcome(upserted, false))
                    && index.calls == before + Attempt(Flatten(plan), Outcome(upserted, false))
  {
    ghost var n;
    ok, n := IndexSection(index, doc, sections, j, plan);
    ConcatAssoc(before, Successes(Flatten(plan[..j])), Attempt(plan[j], Outcome(n, ok)));
    if !ok {
      SectionFailed(plan, j, n);
      return false, |Flatten(plan[..j])| + n;
    }
    SectionSucceeded(plan, j, n);
    upserted := n;
  }

  /** The section loop: every section's chunk loop in turn, until an upsert fails. */
  method IndexSections(index: SearchIndex, doc: Document, sections: seq<Section>) returns (ok: bool, ghost upserted: nat)
    requires index.Valid()
    modifies index
    ensures index.Valid() && index.initial == old(index.initial)
    ensures Possible(SectionsRecords(doc, sections), Outcome(upserted, ok))
    ensures index.calls == old(index.calls) + Attempt(SectionsRecords(doc, sections), Outcome(upserted, ok))
  {
    ghost var plan := SectionPlan(doc, sections);
    ghost var before := index.calls;
    assert before + Successes(Flatten(plan[..0])) == before;
    var j := 0;
    while j < |sections|
      invariant j <= |sections|
      invariant index.Valid() && index.initial == old(index.initial)
      invariant index.calls == before + Successes(Flatten(plan[..j]))
    {
      var sectionOk, n := IndexNextSection(index, doc, sections, j, plan, before);
      if !sectionOk {
        return false, n;
      }
      j := j + 1;
    }
    assert plan[..j] == plan;
    AttemptAll(Flatten(plan));
    return true, |Flatten(plan)|;
  }

  /**
   * The body of the `try` for one document: split it into sections and run
   * the section loop. The first failed upsert ends the document; the calls
   * made for it stay made.
   */
  method IndexDocument(index: SearchIndex, doc: Document) returns (ok: bool, ghost upserted: nat)
    requires index.Valid()
    modifies index
    ensures index.Valid() && index.initial == old(index.initial)
    ensures Possible(DocumentRecords(doc), Outcome(upserted, ok))
    ensures index.calls == old(index.calls) + Attempt(DocumentRecords(doc), Outcome(upserted, ok))
  {
    var sections := SplitMdxByHeadings(doc.content);
    ok, upserted := IndexSections(index, doc, sections);
  }

  /**
   * `indexDocs` after the documents are read: reset the index, then index
   * every document in turn. A failed reset ends the run before any upsert;
   * a failed document is reported and the loop goes on with the next.
   */
  method IndexDocs(index: SearchIndex, docs: seq<Document>) returns (ok: bool, ghost outcomes: seq<Outcome>)
    requires index.Valid()
    modifies index
    ensures index.Valid() && index.initial == old(index.initial)
    ensures !ok ==> index.calls == old(index.calls) + [ResetCall(false)]
    ensures ok ==> RunOf(DocumentPlan(docs), outcomes)
                   && index.calls == old(index.calls) + [ResetCall(true)] + RunCalls(DocumentPlan(docs), outcomes)
  {
    outcomes := [];
    ok := index.Reset();
    if !ok {
      return;
    }
    ghost var plan := DocumentPlan(docs);
    var i := 0;
    while i < |docs|
      invariant i <= |docs| && RunOf(plan[..i], outcomes)
      invariant index.Valid() && index.initial == old(index.initial)
      invariant index.calls == old(index.calls) + [ResetCall(true)] + RunCalls(plan[..i], outcomes)
    {
      var docOk, n := IndexDocument(index, docs[i]);
      RunCallsSnoc(plan, i, outcomes, Outcome(n, docOk));
      ConcatAssoc(old(index.calls) + [ResetCall(true)], RunCalls(plan[..i], outcomes),
                  Attempt(plan[i], Outcome(n, docOk)));
      outcomes := outcomes + [Outcome(n, docOk)];
      i := i + 1;
    }
    assert plan[..i] == plan;
  }

  /* ---- What a run leaves in the index ---- */

  /** Replaying two lists of calls is replaying the first, then the second. */
  lemma {:induction false} ReplayAppend(m: map<string, Record>, a: seq<Call>, b: seq<Call>)
    ensures Replay(m, a + b) == Replay(Replay(m, a), b)
    decreases |a|
  {
    if a == [] {
      assert a + b == b;
    } else {
      assert (a + b)[0] == a[0] && (a + b)[1..] == a[1..] + b;
      ReplayAppend(Step(m, a[0]), a[1..], b);
    }
  }

  /** A stored record stays while no later successful call resets the index or writes its id. */
  lemma {:induction false} ReplayKeeps(m: map<string, Record>, calls: seq<Call>, r: Record)
    requires r.id in m && m[r.id] == r
    requires forall q :: 0 <= q < |calls| && calls[q].ok ==> calls[q].UpsertCall? && calls[q].rec.id != r.id
    ensures r.id in Replay(m, calls) && Replay(m, calls)[r.id] == r
    decreases |calls|
  {
    if calls != [] {
      assert calls[0].ok ==> calls[0].UpsertCall? && calls[0].rec.id != r.id;
      ReplayKeeps(Step(m, calls[0]), calls[1..], r);
    }
  }

  /**
   * With the index as a map, the last successful upsert of an id decides
   * the record stored under it: a record upserted at `p` is the one the index
   * holds when no successful call after it resets the index or upserts the
   * same id.
   */
  lemma LastUpsertWins(m: map<string, Record>, calls: seq<Call>, p: nat)
    requires p < |calls| && calls[p].UpsertCall? && calls[p].ok
    requires forall q :: p < q < |calls| && calls[q].ok ==> calls[q].UpsertCall? && calls[q].rec.id != calls[p].rec.id
    ensures calls[p].rec.id in Replay(m, calls) && Replay(m, calls)[calls[p].rec.id] == calls[p].rec
  {
    var r := calls[p].rec;
    assert calls == calls[..p] + [calls[p]] + calls[p + 1..];
    ReplayAppend(m, calls[..p] + [calls[p]], calls[p + 1..]);
    ReplaySnoc(m, calls[..p], calls[p]);
    ReplayKeeps(Replay(m, calls[..p + 1]), calls[p + 1..], r);
    assert calls[..p] + [calls[p]] == calls[..p + 1];
  }

  /**
   * Every record in an index that started empty was put there by a
   * successful upsert of the calls: `q` is the last such upsert of its id.
   */
  lemma {:induction false} StoredByUpsert(m: map<string, Record>, calls: seq<Call>, id: string) returns (q: int)
    requires id in Replay(m, calls)
    ensures q == -1 ==> id in m && Replay(m, calls)[id] == m[id]
    ensures q != -1 ==> 0 <= q < |calls| && calls[q] == UpsertCall(Replay(m, calls)[id], true)
                        && calls[q].rec.id == id
    decreases |calls|
  {
    if calls == [] {
      q := -1;
    } else {
      var next := Step(m, calls[0]);
      var q' := StoredByUpsert(next, calls[1..], id);
      if q' != -1 {
        q := q' + 1;
      } else if calls[0].UpsertCall? && calls[0].ok && calls[0].rec.id == id {
        q := 0;
      } else {
        q := -1;
      }
    }
  }

  /** Every call of the document loop upserts record `k` of some document `i`. */
  lemma {:induction false} RunCallAt(plan: seq<seq<Record>>, outcomes: seq<Outcome>, q: nat) returns (i: nat, k: nat)
    requires RunOf(plan, outcomes) && q < |RunCalls(plan, outcomes)|
    ensures i < |plan| && k < |plan[i]|
    ensures RunCalls(plan, outcomes)[q] == UpsertCall(plan[i][k], RunCalls(plan, outcomes)[q].ok)
    decreases |plan|
  {
    var n := |plan| - 1;
    var front := RunCalls(plan[..n], outcomes[..n]);
    if q < |front| {
      i, k := RunCallAt(plan[..n], outcomes[..n], q);
    } else {
      i, k := n, q - |front|;
      AttemptAt(plan[n], outcomes[n], k);
    }
  }

  /**
   * Nothing from before the reset survives a run: every record the index
   * holds afterwards is record `k` of some document `i` of the run.
   */
  lemma OnlyThisRun(m: map<string, Record>, docs: seq<Document>, outcomes: seq<Outcome>, id: string)
    returns (i: nat, k: nat)
    requires RunOf(DocumentPlan(docs), outcomes)
    requires id in Replay(m, [ResetCall(true)] + RunCalls(DocumentPlan(docs), outcomes))
    ensures i < |docs| && k < |DocumentRecords(docs[i])|
    ensures Replay(m, [ResetCall(true)] + RunCalls(DocumentPlan(docs), outcomes))[id] == DocumentRecords(docs[i])[k]
  {
    var run := RunCalls(DocumentPlan(docs), outcomes);
    ReplayAppend(m, [ResetCall(true)], run);
    var q := StoredByUpsert(map[], run, id);
    i, k := RunCallAt(DocumentPlan(docs), outcomes, q);
  }

  /** The document loop splits at document `j`: the calls before it and the calls from it on. */
  lemma {:induction false} RunCallsSplit(plan: seq<seq<Record>>, outcomes: seq<Outcome>, j: nat)
    requires RunOf(plan, outcomes) && j <= |plan|
    ensures RunOf(plan[..j], outcomes[..j]) && RunOf(plan[j..], outcomes[j..])
    ensures RunCalls(plan, outcomes) == RunCalls(plan[..j], outcomes[..j]) + RunCalls(plan[j..], outcomes[j..])
    decreases |plan|
  {
    if j == |plan| {
      assert plan[..j] == plan && outcomes[..j] == outcomes;
      assert plan[j..] == [];
    } else {
      var n := |plan| - 1;
      RunCallsSplit(plan[..n], outcomes[..n], j);
      assert plan[..n][..j] == plan[..j] && outcomes[..n][..j] == outcomes[..j];
      var tail, tailOutcomes := plan[j..], outcomes[j..];
      assert tail[..n - j] == plan[..n][j..] && tailOutcomes[..n - j] == outcomes[..n][j..];
      assert tail[n - j] == plan[n] && tailOutcomes[n - j] == outcomes[n];
      assert RunCalls(plan, outcomes) == RunCalls(plan[..n], outcomes[..n]) + Attempt(plan[n], outcomes[n]);
      assert RunCalls(tail, tailOutcomes)
             == RunCalls(tail[..n - j], tailOutcomes[..n - j]) + Attempt(tail[n - j], tailOutcomes[n - j]);
      ConcatAssoc(RunCalls(plan[..j], outcomes[..j]), RunCalls(plan[..n][j..], outcomes[..n][j..]),
                  Attempt(plan[n], outcomes[n]));
    }
  }

  /** The calls of document `j` sit between those of the documents before it and those after it. */
  lemma RunCallsAround(plan: seq<seq<Record>>, outcomes: seq<Outcome>, j: nat)
    requires RunOf(plan, outcomes) && j < |plan|
    ensures RunOf(plan[..j], outcomes[..j]) && RunOf(plan[j + 1..], outcomes[j + 1..])
    ensures RunCalls(plan, outcomes)
            == RunCalls(plan[..j], outcomes[..j]) + Attempt(plan[j], outcomes[j])
               + RunCalls(plan[j + 1..], outcomes[j + 1..])
  {
    RunCallsSplit(plan, outcomes, j + 1);
    RunCallsSplit(plan[..j + 1], outcomes[..j + 1], j);
    assert plan[..j + 1][..j] == plan[..j] && outcomes[..j + 1][..j] == outcomes[..j];
    assert plan[..j + 1][j..] == [plan[j]] && outcomes[..j + 1][j..] == [outcomes[j]];
    assert RunCalls([plan[j]], [outcomes[j]]) == Attempt(plan[j], outcomes[j]) by {
      assert [plan[j]][..0] == [] && [outcomes[j]][..0] == [];
    }
  }

  /** After record `k`, an attempt touches no id that the later records lack. */
  lemma AttemptAvoids(recs: seq<Record>, o: Outcome, k: nat, id: string)
    requires Possible(recs, o)
    requires forall k' :: k < k' < |recs| ==> recs[k'].id != id
    ensures forall q :: k < q < |Attempt(recs, o)| ==> Attempt(recs, o)[q].UpsertCall? && Attempt(recs, o)[q].rec.id != id
  {
    forall q | k < q < |Attempt(recs, o)|
      ensures Attempt(recs, o)[q].UpsertCall? && Attempt(recs, o)[q].rec.id != id
    {
      AttemptAt(recs, o, q);
    }
  }

  /** A run touches no id that none of its records has. */
  lemma RunAvoids(plan: seq<seq<Record>>, outcomes: seq<Outcome>, id: string)
    requires RunOf(plan, outcomes)
    requires forall i, r :: 0 <= i < |plan| && r in plan[i] ==> r.id != id
    ensures forall q :: 0 <= q < |RunCalls(plan, outcomes)| ==>
              RunCalls(plan, outcomes)[q].UpsertCall? && RunCalls(plan, outcomes)[q].rec.id != id
  {
    forall q | 0 <= q < |RunCalls(plan, outcomes)|
      ensures RunCalls(plan, outcomes)[q].UpsertCall? && RunCalls(plan, outcomes)[q].rec.id != id
    {
      var i, k := RunCallAt(plan, outcomes, q);
      assert plan[i][k] in plan[i];
    }
  }

  /**
   * A record of document `j`, all of whose upserts went in, is in the index
   * after the run unless a later record of the same document or of a later
   * document has its id.
   */
  lemma PlannedRecordSurvives(m: map<string, Record>, plan: seq<seq<Record>>, outcomes: seq<Outcome>,
                              j: nat, k: nat)
    requires RunOf(plan, outcomes) && j < |plan| && outcomes[j].ok && k < |plan[j]|
    requires forall k' :: k < k' < |plan[j]| ==> plan[j][k'].id != plan[j][k].id
    requires forall i, r :: j < i < |plan| && r in plan[i] ==> r.id != plan[j][k].id
    ensures var after := Replay(m, [ResetCall(true)] + RunCalls(plan, outcomes));
            plan[j][k].id in after && after[plan[j][k].id] == plan[j][k]
  {
    var r := plan[j][k];
    RunCallsAround(plan, outcomes, j);
    var before := [ResetCall(true)] + RunCalls(plan[..j], outcomes[..j]);
    var attempt := Attempt(plan[j], outcomes[j]);
    var laterPlan := plan[j + 1..];
    var later := RunCalls(laterPlan, outcomes[j + 1..]);
    var calls := [ResetCall(true)] + RunCalls(plan, outcomes);
    ConcatAssoc(RunCalls(plan[..j], outcomes[..j]), attempt, later);
    ConcatAssoc([ResetCall(true)], RunCalls(plan[..j], outcomes[..j]), attempt + later);
    assert calls == before + (attempt + later);
    AttemptAt(plan[j], outcomes[j], k);
    AttemptAvoids(plan[j], outcomes[j], k, r.id);
    forall i: nat, r': Record | i < |laterPlan| && r' in laterPlan[i] ensures r'.id != r.id {
      assert laterPlan[i] == plan[j + 1 + i];
    }
    RunAvoids(laterPlan, outcomes[j + 1..], r.id);
    var p := |before| + k;
    forall q | p < q < |calls| && calls[q].ok
      ensures calls[q].UpsertCall? && calls[q].rec.id != r.id
    {
      assert calls[q] == (attempt + later)[q - |before|];
    }
    LastUpsertWins(m, calls, p);
  }

  /**
   * Failures are isolated per document: when every upsert of document `j`
   * succeeded, its record `k` is in the index after the run, whatever
   * happened to the documents before it, unless a later record of the same
   * document or of a later document has the same id.
   */
  lemma DocumentSurvivesFailures(m: map<string, Record>, docs: seq<Document>, outcomes: seq<Outcome>,
                                 j: nat, k: nat)
    requires RunOf(DocumentPlan(docs), outcomes) && j < |docs| && outcomes[j].ok
    requires k < |DocumentRecords(docs[j])|
    requires forall k' :: k < k' < |DocumentRecords(docs[j])| ==>
               DocumentRecords(docs[j])[k'].id != DocumentRecords(docs[j])[k].id
    requires forall i, r :: j < i < |docs| && r in DocumentRecords(docs[i]) ==> r.id != DocumentRecords(docs[j])[k].id
    ensures var r := DocumentRecords(docs[j])[k];
            var after := Replay(m, [ResetCall(true)] + RunCalls(DocumentPlan(docs), outcomes));
            r.id in after && after[r.id] == r
  {
    PlannedRecordSurvives(m, DocumentPlan(docs), outcomes, j, k);
  }
}
