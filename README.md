# Docusaurus AI search: document indexing and preview text

This project models, in Dafny, the part of the Docusaurus AI search plugin
that has real algorithmic content:

- the indexing script `src/scripts/indexDocs.ts`, which turns the markdown
  pages of a documentation site into records of a remote search index. It
  covers `slugify`, the front-matter readers `extractTitle` and `extractId`,
  the pure steps of `processMarkdownFile`, the heading splitter
  `splitMdxByHeadings`, the overlapping chunker `splitContentIntoChunks`, and
  the reset-then-upsert loop of `indexDocs`;
- the preview formatter `formatContent` of the search bar
  (`src/theme/SearchBar/utils/formatContent.ts`), which strips markdown and
  HTML from a hit before it is shown.

Files, one module each:

| file | module | models |
|---|---|---|
| `text.dfy` | `Wrappers`, `Text` | JavaScript string primitives: `\s`, `\w`, `trim`, `indexOf`, `lastIndexOf`, `slice`, ASCII case mapping, number printing, `replace(/\s+/g, …)` |
| `slug.dfy` | `Slug` | `slugify` |
| `frontmatter.dfy` | `FrontMatter` | `extractTitle`, `extractId`, the file-name title, the document id and the file-name filters of the walk |
| `sections.dfy` | `Sections` | `splitMdxByHeadings` |
| `chunker.dfy` | `Chunker` | `splitContentIntoChunks` as written, and a corrected chunker (see Findings) |
| `indexer.dfy` | `Indexer` | record ids and metadata, the search index as a map, and the loops of `indexDocs` |
| `preview.dfy` | `Preview` | `formatContent` |

How the source is modelled:

- Each regular-expression `replace` is a left-to-right recursive function.
  It takes the match the JavaScript engine finds at each position, with the
  engine's order for greedy, lazy and optional parts. Otherwise it copies one
  character.
- The chunker loop is a Dafny `method` with a `while` loop, proved equal to a
  function (`Windows`, then `Emitted` and `BackFill`). The properties are
  proved as lemmas about that function.
- The floating-point expressions are stated over integers:
  - `Math.floor(maxChunkSize * 0.3)` is `(3 * maxChunkSize) / 10`;
  - `x > start + maxChunkSize * 0.5` is `2 * (x - start) > maxChunkSize`;
  - `Math.ceil(a / b)` is `CeilDiv`.
- The remote index is a class `SearchIndex`. It holds a `map` from id to
  record and a ghost log of the calls made to it. `Reset` empties the map and
  `Upsert` writes one entry. Whether the service accepts a call is left open,
  so a call may fail.
- `indexDocs` is the method `IndexDocs`, built from one method per nested
  loop. It resets the index first. A failed reset ends the run before any
  upsert, as the rethrow in the outer `catch` does. A failed upsert ends that
  document only, as the inner `try`/`catch` does.

Behaviour of the code that is easy to misread, which the model follows:

- Chunk indices are not contiguous. When a slice trims to nothing it is
  dropped, but `chunkIndex` still advances
  (`src/scripts/indexDocs.ts:235-249`). `EmittedIndicesIncrease` proves only
  that the indices strictly increase.
- A section no longer than the chunk size is returned as a single chunk whose
  content is untouched, not trimmed (`src/scripts/indexDocs.ts:204-206`).
- A cut can end one character past `maxChunkSize`. `lastIndexOf('.', end)`
  can find a period at `end` itself (`CutEnd`).
- Sections are not "the text between two heading lines". Each piece is
  trimmed, split at its first `\n`, and the rest is trimmed again. When a
  heading line ends in `\r`, the piece is dropped
  (`CarriageReturnHeadingDropped`).
- The chunks of the loop as written need not cover the whole section; see
  Findings.
- The front-matter patterns (`src/scripts/indexDocs.ts:87`, `:105`) have no
  `m` flag, and their lazy `[\s\S]*?` runs past the closing `---`. So a
  `title:` or `id:` line in the body, followed later by a `---` rule, becomes
  the page's title or id (`BodyTitleLineIsTitle`).

## Model

| member | source | states |
|---|---|---|
| `Text.RemoveChar` | src/scripts/indexDocs.ts:73 | deleting `.` leaves no `.`, keeps every other character as often as it occurs, and leaves text without `.` unchanged |
| `Text.LastIndexOf` | src/scripts/indexDocs.ts:222-227 | `lastIndexOf(c, from)` is -1 or the position at or before `from` holding `c`, with no `c` between it and `from` |
| `Text.TrimSlice` | src/theme/SearchBar/utils/formatContent.ts:19 | `trim` returns the slice between the leading and the trailing whitespace, and removes only whitespace |
| `Text.TrimEmptyIffBlank` | src/scripts/indexDocs.ts:234-235 | a slice trims to the empty string exactly when it is all whitespace |
| `Text.ReplaceWhitespaceRunsSpacing` | src/theme/SearchBar/utils/formatContent.ts:18 | after `replace(/\s+/g, rep)` every whitespace character is `rep` and no two whitespace characters are adjacent |
| `Text.ReplaceWhitespaceRunsKeepsVisible` | src/theme/SearchBar/utils/formatContent.ts:18 | collapsing whitespace runs keeps every non-whitespace character, in order |
| `Text.NatToStringInjective` | src/scripts/indexDocs.ts:295 | different chunk numbers print as different decimal strings |
| `Slug.KeepWordCharsAndHyphens` | src/scripts/indexDocs.ts:75 | `replace(/[^\w-]+/g, '')` keeps only word characters and hyphens, and keeps every one of them as often as it occurs in the input |
| `Slug.CollapseHyphens` | src/scripts/indexDocs.ts:76 | `replace(/--+/g, '-')` leaves no two adjacent hyphens, adds no character, keeps a first character that is not a hyphen, and leaves a hyphen exactly when the input has one |
| `Slug.CollapseHyphensKeeps` | src/scripts/indexDocs.ts:76 | collapsing hyphen runs keeps every other character, in order |
| `Slug.SlugifyShape` | src/scripts/indexDocs.ts:67-77 | a slug holds only lower-case ASCII letters, digits, `_` and `-`, so no `.` and no whitespace, and never two adjacent hyphens |
| `Slug.SlugifyIdempotent` | src/scripts/indexDocs.ts:67-77 | slugifying a slug gives it back unchanged |
| `Slug.SlugifyKeepsWordChars` | src/scripts/indexDocs.ts:67-77 | the slug holds every letter, digit and `_` of the lower-cased heading, in order, and no other word character |
| `FrontMatter.CaptureFrom` | src/scripts/indexDocs.ts:87 | the captured front-matter value never crosses a line terminator |
| `FrontMatter.RemoveQuotes` | src/scripts/indexDocs.ts:90 | `replace(/['"]/g, '')` leaves no quote, keeps every other character as often as it occurs, and leaves quote-free text unchanged |
| `FrontMatter.ExtractTitle` | src/scripts/indexDocs.ts:85-97 | the title is the file-name title, or a trimmed, quote-free string made of characters of the captured front-matter value; without a leading `---` it is always the file-name title |
| `FrontMatter.ExtractId` | src/scripts/indexDocs.ts:104-107 | the id is absent, or exactly the non-empty captured front-matter value; absent when the file does not open with `---` |
| `FrontMatter.ExtractTitleFallback` | src/scripts/indexDocs.ts:80-97 | when no line after the opening `---`, anywhere in the file, starts with `title:`, the title is the one made from the file name |
| `FrontMatter.ExtractIdAbsent` | src/scripts/indexDocs.ts:100-108 | when no line after the opening `---`, anywhere in the file, starts with `id:`, there is no id and the document id is the file name without its markdown extension |
| `FrontMatter.BodyTitleLineIsTitle` | src/scripts/indexDocs.ts:87 | `---\nslug: x\n---\ntitle: Body\n---\n` has no title in its front matter, yet its title is `Body`, taken from the body |
| `FrontMatter.FrontMatterFieldRoundTrip` | src/scripts/indexDocs.ts:86-88 | a front matter with a line `key: v` (bare or quoted) on any line, no earlier line starting with `key:`, and a later `---`, is read back as `v` |
| `FrontMatter.ExtractTitleRoundTrip` | src/scripts/indexDocs.ts:85-91 | a front-matter line `title: v`, with no earlier `title:` line, gives the document's title `v` |
| `FrontMatter.ExtractIdRoundTrip` | src/scripts/indexDocs.ts:104-107 | a front-matter line `id: v`, with no earlier `id:` line, gives the document's id `v`, whatever the file is called |
| `FrontMatter.FileNameTitleIsTitleCase` | src/scripts/indexDocs.ts:92-96 | the fallback title is the file stem with each `-`/`_` turned into a space and each word capitalised |
| `FrontMatter.StemOfMarkdownFile` | src/scripts/indexDocs.ts:92-93 | `basename(name, extname(name))` of `stem.md`/`stem.mdx` is `stem` |
| `FrontMatter.StripMarkdownExtensionRoundTrip` | src/scripts/indexDocs.ts:146 | the id fallback removes exactly the `.md`/`.mdx` extension, and such names pass the markdown-file filter |
| `Indexer.PlainFileDocument` | src/scripts/indexDocs.ts:140-159 | a file without front matter is filed under `dir/stem` and titled with its stem in title case |
| `Indexer.FrontMatterIdDocument` | src/scripts/indexDocs.ts:146-147 | a front-matter `id` line, with no earlier `id:` line, names the document's path |
| `Sections.SegmentsConcat` | src/scripts/indexDocs.ts:171 | the pieces of `split(/(?=^#{1,6}\s)/m)` join back to the whole page |
| `Sections.SegmentsCuts` | src/scripts/indexDocs.ts:171 | every piece but the first opens with a heading marker, and no piece holds one at the start of a later line |
| `Sections.ParseHeadingLine` | src/scripts/indexDocs.ts:176 | a parsed heading has a level from 1 to 6 and a non-empty title |
| `Sections.ParseHeadingLineSound` | src/scripts/indexDocs.ts:176-180 | the parsed level is the number of leading `#`, followed by whitespace and then the title, which is the rest of the line with no line terminator |
| `Sections.ParseHeadingLineComplete` | src/scripts/indexDocs.ts:176-180 | every line of the form `#{1,6}\s+(.+)$` is parsed as a heading of that level |
| `Sections.ParseSegment` | src/scripts/indexDocs.ts:174-188 | a section read from a piece has a level in 1..6, a non-empty title and trimmed content |
| `Sections.SectionsInPageOrder` | src/scripts/indexDocs.ts:173-189 | section `k` is what the `k`-th heading piece gives, and those pieces are in page order |
| `Sections.HeadingPieceKept` | src/scripts/indexDocs.ts:178-189 | no piece whose first line is a heading is dropped |
| `Sections.CarriageReturnHeadingDropped` | src/scripts/indexDocs.ts:175-178 | a piece `# title\r\n…` with text after it gives no section |
| `Sections.EmptyPageHasNoSections` | src/scripts/indexDocs.ts:170-190 | the empty page has no sections |
| `Sections.SplitRenderRoundTrip` | src/scripts/indexDocs.ts:170-190 | well-formed sections written as markdown are split back into the same sections, in the same order |
| `Chunker.EffectiveOverlap` | src/scripts/indexDocs.ts:209 | the overlap is the requested one, lowered to at most 30% of the chunk size, and is the largest such value |
| `Chunker.MaxIterationsBounds` | src/scripts/indexDocs.ts:214 | the cap is one more than the least number of strides of `max - overlap` that reach the length |
| `Chunker.CutEnd` | src/scripts/indexDocs.ts:217-232 | the cut ends after the start and within the content, at most one past `start + max`; a cut before the end lies past the midpoint, at the size, after a `.` or before a space |
| `Chunker.NextStart` | src/scripts/indexDocs.ts:245 | the cursor advances by at least one, to no further than the cut's end, and by at most the overlap less than that end |
| `Chunker.WindowsShape` | src/scripts/indexDocs.ts:216-250 | the loop's slices are valid and chained (each cursor past the previous, no gap, overlap bounded), numbered from 0, at most `cap` of them and at most one per position |
| `Chunker.IterationBound` | src/scripts/indexDocs.ts:209-216 | the clamped overlap is below the chunk size and the loop runs no more turns than its cap |
| `Chunker.EmittedNonEmpty` | src/scripts/indexDocs.ts:234-241 | no more chunks are pushed than turns run, and every pushed chunk is non-empty |
| `Chunker.EmittedIndicesIncrease` | src/scripts/indexDocs.ts:234-249 | pushed chunk indices strictly increase and stay below the number of turns; a blank slice leaves a gap |
| `Chunker.BackFill` | src/scripts/indexDocs.ts:253-255 | the back-fill keeps every chunk and changes only `totalChunks` |
| `Chunker.BackFillTotals` | src/scripts/indexDocs.ts:253-255 | the `forEach` loop sets every chunk's `totalChunks` to the number of chunks |
| `Chunker.PushChunk` | src/scripts/indexDocs.ts:234-241 | one turn pushes the trimmed slice, unless it is empty |
| `Chunker.PushCappedChunks` | src/scripts/indexDocs.ts:211-250 | the capped loop pushes exactly the chunks of the windows `Windows` lists |
| `Chunker.SplitContentIntoChunks` | src/scripts/indexDocs.ts:199-258 | the method computes `Chunks`; content no longer than the size comes back as one chunk, untouched, with index 0 and total 1 |
| `Chunker.ChunksProperties` | src/scripts/indexDocs.ts:199-258 | for long content: 1 to `cap` chained windows inside the content; each chunk is the non-empty trim of its window's slice; indices increase; every `totalChunks` is the chunk count |
| `Chunker.CutAfterPeriod` | src/scripts/indexDocs.ts:222-224 | a period past the midpoint, at or before `start + max`, ends the cut just after it |
| `Chunker.CutAtSpace` | src/scripts/indexDocs.ts:222-230 | with no period past the midpoint, the last space past the midpoint at or before `start + max` ends the cut, the space going to the next slice |
| `Chunker.CutAtSize` | src/scripts/indexDocs.ts:217-232 | with no period and no space to cut at, a cut is exactly `max` long |
| `Chunker.CapDropsTail` | src/scripts/indexDocs.ts:214-250 | on `TailExample`, the last 796 characters appear in no chunk |
| `Chunker.RedundantTailChunk` | src/scripts/indexDocs.ts:245-246 | on `RunExample`, a fourth chunk repeats the last 200 characters that the third chunk already ends with |
| `Chunker.PushCoveringChunks` | src/scripts/indexDocs.ts:216-250 | the corrected loop pushes exactly the chunks of `CoveringWindows` |
| `Chunker.SplitContentIntoCoveringChunks` | src/scripts/indexDocs.ts:199-258 | the corrected chunker method computes `CoveringChunks`, with the same short-content case |
| `Chunker.CoveringWindowsEnd` | src/scripts/indexDocs.ts:245-246 | in the corrected loop only the last window reaches the end of the content |
| `Chunker.CoveringChunksProperties` | src/scripts/indexDocs.ts:199-258 | the corrected chunker has the same chunk shape and its windows reach the end of the content |
| `Chunker.CoveringWindowsCover` | src/scripts/indexDocs.ts:216-250 | the corrected windows cover every position of the content |
| `Chunker.CoveringChunksKeepText` | src/scripts/indexDocs.ts:199-258 | every non-whitespace character of the content appears in some chunk of the corrected chunker |
| `Indexer.SectionChunksWellNumbered` | src/scripts/indexDocs.ts:292 | the chunks `splitContentIntoChunks` gives a section are non-empty, carry the chunk count and have strictly increasing indices |
| `Indexer.SectionRecordsShape` | src/scripts/indexDocs.ts:288-309 | no record for empty content; each record's id opens with `path#slug`; title, level, path and document title are copied; `section-chunk` with chunk fields exactly when there are several chunks, otherwise `section` without them |
| `Indexer.ShortSectionRecord` | src/scripts/indexDocs.ts:292-309 | a short section is one record `path#slug` of type `section`, with no chunk fields and its content untouched |
| `Indexer.ChunkRecordId` | src/scripts/indexDocs.ts:295-306 | among several chunks, a record's id is `path#slug-chunk-(chunkIndex+1)` and its metadata carries that `chunkIndex` |
| `Indexer.SectionRecordIdsDistinct` | src/scripts/indexDocs.ts:295-296 | no two records of one section share an id |
| `Indexer.SameTitleSameId` | src/scripts/indexDocs.ts:296 | two short sections with the same title in one document get the same id |
| `Indexer.RenderedDocumentRecords` | src/scripts/indexDocs.ts:286-319 | a page written as well-formed sections yields the records of exactly those sections, in order |
| `Indexer.SearchIndex.constructor` | src/scripts/indexDocs.ts:56 | the index handle starts with the records the service already holds and no calls |
| `Indexer.SearchIndex.Reset` | src/scripts/indexDocs.ts:280 | a successful reset empties the index; a failed one changes nothing; the call is logged |
| `Indexer.SearchIndex.Upsert` | src/scripts/indexDocs.ts:311-317 | a successful upsert stores the record under its id, replacing any earlier one; a failed one changes nothing |
| `Indexer.UpsertChunk` | src/scripts/indexDocs.ts:294-317 | one turn upserts the chunk's record, with the id and metadata `ChunkRecord` defines |
| `Indexer.UpsertChunks` | src/scripts/indexDocs.ts:294-318 | a section's records are upserted in order, stopping at the first failure |
| `Indexer.IndexSection` | src/scripts/indexDocs.ts:288-319 | a section with empty content makes no call; otherwise its chunk records are upserted in order until one fails |
| `Indexer.IndexSections` | src/scripts/indexDocs.ts:288-319 | a document's records are upserted section after section, stopping at the first failure |
| `Indexer.IndexDocument` | src/scripts/indexDocs.ts:285-321 | one document: split into sections, then upsert all its records in order until one fails |
| `Indexer.IndexDocs` | src/scripts/indexDocs.ts:279-325 | reset comes first; a failed reset makes no upsert; otherwise every document in turn, a failed document leaving the rest unaffected |
| `Indexer.LastUpsertWins` | src/scripts/indexDocs.ts:311-317 | an id holds the record of its last successful upsert, unless a later successful reset cleared it |
| `Indexer.OnlyThisRun` | src/scripts/indexDocs.ts:279-325 | after a run, every record in the index is a record of some document of that run |
| `Indexer.DocumentSurvivesFailures` | src/scripts/indexDocs.ts:284-325 | a record of a document whose upserts all succeeded is in the index after the run, whatever other documents did, unless a later record has its id |
| `Preview.FencedBlockRemoved` | src/theme/SearchBar/utils/formatContent.ts:5 | a fenced block is removed, fences included, from one run of three backticks to the next |
| `Preview.UnwrapPair` | src/theme/SearchBar/utils/formatContent.ts:7-12 | `` `x` ``, `*x*` and `_x_`, with `x` non-empty and free of the delimiter, become `x` |
| `Preview.Unwrap2Pair` | src/theme/SearchBar/utils/formatContent.ts:9-10 | `**x**` and `__x__`, with `x` non-empty and free of the delimiter, become `x` |
| `Preview.LinkReplaced` | src/theme/SearchBar/utils/formatContent.ts:14 | `[t](u)`, with non-empty `t` free of `]` and non-empty `u` free of `)`, becomes `t` |
| `Preview.StripTags` | src/theme/SearchBar/utils/formatContent.ts:16 | removing tags leaves no `<` and adds no character |
| `Preview.TagRemoved` | src/theme/SearchBar/utils/formatContent.ts:16 | a tag `<x>` with no `>` in `x` is removed |
| `Preview.UnclosedTagDropsRest` | src/theme/SearchBar/utils/formatContent.ts:16 | a `<` with no later `>` removes the rest of the text |
| `Preview.FormatContentShape` | src/theme/SearchBar/utils/formatContent.ts:1-21 | the preview is trimmed, its only whitespace is single plain spaces, and it holds no `<` |
| `Preview.FormatContentOfPlainText` | src/theme/SearchBar/utils/formatContent.ts:1-21 | trimmed, single-spaced text without markup characters is its own preview |
| `Preview.FormatContentOfBold` | src/theme/SearchBar/utils/formatContent.ts:3-19 | the preview of `**x**` is `x`, for such plain `x` |

## Findings

| source | as written | input that shows it | evidently intended | confidence | as-written member | corrected member |
|---|---|---|---|---|---|---|
| src/scripts/indexDocs.ts:214 | The cap of `ceil(len / (max - overlap)) + 1` turns assumes each turn advances by `max - overlap`. A cut that snaps back to a period advances less, so the loop stops before the end and the tail never reaches the index. | 3000 characters with periods at 601, 1201, 1603 and 2203, at the defaults 1200/200: the four allowed turns end at 2204, so the last 796 characters are in no chunk (`TailExample`) | every character of a section reaches some chunk | medium; not executed | `Chunker.CapDropsTail` | `Chunker.CoveringChunksKeepText` |
| src/scripts/indexDocs.ts:245-246 | The loop stops only once the next cursor reaches the end. After a window that already ends at the end of the content, it cuts another window inside that one. | 3000 times `a`, at the defaults: the third chunk is `[2000, 3000)` and a fourth chunk `[2800, 3000)` repeats its last 200 characters (`RunExample`) | stop after the chunk that reaches the end of the content | medium; not executed | `Chunker.RedundantTailChunk` | `Chunker.CoveringWindowsEnd` |

`CoveringChunks` and `SplitContentIntoCoveringChunks` are the corrected
chunker. It has no iteration cap and stops after the window that reaches the
end of the content. It terminates because every turn moves the cursor forward
by at least one (`NextStart`). The indexer (`Indexer.SectionChunks`,
`Indexer.IndexSection`) calls `splitContentIntoChunks` as the program does
(`src/scripts/indexDocs.ts:292`), so its records are the program's own,
redundant tail chunks and dropped tails included. The corrected chunker stands
beside it and shows what the fix would give.

## Left out

- `Chunker.Chunks`, `Chunker.SplitContentIntoChunks`, `Slug.Slugify`, and
  every length, position and slice in the model: exact only for text whose
  characters all lie in the Basic Multilingual Plane. A Dafny `char` is a
  Unicode scalar value, so a character outside that plane, such as an emoji,
  is one `char` here but two UTF-16 code units in JavaScript. For such text
  the model does not capture the program's `length`, cut positions, or a
  `slice` that splits a surrogate pair.
- Filesystem walk and file reads (`findMarkdownFiles`, the reads in
  `processMarkdownFile`): these are I/O. The name tests of the walk are kept as
  `FrontMatter.IsMarkdownFile` and `FrontMatter.VisitsDirectory`. The listing
  order is whatever the file system returns, and the documents are taken as
  an input sequence.
- `path.relative`, `path.dirname` and the `.replace(docsPath, 'docs')` of a
  file's directory: the directory is a parameter of
  `Indexer.ProcessMarkdownFile`.
- `Indexer.ProcessMarkdownFile`: `path.join(dirPath, id)` is modelled as
  `dirPath + "/" + id`, without Node's path normalisation (for example `.`
  segments or a trailing slash).
- The search client, its credentials and the namespace read from the
  environment: the index is the `SearchIndex` class, and whether the service
  accepts each call is left open.
- `Promise.all` over the file reads, and all console logging: concurrency and
  output only.
- Unicode: `normalize('NFD')` and the non-ASCII parts of `toLowerCase` and
  `toUpperCase` are foreign Unicode algorithms. The model maps case on ASCII
  letters only and treats normalisation as the identity, so it describes
  `slugify` and the file-name title exactly for ASCII text.
- `Chunker.EffectiveOverlap`: computed as the exact integer
  `(3 * maxChunkSize) / 10`. JavaScript computes `Math.floor(maxChunkSize * 0.3)`
  in double precision, and double rounding is not modelled. At the sizes the
  script uses (1200 and 200) the overlap is 200 either way.
- `Chunker.SplitContentIntoChunks` and `Chunker.Chunks` require
  `maxChunkSize > 0`. The script only calls the chunker with its default of
  1200. A size of 0 would make the JavaScript cap `Infinity`, which is not
  modelled.
- The `?? '<Error displaying title>'` and `?? 2` fallbacks of the metadata:
  a section from the splitter always has a title and a level, so they never
  apply.
- Errors other than a failed service call: in the model nothing else in a
  document's processing throws, so a document fails only when one of its
  upserts fails. The outer `try`/`catch` ends the run only when the reset
  fails, because the documents are given rather than discovered.
- `search`, the search modal, the keyboard shortcuts, `LoadingDots`,
  `useSearchLogic`, `useAiChat`, `validateThemeConfig`, `src/index.ts`, the
  client config hook and the type declarations: UI, network I/O, plugin glue
  and a wrapper over a schema library. None of these is part of this model.
