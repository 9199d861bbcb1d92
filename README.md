# Open Australian Legal Corpus creator — a verified model

This project models, in Dafny, the incremental-update core of the Open
Australian Legal Corpus creator and the NSW legislation source adapter.

On each run the creator does the following, source by source:
- it decides whether to regenerate the source's discovery requests or reuse the saved ones;
- it prunes the source's document index down to requests that are still wanted and still fresh;
- it indexes what is left to do.

It then:
- folds every index entry into a map keyed by version id;
- streams the existing corpus through a filter that keeps each version id at most once, and only when it is still indexed or belongs to a source not being scraped;
- appends the documents that are missing.

Before all this, the constructor deletes any data whose stored data version is outdated.

The NSW adapter does three things:
- it chooses which of its four search tables still need searching;
- it appends the documents found on a table page before recording the search;
- it fetches a document, with one retry on the PDF rendering. It derives the document's type from its URL and normalises the citation from its title.

How the model is laid out:
- Files are fields of a class. `CorpusCreator.Creator` holds the data directory and the corpus; `NswLegislation.NswFiles` holds the adapter's JSONL files.
- A file that does not exist is a key absent from a map, or `None`.
- Everything that comes over the network is a parameter: generated requests, indexing results, fetched documents and page contents. The same goes for the clock, as integer seconds.
- The loops of the source are methods. Each is proved against specification functions: `Reconciled` (the corpus pass), `Present` (the append of fetched documents), `OutdatedAmong` and `Invalidated` (the version check), `RequestsFileAfter`, `PrunedFile` and `ToIndex` (discovery and pruning), `IndexedFile` (indexing), and `Stored`/`Recorded` with `Written` (the document fetch).
- The properties the source relies on are lemmas about those functions.

Modules:
- `Wrappers`: the `Option` type.
- `Sequences`: order-preserving sub-sequences.
- `Records`: requests, entries, index records and corpus documents.
- `Refresh`: the three-valued refresh interval.
- `EntryIndex`: the index filter and the unindexed requests.
- `EntryMap`: flattening and dedup by version id.
- `Reconcile`: the corpus pass, the missing entries and the appended documents.
- `CorpusCreator`: versions, discovery, the index files and the `Creator` class.
- `Citation`: the NSW adapter's citation normalisation, with Python's `str.split`, `str.join`, `str.replace`, `split(sep)[0]` and the `' No \d+$'` substitution written out.
- `NswLegislation`: the adapter's searches, its URL rules (document type, PDF rendering), documents and fetch.

Two behaviours of the code are easy to misread, and the model follows the code in both:
- **Duplicate version ids.** The dict comprehension at creator.py:230-239 keeps the *last* entry for a version id, not the first one written, because later keys overwrite earlier ones (`EntryMap.DedupLastWins`).
- **Missing index file.** Pruning treats a missing index file as empty (creator.py:143), but loading all indices (creator.py:226) raises on one. See "Findings".

## Model

| member | source | states |
|---|---|---|
| Refresh.MustRegenerate | src/oalc_creator/creator.py:119-122 | discovery is due when there is no saved file, under `True`, or when the file is strictly older than the interval; never only for age under `False` |
| Refresh.IsFresh | src/oalc_creator/creator.py:160-164 | an index record is fresh under `False`, or when its age is at most the interval |
| Refresh.RegenerationPersists | src/oalc_creator/creator.py:119-122 | once discovery is due (no file, `True`, or the file is strictly older than the interval) it stays due at every later time |
| Refresh.FreshnessFades | src/oalc_creator/creator.py:160-164 | an index record that is kept now (`False`, or age within the interval) would also have been kept at any earlier time |
| Refresh.SameBoundary | src/oalc_creator/creator.py:121 | for a duration, "not due for regeneration" (not strictly older) and "fresh" (age `<=` interval) are the same test |
| Refresh.NeverRefreshes | src/oalc_creator/creator.py:119-122 | with `False`, saved requests are never regenerated and every index record is fresh |
| EntryIndex.Filter | src/oalc_creator/creator.py:159-164 | the filtered index is an order-preserving sub-sequence of the loaded one, and holds exactly the records whose request is wanted and that are fresh |
| EntryIndex.FilterIdempotent | src/oalc_creator/creator.py:159-164 | filtering a filtered index again changes nothing |
| EntryIndex.FilterKeepsAll | src/oalc_creator/creator.py:156-168 | when every record is wanted and fresh, the filter returns the index unchanged |
| EntryIndex.FilterKeepsAllIff | src/oalc_creator/creator.py:156-168 | the filtered length equals the loaded length iff every record is retained, and then the filtered index is the loaded one |
| EntryIndex.Unindexed | src/oalc_creator/creator.py:171 | the returned requests are wanted and disjoint from the requests of the filtered index |
| EntryIndex.UnindexedIff | src/oalc_creator/creator.py:171 | a request is returned iff it is wanted and no retained record answers it |
| EntryIndex.StaleRequestReindexed | src/oalc_creator/creator.py:160-171 | a wanted request whose every record is older than the interval is indexed again |
| EntryIndex.NeverKeepsWanted | src/oalc_creator/creator.py:159-171 | with `False`, the returned set is the wanted requests minus every request already in the index |
| EntryMap.RecordEntries | src/oalc_creator/creator.py:236-238 | every flattened entry of one index carries that index's source |
| EntryMap.RecordEntriesMembers | src/oalc_creator/creator.py:236-238 | an entry is in the flattening of one index iff some record of it lists that entry |
| EntryMap.FlattenMembers | src/oalc_creator/creator.py:230-239 | a (source, entry) pair is flattened iff that source's index lists the entry |
| EntryMap.Flatten | src/oalc_creator/creator.py:230-239 | every entry of every index, paired with its source, in scraper order then record order |
| EntryMap.Dedup | src/oalc_creator/creator.py:230-239 | the map's keys are exactly the version ids that occur, and each value is an occurring entry with that version id |
| EntryMap.DedupLastWins | src/oalc_creator/creator.py:230-239 | the entry kept for a version id is its last occurrence in iteration order |
| EntryMap.EntryMapOf | src/oalc_creator/creator.py:230-239 | the entry map is the dedup of the flattened entries of all loaded indices |
| EntryMap.EntryMapExact | src/oalc_creator/creator.py:226-239 | a version id is a key iff some index lists an entry with it, and its value is such an entry |
| Reconcile.Reconciled | src/oalc_creator/creator.py:242-250 | the kept corpus: a document is kept when it is eligible and no earlier kept document has its version id; never longer than the corpus |
| Reconcile.StreamCorpus | src/oalc_creator/creator.py:242-252 | the loop writing the temporary file produces exactly the reconciled corpus, and the list of kept ids is the ids of that file |
| Reconcile.ReconciledIsSubseq | src/oalc_creator/creator.py:244-250 | the reconciled corpus is an order-preserving sub-sequence of the old corpus |
| Reconcile.ReconciledSound | src/oalc_creator/creator.py:246 | every kept document was in the corpus and has its version id in the entry map or its source outside the scraped sources |
| Reconcile.ReconciledDistinct | src/oalc_creator/creator.py:246-250 | the version ids of the reconciled corpus are pairwise distinct |
| Reconcile.ReconciledIds | src/oalc_creator/creator.py:246-252 | a version id is kept iff some eligible document of the corpus has it |
| Reconcile.ReconciledKeepsFirstEligible | src/oalc_creator/creator.py:246-250 | an eligible document with no earlier eligible document of the same version id is kept |
| Reconcile.ForeignFirstKept | src/oalc_creator/creator.py:246 | the first occurrence of a version id from a source not being scraped is always kept |
| Reconcile.ReconciledKeepsClean | src/oalc_creator/creator.py:244-250 | a corpus of eligible documents with distinct version ids passes through unchanged |
| Reconcile.ReconciledIdempotent | src/oalc_creator/creator.py:242-255 | reconciling a reconciled corpus again, against the same entries and sources, changes nothing |
| Reconcile.Missing | src/oalc_creator/creator.py:258 | the missing entries are disjoint from the kept ids and, together with the kept ones, cover every key of the entry map, with their values unchanged |
| Reconcile.MissingIffAbsent | src/oalc_creator/creator.py:242-258 | a version id is missing iff it is in the entry map and no eligible corpus document has it |
| Reconcile.Present | src/oalc_creator/creator.py:275-277 | the appended documents are at most as many as the completed fetches |
| Reconcile.PresentExactly | src/oalc_creator/creator.py:275-277 | a document is appended iff some fetch returned it |
| CorpusCreator.ArtifactNamed | src/oalc_creator/creator.py:85-89 | a key of `versions.json` names an artifact iff it is `corpus`, `indices` or `index`, and names that one only |
| CorpusCreator.Invalidated | src/oalc_creator/creator.py:92-99 | an artifact is deleted iff there is a versions file, the artifact exists and its stored version differs from the current one |
| CorpusCreator.OutdatedAmongStep | src/oalc_creator/creator.py:92-94 | visiting one more key of `versions.json` adds exactly the existing outdated artifact that key names |
| CorpusCreator.RequestsFileAfter | src/oalc_creator/creator.py:119-134 | the saved-requests file afterwards: with no file or under `True` it holds the generated requests stamped now; in every case it is either that or the old file |
| CorpusCreator.DiscoveryIdempotent | src/oalc_creator/creator.py:119-134 | a second discovery at the same instant under a non-`True` interval reuses the file the first one saved |
| CorpusCreator.PrunedFile | src/oalc_creator/creator.py:143-168 | the index file after pruning is absent iff it was absent or the interval is `True`; otherwise it is an order-preserving sub-sequence of the old file |
| CorpusCreator.ToIndex | src/oalc_creator/creator.py:143-171 | only wanted requests are returned, and a wanted request left out is answered by a record of the pruned file |
| CorpusCreator.ToIndexBounds | src/oalc_creator/creator.py:143-171 | with no index file or under `True` every wanted request is returned; in all cases only wanted ones |
| CorpusCreator.PruneIdempotent | src/oalc_creator/creator.py:143-171 | pruning a pruned index again leaves the file unchanged and, unless `True`, returns the same requests |
| CorpusCreator.IndexedFile | src/oalc_creator/creator.py:207-223 | the index file after indexing exists iff it existed or there was something to index; its old records stay first and the completed results follow them |
| CorpusCreator.LoadIndicesAsWritten | src/oalc_creator/creator.py:226 | loading all indices succeeds iff every scraper has an index file |
| CorpusCreator.LoadIndices | src/oalc_creator/creator.py:226 | one index per scraper in scraper order, holding the file's records, or none when the file is absent |
| CorpusCreator.LoadIndicesAgrees | src/oalc_creator/creator.py:226 | whenever the load as written succeeds, it gives what the corrected load gives |
| CorpusCreator.EmptySourceBreaksLoad | src/oalc_creator/creator.py:207-226 | a scraper with no discovery requests and no index file (or under `True`) still has no file after indexing, so the load as written fails |
| CorpusCreator.Creator.constructor | src/oalc_creator/creator.py:79-110 | given scrapers with distinct source names (the scraper dictionary), outdated existing artifacts are emptied, missing ones are created empty, and the current versions are saved |
| CorpusCreator.Creator.InvalidateOutdated | src/oalc_creator/creator.py:92-99 | the loop over `versions.json` deletes exactly the invalidated artifacts and what they hold |
| CorpusCreator.Creator.Delete | src/oalc_creator/creator.py:94-99 | deleting an artifact removes it and empties what it holds, leaving the others alone |
| CorpusCreator.Creator.GetIndexReqs | src/oalc_creator/creator.py:113-134 | when due, the generated requests are returned and saved with the current time; otherwise the saved ones are returned and nothing changes |
| CorpusCreator.Creator.GetUnindexedIndexReqs | src/oalc_creator/creator.py:137-171 | an absent index is left absent, `True` deletes it, otherwise it is replaced by its filter; the file changes iff the filter dropped a record; the result is wanted and disjoint from what the file answers |
| CorpusCreator.Creator.PrepareIndices | src/oalc_creator/creator.py:195-198 | every scraper's request file and index file are updated as by the two steps above, other sources' files untouched |
| CorpusCreator.Creator.PrepareSource | src/oalc_creator/creator.py:195-198 | one scraper's discovery file becomes `RequestsFileAfter`, its index file `PrunedFile` of the discovered requests, and `ToIndex` is returned |
| CorpusCreator.Creator.AppendIndices | src/oalc_creator/creator.py:207-223 | a source with requests to index gets its file created if absent and its completed results appended in order; others are untouched |
| CorpusCreator.Creator.AppendResults | src/oalc_creator/creator.py:215-222 | the source's index file is created if absent, and the results are appended after its old records, in order; no other file changes |
| CorpusCreator.Creator.ReconcileCorpus | src/oalc_creator/creator.py:242-255 | the corpus is replaced by its reconciliation and the kept id set is its version ids |
| CorpusCreator.Creator.AppendMissing | src/oalc_creator/creator.py:261-277 | nothing is appended when no entry is missing; otherwise every non-null fetched document, in order, after the reconciled corpus |
| CorpusCreator.Creator.IndexSources | src/oalc_creator/creator.py:195-223 | per scraper, the discovery file becomes `RequestsFileAfter` and the index file `IndexedFile` of the pruned file; other sources' files untouched |
| CorpusCreator.Creator.ReconcileAndAppend | src/oalc_creator/creator.py:242-277 | the corpus becomes its reconciliation, a sub-sequence with distinct ids, followed by the fetched documents when some entry is missing |
| CorpusCreator.Creator.Create | src/oalc_creator/creator.py:183-279 | the whole run: per-source file states, the entry map of the loaded indices, a reconciled corpus that is a sub-sequence of the old one with distinct ids, then the appended documents |
| Citation.Split | sources/nsw_legislation.py:48 | `str.split()` with no separator: the maximal runs of non-whitespace, left to right |
| Citation.Join | sources/nsw_legislation.py:48 | `' '.join(words)`: the words with one space between each two |
| Citation.SplitIsWords | sources/nsw_legislation.py:48 | `str.split()` yields non-empty words without whitespace |
| Citation.SplitKeepsNoNsw | sources/nsw_legislation.py:47-48 | splitting text free of `(NSW)` yields words free of it |
| Citation.JoinCollapsed | sources/nsw_legislation.py:48 | joining such words with single spaces gives text whose only whitespace is single inner spaces |
| Citation.JoinKeepsNoNsw | sources/nsw_legislation.py:48 | joining words free of `(NSW)` with spaces creates no `(NSW)` |
| Citation.SplitTrailingSpace | sources/nsw_legislation.py:48 | a trailing space does not change the words |
| Citation.JoinSplitCollapsed | sources/nsw_legislation.py:48 | splitting then joining collapsed text gives it back |
| Citation.SplitThroughWord | sources/nsw_legislation.py:48 | a run without whitespace only extends the word being read |
| Citation.SplitJoinFrom | sources/nsw_legislation.py:48 | splitting joined words, from a partly read word, gives the words back with the first one extended |
| Citation.SplitJoin | sources/nsw_legislation.py:48 | `str.split()` undoes `' '.join` on any list of non-empty words without whitespace |
| Citation.CollapseSpaces | sources/nsw_legislation.py:48 | `' '.join(s.split())` has no leading, trailing, doubled or non-space whitespace, and has exactly the words of `s` |
| Citation.CollapseFixes | sources/nsw_legislation.py:48 | collapsing a collapsed text followed by a space gives the text back |
| Citation.StripNumber | sources/nsw_legislation.py:46 | `re.sub(r' No \d+$', '', s)`: the result is a prefix of the title, or a prefix followed by the title's final newline |
| Citation.StripNumberRemoves | sources/nsw_legislation.py:46 | a title ending in ` No ` and digits loses exactly that suffix |
| Citation.StripNumberKeeps | sources/nsw_legislation.py:46 | a title ending in neither a digit nor a newline is unchanged |
| Citation.TrailingDigitsAreDigits | sources/nsw_legislation.py:46 | the run counted as trailing digits is made of digits |
| Citation.NumberSuffixShape | sources/nsw_legislation.py:46 | a ` No <digits>` match at the end splits the title into the text before it, ` No ` and a non-empty run of digits |
| Citation.StripNumberAtEnd | sources/nsw_legislation.py:46 | a match at the very end is removed, leaving the text before it |
| Citation.StripNumberBeforeNewline | sources/nsw_legislation.py:46 | a match just before a final newline (Python's `$`) is removed and the newline kept |
| Citation.StripNumberChanges | sources/nsw_legislation.py:46 | the converse of the two above: whenever the substitution changes a title, the title is some text, ` No ` and digits, with or without a final newline, and the result is that text (with the newline) |
| Citation.BeforeFirst | sources/nsw_legislation.py:47 | `split(sep)[0]` is a prefix with no occurrence of the separator starting inside it, followed by the separator unless it is the whole string |
| Citation.BeforeFirstNoNsw | sources/nsw_legislation.py:47 | the text before the first `(NSW)` contains no `(NSW)` |
| Citation.BeforeFirstOfNormalised | sources/nsw_legislation.py:47-49 | cutting a normalised citation at `(NSW)` gives its prefix and a space |
| Citation.NormaliseCitation | sources/nsw_legislation.py:46-49 | the number suffix is removed, the text is cut before the first `(NSW)`, its whitespace collapsed, and ` (NSW)` appended |
| Citation.NormaliseCitationShape | sources/nsw_legislation.py:46-49 | every citation is a collapsed prefix without `(NSW)`, followed by ` (NSW)` |
| Citation.NormaliseCitationIdempotent | sources/nsw_legislation.py:46-49 | normalising a citation again changes nothing |
| Citation.ReplaceAll | sources/nsw_legislation.py:66 | `str.replace`: every non-overlapping occurrence, left to right, is replaced |
| Citation.ReplaceAllAbsent | sources/nsw_legislation.py:66 | `str.replace` leaves a string without the pattern unchanged |
| Citation.ReplaceAllSkip | sources/nsw_legislation.py:66 | a prefix in which no occurrence starts is copied through unchanged |
| NswLegislation.Unrecorded | sources/nsw_legislation.py:23 | the unrecorded tables are an order-preserving sub-sequence of the tables, holding exactly those not recorded |
| NswLegislation.GetSearches | sources/nsw_legislation.py:11-23 | at most four requests, in table order, one `nsw_legislation` request per table not yet recorded (none recorded when the file is absent) |
| NswLegislation.RecordedSearchDropped | sources/nsw_legislation.py:20-30 | recording a search removes exactly that table from the answer |
| NswLegislation.GetSearchesEmpty | sources/nsw_legislation.py:20-23 | nothing is left to search iff every table is recorded |
| NswLegislation.DocumentRequest | sources/nsw_legislation.py:26 | a document URL is the `view/whole` prefix followed by the captured path |
| NswLegislation.DocumentRequests | sources/nsw_legislation.py:26 | one request per captured path, in page order |
| NswLegislation.DocumentRequestInjective | sources/nsw_legislation.py:26 | distinct paths give distinct requests |
| NswLegislation.DocumentType | sources/nsw_legislation.py:53 | the type is one of `primary_legislation` and `secondary_legislation` |
| NswLegislation.PdfUrl | sources/nsw_legislation.py:66 | the fallback URL replaces `/view/whole/html` by `/view/whole/pdf` |
| NswLegislation.PdfUrlSwapsView | sources/nsw_legislation.py:66 | behind a prefix with no `/v`, the HTML view path becomes the PDF view path and the rest is unchanged |
| NswLegislation.DocumentOf | sources/nsw_legislation.py:46-58 | the document's type is primary iff the URL contains `/act-`, its jurisdiction and source are fixed, and its citation has the normalised shape |
| NswLegislation.Stored | sources/nsw_legislation.py:35-60 | one attempt writes a document iff the page parsed, under the URL fetched, with a normalised citation |
| NswLegislation.Recorded | sources/nsw_legislation.py:35-64 | one attempt records the URL as downloaded iff it did not fail, even when no document was written |
| NswLegislation.NswFiles.GetSearch | sources/nsw_legislation.py:25-30 | the page's documents are appended before the search is recorded, after which the table is no longer unrecorded |
| NswLegislation.NswFiles.GetDocument | sources/nsw_legislation.py:32-69 | at most two attempts, the second on the PDF URL and only after a failure of a non-recursive call; a failure of the recursive call raises; swallowed errors still record the download; a top-level call appends exactly `Written` |
| NswLegislation.Written | sources/nsw_legislation.py:60-66 | what a top-level fetch appends: nothing to the download record iff both the first attempt and the retry fail |
| NswLegislation.WrittenBounds | sources/nsw_legislation.py:60-66 | a fetch writes at most one document and one download line, and a document always with the download line of its own URL |
| NswLegislation.FallbackRecordsPdf | sources/nsw_legislation.py:62-66 | after a successful fallback, the download record names the PDF URL |
| NswLegislation.FallbackOfHtmlView | sources/nsw_legislation.py:66 | the fallback for a document's HTML rendering asks for the PDF rendering of the same path |
| NswLegislation.RetryOfOtherUrl | sources/nsw_legislation.py:66 | a URL without `/view/whole/html` is retried unchanged |

## Left out

- Async scheduling: the aiohttp session, `alive_gather` and `alive_as_completed` (creator.py:189-223, 272). Indexing and fetch results are parameters, given in completion order.
- `random.shuffle` (creator.py:204, 266). Order of work carries no contract. Within one source, `indexed` is any order of its completed results.
- File formats and file-system effects are not modelled: JSON/JSONL encoding, directories, `os.replace` atomicity and a crash between writes. Files are fields holding their decoded contents.
- The paths and `platformdirs` are not modelled.
- Time: `datetime.now()` and file modification times are integer seconds. Sub-second timestamps are not modelled.
- The scraper classes, the `Entry` and `Request` attrs classes, `DATA_VERSIONS` and the other sources are not part of this model. `Scraper` keeps only a source name and two intervals. `DATA_VERSIONS` is a parameter known to cover the three artifacts.
- Console output and the `@log` decorator.
- The `lock` arguments of the NSW adapter, since concurrency is not modelled.
- HTTP, the lxml/XPath page surgery, inscriptis text extraction, the date in the search URL and the regex scan of the table page (nsw_legislation.py:26, 36-44, 52). These are foreign library calls over unseen HTML. A page is reduced to `Parsed(title, text)`, `Undecodable`, `Incomplete` or `Failed`, and the table page to its captured paths.
- A heading with no text (`None`) is folded into `Failed` with every other error.
- NswLegislation.NswFiles.GetDocument: an error raised by the corpus append or the download append itself is not modelled. Such an error would reach the fallback after a partial write.
- NswLegislation.NswDocument: the adapter's corpus lines are kept apart from the creator's `Doc` records, which carry a version id that this adapter's documents lack.
- Citation.StripNumber: `\d` is taken to mean the ASCII digits. Python's `\d` also matches other Unicode decimal digits.
- Citation.IsSpace: the whitespace set is Python's `str.isspace`, written out. Unicode normalisation is not modelled.
- Refresh.IsFresh: the interval `True` never reaches the freshness test (creator.py:147-150 returns first), so it is modelled as not fresh.
- CorpusCreator.Creator.Create: the `fetched` documents are arbitrary. The model does not tie them to the missing entries (that is the job of each scraper's `get_doc`, which is not part of this model). For loading the indices, the run uses the corrected `LoadIndices` (see "Findings"). For the same reason no lemma states that a whole second run is a no-op: what it appends depends on what the fetches return. Each phase has its own idempotence lemma instead (`DiscoveryIdempotent`, `PruneIdempotent`, `ReconciledIdempotent`).
- CorpusCreator.Creator.InvalidateOutdated: keys are visited in an arbitrary order, not the order of `versions.json`. The result does not depend on that order.

## Findings

| source | as written | input that shows it | evidently intended | confidence | as-written member | corrected member |
|---|---|---|---|---|---|---|
| src/oalc_creator/creator.py:226 | every scraper's `index/<source>.jsonl` is loaded with `orjsonl.load`, which raises when the file does not exist; a file is only created when the source has requests to index (line 216) | a source whose discovery returns no requests on its first run, or whose index interval is `True` and whose discovery returns no requests (line 148 deletes its file) | a source without an index file contributes no entries, as `_get_unindexed_index_reqs` already assumes (line 143) | medium, not executed | CorpusCreator.EmptySourceBreaksLoad | CorpusCreator.LoadIndicesAgrees |
