/**
 * The `Creator` class of creator.py: the version check of its constructor,
 * the per-source discovery and index bookkeeping, and the `create` run that
 * reconciles the corpus and appends the missing documents.
 *
 * The data directory is modelled by fields of the class: the saved discovery
 * requests (`indices/<source>.json`), the document indices
 * (`index/<source>.jsonl`), the corpus (`corpus.jsonl`) and the versions file.
 * A file that does not exist is a key absent from its map. What the scrapers
 * return over the network is passed in as parameters.
 */
module CorpusCreator {
  import opened Wrappers
  import opened Records
  import opened Refresh
  import opened Sequences
  import opened EntryIndex
  import opened EntryMap
  import opened Reconcile

  /** What the creator reads from a scraper: its name and its two intervals. */
  datatype Scraper = Scraper(source: Source, indicesRefresh: Interval, indexRefresh: Interval)

  function SourcesOf(scrapers: seq<Scraper>): set<Source>
  {
    set sc | sc in scrapers :: sc.source
  }

  /** The scrapers are held in a dictionary keyed by source name (creator.py:57). */
  predicate DistinctSources(scrapers: seq<Scraper>)
  {
    forall i, j :: 0 <= i < j < |scrapers| ==> scrapers[i].source != scrapers[j].source
  }

  /** The file of a source, if it exists. */
  function Lookup<V>(files: map<Source, V>, s: Source): Option<V>
  {
    if s in files then Some(files[s]) else None
  }

  /** The files after the file of `s` is written (`Some`) or deleted (`None`). */
  function Put<V>(files: map<Source, V>, s: Source, file: Option<V>): map<Source, V>
  {
    match file
    case Some(v) => files[s := v]
    case None => files - {s}
  }

  // ---------------------------------------------------------------------
  // Data versions (creator.py:79-99)

  /** The three kinds of data `versions.json` can invalidate (creator.py:85-89). */
  datatype Artifact = CorpusFile | IndicesDir | IndexDir

  function ArtifactName(a: Artifact): string
  {
    match a
    case CorpusFile => "corpus"
    case IndicesDir => "indices"
    case IndexDir => "index"
  }

  /** The artifact a key of `versions.json` names, if any. */
  function ArtifactNamed(name: string): (a: Option<Artifact>)
    ensures a.Some? ==> ArtifactName(a.value) == name
    ensures forall b :: ArtifactName(b) == name ==> a == Some(b)
  {
    if name == "corpus" then Some(CorpusFile)
    else if name == "index" then Some(IndexDir)
    else if name == "indices" then Some(IndicesDir)
    else None
  }

  /** `DATA_VERSIONS` has a version for each of the three artifacts. */
  predicate KnowsAll(dataVersions: map<string, string>)
  {
    "corpus" in dataVersions && "indices" in dataVersions && "index" in dataVersions
  }

  /** The stored version of the artifact differs from the current one. */
  predicate Outdated(a: Artifact, versions: map<string, string>, dataVersions: map<string, string>)
    requires KnowsAll(dataVersions)
  {
    ArtifactName(a) in versions && versions[ArtifactName(a)] != dataVersions[ArtifactName(a)]
  }

  /** The artifacts the constructor deletes: existing ones whose stored
      version is outdated, and none when there is no versions file. */
  function Invalidated(versionsFile: Option<map<string, string>>, dataVersions: map<string, string>,
                       present: set<Artifact>): (gone: set<Artifact>)
    requires KnowsAll(dataVersions)
    ensures gone <= present
    ensures forall a :: a in gone <==> versionsFile.Some? && a in present && Outdated(a, versionsFile.value, dataVersions)
  {
    match versionsFile
    case None => {}
    case Some(versions) => set a | a in present && Outdated(a, versions, dataVersions)
  }

  /** The outdated artifacts among those named by `names`. */
  function OutdatedAmong(present: set<Artifact>, names: set<string>, versions: map<string, string>,
                         dataVersions: map<string, string>): set<Artifact>
    requires KnowsAll(dataVersions)
  {
    set a | a in present && ArtifactName(a) in names && Outdated(a, versions, dataVersions)
  }

  /** One more name of `versions.json` adds at most the artifact it names. */
  lemma OutdatedAmongStep(present: set<Artifact>, names: set<string>, name: string, versions: map<string, string>,
                          dataVersions: map<string, string>)
    requires KnowsAll(dataVersions) && name in versions
    ensures var a := ArtifactNamed(name);
            OutdatedAmong(present, names + {name}, versions, dataVersions)
            == OutdatedAmong(present, names, versions, dataVersions)
               + (if a.Some? && a.value in present && versions[name] != dataVersions[name] then {a.value} else {})
  {
  }

  // ---------------------------------------------------------------------
  // Discovery requests (creator.py:113-134)

  /** The saved discovery requests of a source and the file's modification time. */
  datatype SavedRequests = SavedRequests(reqs: set<Request>, savedAt: int)

  /** The modification time of a saved-requests file, if it exists. */
  function SavedTime(saved: Option<SavedRequests>): Option<int>
  {
    if saved.Some? then Some(saved.value.savedAt) else None
  }

  /** The saved-requests file after `_get_index_reqs`: newly generated and
      stamped now when due, the old file otherwise. It always exists afterwards. */
  function RequestsFileAfter(saved: Option<SavedRequests>, sc: Scraper, now: int, generated: set<Request>): (r: SavedRequests)
    ensures saved.None? || sc.indicesRefresh.Always? ==> r == SavedRequests(generated, now)
    ensures r == SavedRequests(generated, now) || (saved.Some? && r == saved.value)
  {
    if MustRegenerate(SavedTime(saved), sc.indicesRefresh, now)
    then SavedRequests(generated, now)
    else saved.value
  }

  /** Running discovery again at the same instant, with any interval other
      than `True` and a non-negative duration, reuses what the first run saved:
      a second run with no change at the source is a no-op. */
  lemma DiscoveryIdempotent(saved: Option<SavedRequests>, sc: Scraper, now: int, generated: set<Request>, again: set<Request>)
    requires !sc.indicesRefresh.Always?
    requires sc.indicesRefresh.Within? ==> sc.indicesRefresh.seconds >= 0
    requires saved.Some? ==> saved.value.savedAt <= now
    ensures var first := RequestsFileAfter(saved, sc, now, generated);
            RequestsFileAfter(Some(first), sc, now, again) == first
  {
  }

  // ---------------------------------------------------------------------
  // Document indices (creator.py:137-171, 215-223)

  /** The index file after `_get_unindexed_index_reqs`: untouched when absent,
      deleted under `True`, filtered otherwise. */
  function PrunedFile(file: Option<seq<IndexRecord>>, sc: Scraper, wanted: set<Request>, now: int): (r: Option<seq<IndexRecord>>)
    ensures r.Some? ==> file.Some? && IsSubseq(r.value, file.value)
    ensures r.None? <==> file.None? || sc.indexRefresh.Always?
  {
    match file
    case None => None
    case Some(index) => if sc.indexRefresh.Always? then None else Some(Filter(index, wanted, sc.indexRefresh, now))
  }

  /** The requests `_get_unindexed_index_reqs` returns. */
  function ToIndex(file: Option<seq<IndexRecord>>, sc: Scraper, wanted: set<Request>, now: int): (r: set<Request>)
    ensures r <= wanted
    ensures wanted - r <= Requests(PrunedFile(file, sc, wanted, now).GetOr([]))
  {
    match file
    case None => wanted
    case Some(index) => if sc.indexRefresh.Always? then wanted else Unindexed(wanted, index, sc.indexRefresh, now)
  }

  /** With no index file, or under `True`, every wanted request is indexed
      again; in every case only wanted requests are. */
  lemma ToIndexBounds(file: Option<seq<IndexRecord>>, sc: Scraper, wanted: set<Request>, now: int)
    ensures ToIndex(file, sc, wanted, now) <= wanted
    ensures file.None? || sc.indexRefresh.Always? ==> ToIndex(file, sc, wanted, now) == wanted
  {
  }

  /** Pruning a second time, with the same wanted requests at the same time,
      leaves the file as it is and asks for the same requests. */
  lemma PruneIdempotent(file: Option<seq<IndexRecord>>, sc: Scraper, wanted: set<Request>, now: int)
    ensures PrunedFile(PrunedFile(file, sc, wanted, now), sc, wanted, now) == PrunedFile(file, sc, wanted, now)
    ensures !sc.indexRefresh.Always? ==>
              ToIndex(PrunedFile(file, sc, wanted, now), sc, wanted, now) == ToIndex(file, sc, wanted, now)
  {
    if file.Some? && !sc.indexRefresh.Always? {
      FilterIdempotent(file.value, wanted, sc.indexRefresh, now);
    }
  }

  /** The records a source's index file holds after the indexing phase: when
      the source had requests to index, its file is opened for appending
      (and so created) and the completed results are appended in order. */
  function IndexedFile(file: Option<seq<IndexRecord>>, todo: set<Request>, completed: seq<IndexRecord>): (r: Option<seq<IndexRecord>>)
    ensures r.None? <==> file.None? && todo == {}
    ensures file.Some? ==> |r.value| >= |file.value| && r.value[..|file.value|] == file.value
    ensures todo != {} ==> r.value[|file.GetOr([])|..] == completed
  {
    if todo != {} then Some(file.GetOr([]) + completed) else file
  }



  /** Loading the indices of every scraper (creator.py:226) as written: the
      run fails with `None` when some scraper has no index file. */
  function LoadIndicesAsWritten(files: map<Source, seq<IndexRecord>>, scrapers: seq<Scraper>): (r: Option<seq<SourceIndex>>)
    ensures r.Some? <==> forall i :: 0 <= i < |scrapers| ==> scrapers[i].source in files
    decreases |scrapers|
  {
    if scrapers == [] then Some([])
    else if scrapers[0].source !in files then None
    else
      match LoadIndicesAsWritten(files, scrapers[1..])
      case None => None
      case Some(rest) => Some([SourceIndex(scrapers[0].source, files[scrapers[0].source])] + rest)
  }

  /** Loading the indices with a missing file read as an empty index, which
      is what the run evidently intends. */
  function LoadIndices(files: map<Source, seq<IndexRecord>>, scrapers: seq<Scraper>): (r: seq<SourceIndex>)
    ensures |r| == |scrapers|
    ensures forall i :: 0 <= i < |scrapers| ==>
              r[i].source == scrapers[i].source
              && r[i].records == (if scrapers[i].source in files then files[scrapers[i].source] else [])
    decreases |scrapers|
  {
    if scrapers == [] then []
    else [SourceIndex(scrapers[0].source, Lookup(files, scrapers[0].source).GetOr([]))] + LoadIndices(files, scrapers[1..])
  }

  /** The corrected load agrees with the original whenever the original succeeds. */
  lemma {:induction false} LoadIndicesAgrees(files: map<Source, seq<IndexRecord>>, scrapers: seq<Scraper>)
    requires LoadIndicesAsWritten(files, scrapers).Some?
    ensures LoadIndicesAsWritten(files, scrapers) == Some(LoadIndices(files, scrapers))
    decreases |scrapers|
  {
    if scrapers != [] {
      LoadIndicesAgrees(files, scrapers[1..]);
    }
  }

  /** A scraper with no discovery request at all never gets an index file:
      it has nothing to index, so no file is opened for it, and the file is
      absent or was just deleted under `True`. Loading the indices as written
      then fails, and the whole run with it. */
  lemma EmptySourceBreaksLoad(files: map<Source, seq<IndexRecord>>, scrapers: seq<Scraper>, k: nat, now: int,
                              completed: seq<IndexRecord>)
    requires k < |scrapers|
    requires scrapers[k].source !in files || scrapers[k].indexRefresh.Always?
    ensures var sc := scrapers[k];
            var file := Lookup(files, sc.source);
            var after := IndexedFile(PrunedFile(file, sc, {}, now), ToIndex(file, sc, {}, now), completed);
            after.None? && LoadIndicesAsWritten(Put(files, sc.source, after), scrapers).None?
  {
  }

  // ---------------------------------------------------------------------
  // The creator

  class Creator {
    /** The scrapers, in the iteration order of `self.scrapers`. */
    const scrapers: seq<Scraper>
    /** Which of the corpus file, `indices/` and `index/` exist. */
    var present: set<Artifact>
    /** `indices/<source>.json`. */
    var requestFiles: map<Source, SavedRequests>
    /** `index/<source>.jsonl`. */
    var indexFiles: map<Source, seq<IndexRecord>>
    /** `corpus.jsonl`. */
    var corpus: seq<Doc>
    /** `versions.json`. */
    var versionsFile: Option<map<string, string>>

    /** `__init__` (creator.py:42-110), given the data directory as it is
        found: outdated data is deleted, then the directories and an empty
        corpus are created where missing and the current versions saved. */
    constructor (scrapers: seq<Scraper>, dataVersions: map<string, string>, versionsFile: Option<map<string, string>>,
                 present: set<Artifact>, requestFiles: map<Source, SavedRequests>,
                 indexFiles: map<Source, seq<IndexRecord>>, corpus: seq<Doc>)
      requires KnowsAll(dataVersions) && DistinctSources(scrapers)
      ensures this.scrapers == scrapers
      ensures this.present == {CorpusFile, IndicesDir, IndexDir}
      ensures var gone := Invalidated(versionsFile, dataVersions, present);
              && this.corpus == (if CorpusFile in gone || CorpusFile !in present then [] else corpus)
              && this.requestFiles == (if IndicesDir in gone || IndicesDir !in present then map[] else requestFiles)
              && this.indexFiles == (if IndexDir in gone || IndexDir !in present then map[] else indexFiles)
      ensures this.versionsFile == Some(dataVersions)
    {
      this.scrapers := scrapers;
      this.present := present;
      this.requestFiles := requestFiles;
      this.indexFiles := indexFiles;
      this.corpus := corpus;
      this.versionsFile := versionsFile;
      new;
      if versionsFile.Some? {
        InvalidateOutdated(versionsFile.value, dataVersions);
      }
      if CorpusFile !in this.present {
        this.corpus := [];
      }
      if IndicesDir !in this.present {
        this.requestFiles := map[];
      }
      if IndexDir !in this.present {
        this.indexFiles := map[];
      }
      this.present := {CorpusFile, IndicesDir, IndexDir};
      this.versionsFile := Some(dataVersions);
    }

    /** The loop of creator.py:92-99 over the entries of `versions.json`:
        an artifact named there is deleted when its stored version differs
        from the current one and it exists. */
    method InvalidateOutdated(versions: map<string, string>, dataVersions: map<string, string>)
      requires KnowsAll(dataVersions)
      modifies this`present, this`corpus, this`requestFiles, this`indexFiles
      ensures var gone := Invalidated(Some(versions), dataVersions, old(present));
              && present == old(present) - gone
              && corpus == (if CorpusFile in gone then [] else old(corpus))
              && requestFiles == (if IndicesDir in gone then map[] else old(requestFiles))
              && indexFiles == (if IndexDir in gone then map[] else old(indexFiles))
    {
      var names := versions.Keys;
      ghost var done: set<string> := {};
      while names != {}
        invariant names !! done && names + done == versions.Keys
        invariant var gone := OutdatedAmong(old(present), done, versions, dataVersions);
                  && present == old(present) - gone
                  && corpus == (if CorpusFile in gone then [] else old(corpus))
                  && requestFiles == (if IndicesDir in gone then map[] else old(requestFiles))
                  && indexFiles == (if IndexDir in gone then map[] else old(indexFiles))
        decreases names
      {
        var name :| name in names;
        var artifact := ArtifactNamed(name);
        OutdatedAmongStep(old(present), done, name, versions, dataVersions);
        if artifact.Some? && versions[name] != dataVersions[name] && artifact.value in present {
          Delete(artifact.value);
        }
        names := names - {name};
        done := done + {name};
      }
      assert Invalidated(Some(versions), dataVersions, old(present)) == OutdatedAmong(old(present), done, versions, dataVersions);
    }

    /** Deletes an artifact with what it holds (creator.py:95-99). */
    method Delete(a: Artifact)
      modifies this`present, this`corpus, this`requestFiles, this`indexFiles
      ensures present == old(present) - {a}
      ensures corpus == (if a == CorpusFile then [] else old(corpus))
      ensures requestFiles == (if a == IndicesDir then map[] else old(requestFiles))
      ensures indexFiles == (if a == IndexDir then map[] else old(indexFiles))
    {
      present := present - {a};
      match a
      case CorpusFile => corpus := [];
      case IndicesDir => requestFiles := map[];
      case IndexDir => indexFiles := map[];
    }

    /** `_get_index_reqs` (creator.py:113-134): regenerate and save the
        source's discovery requests when due, otherwise load the saved ones.
        `generated` is what the scraper's `get_index_reqs` returns. */
    method GetIndexReqs(sc: Scraper, now: int, generated: set<Request>) returns (reqs: set<Request>)
      modifies this`requestFiles
      ensures requestFiles == old(requestFiles)[sc.source := RequestsFileAfter(Lookup(old(requestFiles), sc.source), sc, now, generated)]
      ensures reqs == requestFiles[sc.source].reqs
      ensures MustRegenerate(SavedTime(Lookup(old(requestFiles), sc.source)), sc.indicesRefresh, now) ==> reqs == generated
      ensures !MustRegenerate(SavedTime(Lookup(old(requestFiles), sc.source)), sc.indicesRefresh, now) ==>
                requestFiles == old(requestFiles) && reqs == old(requestFiles)[sc.source].reqs
    {
      var s := sc.source;
      if s !in requestFiles || sc.indicesRefresh.Always? ||
         (!sc.indicesRefresh.Never? && now - requestFiles[s].savedAt > sc.indicesRefresh.seconds)
      {
        reqs := generated;
        requestFiles := requestFiles[s := SavedRequests(reqs, now)];
      } else {
        reqs := requestFiles[s].reqs;
      }
    }

    /** `_get_unindexed_index_reqs` (creator.py:137-171): prune the source's
        index and return the wanted requests it does not answer. The file is
        written only when the filter dropped a record. */
    method GetUnindexedIndexReqs(sc: Scraper, wanted: set<Request>, now: int) returns (todo: set<Request>)
      modifies this`indexFiles
      ensures indexFiles == Put(old(indexFiles), sc.source, PrunedFile(Lookup(old(indexFiles), sc.source), sc, wanted, now))
      ensures todo == ToIndex(Lookup(old(indexFiles), sc.source), sc, wanted, now)
      ensures todo <= wanted
      ensures todo !! Requests(Lookup(indexFiles, sc.source).GetOr([]))
      ensures sc.source in old(indexFiles) && !sc.indexRefresh.Always? ==>
                (indexFiles == old(indexFiles)
                 <==> |Filter(old(indexFiles)[sc.source], wanted, sc.indexRefresh, now)| == |old(indexFiles)[sc.source]|)
    {
      var s := sc.source;
      if s !in indexFiles {
        assert Put(indexFiles, s, None) == indexFiles;
        return wanted;
      }
      if sc.indexRefresh.Always? {
        indexFiles := indexFiles - {s};
        return wanted;
      }
      var index := indexFiles[s];
      var indexLen := |index|;
      index := Filter(index, wanted, sc.indexRefresh, now);
      FilterKeepsAllIff(indexFiles[s], wanted, sc.indexRefresh, now);
      if |index| != indexLen {
        indexFiles := indexFiles[s := index];
      } else {
        assert indexFiles == indexFiles[s := index];
      }
      todo := wanted - Requests(index);
    }

    /** The discovery phase and the unindexed-request computation of `create`
        (creator.py:195-198), one scraper after another. */
    method PrepareIndices(now: int, generated: map<Source, set<Request>>)
      returns (reqs: seq<set<Request>>, todo: seq<set<Request>>)
      requires DistinctSources(scrapers)
      requires forall sc :: sc in scrapers ==> sc.source in generated
      modifies this`requestFiles, this`indexFiles
      ensures |reqs| == |todo| == |scrapers|
      ensures forall i :: 0 <= i < |scrapers| ==>
                var s := scrapers[i].source;
                && Lookup(requestFiles, s) == Some(RequestsFileAfter(Lookup(old(requestFiles), s), scrapers[i], now, generated[s]))
                && reqs[i] == requestFiles[s].reqs
                && Lookup(indexFiles, s) == PrunedFile(Lookup(old(indexFiles), s), scrapers[i], reqs[i], now)
                && todo[i] == ToIndex(Lookup(old(indexFiles), s), scrapers[i], reqs[i], now)
      ensures forall s :: s !in SourcesOf(scrapers) ==>
                Lookup(requestFiles, s) == Lookup(old(requestFiles), s) && Lookup(indexFiles, s) == Lookup(old(indexFiles), s)
    {
      reqs, todo := [], [];
      for i := 0 to |scrapers|
        invariant |reqs| == |todo| == i
        invariant forall j :: 0 <= j < i ==>
                    var s := scrapers[j].source;
                    && Lookup(requestFiles, s) == Some(RequestsFileAfter(Lookup(old(requestFiles), s), scrapers[j], now, generated[s]))
                    && reqs[j] == requestFiles[s].reqs
                    && Lookup(indexFiles, s) == PrunedFile(Lookup(old(indexFiles), s), scrapers[j], reqs[j], now)
                    && todo[j] == ToIndex(Lookup(old(indexFiles), s), scrapers[j], reqs[j], now)
        invariant forall s :: s !in SourcesOf(scrapers[..i]) ==>
                    Lookup(requestFiles, s) == Lookup(old(requestFiles), s) && Lookup(indexFiles, s) == Lookup(old(indexFiles), s)
      {
        var sc := scrapers[i];
        assert sc.source !in SourcesOf(scrapers[..i]);
        assert SourcesOf(scrapers[..i + 1]) == SourcesOf(scrapers[..i]) + {sc.source};
        var r, t := PrepareSource(sc, now, generated[sc.source]);
        reqs, todo := reqs + [r], todo + [t];
      }
      assert scrapers[..|scrapers|] == scrapers;
    }

    /** One scraper of the discovery phase (creator.py:195-198): its
        discovery requests, then the ones of them its index does not answer. */
    method PrepareSource(sc: Scraper, now: int, generated: set<Request>) returns (reqs: set<Request>, todo: set<Request>)
      modifies this`requestFiles, this`indexFiles
      ensures var after := RequestsFileAfter(Lookup(old(requestFiles), sc.source), sc, now, generated);
              && requestFiles == old(requestFiles)[sc.source := after]
              && reqs == after.reqs
      ensures indexFiles == Put(old(indexFiles), sc.source, PrunedFile(Lookup(old(indexFiles), sc.source), sc, reqs, now))
      ensures todo == ToIndex(Lookup(old(indexFiles), sc.source), sc, reqs, now)
    {
      reqs := GetIndexReqs(sc, now, generated);
      todo := GetUnindexedIndexReqs(sc, reqs, now);
    }

    /** The indexing phase (creator.py:207-223): the index file of every
        source with requests to index is opened for appending, and each
        completed result is appended to it. `indexed` holds, per source, the
        results that completed, in completion order. */
    method AppendIndices(todo: seq<set<Request>>, indexed: map<Source, seq<IndexRecord>>)
      requires DistinctSources(scrapers) && |todo| == |scrapers|
      modifies this`indexFiles
      ensures forall i :: 0 <= i < |scrapers| ==>
                Lookup(indexFiles, scrapers[i].source)
                == IndexedFile(Lookup(old(indexFiles), scrapers[i].source), todo[i], Lookup(indexed, scrapers[i].source).GetOr([]))
      ensures forall s :: s !in SourcesOf(scrapers) ==> Lookup(indexFiles, s) == Lookup(old(indexFiles), s)
    {
      for i := 0 to |scrapers|
        invariant forall j :: 0 <= j < i ==>
                    Lookup(indexFiles, scrapers[j].source)
                    == IndexedFile(Lookup(old(indexFiles), scrapers[j].source), todo[j], Lookup(indexed, scrapers[j].source).GetOr([]))
        invariant forall s :: s !in SourcesOf(scrapers[..i]) ==> Lookup(indexFiles, s) == Lookup(old(indexFiles), s)
      {
        var s := scrapers[i].source;
        assert s !in SourcesOf(scrapers[..i]);
        assert SourcesOf(scrapers[..i + 1]) == SourcesOf(scrapers[..i]) + {s};
        if todo[i] != {} {
          AppendResults(s, Lookup(indexed, s).GetOr([]));
        }
      }
      assert scrapers[..|scrapers|] == scrapers;
    }

    /** One source of the indexing phase (creator.py:215-222): its index file
        is opened for appending, and so created when absent, and the results
        are appended one by one in order. */
    method AppendResults(s: Source, results: seq<IndexRecord>)
      modifies this`indexFiles
      ensures indexFiles == old(indexFiles)[s := Lookup(old(indexFiles), s).GetOr([]) + results]
    {
      var file := if s in indexFiles then indexFiles[s] else [];
      indexFiles := indexFiles[s := file];
      ghost var openedFiles := indexFiles;
      assert file + results[..0] == file;
      for k := 0 to |results|
        invariant indexFiles == openedFiles[s := file + results[..k]]
      {
        assert file + results[..k + 1] == (file + results[..k]) + [results[k]];
        indexFiles := indexFiles[s := indexFiles[s] + [results[k]]];
      }
      assert results[..|results|] == results;
    }

    /** Reconciliation (creator.py:242-255): the corpus is streamed into a
        temporary file which then replaces it. Returns the set of version ids
        kept. */
    method ReconcileCorpus(entries: map<string, Scraped>) returns (keptIds: set<string>)
      modifies this`corpus
      ensures corpus == Reconciled(old(corpus), entries.Keys, SourcesOf(scrapers))
      ensures keptIds == IdSet(corpus)
      ensures IsSubseq(corpus, old(corpus)) && DistinctIds(corpus)
    {
      var tmp, ids := StreamCorpus(corpus, entries.Keys, SourcesOf(scrapers));
      ReconciledIsSubseq(corpus, entries.Keys, SourcesOf(scrapers));
      ReconciledDistinct(corpus, entries.Keys, SourcesOf(scrapers));
      keptIds := set v | v in ids;
      corpus := tmp;
    }

    /** The append of fetched documents (creator.py:261-277): nothing when no
        entry is missing, otherwise every document a fetch returned, in
        completion order, after the reconciled corpus. `fetched` holds the
        results of the fetches that completed, `None` for a fetch that
        returned nothing. */
    method AppendMissing(missing: map<string, Scraped>, fetched: seq<Option<Doc>>)
      modifies this`corpus
      ensures corpus == old(corpus) + (if missing == map[] then [] else Present(fetched))
    {
      if |missing| == 0 {
        return;
      }
      for i := 0 to |fetched|
        invariant corpus == old(corpus) + Present(fetched[..i])
      {
        assert fetched[..i + 1][..i] == fetched[..i];
        if fetched[i].Some? {
          corpus := corpus + [fetched[i].value];
        }
      }
      assert fetched[..|fetched|] == fetched;
    }

    /** `create` (creator.py:183-279), with the network replaced by what it
        returned: `generated` per source for discovery, `indexed` per source
        for indexing, `fetched` for the documents. The ghost results name the
        intermediate values the run computes. */
    method Create(now: int, generated: map<Source, set<Request>>, indexed: map<Source, seq<IndexRecord>>,
                  fetched: seq<Option<Doc>>)
      returns (ghost reqs: seq<set<Request>>, ghost todo: seq<set<Request>>, ghost entries: map<string, Scraped>,
               ghost kept: seq<Doc>)
      requires DistinctSources(scrapers)
      requires forall sc :: sc in scrapers ==> sc.source in generated
      modifies this`requestFiles, this`indexFiles, this`corpus
      ensures |reqs| == |todo| == |scrapers|
      ensures forall i :: 0 <= i < |scrapers| ==>
                var s := scrapers[i].source;
                && Lookup(requestFiles, s) == Some(RequestsFileAfter(Lookup(old(requestFiles), s), scrapers[i], now, generated[s]))
                && reqs[i] == requestFiles[s].reqs
                && todo[i] == ToIndex(Lookup(old(indexFiles), s), scrapers[i], reqs[i], now)
                && Lookup(indexFiles, s)
                   == IndexedFile(PrunedFile(Lookup(old(indexFiles), s), scrapers[i], reqs[i], now), todo[i], Lookup(indexed, s).GetOr([]))
      ensures forall s :: s !in SourcesOf(scrapers) ==>
                Lookup(requestFiles, s) == Lookup(old(requestFiles), s) && Lookup(indexFiles, s) == Lookup(old(indexFiles), s)
      ensures entries == EntryMapOf(LoadIndices(indexFiles, scrapers))
      ensures kept == Reconciled(old(corpus), entries.Keys, SourcesOf(scrapers))
      ensures corpus == kept + (if Missing(entries, IdSet(kept)) == map[] then [] else Present(fetched))
      ensures IsSubseq(kept, old(corpus)) && DistinctIds(kept)
    {
      reqs, todo := IndexSources(now, generated, indexed);
      var entryMap := EntryMapOf(LoadIndices(indexFiles, scrapers));
      var reconciled := ReconcileAndAppend(entryMap, fetched);
      entries, kept := entryMap, reconciled;
    }

    /** The discovery and indexing phases of `create` (creator.py:195-223),
        source by source: each scraper's index file is pruned, then the
        results of indexing what is left are appended to it. */
    method IndexSources(now: int, generated: map<Source, set<Request>>, indexed: map<Source, seq<IndexRecord>>)
      returns (reqs: seq<set<Request>>, todo: seq<set<Request>>)
      requires DistinctSources(scrapers)
      requires forall sc :: sc in scrapers ==> sc.source in generated
      modifies this`requestFiles, this`indexFiles
      ensures |reqs| == |todo| == |scrapers|
      ensures forall i :: 0 <= i < |scrapers| ==>
                var s := scrapers[i].source;
                && Lookup(requestFiles, s) == Some(RequestsFileAfter(Lookup(old(requestFiles), s), scrapers[i], now, generated[s]))
                && reqs[i] == requestFiles[s].reqs
                && todo[i] == ToIndex(Lookup(old(indexFiles), s), scrapers[i], reqs[i], now)
                && Lookup(indexFiles, s)
                   == IndexedFile(PrunedFile(Lookup(old(indexFiles), s), scrapers[i], reqs[i], now), todo[i], Lookup(indexed, s).GetOr([]))
      ensures forall s :: s !in SourcesOf(scrapers) ==>
                Lookup(requestFiles, s) == Lookup(old(requestFiles), s) && Lookup(indexFiles, s) == Lookup(old(indexFiles), s)
    {
      reqs, todo := PrepareIndices(now, generated);
      AppendIndices(todo, indexed);
    }

    /** The corpus phases of `create` (creator.py:242-277), given the entry
        map of the loaded indices: the reconciled corpus, then the documents
        fetched for the missing entries appended to it. */
    method ReconcileAndAppend(entries: map<string, Scraped>, fetched: seq<Option<Doc>>) returns (kept: seq<Doc>)
      modifies this`corpus
      ensures kept == Reconciled(old(corpus), entries.Keys, SourcesOf(scrapers))
      ensures corpus == kept + (if Missing(entries, IdSet(kept)) == map[] then [] else Present(fetched))
      ensures IsSubseq(kept, old(corpus)) && DistinctIds(kept)
    {
      var keptIds := ReconcileCorpus(entries);
      kept := corpus;
      AppendMissing(Missing(entries, keptIds), fetched);
    }
  }
}
