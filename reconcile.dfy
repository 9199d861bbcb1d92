/**
 * Corpus reconciliation (creator.py:242-258) and the documents appended
 * afterwards (creator.py:261-277).
 */
module Reconcile {
  import opened Records
  import opened Sequences
  import opened Wrappers

  /** The version ids of a sequence of documents, in order. */
  function Ids(docs: seq<Doc>): seq<string>
  {
    seq(|docs|, i requires 0 <= i < |docs| => docs[i].versionId)
  }

  /** The set of version ids of a sequence of documents. */
  function IdSet(docs: seq<Doc>): set<string>
  {
    set v | v in Ids(docs)
  }

  /** The second half of the test on creator.py:246: the document is still
      indexed, or it belongs to a source that is not being scraped. */
  predicate Eligible(d: Doc, entryIds: set<string>, scraped: set<Source>)
  {
    d.versionId in entryIds || d.source !in scraped
  }

  /** The corpus after one pass of creator.py:245-250: a document is kept when
      no document with its version id was kept before it and it is eligible. */
  function Reconciled(corpus: seq<Doc>, entryIds: set<string>, scraped: set<Source>): (kept: seq<Doc>)
    ensures |kept| <= |corpus|
    decreases |corpus|
  {
    if corpus == [] then []
    else
      var kept := Reconciled(corpus[..|corpus| - 1], entryIds, scraped);
      var d := corpus[|corpus| - 1];
      if d.versionId !in Ids(kept) && Eligible(d, entryIds, scraped) then kept + [d] else kept
  }

  /** The pass itself: the corpus is streamed into the temporary file, and the
      version ids written are collected in a list (creator.py:242-250). */
  method StreamCorpus(corpus: seq<Doc>, entryIds: set<string>, scraped: set<Source>)
    returns (tmp: seq<Doc>, keptIds: seq<string>)
    ensures tmp == Reconciled(corpus, entryIds, scraped)
    ensures keptIds == Ids(tmp)
  {
    tmp, keptIds := [], [];
    for i := 0 to |corpus|
      invariant tmp == Reconciled(corpus[..i], entryIds, scraped)
      invariant keptIds == Ids(tmp)
    {
      var doc := corpus[i];
      assert corpus[..i + 1][..i] == corpus[..i];
      if doc.versionId !in keptIds && (doc.versionId in entryIds || doc.source !in scraped) {
        tmp := tmp + [doc];
        keptIds := keptIds + [doc.versionId];
      }
    }
    assert corpus[..|corpus|] == corpus;
  }

  /** The reconciled corpus is an order-preserving sub-sequence of the corpus. */
  lemma {:induction false} ReconciledIsSubseq(corpus: seq<Doc>, entryIds: set<string>, scraped: set<Source>)
    ensures IsSubseq(Reconciled(corpus, entryIds, scraped), corpus)
    decreases |corpus|
  {
    if corpus != [] {
      ReconciledIsSubseq(corpus[..|corpus| - 1], entryIds, scraped);
    }
  }

  /** Every kept document comes from the corpus and is eligible. */
  lemma {:induction false} ReconciledSound(corpus: seq<Doc>, entryIds: set<string>, scraped: set<Source>)
    ensures forall d :: d in Reconciled(corpus, entryIds, scraped) ==> d in corpus && Eligible(d, entryIds, scraped)
    decreases |corpus|
  {
    if corpus != [] {
      var init := corpus[..|corpus| - 1];
      ReconciledSound(init, entryIds, scraped);
      assert corpus == init + [corpus[|corpus| - 1]];
    }
  }

  /** No two documents share a version id. */
  predicate DistinctIds(docs: seq<Doc>)
  {
    forall i, j :: 0 <= i < j < |docs| ==> docs[i].versionId != docs[j].versionId
  }

  /** No two kept documents share a version id. */
  lemma {:induction false} ReconciledDistinct(corpus: seq<Doc>, entryIds: set<string>, scraped: set<Source>)
    ensures DistinctIds(Reconciled(corpus, entryIds, scraped))
    decreases |corpus|
  {
    if corpus != [] {
      var init := corpus[..|corpus| - 1];
      ReconciledDistinct(init, entryIds, scraped);
      var kept := Reconciled(init, entryIds, scraped);
      var d := corpus[|corpus| - 1];
      if d.versionId !in Ids(kept) && Eligible(d, entryIds, scraped) {
        var r := kept + [d];
        forall i, j | 0 <= i < j < |r| ensures r[i].versionId != r[j].versionId {
          assert r[i] == kept[i];
          if j < |kept| {
            assert r[j] == kept[j];
          } else {
            assert r[j] == d && Ids(kept)[i] == kept[i].versionId;
          }
        }
      }
    }
  }

  /** A version id survives exactly when some document carrying it is eligible:
      the retention invariant, seen from the ids. */
  lemma {:induction false} ReconciledIds(corpus: seq<Doc>, entryIds: set<string>, scraped: set<Source>, v: string)
    ensures v in Ids(Reconciled(corpus, entryIds, scraped))
            <==> exists d :: d in corpus && d.versionId == v && Eligible(d, entryIds, scraped)
    decreases |corpus|
  {
    var r := Reconciled(corpus, entryIds, scraped);
    if corpus != [] {
      var init := corpus[..|corpus| - 1];
      var d := corpus[|corpus| - 1];
      assert corpus == init + [d];
      ReconciledIds(init, entryIds, scraped, v);
      var kept := Reconciled(init, entryIds, scraped);
      assert Ids(kept + [d]) == Ids(kept) + [d.versionId];
      if v in Ids(r) {
        ReconciledSound(corpus, entryIds, scraped);
        var i :| 0 <= i < |r| && Ids(r)[i] == v;
        assert r[i] in corpus;
      }
    }
  }

  /** The first eligible document of each version id is kept; in particular the
      first document of a version id whose source is not being scraped. */
  lemma {:induction false} ReconciledKeepsFirstEligible(corpus: seq<Doc>, entryIds: set<string>, scraped: set<Source>, i: nat)
    requires i < |corpus| && Eligible(corpus[i], entryIds, scraped)
    requires forall j :: 0 <= j < i && corpus[j].versionId == corpus[i].versionId ==> !Eligible(corpus[j], entryIds, scraped)
    ensures corpus[i] in Reconciled(corpus, entryIds, scraped)
    decreases |corpus|
  {
    var init := corpus[..|corpus| - 1];
    var kept := Reconciled(init, entryIds, scraped);
    if i < |init| {
      ReconciledKeepsFirstEligible(init, entryIds, scraped, i);
    } else {
      ReconciledSound(init, entryIds, scraped);
      forall k | 0 <= k < |kept| ensures Ids(kept)[k] != corpus[i].versionId {
        assert kept[k] in init;
        var j :| 0 <= j < |init| && init[j] == kept[k];
        assert corpus[j] == init[j];
      }
    }
  }

  /** Foreign documents survive: the first document of a version id, from a
      source that is not being scraped, is kept whatever the entries are. */
  lemma ForeignFirstKept(corpus: seq<Doc>, entryIds: set<string>, scraped: set<Source>, i: nat)
    requires i < |corpus| && corpus[i].source !in scraped
    requires forall j :: 0 <= j < i ==> corpus[j].versionId != corpus[i].versionId
    ensures corpus[i] in Reconciled(corpus, entryIds, scraped)
  {
    ReconciledKeepsFirstEligible(corpus, entryIds, scraped, i);
  }

  /** A corpus whose documents are all eligible and whose ids are distinct
      passes through unchanged. */
  lemma {:induction false} ReconciledKeepsClean(corpus: seq<Doc>, entryIds: set<string>, scraped: set<Source>)
    requires DistinctIds(corpus)
    requires forall i :: 0 <= i < |corpus| ==> Eligible(corpus[i], entryIds, scraped)
    ensures Reconciled(corpus, entryIds, scraped) == corpus
    decreases |corpus|
  {
    if corpus != [] {
      var init := corpus[..|corpus| - 1];
      var d := corpus[|corpus| - 1];
      ReconciledKeepsClean(init, entryIds, scraped);
      forall k | 0 <= k < |init| ensures Ids(init)[k] != d.versionId {
        assert init[k] == corpus[k];
      }
      assert corpus == init + [d];
    }
  }

  /** Reconciling a reconciled corpus again changes nothing: a second pass
      over the same entries is a no-op. */
  lemma ReconciledIdempotent(corpus: seq<Doc>, entryIds: set<string>, scraped: set<Source>)
    ensures Reconciled(Reconciled(corpus, entryIds, scraped), entryIds, scraped) == Reconciled(corpus, entryIds, scraped)
  {
    var kept := Reconciled(corpus, entryIds, scraped);
    ReconciledDistinct(corpus, entryIds, scraped);
    ReconciledSound(corpus, entryIds, scraped);
    forall i | 0 <= i < |kept| ensures Eligible(kept[i], entryIds, scraped) {
      assert kept[i] in kept;
    }
    ReconciledKeepsClean(kept, entryIds, scraped);
  }

  /** The entries still to fetch: those whose version id was not kept
      (creator.py:258). Their order is shuffled before fetching, so the model
      keeps them as a map. */
  function Missing<E>(entries: map<string, E>, keptIds: set<string>): (missing: map<string, E>)
    ensures missing.Keys !! keptIds
    ensures missing.Keys + (entries.Keys * keptIds) == entries.Keys
    ensures forall v :: v in missing ==> missing[v] == entries[v]
  {
    map v | v in entries && v !in keptIds :: entries[v]
  }

  /** Reconciliation followed by the missing-entry computation fetches exactly
      the indexed versions that are nowhere in the old corpus. */
  lemma MissingIffAbsent<E>(corpus: seq<Doc>, entries: map<string, E>, scraped: set<Source>, v: string)
    ensures var kept := Reconciled(corpus, entries.Keys, scraped);
            v in Missing(entries, IdSet(kept))
            <==> v in entries && forall d :: d in corpus ==> d.versionId != v
  {
    ReconciledIds(corpus, entries.Keys, scraped, v);
  }

  /** The documents that came back from fetching, in completion order; a
      fetch that returned nothing contributes nothing (creator.py:275). */
  function Present(fetched: seq<Option<Doc>>): (docs: seq<Doc>)
    ensures |docs| <= |fetched|
    decreases |fetched|
  {
    if fetched == [] then []
    else
      var rest := Present(fetched[..|fetched| - 1]);
      match fetched[|fetched| - 1]
      case Some(d) => rest + [d]
      case None => rest
  }

  /** Exactly the documents that were returned are appended. */
  lemma {:induction false} PresentExactly(fetched: seq<Option<Doc>>, d: Doc)
    ensures d in Present(fetched) <==> Some(d) in fetched
    decreases |fetched|
  {
    if fetched != [] {
      var init := fetched[..|fetched| - 1];
      PresentExactly(init, d);
      assert fetched == init + [fetched[|fetched| - 1]];
    }
  }
}
