/**
 * The pure part of `Creator._get_unindexed_index_reqs` (creator.py:137-171):
 * which records of a source's document index survive, and which requests are
 * still to be indexed.
 */
module EntryIndex {
  import opened Records
  import opened Refresh
  import opened Sequences

  /** The filter of creator.py:160-164: the record's request is still wanted
      and the record is fresh under the source's index refresh interval. */
  predicate Retained(rec: IndexRecord, wanted: set<Request>, interval: Interval, now: int)
  {
    rec.req in wanted && IsFresh(interval, rec.retrievedAt, now)
  }

  /** The index after filtering (creator.py:159-164): the retained records, in
      their original order. */
  function Filter(index: seq<IndexRecord>, wanted: set<Request>, interval: Interval, now: int)
    : (kept: seq<IndexRecord>)
    ensures IsSubseq(kept, index) && |kept| <= |index|
    ensures forall rec :: rec in kept <==> rec in index && Retained(rec, wanted, interval, now)
    decreases |index|
  {
    if index == [] then []
    else
      var rest := Filter(index[..|index| - 1], wanted, interval, now);
      var last := index[|index| - 1];
      assert index == index[..|index| - 1] + [last];
      if Retained(last, wanted, interval, now) then rest + [last] else rest
  }

  /** Filtering twice with the same requests and time changes nothing more. */
  lemma FilterIdempotent(index: seq<IndexRecord>, wanted: set<Request>, interval: Interval, now: int)
    ensures Filter(Filter(index, wanted, interval, now), wanted, interval, now) == Filter(index, wanted, interval, now)
  {
    var kept := Filter(index, wanted, interval, now);
    assert forall i :: 0 <= i < |kept| ==> kept[i] in kept;
    FilterKeepsAll(kept, wanted, interval, now);
  }

  /** The requests that the records of an index answer. */
  function Requests(index: seq<IndexRecord>): set<Request>
  {
    set rec | rec in index :: rec.req
  }

  /** A filter that retains every record returns the index unchanged. */
  lemma {:induction false} FilterKeepsAll(index: seq<IndexRecord>, wanted: set<Request>, interval: Interval, now: int)
    requires forall i :: 0 <= i < |index| ==> Retained(index[i], wanted, interval, now)
    ensures Filter(index, wanted, interval, now) == index
    decreases |index|
  {
    if index != [] {
      var init := index[..|index| - 1];
      assert forall i :: 0 <= i < |init| ==> init[i] == index[i];
      FilterKeepsAll(init, wanted, interval, now);
      assert index == init + [index[|index| - 1]];
    }
  }

  /** The filter drops nothing exactly when every record is retained, and then
      the index is unchanged; this is why the file is rewritten only when the
      length changed (creator.py:156, 167-168). */
  lemma FilterKeepsAllIff(index: seq<IndexRecord>, wanted: set<Request>, interval: Interval, now: int)
    ensures |Filter(index, wanted, interval, now)| == |index|
            <==> forall i :: 0 <= i < |index| ==> Retained(index[i], wanted, interval, now)
    ensures |Filter(index, wanted, interval, now)| == |index| ==> Filter(index, wanted, interval, now) == index
  {
    var kept := Filter(index, wanted, interval, now);
    if |kept| == |index| {
      SubseqSameLength(kept, index);
      assert forall i :: 0 <= i < |index| ==> index[i] in kept;
    }
    if forall i :: 0 <= i < |index| ==> Retained(index[i], wanted, interval, now) {
      FilterKeepsAll(index, wanted, interval, now);
    }
  }

  /** The requests left to index (creator.py:171). */
  function Unindexed(wanted: set<Request>, index: seq<IndexRecord>, interval: Interval, now: int)
    : (todo: set<Request>)
    ensures todo <= wanted
    ensures todo !! Requests(Filter(index, wanted, interval, now))
  {
    wanted - Requests(Filter(index, wanted, interval, now))
  }

  /** A wanted request is indexed again exactly when no record of it is fresh:
      requests dropped from the index, aged out of it or never indexed. */
  lemma UnindexedIff(wanted: set<Request>, index: seq<IndexRecord>, interval: Interval, now: int, r: Request)
    ensures r in Unindexed(wanted, index, interval, now)
            <==> r in wanted && forall rec :: rec in index && rec.req == r ==> !IsFresh(interval, rec.retrievedAt, now)
  {
    var kept := Filter(index, wanted, interval, now);
    if r in wanted && r !in Unindexed(wanted, index, interval, now) {
      var rec :| rec in kept && rec.req == r;
      assert rec in index && IsFresh(interval, rec.retrievedAt, now);
    }
  }

  /** Staleness: under a duration `d`, a wanted request all of whose records
      are older than `d` is indexed again. */
  lemma StaleRequestReindexed(wanted: set<Request>, index: seq<IndexRecord>, d: int, now: int, r: Request)
    requires r in wanted
    requires forall rec :: rec in index && rec.req == r ==> now - rec.retrievedAt > d
    ensures r in Unindexed(wanted, index, Within(d), now)
  {
    UnindexedIff(wanted, index, Within(d), now, r);
  }

  /** Under `False`, membership in the wanted set is the only criterion. */
  lemma NeverKeepsWanted(wanted: set<Request>, index: seq<IndexRecord>, now: int)
    ensures Unindexed(wanted, index, Never, now) == wanted - Requests(index)
  {
    var kept := Filter(index, wanted, Never, now);
    forall r | r in wanted
      ensures r in Requests(kept) <==> r in Requests(index)
    {
      if r in Requests(index) {
        var rec :| rec in index && rec.req == r;
        assert rec in kept;
      }
    }
  }
}
