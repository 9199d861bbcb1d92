/**
 * The dictionary comprehension of creator.py:230-239: every entry of every
 * record of every scraper's index, keyed by version id. A later entry with
 * the same version id overwrites an earlier one.
 */
module EntryMap {
  import opened Records

  /** The entries of one index, record by record, tagged with its scraper. */
  function RecordEntries(source: Source, records: seq<IndexRecord>): (flat: seq<Scraped>)
    ensures forall x :: x in flat ==> x.source == source
    decreases |records|
  {
    if records == [] then []
    else seq(|records[0].entries|, i requires 0 <= i < |records[0].entries| => Scraped(source, records[0].entries[i]))
         + RecordEntries(source, records[1..])
  }

  /** All entries of all indices, in iteration order. */
  function Flatten(indices: seq<SourceIndex>): seq<Scraped>
    decreases |indices|
  {
    if indices == [] then [] else RecordEntries(indices[0].source, indices[0].records) + Flatten(indices[1..])
  }

  /** An entry appears in some record of the index. */
  predicate InRecords(e: Entry, records: seq<IndexRecord>)
  {
    exists rec :: rec in records && e in rec.entries
  }

  /** An entry of source `s` appears in some index of `s`. */
  predicate InIndices(s: Source, e: Entry, indices: seq<SourceIndex>)
  {
    exists k :: 0 <= k < |indices| && indices[k].source == s && InRecords(e, indices[k].records)
  }

  lemma {:induction false} RecordEntriesMembers(source: Source, records: seq<IndexRecord>, e: Entry)
    ensures Scraped(source, e) in RecordEntries(source, records) <==> InRecords(e, records)
    decreases |records|
  {
    if records != [] {
      RecordEntriesMembers(source, records[1..], e);
      var head := records[0].entries;
      var tagged := seq(|head|, i requires 0 <= i < |head| => Scraped(source, head[i]));
      if e in head {
        var i :| 0 <= i < |head| && head[i] == e;
        assert tagged[i] == Scraped(source, e);
      }
      if InRecords(e, records) && e !in head {
        var rec :| rec in records && e in rec.entries;
        assert rec in records[1..];
      }
    }
  }

  /** The flattened sequence holds exactly the entries of the indices, each
      tagged with the scraper whose index holds it. */
  lemma {:induction false} FlattenMembers(indices: seq<SourceIndex>, x: Scraped)
    ensures x in Flatten(indices) <==> InIndices(x.source, x.entry, indices)
    decreases |indices|
  {
    if indices != [] {
      FlattenMembers(indices[1..], x);
      RecordEntriesMembers(indices[0].source, indices[0].records, x.entry);
      var head := RecordEntries(indices[0].source, indices[0].records);
      if x in head {
        assert x.source == indices[0].source;
      }
      if InIndices(x.source, x.entry, indices[1..]) {
        var k :| 0 <= k < |indices[1..]| && indices[1..][k].source == x.source
                 && InRecords(x.entry, indices[1..][k].records);
        assert indices[k + 1] == indices[1..][k];
      }
      if InIndices(x.source, x.entry, indices) && x !in head {
        var k :| 0 <= k < |indices| && indices[k].source == x.source && InRecords(x.entry, indices[k].records);
        assert k != 0;
        assert indices[1..][k - 1] == indices[k];
      }
    }
  }

  /** The version ids of a sequence of entries. */
  function VersionIds(s: seq<Scraped>): set<string>
  {
    set x | x in s :: x.entry.versionId
  }

  /** The deduplicated map: the last entry with each version id wins. */
  function Dedup(s: seq<Scraped>): (m: map<string, Scraped>)
    ensures m.Keys == VersionIds(s)
    ensures forall v :: v in m ==> m[v] in s && m[v].entry.versionId == v
    decreases |s|
  {
    if s == [] then map[]
    else
      var last := s[|s| - 1];
      assert s == s[..|s| - 1] + [last];
      Dedup(s[..|s| - 1])[last.entry.versionId := last]
  }

  /** Last occurrence wins: an entry followed by no entry with the same version
      id is the one the map keeps. */
  lemma {:induction false} DedupLastWins(s: seq<Scraped>, i: nat)
    requires i < |s|
    requires forall j :: i < j < |s| ==> s[j].entry.versionId != s[i].entry.versionId
    ensures Dedup(s)[s[i].entry.versionId] == s[i]
    decreases |s|
  {
    if i < |s| - 1 {
      var init := s[..|s| - 1];
      assert forall j :: i < j < |init| ==> init[j] == s[j];
      DedupLastWins(init, i);
    }
  }

  /** The entry map of the indices (creator.py:230-239). */
  function EntryMapOf(indices: seq<SourceIndex>): map<string, Scraped>
  {
    Dedup(Flatten(indices))
  }

  /** The map has one key per version id found in any index, and maps it to an
      entry with that id, together with the scraper whose index holds it. */
  lemma EntryMapExact(indices: seq<SourceIndex>, v: string)
    ensures v in EntryMapOf(indices) <==> exists src: Source, e: Entry :: InIndices(src, e, indices) && e.versionId == v
    ensures v in EntryMapOf(indices) ==>
              var x := EntryMapOf(indices)[v];
              x.entry.versionId == v && InIndices(x.source, x.entry, indices)
  {
    var flat := Flatten(indices);
    if v in EntryMapOf(indices) {
      FlattenMembers(indices, EntryMapOf(indices)[v]);
    }
    if exists src: Source, e: Entry :: InIndices(src, e, indices) && e.versionId == v {
      var src: Source, e: Entry :| InIndices(src, e, indices) && e.versionId == v;
      FlattenMembers(indices, Scraped(src, e));
    }
  }
}
