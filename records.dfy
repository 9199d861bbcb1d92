/**
 * The records the creator passes around. `Request` and `Entry` are attrs
 * classes of the program's data module, which is not part of this model: here
 * they carry only what the creator looks at, plus an opaque remainder that
 * takes part in equality.
 */
module Records {
  /** The name of a source, such as `nsw_legislation`. */
  type Source = string

  /** A request for a document index: compared by value, used as a set element. */
  datatype Request = Request(source: Source, params: string)

  /** One document version found by a request; `versionId` is the corpus key. */
  datatype Entry = Entry(versionId: string, request: Request, meta: string)

  /** One line of `index/<source>.jsonl`: a request, the entries it found and
      when it was retrieved (seconds since the epoch). */
  datatype IndexRecord = IndexRecord(req: Request, entries: seq<Entry>, retrievedAt: int)

  /** One line of the corpus: a document with its version id and source; the
      other fields (text, type, jurisdiction, citation, url) are `content`. */
  datatype Doc = Doc(versionId: string, source: Source, content: string)

  /** An entry together with the name of the scraper whose index holds it. */
  datatype Scraped = Scraped(source: Source, entry: Entry)

  /** The loaded index file of one scraper. */
  datatype SourceIndex = SourceIndex(source: Source, records: seq<IndexRecord>)
}
