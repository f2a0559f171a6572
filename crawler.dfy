/** The crawler object (class Crawler, crawler.py lines 47-185) and the
    program's main flow (lines 188-209): crawl, merge the crawler's document
    records into the index's metadata, and save the index. The object's
    `crawl` is proved to compute exactly `Frontier.Run`. */
module Crawl {
  import opened Wrappers
  import opened Text
  import opened Decimal
  import opened Index
  import opened Extraction
  import opened Frontier
  import opened Merge

  /** The seed used when none is given on the command line. */
  const DefaultUrl: string := "https://spectrum.library.concordia.ca/"
  /** The document budget used when none is given. */
  const DefaultMaxDocs: int := 50
  /** Where the main flow stores downloaded PDFs. */
  const StorageDir: string := "./data"

  class Crawler {
    const url: Url
    const maxDocs: int
    const storageDir: string
    /** `urlparse(url).netloc` of the seed. */
    const urlDomain: string
    /** `urlparse(u).netloc`. */
    const host: Url -> string
    /** `self.rp.can_fetch('*', u)`; `None` when it raises. */
    const canFetch: Url -> Option<bool>

    var visited: set<Url>
    var toVisit: seq<Url>
    var docs: map<DocId, DocRecord>
    var docIdSeq: nat

    /** `__init__`: the seed is the only queued URL and nothing is recorded. */
    constructor (url: Url, maxDocs: int, storageDir: string, host: Url -> string, canFetch: Url -> Option<bool>)
      ensures this.url == url && this.maxDocs == maxDocs && this.storageDir == storageDir
      ensures this.host == host && this.canFetch == canFetch && urlDomain == host(url)
      ensures visited == {} && toVisit == [url] && docs == map[] && docIdSeq == 0
      ensures Valid()
    {
      this.url := url;
      this.maxDocs := maxDocs;
      this.storageDir := storageDir;
      this.host := host;
      this.canFetch := canFetch;
      urlDomain := host(url);
      visited := {};
      toVisit := [url];
      docs := map[];
      docIdSeq := 0;
    }

    /** The crawler's fixed settings. */
    function Cfg(): Config
    {
      Config(urlDomain, host, canFetch, storageDir, maxDocs)
    }

    /** The crawler's fields together with the index it feeds. */
    function State(ix: InvertedIndex): CrawlState
      reads this, ix
    {
      CrawlState(visited, toVisit, docs, docIdSeq, ix.Record())
    }

    /** The documents are numbered `"0"` .. `"doc_id_seq - 1"`. */
    predicate Valid()
      reads this
    {
      docs.Keys == IdsBelow(docIdSeq)
    }

    /** `save_bin`'s choice of file: `doc_<doc_id_seq><ext>` in the storage
        directory. */
    method SaveBin(ext: string) returns (path: string)
      ensures path == JoinPath(storageDir, SaveBinName(docIdSeq, ext))
    {
      path := JoinPath(storageDir, "doc_" + NatToString(docIdSeq) + ext);
    }

    /** The loop over the outlinks (lines 181-183): a link is queued when it
        is not visited and on the seed's host. */
    method EnqueueLinks(outlinks: seq<Url>)
      modifies this`toVisit
      ensures toVisit == old(toVisit) + NewLinks(Cfg(), visited, outlinks)
    {
      for i := 0 to |outlinks|
        invariant toVisit == old(toVisit) + NewLinks(Cfg(), visited, outlinks[..i])
      {
        assert outlinks[..i + 1][..i] == outlinks[..i];
        var link := outlinks[i];
        if link !in visited && host(link) == urlDomain {
          toVisit := toVisit + [link];
        }
      }
      assert outlinks[..|outlinks|] == outlinks;
    }

    /** Lines 146-183, for a URL that was fetched: classify, extract, record,
        index when there are tokens, queue the new links. */
    method Process(indexer: InvertedIndex, o: Oracles, url: Url, ctype: string, data: Bytes)
      modifies this`toVisit, this`docs, this`docIdSeq, indexer
      ensures State(indexer) ==
        Record(Cfg(), old(State(indexer)), url, Extract(Cfg(), o, url, old(docIdSeq), ctype, data))
    {
      var docType := if Contains(ctype, "html") then Html else if Contains(ctype, "pdf") then Pdf else Binary;
      var docPath: Option<string> := None;
      var tokens: seq<string> := [];
      var outlinks: seq<Url> := [];
      if docType == Html {
        var (text, links) := o.extractHtml(url, data);
        tokens := FindWords(Lower(text));
        outlinks := links;
      } else if docType == Pdf {
        var path := SaveBin(".pdf");
        docPath := Some(path);
        tokens := ReadPdfTokens(o.readPdf(data));
      }
      var docId := NatToString(docIdSeq);
      docIdSeq := docIdSeq + 1;
      var record := DocRecord(url, docType, None);
      if docPath.Some? && docPath.value != "" {
        record := record.(path := docPath);
      }
      docs := docs[docId := record];
      if tokens != [] {
        indexer.AddDocument(docId, tokens, None);
      }
      EnqueueLinks(outlinks);
    }

    /** One iteration of `crawl`'s loop (lines 127-183): pop the next URL
        and skip it when visited, off the seed's host, disallowed by
        robots.txt or failing to fetch; otherwise record it. */
    method VisitNext(indexer: InvertedIndex, o: Oracles)
      requires toVisit != []
      modifies this, indexer
      ensures State(indexer) == Step(Cfg(), o, old(State(indexer))).0
    {
      var url := toVisit[0];
      toVisit := toVisit[1..];
      if url in visited {
        return;
      }
      visited := visited + {url};
      if host(url) != urlDomain {
        return;
      }
      var robots := canFetch(url);
      if robots.Some? && !robots.value {
        return;
      }
      var fetched := o.fetch(url);
      if fetched.FetchRaised? {
        return;
      }
      Process(indexer, o, url, fetched.ctype, fetched.data);
    }

    /** `crawl`: runs the loop to the end and returns the document records.
        The fields and the index end up exactly as `Run` says. */
    method Crawl(indexer: InvertedIndex, o: Oracles) returns (result: map<DocId, DocRecord>)
      requires Valid()
      modifies this, indexer
      ensures Valid()
      ensures State(indexer) == Run(Cfg(), o, old(State(indexer))).final
      ensures result == docs
    {
      ghost var s0 := State(indexer);
      while toVisit != [] && |docs| < maxDocs
        invariant Valid()
        invariant Run(Cfg(), o, State(indexer)).final == Run(Cfg(), o, s0).final
        decreases maxDocs - |docs|, |toVisit|
      {
        ghost var before := State(indexer);
        StepProgress(Cfg(), o, before);
        RunContinues(Cfg(), o, before);
        VisitNext(indexer, o);
      }
      result := docs;
    }
  }

  /** A loop that goes on ends where the loop from the next state ends. */
  lemma RunContinues(cfg: Config, o: Oracles, s: CrawlState)
    requires WellNumbered(s) && Continues(cfg, s)
    ensures WellNumbered(Step(cfg, o, s).0)
    ensures Run(cfg, o, s).final == Run(cfg, o, Step(cfg, o, s).0).final
  {
    StepProgress(cfg, o, s);
  }

  // ---------------------------------------------------------------------------
  // Merging the crawler's records into the index (lines 203-207)

  /** The crawler's record of a document as a metadata dictionary:
      `{'url', 'type'}` plus `'path'` when there is one. */
  function MetaOf(r: DocRecord): (m: Meta)
    ensures m.Keys == {"url", "type"} + (if r.path.Some? then {"path"} else {})
    ensures m["url"] == r.url && m["type"] == TypeName(r.docType)
    ensures r.path.Some? ==> m["path"] == r.path.value
  {
    map["url" := r.url, "type" := TypeName(r.docType)]
      + (if r.path.Some? then map["path" := r.path.value] else map[])
  }

  /** The crawler's records as metadata dictionaries. */
  function MetasOf(crawled: map<DocId, DocRecord>): (m: Docs)
    ensures m.Keys == crawled.Keys
    ensures forall id :: id in crawled ==> m[id] == MetaOf(crawled[id])
  {
    map id | id in crawled :: MetaOf(crawled[id])
  }

  // ---------------------------------------------------------------------------
  // The main flow

  /** The crawl the main flow starts: the seed queued, nothing visited,
      nothing recorded, an empty index. */
  function Initial(seed: Url): CrawlState
  {
    CrawlState({}, [seed], map[], 0, IndexRecord(map[], map[]))
  }

  /** The settings the main flow uses: a missing or empty `--url` is the
      default seed, a missing `--max` is 50, PDFs go to `./data`. */
  function MainConfig(urlArg: string, maxArg: Option<int>, host: Url -> string, canFetch: Url -> Option<bool>): Config
  {
    var seed := if urlArg == "" then DefaultUrl else urlArg;
    Config(host(seed), host, canFetch, StorageDir, maxArg.GetOr(DefaultMaxDocs))
  }

  /** What the main flow saves: the crawl's postings, and the index's
      metadata merged with the crawler's records. */
  function Saved(cfg: Config, o: Oracles, seed: Url): Persisted
  {
    var f := Run(cfg, o, Initial(seed)).final;
    Persist(IndexRecord(f.index.postings, MergedDocs(f.index.docs, MetasOf(f.docs))))
  }

  /** Lines 188-209 without argument parsing and printing: crawl from the
      seed into a fresh index, merge, and save. */
  method CrawlAndSave(urlArg: string, maxArg: Option<int>, host: Url -> string,
                      canFetch: Url -> Option<bool>, o: Oracles) returns (out: Persisted)
    ensures out == Saved(MainConfig(urlArg, maxArg, host, canFetch), o, if urlArg == "" then DefaultUrl else urlArg)
  {
    var seed := urlArg;
    if seed == "" {
      seed := DefaultUrl;
    }
    var maxDocs := if maxArg.None? then DefaultMaxDocs else maxArg.value;
    var idx := new InvertedIndex();
    var crawler := new Crawler(seed, maxDocs, StorageDir, host, canFetch);
    assert crawler.State(idx) == Initial(seed);
    assert crawler.Cfg() == MainConfig(urlArg, maxArg, host, canFetch);
    var docs := crawler.Crawl(idx, o);
    MergeMetas(idx, MetasOf(docs));
    out := idx.Save();
  }

  /** The crawl the main flow starts keeps the loop invariant and only ever
      queues URLs on the seed's host. */
  lemma InitialGood(cfg: Config, seed: Url)
    requires cfg.host(seed) == cfg.urlDomain
    ensures Good(cfg, Initial(seed)) && QueueInDomain(cfg, Initial(seed))
  {
    EmptyIndexCovered(map[]);
  }

  /** What the main flow saves describes the crawl: the metadata has exactly
      one entry per crawled document, the crawler's record of it; every
      posting is a recorded, non-binary document with a positive frequency;
      at most `max_docs` documents were recorded, all visited, on the seed's
      host and allowed by robots.txt, no URL twice. */
  lemma SavedDescribesCrawl(urlArg: string, maxArg: Option<int>, host: Url -> string,
                            canFetch: Url -> Option<bool>, o: Oracles)
    ensures var cfg := MainConfig(urlArg, maxArg, host, canFetch);
      var seed := if urlArg == "" then DefaultUrl else urlArg;
      var f := Run(cfg, o, Initial(seed)).final;
      var out := Saved(cfg, o, seed);
      && out.docs == Some(MetasOf(f.docs))
      && out.postings == Some(f.index.postings)
      && ValidPostings(f.index.postings)
      && (forall t, e :: t in f.index.postings && e in f.index.postings[t] ==>
            e in f.docs && f.docs[e].docType != Binary)
      && |f.docs| <= (if cfg.maxDocs < 0 then 0 else cfg.maxDocs)
      && (forall id :: id in f.docs ==> DocOk(cfg, f.visited, id, f.docs[id]))
      && DistinctUrls(f.docs)
  {
    var cfg := MainConfig(urlArg, maxArg, host, canFetch);
    var seed := if urlArg == "" then DefaultUrl else urlArg;
    InitialGood(cfg, seed);
    RunGood(cfg, o, Initial(seed));
    RunStops(cfg, o, Initial(seed));
    var f := Run(cfg, o, Initial(seed)).final;
    MergeAfterCrawl(f.index.docs, MetasOf(f.docs));
  }
}
