/** The crawl loop of `Crawler.crawl` (crawler.py lines 125-185) as a pure
    state machine: `Step` is one iteration of the while loop, `Run` the whole
    loop. The network, robots.txt, HTML and PDF parsing and URL parsing are
    functions handed in (`Oracles`, `Config`); the class in module `Crawl`
    is proved to compute exactly `Run`. */
module Frontier {
  import opened Wrappers
  import opened Text
  import opened Decimal
  import opened Index
  import opened Extraction

  type Url = string
  newtype byte = x: int | 0 <= x < 256
  type Bytes = seq<byte>

  /** What `fetch(url)` does: raise, or return the content type and the body. */
  datatype FetchResult = FetchRaised | Fetched(ctype: string, data: Bytes)

  /** The collaborators the loop calls: fetching; the decoded page's text and
      resolved links (`extract_from_html`); and the outcome of reading a PDF
      page by page (`None` when the file cannot be opened as a PDF at all). */
  datatype Oracles = Oracles(
    fetch: Url -> FetchResult,
    extractHtml: (Url, Bytes) -> (string, seq<Url>),
    readPdf: Bytes -> Option<seq<PageResult>>)

  /** The crawler's fixed settings: the seed's host, `urlparse(u).netloc`,
      `rp.can_fetch('*', u)` (`None` when it raises), the storage directory
      and the document budget. */
  datatype Config = Config(
    urlDomain: string,
    host: Url -> string,
    canFetch: Url -> Option<bool>,
    storageDir: string,
    maxDocs: int)

  /** The crawler's record of one document: `{'url', 'type'}` and, for a PDF,
      `'path'`. */
  datatype DocRecord = DocRecord(url: Url, docType: DocType, path: Option<string>)

  /** The crawler's fields that the loop changes, plus the index it feeds. */
  datatype CrawlState = CrawlState(
    visited: set<Url>,
    toVisit: seq<Url>,
    docs: map<DocId, DocRecord>,
    docIdSeq: nat,
    index: IndexRecord)

  /** What one iteration did with the URL it popped. */
  datatype Outcome =
    | AlreadyVisited(url: Url)
    | OffDomain(url: Url)
    | RobotsDenied(url: Url)
    | FetchFailed(url: Url)
    | Recorded(url: Url, id: DocId)

  /** `same_domain`: exact equality of hosts. */
  predicate SameDomain(cfg: Config, url: Url)
  {
    cfg.host(url) == cfg.urlDomain
  }

  /** `allowed`: the robots answer, or true when asking raises. */
  predicate Allowed(cfg: Config, url: Url)
  {
    match cfg.canFetch(url)
    case None => true
    case Some(b) => b
  }

  /** The links of a page that the loop appends to `to_visit`, in page order:
      those not yet visited and on the seed's host. Duplicates are kept. */
  function NewLinks(cfg: Config, visited: set<Url>, links: seq<Url>): (r: seq<Url>)
    ensures forall u :: u in r <==> u in links && u !in visited && SameDomain(cfg, u)
    decreases |links|
  {
    if links == [] then []
    else
      var last := links[|links| - 1];
      var r := NewLinks(cfg, visited, links[..|links| - 1]);
      assert forall u :: u in links <==> u in links[..|links| - 1] || u == last;
      r + if last !in visited && SameDomain(cfg, last) then [last] else []
  }

  /** A URL already waiting in the queue is queued again when a later page
      links to it before it is visited: queueing checks only `visited`, not
      the queue, so the queue can hold repeats. */
  lemma QueuedUrlQueuedAgain(cfg: Config, visited: set<Url>, queue: seq<Url>, u: Url)
    requires u in queue && u !in visited && SameDomain(cfg, u)
    ensures queue + NewLinks(cfg, visited, [u]) == queue + [u]
    ensures multiset(queue + NewLinks(cfg, visited, [u]))[u] >= 2
  {
    assert [u][..0] == [];
    assert NewLinks(cfg, visited, [u]) == NewLinks(cfg, visited, []) + [u];
    assert multiset(queue + [u]) == multiset(queue) + multiset{u};
  }

  /** The result of extracting one fetched document. */
  datatype Extracted = Extracted(docType: DocType, tokens: seq<string>, outlinks: seq<Url>, path: Option<string>)

  /** The path a PDF with sequence number `seqNo` is stored under. */
  function PdfPath(cfg: Config, seqNo: nat): string
  {
    JoinPath(cfg.storageDir, SaveBinName(seqNo, ".pdf"))
  }

  /** crawler.py lines 146-170: html pages give tokens and links, PDFs are
      stored and give tokens, anything else gives neither. */
  function Extract(cfg: Config, o: Oracles, url: Url, seqNo: nat, ctype: string, data: Bytes): Extracted
  {
    match Classify(ctype)
    case Html =>
      var (text, links) := o.extractHtml(url, data);
      Extracted(Html, Tokens(text), links, None)
    case Pdf => Extracted(Pdf, PdfTokens(o.readPdf(data)), [], Some(PdfPath(cfg, seqNo)))
    case Binary => Extracted(Binary, [], [], None)
  }

  /** crawler.py lines 172-183, on a state whose URL has been popped and
      marked visited and whose document has been extracted as `ex`: a new id,
      the document's record, the index update when there are tokens, and the
      new links at the back of the queue. */
  function Record(cfg: Config, s: CrawlState, url: Url, ex: Extracted): CrawlState
  {
    var id := NatToString(s.docIdSeq);
    CrawlState(
      s.visited,
      s.toVisit + NewLinks(cfg, s.visited, ex.outlinks),
      s.docs[id := DocRecord(url, ex.docType, ex.path)],
      s.docIdSeq + 1,
      if ex.tokens != [] then Added(s.index, id, ex.tokens, None) else s.index)
  }

  /** Recording keeps the numbering and adds exactly one document. */
  lemma RecordProgress(cfg: Config, s: CrawlState, url: Url, ex: Extracted)
    requires WellNumbered(s)
    ensures WellNumbered(Record(cfg, s, url, ex))
    ensures |Record(cfg, s, url, ex).docs| == |s.docs| + 1
  {
    IdsBelowFacts(s.docIdSeq, s.docIdSeq);
    assert NatToString(s.docIdSeq) !in s.docs;
  }

  /** One iteration of the while loop. */
  function Step(cfg: Config, o: Oracles, s: CrawlState): (CrawlState, Outcome)
    requires s.toVisit != []
  {
    var url := s.toVisit[0];
    var popped := s.(toVisit := s.toVisit[1..]);
    if url in s.visited then (popped, AlreadyVisited(url))
    else
      var marked := popped.(visited := s.visited + {url});
      if !SameDomain(cfg, url) then (marked, OffDomain(url))
      else if !Allowed(cfg, url) then (marked, RobotsDenied(url))
      else
        match o.fetch(url)
        case FetchRaised => (marked, FetchFailed(url))
        case Fetched(ctype, data) =>
          (Record(cfg, marked, url, Extract(cfg, o, url, s.docIdSeq, ctype, data)),
           Recorded(url, NatToString(s.docIdSeq)))
  }

  /** The loop guard: `self.to_visit and len(self.docs) < self.max_docs`. */
  predicate Continues(cfg: Config, s: CrawlState)
  {
    s.toVisit != [] && |s.docs| < cfg.maxDocs
  }

  /** The ids `"0"` .. `"n-1"`. */
  function IdsBelow(n: nat): set<DocId>
    decreases n
  {
    if n == 0 then {} else IdsBelow(n - 1) + {NatToString(n - 1)}
  }

  /** The documents are numbered consecutively from zero. */
  predicate WellNumbered(s: CrawlState)
  {
    s.docs.Keys == IdsBelow(s.docIdSeq)
  }

  /** The id of number `m` is among the first `n` ids exactly when `m < n`. */
  lemma {:induction false} IdsBelowHas(n: nat, m: nat)
    ensures NatToString(m) in IdsBelow(n) <==> m < n
    decreases n
  {
    if n > 0 {
      IdsBelowHas(n - 1, m);
      NatToStringInjective(m, n - 1);
    }
  }

  /** There are `n` ids below `n`. */
  lemma {:induction false} IdsBelowSize(n: nat)
    ensures |IdsBelow(n)| == n
    decreases n
  {
    if n > 0 {
      IdsBelowSize(n - 1);
      IdsBelowHas(n - 1, n - 1);
    }
  }

  lemma IdsBelowFacts(n: nat, m: nat)
    ensures NatToString(m) in IdsBelow(n) <==> m < n
    ensures |IdsBelow(n)| == n
  {
    IdsBelowHas(n, m);
    IdsBelowSize(n);
  }

  /** A well-numbered state has exactly `doc_id_seq` documents, with the ids
      of the numbers below it. */
  lemma WellNumberedIds(s: CrawlState, k: nat)
    requires WellNumbered(s)
    ensures |s.docs| == s.docIdSeq
    ensures NatToString(k) in s.docs <==> k < s.docIdSeq
  {
    IdsBelowFacts(s.docIdSeq, k);
    assert |s.docs| == |s.docs.Keys|;
  }

  /** One iteration keeps the numbering and makes progress: it either records
      a document under a fresh id, or leaves the documents alone and shortens
      the queue. */
  lemma StepProgress(cfg: Config, o: Oracles, s: CrawlState)
    requires s.toVisit != [] && WellNumbered(s)
    ensures var next := Step(cfg, o, s).0;
      && WellNumbered(next)
      && (|next.docs| == |s.docs| + 1 || (next.docs == s.docs && |next.toVisit| == |s.toVisit| - 1))
  {
    var url := s.toVisit[0];
    if url !in s.visited && SameDomain(cfg, url) && Allowed(cfg, url) && o.fetch(url).Fetched? {
      var marked := s.(toVisit := s.toVisit[1..], visited := s.visited + {url});
      var f := o.fetch(url);
      RecordProgress(cfg, marked, url, Extract(cfg, o, url, s.docIdSeq, f.ctype, f.data));
    }
  }

  datatype RunResult = RunResult(final: CrawlState, trace: seq<Outcome>)

  /** The whole loop: the final state and what each iteration did. */
  function Run(cfg: Config, o: Oracles, s: CrawlState): RunResult
    requires WellNumbered(s)
    decreases cfg.maxDocs - |s.docs|, |s.toVisit|, 1
  {
    if !Continues(cfg, s) then RunResult(s, [])
    else
      StepProgress(cfg, o, s);
      RunFrom(cfg, o, s, Step(cfg, o, s))
  }

  /** The rest of the loop after an iteration from `s` that gave `step`: that
      iteration's outcome, then the loop from the state it left. */
  function RunFrom(cfg: Config, o: Oracles, s: CrawlState, step: (CrawlState, Outcome)): RunResult
    requires Continues(cfg, s) && WellNumbered(step.0)
    requires |step.0.docs| == |s.docs| + 1 || (step.0.docs == s.docs && |step.0.toVisit| < |s.toVisit|)
    decreases cfg.maxDocs - |s.docs|, |s.toVisit|, 0
  {
    var rest := Run(cfg, o, step.0);
    RunResult(rest.final, [step.1] + rest.trace)
  }

  /** A loop that goes on is the iteration's outcome followed by the loop
      from the state it leaves. */
  lemma RunUnfold(cfg: Config, o: Oracles, s: CrawlState)
    requires WellNumbered(s) && Continues(cfg, s)
    ensures WellNumbered(Step(cfg, o, s).0)
    ensures var r := Run(cfg, o, s); var rest := Run(cfg, o, Step(cfg, o, s).0);
      && r.final == rest.final
      && r.trace == [Step(cfg, o, s).1] + rest.trace
      && |r.trace| == 1 + |rest.trace|
      && r.trace[0] == Step(cfg, o, s).1
      && r.trace[1..] == rest.trace
  {
    StepProgress(cfg, o, s);
    var r := Run(cfg, o, s);
    assert r == RunFrom(cfg, o, s, Step(cfg, o, s));
  }

  // ---------------------------------------------------------------------------
  // The invariant of the loop

  /** What extraction promises about a document with sequence number `seqNo`:
      only a PDF is stored, under `doc_<seqNo>.pdf` in the storage directory,
      and anything that is neither html nor PDF has no tokens and no links. */
  lemma ExtractFacts(cfg: Config, o: Oracles, url: Url, seqNo: nat, ctype: string, data: Bytes)
    ensures var ex := Extract(cfg, o, url, seqNo, ctype, data);
      && ex.docType == Classify(ctype)
      && ex.path == (if ex.docType == Pdf
                     then Some(JoinPath(cfg.storageDir, "doc_" + NatToString(seqNo) + ".pdf"))
                     else None)
      && (ex.docType != Html ==> ex.outlinks == [])
      && (ex.docType == Binary ==> ex.tokens == [])
  {
  }

  /** A document record as the loop makes it: its URL was visited, is on the
      seed's host and allowed by robots.txt, and exactly a PDF has a path, the
      one `save_bin` chose for its id. */
  predicate DocOk(cfg: Config, visited: set<Url>, id: DocId, r: DocRecord)
  {
    && r.url in visited
    && SameDomain(cfg, r.url)
    && Allowed(cfg, r.url)
    && r.path == (if r.docType == Pdf then Some(JoinPath(cfg.storageDir, "doc_" + id + ".pdf")) else None)
  }

  /** No URL is recorded twice. */
  predicate DistinctUrls(docs: map<DocId, DocRecord>)
  {
    forall i, j :: i in docs && j in docs && docs[i].url == docs[j].url ==> i == j
  }

  /** The index only knows recorded documents: frequencies are positive, every
      posting names a document of the index, and the index's documents are
      recorded ones, none binary, with empty metadata. */
  predicate IndexCovered(ix: IndexRecord, docs: map<DocId, DocRecord>)
  {
    && ValidPostings(ix.postings)
    && (forall t, e :: t in ix.postings && e in ix.postings[t] ==> e in ix.docs)
    && (forall e :: e in ix.docs ==> e in docs && ix.docs[e] == map[] && docs[e].docType != Binary)
  }

  /** The loop invariant. */
  predicate Good(cfg: Config, s: CrawlState)
  {
    && WellNumbered(s)
    && (forall id :: id in s.docs ==> DocOk(cfg, s.visited, id, s.docs[id]))
    && DistinctUrls(s.docs)
    && IndexCovered(s.index, s.docs)
  }

  /** The empty index is covered by any documents. */
  lemma EmptyIndexCovered(docs: map<DocId, DocRecord>)
    ensures IndexCovered(IndexRecord(map[], map[]), docs)
  {
  }

  /** Adding a document to the index adds it to the postings and nothing else. */
  lemma AddedCovered(ix: IndexRecord, docs: map<DocId, DocRecord>, id: DocId, r: DocRecord, tokens: seq<string>)
    requires IndexCovered(ix, docs) && id !in docs && tokens != [] && r.docType != Binary
    ensures IndexCovered(Added(ix, id, tokens, None), docs[id := r])
  {
    var q := WithDocument(ix.postings, id, tokens);
    AddKeepsValid(ix.postings, id, tokens);
    forall t, e | t in q && e in q[t]
      ensures e == id || (t in ix.postings && e in ix.postings[t])
    {
      OnlyThisDocumentAdded(ix.postings, id, tokens, t, e);
    }
    CoveredWithNewPostings(ix, docs, id, r, q);
  }

  /** Valid postings that name only the index's documents and a new one `id`
      are covered once `id` is recorded and given empty metadata. */
  lemma CoveredWithNewPostings(ix: IndexRecord, docs: map<DocId, DocRecord>, id: DocId, r: DocRecord, q: Postings)
    requires IndexCovered(ix, docs) && id !in docs && r.docType != Binary
    requires ValidPostings(q)
    requires forall t, e :: t in q && e in q[t] ==> e == id || (t in ix.postings && e in ix.postings[t])
    ensures IndexCovered(IndexRecord(q, ix.docs[id := map[]]), docs[id := r])
  {
    var ixDocs := ix.docs[id := map[]];
    var docs' := docs[id := r];
    forall t, e | t in q && e in q[t]
      ensures e in ixDocs
    {
      if e != id {
        assert e in ix.postings[t];
      }
    }
    forall e | e in ixDocs
      ensures e in docs' && ixDocs[e] == map[] && docs'[e].docType != Binary
    {
      if e != id {
        assert e in ix.docs;
      }
    }
  }

  /** Adding a record for a fresh id and a fresh URL keeps every record
      well-formed and the URLs distinct. */
  lemma InsertDocKeepsOk(cfg: Config, visited: set<Url>, docs: map<DocId, DocRecord>, id: DocId, r: DocRecord,
                          after: map<DocId, DocRecord>)
    requires forall k :: k in docs ==> DocOk(cfg, visited, k, docs[k])
    requires DistinctUrls(docs)
    requires id !in docs && DocOk(cfg, visited, id, r)
    requires forall k :: k in docs ==> docs[k].url != r.url
    requires after == docs[id := r]
    ensures forall k :: k in after ==> DocOk(cfg, visited, k, after[k])
    ensures DistinctUrls(after)
  {
  }

  /** Recording a document under the next id keeps the invariant. */
  lemma RecordGood(cfg: Config, m: CrawlState, url: Url, ex: Extracted)
    requires Good(cfg, m)
    requires url in m.visited && SameDomain(cfg, url) && Allowed(cfg, url)
    requires forall id :: id in m.docs ==> m.docs[id].url != url
    requires ex.path == (if ex.docType == Pdf
                         then Some(JoinPath(cfg.storageDir, "doc_" + NatToString(m.docIdSeq) + ".pdf"))
                         else None)
    requires ex.docType == Binary ==> ex.tokens == []
    ensures Good(cfg, Record(cfg, m, url, ex))
  {
    var id := NatToString(m.docIdSeq);
    var r := DocRecord(url, ex.docType, ex.path);
    RecordProgress(cfg, m, url, ex);
    IdsBelowFacts(m.docIdSeq, m.docIdSeq);
    assert id !in m.docs;
    InsertDocKeepsOk(cfg, m.visited, m.docs, id, r, m.docs[id := r]);
    if ex.tokens != [] {
      AddedCovered(m.index, m.docs, id, r, ex.tokens);
    }
  }

  /** One iteration keeps the invariant. */
  lemma StepGood(cfg: Config, o: Oracles, s: CrawlState)
    requires s.toVisit != [] && Good(cfg, s)
    ensures Good(cfg, Step(cfg, o, s).0)
  {
    var url := s.toVisit[0];
    if url !in s.visited && SameDomain(cfg, url) && Allowed(cfg, url) && o.fetch(url).Fetched? {
      var marked := s.(toVisit := s.toVisit[1..], visited := s.visited + {url});
      var f := o.fetch(url);
      ExtractFacts(cfg, o, url, s.docIdSeq, f.ctype, f.data);
      assert Good(cfg, marked);
      RecordGood(cfg, marked, url, Extract(cfg, o, url, s.docIdSeq, f.ctype, f.data));
    }
  }

  // ---------------------------------------------------------------------------
  // One iteration

  /** How one iteration decides what to do with the head of the queue: it
      records a document exactly when the URL is new, on the seed's host,
      allowed by robots.txt and fetched without an exception, and otherwise
      says which check stopped it. */
  lemma StepOutcomes(cfg: Config, o: Oracles, s: CrawlState)
    requires s.toVisit != []
    ensures var out := Step(cfg, o, s).1; var url := s.toVisit[0];
      && out.url == url
      && (out.AlreadyVisited? <==> url in s.visited)
      && (out.OffDomain? <==> url !in s.visited && !SameDomain(cfg, url))
      && (out.RobotsDenied? <==> url !in s.visited && SameDomain(cfg, url) && !Allowed(cfg, url))
      && (out.FetchFailed? <==> url !in s.visited && SameDomain(cfg, url) && Allowed(cfg, url)
                                && o.fetch(url).FetchRaised?)
      && (out.Recorded? <==> url !in s.visited && SameDomain(cfg, url) && Allowed(cfg, url)
                             && o.fetch(url).Fetched?)
  {
  }

  /** What one iteration changes: the head of the queue is popped and marked
      visited; a recorded document gets the next id and its links go to the
      back of the queue; otherwise nothing else changes. */
  lemma StepFacts(cfg: Config, o: Oracles, s: CrawlState)
    requires s.toVisit != []
    ensures var n := Step(cfg, o, s).0; var out := Step(cfg, o, s).1; var url := s.toVisit[0];
      && out.url == url
      && n.visited == s.visited + {url}
      && (out.AlreadyVisited? <==> url in s.visited)
      && |n.toVisit| >= |s.toVisit| - 1
      && n.toVisit[..|s.toVisit| - 1] == s.toVisit[1..]
      && (!out.Recorded? ==>
            n.toVisit == s.toVisit[1..] && n.docs == s.docs && n.docIdSeq == s.docIdSeq && n.index == s.index)
      && (out.Recorded? ==>
            && out.id == NatToString(s.docIdSeq)
            && n.docIdSeq == s.docIdSeq + 1
            && out.id in n.docs
            && n.docs == s.docs[out.id := n.docs[out.id]]
            && n.docs[out.id].url == url)
  {
    var url := s.toVisit[0];
    if url !in s.visited && SameDomain(cfg, url) && Allowed(cfg, url) && o.fetch(url).Fetched? {
      var n := Step(cfg, o, s).0;
      assert n.toVisit[..|s.toVisit| - 1] == s.toVisit[1..];
    }
  }

  /** The links queued after a recorded page are exactly its links that are
      not visited (the page itself included) and on the seed's host, in page
      order; a document that is neither html nor PDF queues nothing and
      leaves the index alone. The document is indexed exactly when it has
      tokens. A PDF is stored under `doc_<id>.pdf`. */
  lemma StepEnqueues(cfg: Config, o: Oracles, s: CrawlState)
    requires s.toVisit != []
    requires Step(cfg, o, s).1.Recorded?
    ensures var n := Step(cfg, o, s).0; var url := s.toVisit[0]; var f := o.fetch(url);
      && f.Fetched?
      && var added := n.toVisit[|s.toVisit| - 1..];
      && (Classify(f.ctype) == Html ==>
            forall u :: u in added <==>
              u in o.extractHtml(url, f.data).1 && u !in n.visited && SameDomain(cfg, u))
      && (Classify(f.ctype) != Html ==> added == [])
      && (Classify(f.ctype) == Binary ==> n.index == s.index)
      && var ex := Extract(cfg, o, url, s.docIdSeq, f.ctype, f.data);
      && (ex.tokens == [] ==> n.index == s.index)
      && (ex.tokens != [] ==> n.index == Added(s.index, NatToString(s.docIdSeq), ex.tokens, None))
      && n.docs[NatToString(s.docIdSeq)].docType == Classify(f.ctype)
      && (Classify(f.ctype) == Pdf <==> n.docs[NatToString(s.docIdSeq)].path.Some?)
      && (Classify(f.ctype) == Pdf ==>
            n.docs[NatToString(s.docIdSeq)].path.value
              == JoinPath(cfg.storageDir, "doc_" + NatToString(s.docIdSeq) + ".pdf"))
  {
    var url := s.toVisit[0];
    var f := o.fetch(url);
    ExtractFacts(cfg, o, url, s.docIdSeq, f.ctype, f.data);
    var n := Step(cfg, o, s).0;
    var ex := Extract(cfg, o, url, s.docIdSeq, f.ctype, f.data);
    assert n.toVisit[|s.toVisit| - 1..] == NewLinks(cfg, s.visited + {url}, ex.outlinks);
  }

  // ---------------------------------------------------------------------------
  // The whole loop

  /** The loop keeps its invariant. */
  lemma {:induction false} RunGood(cfg: Config, o: Oracles, s: CrawlState)
    requires Good(cfg, s)
    ensures Good(cfg, Run(cfg, o, s).final)
    decreases cfg.maxDocs - |s.docs|, |s.toVisit|
  {
    if Continues(cfg, s) {
      StepProgress(cfg, o, s);
      RunUnfold(cfg, o, s);
      StepGood(cfg, o, s);
      RunGood(cfg, o, Step(cfg, o, s).0);
    }
  }

  /** The loop stops only when the queue is empty or the budget is spent, and
      never records more than `max_docs` documents (beyond those it started
      with). */
  lemma {:induction false} RunStops(cfg: Config, o: Oracles, s: CrawlState)
    requires WellNumbered(s)
    ensures var f := Run(cfg, o, s).final;
      && !Continues(cfg, f)
      && |f.docs| <= (if |s.docs| <= cfg.maxDocs then cfg.maxDocs else |s.docs|)
    decreases cfg.maxDocs - |s.docs|, |s.toVisit|
  {
    if Continues(cfg, s) {
      StepProgress(cfg, o, s);
      RunUnfold(cfg, o, s);
      RunStops(cfg, o, Step(cfg, o, s).0);
    }
  }

  /** One iteration keeps every document and only adds to the visited set and
      the sequence number. */
  lemma StepKeepsDocs(cfg: Config, o: Oracles, s: CrawlState)
    requires s.toVisit != [] && WellNumbered(s)
    ensures var n := Step(cfg, o, s).0;
      && n.docIdSeq >= s.docIdSeq
      && s.visited <= n.visited
      && (forall id :: id in s.docs ==> id in n.docs && n.docs[id] == s.docs[id])
  {
    var url := s.toVisit[0];
    if url !in s.visited && SameDomain(cfg, url) && Allowed(cfg, url) && o.fetch(url).Fetched? {
      IdsBelowFacts(s.docIdSeq, s.docIdSeq);
      assert NatToString(s.docIdSeq) !in s.docs;
    }
  }

  /** The loop keeps every document it had and only adds to the visited set
      and the sequence number. */
  lemma {:induction false} RunKeepsDocs(cfg: Config, o: Oracles, s: CrawlState)
    requires WellNumbered(s)
    ensures var f := Run(cfg, o, s).final;
      && f.docIdSeq >= s.docIdSeq
      && s.visited <= f.visited
      && (forall id :: id in s.docs ==> id in f.docs && f.docs[id] == s.docs[id])
    decreases cfg.maxDocs - |s.docs|, |s.toVisit|
  {
    if Continues(cfg, s) {
      StepProgress(cfg, o, s);
      RunUnfold(cfg, o, s);
      StepKeepsDocs(cfg, o, s);
      RunKeepsDocs(cfg, o, Step(cfg, o, s).0);
    }
  }

  /** The loop is first-in first-out: the k-th iteration handles the k-th
      URL that was queued at the start. */
  lemma {:induction false} RunFifo(cfg: Config, o: Oracles, s: CrawlState)
    requires WellNumbered(s)
    ensures var tr := Run(cfg, o, s).trace;
      forall k :: 0 <= k < |tr| && k < |s.toVisit| ==> tr[k].url == s.toVisit[k]
    decreases cfg.maxDocs - |s.docs|, |s.toVisit|
  {
    if Continues(cfg, s) {
      var n := Step(cfg, o, s).0;
      StepProgress(cfg, o, s);
      RunUnfold(cfg, o, s);
      StepFacts(cfg, o, s);
      RunFifo(cfg, o, n);
      var tr := Run(cfg, o, s).trace;
      forall k | 0 < k < |tr| && k < |s.toVisit|
        ensures tr[k].url == s.toVisit[k]
      {
        assert tr[k] == Run(cfg, o, n).trace[k - 1];
        assert n.toVisit[k - 1] == s.toVisit[1..][k - 1];
      }
    }
  }

  /** The ids of the recorded outcomes of a trace, in order. */
  function RecordedIds(trace: seq<Outcome>): seq<DocId>
    decreases |trace|
  {
    if trace == [] then []
    else (if trace[0].Recorded? then [trace[0].id] else []) + RecordedIds(trace[1..])
  }

  /** The URLs a trace handled. */
  function Handled(trace: seq<Outcome>): set<Url>
    decreases |trace|
  {
    if trace == [] then {} else {trace[0].url} + Handled(trace[1..])
  }

  /** The recorded ids of a trace that starts with `out`. */
  lemma RecordedIdsCons(out: Outcome, trace: seq<Outcome>)
    ensures RecordedIds([out] + trace) == (if out.Recorded? then [out.id] else []) + RecordedIds(trace)
  {
    assert ([out] + trace)[1..] == trace;
  }

  /** An iteration that records uses the next id and advances the sequence
      number by one; any other leaves the number alone. */
  lemma StepNumbering(cfg: Config, o: Oracles, s: CrawlState)
    requires s.toVisit != []
    ensures var n := Step(cfg, o, s).0; var out := Step(cfg, o, s).1;
      && (out.Recorded? ==> out.id == NatToString(s.docIdSeq) && n.docIdSeq == s.docIdSeq + 1)
      && (!out.Recorded? ==> n.docIdSeq == s.docIdSeq)
  {
  }

  /** Documents are recorded under consecutive ids in crawl order, one id per
      recorded outcome. */
  lemma {:induction false} RunIdsConsecutive(cfg: Config, o: Oracles, s: CrawlState)
    requires WellNumbered(s)
    ensures var r := Run(cfg, o, s); var ids := RecordedIds(r.trace);
      && r.final.docIdSeq == s.docIdSeq + |ids|
      && (forall k :: 0 <= k < |ids| ==> ids[k] == NatToString(s.docIdSeq + k))
    decreases cfg.maxDocs - |s.docs|, |s.toVisit|
  {
    if Continues(cfg, s) {
      StepProgress(cfg, o, s);
      StepNumbering(cfg, o, s);
      RunIdsConsecutive(cfg, o, Step(cfg, o, s).0);
      RunFromIdsConsecutive(cfg, o, s, Step(cfg, o, s));
    }
  }

  /** The inductive step of `RunIdsConsecutive`, for any iteration `step` that
      numbers its outcome as `Step` does. */
  lemma RunFromIdsConsecutive(cfg: Config, o: Oracles, s: CrawlState, step: (CrawlState, Outcome))
    requires Continues(cfg, s) && WellNumbered(step.0)
    requires |step.0.docs| == |s.docs| + 1 || (step.0.docs == s.docs && |step.0.toVisit| < |s.toVisit|)
    requires step.1.Recorded? ==> step.1.id == NatToString(s.docIdSeq) && step.0.docIdSeq == s.docIdSeq + 1
    requires !step.1.Recorded? ==> step.0.docIdSeq == s.docIdSeq
    requires var r := Run(cfg, o, step.0); var ids := RecordedIds(r.trace);
      && r.final.docIdSeq == step.0.docIdSeq + |ids|
      && (forall k :: 0 <= k < |ids| ==> ids[k] == NatToString(step.0.docIdSeq + k))
    ensures var r := RunFrom(cfg, o, s, step); var ids := RecordedIds(r.trace);
      && r.final.docIdSeq == s.docIdSeq + |ids|
      && (forall k :: 0 <= k < |ids| ==> ids[k] == NatToString(s.docIdSeq + k))
  {
    var rest := Run(cfg, o, step.0);
    ConsTraceIds(step.1, rest.trace, s.docIdSeq, step.0.docIdSeq, rest.final.docIdSeq);
  }

  /** Putting an outcome that numbers as an iteration does in front of a
      trace whose ids are consecutive from `next` gives ids consecutive from
      `base`. */
  lemma ConsTraceIds(out: Outcome, trace: seq<Outcome>, base: nat, next: nat, last: nat)
    requires out.Recorded? ==> out.id == NatToString(base) && next == base + 1
    requires !out.Recorded? ==> next == base
    requires last == next + |RecordedIds(trace)|
    requires forall k :: 0 <= k < |RecordedIds(trace)| ==> RecordedIds(trace)[k] == NatToString(next + k)
    ensures last == base + |RecordedIds([out] + trace)|
    ensures forall k :: 0 <= k < |RecordedIds([out] + trace)| ==>
      RecordedIds([out] + trace)[k] == NatToString(base + k)
  {
    var rest := RecordedIds(trace);
    var ids := RecordedIds([out] + trace);
    RecordedIdsCons(out, trace);
    forall k | 0 <= k < |ids|
      ensures ids[k] == NatToString(base + k)
    {
      if out.Recorded? && k > 0 {
        assert ids[k] == rest[k - 1];
      }
    }
  }

  /** Each recorded outcome's id names, at the end of the loop, the document
      of the URL that iteration handled. */
  lemma {:induction false} RunRecordsUrls(cfg: Config, o: Oracles, s: CrawlState)
    requires WellNumbered(s)
    ensures var r := Run(cfg, o, s);
      forall k :: 0 <= k < |r.trace| && r.trace[k].Recorded? ==>
        r.trace[k].id in r.final.docs && r.final.docs[r.trace[k].id].url == r.trace[k].url
    decreases cfg.maxDocs - |s.docs|, |s.toVisit|
  {
    if Continues(cfg, s) {
      var n := Step(cfg, o, s).0;
      StepProgress(cfg, o, s);
      RunUnfold(cfg, o, s);
      StepFacts(cfg, o, s);
      RunRecordsUrls(cfg, o, n);
      RunKeepsDocs(cfg, o, n);
      var r := Run(cfg, o, s);
      forall k | 0 < k < |r.trace| && r.trace[k].Recorded?
        ensures r.trace[k].id in r.final.docs && r.final.docs[r.trace[k].id].url == r.trace[k].url
      {
        assert r.trace[k] == Run(cfg, o, n).trace[k - 1];
      }
    }
  }

  /** The visited set ends up as what it was plus every URL handled. */
  lemma {:induction false} RunVisited(cfg: Config, o: Oracles, s: CrawlState)
    requires WellNumbered(s)
    ensures var r := Run(cfg, o, s);
      r.final.visited == s.visited + Handled(r.trace)
    decreases cfg.maxDocs - |s.docs|, |s.toVisit|
  {
    if Continues(cfg, s) {
      var n := Step(cfg, o, s).0;
      StepProgress(cfg, o, s);
      RunUnfold(cfg, o, s);
      StepFacts(cfg, o, s);
      RunVisited(cfg, o, n);
      var r := Run(cfg, o, s);
      assert r.trace[1..] == Run(cfg, o, n).trace;
    }
  }

  /** A URL handled other than as already visited was not visited before. */
  lemma {:induction false} RunFreshUrls(cfg: Config, o: Oracles, s: CrawlState)
    requires WellNumbered(s)
    ensures var r := Run(cfg, o, s);
      forall j :: 0 <= j < |r.trace| && !r.trace[j].AlreadyVisited? ==> r.trace[j].url !in s.visited
    decreases cfg.maxDocs - |s.docs|, |s.toVisit|
  {
    if Continues(cfg, s) {
      var n := Step(cfg, o, s).0;
      StepProgress(cfg, o, s);
      RunUnfold(cfg, o, s);
      StepFacts(cfg, o, s);
      RunFreshUrls(cfg, o, n);
      var r := Run(cfg, o, s);
      forall j | 0 < j < |r.trace| && !r.trace[j].AlreadyVisited?
        ensures r.trace[j].url !in s.visited
      {
        assert r.trace[j] == Run(cfg, o, n).trace[j - 1];
      }
    }
  }

  /** Every URL is checked at most once: no iteration other than an
      already-visited one handles a URL an earlier iteration handled. */
  lemma {:induction false} RunChecksOnce(cfg: Config, o: Oracles, s: CrawlState)
    requires WellNumbered(s)
    ensures var r := Run(cfg, o, s);
      forall i, j :: 0 <= i < j < |r.trace| && !r.trace[j].AlreadyVisited? ==>
        r.trace[i].url != r.trace[j].url
    decreases cfg.maxDocs - |s.docs|, |s.toVisit|
  {
    if Continues(cfg, s) {
      var n := Step(cfg, o, s).0;
      StepProgress(cfg, o, s);
      RunUnfold(cfg, o, s);
      StepFacts(cfg, o, s);
      RunChecksOnce(cfg, o, n);
      RunFreshUrls(cfg, o, n);
      var r := Run(cfg, o, s);
      forall i, j | 0 <= i < j < |r.trace| && !r.trace[j].AlreadyVisited?
        ensures r.trace[i].url != r.trace[j].url
      {
        assert r.trace[j] == Run(cfg, o, n).trace[j - 1];
        if i > 0 {
          assert r.trace[i] == Run(cfg, o, n).trace[i - 1];
        } else {
          assert Run(cfg, o, n).trace[j - 1].url !in n.visited;
        }
      }
    }
  }

  /** Every queued URL is on the seed's host. */
  predicate QueueInDomain(cfg: Config, s: CrawlState)
  {
    forall u :: u in s.toVisit ==> SameDomain(cfg, u)
  }

  /** One iteration only queues URLs on the seed's host. */
  lemma StepQueueInDomain(cfg: Config, o: Oracles, s: CrawlState)
    requires s.toVisit != [] && QueueInDomain(cfg, s)
    ensures QueueInDomain(cfg, Step(cfg, o, s).0)
  {
    var n := Step(cfg, o, s).0;
    StepFacts(cfg, o, s);
    if Step(cfg, o, s).1.Recorded? {
      StepEnqueues(cfg, o, s);
      forall u | u in n.toVisit
        ensures SameDomain(cfg, u)
      {
        var k :| 0 <= k < |n.toVisit| && n.toVisit[k] == u;
        if k < |s.toVisit| - 1 {
          assert u == s.toVisit[1..][k];
        } else {
          assert u in n.toVisit[|s.toVisit| - 1..];
        }
      }
    }
  }

  /** Links off the seed's host are never queued: if every queued URL is on
      the host, so is every URL queued at the end. */
  lemma {:induction false} RunQueueInDomain(cfg: Config, o: Oracles, s: CrawlState)
    requires WellNumbered(s) && QueueInDomain(cfg, s)
    ensures QueueInDomain(cfg, Run(cfg, o, s).final)
    decreases cfg.maxDocs - |s.docs|, |s.toVisit|
  {
    if Continues(cfg, s) {
      StepProgress(cfg, o, s);
      RunUnfold(cfg, o, s);
      StepQueueInDomain(cfg, o, s);
      RunQueueInDomain(cfg, o, Step(cfg, o, s).0);
    }
  }

  /** If every queued URL is on the seed's host, the loop never meets one
      that is not. */
  lemma {:induction false} RunNeverOffDomain(cfg: Config, o: Oracles, s: CrawlState)
    requires WellNumbered(s) && QueueInDomain(cfg, s)
    ensures var tr := Run(cfg, o, s).trace;
      forall k :: 0 <= k < |tr| ==> !tr[k].OffDomain?
    decreases cfg.maxDocs - |s.docs|, |s.toVisit|
  {
    if Continues(cfg, s) {
      var n := Step(cfg, o, s).0;
      StepProgress(cfg, o, s);
      RunUnfold(cfg, o, s);
      StepOutcomes(cfg, o, s);
      StepQueueInDomain(cfg, o, s);
      RunNeverOffDomain(cfg, o, n);
      var tr := Run(cfg, o, s).trace;
      forall k | 0 < k < |tr|
        ensures !tr[k].OffDomain?
      {
        assert tr[k] == Run(cfg, o, n).trace[k - 1];
      }
    }
  }
}
