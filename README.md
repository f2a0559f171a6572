# A verified model of a small web crawler and its inverted index

The crawler (`crawler.py`) starts from a seed URL and drains a first-in
first-out work list. Each URL it pops is skipped if it was visited before,
if it lies on another host, if robots.txt forbids it, or if fetching it
raises an exception. Otherwise the URL is recorded as a document under the
next decimal id ("0", "1", ...). HTML pages and PDFs are tokenised into
lower-case `\w+` runs, which go into the inverted index (`indexer.py`). A
page's links that are not yet visited and lie on the seed's host go to the
back of the work list. The loop stops after `max_docs` documents or when
the work list is empty. The main flow then merges the crawler's document
records into the index's metadata and saves the index.

The model has one module per part of the program:

- `Wrappers` defines `Option`.
- `Decimal` renders the document ids (`f"{n}"`) and proves them injective.
- `Text` covers ASCII lower-casing, the `\w+` runs of `re.findall`,
  `str.strip`, joining, and substring tests.
- `Html` models the `HtmlParser` collector as a class driven by parser
  callbacks.
- `Index` models `InvertedIndex` as a class over nested maps. It comes with
  a specification on values: `Frequencies` (the `Counter`), `Apply`,
  `WithDocument`, `Added`, `Persist` and `Restore`.
- `Extraction` covers content-type classification, the PDF page loop and
  the `save_bin` file name.
- `Frontier` is the crawl loop as a pure state machine:
  - `Step` is one iteration of the `while` loop and returns what it did
    (`Outcome`);
  - `Run` is the whole loop, with its trace of outcomes;
  - the lemmas state the loop's invariants.
- `Merge` is the metadata merge of the main flow, written as a loop over
  the crawled ids.
- `Crawl` holds the `Crawler` class and the main flow. The class's
  `Crawl` method is proved to leave its fields and the index exactly as
  `Frontier.Run` says, so every lemma about `Run` holds of the object.

The world outside the program is handed in as functions:
- `Oracles.fetch` is the fetch;
- `Oracles.extractHtml` is the decoded page's text and links;
- `Oracles.readPdf` is reading a PDF page by page;
- `Config.host` is `urlparse(u).netloc`;
- `Config.canFetch` is robots.txt, `None` when it raises;
- `resolve` is `urljoin` followed by `urldefrag`.

## Model

| member | source | states |
|---|---|---|
| Decimal.NatToString | crawler.py:172 | a document id is a non-empty string of digits with no leading zero except for "0" |
| Decimal.ParseNatToString | crawler.py:172 | reading an id back as a number gives the number it was made from |
| Decimal.NatToStringInjective | crawler.py:172-173 | different sequence numbers give different ids |
| Text.LowerChar | crawler.py:153 | an upper-case ASCII letter becomes the lower-case letter at the same alphabet position; other characters are unchanged; the result is never upper-case and is a word character exactly when the original is |
| Text.Lower | crawler.py:153 | `text.lower()` keeps the length and lower-cases character by character |
| Text.LowerAround | crawler.py:153 | lower-casing distributes over concatenation |
| Text.ScanWellFormed | crawler.py:153 | every run the scanner emits is a non-empty run of word characters, and has no upper-case letter if the input has none |
| Text.ScanSplit | crawler.py:153 | a non-word character ends the current run and splits the result in two |
| Text.ScanOfWord | crawler.py:153 | an unbroken run of word characters is emitted as exactly one token |
| Text.FindWordsCharacterized | crawler.py:153 | `re.findall(r"\w+", s)` returns nothing on the empty text, a word as itself, and on `a + [c] + b` with `c` a separator returns the runs of `a` then those of `b` |
| Text.TokensWellFormed | crawler.py:153 | every token is a non-empty run of word characters with no upper-case letter |
| Text.SkipLeading | crawler.py:25 | returns the first position at or after `i` that is not dropped; everything in between is dropped |
| Text.SkipTrailing | crawler.py:25 | returns the end once the dropped characters at the back are cut |
| Text.StripBy | crawler.py:25 | the result is a slice of the input: only dropped characters precede and follow it, and it neither starts nor ends with one |
| Text.StripByProperties | crawler.py:25 | stripping is idempotent, and the result is empty exactly when every character is dropped |
| Text.Strip | crawler.py:25 | defines `str.strip()`: the input without its leading and trailing Python white space |
| Text.StripProperties | crawler.py:25-26 | `str.strip()` is idempotent and empties exactly the all-white-space strings |
| Text.Tokens | crawler.py:153 | defines `re.findall(r"\w+", text.lower())`: the maximal word runs of the lower-cased text, in order |
| Text.JoinWith | crawler.py:41 | defines `sep.join(parts)`: the parts with `sep` between consecutive ones |
| Text.TokensOfJoin | crawler.py:167-168 | joining parts with a non-word separator gives the tokens of the parts one after another, never a run merged across parts |
| Text.ContainsIff | crawler.py:146 | `sub in s` holds exactly when `sub` occurs at some position of `s` |
| Html.FirstHref | crawler.py:30-34 | with no `href` attribute the result is `None`; otherwise it is the value of the first attribute named `href`, case-insensitively |
| Html.HtmlParser.constructor | crawler.py:18-22 | a new collector has no text chunks and no links |
| Html.HtmlParser.HandleData | crawler.py:24-26 | appends the stripped data exactly when it is non-blank; the links are unchanged |
| Html.HtmlParser.HandleStartTag | crawler.py:28-38 | for an `a` tag, appends the resolved first href when that href is a non-empty string, and otherwise appends nothing; the text is unchanged |
| Html.HtmlParser.GetText | crawler.py:40-41 | defines `get_text`: the collected chunks joined with single spaces |
| Html.HtmlParser.GetLinks | crawler.py:43-44 | returns the collected links without repetition, each one exactly once |
| Html.ExtractFromHtml | crawler.py:114-116 | the page text is the space-joined chunks of the callback stream; the links are exactly the resolved hrefs, without duplicates |
| Html.ChunksAreStripped | crawler.py:24-26 | every collected chunk is non-empty and already stripped |
| Html.PageTokens | crawler.py:40-41 | the tokens of the page text are the tokens of its chunks, in order |
| Html.FirstEmptyHrefHidesLater | crawler.py:30-35 | an empty first `href` hides a later non-empty one, so no link is added |
| Index.Frequencies | indexer.py:10 | defines `Counter(tokens)`: each distinct token mapped to its multiplicity |
| Index.Apply | indexer.py:11-12 | defines the counter loop's result: `postings[t][d] = freq[t]` for every counted token, creating a token's map on first use, all else kept |
| Index.WithDocument | indexer.py:10-12 | defines the postings after indexing `d`: the counts of its tokens applied |
| Index.Added | indexer.py:9-15 | defines the whole index after `add_document`: the postings with the document's counts and `docs[d]` set to the metadata or `{}` |
| Index.Persist | indexer.py:17-20 | defines what `save` writes: an object with both the postings and the docs |
| Index.Restore | indexer.py:27-28 | defines what `load` reads back: each field, or empty when it is missing |
| Index.MultisetCountsOccurrences | indexer.py:10 | `Counter`'s count of a token equals its number of occurrences, counted one by one |
| Index.FrequencyCorrect | indexer.py:10-12 | after indexing, `postings[t][d]` is the number of occurrences of `t` in the tokens, and at least 1 |
| Index.FrequencyExample | indexer.py:10-12 | `["a","b","a","a"]` gives a→3 and b→1 |
| Index.NothingElseChanges | indexer.py:11-12 | a token not in the document keeps its map; a token in it gains exactly `d`; other documents keep their counts |
| Index.OnlyThisDocumentAdded | indexer.py:11-12 | the only document indexing can add to the postings is `d` |
| Index.TokensAfterAdd | indexer.py:11-12 | the tokens of the index become the old ones plus those of the document |
| Index.EmptyDocumentNoop | indexer.py:10-12 | indexing no tokens leaves the postings unchanged |
| Index.ReAddOverwritesOnlyNewTokens | indexer.py:11-12 | re-adding a document overwrites the counts of the new tokens only; a token only in the earlier list keeps its old count |
| Index.AddedMetadata | indexer.py:13-15 | `docs[d]` becomes the given metadata or `{}`, other documents keep theirs, and the last write wins |
| Index.AddKeepsValid | indexer.py:10-12 | indexing keeps every stored frequency at least 1 and every token's map non-empty |
| Index.SetKeepsEntryValid | indexer.py:12 | storing a positive count keeps a token's map valid |
| Index.ApplyKeepsValid | indexer.py:11-12 | storing positive counts keeps the postings valid |
| Index.RestorePersisted | indexer.py:17-28 | restoring the persisted record gives back the same postings and docs, and lookups agree |
| Index.RestoreMissingFields | indexer.py:27-28 | a missing field restores as empty, and a complete record round-trips |
| Index.LookupTotal | indexer.py:30-31 | `get_postings` returns the stored map for a known token and the empty map otherwise |
| Index.InvertedIndex.GetPostings | indexer.py:30-31 | defines `get_postings`: the token's document map, or the empty map for an unknown token |
| Index.InvertedIndex.constructor | indexer.py:5-7 | a new index has no postings and no documents |
| Index.InvertedIndex.AddDocument | indexer.py:9-15 | the new index is exactly `Added(old, d, tokens, metadata)` |
| Index.InvertedIndex.StoreCounts | indexer.py:11-12 | the counter loop leaves the postings equal to `Apply(old postings, d, freq)` and the docs untouched |
| Index.ApplyOneMore | indexer.py:12 | storing one more token's count extends the partly applied postings by that entry |
| Index.InvertedIndex.Save | indexer.py:17-20 | the saved object has exactly the postings and docs fields, each equal to the index's |
| Index.InvertedIndex.Load | indexer.py:24-28 | the fields become the restored record, with missing fields empty |
| Extraction.Classify | crawler.py:146 | defines the document type: html if the content type contains "html", else pdf if it contains "pdf", else binary |
| Extraction.PageTexts | crawler.py:161-166 | defines the page texts kept, in page order: a page's text or `''` when it has none, and nothing for a page that raises |
| Extraction.PdfTokens | crawler.py:158-170 | defines a PDF's tokens: those of its kept page texts joined with newlines, or none when the PDF cannot be read |
| Extraction.ClassifyByOccurrence | crawler.py:146 | the type is html exactly when "html" occurs; pdf exactly when "pdf" occurs and "html" does not; binary exactly when neither occurs |
| Extraction.HtmlTakesPrecedence | crawler.py:146 | every content type in which "html" occurs is html, whether or not it also names pdf |
| Extraction.ReadPdfTokens | crawler.py:158-170 | the page loop yields `PdfTokens(pages)`: the tokens of the readable page texts joined with newlines, or none if the PDF cannot be read |
| Extraction.PdfTokensOfPages | crawler.py:161-168 | a PDF's tokens are those of its readable pages, page after page |
| Extraction.PageTextKept | crawler.py:163-164 | the text of every readable page is kept (an empty string when it has none) |
| Extraction.TokensOfAllFromPart | crawler.py:167-168 | one part with a token makes the joined token list non-empty |
| Extraction.PdfSurvivesPageErrors | crawler.py:162-166 | a failing page loses only its own text: one readable page with a word gives the document tokens |
| Extraction.SaveBinName | crawler.py:119 | defines `save_bin`'s file name `doc_<seq><ext>` |
| Extraction.JoinPath | crawler.py:120 | the joined path is never shorter than the file name, so a stored path is never empty |
| Extraction.SaveBinPathsDistinct | crawler.py:118-120 | different sequence numbers give different stored paths, so within one crawl no stored PDF is overwritten |
| Frontier.SameDomain | crawler.py:78-80 | defines `same_domain`: the URL's host equals the seed's host exactly |
| Frontier.Allowed | crawler.py:72-76 | defines `allowed`: the robots answer, or true when asking raises |
| Frontier.Continues | crawler.py:126 | defines the loop guard: the queue is non-empty and fewer than `max_docs` documents are recorded |
| Frontier.Extract | crawler.py:146-170 | defines what a fetched document yields: html gives its text's tokens and its links; pdf gets the path `doc_<seq>.pdf` in the storage directory and its pages' tokens; anything else gives nothing |
| Frontier.Record | crawler.py:172-183 | defines recording an extracted document: the next id, its record with the path when there is one, indexing when it has tokens, and its new links at the back of the queue |
| Frontier.Step | crawler.py:127-183 | defines one iteration: pop the head; skip it if visited; mark it visited; skip it if off the host, disallowed or failing to fetch; otherwise record it |
| Frontier.Run | crawler.py:125-185 | defines the whole loop: iterate `Step` while `Continues` holds, collecting each iteration's outcome |
| Frontier.NewLinks | crawler.py:181-183 | a link is queued exactly when it is on the page, not visited, and on the seed's host |
| Frontier.QueuedUrlQueuedAgain | crawler.py:181-183 | a URL still waiting in the queue, not yet visited and on the seed's host, is appended again when a later page links to it, so the queue holds it twice |
| Frontier.WellNumberedIds | crawler.py:172-174 | `len(docs) == doc_id_seq`, and the ids are exactly those of the numbers below `doc_id_seq` |
| Frontier.IdsBelowHas | crawler.py:172-173 | the id of `m` is among the first `n` ids exactly when `m < n` |
| Frontier.IdsBelowSize | crawler.py:172-173 | there are `n` ids below `n` |
| Frontier.RecordProgress | crawler.py:172-174 | recording a document keeps the numbering and adds exactly one document |
| Frontier.StepProgress | crawler.py:126-185 | each iteration keeps the numbering and either adds a document or shortens the queue, so `(max_docs - len(docs), len(to_visit))` decreases |
| Frontier.RunUnfold | crawler.py:126-185 | a loop that goes on is one iteration's outcome followed by the loop from the state it leaves |
| Frontier.ExtractFacts | crawler.py:146-170 | extraction classifies by content type; exactly PDFs get the path `doc_<seq>.pdf` in the storage dir; only HTML has links; binary has no tokens |
| Frontier.StepOutcomes | crawler.py:127-144 | an iteration records a document exactly when the URL is new, on the host, allowed and fetched; otherwise it reports the first check that stopped it |
| Frontier.StepFacts | crawler.py:127-183 | the popped URL is marked visited; a skipped or failed URL changes nothing else (no doc, no id, no links, no index change); a recorded one gets the next id and its record |
| Frontier.StepEnqueues | crawler.py:146-183 | a recorded HTML page queues exactly its new in-domain links, at the back; other documents queue nothing; the index is left alone when the document has no tokens (always so for binary) and is `Added` with its tokens otherwise; only a PDF has a path, `doc_<id>.pdf` |
| Frontier.EmptyIndexCovered | indexer.py:5-7 | the empty index refers to no document |
| Frontier.AddedCovered | crawler.py:178-179 | indexing a new recorded document keeps every posting pointing to a recorded, non-binary document |
| Frontier.CoveredWithNewPostings | crawler.py:178-179 | valid postings that name only indexed documents and the new one stay covered once it is recorded |
| Frontier.InsertDocKeepsOk | crawler.py:174-176 | adding a well-formed record under a fresh id and a fresh URL keeps all records well-formed and the URLs distinct |
| Frontier.RecordGood | crawler.py:172-183 | recording a fresh, visited, in-domain, allowed URL keeps the loop invariant |
| Frontier.StepGood | crawler.py:127-183 | one iteration keeps the loop invariant: numbering, records on the host and allowed, distinct URLs, postings only of recorded documents |
| Frontier.RunGood | crawler.py:125-185 | the whole loop keeps that invariant |
| Frontier.RunStops | crawler.py:126 | the loop ends with an empty queue or a spent budget, holding at most `max_docs` documents, or only those it started with if they already exceeded `max_docs` |
| Frontier.StepKeepsDocs | crawler.py:130-174 | an iteration keeps every existing document and only grows `visited` and `doc_id_seq` |
| Frontier.RunKeepsDocs | crawler.py:126-176 | the whole loop keeps every existing document and only grows `visited` and `doc_id_seq` |
| Frontier.RunFifo | crawler.py:127-183 | the k-th iteration handles the k-th URL queued at the start |
| Frontier.StepNumbering | crawler.py:172-173 | an iteration that records uses the next id and advances `doc_id_seq` by one; any other leaves it alone |
| Frontier.RecordedIdsCons | crawler.py:172 | the recorded ids of a trace are those of its first outcome followed by those of the rest |
| Frontier.RunIdsConsecutive | crawler.py:172-174 | the recorded ids are consecutive numbers in processing order, and `doc_id_seq` advances by their count |
| Frontier.RunFromIdsConsecutive | crawler.py:172-174 | one iteration that numbers its outcome with the next id, followed by a loop whose ids are consecutive, gives ids consecutive from the starting `doc_id_seq` |
| Frontier.ConsTraceIds | crawler.py:172-174 | an outcome numbered with the next id, put in front of a trace with consecutive ids, gives a trace with consecutive ids |
| Frontier.RunRecordsUrls | crawler.py:172-174 | each recorded id names, at the end, the document of the URL handled in that iteration |
| Frontier.RunVisited | crawler.py:127-130 | the final `visited` is the initial one plus every URL handled, skipped and failed ones included |
| Frontier.RunFreshUrls | crawler.py:127-130 | a URL handled other than as already visited was not visited at the start |
| Frontier.RunChecksOnce | crawler.py:127-130 | each URL is checked and fetched at most once, even though the queue may hold it twice |
| Frontier.StepQueueInDomain | crawler.py:181-183 | an iteration queues only URLs on the seed's host |
| Frontier.RunQueueInDomain | crawler.py:181-183 | the queue stays on the seed's host throughout the loop |
| Frontier.RunNeverOffDomain | crawler.py:132-133 | from a queue on the seed's host, no iteration ever meets an off-host URL |
| Merge.MergedDocs | crawler.py:203-207 | defines the merged metadata: a crawled id's dictionary updated with the crawler's entries, or the crawler's dictionary when the id is new; other documents untouched |
| Merge.MergeMetas | crawler.py:203-207 | the merge loop leaves `idx.docs` equal to `MergedDocs(old docs, metas)` and the postings untouched |
| Merge.MergeOneMore | crawler.py:204-207 | merging one more id is `update` on an existing dictionary and assignment otherwise |
| Merge.MergedRemoveOne | crawler.py:203 | taking an id out of the remaining ones adds its crawled dictionary to the merged part |
| Merge.MergedDocsInsert | crawler.py:204-207 | merging one further dictionary for an id not yet merged updates exactly that id |
| Merge.MergeStart | crawler.py:203 | before the loop nothing is merged |
| Merge.MergeEnd | crawler.py:203 | after the loop every crawled id is merged |
| Merge.MergeProperties | crawler.py:203-207 | every crawled id ends up in the docs; an id new to the index is stored as the crawler's dictionary unchanged; for an existing id the keys are exactly the old and the crawler's, the crawler's values override and the old keys it lacks keep their values; documents the crawler did not see are untouched |
| Merge.MergeAfterCrawl | crawler.py:199-207 | after a crawl, when the index's entries are the crawled ids with empty metadata, the merge leaves exactly the crawler's records |
| Crawl.Crawler.constructor | crawler.py:48-70 | the seed is the only queued URL; nothing is visited or recorded; the host is the seed's |
| Crawl.Crawler.SaveBin | crawler.py:118-123 | the stored file is `doc_<doc_id_seq><ext>` in the storage directory |
| Crawl.Crawler.EnqueueLinks | crawler.py:181-183 | appends exactly `NewLinks` of the outlinks to the queue, in page order |
| Crawl.Crawler.Process | crawler.py:146-183 | the fields and the index become `Record` of the document as extracted from its content type |
| Crawl.Crawler.VisitNext | crawler.py:127-183 | one pass of the loop body leaves the fields and the index exactly as `Step` says |
| Crawl.Crawler.Crawl | crawler.py:125-185 | `crawl` leaves the fields and the index exactly as `Run` says, and returns `docs` |
| Crawl.RunContinues | crawler.py:126 | the loop from a state that goes on ends where the loop from the next state ends |
| Crawl.MetaOf | crawler.py:174-176 | a record becomes `{url, type}`, plus `path` exactly when it has one |
| Crawl.MetasOf | crawler.py:174-176 | the crawled records as metadata, one dictionary per crawled id |
| Crawl.CrawlAndSave | crawler.py:188-209 | the main flow saves the crawl's postings and the merged metadata, with defaults for an empty `--url` and a missing `--max` |
| Crawl.InitialGood | crawler.py:67-70 | the initial crawl satisfies the loop invariant, with its queue on the seed's host |
| Crawl.SavedDescribesCrawl | crawler.py:188-209 | the saved metadata is exactly the crawler's records; postings are valid and only of recorded non-binary documents; at most `max_docs` documents; all visited, on host, allowed; no URL twice |

## Left out

- HTTP and file fetching (`fetch`, crawler.py:82-107) is the oracle `Oracles.fetch`. An unsupported scheme is one of its raising outcomes.
- Loading robots.txt (crawler.py:59-65) and `can_fetch` are the function `Config.canFetch`. It returns `None` when the call raises, which `Allowed` treats as allowed.
- `urlparse`, `urljoin` and `urldefrag` are the functions `Config.host` and `resolve`. URL normalisation is not modelled.
- A URL parse that raises is not modelled. For example, `urljoin` raises `ValueError` on `<a href="http://[x">`. The exception leaves `handle_starttag` through `feed`, `extract_from_html` and `crawl`, so the whole crawl aborts and no index is saved. In the model `resolve`, `Config.host` and `Oracles.extractHtml` never fail, and `Crawl.CrawlAndSave` always returns the saved record.
- Byte decoding and the standard library's HTML tokenizer (crawler.py:109-115) are not modelled:
  - `Html` takes the stream of tag and data callbacks as input;
  - the crawl loop takes the decoded page's text and links from `Oracles.extractHtml`, because `list(set(...))` has an order Python leaves unspecified.
- PyPDF2 is not modelled. Each page's extraction arrives as a `PageResult`, and a PDF that cannot be opened arrives as `None`.
- Writing files is not modelled (`os.makedirs`, `save_bin`'s write, the JSON dump in `save`, the JSON read in `load`). A failing write in `save_bin` would abort the crawl with an exception, and the model does not capture that.
- Files from earlier runs are not modelled. Every run starts `doc_id_seq` at 0 (crawler.py:70) and opens `doc_<n>.pdf` for writing (crawler.py:119-121), so a later run overwrites the files of an earlier one. `Extraction.SaveBinPathsDistinct` holds only within one crawl.
- `Crawl.Crawler.SaveBin` keeps only the file-name rule; its `url` and `data` parameters are not used.
- Python's Unicode `\w` and `str.lower()` are narrowed to ASCII letters, digits and underscore. `str.strip()` uses Python's full white-space set.
- `argparse`, printing, and `int()` of `--max` are not modelled. `--max` arrives already parsed as an optional integer; an empty `--max`, like a missing one, becomes 50.
- The interactive query loop of indexer.py:33-47 is not modelled.
- `Index.InvertedIndex.Load` does not model the `defaultdict` becoming a plain `dict` after loading. After a load, the source's `add_document` of a new token would raise `KeyError`; the source never does this.
- The postings are a Dafny map of maps, not Python dictionaries shared by reference. Aliasing between a crawler record and the index's metadata dictionary after the merge is not modelled.
- Frontier.RunStops: does not prove that the crawl records exactly `max_docs` documents whenever enough fetchable pages are reachable. That depends on the oracles.
- Two behaviours of the code that are easy to miss:
  - `to_visit` can hold the same URL more than once. A link is checked only against `visited` when it is queued, not against the queue; `Frontier.QueuedUrlQueuedAgain` shows this for a queued URL that a later page links to again, and `Frontier.RunChecksOnce` shows the second copy is never fetched.
  - `handle_starttag` takes the first attribute named `href` and stops there, even when its value is empty (`Html.FirstEmptyHrefHidesLater`). It does not look for a later non-empty `href`.
