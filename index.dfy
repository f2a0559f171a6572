/** The inverted index (class InvertedIndex, indexer.py lines 4-31): for every
    token, the documents it occurs in with its number of occurrences there;
    and a metadata record per document. JSON encoding and file access are not
    modelled: `Save` and `Load` produce and consume the record that is
    written to and read from disk. */
module Index {
  import opened Wrappers

  type DocId = string
  /** A document's metadata: a flat string-to-string record. */
  type Meta = map<string, string>
  /** For one token: the documents it occurs in, with its frequency there. */
  type DocFreqs = map<DocId, nat>
  type Postings = map<string, DocFreqs>
  type Docs = map<DocId, Meta>

  /** The in-memory state of an index. */
  datatype IndexRecord = IndexRecord(postings: Postings, docs: Docs)

  /** The persisted object; a field missing from the file is `None`. */
  datatype Persisted = Persisted(postings: Option<Postings>, docs: Option<Docs>)

  // ---------------------------------------------------------------------------
  // Specification

  /** The number of occurrences of `t` in `tokens`, counted one by one. */
  function Occurrences(tokens: seq<string>, t: string): nat
    decreases |tokens|
  {
    if tokens == [] then 0
    else (if tokens[0] == t then 1 else 0) + Occurrences(tokens[1..], t)
  }

  /** `Counter(tokens)`: each distinct token with its number of occurrences. */
  function Frequencies(tokens: seq<string>): map<string, nat>
  {
    map t | t in tokens :: multiset(tokens)[t]
  }

  /** `postings.get(t, {})`. */
  function Lookup(p: Postings, t: string): DocFreqs
  {
    if t in p then p[t] else map[]
  }

  /** The postings after setting `postings[t][d] := freq[t]` for every token of
      `freq`, creating the inner map of a token seen for the first time. */
  function Apply(p: Postings, d: DocId, freq: map<string, nat>): Postings
  {
    map t | t in p.Keys + freq.Keys :: if t in freq then Lookup(p, t)[d := freq[t]] else p[t]
  }

  /** The postings after indexing document `d` with `tokens`. */
  function WithDocument(p: Postings, d: DocId, tokens: seq<string>): Postings
  {
    Apply(p, d, Frequencies(tokens))
  }

  /** The whole index after `add_document(d, tokens, metadata)`. */
  function Added(ix: IndexRecord, d: DocId, tokens: seq<string>, metadata: Option<Meta>): IndexRecord
  {
    IndexRecord(WithDocument(ix.postings, d, tokens), ix.docs[d := metadata.GetOr(map[])])
  }

  /** What `save` writes: both fields, always. */
  function Persist(ix: IndexRecord): Persisted
  {
    Persisted(Some(ix.postings), Some(ix.docs))
  }

  /** What `load` makes of a persisted object: a missing field reads as empty. */
  function Restore(p: Persisted): IndexRecord
  {
    IndexRecord(p.postings.GetOr(map[]), p.docs.GetOr(map[]))
  }

  /** A token's document map is not empty and every frequency in it is positive. */
  predicate ValidEntry(m: DocFreqs)
  {
    |m| > 0 && forall d :: d in m ==> m[d] >= 1
  }

  /** Every stored frequency is positive and no token has an empty document map. */
  predicate ValidPostings(p: Postings)
  {
    forall t :: t in p ==> ValidEntry(p[t])
  }

  // ---------------------------------------------------------------------------
  // Properties

  /** Counter agrees with counting occurrences one by one. */
  lemma {:induction false} MultisetCountsOccurrences(tokens: seq<string>, t: string)
    ensures multiset(tokens)[t] == Occurrences(tokens, t)
    decreases |tokens|
  {
    if tokens != [] {
      assert tokens == [tokens[0]] + tokens[1..];
      assert multiset(tokens) == multiset([tokens[0]]) + multiset(tokens[1..]);
      MultisetCountsOccurrences(tokens[1..], t);
    }
  }

  /** After indexing `d`, each of its tokens maps `d` to its number of
      occurrences, which is at least one. */
  lemma FrequencyCorrect(p: Postings, d: DocId, tokens: seq<string>, t: string)
    requires t in tokens
    ensures t in WithDocument(p, d, tokens)
    ensures d in WithDocument(p, d, tokens)[t]
    ensures WithDocument(p, d, tokens)[t][d] == Occurrences(tokens, t) >= 1
  {
    MultisetCountsOccurrences(tokens, t);
  }

  /** A token not in the document keeps its document map, and for a token in
      it every other document keeps its frequency. */
  lemma NothingElseChanges(p: Postings, d: DocId, tokens: seq<string>, t: string, e: DocId)
    ensures t !in tokens ==> Lookup(WithDocument(p, d, tokens), t) == Lookup(p, t)
    ensures t in tokens ==> Lookup(WithDocument(p, d, tokens), t).Keys == Lookup(p, t).Keys + {d}
    ensures e != d && e in Lookup(p, t) ==>
      e in Lookup(WithDocument(p, d, tokens), t) && Lookup(WithDocument(p, d, tokens), t)[e] == Lookup(p, t)[e]
  {
  }

  /** Indexing `d` puts no document other than `d` into the postings. */
  lemma OnlyThisDocumentAdded(p: Postings, d: DocId, tokens: seq<string>, t: string, e: DocId)
    ensures t in WithDocument(p, d, tokens) && e in WithDocument(p, d, tokens)[t] ==>
      e == d || (t in p && e in p[t])
  {
  }

  /** The tokens of the index are those it had and those of the document. */
  lemma TokensAfterAdd(p: Postings, d: DocId, tokens: seq<string>)
    ensures WithDocument(p, d, tokens).Keys == p.Keys + set t | t in tokens
  {
  }

  /** Indexing an empty token list leaves the postings as they were. */
  lemma EmptyDocumentNoop(p: Postings, d: DocId)
    ensures WithDocument(p, d, []) == p
  {
  }

  /** Re-adding a document overwrites the counts of the new tokens only:
      a token that occurred only in the earlier list keeps its stale count. */
  lemma {:induction false} ReAddOverwritesOnlyNewTokens(p: Postings, d: DocId, first: seq<string>,
                                                        second: seq<string>, t: string)
    requires t in first
    ensures var q := WithDocument(WithDocument(p, d, first), d, second);
      t in q && d in q[t] &&
      q[t][d] == if t in second then Occurrences(second, t) else Occurrences(first, t)
  {
    FrequencyCorrect(p, d, first, t);
    if t in second {
      FrequencyCorrect(WithDocument(p, d, first), d, second, t);
    }
  }

  /** `add_document` stores the given metadata, or an empty record, under its
      id and leaves the other documents alone; a later call for the same id
      wins. */
  lemma AddedMetadata(ix: IndexRecord, d: DocId, tokens: seq<string>, metadata: Option<Meta>,
                      e: DocId, later: seq<string>, laterMeta: Option<Meta>)
    ensures var ix' := Added(ix, d, tokens, metadata);
      && d in ix'.docs && ix'.docs[d] == (if metadata.Some? then metadata.value else map[])
      && ix'.docs.Keys == ix.docs.Keys + {d}
      && (e != d && e in ix.docs ==> ix'.docs[e] == ix.docs[e])
      && Added(ix', d, later, laterMeta).docs[d] == (if laterMeta.Some? then laterMeta.value else map[])
  {
  }

  /** Indexing keeps the postings valid. */
  lemma AddKeepsValid(p: Postings, d: DocId, tokens: seq<string>)
    requires ValidPostings(p)
    ensures ValidPostings(WithDocument(p, d, tokens))
  {
    var freq := Frequencies(tokens);
    forall t | t in freq
      ensures freq[t] >= 1
    {
      assert t in multiset(tokens);
    }
    ApplyKeepsValid(p, d, freq);
  }

  /** Storing a positive count in an empty or valid document map leaves it valid. */
  lemma SetKeepsEntryValid(m: DocFreqs, d: DocId, n: nat)
    requires n >= 1 && (m == map[] || ValidEntry(m))
    ensures ValidEntry(m[d := n])
  {
    assert d in m[d := n];
  }

  /** Storing positive counts keeps the postings valid. */
  lemma ApplyKeepsValid(p: Postings, d: DocId, freq: map<string, nat>)
    requires ValidPostings(p)
    requires forall t :: t in freq ==> freq[t] >= 1
    ensures ValidPostings(Apply(p, d, freq))
  {
    var q := Apply(p, d, freq);
    forall t | t in q
      ensures ValidEntry(q[t])
    {
      if t in freq {
        SetKeepsEntryValid(Lookup(p, t), d, freq[t]);
      }
    }
  }

  /** The frequencies of the document `["a","b","a","a"]`: a occurs three
      times, b once. */
  lemma FrequencyExample(p: Postings)
    ensures Lookup(WithDocument(p, "7", ["a", "b", "a", "a"]), "a")["7"] == 3
    ensures Lookup(WithDocument(p, "7", ["a", "b", "a", "a"]), "b")["7"] == 1
  {
    FrequencyCorrect(p, "7", ["a", "b", "a", "a"], "a");
    FrequencyCorrect(p, "7", ["a", "b", "a", "a"], "b");
  }

  /** Restoring what was persisted gives the index back, and lookups agree. */
  lemma RestorePersisted(ix: IndexRecord, t: string)
    ensures Restore(Persist(ix)) == ix
    ensures Lookup(Restore(Persist(ix)).postings, t) == Lookup(ix.postings, t)
  {
  }

  /** A persisted object without one of its fields restores that part empty. */
  lemma RestoreMissingFields(p: Persisted)
    ensures p.postings == None ==> Restore(p).postings == map[]
    ensures p.docs == None ==> Restore(p).docs == map[]
    ensures p.postings.Some? && p.docs.Some? ==> Persist(Restore(p)) == p
  {
  }

  /** An unknown token has no postings. */
  lemma LookupTotal(p: Postings, t: string)
    ensures t !in p ==> Lookup(p, t) == map[]
    ensures t in p ==> Lookup(p, t) == p[t]
  {
  }

  // ---------------------------------------------------------------------------
  // The index object

  class InvertedIndex {
    var postings: Postings
    var docs: Docs

    function Record(): IndexRecord
      reads this
    {
      IndexRecord(postings, docs)
    }

    constructor ()
      ensures postings == map[] && docs == map[]
    {
      postings := map[];
      docs := map[];
    }

    /** `add_document`: counts the tokens, then stores each count under its
        token, one distinct token at a time; then records the metadata. */
    method AddDocument(docId: DocId, tokens: seq<string>, metadata: Option<Meta>)
      modifies this
      ensures Record() == Added(old(Record()), docId, tokens, metadata)
    {
      var freq := Frequencies(tokens);
      StoreCounts(docId, freq);
      if metadata.None? {
        docs := docs[docId := map[]];
      } else {
        docs := docs[docId := metadata.value];
      }
    }

    /** The loop of `add_document`: `postings[tok][docId] = cnt` for each
        entry of the counter, one distinct token at a time. */
    method StoreCounts(docId: DocId, freq: map<string, nat>)
      modifies this
      ensures postings == Apply(old(postings), docId, freq)
      ensures docs == old(docs)
    {
      var remaining := freq.Keys;
      ghost var p0 := postings;
      while remaining != {}
        invariant remaining <= freq.Keys
        invariant postings == Apply(p0, docId, Done(freq, remaining))
        invariant docs == old(docs)
        decreases |remaining|
      {
        var tok :| tok in remaining;
        ApplyOneMore(p0, docId, freq, remaining, tok);
        var inner := if tok in postings then postings[tok] else map[];
        postings := postings[tok := inner[docId := freq[tok]]];
        remaining := remaining - {tok};
      }
      DoneWhenNothingRemains(freq);
    }

    /** `get_postings`: never fails; an unknown token has no documents. */
    function GetPostings(token: string): DocFreqs
      reads this
    {
      Lookup(postings, token)
    }

    /** `save`: copies every token's document map into the output object. */
    method Save() returns (out: Persisted)
      ensures out == Persist(Record())
    {
      var outPostings: Postings := map[];
      var remaining := postings.Keys;
      while remaining != {}
        invariant remaining <= postings.Keys
        invariant outPostings.Keys == postings.Keys - remaining
        invariant forall t :: t in outPostings ==> outPostings[t] == postings[t]
        decreases |remaining|
      {
        var tok :| tok in remaining;
        outPostings := outPostings[tok := postings[tok]];
        remaining := remaining - {tok};
      }
      assert outPostings == postings;
      out := Persisted(Some(outPostings), Some(docs));
    }

    /** `load`: replaces both fields with those of the object read. */
    method Load(data: Persisted)
      modifies this
      ensures Record() == Restore(data)
    {
      postings := if data.postings.Some? then data.postings.value else map[];
      docs := if data.docs.Some? then data.docs.value else map[];
    }
  }

  /** The part of `freq` already stored: the keys no longer in `remaining`. */
  function Done(freq: map<string, nat>, remaining: set<string>): map<string, nat>
  {
    map t | t in freq && t !in remaining :: freq[t]
  }

  lemma DoneWhenNothingRemains(freq: map<string, nat>)
    ensures Done(freq, {}) == freq
  {
  }

  lemma ApplyOneMore(p: Postings, d: DocId, freq: map<string, nat>, remaining: set<string>, tok: string)
    requires tok in remaining && remaining <= freq.Keys
    ensures var q := Apply(p, d, Done(freq, remaining));
      Apply(p, d, Done(freq, remaining - {tok})) == q[tok := Lookup(q, tok)[d := freq[tok]]]
  {
    var q := Apply(p, d, Done(freq, remaining));
    var q' := Apply(p, d, Done(freq, remaining - {tok}));
    assert tok !in Done(freq, remaining);
    assert Lookup(q, tok) == Lookup(p, tok);
    assert q'.Keys == q[tok := Lookup(q, tok)[d := freq[tok]]].Keys;
  }
}
