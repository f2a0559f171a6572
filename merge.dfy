/** The main flow's merge of the crawler's document records into the index's
    metadata (crawler.py lines 203-207): for each crawled id, an existing
    dictionary is updated with the crawler's entries, otherwise the crawler's
    dictionary is stored. */
module Merge {
  import opened Index

  /** The dictionary the merge leaves for a crawled id. */
  function MergedEntry(d: Docs, metas: Docs, id: DocId): Meta
    requires id in metas
  {
    if id in d then d[id] + metas[id] else metas[id]
  }

  /** The index's metadata after the merge; ids the crawler does not know are
      untouched. */
  function MergedDocs(d: Docs, metas: Docs): Docs
  {
    map id | id in d.Keys + metas.Keys :: if id in metas then MergedEntry(d, metas, id) else d[id]
  }

  /** The merge loop, one crawled id at a time (`dict.update` on an existing
      dictionary, assignment otherwise). */
  method MergeMetas(idx: InvertedIndex, metas: Docs)
    modifies idx
    ensures idx.docs == MergedDocs(old(idx.docs), metas)
    ensures idx.postings == old(idx.postings)
  {
    ghost var d0 := idx.docs;
    var remaining := metas.Keys;
    MergeStart(d0, metas);
    while remaining != {}
      invariant remaining <= metas.Keys
      invariant idx.docs == MergedDocs(d0, Merged(metas, remaining))
      invariant idx.postings == old(idx.postings)
      decreases |remaining|
    {
      var id :| id in remaining;
      MergeOneMore(d0, metas, remaining, id, idx.docs);
      if id in idx.docs {
        idx.docs := idx.docs[id := idx.docs[id] + metas[id]];
      } else {
        idx.docs := idx.docs[id := metas[id]];
      }
      remaining := remaining - {id};
    }
    MergeEnd(metas);
  }

  /** The crawled dictionaries already merged: those no longer in `remaining`. */
  function Merged(metas: Docs, remaining: set<DocId>): Docs
  {
    map id | id in metas && id !in remaining :: metas[id]
  }

  /** Merging one more crawled id, as the loop body does. */
  lemma MergeOneMore(d: Docs, metas: Docs, remaining: set<DocId>, id: DocId, cur: Docs)
    requires id in remaining && remaining <= metas.Keys
    requires cur == MergedDocs(d, Merged(metas, remaining))
    ensures MergedDocs(d, Merged(metas, remaining - {id}))
        == cur[id := if id in cur then cur[id] + metas[id] else metas[id]]
  {
    MergedRemoveOne(metas, remaining, id);
    MergedDocsInsert(d, Merged(metas, remaining), id, metas[id]);
  }

  /** Taking an id out of `remaining` adds its crawled dictionary. */
  lemma MergedRemoveOne(metas: Docs, remaining: set<DocId>, id: DocId)
    requires id in remaining && id in metas
    ensures id !in Merged(metas, remaining)
    ensures Merged(metas, remaining - {id}) == Merged(metas, remaining)[id := metas[id]]
  {
  }

  /** Merging one further dictionary `v` for an id not yet merged. */
  lemma MergedDocsInsert(d: Docs, m: Docs, id: DocId, v: Meta)
    requires id !in m
    ensures id in MergedDocs(d, m) <==> id in d
    ensures id in d ==> MergedDocs(d, m)[id] == d[id]
    ensures MergedDocs(d, m[id := v]) == MergedDocs(d, m)[id := if id in d then d[id] + v else v]
  {
    var before := MergedDocs(d, m);
    var after := MergedDocs(d, m[id := v]);
    var target := before[id := if id in d then d[id] + v else v];
    assert after.Keys == target.Keys;
    forall k | k in after
      ensures after[k] == target[k]
    {
      if k != id {
        assert after[k] == before[k];
      }
    }
  }

  lemma MergeStart(d: Docs, metas: Docs)
    ensures MergedDocs(d, Merged(metas, metas.Keys)) == d
  {
    assert Merged(metas, metas.Keys) == map[];
  }

  lemma MergeEnd(metas: Docs)
    ensures Merged(metas, {}) == metas
  {
  }

  /** After the merge every crawled id is in the index; a crawled id new to
      the index gets the crawler's dictionary as it is; an existing one keeps
      its keys, gains the crawler's, has no others, and carries the crawler's
      entries over whatever it had; and the other documents keep theirs. */
  lemma MergeProperties(d: Docs, metas: Docs, id: DocId, key: string)
    ensures var m := MergedDocs(d, metas);
      && m.Keys == d.Keys + metas.Keys
      && (id in metas && key in metas[id] ==> key in m[id] && m[id][key] == metas[id][key])
      && (id in metas && id in d && key in d[id] && key !in metas[id] ==> key in m[id] && m[id][key] == d[id][key])
      && (id !in metas && id in d ==> m[id] == d[id])
      && (id in metas && id !in d ==> m[id] == metas[id])
      && (id in metas && id in d ==> m[id].Keys == d[id].Keys + metas[id].Keys)
  {
  }

  /** When the index's dictionaries are all empty and only name crawled ids,
      as after a crawl, the merge leaves exactly the crawler's dictionaries. */
  lemma MergeAfterCrawl(d: Docs, metas: Docs)
    requires forall id :: id in d ==> id in metas && d[id] == map[]
    ensures MergedDocs(d, metas) == metas
  {
    var m := MergedDocs(d, metas);
    forall id | id in metas
      ensures m[id] == metas[id]
    {
      if id in d {
        assert d[id] + metas[id] == metas[id];
      }
    }
  }
}
