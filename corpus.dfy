/**
 * The document corpus (class `Corpus` of group_issues.py): the stored
 * documents, the document-frequency counts `words` and the inverted index
 * from terms to per-document TF-IDF weights.
 */
module Corpora {
  import opened Tokenizer
  import opened Documents

  /** Document keys are the integer ids of the input rows. */
  type Key = int

  /** Documents with fewer distinct terms than this are not stored. */
  const MIN_DOCUMENT_LENGTH: nat := 3

  /** A non-empty set of keys has a member to pick. */
  lemma Inhabited(s: set<Key>)
    requires s != {}
    ensures exists k :: k in s
  {
    if forall k :: k !in s {
      assert false;
    }
  }

  /** What `load` does to `words`: every term of the new document that is
      already counted goes up by one; no term is added. */
  function Bump(words: map<Term, nat>, terms: set<Term>): map<Term, nat> {
    map w | w in words :: if w in terms then words[w] + 1 else words[w]
  }

  /** `index[w]`, or the empty postings a `defaultdict(dict)` supplies. */
  function Lookup(index: map<Term, map<Key, real>>, w: Term): map<Key, real> {
    if w in index then index[w] else map[]
  }

  /** The terms occurring in any of the weight maps. */
  function TermsOf(weights: map<Key, map<Term, real>>): set<Term> {
    set id, w | id in weights && w in weights[id] :: w
  }

  /** For term `w`: the weight it has in every document that has it. */
  function Postings(weights: map<Key, map<Term, real>>, w: Term): map<Key, real> {
    map id | id in weights && w in weights[id] :: weights[id][w]
  }

  /** The index after recording the weight maps `weights` (document id to
      weights) over an existing `index`: old postings stay unless a
      document overwrites them. */
  function Indexed(index: map<Term, map<Key, real>>, weights: map<Key, map<Term, real>>): map<Term, map<Key, real>> {
    map w | w in index.Keys + TermsOf(weights) :: Lookup(index, w) + Postings(weights, w)
  }

  /** The index after recording the weights `ws` of the single document `id`. */
  function Post(index: map<Term, map<Key, real>>, id: Key, ws: map<Term, real>): map<Term, map<Key, real>> {
    map w | w in index.Keys + ws.Keys :: if w in ws then Lookup(index, w)[id := ws[w]] else index[w]
  }

  /** `load` never adds a term to `words` and never lowers a count. */
  lemma BumpMonotone(words: map<Term, nat>, terms: set<Term>)
    ensures Bump(words, terms).Keys == words.Keys
    ensures forall w :: w in words ==> words[w] <= Bump(words, terms)[w] <= words[w] + 1
  {
  }

  /** Starting from the empty `words` of a new corpus, `load` keeps it empty. */
  lemma BumpEmpty(terms: set<Term>)
    ensures Bump(map[], terms) == map[]
  {
  }

  /** Counting one more term of the new document is one increment. */
  lemma BumpStep(words: map<Term, nat>, done: set<Term>, k: Term)
    requires k !in done
    ensures Bump(words, done + {k}) == if k in words then Bump(words, done)[k := words[k] + 1] else Bump(words, done)
  {
    var a := Bump(words, done + {k});
    var b := if k in words then Bump(words, done)[k := words[k] + 1] else Bump(words, done);
    assert a.Keys == b.Keys;
    forall w | w in a
      ensures a[w] == b[w]
    {
    }
  }

  /** Indexing no documents leaves the index as it is. */
  lemma IndexedNothing(index: map<Term, map<Key, real>>)
    ensures Indexed(index, map[]) == index
  {
    var a := Indexed(index, map[]);
    assert TermsOf(map[]) == {};
    assert a.Keys == index.Keys;
    forall w | w in a
      ensures a[w] == index[w]
    {
      assert Postings(map[], w) == map[];
    }
  }

  lemma TermsOfUpdate(weights: map<Key, map<Term, real>>, id: Key, ws: map<Term, real>)
    requires id !in weights
    ensures TermsOf(weights[id := ws]) == TermsOf(weights) + ws.Keys
  {
    var u := weights[id := ws];
    forall w | w in ws
      ensures w in TermsOf(u)
    {
      assert id in u && w in u[id];
    }
    forall w | w in TermsOf(weights)
      ensures w in TermsOf(u)
    {
      var k :| k in weights && w in weights[k];
      assert k in u && w in u[k];
    }
    forall w | w in TermsOf(u)
      ensures w in TermsOf(weights) || w in ws
    {
      var k :| k in u && w in u[k];
      if k != id {
        assert k in weights && w in weights[k];
      }
    }
  }

  lemma PostingsUpdate(weights: map<Key, map<Term, real>>, id: Key, ws: map<Term, real>, w: Term)
    requires id !in weights
    ensures Postings(weights[id := ws], w) == if w in ws then Postings(weights, w)[id := ws[w]] else Postings(weights, w)
  {
  }

  lemma UnionUpdate(a: map<Key, real>, b: map<Key, real>, k: Key, v: real)
    ensures (a + b)[k := v] == a + b[k := v]
  {
  }

  /** A term with postings occurs in some weight map. */
  lemma HasPostings(weights: map<Key, map<Term, real>>, w: Term)
    ensures Postings(weights, w) != map[] ==> w in TermsOf(weights)
  {
    if Postings(weights, w) != map[] {
      Inhabited(Postings(weights, w).Keys);
      var k :| k in Postings(weights, w);
      assert k in weights && w in weights[k];
    }
  }

  /** One term of `IndexedStep`. */
  lemma IndexedStepAt(index: map<Term, map<Key, real>>, weights: map<Key, map<Term, real>>, id: Key, ws: map<Term, real>, w: Term)
    requires id !in weights
    requires w in index || w in TermsOf(weights) || w in ws
    ensures Lookup(index, w) + Postings(weights[id := ws], w)
            == (if w in ws then Lookup(Indexed(index, weights), w)[id := ws[w]] else Indexed(index, weights)[w])
  {
    PostingsUpdate(weights, id, ws, w);
    if w in ws {
      HasPostings(weights, w);
      UnionUpdate(Lookup(index, w), Postings(weights, w), id, ws[w]);
    }
  }

  /** Recording one more document is one `Post`. */
  lemma IndexedStep(index: map<Term, map<Key, real>>, weights: map<Key, map<Term, real>>, id: Key, ws: map<Term, real>)
    requires id !in weights
    ensures Indexed(index, weights[id := ws]) == Post(Indexed(index, weights), id, ws)
  {
    var a := Indexed(index, weights[id := ws]);
    var b := Post(Indexed(index, weights), id, ws);
    IndexedStepKeys(index, weights, id, ws);
    forall w | w in a
      ensures a[w] == b[w]
    {
      IndexedStepAt(index, weights, id, ws, w);
    }
  }

  /** The terms of the index after one more document. */
  lemma IndexedStepKeys(index: map<Term, map<Key, real>>, weights: map<Key, map<Term, real>>, id: Key, ws: map<Term, real>)
    requires id !in weights
    ensures Indexed(index, weights[id := ws]).Keys == Post(Indexed(index, weights), id, ws).Keys
  {
    TermsOfUpdate(weights, id, ws);
  }

  /** Recording one more term of a document is one update of the index. */
  lemma PostStep(index: map<Term, map<Key, real>>, id: Key, ws: map<Term, real>, w: Term, v: real)
    requires w !in ws
    ensures Post(index, id, ws[w := v]) == Post(index, id, ws)[w := Lookup(Post(index, id, ws), w)[id := v]]
  {
    var a := Post(index, id, ws[w := v]);
    var b := Post(index, id, ws)[w := Lookup(Post(index, id, ws), w)[id := v]];
    assert a.Keys == b.Keys;
    forall u | u in a
      ensures a[u] == b[u]
    {
    }
  }

  /** After indexing, every recorded weight can be looked up under its term
      and document. */
  lemma IndexedFinds(index: map<Term, map<Key, real>>, weights: map<Key, map<Term, real>>, id: Key, w: Term)
    requires id in weights && w in weights[id]
    ensures w in Indexed(index, weights) && id in Indexed(index, weights)[w]
    ensures Indexed(index, weights)[w][id] == weights[id][w]
  {
    assert w in TermsOf(weights);
    assert id in Postings(weights, w);
  }

  /** Indexing never removes a posting, and a posting it does not overwrite
      keeps its old weight. */
  lemma IndexedKeeps(index: map<Term, map<Key, real>>, weights: map<Key, map<Term, real>>, w: Term, id: Key)
    requires w in index && id in index[w]
    ensures w in Indexed(index, weights) && id in Indexed(index, weights)[w]
    ensures !(id in weights && w in weights[id]) ==> Indexed(index, weights)[w][id] == index[w][id]
  {
  }

  /** Every posting of the new index is an old posting or a recorded weight. */
  lemma IndexedFrom(index: map<Term, map<Key, real>>, weights: map<Key, map<Term, real>>, w: Term, id: Key)
    requires w in Indexed(index, weights) && id in Indexed(index, weights)[w]
    ensures (id in weights && w in weights[id]) || (w in index && id in index[w])
  {
  }

  /** The postings of the new index lie among the old postings' documents
      and the recorded documents. */
  lemma IndexedDocuments(index: map<Term, map<Key, real>>, weights: map<Key, map<Term, real>>, docs: set<Key>)
    requires forall w :: w in index ==> index[w].Keys <= docs
    requires weights.Keys <= docs
    ensures forall w :: w in Indexed(index, weights) ==> Indexed(index, weights)[w].Keys <= docs
  {
    forall w, id | w in Indexed(index, weights) && id in Indexed(index, weights)[w]
      ensures id in docs
    {
      IndexedFrom(index, weights, w, id);
    }
  }

  /** Every stored document has at least MIN_DOCUMENT_LENGTH distinct
      terms, and no document object is stored under two keys. */
  ghost predicate Stored(docs: map<Key, Document>) {
    && (forall k :: k in docs ==> |docs[k].tf| >= MIN_DOCUMENT_LENGTH)
    && (forall k, j :: k in docs && j in docs && k != j ==> docs[k] != docs[j])
  }

  /** Storing a new document object with enough terms keeps Stored. */
  lemma StoredAdd(docs: map<Key, Document>, key: Key, doc: Document)
    requires Stored(docs) && |doc.tf| >= MIN_DOCUMENT_LENGTH
    requires forall k :: k in docs ==> docs[k] != doc
    ensures Stored(docs[key := doc])
  {
  }

  /** The caches of create_index in progress: the documents in `done`
      carry their cached-call weights `done`, computed from the caches
      `before`; the documents in `rest` still have their old caches. */
  ghost predicate Refreshed(docs: map<Key, Document>, words: map<Term, nat>, before: map<Key, map<Term, real>>,
                            done: map<Key, map<Term, real>>, rest: set<Key>, log: real -> real)
    reads docs.Values
  {
    && rest <= docs.Keys && done.Keys == docs.Keys - rest && before.Keys == docs.Keys
    && (forall k :: k in done ==> docs[k].cache == done[k] == Cached(before[k], docs[k].tf, |docs|, words, log))
    && (forall k :: k in rest ==> docs[k].cache == before[k])
  }

  class Corpus {
    /** `self.docs`: the stored documents by key. */
    var docs: map<Key, Document>
    /** `self.words`: document frequencies by term. */
    var words: map<Term, nat>
    /** `self.index`: for each term, its weight in each indexed document. */
    var index: map<Term, map<Key, real>>

    /** The stored documents are long enough, none is stored twice, every
        cache is empty or keyed by its document's terms, and the index only
        mentions stored keys. */
    ghost predicate Valid()
      reads this, docs.Values
    {
      && Stored(docs)
      && (forall k :: k in docs ==> docs[k].CacheFits())
      && (forall w :: w in index ==> index[w].Keys <= docs.Keys)
    }

    /** Every term of every stored document has a weight. */
    ghost predicate Weighed()
      reads this, docs.Values
    {
      forall k :: k in docs ==> docs[k].cache.Keys == docs[k].tf.Keys
    }

    /** The index holds every stored document's cached weight under each of
        its terms. */
    ghost predicate IndexFinds()
      reads this, docs.Values
    {
      forall id, w :: id in docs && w in docs[id].tf ==>
        w in docs[id].cache && w in index && id in index[w] && index[w][id] == docs[id].cache[w]
    }

    /** An index built from the caches of weighed documents finds them all. */
    lemma IndexedFindsAll(start: map<Term, map<Key, real>>)
      requires Weighed() && index == Indexed(start, Weights())
      ensures IndexFinds()
    {
      forall id, w | id in docs && w in docs[id].tf
        ensures w in docs[id].cache && w in index && id in index[w] && index[w][id] == docs[id].cache[w]
      {
        assert Weights()[id] == docs[id].cache;
        IndexedFinds(start, Weights(), id, w);
      }
    }

    /** The current TF-IDF cache of every stored document. */
    ghost function Weights(): map<Key, map<Term, real>>
      reads this, docs.Values
    {
      map k | k in docs :: docs[k].cache
    }

    /** `W` is the cache map exactly when it has the stored keys and each
        document's cache. */
    lemma WeightsAre(W: map<Key, map<Term, real>>)
      requires W.Keys == docs.Keys
      requires forall k :: k in docs ==> docs[k].cache == W[k]
      ensures Weights() == W
    {
      assert Weights().Keys == W.Keys;
      forall k | k in W
        ensures Weights()[k] == W[k]
      {
      }
    }

    constructor()
      ensures Valid()
      ensures docs == map[] && words == map[] && index == map[]
    {
      docs := map[];
      words := map[];
      index := map[];
    }

    /** `load(key, document)`: tokenizes the text; a document with fewer
        than MIN_DOCUMENT_LENGTH distinct terms is dropped, any other is
        stored under `key` (replacing an earlier one) after the counts of
        its terms already in `words` are raised. */
    method Load(key: Key, text: string, stem: Term -> Term, stopwords: set<Term>)
      requires Valid()
      modifies this
      ensures Valid()
      ensures index == old(index)
      ensures |TermFrequencies(Tokenize(text, stem, stopwords))| < MIN_DOCUMENT_LENGTH ==>
                docs == old(docs) && words == old(words)
      ensures |TermFrequencies(Tokenize(text, stem, stopwords))| >= MIN_DOCUMENT_LENGTH ==>
                && key in docs
                && fresh(docs[key])
                && docs == old(docs)[key := docs[key]]
                && docs[key].text == text
                && docs[key].tf == TermFrequencies(Tokenize(text, stem, stopwords))
                && docs[key].cache == map[]
                && words == Bump(old(words), docs[key].tf.Keys)
    {
      var doc := new Document(text, stem, stopwords);
      if |doc.tf| < MIN_DOCUMENT_LENGTH {
        return;
      }
      CountTerms(doc.tf.Keys);
      StoredAdd(docs, key, doc);
      docs := docs[key := doc];
    }

    /** The loop of `load` over the new document's terms: a term already
        in `words` has its count raised by one. */
    method CountTerms(terms: set<Term>)
      modifies this
      ensures docs == old(docs) && index == old(index)
      ensures words == Bump(old(words), terms)
    {
      var rest := terms;
      while rest != {}
        invariant rest <= terms
        invariant words == Bump(old(words), terms - rest)
        invariant docs == old(docs) && index == old(index)
        decreases rest
      {
        var k :| k in rest;
        BumpStep(old(words), terms - rest, k);
        assert terms - (rest - {k}) == (terms - rest) + {k};
        if k in words {
          words := words[k := words[k] + 1];
        }
        rest := rest - {k};
      }
    }

    /** Progress of `create_index` over an index that was `start` and
        caches that were `before`: the documents in `done` carry refreshed
        caches, which are recorded in the index; the documents in `rest`
        are untouched. */
    ghost predicate Indexing(start: map<Term, map<Key, real>>, before: map<Key, map<Term, real>>,
                             done: map<Key, map<Term, real>>, rest: set<Key>, log: real -> real)
      reads this, docs.Values
    {
      Refreshed(docs, words, before, done, rest, log) && index == Indexed(start, done)
    }

    /** `create_index()`: takes every stored document's (cached) TF-IDF
        weights, computed against the current corpus, and writes each
        weight into `index[term][id]`. */
    method CreateIndex(log: real -> real)
      requires Valid()
      modifies this, docs.Values
      ensures Valid()
      ensures docs == old(docs) && words == old(words)
      ensures forall k :: k in docs ==>
                docs[k].cache == Cached(old(docs[k].cache), docs[k].tf, |docs|, words, log)
      ensures index == Indexed(old(index), Weights())
      ensures Weighed() && IndexFinds()
    {
      ghost var before := Weights();
      ghost var done: map<Key, map<Term, real>> := map[];
      IndexedNothing(index);
      var rest := docs.Keys;
      while rest != {}
        invariant docs == old(docs) && words == old(words)
        invariant Indexing(old(index), before, done, rest, log)
        decreases rest
      {
        Inhabited(rest);
        var id :| id in rest;
        done := IndexDocument(id, log, old(index), before, done, rest);
        rest := rest - {id};
      }
      assert done == Weights() by {
        assert done.Keys == Weights().Keys;
        forall k | k in done
          ensures done[k] == Weights()[k]
        {
        }
      }
      IndexedDocuments(old(index), done, docs.Keys);
      forall k | k in docs
        ensures docs[k].cache.Keys == docs[k].tf.Keys
      {
        assert old(docs[k].CacheFits());
        CachedFits(before[k], docs[k].tf, |docs|, words, log);
      }
      IndexedFindsAll(old(index));
    }

    /** One pass of the outer loop of `create_index`: the weights of the
        document stored under `id`, recorded in the index. */
    method IndexDocument(id: Key, log: real -> real, ghost start: map<Term, map<Key, real>>, ghost before: map<Key, map<Term, real>>,
                         ghost done: map<Key, map<Term, real>>, ghost rest: set<Key>)
      returns (ghost next: map<Key, map<Term, real>>)
      requires Stored(docs) && id in rest
      requires Indexing(start, before, done, rest, log)
      modifies this, docs[id]
      ensures docs == old(docs) && words == old(words)
      ensures Indexing(start, before, next, rest - {id}, log)
    {
      var doc := docs[id];
      var weights := doc.TfIdf(|docs|, words, log, true);
      next := done[id := weights];
      forall k | k in rest - {id}
        ensures docs[k].cache == before[k]
      {
        assert docs[k] != doc;
      }
      assert Refreshed(docs, words, before, next, rest - {id}, log);
      IndexedStep(start, done, id, weights);
      ghost var target := Post(Indexed(start, done), id, weights);
      Record(id, weights);
      assert index == target;
      assert Indexed(start, next) == target;
    }

    /** The inner loop of `create_index`: `index[word][id] = weight` for
        every term of one document's weights. */
    method Record(id: Key, weights: map<Term, real>)
      modifies this
      ensures docs == old(docs) && words == old(words)
      ensures index == Post(old(index), id, weights)
    {
      ghost var posted: map<Term, real> := map[];
      assert Post(index, id, posted) == index;
      var terms := weights.Keys;
      while terms != {}
        invariant terms <= weights.Keys
        invariant posted.Keys == weights.Keys - terms
        invariant forall w :: w in posted ==> posted[w] == weights[w]
        invariant docs == old(docs) && words == old(words)
        invariant index == Post(old(index), id, posted)
        decreases terms
      {
        var w :| w in terms;
        PostStep(old(index), id, posted, w, weights[w]);
        index := index[w := Lookup(index, w)[id := weights[w]]];
        posted := posted[w := weights[w]];
        terms := terms - {w};
      }
      assert posted == weights;
    }
  }
}
