/**
 * One record of the corpus (class `Document` of group_issues.py): its term
 * frequencies, its inverse document frequencies and its TF-IDF weights,
 * the latter cached in a field.
 *
 * Python floats become exact `real`s and `math.log` is the parameter `log`,
 * about which nothing is assumed. The corpus a document points back to is
 * represented by the two things `idf` reads from it: the number of stored
 * documents and the document-frequency map `words`.
 */
module Documents {
  import opened Tokenizer

  /** `ws.count(w)`. */
  function Count(ws: seq<Term>, w: Term): (n: nat)
    ensures n <= |ws|
    ensures n > 0 <==> w in ws
  {
    if ws == [] then 0 else (if ws[0] == w then 1 else 0) + Count(ws[1..], w)
  }

  /** `c / float(n)`. */
  function Ratio(c: nat, n: nat): real
    requires n > 0
  {
    c as real / n as real
  }

  /** The frequency map `Document.__init__` builds from the token list `ws`. */
  function TermFrequencies(ws: seq<Term>): map<Term, real> {
    map w | w in ws :: Ratio(Count(ws, w), |ws|)
  }

  /** `words.get(w, 0)`. */
  function DocFrequency(words: map<Term, nat>, w: Term): nat {
    if w in words then words[w] else 0
  }

  /** `num_docs / (1.0 + num_occurences)`. */
  function IdfArgument(numDocs: nat, occurrences: nat): real {
    numDocs as real / (1.0 + occurrences as real)
  }

  /** The inverse document frequency of term `w` in a corpus of `numDocs`
      documents with document frequencies `words`. */
  function InverseFrequency(numDocs: nat, words: map<Term, nat>, log: real -> real, w: Term): real {
    log(IdfArgument(numDocs, DocFrequency(words, w)))
  }

  /** The TF-IDF weight of term `w` of a document with frequencies `tf`. */
  function Weight(tf: map<Term, real>, numDocs: nat, words: map<Term, nat>, log: real -> real, w: Term): real
    requires w in tf
  {
    InverseFrequency(numDocs, words, log, w) * tf[w]
  }

  /** What `idf()` returns for a document with frequencies `tf`. */
  function IdfOf(tf: map<Term, real>, numDocs: nat, words: map<Term, nat>, log: real -> real): map<Term, real> {
    map w | w in tf :: InverseFrequency(numDocs, words, log, w)
  }

  /** What `tf_idf()` computes when it does not answer from its cache. */
  function TfIdfOf(tf: map<Term, real>, numDocs: nat, words: map<Term, nat>, log: real -> real): map<Term, real> {
    map w | w in tf :: Weight(tf, numDocs, words, log, w)
  }

  /** What `tf_idf(cached=True)` returns: a non-empty cache, else a fresh computation. */
  function Cached(cache: map<Term, real>, tf: map<Term, real>, numDocs: nat, words: map<Term, nat>, log: real -> real): map<Term, real> {
    if cache != map[] then cache else TfIdfOf(tf, numDocs, words, log)
  }

  lemma RatioBounds(c: nat, n: nat)
    requires 0 < c <= n
    ensures 0.0 < Ratio(c, n) <= 1.0
  {
    var r := c as real / n as real;
    assert r * n as real == c as real;
  }

  /** The frequency of a token is its number of occurrences over the number
      of tokens, and lies in (0, 1]. */
  lemma TermFrequencyAt(ws: seq<Term>, w: Term)
    requires w in TermFrequencies(ws)
    ensures w in ws && TermFrequencies(ws)[w] == Ratio(Count(ws, w), |ws|)
    ensures 0.0 < TermFrequencies(ws)[w] <= 1.0
  {
    RatioBounds(Count(ws, w), |ws|);
  }

  /** The keys of the frequency map are exactly the distinct tokens, and
      every frequency is occurrences over token count, in (0, 1]. */
  lemma TermFrequenciesMeaning(ws: seq<Term>)
    ensures TermFrequencies(ws).Keys == set w | w in ws
    ensures forall w :: w in TermFrequencies(ws) ==>
              TermFrequencies(ws)[w] == Ratio(Count(ws, w), |ws|) && 0.0 < TermFrequencies(ws)[w] <= 1.0
  {
    forall w | w in TermFrequencies(ws)
      ensures TermFrequencies(ws)[w] == Ratio(Count(ws, w), |ws|)
      ensures 0.0 < TermFrequencies(ws)[w] <= 1.0
    {
      TermFrequencyAt(ws, w);
    }
  }

  /** An empty token list gives an empty frequency map. */
  lemma TermFrequenciesOfNothing()
    ensures TermFrequencies([]) == map[]
  {
  }

  /** A weight is the idf of the term times its frequency, for exactly the
      terms of the document. */
  lemma TfIdfWeights(tf: map<Term, real>, numDocs: nat, words: map<Term, nat>, log: real -> real)
    ensures TfIdfOf(tf, numDocs, words, log).Keys == tf.Keys
    ensures forall w :: w in tf ==>
              TfIdfOf(tf, numDocs, words, log)[w]
              == log(IdfArgument(numDocs, DocFrequency(words, w))) * tf[w]
  {
  }

  /** The step `_tf_idf[word] = idf[word] * tf[word]` computes one weight of TfIdfOf. */
  lemma WeightFromIdf(idf: map<Term, real>, tf: map<Term, real>, numDocs: nat, words: map<Term, nat>, log: real -> real, w: Term)
    requires idf == IdfOf(tf, numDocs, words, log) && w in tf
    ensures idf[w] * tf[w] == TfIdfOf(tf, numDocs, words, log)[w]
  {
    var l := log(IdfArgument(numDocs, DocFrequency(words, w)));
    assert idf[w] == l;
    assert TfIdfOf(tf, numDocs, words, log)[w] == l * tf[w];
  }

  /** A term the corpus has never counted gets idf log(N / 1.0). */
  lemma IdfOfUncounted(tf: map<Term, real>, numDocs: nat, words: map<Term, nat>, log: real -> real, w: Term)
    requires w in tf && w !in words
    ensures IdfOf(tf, numDocs, words, log)[w] == log(numDocs as real)
  {
    assert IdfArgument(numDocs, 0) == numDocs as real;
  }

  /** A second cached call returns what the first returned. */
  lemma CachedIdempotent(cache: map<Term, real>, tf: map<Term, real>, numDocs: nat, words: map<Term, nat>, log: real -> real)
    ensures Cached(Cached(cache, tf, numDocs, words, log), tf, numDocs, words, log)
            == Cached(cache, tf, numDocs, words, log)
  {
  }

  /** A document with terms always has a non-empty cached weight map. */
  lemma CachedNonEmpty(cache: map<Term, real>, tf: map<Term, real>, numDocs: nat, words: map<Term, nat>, log: real -> real)
    requires tf != map[]
    ensures Cached(cache, tf, numDocs, words, log) != map[]
    ensures cache == map[] ==> Cached(cache, tf, numDocs, words, log).Keys == tf.Keys
  {
    var w :| w in tf;
    assert w in TfIdfOf(tf, numDocs, words, log);
  }

  /** The loop of `tf_idf()`: each term's weight is its idf times its frequency. */
  method Weigh(idf: map<Term, real>, tf: map<Term, real>, numDocs: nat, words: map<Term, nat>, log: real -> real)
    returns (m: map<Term, real>)
    requires idf == IdfOf(tf, numDocs, words, log)
    ensures m == TfIdfOf(tf, numDocs, words, log)
  {
    ghost var target := TfIdfOf(tf, numDocs, words, log);
    m := map[];
    var rest := tf.Keys;
    while rest != {}
      invariant rest <= tf.Keys
      invariant m.Keys == tf.Keys - rest
      invariant forall w :: w in m ==> m[w] == target[w]
      decreases rest
    {
      var w :| w in rest;
      WeightFromIdf(idf, tf, numDocs, words, log, w);
      m := m[w := idf[w] * tf[w]];
      rest := rest - {w};
    }
    assert m == target;
  }

  /** A cache that is empty or keyed by the document's terms stays so under a cached call. */
  lemma CachedFits(cache: map<Term, real>, tf: map<Term, real>, numDocs: nat, words: map<Term, nat>, log: real -> real)
    requires cache == map[] || cache.Keys == tf.Keys
    ensures Cached(cache, tf, numDocs, words, log).Keys == tf.Keys
  {
  }

  class Document {
    /** The raw text (`self.document`). */
    const text: string
    /** Term frequencies (`self.tf`), fixed at construction. */
    const tf: map<Term, real>
    /** The TF-IDF cache (`self._tf_idf`); None and {} are both falsy in
        Python, so both are the empty map here. */
    var cache: map<Term, real>

    /** Only `tf_idf` writes the cache, so it is empty or has the keys of `tf`. */
    ghost predicate CacheFits()
      reads this
    {
      cache == map[] || cache.Keys == tf.Keys
    }

    constructor(text: string, stem: Term -> Term, stopwords: set<Term>)
      ensures this.text == text
      ensures tf == TermFrequencies(Tokenize(text, stem, stopwords))
      ensures cache == map[]
      ensures CacheFits()
    {
      var words := Tokenize(text, stem, stopwords);
      var m: map<Term, real> := map[];
      var rest := set w | w in words;
      while rest != {}
        invariant rest <= set w | w in words
        invariant m.Keys == (set w | w in words) - rest
        invariant forall w :: w in m ==> |words| > 0 && m[w] == Ratio(Count(words, w), |words|)
        decreases rest
      {
        var w :| w in rest;
        m := m[w := Count(words, w) as real / |words| as real];
        rest := rest - {w};
      }
      assert m == TermFrequencies(words);
      this.text := text;
      tf := m;
      cache := map[];
    }

    /** `idf(cached)`: the `cached` flag is ignored, as in the source. */
    method Idf(numDocs: nat, words: map<Term, nat>, log: real -> real, cached: bool) returns (idf: map<Term, real>)
      ensures idf == IdfOf(tf, numDocs, words, log)
    {
      idf := map[];
      var rest := tf.Keys;
      while rest != {}
        invariant rest <= tf.Keys
        invariant idf.Keys == tf.Keys - rest
        invariant forall w :: w in idf ==> idf[w] == log(IdfArgument(numDocs, DocFrequency(words, w)))
        decreases rest
      {
        var w :| w in rest;
        var occurrences := if w in words then words[w] else 0;
        idf := idf[w := log(numDocs as real / (1.0 + occurrences as real))];
        rest := rest - {w};
      }
    }

    /** `tf_idf(cached)`: answers from a non-empty cache when `cached` is
        set, otherwise recomputes the weights into the cache. */
    method TfIdf(numDocs: nat, words: map<Term, nat>, log: real -> real, cached: bool) returns (weights: map<Term, real>)
      modifies this
      ensures weights == cache
      ensures cached ==> cache == Cached(old(cache), tf, numDocs, words, log)
      ensures !cached ==> cache == TfIdfOf(tf, numDocs, words, log)
    {
      if cache != map[] && cached {
        return cache;
      }
      cache := map[];
      var idf := Idf(numDocs, words, log, true);
      cache := Weigh(idf, tf, numDocs, words, log);
      weights := cache;
    }
  }
}
