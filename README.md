# group_issues: TF-IDF index and star clustering, modelled in Dafny

`group_issues.py` groups short support messages by textual similarity. It has
four parts:

- `tokenize` lower-cases a message, splits it on whitespace, strips edge
  punctuation, drops stopwords and stems what is left.
- A `Document` holds the term frequencies of one message, its inverse
  document frequencies (`idf`) and its TF-IDF weights (`tf_idf`). The
  weights are cached in `_tf_idf`.
- A `Corpus` stores the documents that have at least `MIN_DOCUMENT_LENGTH`
  (3) distinct terms (`load`). It keeps document-frequency counts `words`
  and builds an inverted index from each term to that term's weight in each
  document (`create_index`).
- `cluster` makes one greedy "star" pass over the documents:
  - every document not yet seen becomes an anchor;
  - every unseen document scoring at least `SIM_THRESHOLD` (5) against the
    anchor joins the anchor's group, and the group's members are marked seen;
  - the score is the sum, over the anchor's terms, of the anchor's weight
    times the candidate's weight.

  The groups come back largest first.

The model has four modules, one per part:

- `Tokenizer` (tokenize.dfy) holds pure functions and lemmas.
- `Documents` (document.dfy) holds class `Document`, with its constant `tf`
  and a mutable `cache`.
- `Corpora` (corpus.dfy) holds class `Corpus`, with mutable `docs`, `words`
  and `index`.
- `Clustering` (cluster.dfy) holds `Cluster` and the pieces of its loop.

Each loop of the source is a method. Its `while` loop is proved against a
specification function: `TermFrequencies`, `IdfOf`, `TfIdfOf`, `Bump`,
`Indexed` and `Post`, `Score` and `Members`, and `Star`/`Visit` for the whole
pass. The properties of those functions are proved as lemmas. Some nested
loops are split into one method per level:
- `Load` calls `CountTerms`;
- `CreateIndex` calls `IndexDocument`, which calls `Record`;
- `Cluster` calls `GroupDocuments`, then `Pass`, then `VisitDocument`, then
  `Anchor`, then `AnchorScores`, then `AddMatches`;
- the listing and sort are `Items` and `SortBySize` inside `Sorted`.

The main results:

- **Tokenization.** A term is emitted exactly when some whitespace-separated
  word, stripped, is not a stopword and stems to it; the terms follow the
  order of the words. Splitting keeps every non-whitespace character in
  order, yields only non-empty words without whitespace, and inverts joining
  by single spaces.
- **Term frequencies.** The keys of `tf` are exactly the distinct tokens, and
  each value is occurrences over token count, in (0, 1]. No tokens gives an
  empty `tf`.
- **Weights.** The TF-IDF weights have the keys of `tf` and the value
  `log(N / (1 + df)) * tf`. A non-empty cache is returned unchanged by a
  cached call, and a second cached call returns what the first did.
- **Loading.** `load` drops short documents and changes nothing for them.
  Otherwise it stores a fresh document under `key` and touches no other key.
  It raises counts in `words` only at terms already counted, so `words` never
  gains a key and no count goes down.
- **Indexing.** After `create_index`, every weight of every stored document
  is found under its term and key. Postings that no document overwrites keep
  their old weight. Every posting names a stored document. A document's
  cache is only ever empty or keyed by its terms. So after `create_index`
  every stored document has a weight for each of its terms, and
  `index[w][id]` is that weight for every term `w` of document `id`.
- **Clustering.** For every iteration order that covers the documents:
  - the anchors and the group members together are exactly the stored keys;
  - no anchor is a member of any group, and no document is in two groups;
  - every member's recorded score is its full score against its anchor, and
    that score is at least `SIM_THRESHOLD`;
  - the result lists each (anchor, group) pair once, by member count, largest
    first.

Where the code and the documented intent differ, the model follows the
code:
- `load` increments `words[k]` only when `k` is already a key, and nothing
  ever adds a key. So `words` stays empty (`Corpora.BumpEmpty`) and every idf
  is `log(N / 1.0)` (`Documents.IdfOfUncounted`). The intent was a count of
  the documents containing each term.
- The clustering pass visits the documents in dictionary iteration order, not
  in a fixed order.
- The final sort is stable. Groups of equal size therefore keep the order in
  which `scores.iteritems()` lists them (group_issues.py:112), which is
  dictionary order of `scores`, not the order of the pass. They are not
  ordered by anchor key.

## Model

| member | source | states |
|---|---|---|
| Tokenizer.Tokenize | group_issues.py:17-21 | `tokenize`: the terms of the words `split()` finds in the lower-cased text |
| Tokenizer.Split | group_issues.py:20 | `str.split()`: skip leading whitespace, take the longest run without whitespace as a word, repeat on the rest |
| Tokenizer.StripLeft | group_issues.py:19-20 | drops the strip characters `\ . ! ? , ( ) { } [ ] " '` from the front of a word |
| Tokenizer.StripRight | group_issues.py:19-20 | drops the strip characters from the back of a word |
| Tokenizer.Strip | group_issues.py:19-20 | `c.strip(strips)`: both edges stripped |
| Tokenizer.WordTerms | group_issues.py:20-21 | what one word contributes: nothing when its stripped form is a stopword, else the stem of its stripped form |
| Tokenizer.Lower | group_issues.py:20 | same length as the input, each character is its ASCII lower-case form, and no upper-case ASCII letter is left |
| Tokenizer.SplitWords | group_issues.py:20 | every word `split()` returns is non-empty and free of whitespace |
| Tokenizer.SplitKeepsText | group_issues.py:20 | the words, concatenated, are the non-whitespace characters of the text in their original order |
| Tokenizer.SplitJoinWords | group_issues.py:20 | splitting whitespace-free words joined by single spaces gives back exactly those words |
| Tokenizer.StripLeftRemoves | group_issues.py:19-20 | left stripping keeps a suffix that does not start with a strip character, and every character removed is a strip character |
| Tokenizer.StripRightRemoves | group_issues.py:19-20 | right stripping keeps a prefix that does not end with a strip character, and every character removed is a strip character |
| Tokenizer.StripSlice | group_issues.py:19-20 | `strip` returns the slice `w[i..j]` left after removing the longest prefix and suffix of strip characters |
| Tokenizer.Terms | group_issues.py:20-21 | each word contributes at most one term |
| Tokenizer.TermsAppend | group_issues.py:20-21 | the terms of two runs of words are the terms of the first followed by those of the second (output follows input order) |
| Tokenizer.TermsWitness | group_issues.py:20-21 | every emitted term comes from a word whose stripped form is not a stopword and stems to it |
| Tokenizer.TermsEmitted | group_issues.py:20-21 | every word whose stripped form is not a stopword has its stem emitted |
| Tokenizer.TermsMembers | group_issues.py:20-21 | a term is emitted if and only if some word, stripped, is not a stopword and stems to it |
| Tokenizer.TermsEmpty | group_issues.py:20-21 | no term is emitted if and only if every word strips to a stopword |
| Documents.TermFrequencies | group_issues.py:31-33 | the frequency map of a token list: each distinct token to its count over the list length |
| Documents.IdfOf | group_issues.py:40-44 | `idf()`: each term of `tf` to `log(N / (1 + words.get(w, 0)))` |
| Documents.TfIdfOf | group_issues.py:53-55 | the fresh weights of `tf_idf()`: each term of `tf` to its idf times its frequency |
| Documents.Cached | group_issues.py:49-55 | `tf_idf(cached=True)`: a non-empty cache, else the fresh weights |
| Documents.Count | group_issues.py:33 | `words.count(w)` is at most the list length and positive exactly when `w` occurs |
| Documents.TermFrequenciesMeaning | group_issues.py:31-33 | the keys of `tf` are exactly the distinct tokens, and each value is occurrences over token count, in (0, 1] |
| Documents.TermFrequencyAt | group_issues.py:32-33 | one key of `tf` is a token, with frequency occurrences over token count, in (0, 1] |
| Documents.TermFrequenciesOfNothing | group_issues.py:31-33 | no tokens gives an empty `tf` (the division never happens) |
| Documents.Document.constructor | group_issues.py:26-33 | keeps the text, the term frequencies of its tokens, and an empty cache |
| Documents.Document.Idf | group_issues.py:38-46 | returns `log(N / (1 + words.get(w, 0)))` for exactly the terms of `tf`, whatever `cached` is |
| Documents.IdfOfUncounted | group_issues.py:43-44 | a term absent from `words` gets idf `log(N)` |
| Documents.TfIdfWeights | group_issues.py:53-55 | the weights have the keys of `tf`, and each is the term's idf times its frequency |
| Documents.WeightFromIdf | group_issues.py:55 | `idf[w] * tf[w]` is the weight of `w` |
| Documents.Weigh | group_issues.py:54-55 | the loop builds exactly the weight map of the document |
| Documents.Document.TfIdf | group_issues.py:48-57 | a cached call with a non-empty cache returns it unchanged; otherwise the weights are recomputed, stored in the cache and returned |
| Documents.CachedIdempotent | group_issues.py:49-50 | a second cached call returns what the first returned |
| Documents.CachedFits | group_issues.py:49-55 | when the cache is empty or keyed by the terms of `tf` (the only maps `tf_idf` stores), a cached call returns a map keyed by exactly the terms of `tf` |
| Documents.CachedNonEmpty | group_issues.py:49-55 | a document with terms has a non-empty weight map after a cached call, with the keys of `tf` when it was computed fresh |
| Corpora.Bump | group_issues.py:76-78 | `words` after the count update: each counted term of the document goes up by one, and nothing is added |
| Corpora.Indexed | group_issues.py:84-86 | the index after recording documents' weights: every term of the old index or of a weight map, with its old postings overwritten by the recorded weights |
| Corpora.Post | group_issues.py:85-86 | the index after `index[w][id] = weight` for every term `w` of one document's weights |
| Corpora.Corpus.constructor | group_issues.py:64-67 | a new corpus has no documents, no counts and an empty index |
| Corpora.BumpMonotone | group_issues.py:76-78 | the count update never adds a key to `words`, and raises each count by at most one |
| Corpora.BumpEmpty | group_issues.py:76-78 | starting from an empty `words`, the count update leaves it empty |
| Corpora.Corpus.CountTerms | group_issues.py:76-78 | the loop raises by one the count of every term of the document already in `words`, and changes nothing else |
| Corpora.Corpus.Load | group_issues.py:69-80 | below MIN_DOCUMENT_LENGTH distinct terms nothing changes; otherwise a fresh document with the text's term frequencies and an empty cache replaces `docs[key]`, no other key changes, and `words` gets the count update |
| Corpora.StoredAdd | group_issues.py:73-80 | storing a document with enough terms keeps every stored document long enough |
| Corpora.IndexedNothing | group_issues.py:84-86 | recording no documents leaves the index as it was |
| Corpora.IndexedStep | group_issues.py:84-86 | recording documents one after another is the same as recording them all at once |
| Corpora.IndexedFinds | group_issues.py:84-86 | after indexing, every weight of every recorded document is at `index[term][id]` |
| Corpora.IndexedKeeps | group_issues.py:84-86 | indexing never removes a posting, and a posting that no document overwrites keeps its weight |
| Corpora.IndexedFrom | group_issues.py:84-86 | every posting of the new index is an old posting or a recorded weight |
| Corpora.IndexedDocuments | group_issues.py:84-86 | when the old index and the recorded documents name only stored keys, so does the new index |
| Corpora.Corpus.Record | group_issues.py:85-86 | the inner loop writes `index[w][id]` for every term of one document's weights and nothing else |
| Corpora.Corpus.IndexDocument | group_issues.py:84-86 | one document's weights, from its cache or freshly computed, are recorded in the index |
| Corpora.Corpus.IndexedFindsAll | group_issues.py:84-86 | when every stored cache is keyed by its document's terms, an index built from the caches holds `index[w][id] == docs[id].tf_idf()[w]` for every stored `id` and every term `w` of its `tf` |
| Corpora.Corpus.CreateIndex | group_issues.py:82-86 | every document's cache becomes its cached-call result, keyed by exactly its terms; the index becomes the old index with every document's weights recorded, and `index[w][id]` is the weight of every term `w` of every stored document `id` |
| Clustering.Contribution | group_issues.py:99-106 | what one term of the anchor adds to a candidate's score: anchor weight times candidate weight, when the candidate is posted under the term |
| Clustering.Score | group_issues.py:99-106 | the sum of the contributions of a set of the anchor's terms to a candidate's score |
| Clustering.Truthy | group_issues.py:94 | the keys `seen.get(k)` treats as seen: those with a non-zero value |
| Clustering.Candidates | group_issues.py:99-106 | the unseen documents posted under some term of the anchor, which are the keys `scores[key]` gets |
| Clustering.Members | group_issues.py:99-109 | an anchor's group: each candidate whose full score reaches SIM_THRESHOLD, with that score |
| Clustering.Visit | group_issues.py:93-110 | one iteration of the pass: a seen key changes nothing; an unseen key is marked seen, gets its group, and its members are marked seen |
| Clustering.Star | group_issues.py:93-110 | the pass: Visit applied to each key of the order in turn, from no seen keys and no groups |
| Clustering.ScoreRemove | group_issues.py:99-106 | the score adds up the contributions of the anchor's terms in any order |
| Clustering.ScoreStep | group_issues.py:99-106 | accumulating one more term adds exactly that term's contribution |
| Clustering.ScoreZero | group_issues.py:99-106 | a document that shares no weighted term scores 0 |
| Clustering.TruthyAll | group_issues.py:94-96 | with every `seen` value at least 1, `seen.get(k)` is truthy for exactly the keys of `seen` |
| Clustering.AddMatches | group_issues.py:103-106 | every unseen document posted under the term gains anchor weight times its own weight; seen documents are skipped |
| Clustering.AnchorScores | group_issues.py:97-106 | the accumulated scores cover exactly the unseen documents that share a term with the anchor, each with its full score |
| Clustering.Anchor | group_issues.py:99-109 | an anchor's group is every unseen candidate whose score reaches SIM_THRESHOLD, with that score; the cached weights are unchanged |
| Clustering.MembersAreCandidates | group_issues.py:103-109 | group members were unseen and are indexed documents |
| Clustering.AddGroupApart | group_issues.py:96-110 | a new anchor whose members were all unseen keeps anchors out of groups and groups disjoint |
| Clustering.AddGroupScored | group_issues.py:108-110 | adding a group whose members meet the threshold with their full scores keeps that true of all groups |
| Clustering.AddGroupInv | group_issues.py:96-110 | adding a new group keeps `seen` equal to the anchors plus the members, the groups apart and the scores right |
| Clustering.VisitInv | group_issues.py:93-110 | one iteration keeps the invariant and leaves its key seen |
| Clustering.VisitDocument | group_issues.py:93-110 | one iteration is one Visit step: a seen key is skipped; an unseen key becomes an anchor with its group, and its group's members become seen |
| Clustering.StarInv | group_issues.py:93-110 | the whole pass keeps the invariant, and every key of the order ends up seen |
| Clustering.StarPartition | group_issues.py:93-110 | when the order covers the stored keys, the anchors and members are exactly those keys, apart, and every member meets the threshold with its full score |
| Clustering.Pass | group_issues.py:93-110 | the loop computes the groups of the Star pass over `order`, and the caches are unchanged |
| Clustering.Items | group_issues.py:112 | the listing of `scores` holds each (anchor, group) pair once |
| Clustering.ListedPermutation | group_issues.py:112-113 | any rearrangement of the listing still lists each pair once |
| Clustering.Insert | group_issues.py:112-113 | one step of the stable sort: puts a group before the first group that is not larger |
| Clustering.InsertMultiset | group_issues.py:112-113 | inserting adds exactly the new group |
| Clustering.InsertSorted | group_issues.py:112-113 | inserting into a list with non-increasing sizes keeps it non-increasing |
| Clustering.SortBySize | group_issues.py:112-113 | the sorted list is a permutation of the input, with member counts non-increasing |
| Clustering.Sorted | group_issues.py:112-113 | the result lists each (anchor, group) pair once, largest group first |
| Clustering.GroupDocuments | group_issues.py:93-113 | with every cache filled, the listed groups are the Star pass over `order`, sorted, partitioning the stored keys and scored |
| Clustering.Cluster | group_issues.py:89-113 | builds the index, leaves documents and counts alone, and returns each group of the pass once, largest first; the groups partition the stored keys, and every member scores at least SIM_THRESHOLD against its anchor; afterwards every cache is keyed by its document's terms and the index holds each of those weights |

## Left out

- `group_support_issues` and the `__main__` block (group_issues.py:115-137) read a CSV file and print a report. That is I/O.
- `Document.__repr__` (group_issues.py:35-36) is presentation only.
- `stemming.porter2.stem` and `search.STOPWORDS` are foreign code. They are the parameters `stem` and `stopwords`. `stopwords` stands for the keys of `STOPWORDS` whose value is not `None`.
- `math.log` is the parameter `log`, and nothing is assumed about it. In particular, `math.log(0.0)` raises `ValueError` in Python. `idf` reaches that when the corpus has no documents and `tf` is not empty (group_issues.py:40,44). `Idf` and `IdfOf` return `log(0.0)` there instead. `create_index` and `cluster` never get there, because they weigh only stored documents, so N is at least 1.
- Python floats are exact `real`s, so no rounding is modelled. In particular, the score sum does not depend on the order of the terms, which is not true of floats.
- `str.lower()` is modelled for ASCII letters only, with no locale rules. `split()` uses Python 2's whitespace for byte strings: space and characters 9-13.
- A document's back-pointer to its corpus is replaced by what `idf` reads through it: the number of stored documents and `words`.
- Python 2 dictionary iteration order is not modelled. `Cluster` takes an explicit `order` that covers the stored keys, and every property holds for every such order. The inner loops over sets of keys pick arbitrarily (`:|`), and the maps they build do not depend on the picks. The listing of `scores` (`Items`) also picks arbitrarily, as `scores.iteritems()` does. So the order of its list, and hence the order of equal-sized groups after the stable sort, is arbitrary; only `Listed` and `NonIncreasing` hold whatever the picks.
- The dead local `index = {}` of `create_index` (group_issues.py:83) is not modelled.
- `Documents.Document.TfIdf` builds the weights in a local map and then assigns the cache once. The source writes `_tf_idf` entry by entry. Nothing can observe the intermediate state.
- `Documents.Document.TfIdf`: its ensures equate the result to `Cached(...)` or `TfIdfOf(...)`. That a result is keyed by exactly the terms of `tf` is stated about those functions instead, by `CachedFits` and `TfIdfWeights`. Corpus-level facts close the chain: `Valid` holds the invariant that every cache fits its document, and `CreateIndex` and `Cluster` ensure `Weighed`. A keys equation in TfIdf's own ensures made the proofs of its callers too expensive for the verifier.
- `Clustering.SortBySize` is stable, like Python's `sorted` with `reverse=True`: equal-sized groups keep their listing order. Its contract states only the permutation and the non-increasing sizes, not the stability.
- `Clustering.Cluster` requires `Valid()` of the corpus: stored documents have at least MIN_DOCUMENT_LENGTH terms, no document object is stored twice, every cache is empty or keyed by its document's terms, and the index names only stored keys. The constructor establishes it and `Load` keeps it, so every corpus the source builds meets it.
