/**
 * The greedy "star" clustering pass of group_issues.py (`cluster`): every
 * document not yet seen becomes an anchor, and every unseen document whose
 * score against it reaches SIM_THRESHOLD becomes one of its members.
 *
 * The order in which Python 2 iterates over `corpus.docs` is arbitrary; it
 * is the parameter `order` here, and every property holds for every order.
 */
module Clustering {
  import opened Tokenizer
  import opened Documents
  import opened Corpora

  /** A candidate joins the anchor's group when its score reaches this. */
  const SIM_THRESHOLD: real := 5.0

  /** The inverted index: for each term, its weight in each document. */
  type Index = map<Term, map<Key, real>>

  /** One entry of the list `cluster` returns: an anchor and its members,
      each with its score. */
  datatype Group = Group(anchor: Key, members: map<Key, real>)

  /** What the anchor's term `w` adds to the score of document `c`: the
      anchor's weight times the document's weight, when both have it. */
  function Contribution(weights: map<Term, real>, index: Index, c: Key, w: Term): real {
    if w in weights && w in index && c in index[w] then weights[w] * index[w][c] else 0.0
  }

  ghost function PickTerm(s: set<Term>): (w: Term)
    requires s != {}
    ensures w in s
  {
    var w :| w in s; w
  }

  /** The score of document `c` against an anchor with weights `weights`:
      the contributions of all `terms`, summed. */
  ghost function Score(weights: map<Term, real>, index: Index, c: Key, terms: set<Term>): real
    decreases terms
  {
    if terms == {} then 0.0
    else
      var w := PickTerm(terms);
      Contribution(weights, index, c, w) + Score(weights, index, c, terms - {w})
  }

  /** The score splits off any one of its terms. */
  lemma {:induction false} ScoreRemove(weights: map<Term, real>, index: Index, c: Key, terms: set<Term>, w: Term)
    requires w in terms
    ensures Score(weights, index, c, terms) == Contribution(weights, index, c, w) + Score(weights, index, c, terms - {w})
    decreases terms
  {
    var v := PickTerm(terms);
    if v != w {
      ScoreRemove(weights, index, c, terms - {v}, w);
      ScoreRemove(weights, index, c, terms - {w}, v);
      assert terms - {v} - {w} == terms - {w} - {v};
    }
  }

  /** A document none of whose terms contribute scores 0. */
  lemma {:induction false} ScoreZero(weights: map<Term, real>, index: Index, c: Key, terms: set<Term>)
    requires forall w :: w in terms ==> Contribution(weights, index, c, w) == 0.0
    ensures Score(weights, index, c, terms) == 0.0
    decreases terms
  {
    if terms != {} {
      ScoreZero(weights, index, c, terms - {PickTerm(terms)});
    }
  }

  /** Adding one term to the summed terms adds its contribution. */
  lemma ScoreStep(weights: map<Term, real>, index: Index, c: Key, terms: set<Term>, w: Term)
    requires w !in terms
    ensures Score(weights, index, c, terms + {w}) == Score(weights, index, c, terms) + Contribution(weights, index, c, w)
  {
    ScoreRemove(weights, index, c, terms + {w}, w);
    assert terms + {w} - {w} == terms;
  }

  /** The keys a Python `seen` dict marks as seen: those with a truthy value. */
  function Truthy(seen: map<Key, real>): set<Key> {
    set k | k in seen && seen[k] != 0.0
  }

  /** A `seen` dict whose values are all at least 1 marks all its keys. */
  lemma TruthyAll(seen: map<Key, real>)
    requires forall k :: k in seen ==> seen[k] >= 1.0
    ensures Truthy(seen) == seen.Keys
  {
    forall k | k in seen
      ensures k in Truthy(seen)
    {
      assert seen[k] != 0.0;
    }
  }

  /** The documents outside `seen` that share one of `terms` with the anchor. */
  function Candidates(weights: map<Term, real>, index: Index, seen: set<Key>, terms: set<Term>): set<Key> {
    set w, c | w in terms && w in weights && w in index && c in index[w] && c !in seen :: c
  }

  /** The group of an anchor with weights `weights` when `seen` is already
      taken: every candidate that scores at least SIM_THRESHOLD, with its score. */
  ghost function Members(weights: map<Term, real>, index: Index, seen: set<Key>): map<Key, real> {
    map c | c in Candidates(weights, index, seen, weights.Keys) && Score(weights, index, c, weights.Keys) >= SIM_THRESHOLD
      :: Score(weights, index, c, weights.Keys)
  }

  /** The state of the pass: the documents seen and the groups so far. */
  datatype Progress = Progress(seen: set<Key>, scores: map<Key, map<Key, real>>)

  /** One step of the pass, for document `key` with cached weights `W[key]`. */
  ghost function Visit(W: map<Key, map<Term, real>>, index: Index, p: Progress, key: Key): Progress
    requires key in W
  {
    if key in p.seen then p
    else
      var m := Members(W[key], index, p.seen + {key});
      Progress(p.seen + {key} + m.Keys, p.scores[key := m])
  }

  /** The pass over the documents in `order`. */
  ghost function Star(W: map<Key, map<Term, real>>, index: Index, order: seq<Key>): Progress
    requires forall i :: 0 <= i < |order| ==> order[i] in W
  {
    if order == [] then Progress({}, map[])
    else Visit(W, index, Star(W, index, order[..|order| - 1]), order[|order| - 1])
  }

  /** Every member of any group. */
  function MemberSet(scores: map<Key, map<Key, real>>): set<Key> {
    set a, c | a in scores && c in scores[a] :: c
  }

  /** No anchor is a member (of its own group or another), and no key is a
      member of two groups. */
  ghost predicate Apart(scores: map<Key, map<Key, real>>) {
    && (forall a, c :: a in scores && c in scores[a] ==> c !in scores)
    && (forall a, b, c :: a in scores && b in scores && c in scores[a] && c in scores[b] ==> a == b)
  }

  /** The groups split `keys`: every key is an anchor or a member, and the
      groups are apart. */
  ghost predicate Partition(scores: map<Key, map<Key, real>>, keys: set<Key>) {
    scores.Keys + MemberSet(scores) == keys && Apart(scores)
  }

  /** Every member of every group scores at least SIM_THRESHOLD, and its
      score is its score against the anchor. */
  ghost predicate Scored(W: map<Key, map<Term, real>>, index: Index, scores: map<Key, map<Key, real>>) {
    forall a, c :: a in scores && c in scores[a] ==>
      && a in W
      && scores[a][c] >= SIM_THRESHOLD
      && scores[a][c] == Score(W[a], index, c, W[a].Keys)
  }

  /** What holds after every step of the pass, inside the key universe `keys`. */
  ghost predicate PassInv(W: map<Key, map<Term, real>>, index: Index, p: Progress, keys: set<Key>) {
    && p.seen == p.scores.Keys + MemberSet(p.scores)
    && p.seen <= keys
    && Apart(p.scores)
    && Scored(W, index, p.scores)
  }

  lemma MemberSetAdd(scores: map<Key, map<Key, real>>, key: Key, m: map<Key, real>)
    requires key !in scores
    ensures MemberSet(scores[key := m]) == MemberSet(scores) + m.Keys
  {
    var s := scores[key := m];
    forall c | c in MemberSet(s)
      ensures c in MemberSet(scores) + m.Keys
    {
      var a :| a in s && c in s[a];
      if a != key {
        assert a in scores && c in scores[a];
      }
    }
    forall c | c in MemberSet(scores) + m.Keys
      ensures c in MemberSet(s)
    {
      if c in m {
        assert key in s && c in s[key];
      } else {
        var a :| a in scores && c in scores[a];
        assert a in s && c in s[a];
      }
    }
  }

  /** Members are candidates, so unseen and posted in the index. */
  lemma MembersAreCandidates(weights: map<Term, real>, index: Index, seen: set<Key>, keys: set<Key>)
    requires forall w :: w in index ==> index[w].Keys <= keys
    ensures forall c :: c in Members(weights, index, seen) ==> c !in seen && c in keys
  {
    forall c | c in Members(weights, index, seen)
      ensures c !in seen && c in keys
    {
      var w :| w in weights.Keys && w in weights && w in index && c in index[w] && c !in seen;
    }
  }

  /** Adding the group `m` of a new anchor `key`, made of keys not seen
      before, keeps anchors out of groups and groups apart. */
  lemma AddGroupApart(scores: map<Key, map<Key, real>>, seen: set<Key>, key: Key, m: map<Key, real>)
    requires seen == scores.Keys + MemberSet(scores) && Apart(scores)
    requires key !in seen
    requires forall c :: c in m ==> c !in seen && c != key
    ensures Apart(scores[key := m])
  {
    var s := scores[key := m];
    forall a, c | a in s && c in s[a]
      ensures c !in s
    {
      if a != key {
        assert c in seen;
      }
    }
    forall a, b, c | a in s && b in s && c in s[a] && c in s[b]
      ensures a == b
    {
      if a != key && b != key {
      } else if a != b {
        assert false;
      }
    }
  }

  /** Adding a group whose scores are right keeps every score right. */
  lemma AddGroupScored(W: map<Key, map<Term, real>>, index: Index, scores: map<Key, map<Key, real>>, key: Key, m: map<Key, real>)
    requires Scored(W, index, scores) && key in W
    requires forall c :: c in m ==> m[c] >= SIM_THRESHOLD && m[c] == Score(W[key], index, c, W[key].Keys)
    ensures Scored(W, index, scores[key := m])
  {
    var s := scores[key := m];
    forall a, c | a in s && c in s[a]
      ensures a in W && s[a][c] >= SIM_THRESHOLD && s[a][c] == Score(W[a], index, c, W[a].Keys)
    {
      if a != key {
        assert c in scores[a];
      }
    }
  }

  /** Adding the group `m` of a new anchor `key`, made of keys not seen
      before, keeps the invariant. */
  lemma AddGroupInv(W: map<Key, map<Term, real>>, index: Index, p: Progress, key: Key, m: map<Key, real>, keys: set<Key>)
    requires PassInv(W, index, p, keys)
    requires key in W && key in keys && key !in p.seen
    requires forall c :: c in m ==> c !in p.seen && c != key && c in keys
    requires forall c :: c in m ==> m[c] >= SIM_THRESHOLD && m[c] == Score(W[key], index, c, W[key].Keys)
    ensures PassInv(W, index, Progress(p.seen + {key} + m.Keys, p.scores[key := m]), keys)
  {
    MemberSetAdd(p.scores, key, m);
    AddGroupApart(p.scores, p.seen, key, m);
    AddGroupScored(W, index, p.scores, key, m);
  }

  /** One step keeps the invariant and marks the visited key. */
  lemma VisitInv(W: map<Key, map<Term, real>>, index: Index, p: Progress, key: Key, keys: set<Key>)
    requires key in W && key in keys
    requires forall w :: w in index ==> index[w].Keys <= keys
    requires PassInv(W, index, p, keys)
    ensures PassInv(W, index, Visit(W, index, p, key), keys)
    ensures key in Visit(W, index, p, key).seen && p.seen <= Visit(W, index, p, key).seen
  {
    if key !in p.seen {
      var m := Members(W[key], index, p.seen + {key});
      MembersAreCandidates(W[key], index, p.seen + {key}, keys);
      AddGroupInv(W, index, p, key, m, keys);
    }
  }

  /** The pass keeps the invariant, and every key of the order ends up seen. */
  lemma {:induction false} StarInv(W: map<Key, map<Term, real>>, index: Index, order: seq<Key>, keys: set<Key>)
    requires forall i :: 0 <= i < |order| ==> order[i] in W && order[i] in keys
    requires forall w :: w in index ==> index[w].Keys <= keys
    ensures PassInv(W, index, Star(W, index, order), keys)
    ensures forall i :: 0 <= i < |order| ==> order[i] in Star(W, index, order).seen
  {
    if order != [] {
      var init := order[..|order| - 1];
      StarInv(W, index, init, keys);
      VisitInv(W, index, Star(W, index, init), order[|order| - 1], keys);
      forall i | 0 <= i < |order|
        ensures order[i] in Star(W, index, order).seen
      {
        if i < |order| - 1 {
          assert order[i] == init[i];
        }
      }
    }
  }

  /** When the order covers the keys, the pass partitions them. */
  lemma StarPartition(W: map<Key, map<Term, real>>, index: Index, order: seq<Key>, keys: set<Key>)
    requires forall i :: 0 <= i < |order| ==> order[i] in W && order[i] in keys
    requires forall k :: k in keys ==> k in order
    requires forall w :: w in index ==> index[w].Keys <= keys
    ensures Partition(Star(W, index, order).scores, keys)
    ensures Scored(W, index, Star(W, index, order).scores)
  {
    StarInv(W, index, order, keys);
    var p := Star(W, index, order);
    forall k | k in keys
      ensures k in p.seen
    {
      var i :| 0 <= i < |order| && order[i] == k;
    }
    assert p.seen == keys;
  }

  /** The list holds exactly one entry per anchor, with its group. */
  ghost predicate Listed(groups: seq<Group>, scores: map<Key, map<Key, real>>) {
    && |groups| == |scores|
    && (forall g :: g in groups <==> g.anchor in scores && g.members == scores[g.anchor])
  }

  /** Group sizes never increase along the list. */
  predicate NonIncreasing(groups: seq<Group>) {
    forall i, j :: 0 <= i < j < |groups| ==> |groups[i].members| >= |groups[j].members|
  }

  /** A rearrangement of a listing is a listing. */
  lemma ListedPermutation(a: seq<Group>, b: seq<Group>, scores: map<Key, map<Key, real>>)
    requires Listed(a, scores) && multiset(a) == multiset(b)
    ensures Listed(b, scores)
  {
    assert |a| == |multiset(a)| == |multiset(b)| == |b|;
    forall g
      ensures g in b <==> g in a
    {
      assert g in b <==> g in multiset(b);
      assert g in a <==> g in multiset(a);
    }
  }

  /** Inserts `g` before the first group that is not larger, so that equal
      sizes keep their order. */
  function Insert(g: Group, groups: seq<Group>): seq<Group> {
    if groups == [] || |g.members| >= |groups[0].members| then [g] + groups
    else [groups[0]] + Insert(g, groups[1..])
  }

  /** Inserting adds exactly `g`. */
  lemma {:induction false} InsertMultiset(g: Group, groups: seq<Group>)
    ensures multiset(Insert(g, groups)) == multiset(groups) + multiset{g}
  {
    if groups != [] && |g.members| < |groups[0].members| {
      InsertMultiset(g, groups[1..]);
      assert groups == [groups[0]] + groups[1..];
    }
  }

  /** A group at least as large as every group of a non-increasing list can
      go in front of it. */
  lemma Prepend(h: Group, rest: seq<Group>)
    requires NonIncreasing(rest)
    requires forall x :: x in rest ==> |h.members| >= |x.members|
    ensures NonIncreasing([h] + rest)
  {
    var r := [h] + rest;
    forall i, j | 0 <= i < j < |r|
      ensures |r[i].members| >= |r[j].members|
    {
      assert r[j] == rest[j - 1];
      if i > 0 {
        assert r[i] == rest[i - 1];
      }
    }
  }

  /** Inserting into a non-increasing list keeps it non-increasing. */
  lemma {:induction false} InsertSorted(g: Group, groups: seq<Group>)
    requires NonIncreasing(groups)
    ensures NonIncreasing(Insert(g, groups))
  {
    if groups == [] || |g.members| >= |groups[0].members| {
      forall x | x in groups
        ensures |g.members| >= |x.members|
      {
        var k :| 0 <= k < |groups| && groups[k] == x;
      }
      Prepend(g, groups);
    } else {
      var h, t := groups[0], groups[1..];
      InsertSorted(g, t);
      InsertMultiset(g, t);
      var rest := Insert(g, t);
      forall x | x in rest
        ensures |h.members| >= |x.members|
      {
        assert x in multiset(rest);
        if x != g {
          assert x in multiset(t);
          var k :| 0 <= k < |t| && t[k] == x;
          assert x == groups[k + 1];
        }
      }
      Prepend(h, rest);
    }
  }

  /** `sorted(..., reverse=True)` by group size: a stable sort, largest first. */
  function SortBySize(groups: seq<Group>): (r: seq<Group>)
    ensures NonIncreasing(r)
    ensures multiset(r) == multiset(groups)
  {
    if groups == [] then []
    else
      var rest := SortBySize(groups[1..]);
      SortStep(groups, rest);
      Insert(groups[0], rest)
  }

  /** One step of SortBySize: inserting the head into the sorted tail. */
  lemma SortStep(groups: seq<Group>, rest: seq<Group>)
    requires groups != [] && NonIncreasing(rest) && multiset(rest) == multiset(groups[1..])
    ensures NonIncreasing(Insert(groups[0], rest))
    ensures multiset(Insert(groups[0], rest)) == multiset(groups)
  {
    InsertSorted(groups[0], rest);
    InsertMultiset(groups[0], rest);
    assert groups == [groups[0]] + groups[1..];
  }

  /** The inner loop of `cluster` for one term of the anchor: every unseen
      document posted under the term gains the anchor's weight times its
      own weight. */
  method AddMatches(acc: map<Key, real>, oWeight: real, matches: map<Key, real>, seen: map<Key, real>)
    returns (r: map<Key, real>)
    ensures r.Keys == acc.Keys + (matches.Keys - Truthy(seen))
    ensures forall c :: c in r ==>
              r[c] == (if c in acc then acc[c] else 0.0) + (if c in matches && c !in Truthy(seen) then oWeight * matches[c] else 0.0)
  {
    r := acc;
    var rest := matches.Keys;
    while rest != {}
      invariant rest <= matches.Keys
      invariant r.Keys == acc.Keys + ((matches.Keys - rest) - Truthy(seen))
      invariant forall c :: c in r ==>
                  r[c] == (if c in acc then acc[c] else 0.0)
                          + (if c in matches && c !in rest && c !in Truthy(seen) then oWeight * matches[c] else 0.0)
      decreases rest
    {
      Inhabited(rest);
      var c :| c in rest;
      if !(c in seen && seen[c] != 0.0) {
        r := r[c := (if c in r then r[c] else 0.0) + oWeight * matches[c]];
      }
      rest := rest - {c};
    }
  }

  /** The scores `cluster` accumulates for one anchor with weights
      `weights`: every unseen document sharing a term, with its score. */
  method AnchorScores(weights: map<Term, real>, index: Index, seen: map<Key, real>) returns (acc: map<Key, real>)
    ensures acc.Keys == Candidates(weights, index, Truthy(seen), weights.Keys)
    ensures forall c :: c in acc ==> acc[c] == Score(weights, index, c, weights.Keys)
  {
    acc := map[];
    var rest := weights.Keys;
    while rest != {}
      invariant rest <= weights.Keys
      invariant acc.Keys == Candidates(weights, index, Truthy(seen), weights.Keys - rest)
      invariant forall c :: c in acc ==> acc[c] == Score(weights, index, c, weights.Keys - rest)
      decreases rest
    {
      var word :| word in rest;
      ghost var done := weights.Keys - rest;
      var next := acc;
      if word in index {
        next := AddMatches(acc, weights[word], index[word], seen);
      }
      AnchorStep(weights, index, Truthy(seen), done, word, acc, next);
      acc := next;
      rest := rest - {word};
      assert weights.Keys - rest == done + {word};
    }
    assert weights.Keys - rest == weights.Keys;
  }

  /** One pass of the outer loop of `AnchorScores`. */
  lemma AnchorStep(weights: map<Term, real>, index: Index, seen: set<Key>, done: set<Term>, word: Term,
                   acc: map<Key, real>, next: map<Key, real>)
    requires word in weights && word !in done
    requires acc.Keys == Candidates(weights, index, seen, done)
    requires forall c :: c in acc ==> acc[c] == Score(weights, index, c, done)
    requires word !in index ==> next == acc
    requires word in index ==> next.Keys == acc.Keys + (index[word].Keys - seen)
    requires word in index ==> forall c :: c in next ==>
               next[c] == (if c in acc then acc[c] else 0.0)
                          + (if c in index[word] && c !in seen then weights[word] * index[word][c] else 0.0)
    ensures next.Keys == Candidates(weights, index, seen, done + {word})
    ensures forall c :: c in next ==> next[c] == Score(weights, index, c, done + {word})
  {
    var after := Candidates(weights, index, seen, done + {word});
    forall c | c in after
      ensures c in next
    {
      var w :| w in done + {word} && w in weights && w in index && c in index[w] && c !in seen;
      if w != word {
        assert c in Candidates(weights, index, seen, done);
      }
    }
    forall c | c in next
      ensures c in after && next[c] == Score(weights, index, c, done + {word})
    {
      ScoreStep(weights, index, c, done, word);
      if c in acc {
        var w :| w in done && w in weights && w in index && c in index[w] && c !in seen;
      } else {
        assert word in index && c in index[word] && c !in seen;
        forall w | w in done
          ensures Contribution(weights, index, c, w) == 0.0
        {
          if w in weights && w in index && c in index[w] {
            assert false;
          }
        }
        ScoreZero(weights, index, c, done);
      }
    }
    assert forall c :: c in next ==> c in after;
    assert forall c :: c in after ==> c in next;
    assert next.Keys == after;
  }

  /** The `for key, ... in scores.iteritems()` listing of the groups, in an
      arbitrary order. */
  method Items(scores: map<Key, map<Key, real>>) returns (items: seq<Group>)
    ensures Listed(items, scores)
  {
    items := [];
    var rest := scores.Keys;
    while rest != {}
      invariant rest <= scores.Keys
      invariant |items| + |rest| == |scores.Keys|
      invariant forall j :: 0 <= j < |items| ==>
                  items[j].anchor in scores && items[j].anchor !in rest && items[j].members == scores[items[j].anchor]
      invariant forall k :: k in scores && k !in rest ==> Group(k, scores[k]) in items
      decreases rest
    {
      Inhabited(rest);
      var k :| k in rest;
      items := items + [Group(k, scores[k])];
      rest := rest - {k};
    }
    forall g | g in items
      ensures g.anchor in scores && g.members == scores[g.anchor]
    {
      var j :| 0 <= j < |items| && items[j] == g;
    }
  }

  /** The body of the loop of `cluster` for a document `key` not yet seen,
      once `seen[key] = 1` is set: its weights, answered from the cache,
      scored against every unseen document and filtered by SIM_THRESHOLD. */
  method Anchor(corpus: Corpus, key: Key, seen: map<Key, real>, log: real -> real, ghost W: map<Key, map<Term, real>>)
    returns (members: map<Key, real>)
    requires key in corpus.docs && key in W
    requires corpus.docs[key].cache == W[key] && W[key] != map[]
    requires forall k :: k in seen ==> seen[k] >= 1.0
    modifies corpus.docs[key]
    ensures corpus.docs[key].cache == W[key]
    ensures members == Members(W[key], corpus.index, seen.Keys)
    ensures forall c :: c in members ==> members[c] >= SIM_THRESHOLD
  {
    var doc := corpus.docs[key];
    var weights := doc.TfIdf(|corpus.docs|, corpus.words, log, true);
    TruthyAll(seen);
    var acc := AnchorScores(weights, corpus.index, seen);
    members := map c | c in acc && acc[c] >= SIM_THRESHOLD :: acc[c];
  }

  /** One iteration of the loop of `cluster`, for the document `key`: skip
      it when seen, else score it against the unseen documents and record
      its group. */
  method VisitDocument(corpus: Corpus, key: Key, seen: map<Key, real>, scores: map<Key, map<Key, real>>,
                       log: real -> real, ghost W: map<Key, map<Term, real>>)
    returns (nextSeen: map<Key, real>, nextScores: map<Key, map<Key, real>>)
    requires key in corpus.docs
    requires forall k :: k in corpus.docs ==> k in W && corpus.docs[k].cache == W[k] && W[k] != map[]
    requires forall k :: k in seen ==> seen[k] >= 1.0
    modifies corpus.docs[key]
    ensures forall k :: k in corpus.docs ==> corpus.docs[k].cache == W[k]
    ensures forall k :: k in nextSeen ==> nextSeen[k] >= 1.0
    ensures Progress(nextSeen.Keys, nextScores) == Visit(W, corpus.index, Progress(seen.Keys, scores), key)
  {
    if key in seen && seen[key] != 0.0 {
      return seen, scores;
    }
    nextSeen := seen[key := 1.0];
    var members := Anchor(corpus, key, nextSeen, log, W);
    nextScores := scores[key := members];
    nextSeen := nextSeen + members;
    assert nextSeen.Keys == seen.Keys + {key} + members.Keys;
  }

  /** The loop of `cluster` over the documents in `order`, once every
      document's weights are cached as `W`. */
  method Pass(corpus: Corpus, order: seq<Key>, log: real -> real, ghost W: map<Key, map<Term, real>>)
    returns (scores: map<Key, map<Key, real>>)
    requires forall j :: 0 <= j < |order| ==> order[j] in W && order[j] in corpus.docs
    requires forall k :: k in corpus.docs ==> k in W && corpus.docs[k].cache == W[k] && W[k] != map[]
    modifies corpus.docs.Values
    ensures forall k :: k in corpus.docs ==> corpus.docs[k].cache == W[k]
    ensures scores == Star(W, corpus.index, order).scores
  {
    var seen: map<Key, real> := map[];
    scores := map[];
    var i := 0;
    while i < |order|
      invariant 0 <= i <= |order|
      invariant forall k :: k in corpus.docs ==> corpus.docs[k].cache == W[k]
      invariant forall k :: k in seen ==> seen[k] >= 1.0
      invariant Star(W, corpus.index, order[..i]) == Progress(seen.Keys, scores)
    {
      assert order[..i + 1][..i] == order[..i];
      seen, scores := VisitDocument(corpus, order[i], seen, scores, log, W);
      i := i + 1;
    }
    assert order[..|order|] == order;
  }

  /** `sorted(scores.iteritems(), ..., reverse=True)`: every group once,
      largest first. */
  method Sorted(scores: map<Key, map<Key, real>>) returns (groups: seq<Group>)
    ensures Listed(groups, scores)
    ensures NonIncreasing(groups)
  {
    var items := Items(scores);
    groups := SortBySize(items);
    ListedPermutation(items, groups, scores);
  }

  /** The rest of `cluster` once the index is built and every cache `W`
      filled: the pass over the documents in `order`, the listing of the
      groups and the sort. */
  method GroupDocuments(corpus: Corpus, order: seq<Key>, log: real -> real, ghost W: map<Key, map<Term, real>>)
    returns (groups: seq<Group>)
    requires W.Keys == corpus.docs.Keys
    requires forall k :: k in corpus.docs ==> corpus.docs[k].cache == W[k] && W[k] != map[]
    requires forall j :: 0 <= j < |order| ==> order[j] in corpus.docs
    requires forall k :: k in corpus.docs ==> k in order
    requires forall w :: w in corpus.index ==> corpus.index[w].Keys <= corpus.docs.Keys
    modifies corpus.docs.Values
    ensures forall k :: k in corpus.docs ==> corpus.docs[k].cache == W[k]
    ensures forall j :: 0 <= j < |order| ==> order[j] in W
    ensures Listed(groups, Star(W, corpus.index, order).scores)
    ensures NonIncreasing(groups)
    ensures Partition(Star(W, corpus.index, order).scores, corpus.docs.Keys)
    ensures Scored(W, corpus.index, Star(W, corpus.index, order).scores)
  {
    var scores := Pass(corpus, order, log, W);
    groups := Sorted(scores);
    StarPartition(W, corpus.index, order, corpus.docs.Keys);
  }

  /** `cluster(corpus)`: builds the index, then visits the documents in
      `order`; each one not yet seen becomes an anchor whose group is every
      unseen document scoring at least SIM_THRESHOLD against it, and the
      groups come back largest first. */
  method Cluster(corpus: Corpus, order: seq<Key>, log: real -> real) returns (groups: seq<Group>)
    requires corpus.Valid()
    requires forall j :: 0 <= j < |order| ==> order[j] in corpus.docs
    requires forall k :: k in corpus.docs ==> k in order
    modifies corpus, corpus.docs.Values
    ensures corpus.Valid()
    ensures corpus.docs == old(corpus.docs) && corpus.words == old(corpus.words)
    ensures forall k :: k in corpus.docs ==>
              corpus.docs[k].cache == Cached(old(corpus.docs[k].cache), corpus.docs[k].tf, |corpus.docs|, corpus.words, log)
    ensures corpus.index == Indexed(old(corpus.index), corpus.Weights())
    ensures corpus.Weighed() && corpus.IndexFinds()
    ensures forall j :: 0 <= j < |order| ==> order[j] in corpus.Weights()
    ensures Listed(groups, Star(corpus.Weights(), corpus.index, order).scores)
    ensures NonIncreasing(groups)
    ensures Partition(Star(corpus.Weights(), corpus.index, order).scores, corpus.docs.Keys)
    ensures Scored(corpus.Weights(), corpus.index, Star(corpus.Weights(), corpus.index, order).scores)
  {
    corpus.CreateIndex(log);
    label indexed:
    forall k | k in corpus.docs
      ensures corpus.docs[k].cache != map[]
    {
      CachedNonEmpty(old(corpus.docs[k].cache), corpus.docs[k].tf, |corpus.docs|, corpus.words, log);
    }
    ghost var W := corpus.Weights();
    groups := GroupDocuments(corpus, order, log, W);
    corpus.WeightsAre(W);
    forall k | k in corpus.docs
      ensures corpus.docs[k].cache == old@indexed(corpus.docs[k].cache)
      ensures corpus.docs[k].cache.Keys == corpus.docs[k].tf.Keys
    {
      assert corpus.Weights()[k] == old@indexed(corpus.Weights())[k];
    }
    corpus.IndexedFindsAll(old(corpus.index));
  }
}
