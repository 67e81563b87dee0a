/** BM25 ranking (package bm25): resolving the query against the term
    dictionary, accumulating per-document scores over the posting maps of
    the distinct query terms, and ranking the documents by score.

    The floating-point formula of one term's contribution to one document
    is a parameter `partial(f, qf, dl, n)` of the model: f is the term's
    count in the document, qf its count in the query, dl the document's
    length and n the term's document frequency. */
module Bm25 {
  import opened Seqs
  import opened Ext
  import opened Sorting

  /** One term's contribution to one document's score, from (f, qf, dl, n). */
  type Partial = (nat, nat, nat, nat) -> real

  // ---------------------------------------------------------------------
  // Deduplication
  // ---------------------------------------------------------------------

  /** bm25.UniqueInts: the distinct values, in order of first occurrence. */
  method UniqueInts(input: seq<nat>) returns (u: seq<nat>)
    ensures u == Unique(input)
  {
    u := [];
    var m: map<nat, bool> := map[];
    for i := 0 to |input|
      invariant u == Unique(input[..i])
      invariant forall x :: x in m <==> x in input[..i]
    {
      assert input[..i + 1] == input[..i] + [input[i]];
      UniqueSnoc(input[..i], input[i]);
      var val := input[i];
      if val !in m {
        m := m[val := true];
        u := u + [val];
      }
    }
    assert input[..|input|] == input;
  }

  // ---------------------------------------------------------------------
  // Query resolution
  // ---------------------------------------------------------------------

  /** The ids of the query tokens the dictionary knows, in query order and
      with repeats; unknown tokens are dropped. */
  function Resolve(query: seq<string>, word2ID: map<string, nat>): (ids: seq<nat>)
    ensures |ids| <= |query|
  {
    if query == [] then []
    else
      var ids := Resolve(query[..|query| - 1], word2ID);
      var w := query[|query| - 1];
      if w in word2ID then ids + [word2ID[w]] else ids
  }

  /** Resolution works token by token. */
  lemma {:induction false} ResolveAppend(a: seq<string>, b: seq<string>, word2ID: map<string, nat>)
    ensures Resolve(a + b, word2ID) == Resolve(a, word2ID) + Resolve(b, word2ID)
    decreases |b|
  {
    if b == [] {
      assert a + b == a;
    } else {
      assert (a + b)[..|a + b| - 1] == a + b[..|b| - 1];
      ResolveAppend(a, b[..|b| - 1], word2ID);
    }
  }

  /** `id` is the dictionary id of some token of the query. */
  ghost predicate IdOfToken(query: seq<string>, word2ID: map<string, nat>, id: nat) {
    exists k :: 0 <= k < |query| && query[k] in word2ID && word2ID[query[k]] == id
  }

  /** Every resolved id is the id of a known query token, and the id of
      every known query token is resolved. */
  lemma {:induction false} ResolveKeepsKnown(query: seq<string>, word2ID: map<string, nat>)
    ensures forall j :: 0 <= j < |Resolve(query, word2ID)| ==> IdOfToken(query, word2ID, Resolve(query, word2ID)[j])
    ensures forall k :: 0 <= k < |query| && query[k] in word2ID ==>
      word2ID[query[k]] in Resolve(query, word2ID)
  {
    if query != [] {
      var p := query[..|query| - 1];
      ResolveKeepsKnown(p, word2ID);
      var ids, pids := Resolve(query, word2ID), Resolve(p, word2ID);
      var last := query[|query| - 1];
      forall j | 0 <= j < |ids|
        ensures IdOfToken(query, word2ID, ids[j])
      {
        if j < |pids| {
          assert ids[j] == pids[j];
          assert IdOfToken(p, word2ID, pids[j]);
          var k :| 0 <= k < |p| && p[k] in word2ID && word2ID[p[k]] == pids[j];
          assert query[k] == p[k];
        } else {
          assert last in word2ID && ids == pids + [word2ID[last]];
          assert query[|query| - 1] in word2ID && word2ID[query[|query| - 1]] == ids[j];
        }
      }
      forall k | 0 <= k < |query| && query[k] in word2ID
        ensures word2ID[query[k]] in ids
      {
        if k < |p| {
          assert query[k] == p[k];
        }
      }
    }
  }

  /** Nothing resolves exactly when no query token is known. */
  lemma ResolveEmptyIff(query: seq<string>, word2ID: map<string, nat>)
    ensures Resolve(query, word2ID) == [] <==> forall k :: 0 <= k < |query| ==> query[k] !in word2ID
  {
    ResolveKeepsKnown(query, word2ID);
  }

  /** Query resolution as bm25.BM25 performs it. */
  method ResolveQuery(query: seq<string>, lex: Lexicon) returns (tokens: seq<nat>)
    ensures tokens == Resolve(query, lex.word2ID)
  {
    tokens := [];
    for i := 0 to |query|
      invariant tokens == Resolve(query[..i], lex.word2ID)
    {
      assert query[..i + 1][..i] == query[..i];
      if query[i] in lex.word2ID {
        tokens := tokens + [lex.word2ID[query[i]]];
      }
    }
    assert query[..|query|] == query;
  }

  /** The query-term frequency of `token`: how often it occurs among the
      resolved query tokens. */
  method QueryFrequency(tokens: seq<nat>, token: nat) returns (qf: nat)
    ensures qf == Count(tokens, token)
    ensures token in tokens ==> 1 <= qf <= |tokens|
  {
    qf := 0;
    for i := 0 to |tokens|
      invariant qf == Count(tokens[..i], token)
    {
      assert tokens[..i + 1][..i] == tokens[..i];
      if tokens[i] == token {
        qf := qf + 1;
      }
    }
    assert tokens[..|tokens|] == tokens;
  }

  // ---------------------------------------------------------------------
  // Score accumulation
  // ---------------------------------------------------------------------

  ghost predicate TermsIndexed(terms: seq<nat>, postings: InvIndex) {
    forall j :: 0 <= j < |terms| ==> terms[j] < |postings|
  }

  /** The recorded length of the document with ordinal `d` (0 when its
      number has no metadata entry). */
  function DocLength(meta: Meta, d: nat): nat
    requires d < |meta.docNos|
  {
    EntryOf(meta, meta.docNos[d]).length
  }

  /** What term `t` adds to document `d`'s score: its partial contribution
      when the document contains the term, nothing otherwise. */
  function Contribution(postings: InvIndex, meta: Meta, partial: Partial, tokens: seq<nat>, t: nat, d: nat): real
    requires t < |postings| && OrdinalsInRange(postings, meta)
  {
    if d in postings[t] then
      partial(postings[t][d], Count(tokens, t), DocLength(meta, d), |postings[t]|)
    else 0.0
  }

  /** Document `d`'s score: the sum of the contributions of `terms`. */
  function ScoreOf(postings: InvIndex, meta: Meta, partial: Partial, tokens: seq<nat>, terms: seq<nat>, d: nat): real
    requires TermsIndexed(terms, postings) && OrdinalsInRange(postings, meta)
  {
    if terms == [] then 0.0
    else
      ScoreOf(postings, meta, partial, tokens, terms[..|terms| - 1], d) +
      Contribution(postings, meta, partial, tokens, terms[|terms| - 1], d)
  }

  /** The documents whose posting entries some term of `terms` has. */
  function Matched(postings: InvIndex, terms: seq<nat>): set<nat>
    requires TermsIndexed(terms, postings)
  {
    if terms == [] then {}
    else Matched(postings, terms[..|terms| - 1]) + postings[terms[|terms| - 1]].Keys
  }

  /** A document is matched exactly when one of the terms has it in its
      posting map. */
  lemma {:induction false} MatchedIff(postings: InvIndex, terms: seq<nat>, d: nat)
    requires TermsIndexed(terms, postings)
    ensures d in Matched(postings, terms) <==> exists j :: 0 <= j < |terms| && d in postings[terms[j]]
  {
    if terms != [] {
      var p := terms[..|terms| - 1];
      MatchedIff(postings, p, d);
      if d in Matched(postings, p) {
        var j :| 0 <= j < |p| && d in postings[p[j]];
        assert terms[j] == p[j];
      }
      if exists j :: 0 <= j < |terms| && d in postings[terms[j]] {
        var j :| 0 <= j < |terms| && d in postings[terms[j]];
        if j < |p| {
          assert terms[j] == p[j];
        }
      }
    }
  }

  /** A document no term matches has score 0. */
  lemma {:induction false} ScoreOfUnmatched(postings: InvIndex, meta: Meta, partial: Partial, tokens: seq<nat>, terms: seq<nat>, d: nat)
    requires TermsIndexed(terms, postings) && OrdinalsInRange(postings, meta)
    requires d !in Matched(postings, terms)
    ensures ScoreOf(postings, meta, partial, tokens, terms, d) == 0.0
  {
    if terms != [] {
      ScoreOfUnmatched(postings, meta, partial, tokens, terms[..|terms| - 1], d);
    }
  }

  /** The score loop of bm25.BM25: for each distinct term, for each
      document in its posting map, add the term's partial contribution to
      the document's running score, creating it on first contribution. */
  method Accumulate(terms: seq<nat>, tokens: seq<nat>, postings: InvIndex, meta: Meta, partial: Partial)
    returns (scores: map<nat, real>)
    requires TermsIndexed(terms, postings) && OrdinalsInRange(postings, meta)
    ensures scores.Keys == Matched(postings, terms)
    ensures forall d :: d in scores ==> scores[d] == ScoreOf(postings, meta, partial, tokens, terms, d)
  {
    scores := map[];
    for i := 0 to |terms|
      invariant scores.Keys == Matched(postings, terms[..i])
      invariant forall d :: d in scores ==> scores[d] == ScoreOf(postings, meta, partial, tokens, terms[..i], d)
    {
      assert terms[..i + 1][..i] == terms[..i];
      scores := AddTermScores(scores, terms[..i], terms[i], tokens, postings, meta, partial);
    }
    assert terms[..|terms|] == terms;
  }

  /** One pass of the inner score loop: adds the contributions of `token`
      to the running scores accumulated for the terms `done`. */
  method AddTermScores(scores0: map<nat, real>, done: seq<nat>, token: nat, tokens: seq<nat>,
                       postings: InvIndex, meta: Meta, partial: Partial)
    returns (scores: map<nat, real>)
    requires TermsIndexed(done, postings) && token < |postings| && OrdinalsInRange(postings, meta)
    requires scores0.Keys == Matched(postings, done)
    requires forall d :: d in scores0 ==> scores0[d] == ScoreOf(postings, meta, partial, tokens, done, d)
    ensures scores.Keys == Matched(postings, done + [token])
    ensures forall d :: d in scores ==> scores[d] == ScoreOf(postings, meta, partial, tokens, done + [token], d)
  {
    scores := scores0;
    var remaining := postings[token].Keys;
    while remaining != {}
      invariant Partway(postings, meta, partial, tokens, done, token, scores, remaining)
      decreases remaining
    {
      var docID :| docID in remaining;
      var f := postings[token][docID];
      var qf := QueryFrequency(tokens, token);
      var dl := EntryOf(meta, meta.docNos[docID]).length;
      var n := |postings[token]|;
      var partialScore := partial(f, qf, dl, n);
      assert partialScore == Contribution(postings, meta, partial, tokens, token, docID);
      PartwayStep(postings, meta, partial, tokens, done, token, scores, remaining, docID);
      if docID !in scores {
        scores := scores[docID := partialScore];
      } else {
        scores := scores[docID := scores[docID] + partialScore];
      }
      remaining := remaining - {docID};
    }
    PartwayDone(postings, meta, partial, tokens, done, token, scores);
  }

  /** The inner score loop's invariant: the documents of `token` not yet
      visited (`remaining`) lack its contribution, the others have it. */
  ghost predicate Partway(postings: InvIndex, meta: Meta, partial: Partial, tokens: seq<nat>, done: seq<nat>,
                          token: nat, scores: map<nat, real>, remaining: set<nat>)
    requires TermsIndexed(done, postings) && token < |postings| && OrdinalsInRange(postings, meta)
  {
    && remaining <= postings[token].Keys
    && scores.Keys == Matched(postings, done) + (postings[token].Keys - remaining)
    && forall d :: d in scores ==>
         scores[d] == ScoreOf(postings, meta, partial, tokens, done, d) +
           (if d in remaining then 0.0 else Contribution(postings, meta, partial, tokens, token, d))
  }

  lemma PartwayDone(postings: InvIndex, meta: Meta, partial: Partial, tokens: seq<nat>, done: seq<nat>,
                    token: nat, scores: map<nat, real>)
    requires TermsIndexed(done, postings) && token < |postings| && OrdinalsInRange(postings, meta)
    requires Partway(postings, meta, partial, tokens, done, token, scores, {})
    ensures TermsIndexed(done + [token], postings)
    ensures scores.Keys == Matched(postings, done + [token])
    ensures forall d :: d in scores ==> scores[d] == ScoreOf(postings, meta, partial, tokens, done + [token], d)
  {
    ExtendTerms(postings, meta, partial, tokens, done, token);
  }

  lemma PartwayStep(postings: InvIndex, meta: Meta, partial: Partial, tokens: seq<nat>, done: seq<nat>,
                    token: nat, scores: map<nat, real>, remaining: set<nat>, docID: nat)
    requires TermsIndexed(done, postings) && token < |postings| && OrdinalsInRange(postings, meta)
    requires Partway(postings, meta, partial, tokens, done, token, scores, remaining)
    requires docID in remaining
    ensures var c := Contribution(postings, meta, partial, tokens, token, docID);
      Partway(postings, meta, partial, tokens, done, token,
        scores[docID := if docID in scores then scores[docID] + c else c], remaining - {docID})
  {
    if docID !in scores {
      ScoreOfUnmatched(postings, meta, partial, tokens, done, docID);
    }
  }

  /** Adding one term to the scored terms adds its posting documents to the
      matched set and its contribution to every document's score. */
  lemma ExtendTerms(postings: InvIndex, meta: Meta, partial: Partial, tokens: seq<nat>, done: seq<nat>, token: nat)
    requires TermsIndexed(done, postings) && token < |postings| && OrdinalsInRange(postings, meta)
    ensures TermsIndexed(done + [token], postings)
    ensures Matched(postings, done + [token]) == Matched(postings, done) + postings[token].Keys
    ensures forall d ::
      ScoreOf(postings, meta, partial, tokens, done + [token], d) ==
      ScoreOf(postings, meta, partial, tokens, done, d) + Contribution(postings, meta, partial, tokens, token, d)
  {
    assert (done + [token])[..|done|] == done;
  }

  // ---------------------------------------------------------------------
  // Results
  // ---------------------------------------------------------------------

  /** Turns the score map into (document number, score) items, one per
      scored ordinal, in the map's (unspecified) iteration order; `docs`
      records that order. */
  method BuildResults(scores: map<nat, real>, meta: Meta) returns (results: seq<ScoreItem>, ghost docs: seq<nat>)
    requires forall d :: d in scores ==> d < |meta.docNos|
    ensures |docs| == |results| && NoDup(docs)
    ensures forall d :: d in docs <==> d in scores
    ensures forall k :: 0 <= k < |results| ==>
      docs[k] in scores && results[k] == ScoreItem(meta.docNos[docs[k]], scores[docs[k]])
  {
    results, docs := [], [];
    var remaining := scores.Keys;
    while remaining != {}
      invariant remaining <= scores.Keys
      invariant |docs| == |results| && NoDup(docs)
      invariant forall d :: d in docs <==> d in scores && d !in remaining
      invariant forall k :: 0 <= k < |results| ==>
        docs[k] in scores && results[k] == ScoreItem(meta.docNos[docs[k]], scores[docs[k]])
      decreases remaining
    {
      var docID :| docID in remaining;
      results := results + [ScoreItem(meta.docNos[docID], scores[docID])];
      docs := docs + [docID];
      remaining := remaining - {docID};
    }
  }

  /** The item each listed ordinal is reported as. */
  function Items(postings: InvIndex, meta: Meta, partial: Partial, tokens: seq<nat>, terms: seq<nat>, docs: seq<nat>): seq<ScoreItem>
    requires TermsIndexed(terms, postings) && OrdinalsInRange(postings, meta)
    requires forall k :: 0 <= k < |docs| ==> docs[k] < |meta.docNos|
  {
    seq(|docs|, k requires 0 <= k < |docs| =>
      ScoreItem(meta.docNos[docs[k]], ScoreOf(postings, meta, partial, tokens, terms, docs[k])))
  }

  /** The scored documents are those some known query token's posting map
      holds; there are none when no query token is known. */
  lemma ScoredDocuments(query: seq<string>, lex: Lexicon, postings: InvIndex, meta: Meta, scores: map<nat, real>)
    requires WellFormedIndex(lex, postings, meta)
    requires TermsIndexed(Resolve(query, lex.word2ID), postings)
    requires TermsIndexed(Unique(Resolve(query, lex.word2ID)), postings)
    requires scores.Keys == Matched(postings, Unique(Resolve(query, lex.word2ID)))
    ensures forall d :: d in scores <==>
      exists j :: 0 <= j < |Resolve(query, lex.word2ID)| && d in postings[Resolve(query, lex.word2ID)[j]]
    ensures forall d :: d in scores ==> d < |meta.docNos|
    ensures (forall k :: 0 <= k < |query| ==> query[k] !in lex.word2ID) ==> scores == map[]
  {
    var tokens := Resolve(query, lex.word2ID);
    forall d ensures d in scores <==> exists j :: 0 <= j < |tokens| && d in postings[tokens[j]] {
      MatchedDistinctIff(postings, tokens, d);
    }
    ResolveEmptyIff(query, lex.word2ID);
  }

  /** Reading the accumulated scores back item by item gives the item of
      each listed ordinal. */
  lemma ItemsOfScores(postings: InvIndex, meta: Meta, partial: Partial, tokens: seq<nat>, terms: seq<nat>,
                      scores: map<nat, real>, docs: seq<nat>, built: seq<ScoreItem>)
    requires TermsIndexed(terms, postings) && OrdinalsInRange(postings, meta)
    requires forall d :: d in scores ==> scores[d] == ScoreOf(postings, meta, partial, tokens, terms, d)
    requires forall k :: 0 <= k < |docs| ==> docs[k] < |meta.docNos|
    requires |docs| == |built|
    requires forall k :: 0 <= k < |built| ==>
      docs[k] in scores && built[k] == ScoreItem(meta.docNos[docs[k]], scores[docs[k]])
    ensures built == Items(postings, meta, partial, tokens, terms, docs)
  {
  }

  /** Deduplicating the terms does not change which documents match. */
  lemma MatchedDistinctIff(postings: InvIndex, tokens: seq<nat>, d: nat)
    requires TermsIndexed(tokens, postings)
    ensures TermsIndexed(Unique(tokens), postings)
    ensures d in Matched(postings, Unique(tokens)) <==> exists j :: 0 <= j < |tokens| && d in postings[tokens[j]]
  {
    var terms := Unique(tokens);
    MatchedIff(postings, terms, d);
    if exists j :: 0 <= j < |terms| && d in postings[terms[j]] {
      var j :| 0 <= j < |terms| && d in postings[terms[j]];
      var k :| 0 <= k < |tokens| && tokens[k] == terms[j];
    }
    if exists j :: 0 <= j < |tokens| && d in postings[tokens[j]] {
      var j :| 0 <= j < |tokens| && d in postings[tokens[j]];
      var k :| 0 <= k < |terms| && terms[k] == tokens[j];
    }
  }

  lemma ResolvedIndexed(query: seq<string>, lex: Lexicon, postings: InvIndex)
    requires IdsInRange(lex, postings)
    ensures TermsIndexed(Resolve(query, lex.word2ID), postings)
    ensures TermsIndexed(Unique(Resolve(query, lex.word2ID)), postings)
  {
    ResolveKeepsKnown(query, lex.word2ID);
  }

  /** bm25.BM25: the documents matching at least one known query term,
      each once, under its document number, with the sum of the partial
      contributions of the distinct query terms it contains, ranked by
      non-increasing score. `docs` lists the ordinals behind the ranking
      before it is sorted. */
  method BM25(query: seq<string>, lex: Lexicon, postings: InvIndex, meta: Meta, partial: Partial)
    returns (results: seq<ScoreItem>, ghost docs: seq<nat>)
    requires WellFormedIndex(lex, postings, meta)
    ensures TermsIndexed(Resolve(query, lex.word2ID), postings)
    ensures TermsIndexed(Unique(Resolve(query, lex.word2ID)), postings)
    ensures NoDup(docs) && |results| == |docs|
    ensures forall d :: d in docs <==>
      exists j :: 0 <= j < |Resolve(query, lex.word2ID)| && d in postings[Resolve(query, lex.word2ID)[j]]
    ensures forall k :: 0 <= k < |docs| ==> docs[k] < |meta.docNos|
    ensures multiset(results) == multiset(Items(postings, meta, partial,
      Resolve(query, lex.word2ID), Unique(Resolve(query, lex.word2ID)), docs))
    ensures SortedByScore(results)
    ensures (forall k :: 0 <= k < |query| ==> query[k] !in lex.word2ID) ==> results == []
  {
    var tokens := ResolveQuery(query, lex);
    ResolvedIndexed(query, lex, postings);
    var terms := UniqueInts(tokens);
    var scores := Accumulate(terms, tokens, postings, meta, partial);
    ScoredDocuments(query, lex, postings, meta, scores);
    var built;
    built, docs := BuildResults(scores, meta);
    ItemsOfScores(postings, meta, partial, tokens, terms, scores, docs, built);
    results := SortedCopy(built);
    assert |docs| > 0 ==> docs[0] in docs;
  }
}
