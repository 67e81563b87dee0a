/** Query-biased summaries (retrieve.go): a document body is cut into
    sentences, each sentence is scored against the query tokens, and the
    sentences are ranked by score. */
module Retrieve {
  import opened Seqs
  import opened GoStrings
  import opened Ext
  import opened Sorting

  // ---------------------------------------------------------------------
  // Sentence splitting
  // ---------------------------------------------------------------------

  /** '.', '?' and '!' end a sentence. */
  predicate IsTerminator(c: char) {
    c == '.' || c == '?' || c == '!'
  }

  ghost predicate HasNoTerminator(t: string) {
    forall k :: 0 <= k < |t| ==> !IsTerminator(t[k])
  }

  /** A completed sentence: a terminator at the end and nowhere else. */
  ghost predicate IsTerminatedSentence(t: string) {
    t != [] && IsTerminator(t[|t| - 1]) && HasNoTerminator(t[..|t| - 1])
  }

  /** The splitter's state after reading a text: the sentences completed
      so far and the fragment read since the last terminator. */
  datatype SplitState = SplitState(done: seq<string>, frag: string)

  /** Reads a text one character at a time. A terminator closes the open
      fragment, terminator included, into a trimmed sentence, unless the
      fragment is empty (a terminator right after another one, or at the
      very start); either way a new fragment begins after it. */
  function Split(s: string): SplitState {
    if s == [] then SplitState([], [])
    else
      var st := Split(s[..|s| - 1]);
      var c := s[|s| - 1];
      if IsTerminator(c) then
        SplitState(if st.frag != [] then st.done + [TrimSpace(st.frag + [c])] else st.done, [])
      else SplitState(st.done, st.frag + [c])
  }

  /** The sentences of a text: the completed ones, then the trimmed text
      after the last terminator when there is any. That trailing sentence
      may be empty when the text ends in white space. */
  function Sentences(s: string): seq<string> {
    var st := Split(s);
    if st.frag != [] then st.done + [TrimSpace(st.frag)] else st.done
  }

  lemma {:induction false} SplitFacts(s: string)
    ensures forall i :: 0 <= i < |Split(s).done| ==> IsTerminatedSentence(Split(s).done[i])
    ensures HasNoTerminator(Split(s).frag)
    ensures Split(s).frag == [] <==> s == [] || IsTerminator(s[|s| - 1])
  {
    if s != [] {
      var st := Split(s[..|s| - 1]);
      var c := s[|s| - 1];
      SplitFacts(s[..|s| - 1]);
      if IsTerminator(c) && st.frag != [] {
        var x := st.frag + [c];
        TrimSpaceKeepsLast(x);
        var t := TrimSpace(x);
        assert t[..|t| - 1] == st.frag[|x| - |t|..];
        assert IsTerminatedSentence(t);
      }
    }
  }

  lemma TrimmedFragment(t: string)
    requires HasNoTerminator(t)
    ensures HasNoTerminator(TrimSpace(t))
  {
    TrimSpaceFacts(t);
  }

  /** Every sentence but the last ends with its only terminator; the last
      one does too when the text ends with a terminator, and otherwise it
      holds no terminator at all. */
  lemma SentencesShape(s: string)
    ensures forall i :: 0 <= i < |Sentences(s)| - 1 ==> IsTerminatedSentence(Sentences(s)[i])
    ensures Sentences(s) != [] ==>
      var last := Sentences(s)[|Sentences(s)| - 1];
      if IsTerminator(s[|s| - 1]) then IsTerminatedSentence(last) else HasNoTerminator(last)
  {
    SplitFacts(s);
    var st := Split(s);
    if st.frag != [] {
      TrimmedFragment(st.frag);
    }
  }

  /** One more character read. */
  lemma SplitSnoc(s: string, c: char)
    ensures var st := Split(s);
      Split(s + [c]) == if IsTerminator(c) then
        SplitState(if st.frag != [] then st.done + [TrimSpace(st.frag + [c])] else st.done, [])
      else SplitState(st.done, st.frag + [c])
  {
    assert (s + [c])[..|s|] == s;
  }

  /** Reading on after a terminator is reading the rest afresh. */
  lemma {:induction false} SplitResumes(x: string, b: string)
    requires Split(x).frag == []
    ensures Split(x + b) == SplitState(Split(x).done + Split(b).done, Split(b).frag)
    decreases |b|
  {
    if b == [] {
      assert x + b == x;
    } else {
      var b', c := b[..|b| - 1], b[|b| - 1];
      AppendSplitLast(x, b);
      assert b == b' + [c];
      SplitResumes(x, b');
      SplitSnoc(x + b', c);
      SplitSnoc(b', c);
      var d, st := Split(x).done, Split(b');
      if IsTerminator(c) && st.frag != [] {
        AppendAssoc(d, st.done, [TrimSpace(st.frag + [c])]);
      }
    }
  }

  /** Text that ends with a terminator splits independently of what
      follows it. */
  lemma SentencesSplitAfterTerminator(a: string, b: string)
    requires a != [] && IsTerminator(a[|a| - 1])
    ensures Sentences(a + b) == Sentences(a) + Sentences(b)
  {
    SplitResumes(a, b);
    var d, st := Split(a).done, Split(b);
    if st.frag != [] {
      assert (d + st.done) + [TrimSpace(st.frag)] == d + (st.done + [TrimSpace(st.frag)]);
    }
  }

  lemma {:induction false} SplitOfFragment(s: string)
    requires HasNoTerminator(s)
    ensures Split(s) == SplitState([], s)
  {
    if s != [] {
      SplitOfFragment(s[..|s| - 1]);
      assert s[..|s| - 1] + [s[|s| - 1]] == s;
    }
  }

  /** Text without a terminator is one sentence, trimmed. */
  lemma SentencesOfFragment(s: string)
    requires s != [] && HasNoTerminator(s)
    ensures Sentences(s) == [TrimSpace(s)]
  {
    SplitOfFragment(s);
  }

  /** SplitSents reading a terminator at i: a non-empty fragment is
      closed, and at the end of the text the sentences are complete. */
  lemma SplitStepAtTerminator(text: string, i: nat, start: nat, sents: seq<string>)
    requires start <= i < |text| && IsTerminator(text[i])
    requires Split(text[..i]) == SplitState(sents, text[start..i])
    ensures var s := if start < i then sents + [TrimSpace(text[start..i + 1])] else sents;
      if i + 1 < |text| then Split(text[..i + 1]) == SplitState(s, text[i + 1..i + 1])
      else s == Sentences(text)
  {
    SliceSnoc(text, start, i);
    SplitSnoc(text[..i], text[i]);
    assert text[..|text|] == text;
  }

  /** SplitSents reading any other character at i: the fragment grows, and
      at the end of the text it is the last sentence. */
  lemma SplitStepInFragment(text: string, i: nat, start: nat, sents: seq<string>)
    requires start <= i < |text| && !IsTerminator(text[i])
    requires Split(text[..i]) == SplitState(sents, text[start..i])
    ensures if i + 1 < |text| then Split(text[..i + 1]) == SplitState(sents, text[start..i + 1])
      else sents + [TrimSpace(text[start..])] == Sentences(text)
  {
    SliceSnoc(text, start, i);
    SplitSnoc(text[..i], text[i]);
    assert text[..|text|] == text;
  }

  /** SplitSents: cuts a text into trimmed sentences. */
  method SplitSents(text: string) returns (sents: seq<string>)
    ensures sents == Sentences(text)
    ensures text == [] ==> sents == []
  {
    sents := [];
    var start := 0;
    for i := 0 to |text|
      invariant start <= i
      invariant i < |text| ==> Split(text[..i]) == SplitState(sents, text[start..i])
      invariant i == |text| ==> sents == Sentences(text)
    {
      if IsTerminator(text[i]) {
        SplitStepAtTerminator(text, i, start, sents);
        if start < i {
          sents := sents + [TrimSpace(text[start..i + 1])];
        }
        start := i + 1;
      } else {
        SplitStepInFragment(text, i, start, sents);
        if i == |text| - 1 {
          sents := sents + [TrimSpace(text[start..])];
        }
      }
    }
  }

  // ---------------------------------------------------------------------
  // Sentence features
  // ---------------------------------------------------------------------

  /** Lead bonus: 2 for the first sentence, 1 for the second, else 0. */
  function PositionWeight(i: nat): (l: nat)
    ensures l <= 2
    ensures l > 0 <==> i < 2
  {
    if i < 2 then 2 - i else 0
  }

  /** The number of adjacent word pairs `a b` in `s`. */
  function Pairs(s: seq<string>, a: string, b: string): (n: nat)
    ensures n <= Count(s, b)
  {
    if |s| < 2 then 0
    else
      assert s == s[..|s| - 1] + [s[|s| - 1]];
      Pairs(s[..|s| - 1], a, b) + (if s[|s| - 2] == a && s[|s| - 1] == b then 1 else 0)
  }

  /** c: the sentence words that equal a query token, counted once per
      query token they equal (repeats on either side count again). */
  function MatchCount(words: seq<string>, query: seq<string>): nat {
    if query == [] then 0
    else MatchCount(words, query[..|query| - 1]) + Count(words, query[|query| - 1])
  }

  /** d: the query tokens that occur in the sentence (a token repeated in
      the query counts again). */
  function DistinctMatches(words: seq<string>, query: seq<string>): (d: nat)
    ensures d <= |query|
  {
    if query == [] then 0
    else
      DistinctMatches(words, query[..|query| - 1]) +
      (if query[|query| - 1] in words then 1 else 0)
  }

  /** The chain ending at query position t: 1 when the token occurs, plus
      one for every place where it directly follows the previous query
      token in the sentence. */
  function ChainAt(words: seq<string>, query: seq<string>, t: nat): nat
    requires t < |query|
  {
    (if query[t] in words then 1 else 0) +
    (if t > 0 then Pairs(words, query[t - 1], query[t]) else 0)
  }

  /** k: the longest chain over all query positions (0 for no query). */
  function LongestChain(words: seq<string>, query: seq<string>): nat {
    if query == [] then 0
    else
      var p := LongestChain(words, query[..|query| - 1]);
      var q := ChainAt(words, query, |query| - 1);
      if q > p then q else p
  }

  /** The score of the i-th sentence: l + c + d + k. */
  function SentenceScore(i: nat, words: seq<string>, query: seq<string>): nat {
    PositionWeight(i) + MatchCount(words, query) +
    DistinctMatches(words, query) + LongestChain(words, query)
  }

  /** A query token is counted by d only if its occurrences are counted by
      c, so d never exceeds c. */
  lemma {:induction false} DistinctAtMostMatches(words: seq<string>, query: seq<string>)
    ensures DistinctMatches(words, query) <= MatchCount(words, query)
  {
    if query != [] {
      DistinctAtMostMatches(words, query[..|query| - 1]);
    }
  }

  /** There is a chain exactly when some query token occurs. */
  lemma {:induction false} NoChainIffNoMatch(words: seq<string>, query: seq<string>)
    ensures LongestChain(words, query) == 0 <==> DistinctMatches(words, query) == 0
    ensures MatchCount(words, query) == 0 <==> DistinctMatches(words, query) == 0
    ensures DistinctMatches(words, query) == 0 <==> forall t :: 0 <= t < |query| ==> query[t] !in words
  {
    if query != [] {
      var p := query[..|query| - 1];
      NoChainIffNoMatch(words, p);
      var t := |query| - 1;
      assert forall j :: 0 <= j < |p| ==> p[j] == query[j];
      if t > 0 {
        var n := Pairs(words, query[t - 1], query[t]);
        assert n > 0 ==> Count(words, query[t]) > 0;
      }
    }
  }

  /** Only the lead bonus is left for a sentence with no query token. */
  lemma UnmatchedScoresPosition(i: nat, words: seq<string>, query: seq<string>)
    ensures SentenceScore(i, words, query) == PositionWeight(i) <==>
      forall t :: 0 <= t < |query| ==> query[t] !in words
  {
    NoChainIffNoMatch(words, query);
    DistinctAtMostMatches(words, query);
  }

  lemma PairsSnoc(s: seq<string>, x: string, a: string, b: string)
    ensures Pairs(s + [x], a, b) ==
      Pairs(s, a, b) + (if s != [] && s[|s| - 1] == a && x == b then 1 else 0)
  {
    assert (s + [x])[..|s|] == s;
  }

  /** The body of QBSummary's loop over the query: c, d and k of one
      sentence. */
  method SentenceFeatures(words: seq<string>, query: seq<string>) returns (c: nat, d: nat, k: nat)
    ensures c == MatchCount(words, query)
    ensures d == DistinctMatches(words, query)
    ensures k == LongestChain(words, query)
  {
    c, d, k := 0, 0, 0;
    for t := 0 to |query|
      invariant c == MatchCount(words, query[..t])
      invariant d == DistinctMatches(words, query[..t])
      invariant k == LongestChain(words, query[..t])
    {
      var kTmp;
      c, d, kTmp := MatchToken(words, query, t, c, d);
      var q := query[..t + 1];
      assert q[..t] == query[..t] && q[t] == query[t];
      assert t > 0 ==> q[t - 1] == query[t - 1];
      if kTmp > k {
        k := kTmp;
      }
    }
    assert query[..|query|] == query;
  }

  /** QBSummary's loop over the sentence words for query position t: every
      match adds to c, the first one adds to d and starts the chain, and a
      match right after the previous query token extends the chain. */
  method MatchToken(words: seq<string>, query: seq<string>, t: nat, c0: nat, d0: nat)
    returns (c: nat, d: nat, kTmp: nat)
    requires t < |query|
    ensures c == c0 + Count(words, query[t])
    ensures d == d0 + (if query[t] in words then 1 else 0)
    ensures kTmp == ChainAt(words, query, t)
  {
    var token := query[t];
    var found := false;
    c, d, kTmp := c0, d0, 0;
    for w := 0 to |words|
      invariant found <==> token in words[..w]
      invariant c == c0 + Count(words[..w], token)
      invariant d == d0 + (if found then 1 else 0)
      invariant kTmp == (if found then 1 else 0) +
        (if t > 0 then Pairs(words[..w], query[t - 1], token) else 0)
    {
      SliceSnoc(words, 0, w);
      CountSnoc(words[..w], words[w], token);
      if t > 0 {
        PairsSnoc(words[..w], words[w], query[t - 1], token);
      }
      if words[w] == token {
        c := c + 1;
        if !found {
          found := true;
          d := d + 1;
          if kTmp == 0 {
            kTmp := kTmp + 1;
          }
        }
        if t > 0 && w > 0 && words[w - 1] == query[t - 1] {
          kTmp := kTmp + 1;
        }
      }
    }
    assert words[..|words|] == words;
  }

  // ---------------------------------------------------------------------
  // Ranking the sentences
  // ---------------------------------------------------------------------

  /** The tokens of a sentence. */
  function SentenceWords(sent: string): seq<string> {
    Words(LowerStr(sent))
  }

  /** Every sentence with its score, in text order. */
  function ScoredSentences(query: seq<string>, sents: seq<string>): seq<ScoreItem> {
    seq(|sents|, i requires 0 <= i < |sents| =>
      ScoreItem(sents[i], SentenceScore(i, SentenceWords(sents[i]), query) as real))
  }

  /** QBSummary: the sentences of `text`, each scored against the query
      tokens, highest score first. */
  method QBSummary(query: seq<string>, text: string) returns (ranked: seq<ScoreItem>)
    ensures SortedByScore(ranked)
    ensures multiset(ranked) == multiset(ScoredSentences(query, Sentences(text)))
    ensures |ranked| == |Sentences(text)|
  {
    var sents := SplitSents(text);
    ghost var expected := ScoredSentences(query, sents);
    var scores := new ScoreItem[|sents|](_ => ScoreItem("", 0.0));
    for i := 0 to |sents|
      invariant scores[..i] == expected[..i]
    {
      scores[i] := ScoreSentence(i, sents[i], query);
      assert scores[..i + 1] == scores[..i] + [expected[i]];
    }
    assert scores[..] == scores[..|sents|];
    ghost var before := scores[..];
    SortByScore(scores);
    ranked := scores[..];
    assert multiset(ranked) == multiset(before) && before == expected;
  }

  /** One iteration of QBSummary's loop over the sentences. */
  method ScoreSentence(i: nat, sent: string, query: seq<string>) returns (item: ScoreItem)
    ensures item == ScoreItem(sent, SentenceScore(i, SentenceWords(sent), query) as real)
  {
    var l := 0;
    if i < 2 {
      l := l + (2 - i);
    }
    var words := Tokenize(LowerStr(sent));
    LowerStrIdempotent(sent);
    var c, d, k := SentenceFeatures(words, query);
    item := ScoreItem(sent, (l + c + d + k) as real);
  }
}
