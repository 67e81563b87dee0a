/** Index construction (indexEngine): the term dictionary and posting
    store are grown one token at a time by `updateLex`, and each parsed
    document is given the next ordinal, its metadata entry and its
    postings. Reading the gzip stream, parsing the XML and writing the
    index files are not modelled: the parsed documents are the input. */
module IndexEngine {
  import opened Seqs
  import opened GoStrings
  import opened Ext

  // ---------------------------------------------------------------------
  // The tables updateLex works on
  // ---------------------------------------------------------------------

  /** The term dictionary together with the posting store. */
  datatype Tables = Tables(lex: Lexicon, postings: InvIndex)

  /** What updateLex needs to index without a panic: one posting map per
      word, and every id naming one of them. */
  ghost predicate Aligned(tb: Tables) {
    |tb.lex.words| == |tb.postings| && IdsInRange(tb.lex, tb.postings)
  }

  /** One `updateLex(word, docID)` on pure values: a known word gets its
      count for the document raised by one (a missing count reads as 0);
      an unseen word gets the next id and a posting map `{docID: 1}`. */
  function UpdateLexSpec(tb: Tables, word: string, docID: nat): (r: Tables)
    requires Aligned(tb)
    ensures Aligned(r)
  {
    var lex, postings := tb.lex, tb.postings;
    if word in lex.word2ID then
      var t := lex.word2ID[word];
      var count: nat := Get(postings[t], docID) + 1;
      var m: map<nat, nat> := postings[t][docID := count];
      Tables(lex, postings[t := m])
    else
      Tables(Lexicon(lex.words + [word], lex.word2ID[word := |lex.words|]),
             postings + [map[docID := 1]])
  }

  /** `updateLex` applied to each of `words` in turn, for one document. */
  function UpdateAllSpec(tb: Tables, words: seq<string>, docID: nat): (r: Tables)
    requires Aligned(tb)
    ensures Aligned(r)
  {
    if words == [] then tb
    else UpdateLexSpec(UpdateAllSpec(tb, words[..|words| - 1], docID), words[|words| - 1], docID)
  }

  // ---------------------------------------------------------------------
  // Invariants of the tables
  // ---------------------------------------------------------------------

  /** Ids and words are two views of one numbering: one posting map per
      word, `Word2ID[Words[i]] == i`, and every key of `Word2ID` listed. */
  ghost predicate LexConsistent(tb: Tables) {
    && |tb.lex.words| == |tb.postings|
    && (forall i :: 0 <= i < |tb.lex.words| ==>
          tb.lex.words[i] in tb.lex.word2ID && tb.lex.word2ID[tb.lex.words[i]] == i)
    && (forall w :: w in tb.lex.word2ID ==>
          tb.lex.word2ID[w] < |tb.lex.words| && tb.lex.words[tb.lex.word2ID[w]] == w)
  }

  /** The posting store counts the tokens of the documents `docs` (by
      ordinal): a stored count is positive and belongs to an indexed
      document, and term t's count for document d is the number of times
      `Words[t]` occurs among d's tokens. */
  ghost predicate CountsMatch(tb: Tables, docs: seq<seq<string>>)
    requires |tb.lex.words| == |tb.postings|
  {
    && (forall t, d :: 0 <= t < |tb.postings| && d in tb.postings[t] ==> d < |docs| && tb.postings[t][d] > 0)
    && (forall t, d :: 0 <= t < |tb.postings| && 0 <= d < |docs| ==>
          Get(tb.postings[t], d) == Count(docs[d], tb.lex.words[t]))
  }

  /** The tables after indexing the token lists `docs`: a consistent
      numbering, with words numbered in order of first occurrence, and
      counts that match. */
  ghost predicate IndexCore(tb: Tables, docs: seq<seq<string>>) {
    && LexConsistent(tb)
    && tb.lex.words == Unique(Flatten(docs))
    && CountsMatch(tb, docs)
  }

  /** A consistent numbering gives each word one id. */
  lemma LexConsistentFacts(tb: Tables)
    requires LexConsistent(tb)
    ensures Aligned(tb)
    ensures NoDup(tb.lex.words)
    ensures forall w :: w in tb.lex.word2ID <==> w in tb.lex.words
  {
    forall w | w in tb.lex.words ensures w in tb.lex.word2ID {
      var i :| 0 <= i < |tb.lex.words| && tb.lex.words[i] == w;
    }
  }

  /** The empty tables index no documents. */
  lemma EmptyCore()
    ensures IndexCore(Tables(Lexicon([], map[]), []), [])
  {
  }

  // ---------------------------------------------------------------------
  // updateLex
  // ---------------------------------------------------------------------

  /** updateLex changes exactly one count, or adds exactly one word: every
      other (term, document) count and every other posting map is left
      as it was. */
  lemma UpdateLexFrame(tb: Tables, word: string, docID: nat)
    requires LexConsistent(tb)
    ensures Aligned(tb)
    ensures var r := UpdateLexSpec(tb, word, docID);
      && LexConsistent(r)
      && (word in tb.lex.word2ID ==>
            && r.lex == tb.lex
            && |r.postings| == |tb.postings|
            && Get(r.postings[tb.lex.word2ID[word]], docID) == Get(tb.postings[tb.lex.word2ID[word]], docID) + 1
            && (forall t, d :: 0 <= t < |tb.postings| && (t != tb.lex.word2ID[word] || d != docID) ==>
                  Get(r.postings[t], d) == Get(tb.postings[t], d)))
      && (word !in tb.lex.word2ID ==>
            && r.lex.words == tb.lex.words + [word]
            && r.lex.word2ID[word] == |tb.lex.words|
            && r.postings == tb.postings + [map[docID := 1]])
  {
    LexConsistentFacts(tb);
  }

  /** Indexing one more token of the last document keeps the tables in
      step with the documents' token lists. */
  lemma UpdateLexKeepsCore(tb: Tables, before: seq<seq<string>>, current: seq<string>, word: string)
    requires IndexCore(tb, before + [current])
    ensures Aligned(tb)
    ensures IndexCore(UpdateLexSpec(tb, word, |before|), before + [current + [word]])
  {
    var docs := before + [current];
    LexConsistentFacts(tb);
    UpdateLexFrame(tb, word, |before|);
    assert docs[..|before|] == before;
    FlattenExtendLast(docs, word);
    UniqueSnoc(Flatten(docs), word);
    if word in tb.lex.word2ID {
      CountsAfterKnown(tb, docs, word);
    } else {
      AbsentFromDocs(docs, word);
      CountsAfterNew(tb, docs, word);
    }
  }

  lemma CountsAfterKnown(tb: Tables, docs: seq<seq<string>>, word: string)
    requires LexConsistent(tb) && CountsMatch(tb, docs) && docs != [] && word in tb.lex.word2ID
    ensures Aligned(tb)
    ensures var r := UpdateLexSpec(tb, word, |docs| - 1);
      |r.lex.words| == |r.postings| && CountsMatch(r, docs[..|docs| - 1] + [docs[|docs| - 1] + [word]])
  {
    LexConsistentFacts(tb);
    KnownWordKeys(tb, docs, word);
    KnownWordCounts(tb, docs, word);
  }

  /** The posting map that changes for a known word. */
  function RaisedMap(tb: Tables, word: string, docID: nat): map<nat, nat>
    requires Aligned(tb) && word in tb.lex.word2ID
  {
    var count: nat := Get(tb.postings[tb.lex.word2ID[word]], docID) + 1;
    tb.postings[tb.lex.word2ID[word]][docID := count]
  }

  lemma KnownWordKeys(tb: Tables, docs: seq<seq<string>>, word: string)
    requires LexConsistent(tb) && CountsMatch(tb, docs) && docs != [] && word in tb.lex.word2ID
    ensures Aligned(tb)
    ensures var r := UpdateLexSpec(tb, word, |docs| - 1);
      forall t, d :: 0 <= t < |r.postings| && d in r.postings[t] ==> d < |docs| && r.postings[t][d] > 0
  {
    LexConsistentFacts(tb);
    var last := |docs| - 1;
    var r := UpdateLexSpec(tb, word, last);
    var id := tb.lex.word2ID[word];
    assert r.postings == tb.postings[id := RaisedMap(tb, word, last)];
    forall t, d | 0 <= t < |r.postings| && d in r.postings[t]
      ensures d < |docs| && r.postings[t][d] > 0
    {
      if t != id {
        assert r.postings[t] == tb.postings[t];
      }
    }
  }

  lemma KnownWordCounts(tb: Tables, docs: seq<seq<string>>, word: string)
    requires LexConsistent(tb) && CountsMatch(tb, docs) && docs != [] && word in tb.lex.word2ID
    ensures Aligned(tb)
    ensures var r := UpdateLexSpec(tb, word, |docs| - 1);
      var docs' := docs[..|docs| - 1] + [docs[|docs| - 1] + [word]];
      forall t, d :: 0 <= t < |r.postings| && 0 <= d < |docs'| ==>
        Get(r.postings[t], d) == Count(docs'[d], r.lex.words[t])
  {
    LexConsistentFacts(tb);
    var last := |docs| - 1;
    var docs' := docs[..last] + [docs[last] + [word]];
    var r := UpdateLexSpec(tb, word, last);
    var id := tb.lex.word2ID[word];
    assert r.lex == tb.lex && r.postings == tb.postings[id := RaisedMap(tb, word, last)];
    forall t, d | 0 <= t < |r.postings| && 0 <= d < |docs'|
      ensures Get(r.postings[t], d) == Count(docs'[d], r.lex.words[t])
    {
      if d < last {
        assert docs'[d] == docs[d];
      } else {
        assert docs'[d] == docs[last] + [word];
        CountSnoc(docs[last], word, tb.lex.words[t]);
      }
      if t != id {
        assert r.postings[t] == tb.postings[t] && tb.lex.words[t] != word;
      }
    }
  }

  lemma CountsAfterNew(tb: Tables, docs: seq<seq<string>>, word: string)
    requires Aligned(tb) && CountsMatch(tb, docs) && docs != [] && word !in tb.lex.word2ID
    requires word !in tb.lex.words
    requires forall d :: 0 <= d < |docs| ==> word !in docs[d]
    ensures var r := UpdateLexSpec(tb, word, |docs| - 1);
      |r.lex.words| == |r.postings| && CountsMatch(r, docs[..|docs| - 1] + [docs[|docs| - 1] + [word]])
  {
    NewWordKeys(tb, docs, word);
    NewWordCounts(tb, docs, word);
  }

  lemma NewWordKeys(tb: Tables, docs: seq<seq<string>>, word: string)
    requires Aligned(tb) && CountsMatch(tb, docs) && docs != [] && word !in tb.lex.word2ID
    ensures var r := UpdateLexSpec(tb, word, |docs| - 1);
      forall t, d :: 0 <= t < |r.postings| && d in r.postings[t] ==> d < |docs| && r.postings[t][d] > 0
  {
    var r := UpdateLexSpec(tb, word, |docs| - 1);
    assert r.postings == tb.postings + [map[|docs| - 1 := 1]];
    forall t, d | 0 <= t < |r.postings| && d in r.postings[t]
      ensures d < |docs| && r.postings[t][d] > 0
    {
      if t < |tb.postings| {
        assert r.postings[t] == tb.postings[t];
      }
    }
  }

  lemma NewWordCounts(tb: Tables, docs: seq<seq<string>>, word: string)
    requires Aligned(tb) && CountsMatch(tb, docs) && docs != [] && word !in tb.lex.word2ID
    requires word !in tb.lex.words
    requires forall d :: 0 <= d < |docs| ==> word !in docs[d]
    ensures var r := UpdateLexSpec(tb, word, |docs| - 1);
      var docs' := docs[..|docs| - 1] + [docs[|docs| - 1] + [word]];
      forall t, d :: 0 <= t < |r.postings| && 0 <= d < |docs'| ==>
        Get(r.postings[t], d) == Count(docs'[d], r.lex.words[t])
  {
    var last := |docs| - 1;
    var docs' := docs[..last] + [docs[last] + [word]];
    var r := UpdateLexSpec(tb, word, last);
    var n := |tb.postings|;
    assert r.postings == tb.postings + [map[last := 1]];
    assert r.lex.words == tb.lex.words + [word];
    forall t, d | 0 <= t < |r.postings| && 0 <= d < |docs'|
      ensures Get(r.postings[t], d) == Count(docs'[d], r.lex.words[t])
    {
      var w := r.lex.words[t];
      if d < last {
        assert docs'[d] == docs[d];
      } else {
        assert docs'[d] == docs[last] + [word];
        CountSnoc(docs[last], word, w);
      }
      if t < n {
        assert r.postings[t] == tb.postings[t] && w == tb.lex.words[t] && w != word;
      } else {
        assert r.postings[t] == map[last := 1] && w == word;
      }
    }
  }

  /** A word missing from the numbering occurs in no indexed document. */
  lemma AbsentFromDocs(docs: seq<seq<string>>, word: string)
    requires word !in Unique(Flatten(docs))
    ensures forall d :: 0 <= d < |docs| ==> word !in docs[d]
  {
    var f := Flatten(docs);
    forall d, k | 0 <= d < |docs| && 0 <= k < |docs[d]|
      ensures docs[d][k] != word
    {
      InFlatten(docs, d, docs[d][k]);
      var i :| 0 <= i < |f| && f[i] == docs[d][k];
      assert f[i] in Unique(f);
    }
  }

  /** Indexing a run of tokens of the last document keeps the tables in
      step with the documents' token lists. */
  lemma {:induction false} UpdateAllKeepsCore(tb: Tables, before: seq<seq<string>>, current: seq<string>, words: seq<string>)
    requires IndexCore(tb, before + [current])
    ensures Aligned(tb)
    ensures IndexCore(UpdateAllSpec(tb, words, |before|), before + [current + words])
  {
    if words == [] {
      assert current + words == current;
    } else {
      var p, w := words[..|words| - 1], words[|words| - 1];
      UpdateAllKeepsCore(tb, before, current, p);
      AppendSplitLast(current, words);
      UpdateLexKeepsCore(UpdateAllSpec(tb, p, |before|), before, current + p, w);
    }
  }

  /** Opening a new document with no tokens yet changes no count. */
  lemma OpenDocumentKeepsCore(tb: Tables, docs: seq<seq<string>>)
    requires IndexCore(tb, docs)
    ensures IndexCore(tb, docs + [[]])
  {
    FlattenSnocEmpty(docs);
    var docs' := docs + [[]];
    forall t, d | 0 <= t < |tb.postings| && 0 <= d < |docs'|
      ensures Get(tb.postings[t], d) == Count(docs'[d], tb.lex.words[t])
    {
      if d < |docs| {
        assert docs'[d] == docs[d];
      } else {
        assert d !in tb.postings[t] && docs'[d] == [];
      }
    }
  }

  // ---------------------------------------------------------------------
  // Document length and term counts
  // ---------------------------------------------------------------------

  /** The counts recorded for document d, summed over all terms. */
  function TotalCount(postings: InvIndex, d: nat): nat {
    if postings == [] then 0
    else TotalCount(postings[..|postings| - 1], d) + Get(postings[|postings| - 1], d)
  }

  /** The occurrences in `s` of the elements of `u`, summed. */
  function SumCounts<T(==)>(s: seq<T>, u: seq<T>): nat {
    if u == [] then 0
    else SumCounts(s, u[..|u| - 1]) + Count(s, u[|u| - 1])
  }

  lemma {:induction false} SumCountsSnoc<T>(s: seq<T>, x: T, u: seq<T>)
    ensures SumCounts(s + [x], u) == SumCounts(s, u) + Count(u, x)
  {
    if u != [] {
      SumCountsSnoc(s, x, u[..|u| - 1]);
      assert (s + [x])[..|s|] == s;
    }
  }

  lemma {:induction false} CountOfNoDup<T>(u: seq<T>, x: T)
    requires NoDup(u) && x in u
    ensures Count(u, x) == 1
  {
    var p := u[..|u| - 1];
    assert NoDup(p);
    if u[|u| - 1] == x {
      assert x !in p by {
        assert forall i :: 0 <= i < |p| ==> p[i] == u[i] != u[|u| - 1];
      }
    } else {
      assert x in p;
      CountOfNoDup(p, x);
    }
  }

  /** Counting every distinct value once recovers the length. */
  lemma {:induction false} SumCountsIsLength<T>(s: seq<T>, u: seq<T>)
    requires NoDup(u)
    requires forall i :: 0 <= i < |s| ==> s[i] in u
    ensures SumCounts(s, u) == |s|
  {
    if s == [] {
      SumCountsOfEmpty(s, u);
    } else {
      var p := s[..|s| - 1];
      SumCountsIsLength(p, u);
      SumCountsSnoc(p, s[|s| - 1], u);
      CountOfNoDup(u, s[|s| - 1]);
      assert p + [s[|s| - 1]] == s;
    }
  }

  lemma {:induction false} SumCountsOfEmpty<T>(s: seq<T>, u: seq<T>)
    requires s == []
    ensures SumCounts(s, u) == 0
  {
    if u != [] {
      SumCountsOfEmpty(s, u[..|u| - 1]);
    }
  }

  lemma {:induction false} TotalCountIsSumCounts(postings: InvIndex, words: seq<string>, tokens: seq<string>, d: nat)
    requires |words| == |postings|
    requires forall t :: 0 <= t < |postings| ==> Get(postings[t], d) == Count(tokens, words[t])
    ensures TotalCount(postings, d) == SumCounts(tokens, words)
  {
    if postings != [] {
      TotalCountIsSumCounts(postings[..|postings| - 1], words[..|words| - 1], tokens, d);
    }
  }

  /** The counts stored for a document, summed over all terms, equal its
      number of tokens, repeats included. */
  lemma DocumentLengthIsTotalCount(tb: Tables, docs: seq<seq<string>>, d: nat)
    requires IndexCore(tb, docs) && d < |docs|
    ensures TotalCount(tb.postings, d) == |docs[d]|
  {
    LexConsistentFacts(tb);
    TotalCountIsSumCounts(tb.postings, tb.lex.words, docs[d], d);
    forall i | 0 <= i < |docs[d]| ensures docs[d][i] in tb.lex.words {
      InFlatten(docs, d, docs[d][i]);
    }
    SumCountsIsLength(docs[d], tb.lex.words);
  }

  /** A document has a posting entry for a term exactly when the term is
      one of its tokens. */
  lemma PostingIffToken(tb: Tables, docs: seq<seq<string>>, t: nat, d: nat)
    requires IndexCore(tb, docs) && t < |tb.postings| && d < |docs|
    ensures d in tb.postings[t] <==> tb.lex.words[t] in docs[d]
  {
  }

  // ---------------------------------------------------------------------
  // Date decoding
  // ---------------------------------------------------------------------

  /** The date arithmetic of the indexer on the number `mmddyy`, with Go's
      truncating `%` and `/`; the year is 1900 plus the last two digits. */
  function DecodeMMDDYY(mmddyy: int): (date: CalendarDate)
    ensures mmddyy >= 0 ==> date.month * 10000 + date.day * 100 + (date.year - 1900) == mmddyy
  {
    var yy := GoRem(mmddyy, 100);
    var dd := GoQuo(GoRem(mmddyy - yy, 10000), 100);
    var mm := GoQuo(mmddyy - yy - dd * 100, 10000);
    DecodeFacts(mmddyy);
    CalendarDate(mm, dd, 1900 + yy)
  }

  lemma DecodeFacts(x: int)
    ensures x >= 0 ==>
      var yy := GoRem(x, 100);
      var dd := GoQuo(GoRem(x - yy, 10000), 100);
      GoQuo(x - yy - dd * 100, 10000) * 10000 + dd * 100 + yy == x
  {
    if x >= 0 {
      var yy := x % 100;
      var q := x / 100;
      assert x - yy == 100 * q;
      var dd := GoQuo(GoRem(x - yy, 10000), 100);
      assert (100 * q) % 10000 == 100 * (q % 100) by { ShiftMod(q); }
      assert dd == q % 100;
      assert x - yy - dd * 100 == 10000 * (q / 100);
    }
  }

  lemma ShiftMod(q: nat)
    ensures (100 * q) % 10000 == 100 * (q % 100)
    ensures (100 * q) / 10000 == q / 100
  {
    var a, b := q / 100, q % 100;
    assert q == 100 * a + b;
    assert 100 * q == 10000 * a + 100 * b;
  }

  /** For a six-digit number the decoding is digit-pair extraction. */
  lemma DecodeDigitPairs(mmddyy: int)
    requires 0 <= mmddyy < 1000000
    ensures DecodeMMDDYY(mmddyy).year - 1900 == mmddyy % 100
    ensures DecodeMMDDYY(mmddyy).day == (mmddyy / 100) % 100
    ensures DecodeMMDDYY(mmddyy).month == mmddyy / 10000
  {
    var q := mmddyy / 100;
    ShiftMod(q);
    assert mmddyy / 10000 == q / 100;
  }

  /** The date fields cut out of a document number `LAmmddyy…`: the
      two-digit day, month and year strings, and the decoded numbers. */
  function DocDateOf(docno: string): (date: DocDate)
    requires |docno| >= 8
  {
    DocDate(docno[4..6], docno[2..4], docno[6..8], DecodeMMDDYY(Atoi(docno[2..8])))
  }

  /** When the six date characters are digits, the decoded numbers are the
      values of the month, day and year strings. */
  lemma DateFieldsAgree(docno: string)
    requires |docno| >= 8 && forall i :: 2 <= i < 8 ==> IsDigit(docno[i])
    ensures DocDateOf(docno).full == CalendarDate(
      DecimalValue(docno[2..4]), DecimalValue(docno[4..6]), 1900 + DecimalValue(docno[6..8]))
  {
    var s6 := docno[2..8];
    assert s6[..2] == docno[2..4];
    assert s6[2..4] == docno[4..6];
    assert s6[4..] == docno[6..8];
    SixDigits(s6);
    var vm, vd, vy := DecimalValue(s6[..2]), DecimalValue(s6[2..4]), DecimalValue(s6[4..]);
    var x := DecimalValue(s6);
    DigitPairs(vm, vd, vy);
    AtoiOfDigits(s6);
    DecodeDigitPairs(x);
  }

  lemma DigitPairs(vm: nat, vd: nat, vy: nat)
    requires vm < 100 && vd < 100 && vy < 100
    ensures var x := 10000 * vm + 100 * vd + vy;
      x < 1000000 && x % 100 == vy && (x / 100) % 100 == vd && x / 10000 == vm
  {
    var x := 10000 * vm + 100 * vd + vy;
    assert x == 100 * (100 * vm + vd) + vy;
    assert x / 100 == 100 * vm + vd;
  }

  /** Six digits read as three two-digit groups. */
  lemma SixDigits(s: string)
    requires |s| == 6 && AllDigits(s)
    ensures forall i :: 0 <= i < 2 ==> IsDigit(s[..2][i]) && IsDigit(s[2..4][i]) && IsDigit(s[4..][i])
    ensures DecimalValue(s) == 10000 * DecimalValue(s[..2]) + 100 * DecimalValue(s[2..4]) + DecimalValue(s[4..])
    ensures DecimalValue(s[..2]) < 100 && DecimalValue(s[2..4]) < 100 && DecimalValue(s[4..]) < 100
  {
    var a, b, c := s[..2], s[2..4], s[4..];
    assert forall i :: 0 <= i < 2 ==> a[i] == s[i] && b[i] == s[2 + i] && c[i] == s[4 + i];
    assert Pow10(2) == 100;
    assert |b| == 2 && |c| == 2;
    DecimalValueAppend(a, b);
    DecimalValueAppend(a + b, c);
    assert (a + b) + c == s;
    var va, vb, vc, vab := DecimalValue(a), DecimalValue(b), DecimalValue(c), DecimalValue(a + b);
    assert vab == va * 100 + vb;
    assert DecimalValue(s) == vab * 100 + vc;
    DecimalValueBound(a);
    DecimalValueBound(b);
    DecimalValueBound(c);
  }

  /** The headline kept in the metadata: the HEADLINE paragraphs joined,
      trimmed, with their newlines removed. */
  function Headline(doc: DocTree): (h: string)
    ensures '\n' !in h
  {
    RemoveNewlines(TrimSpace(Flatten(doc.headline)))
  }

  /** The text that is indexed: HEADLINE, TEXT, TABLE and GRAPHIC
      paragraphs, each list joined, in that order. */
  function IndexText(doc: DocTree): string {
    Flatten(doc.headline) + Flatten(doc.text) + Flatten(doc.table) + Flatten(doc.graphic)
  }

  /** The tokens a document contributes to the index. */
  function DocumentTokens(doc: DocTree): seq<string> {
    Words(LowerStr(IndexText(doc)))
  }

  /** The metadata record made for a document given ordinal `id`. */
  function EntryFor(doc: DocTree, id: nat): DocEntry
    requires |TrimSpace(doc.docNo)| >= 8
  {
    DocEntry(DocDateOf(TrimSpace(doc.docNo)), Headline(doc), id, |DocumentTokens(doc)|)
  }

  /** The metadata after indexing the token lists `docs` in order: one
      document number per ordinal, and for every number an entry whose
      ordinal carries that number and whose length is that document's
      token count, with the date cut out of the number. */
  ghost predicate MetaConsistent(meta: Meta, id: nat, docs: seq<seq<string>>) {
    && |meta.docNos| == id == |docs|
    && (forall d :: 0 <= d < |meta.docNos| ==> meta.docNos[d] in meta.main)
    && (forall n :: n in meta.main ==>
          && |n| >= 8
          && meta.main[n].date == DocDateOf(n)
          && meta.main[n].id < |meta.docNos|
          && meta.docNos[meta.main[n].id] == n
          && meta.main[n].length == |docs[meta.main[n].id]|)
  }

  /** Recording one more document keeps the metadata consistent. */
  lemma MetaStep(meta: Meta, id: nat, docs: seq<seq<string>>, docno: string, headline: string, tokens: seq<string>)
    requires MetaConsistent(meta, id, docs) && |docno| >= 8
    ensures MetaConsistent(
      Meta(meta.main[docno := DocEntry(DocDateOf(docno), headline, id, |tokens|)], meta.docNos + [docno]),
      id + 1, docs + [tokens])
  {
    var main' := meta.main[docno := DocEntry(DocDateOf(docno), headline, id, |tokens|)];
    var docNos' := meta.docNos + [docno];
    var docs' := docs + [tokens];
    forall d | 0 <= d < |docNos'| ensures docNos'[d] in main' {
      if d < |meta.docNos| {
        assert docNos'[d] == meta.docNos[d];
      }
    }
    forall n | n in main'
      ensures |n| >= 8 && main'[n].date == DocDateOf(n) && main'[n].id < |docNos'|
      ensures docNos'[main'[n].id] == n && main'[n].length == |docs'[main'[n].id]|
    {
      if n != docno {
        var e := meta.main[n];
        assert main'[n] == e;
        assert docNos'[e.id] == meta.docNos[e.id];
        assert docs'[e.id] == docs[e.id];
      }
    }
  }

  /** The trimmed document numbers of a corpus, in order. */
  function DocNumbers(docs: seq<DocTree>): (r: seq<string>)
    ensures |r| == |docs|
    ensures forall i :: 0 <= i < |docs| ==> r[i] == TrimSpace(docs[i].docNo)
  {
    if docs == [] then []
    else DocNumbers(docs[..|docs| - 1]) + [TrimSpace(docs[|docs| - 1].docNo)]
  }

  /** The token sequences of a corpus, in order. */
  function CorpusTokens(docs: seq<DocTree>): (r: seq<seq<string>>)
    ensures |r| == |docs|
    ensures forall i :: 0 <= i < |docs| ==> r[i] == DocumentTokens(docs[i])
  {
    if docs == [] then []
    else CorpusTokens(docs[..|docs| - 1]) + [DocumentTokens(docs[|docs| - 1])]
  }

  lemma CorpusSnoc(docs: seq<DocTree>, k: nat)
    requires k < |docs|
    ensures DocNumbers(docs[..k + 1]) == DocNumbers(docs[..k]) + [TrimSpace(docs[k].docNo)]
    ensures CorpusTokens(docs[..k + 1]) == CorpusTokens(docs[..k]) + [DocumentTokens(docs[k])]
  {
    assert docs[..k + 1][..k] == docs[..k];
  }

  /** The length stored in a document's metadata entry is the sum of the
      counts the posting store holds for its ordinal: the metadata and
      the postings agree on every document's size. */
  lemma StoredLengthIsTotalCount(tb: Tables, meta: Meta, id: nat, docs: seq<seq<string>>, n: string)
    requires IndexCore(tb, docs) && MetaConsistent(meta, id, docs) && n in meta.main
    ensures meta.main[n].id < |docs|
    ensures meta.main[n].length == TotalCount(tb.postings, meta.main[n].id)
  {
    DocumentLengthIsTotalCount(tb, docs, meta.main[n].id);
  }

  /** A finished index is ready for scoring: every term id has a posting
      map and every ordinal in a posting map names a document. */
  lemma BuiltIndexIsWellFormed(tb: Tables, meta: Meta, id: nat, docs: seq<seq<string>>)
    requires IndexCore(tb, docs) && MetaConsistent(meta, id, docs)
    ensures WellFormedIndex(tb.lex, tb.postings, meta)
  {
    LexConsistentFacts(tb);
  }

  // ---------------------------------------------------------------------
  // The indexer's state
  // ---------------------------------------------------------------------

  /** The state `Index` keeps while it reads the corpus: the lexicon, the
      posting store, the metadata and the next ordinal. `docTokens` records,
      for the proof, the tokens of each document indexed so far. */
  class IndexBuilder {
    var lex: Lexicon
    var postings: InvIndex
    var meta: Meta
    var id: nat
    ghost var docTokens: seq<seq<string>>

    ghost predicate Valid()
      reads this
    {
      IndexCore(Tables(lex, postings), docTokens) && MetaConsistent(meta, id, docTokens)
    }

    /** Empty lexicon, postings and metadata; ordinals start at 0. */
    constructor()
      ensures Valid()
      ensures lex == Lexicon([], map[]) && postings == [] && meta == Meta(map[], []) && id == 0
      ensures docTokens == []
    {
      lex := Lexicon([], map[]);
      postings := [];
      meta := Meta(map[], []);
      id := 0;
      docTokens := [];
      EmptyCore();
    }

    /** updateLex: counts one occurrence of `word` in document `docID`. */
    method UpdateLex(word: string, docID: nat)
      requires Aligned(Tables(lex, postings))
      modifies this
      ensures Tables(lex, postings) == UpdateLexSpec(Tables(old(lex), old(postings)), word, docID)
      ensures meta == old(meta) && id == old(id) && docTokens == old(docTokens)
    {
      if word in lex.word2ID {
        var t := lex.word2ID[word];
        var count: nat := Get(postings[t], docID) + 1;
        var m: map<nat, nat> := postings[t][docID := count];
        postings := postings[t := m];
      } else {
        lex := Lexicon(lex.words + [word], lex.word2ID[word := |lex.words|]);
        postings := postings + [map[docID := 1]];
      }
    }

    /** The token loop of the per-document step: updateLex for each token,
        in order, all counted for document `docID`. */
    method IndexTokens(tokens: seq<string>, docID: nat)
      requires IndexCore(Tables(lex, postings), docTokens)
      requires docTokens != [] && docID == |docTokens| - 1
      modifies this
      ensures IndexCore(Tables(lex, postings), docTokens)
      ensures docTokens == old(docTokens)[..docID] + [old(docTokens)[docID] + tokens]
      ensures LexConsistent(old(Tables(lex, postings)))
      ensures Tables(lex, postings) == UpdateAllSpec(old(Tables(lex, postings)), tokens, docID)
      ensures meta == old(meta) && id == old(id)
    {
      ghost var tb0 := Tables(lex, postings);
      LexConsistentFacts(tb0);
      for i := 0 to |tokens|
        invariant Tables(lex, postings) == UpdateAllSpec(tb0, tokens[..i], docID)
        invariant meta == old(meta) && id == old(id) && docTokens == old(docTokens)
      {
        assert tokens[..i + 1][..i] == tokens[..i];
        UpdateLex(tokens[i], docID);
      }
      assert tokens[..|tokens|] == tokens;
      assert docTokens == docTokens[..docID] + [docTokens[docID]];
      UpdateAllKeepsCore(tb0, docTokens[..docID], docTokens[docID], tokens);
      docTokens := docTokens[..docID] + [docTokens[docID] + tokens];
    }

    /** The per-document step of `Index`: tokenizes the document's text,
        then records it under the next ordinal. */
    method AddDocument(doc: DocTree)
      requires Valid()
      requires |TrimSpace(doc.docNo)| >= 8
      modifies this
      ensures Valid()
      ensures id == old(id) + 1
      ensures meta.docNos == old(meta.docNos) + [TrimSpace(doc.docNo)]
      ensures meta.main == old(meta.main)[TrimSpace(doc.docNo) := EntryFor(doc, old(id))]
      ensures docTokens == old(docTokens) + [DocumentTokens(doc)]
      ensures LexConsistent(old(Tables(lex, postings)))
      ensures Tables(lex, postings) == UpdateAllSpec(Tables(old(lex), old(postings)), DocumentTokens(doc), old(id))
    {
      var docno := TrimSpace(doc.docNo);
      var tokens := Tokenize(IndexText(doc));
      RecordDocument(docno, DocDateOf(docno), Headline(doc), tokens);
    }

    /** Appends the document number to the ordinal list, counts the
        document's tokens under the new ordinal, stores its metadata entry
        and advances the ordinal. */
    method RecordDocument(docno: string, date: DocDate, headline: string, tokens: seq<string>)
      requires Valid()
      requires |docno| >= 8 && date == DocDateOf(docno)
      modifies this
      ensures Valid()
      ensures id == old(id) + 1
      ensures meta.docNos == old(meta.docNos) + [docno]
      ensures meta.main == old(meta.main)[docno := DocEntry(date, headline, old(id), |tokens|)]
      ensures docTokens == old(docTokens) + [tokens]
      ensures LexConsistent(old(Tables(lex, postings)))
      ensures Tables(lex, postings) == UpdateAllSpec(Tables(old(lex), old(postings)), tokens, old(id))
    {
      meta := Meta(meta.main, meta.docNos + [docno]);
      OpenDocumentKeepsCore(Tables(lex, postings), docTokens);
      ghost var docs0 := docTokens;
      docTokens := docTokens + [[]];
      IndexTokens(tokens, id);
      assert docTokens == docs0 + [tokens] by {
        assert (docs0 + [[]])[..|docs0|] == docs0;
        assert [] + tokens == tokens;
      }
      MetaStep(old(meta), id, docs0, docno, headline, tokens);
      meta := Meta(meta.main[docno := DocEntry(date, headline, id, |tokens|)], meta.docNos);
      id := id + 1;
    }
    }

  /** `Index` over a corpus already parsed into documents: each document
      receives the next ordinal, in input order. */
  method IndexCorpus(docs: seq<DocTree>) returns (b: IndexBuilder)
    requires forall i :: 0 <= i < |docs| ==> |TrimSpace(docs[i].docNo)| >= 8
    ensures fresh(b) && b.Valid()
    ensures b.id == |docs|
    ensures b.meta.docNos == DocNumbers(docs)
    ensures b.docTokens == CorpusTokens(docs)
    ensures WellFormedIndex(b.lex, b.postings, b.meta)
  {
    b := new IndexBuilder();
    AddAll(b, docs);
    BuiltIndexIsWellFormed(Tables(b.lex, b.postings), b.meta, b.id, b.docTokens);
  }

  method AddAll(b: IndexBuilder, docs: seq<DocTree>)
    requires b.Valid() && b.id == 0 && b.meta.docNos == [] && b.docTokens == []
    requires forall i :: 0 <= i < |docs| ==> |TrimSpace(docs[i].docNo)| >= 8
    modifies b
    ensures b.Valid()
    ensures b.id == |docs|
    ensures b.meta.docNos == DocNumbers(docs)
    ensures b.docTokens == CorpusTokens(docs)
  {
    for k := 0 to |docs|
      invariant b.Valid() && b.id == k
      invariant b.meta.docNos == DocNumbers(docs[..k])
      invariant b.docTokens == CorpusTokens(docs[..k])
    {
      CorpusSnoc(docs, k);
      b.AddDocument(docs[k]);
    }
    assert docs[..|docs|] == docs;
  }
}
