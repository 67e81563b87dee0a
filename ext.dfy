/** The engine's shared record types and its tokenizer (package ext). */
module Ext {
  import opened Seqs
  import opened GoStrings

  // ---------------------------------------------------------------------
  // Records
  // ---------------------------------------------------------------------

  /** One parsed corpus document: its number and the paragraphs of its
      HEADLINE, TEXT, TABLE cells and GRAPHIC captions. */
  datatype DocTree = DocTree(
    docNo: string,
    headline: seq<string>,
    text: seq<string>,
    table: seq<string>,
    graphic: seq<string>)

  /** The decoded numbers behind the display date (month, day, 1900 + yy). */
  datatype CalendarDate = CalendarDate(month: int, day: int, year: int)

  /** Day, month and two-digit year as cut out of the document number, and
      the display date. */
  datatype DocDate = DocDate(day: string, month: string, year: string, full: CalendarDate)

  datatype DocEntry = DocEntry(date: DocDate, headline: string, id: nat, length: nat)

  /** Per-document metadata by document number, and all document numbers in
      indexing order (position = ordinal). */
  datatype Meta = Meta(main: map<string, DocEntry>, docNos: seq<string>)

  /** The term dictionary: terms by id and ids by term. */
  datatype Lexicon = Lexicon(words: seq<string>, word2ID: map<string, nat>)

  /** Posting store: for each term id, document ordinal to term count. */
  type InvIndex = seq<map<nat, nat>>

  /** A document number or sentence with its relevance score. */
  datatype ScoreItem = ScoreItem(name: string, score: real)

  /** The value a Go map yields for a document number it does not hold. */
  const ZeroEntry := DocEntry(DocDate("", "", "", CalendarDate(0, 0, 0)), "", 0, 0)

  /** `meta.Main[docNo]`, with Go's zero value for a missing key. */
  function EntryOf(meta: Meta, docNo: string): (e: DocEntry)
    ensures docNo !in meta.main ==> e == ZeroEntry
  {
    if docNo in meta.main then meta.main[docNo] else ZeroEntry
  }

  /** `m[k]` on a Go map of counts: 0 when the key is absent. */
  function Get(m: map<nat, nat>, k: nat): nat {
    if k in m then m[k] else 0
  }

  /** Every term id in the dictionary has a posting map. */
  ghost predicate IdsInRange(lex: Lexicon, postings: InvIndex) {
    forall w :: w in lex.word2ID ==> lex.word2ID[w] < |postings|
  }

  /** Every ordinal in a posting map names a document. */
  ghost predicate OrdinalsInRange(postings: InvIndex, meta: Meta) {
    forall t, d :: 0 <= t < |postings| && d in postings[t] ==> d < |meta.docNos|
  }

  /** What a loaded index must satisfy before it is scored. */
  ghost predicate WellFormedIndex(lex: Lexicon, postings: InvIndex, meta: Meta) {
    IdsInRange(lex, postings) && OrdinalsInRange(postings, meta)
  }

  // ---------------------------------------------------------------------
  // Tokenizer
  // ---------------------------------------------------------------------

  /** The tokenizer's state after reading a text: the tokens completed so
      far and the run of word characters still open. */
  datatype ScanState = ScanState(done: seq<string>, run: string)

  /** Reads a text one character at a time: a word character extends the
      open run, any other character closes a non-empty run into a token. */
  function Scan(s: string): ScanState {
    if s == [] then ScanState([], [])
    else
      var st := Scan(s[..|s| - 1]);
      var c := s[|s| - 1];
      if IsWordChar(c) then ScanState(st.done, st.run + [c])
      else if st.run != [] then ScanState(st.done + [st.run], [])
      else ScanState(st.done, [])
  }

  /** The tokens of a text: its maximal runs of word characters, with a run
      still open at the end of the text closed as well. */
  function Words(s: string): seq<string> {
    var st := Scan(s);
    if st.run != [] then st.done + [st.run] else st.done
  }

  ghost predicate AllWordChars(w: string) {
    forall k :: 0 <= k < |w| ==> IsWordChar(w[k])
  }

  /** The word characters of a text, in order. */
  function WordChars(s: string): string {
    if s == [] then []
    else WordChars(s[..|s| - 1]) + (if IsWordChar(s[|s| - 1]) then [s[|s| - 1]] else [])
  }

  /** The number of positions where a run of word characters begins. */
  function RunStarts(s: string): nat {
    if s == [] then 0
    else
      RunStarts(s[..|s| - 1]) +
      (if IsWordChar(s[|s| - 1]) && (|s| == 1 || !IsWordChar(s[|s| - 2])) then 1 else 0)
  }

  lemma {:induction false} ScanFacts(s: string)
    ensures forall i :: 0 <= i < |Scan(s).done| ==>
      Scan(s).done[i] != [] && AllWordChars(Scan(s).done[i])
    ensures AllWordChars(Scan(s).run)
    ensures Flatten(Scan(s).done) + Scan(s).run == WordChars(s)
    ensures Scan(s).run != [] <==> s != [] && IsWordChar(s[|s| - 1])
    ensures |Scan(s).done| + (if Scan(s).run != [] then 1 else 0) == RunStarts(s)
  {
    if s != [] {
      var p := s[..|s| - 1];
      var c := s[|s| - 1];
      ScanFacts(p);
      var st := Scan(p);
      assert p != [] ==> p[|p| - 1] == s[|s| - 2];
      if !IsWordChar(c) && st.run != [] {
        assert (st.done + [st.run])[..|st.done|] == st.done;
      }
    }
  }

  /** Every token is non-empty and made of word characters only. */
  lemma WordsAreNonEmptyRuns(s: string)
    ensures forall i :: 0 <= i < |Words(s)| ==> Words(s)[i] != [] && AllWordChars(Words(s)[i])
  {
    ScanFacts(s);
  }

  /** The tokens, concatenated in order, are the text with every non-word
      character removed. */
  lemma WordsConcatenate(s: string)
    ensures Flatten(Words(s)) == WordChars(s)
  {
    ScanFacts(s);
    var st := Scan(s);
    if st.run != [] {
      assert (st.done + [st.run])[..|st.done|] == st.done;
    }
  }

  /** There is one token per maximal run of word characters. */
  lemma WordsCountRuns(s: string)
    ensures |Words(s)| == RunStarts(s)
  {
    ScanFacts(s);
  }

  /** Reading on from a state with no open run is reading the rest afresh. */
  lemma {:induction false} ScanResumes(x: string, b: string)
    requires Scan(x).run == []
    ensures Scan(x + b) == ScanState(Scan(x).done + Scan(b).done, Scan(b).run)
    decreases |b|
  {
    if b == [] {
      assert x + b == x;
    } else {
      var b' := b[..|b| - 1];
      assert (x + b)[..|x + b| - 1] == x + b';
      ScanResumes(x, b');
      var d, st := Scan(x).done, Scan(b');
      assert (d + st.done) + [st.run] == d + (st.done + [st.run]);
    }
  }

  /** A delimiter splits the text: the tokens on either side of it are
      found independently of each other. */
  lemma WordsSplitAtDelimiter(a: string, c: char, b: string)
    requires !IsWordChar(c)
    ensures Words(a + [c] + b) == Words(a) + Words(b)
  {
    assert (a + [c])[..|a|] == a;
    ScanResumes(a + [c], b);
  }

  /** A single run of word characters is one token, the whole run. */
  lemma WordsOfRun(w: string)
    requires w != [] && AllWordChars(w)
    ensures Words(w) == [w]
  {
    assert Scan(w) == ScanState([], w) by { ScanOfRun(w); }
  }

  lemma {:induction false} ScanOfRun(w: string)
    requires AllWordChars(w)
    ensures Scan(w) == ScanState([], w)
  {
    if w != [] {
      var p := w[..|w| - 1];
      assert AllWordChars(p);
      ScanOfRun(p);
      assert p + [w[|w| - 1]] == w;
    }
  }

  /** A text with no word character has no tokens. */
  lemma {:induction false} WordsOfDelimiters(s: string)
    requires forall k :: 0 <= k < |s| ==> !IsWordChar(s[k])
    ensures Words(s) == []
  {
    ScanFacts(s);
    assert RunStarts(s) == 0 by { NoRunStarts(s); }
  }

  lemma {:induction false} NoRunStarts(s: string)
    requires forall k :: 0 <= k < |s| ==> !IsWordChar(s[k])
    ensures RunStarts(s) == 0
  {
    if s != [] {
      NoRunStarts(s[..|s| - 1]);
    }
  }

  /** One more character read. */
  lemma ScanSnoc(s: string, c: char)
    ensures var st := Scan(s);
      Scan(s + [c]) ==
        if IsWordChar(c) then ScanState(st.done, st.run + [c])
        else if st.run != [] then ScanState(st.done + [st.run], [])
        else ScanState(st.done, [])
  {
    assert (s + [c])[..|s|] == s;
  }

  /** What reading character i does to Tokenize's variables: a delimiter
      closes a non-empty run, and the last character closes the text. */
  lemma TokenizeStep(runes: string, i: nat, start: nat, tokens: seq<string>)
    requires start <= i < |runes|
    requires Scan(runes[..i]) == ScanState(tokens, runes[start..i])
    ensures !IsWordChar(runes[i]) ==>
      var t := if start < i then tokens + [runes[start..i]] else tokens;
      if i + 1 < |runes| then Scan(runes[..i + 1]) == ScanState(t, runes[i + 1..i + 1])
      else t == Words(runes)
    ensures IsWordChar(runes[i]) ==>
      if i + 1 < |runes| then Scan(runes[..i + 1]) == ScanState(tokens, runes[start..i + 1])
      else tokens + [runes[start..]] == Words(runes)
  {
    SliceSnoc(runes, start, i);
    ScanSnoc(runes[..i], runes[i]);
    assert runes[..|runes|] == runes;
  }

  /** ext.Tokenize: lower-cases the text, then cuts it into maximal runs
      of letters and digits. */
  method Tokenize(text: string) returns (tokens: seq<string>)
    ensures tokens == Words(LowerStr(text))
    ensures text == [] ==> tokens == []
  {
    var runes := LowerStr(text);
    tokens := [];
    var start := 0;
    for i := 0 to |runes|
      invariant start <= i
      invariant i < |runes| ==> Scan(runes[..i]) == ScanState(tokens, runes[start..i])
      invariant i == |runes| ==> tokens == Words(runes)
    {
      TokenizeStep(runes, i, start, tokens);
      if !IsWordChar(runes[i]) {
        if start < i {
          tokens := tokens + [runes[start..i]];
        }
        start := i + 1;
      } else if i == |runes| - 1 {
        tokens := tokens + [runes[start..]];
      }
    }
  }
}
