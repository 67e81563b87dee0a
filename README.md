# A verified model of the MSCI 541 search engine core

The system is a small search engine written in Go for the LA Times corpus. It has two parts:

- **indexEngine** reads the corpus and builds three structures. The term dictionary holds terms by id and ids by term. The posting store maps, for each term id, a document ordinal to a term count. The metadata maps each document number to its date strings, headline, ordinal and token count.
- **retrieve** ranks documents for a query with BM25. It then fetches each hit's body and ranks the body's sentences against the query to give a query-biased summary.

This project models the computational core of both parts in Dafny and proves properties of the model.

| file | module | models |
|---|---|---|
| `seqs.dfy` | `Seqs` | Sequence vocabulary shared by the rest: occurrence counts, duplicate freedom, order-preserving deduplication, concatenation of a list of lists. |
| `gostrings.dfy` | `GoStrings` | The Go library operations the core relies on: `strings.ToLower`, `strings.TrimSpace`, `strings.TrimSuffix`, newline removal with a regexp, `strconv.Atoi` with its error ignored (through `ParseInt` and `ParseUint`), and Go's truncating `%` and `/`. A reference decimal rendering of numbers (`DecimalString`) states what Atoi reads back; the core itself never renders numbers. |
| `ext.dfy` | `Ext` | The record types of package `ext`. `ext.Tokenize` as a loop, proved equal to an automaton specification (`Scan`/`Words`). |
| `sorting.dfy` | `Sorting` | `sort.Slice` with the comparator "score of i greater than score of j": an in-place sort of an array of score items. |
| `indexengine.dfy` | `IndexEngine` | `updateLex` on pure values (`UpdateLexSpec`) and as a method of the class `IndexBuilder`. The class holds the state `Index` keeps. Also modelled: the per-document step (date decoding, headline, text assembly, tokens, metadata entry) and the corpus loop over already parsed documents. |
| `bm25.dfy` | `Bm25` | `UniqueInts`, and `BM25`: query resolution, score accumulation over the posting maps of the distinct query terms, the result list and the ranking. |
| `retrieve.dfy` | `Retrieve` | `SplitSents` as a loop, proved equal to an automaton specification (`Split`/`Sentences`). `QBSummary` with its sentence features l, c, d and k. |
| `getdoc.dfy` | `GetDoc` | `GetPath`. Key resolution by ordinal or document number in `GetRaw` and `GetBody`. The raw file read, and the body text assembly. |

The main results:

- **Indexing.** After every `updateLex`, every document and the whole corpus, the tables are in step with the tokens indexed so far (`IndexCore`):
  - the dictionary numbers words in order of first occurrence, and `Word2ID` inverts `Words`;
  - a stored count is positive and equals the number of times the term occurs among the document's tokens;
  - a document has a posting entry exactly when the term is one of its tokens;
  - a document's counts summed over all terms equal its recorded length.
- **Metadata.** The metadata stays consistent (`MetaConsistent`): one number per ordinal, each entry's ordinal leads back to its number, and the date is cut from the number. A finished index is well formed for scoring.
- **BM25.** The returned documents are exactly those that some known query token's posting map holds, each once. Each carries the sum of the contributions of the distinct query terms. The list is sorted by non-increasing score.
- **Sentence splitting.** `SplitSents` yields sentences that each end with their only terminator. The exception is a last fragment with no terminator.
- **Summaries.** `QBSummary` returns every sentence once with its score l + c + d + k, highest first. The features obey d ≤ c, and k = 0 ⇔ d = 0 ⇔ c = 0.
- **Fetching documents.** For an indexed document, `GetPath` finds the file the indexer wrote. Looking a document up by ordinal and by number gives the same body.

## Model

| member | source | states |
|---|---|---|
| Seqs.Count | bm25/bm25.go:43-48 | The number of occurrences of x is at most the length, and it is positive exactly when x occurs. |
| Seqs.Unique | bm25/bm25.go:9-20 | The deduplicated sequence has no repeats and holds exactly the input's elements, both ways. It is no longer than the input. |
| Seqs.UniqueFirstSeenOrder | bm25/bm25.go:9-20 | Deduplication lists the elements in order of their first occurrence in the input. |
| Seqs.UniqueOfNoDup | bm25/bm25.go:9-20 | A sequence with no repeats is its own deduplication. |
| Seqs.UniqueIdempotent | bm25/bm25.go:9-20 | Deduplicating twice is deduplicating once. |
| Seqs.UniqueSnoc | bm25/bm25.go:13-17 | One more input value is appended to the output exactly when it was not seen before. |
| Seqs.InFlatten | indexEngine/indexEngine.go:84-87 | Every element of every joined part occurs in the joined text. |
| GoStrings.LowerStr | ext/ext.go:75 | Lower-casing keeps the length and maps each character on its own. |
| GoStrings.LowerStrIdempotent | retrieve/retrieve.go:53 | Lower-casing an already lower-cased sentence, as QBSummary does before Tokenize lower-cases it again, changes nothing. |
| GoStrings.TrimSpace | indexEngine/indexEngine.go:71 | `strings.TrimSpace`, which also trims the headline (indexEngine.go:80) and every sentence (retrieve.go:27,31). It has no contract of its own; TrimSpaceFacts states what it keeps and drops. |
| GoStrings.TrimLeftFacts | indexEngine/indexEngine.go:71 | Trimming on the left keeps a suffix that does not start with white space, and drops only white space. |
| GoStrings.TrimRightFacts | indexEngine/indexEngine.go:71 | Trimming on the right keeps a prefix that does not end with white space, and drops only white space. |
| GoStrings.TrimSpaceFacts | retrieve/retrieve.go:27 | TrimSpace returns a contiguous slice of its input that neither starts nor ends with white space. Everything it drops on either side is white space. |
| GoStrings.TrimSpaceKeepsLast | retrieve/retrieve.go:27 | Trimming a text that ends in a non-space character keeps that character last. The result is a suffix of the text. |
| GoStrings.TrimSuffix | getDoc/getDoc.go:15 | The result is the input, or the input with the suffix cut off; when the input ends with the suffix it is cut off. |
| GoStrings.RemoveNewlines | getDoc/getDoc.go:67-71 | The result holds no newline, is no longer than the input, and equals a text that had none. |
| GoStrings.RemoveNewlinesAppend | getDoc/getDoc.go:67-71 | Removing newlines from two texts joined is removing them from each and joining. |
| GoStrings.RemoveNewlinesKeepsOthers | indexEngine/indexEngine.go:81-82 | Every character other than newline is kept as often as it occurs. |
| GoStrings.DecimalValueBound | indexEngine/indexEngine.go:72 | A string of k digits denotes a number below 10^k. |
| GoStrings.DecimalValueAppend | indexEngine/indexEngine.go:72 | Reading two digit strings in a row shifts the first value left by the second string's length. |
| GoStrings.ParseDigits | getDoc/getDoc.go:30 | ParseUint's left-to-right scan: a value it returns is at least what was read before and at most 2^64 - 1. |
| GoStrings.FirstDigit | getDoc/getDoc.go:30 | A digit string's value is its first digit shifted past the rest plus the rest's value, the order ParseUint reads in. |
| GoStrings.ParseDigitsOfDigits | getDoc/getDoc.go:30 | A run of digits is read as its decimal value, unless that passes 2^64 - 1: then the scan reports a range error, whatever follows the run. |
| GoStrings.ParseUint | getDoc/getDoc.go:30 | `strconv.ParseUint` in base 10: the empty text is a syntax error, anything else is scanned by ParseDigits from 0. No contract of its own. |
| GoStrings.SignedValue | getDoc/getDoc.go:30 | ParseInt's reading of ParseUint's report: stays in the 64-bit range. A syntax error gives 0, and a range error gives the bound on the side of the sign. |
| GoStrings.Atoi | indexEngine/indexEngine.go:72 | `strconv.Atoi` with its error ignored stays in the 64-bit range and is non-negative on a digit string. |
| GoStrings.AtoiOfSigned | getDoc/getDoc.go:30 | Atoi strips one sign and reads the rest with ParseUint. |
| GoStrings.AtoiOverflowingDigits | getDoc/getDoc.go:30 | Digits that overflow 64 bits make Atoi return MaxInt64, or MinInt64 after a minus, whatever characters follow them. |
| GoStrings.AtoiJunkAfterDigits | getDoc/getDoc.go:30 | A character other than a digit, reached before the digits overflow, makes Atoi return 0. |
| GoStrings.AtoiOfDigits | getDoc/getDoc.go:30 | A digit string whose value fits in 64 bits parses to its value. |
| GoStrings.DecimalString | getDoc/getDoc.go:30 | A reference decimal rendering of a number, against which Atoi's reading is stated: a non-empty digit string. |
| GoStrings.DecimalStringValue | getDoc/getDoc.go:30 | Reading back the decimal digits of a number gives the number. |
| GoStrings.AtoiOfDecimalString | getDoc/getDoc.go:30 | Atoi inverts the decimal rendering of every number in the 64-bit range. |
| GoStrings.GoRem | indexEngine/indexEngine.go:73-74 | Go's remainder is strictly between -b and b, adds up with the truncated quotient to the dividend, and is the Euclidean remainder on non-negative dividends. |
| GoStrings.GoQuo | indexEngine/indexEngine.go:74-75 | quotient × b + remainder = dividend, and the quotient is floor division on non-negative dividends. |
| Ext.Get | indexEngine/indexEngine.go:23 | A count missing from a posting map reads as 0, as the `++` on a Go map does. No contract of its own; UpdateLexFrame states the increment. |
| Ext.EntryOf | getDoc/getDoc.go:20-22 | A document number missing from the metadata reads as the zero entry, with empty date strings. |
| Ext.ScanFacts | ext/ext.go:78-87 | The tokenizer automaton completes only non-empty runs of word characters. The completed runs and the open run concatenate to the text's word characters. The run is open exactly when the text ends in a word character, and the tokens number the run starts. |
| Ext.WordsAreNonEmptyRuns | ext/ext.go:78-87 | Every token is non-empty and made of letters and digits only. |
| Ext.WordsConcatenate | ext/ext.go:78-87 | The tokens, concatenated in order, are the text with every other character removed. |
| Ext.WordsCountRuns | ext/ext.go:78-87 | There is one token per maximal run of word characters. |
| Ext.ScanResumes | ext/ext.go:80-83 | After a delimiter the tokenizer resumes afresh: the rest is tokenized on its own and appended. |
| Ext.WordsSplitAtDelimiter | ext/ext.go:79-83 | A delimiter splits the text into two independently tokenized halves. |
| Ext.WordsOfRun | ext/ext.go:84-85 | A text made of one run of word characters is one token, the whole text. |
| Ext.WordsOfDelimiters | ext/ext.go:79-83 | A text without letters or digits has no tokens. |
| Ext.ScanSnoc | ext/ext.go:78-87 | Reading one more character extends the open run, closes a non-empty run, or does nothing. |
| Ext.TokenizeStep | ext/ext.go:79-86 | One iteration of the loop keeps its variables equal to the automaton's state, and at the last character completes the token list. |
| Ext.Tokenize | ext/ext.go:73-89 | The tokens are the maximal runs of letters and digits of the lower-cased text, in order. Empty text gives no tokens. |
| Sorting.SortByScore | bm25/bm25.go:66-68 | In place: the array ends up sorted by non-increasing score and is a permutation of what it held. |
| Sorting.InsertLast | retrieve/retrieve.go:83-85 | Inserting the next item into the sorted prefix keeps it sorted, keeps the items and leaves everything after it in place. |
| Sorting.Swap | retrieve/retrieve.go:83-85 | Exchanges two items and leaves the rest. |
| Sorting.SortedCopy | bm25/bm25.go:61-68 | The sorted list holds the same items, as a multiset, and is ordered by non-increasing score. |
| Bm25.UniqueInts | bm25/bm25.go:9-20 | The loop with its seen-map returns exactly the order-preserving deduplication of the input. |
| Bm25.Resolve | bm25/bm25.go:24-29 | Resolving keeps at most one id per query token. |
| Bm25.ResolveAppend | bm25/bm25.go:25-29 | Resolution works token by token: resolving a joined query joins the resolutions. |
| Bm25.ResolveKeepsKnown | bm25/bm25.go:24-29 | Every resolved id is the id of a known query token, and every known token's id is resolved. |
| Bm25.ResolveEmptyIff | bm25/bm25.go:24-29 | Nothing resolves exactly when no query token is in the dictionary. |
| Bm25.ResolveQuery | bm25/bm25.go:24-29 | The loop computes the resolution of the query: known tokens' ids in query order with repeats. |
| Bm25.QueryFrequency | bm25/bm25.go:43-48 | qf is the number of occurrences of the term among the resolved query tokens, at least 1 for a query term. |
| Bm25.DocLength | bm25/bm25.go:49 | The length recorded for an ordinal's document, 0 for a number without an entry. No contract of its own; StoredLengthIsTotalCount says what that length is. |
| Bm25.Contribution | bm25/bm25.go:49-57 | The `partial` term for a document holding the term, with f, qf, dl and n as the source computes them, and nothing otherwise. No contract of its own; Accumulate and ScoreOfUnmatched state how it is summed. |
| Bm25.MatchedIff | bm25/bm25.go:40-41 | A document is scored exactly when one of the terms has it in its posting map. |
| Bm25.ScoreOfUnmatched | bm25/bm25.go:53-57 | A document no term holds gets no contribution. |
| Bm25.Accumulate | bm25/bm25.go:39-59 | The score map's keys are exactly the matched documents. Each score is the sum over the distinct terms of the term's contribution. |
| Bm25.AddTermScores | bm25/bm25.go:41-58 | One term's pass creates or raises the score of each document of its posting map by its contribution. It keeps the key/score relation for the terms done so far plus this one. |
| Bm25.PartwayStep | bm25/bm25.go:53-57 | Creating a missing score or adding to an existing one keeps the pass invariant. |
| Bm25.PartwayDone | bm25/bm25.go:41-58 | A finished pass accounts for the term in every score. |
| Bm25.ExtendTerms | bm25/bm25.go:40-41 | One more term adds its posting documents to the matched set and its contribution to every score. |
| Bm25.BuildResults | bm25/bm25.go:61-64 | One item per scored ordinal, each once, named by the ordinal's document number and carrying its score. |
| Bm25.ScoredDocuments | bm25/bm25.go:39-59 | Scored documents are those some known query token's posting map holds. All are valid ordinals, and there are none when no token is known. |
| Bm25.ItemsOfScores | bm25/bm25.go:61-64 | The items built from the score map are the items of the listed ordinals with their specified scores. |
| Bm25.MatchedDistinctIff | bm25/bm25.go:40 | Scoring only the distinct terms matches the same documents as scoring every resolved token. |
| Bm25.ResolvedIndexed | bm25/bm25.go:26-27 | On a well-formed index every resolved id has a posting map. |
| Bm25.BM25 | bm25/bm25.go:22-70 | The results are the documents some known query token's posting map holds, each once, each with its score, sorted by non-increasing score. No known token gives no results. |
| IndexEngine.UpdateLexSpec | indexEngine/indexEngine.go:20-29 | updateLex keeps one posting map per word, with every id naming one. |
| IndexEngine.UpdateAllSpec | indexEngine/indexEngine.go:91-94 | updateLex over a token list keeps the tables aligned. |
| IndexEngine.LexConsistentFacts | indexEngine/indexEngine.go:22-26 | A consistent numbering lists each word once, and `Word2ID` has exactly the listed words. |
| IndexEngine.EmptyCore | indexEngine/indexEngine.go:57-61 | The empty lexicon and posting store index the empty corpus. |
| IndexEngine.UpdateLexFrame | indexEngine/indexEngine.go:20-29 | A known word raises exactly its own count for the document by one and changes no other count. An unseen word gets the next id and the map {docID: 1}. Both keep the numbering consistent. |
| IndexEngine.UpdateLexKeepsCore | indexEngine/indexEngine.go:20-29 | Counting one more token of the current document keeps the tables in step with the documents' tokens. |
| IndexEngine.CountsAfterKnown | indexEngine/indexEngine.go:22-23 | Raising a known word's count matches the document with the token appended. |
| IndexEngine.KnownWordKeys | indexEngine/indexEngine.go:23 | After raising a count, every stored count is positive and for an indexed document. |
| IndexEngine.KnownWordCounts | indexEngine/indexEngine.go:23 | After raising a count, every count equals the term's occurrences in the documents with the token appended. |
| IndexEngine.CountsAfterNew | indexEngine/indexEngine.go:24-27 | Adding an unseen word with count 1 matches the document with the token appended. |
| IndexEngine.NewWordKeys | indexEngine/indexEngine.go:27 | After adding a word, every stored count is positive and for an indexed document. |
| IndexEngine.NewWordCounts | indexEngine/indexEngine.go:24-27 | After adding a word, every count equals the term's occurrences in the documents with the token appended. |
| IndexEngine.AbsentFromDocs | indexEngine/indexEngine.go:22 | A word missing from the dictionary occurs in no indexed document. |
| IndexEngine.UpdateAllKeepsCore | indexEngine/indexEngine.go:91-94 | Counting a document's tokens in turn keeps the tables in step with the documents' tokens. |
| IndexEngine.OpenDocumentKeepsCore | indexEngine/indexEngine.go:89 | Starting a document with no tokens changes no count. |
| IndexEngine.SumCountsSnoc | indexEngine/indexEngine.go:91-94 | One more token adds its multiplicity among the listed terms to the summed counts. |
| IndexEngine.CountOfNoDup | indexEngine/indexEngine.go:24-26 | A word of a repeat-free dictionary occurs in it once. |
| IndexEngine.SumCountsIsLength | indexEngine/indexEngine.go:104 | Summing the counts of every distinct term of a token list gives its length. |
| IndexEngine.SumCountsOfEmpty | indexEngine/indexEngine.go:104 | An empty token list has summed count 0. |
| IndexEngine.TotalCountIsSumCounts | indexEngine/indexEngine.go:91-94 | A document's stored counts summed over the posting store equal its tokens' counts summed over the dictionary. |
| IndexEngine.DocumentLengthIsTotalCount | indexEngine/indexEngine.go:91-104 | The counts stored for a document, summed over all terms, equal its token count, which is the length it is recorded with. |
| IndexEngine.PostingIffToken | indexEngine/indexEngine.go:91-94 | A document has a posting entry for a term exactly when the term is one of its tokens. |
| IndexEngine.DecodeMMDDYY | indexEngine/indexEngine.go:72-75 | For a non-negative number, month × 10000 + day × 100 + (year - 1900) gives back the number. |
| IndexEngine.DecodeFacts | indexEngine/indexEngine.go:73-75 | The truncating date arithmetic recombines to its input on non-negative numbers. |
| IndexEngine.ShiftMod | indexEngine/indexEngine.go:74 | Shifting by two decimal places commutes with taking the low two digits. |
| IndexEngine.DecodeDigitPairs | indexEngine/indexEngine.go:72-75 | On a six-digit number the year, day and month are its last, middle and first two-digit pairs. |
| IndexEngine.DocDateOf | indexEngine/indexEngine.go:72-79 | The day, month and year strings cut from the number, with the decoded date. No contract of its own; DateFieldsAgree relates the two. |
| IndexEngine.DateFieldsAgree | indexEngine/indexEngine.go:72-78 | When the six date characters of a document number are digits, the decoded month, day and year are the values of the month, day and year strings. |
| IndexEngine.DigitPairs | indexEngine/indexEngine.go:73-75 | Three two-digit values packed into one number unpack to themselves. |
| IndexEngine.SixDigits | indexEngine/indexEngine.go:72 | Six digits read as one number are three two-digit groups. |
| IndexEngine.Headline | indexEngine/indexEngine.go:80-82 | The stored headline holds no newline. |
| IndexEngine.IndexText | indexEngine/indexEngine.go:84-87 | The HEADLINE, TEXT, TABLE and GRAPHIC paragraphs, each list joined, in that order. No contract of its own; IndexTextIsHeadlineAndBody relates it to the body text. |
| IndexEngine.DocumentTokens | indexEngine/indexEngine.go:91 | The tokens of the indexed text. No contract of its own; AddDocument counts them and PostingIffToken relates them to the postings. |
| IndexEngine.MetaStep | indexEngine/indexEngine.go:89-105 | Appending the number and storing the entry keeps the metadata consistent with one more document. |
| IndexEngine.DocNumbers | indexEngine/indexEngine.go:71-89 | One trimmed document number per document, in corpus order. |
| IndexEngine.CorpusTokens | indexEngine/indexEngine.go:84-91 | One token list per document, in corpus order. |
| IndexEngine.CorpusSnoc | indexEngine/indexEngine.go:65-121 | One more document extends the numbers and token lists by its own. |
| IndexEngine.StoredLengthIsTotalCount | indexEngine/indexEngine.go:91-104 | The length stored in a document's metadata entry equals the counts the posting store holds for its ordinal, summed over all terms. |
| IndexEngine.BuiltIndexIsWellFormed | indexEngine/indexEngine.go:53-122 | A finished index gives every term id a posting map, and every posted ordinal names a document. |
| IndexEngine.IndexBuilder.constructor | indexEngine/indexEngine.go:53-61 | Ordinal 0, empty lexicon, posting store and metadata, in step with the empty corpus. |
| IndexEngine.IndexBuilder.UpdateLex | indexEngine/indexEngine.go:20-29 | The lexicon and postings become those of `updateLex` on values; the metadata and ordinal are unchanged. |
| IndexEngine.IndexBuilder.IndexTokens | indexEngine/indexEngine.go:91-94 | Counting a document's tokens in order keeps the tables in step, with the tokens appended to the current document. |
| IndexEngine.IndexBuilder.AddDocument | indexEngine/indexEngine.go:68-121 | One document: the next ordinal, its number appended, its entry stored, its tokens counted, invariants kept. |
| IndexEngine.IndexBuilder.RecordDocument | indexEngine/indexEngine.go:89-105 | Number appended before the tokens are counted under the current ordinal. The entry is stored and the ordinal advanced. |
| IndexEngine.IndexCorpus | indexEngine/indexEngine.go:53-122 | Indexing a corpus gives ordinals 0 … n-1 in input order and the corpus's numbers and tokens. The resulting index is consistent and ready for scoring. |
| IndexEngine.AddAll | indexEngine/indexEngine.go:65-121 | The corpus loop adds the documents in order, keeping the invariants. |
| Retrieve.IsTerminator | retrieve/retrieve.go:23-25 | '.', '?' and '!' (runes 46, 63 and 33) end a sentence. No contract of its own. |
| Retrieve.SplitFacts | retrieve/retrieve.go:22-33 | Every completed sentence ends with its only terminator. The open fragment has none, and it is empty exactly at the start or after a terminator. |
| Retrieve.TrimmedFragment | retrieve/retrieve.go:31 | Trimming a fragment without terminator gives one without terminator. |
| Retrieve.SentencesShape | retrieve/retrieve.go:18-35 | Every sentence but the last ends with its only terminator. The last one does too when the text ends in one, and otherwise holds none. |
| Retrieve.SplitSnoc | retrieve/retrieve.go:22-33 | Reading one more character closes a non-empty fragment at a terminator, or extends the fragment. |
| Retrieve.SplitResumes | retrieve/retrieve.go:26-29 | After a terminator the splitter resumes afresh. |
| Retrieve.SentencesSplitAfterTerminator | retrieve/retrieve.go:18-35 | Text ending in a terminator splits independently of what follows. |
| Retrieve.SplitOfFragment | retrieve/retrieve.go:30-31 | Text without a terminator stays one open fragment. |
| Retrieve.SentencesOfFragment | retrieve/retrieve.go:30-31 | Non-empty text without a terminator is one sentence, trimmed. |
| Retrieve.SplitStepAtTerminator | retrieve/retrieve.go:23-29 | A terminator iteration keeps the loop variables equal to the splitter's state, and at the end completes the list. |
| Retrieve.SplitStepInFragment | retrieve/retrieve.go:30-31 | Any other character's iteration keeps the loop variables equal to the splitter's state, and at the end completes the list. |
| Retrieve.SplitSents | retrieve/retrieve.go:18-35 | The loop returns exactly the sentences of the text; empty text gives none. |
| Retrieve.PositionWeight | retrieve/retrieve.go:42-46 | The lead bonus is at most 2 and positive exactly for the first two sentences. |
| Retrieve.Pairs | retrieve/retrieve.go:69-72 | Adjacent pairs ending in b are no more than b's occurrences. |
| Retrieve.DistinctMatches | retrieve/retrieve.go:61-65 | d is at most the number of query tokens. |
| Retrieve.DistinctAtMostMatches | retrieve/retrieve.go:58-65 | d never exceeds c. |
| Retrieve.NoChainIffNoMatch | retrieve/retrieve.go:54-78 | k = 0 ⇔ d = 0 ⇔ c = 0, and d = 0 exactly when no query token occurs in the sentence. |
| Retrieve.UnmatchedScoresPosition | retrieve/retrieve.go:80-81 | A sentence scores only its lead bonus exactly when no query token occurs in it. |
| Retrieve.PairsSnoc | retrieve/retrieve.go:69-72 | One more word adds one pair exactly when it and its predecessor are the two tokens. |
| Retrieve.SentenceFeatures | retrieve/retrieve.go:54-78 | The loop over the query computes c, d and k as specified. |
| Retrieve.MatchToken | retrieve/retrieve.go:55-77 | For one query token: c grows by its occurrences, d by one if it occurs, and kTmp is its chain. |
| Retrieve.ScoreSentence | retrieve/retrieve.go:42-81 | One sentence's item: the sentence with its specified score. |
| Retrieve.QBSummary | retrieve/retrieve.go:37-87 | Every sentence of the text appears once with its score, in non-increasing order of score. |
| GetDoc.StoredPath | indexEngine/indexEngine.go:109-112 | The file the indexer writes a document to: year, month and day directories, then the number. No contract of its own; GetPathFindsStoredCopy shows GetPath finds it. |
| GetDoc.GetPath | getDoc/getDoc.go:14-26 | Building a path never fails. |
| GetDoc.GetPathIgnoresMode | getDoc/getDoc.go:14-26 | The path does not depend on the mode. |
| GetDoc.GetPathTrailingSlash | getDoc/getDoc.go:15 | A directory with or without one trailing slash gives the same path. |
| GetDoc.GetPathFindsStoredCopy | getDoc/getDoc.go:17-24 | For an indexed document, the path is the year/month/day file the indexer writes to. |
| GetDoc.GetPathOfUnknown | getDoc/getDoc.go:20-22 | For an unknown number the date directories are empty: `dir////q.xml`. |
| GetDoc.ResolveKey | getDoc/getDoc.go:29-37 | "id" mode succeeds exactly for ordinals below the number of documents, giving that ordinal's number, else reports the id. Any other mode succeeds exactly for indexed numbers, else reports the number. |
| GetDoc.ResolveOverflowingId | getDoc/getDoc.go:30-32 | An ordinal whose digits overflow 64 bits, whatever follows them, is clamped to MaxInt64 and reported as not found. |
| GetDoc.ResolvedKeyIsIndexed | getDoc/getDoc.go:29-37 | On a consistent index every resolved key is an indexed document number. |
| GetDoc.IdRoundTrip | getDoc/getDoc.go:29-34 | Asking by the decimal ordinal of an indexed number gives back that number. |
| GetDoc.GetRaw | getDoc/getDoc.go:28-48 | A key error is passed on. A result is the contents of the file at the resolved document's path. |
| GetDoc.GetRawReadsStoredCopy | getDoc/getDoc.go:38-47 | An indexed document is read from the file the indexer wrote. A missing file is a read error naming that path. |
| GetDoc.BodyText | getDoc/getDoc.go:67-71 | The body text holds no newline. |
| GetDoc.IndexTextIsHeadlineAndBody | getDoc/getDoc.go:68-71 | Newlines aside, the indexed text is the headline followed by the body text. |
| GetDoc.GetBody | getDoc/getDoc.go:50-74 | A key error is passed on, and a body holds no newline. |
| GetDoc.GetBodyModesAgree | getDoc/getDoc.go:50-61 | Asking by ordinal and asking by the number stored at that ordinal give the same body. |

## Left out

- Reading and decompressing the gzip corpus, splitting it into `<DOC>` records, and XML decoding are left out. The indexer's input is the sequence of parsed documents. `GetBody` takes the decoder as a parameter `parse`.
- File I/O is left out: the mkdir calls, writing each document's file (`indexEngine.go:109-113`), and writing and loading the JSON index files. `GetRaw` reads through a parameter `files` that maps a path to its contents, and a missing path is the read error.
- Timing, memory statistics, progress output, the `Index` command-line entry and its `rerun` flag are left out.
- The interactive query loop of `retrieve` is left out: display, the top-10 cut, the `headline = text[:50]` fallback and the rank selection. So is its `sync.WaitGroup`, which guards nothing here.
- Bm25.BM25: the floating-point BM25 formula (k1, b, k2, avdl, K and the logarithm) is the parameter `partial(f, qf, dl, n)`. What is proved is the accumulation, matching and ranking around it.
- Go map iteration order is left open. The model chooses any remaining key, so the proofs hold for every order. Ties in `sort.Slice` may come out in any order, and the sort is specified only as sorted plus a permutation.
- Ext.DocDate: the display date `Full` is formatted with `time.Month(mm).String()`. That formatting is not modelled; the decoded numbers (month, day, 1900 + yy) stand in for it.
- GoStrings.IsWordChar: `unicode.In(c, Digit, Letter)` is restricted to ASCII letters and digits.
- GoStrings.Lower: `strings.ToLower` is restricted to ASCII upper-case letters.
- Retrieve.SplitSents: Go indexes the text by bytes; the model reads characters. The three terminators are single bytes, so the cut positions agree on valid UTF-8.
- GoStrings.Atoi: `int` is taken to be 64 bits wide. Error values are dropped, as the source drops them. Go's fast path for short inputs gives the same values as the ParseInt path, so only the latter is modelled.
- IndexEngine.IndexCorpus: requires every trimmed document number to have at least 8 characters. The source slices `docno[2:8]` and panics below 8 bytes.
- IndexEngine.DocDateOf: Go cuts the date strings by byte offsets (`docno[2:8]`, `[6:8]`, `[2:4]`, `[4:6]`); the model cuts by characters. The two agree when the first 8 characters of the number are ASCII, as in LA Times numbers such as `LA010189-0001`. A number with non-ASCII characters among its first 8 bytes is not modelled.
- GetDoc.StoredPath: cuts the number by characters as DocDateOf does, with the same ASCII assumption.
- GetDoc.ResolveKey, GetDoc.GetRaw, GetDoc.GetBody: in "id" mode they require a non-negative ordinal. The source indexes `DocNos[id]` with a negative id and panics.
- GetDoc.ResolveKey: error messages are the `DocError` values `IdNotFound` and `DocNoNotFound`, not the formatted strings.
- GetDoc.IdRoundTrip: if a later document reused a document number, the entry is overwritten, as the Go map assignment does. The round trip then holds for the later ordinal.
- Retrieve.Sentences: a text ending in white space after its last terminator yields a final empty sentence, as `TrimSpace` of that fragment does in the source.
- Integer widths: ordinals, counts and lengths are unbounded naturals. The source's `int` would overflow only beyond 2^63 documents or tokens.
