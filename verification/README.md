# A model of the search engine, with proofs

The repository builds a blocked inverted index, evaluates ranked queries over it in three
ways, caches results behind a load-shedding worker pool, merges near-real-time segments in
the background, fans queries out over segments and shards, batches requests for a scorer,
and measures ranking quality. This project models the parts of it where the argument for
correctness is not visible in any one function, and proves the properties their documents
and comments promise.

`dafny verify dfyconfig.toml` checks everything. One module stands for one component:

- **Query evaluation.** `Ranking` (the order of results, what the k best of a set are, the
  bounded heap), `Postings` and `PostingCursor` (encoded lists and cursors over them),
  `Sums`, `Query`, `Pruning` (the argument, on values: a frontier of settled documents, and
  why pivots and spans may be skipped), `CursorVector`, `LiveCursors`, `Exhaustive`, `Wand`,
  `BlockBounds`, `SpanJump`, `BlockMaxWand` (the three evaluations on mutable cursors),
  `SearchRuns` and `SearchRounds` (a pruned search as a sequence of rounds, and what every
  such run keeps), `Search`, which ties a query to the corpus, and `Bm25Laws` (what scores
  say about documents).
- **Index construction.** `Varint`, `Corpus` (the inverted index a corpus defines),
  `Segments`, `Merge`, `BlockOffsets`, `BlockWriter`, `SearchIndex`, `IndexLaws`,
  `IndexLimits`, `StrayOffset`. What `BuildIndex` establishes for a corpus whose lists fit,
  `ValidIndex`, is what `Search.Run` needs.
- **The result cache.** `Analyzer`, `TokenLaws`, `WordLaws`, `CacheKey`, `KeyLaws`, `LruCache`,
  `LruLaws`, `SearchService`.
- **Concurrent protocols.** Each is a state machine over its atomic steps, an invariant
  every step keeps, lemmas about whole runs, and an object whose methods are those steps:
  `MergePolicy`, `NrtState`, `NrtRuns`, `NrtLaws`, `NrtFiles`, `NrtSearch`, `NrtIndex`;
  `PoolState`, `WorkerPool`; `DynamicBatcher`, `BatchingState`, `BatchingLaws`, `BatchedRun`.
- **Merging answers.** `StableSort`, `FanOut`, `SegmentSet`, `OverFetch`, `LosingTexts`,
  `Broker`.
- **Metrics and stemming.** `Ndcg`, `NdcgLaws`; `PorterWords`, `PorterRules`, `PorterLaws`,
  `PorterSteps`, `PorterChains`, `Stemmer`.

A module named for its laws says what a specification function means without that function's
own recursion: maximal runs for tokens, last uses for the cache, deleted ids for tombstones.

`Common` has what several of them share.

The main results, in words:

1. Exhaustive evaluation, WAND and BlockMax-WAND return the same sequence of results for
   every valid index, every set of terms and every k of at least one, exact ties at the k-th
   place included: each returns *the* list of the k best of the corpus's matching documents,
   and there is one such list. All three terminate because each round leaves strictly fewer
   postings unread. The exhaustive one decodes every block and scores every posting and every
   match once; the pruned ones do no more of any of these. What a pruned search did is a log
   of rounds, each with the pivot the code chooses from where the cursors stand and from
   what has been pushed. `SearchRuns` proves of every such log, whichever evaluation wrote
   it, that everything before its frontier is settled, that pivots never go back and go
   strictly on past one that was scored or jumped, that the documents pushed are the pivots
   scored, each once, and that a log with no pivot left is exact. What the scores say is
   `Bm25Laws.DominatingFirst`: a document that has every query term at least as often as
   another, in no more words, and is ahead for one of them, is listed before it.
2. Building through bounded segments and a k-way merge gives the corpus's inverted index for
   every segment size; block by block it decodes to itself, under maxima that are attained,
   if every list's last block starts within 4 GiB, which 429,496,729 documents always grant.
   The builder does not check this. Every offset of a list is recorded right exactly if its
   last block starts within 4 GiB, and `IndexLimits.FarCorpusUnreadable` is a corpus within
   all other limits whose built index does not decode. A wrong offset need not do harm: in
   `StrayOffset.WrongAndValid` two frequencies spell out the block it should point to.
3. A cached reply is what the search would have returned, in every interleaving of workers:
   analysis does not see what normalization changes, and two requests share a key if and only
   if they have the same words up to case and the same k. After any accesses the cache holds
   the keys used most recently. The tokens of a text are its maximal runs of characters that
   hold together, each up to 255 of them, and a word and its possessive have the same terms.
4. Opened on segments whose file numbers are all below their count, or whose files are
   elsewhere, the near-real-time index loses, doubles or hides no document, whatever the
   interleaving of adds, flushes, deletes, merge steps and failures: a merge finds all it
   chose still live, and files go only for segments no longer listed. The code sets its
   counter to the number of segments and checks no name (`py/nrt/index.py:55`), and that
   condition on the names is exact: for every other set of initial segments there are
   settings and a run that loses a document, doubles another, and takes one out of sight
   (`NrtFiles.SafeExactlyApart`), and under any settings a run that overwrites a live
   segment's file. `NrtFiles.DocumentLost` is the shortest case. After any run the tombstones
   are exactly the ids deleted in it, and no later search shows one of them; a flush that
   succeeds makes searchable exactly what was added; in runs without a failed build an idle
   merge thread has left no file behind. A search of the index, in any state it reaches, shows
   live matches in order and is exact over all that is flushed and not deleted if each segment
   meets the condition of result 6, which they do if no id is added twice. With a merge
   factor of two or more merging comes to rest within the segment limit; a round lowers the
   number of segments exactly when it merges at least two.
5. The worker pool loses no wake-up and no task; after a shutdown its workers take at most
   three steps for each queued task and two for each worker until all have left and every
   accepted task has run once. The batching harness strands no request.
6. For a segment with given ids and given tombstones, over-fetching by the number of
   tombstones is exact on every query if and only if no more of its documents are deleted
   than there are tombstones, or all of them are; a set of segments is searched exactly if
   and only if each of its segments meets that condition. Both hold over all sets of matches
   and, the failing queries being ones that documents and terms can meet, over all documents
   with those ids and all query terms (`LosingTexts`). A segment meets the condition whatever
   is deleted if and only if no id stands in it twice or it has one id only. The comment at
   `py/nrt/segment.py:46-51` promises exactness without the condition.
7. NDCG is between 0 and 1, by rearrangement, above 0 exactly if one of the first k is judged
   positive, and no lower for moving a better document up. The stemmer stays inside its buffer, its loops
   count the measure, every ending of its tables becomes what its rule says for every stem,
   and a stem is not empty and not longer than its word.

Scores are exact non-negative real numbers. A search result carries a document's place; two
results of one query never share a place. Where a comment in the source and its code differ,
the code is modelled: `cpp/index/analyzer.h:38` says long runs are split into tokens of 255
characters, `cpp/index/analyzer.cc:79` keeps the first 255 and drops the rest, and so does
`Analyzer.Tokens`.

## Model

| member | source | states |
|---|---|---|
| PostingCursor.Cursor.constructor | cpp/query/searcher.cc:104-121 | a cursor over an encoded list decodes its first block and has passed nothing |
| PostingCursor.Cursor.DecodeBlock | cpp/query/searcher.cc:123-138 | the buffers hold exactly the docids and frequencies of the block under the cursor |
| PostingCursor.DecodeDocids | cpp/query/searcher.cc:126-132 | reading gaps and summing them gives back the block's docids, and leaves the reader at the frequencies |
| PostingCursor.DecodeFreqs | cpp/query/searcher.cc:133-135 | gives back the block's frequencies |
| PostingCursor.Cursor.Next | cpp/query/searcher.cc:140-154 | one posting further along the list the bytes stand for, across block borders, nothing past the end |
| PostingCursor.Cursor.SkipToBlock | cpp/query/searcher.cc:156-181 | gives up only postings before the target, lands on a block that reaches it, and does not move a cursor already there |
| PostingCursor.Cursor.NextGeq | cpp/query/searcher.cc:183-205 | lands on the first remaining posting at or after the target; the case of a target between two blocks never arises |
| PostingCursor.Cursor.ScanBlock | cpp/query/searcher.cc:191-204 | inside a block that reaches the target, lands on its first posting at or after it and passes only earlier ones; the step into the next block never happens |
| PostingCursor.ScanDocids | cpp/query/searcher.cc:192 | stops at the first docid of the block not below the target |
| PostingCursor.BlocksBehind | cpp/query/searcher.cc:156-166 | skipping on block maxima alone gives up no posting at or past the target |
| Ranking.TopKUnique | cpp/query/searcher.h:3-7 | a set of results has one list of k best: any two lists that meet the definition are equal, ties included |
| Ranking.TopKSize | cpp/query/searcher.cc:32-36 | the list has k members, or all there are |
| Ranking.PruningIsSafe | cpp/query/searcher.cc:350-353 | results that score strictly below a full heap's worst can be left out without changing the k best |
| Ranking.DisplaceWorst | cpp/query/searcher.cc:38-52 | replacing the worst of k by a better candidate keeps the k best of all pushed, and the threshold does not fall |
| Ranking.BehindWorst | cpp/query/searcher.cc:49-52 | a candidate behind the worst of k changes nothing |
| Ranking.ThresholdReached | cpp/query/searcher.cc:24-26 | the score to beat is read off any list of the k best, and is positive only once there are k |
| Ranking.ThresholdGrows | cpp/query/searcher.cc:38-52 | pushing one result more never lowers the score to beat |
| Ranking.TopK.Threshold | cpp/query/searcher.cc:24-26 | the score of the k-th best of everything pushed, zero before there are k |
| Ranking.TopK.Push | cpp/query/searcher.cc:32-53 | whatever the order of arrival the heap holds the k best of everything pushed; the threshold never falls |
| Ranking.TopK.Drain | cpp/query/searcher.cc:55-68 | gives the k best of what was pushed, best first, and empties the heap |
| Ranking.SortResults | cpp/query/searcher.cc:63-66 | the same results in rank order |
| Query.ContributionBounded | cpp/index/index_format.h:42 | a list contributes to no document more than its recorded maximum |
| Query.ContributionInBlock | cpp/query/searcher.h:45-48 | up to the end of the block under a cursor the block's maximum bounds what the list can still contribute |
| Query.SpanIsHopeless | cpp/query/searcher.cc:350-353 | a span of documents that only some cursors can hold, whose bounds together stay below the threshold, is settled |
| Pruning.PivotAdvances | cpp/query/searcher.cc:368-384 | pivots never go back, and every document before the pivot is pushed or scores below the threshold |
| Pruning.NothingLeft | cpp/query/searcher.cc:381-382 | when the bounds of all live cursors stay below the threshold, or none is left, every document is settled |
| Pruning.FrontierKept | cpp/query/searcher.cc:402-416 | moving cursors past postings before the pivot loses nothing |
| Pruning.ScoreIsComplete | cpp/query/searcher.cc:387-394 | with no cursor behind it, the impacts of the cursors at the pivot are its complete score |
| Pruning.PivotSettled | cpp/query/searcher.cc:396-400 | pushing the pivot and moving its cursors on settles it |
| Pruning.HopelessSpan | cpp/query/searcher.cc:520-537 | every document before the jump target scores below the threshold when the candidates' blocks together do |
| Pruning.SettledIsExact | cpp/query/searcher.cc:419 | once every document is settled the heap holds the k best of all matching documents |
| SearchRuns.RunKeepsFrontier | cpp/query/searcher.cc:354-419 | at every moment of every run each document before the frontier is pushed with its complete score or scores below the k-th best so far, and nothing else has been pushed |
| SearchRuns.EndedIsExact | cpp/query/searcher.cc:381-382 | any run that is left with no pivot is exact: what it pushed has the same k best as all matching documents |
| SearchRuns.NextPivot | cpp/query/searcher.cc:368-384 | a pivot is at or past the one before, and strictly past one that was scored or jumped |
| SearchRuns.PivotsAscend | cpp/query/searcher.cc:368-384 | over a whole run pivots never go back, and go strictly on past one that was scored or jumped |
| SearchRuns.PushedAreScored | cpp/query/searcher.cc:395-396 | the results pushed are those of the rounds that scored their pivot, one for each such round, so no document is pushed twice |
| SearchRuns.PushedMatch | cpp/query/searcher.cc:395-396 | only matching documents are pushed, so no more are scored than there are |
| SearchRounds.PivotFound | cpp/query/searcher.cc:368-387 | what the pivot search finds is the pivot of a round: at or past the frontier, a matching document, with everything before it settled |
| SearchRounds.NoPivot | cpp/query/searcher.cc:381-382 | when the search finds no pivot the run has ended and the heap holds the k best of all matching documents |
| CursorVector.PushResult | cpp/query/searcher.cc:345 | one document more is pushed, no cursor moves, the threshold does not fall |
| CursorVector.CurrentSettled | cpp/query/searcher.cc:335-345 | scoring a document nothing stands before, and moving on, settles it and leaves strictly less to read |
| CursorVector.DecodedOnce | cpp/query/searcher.cc:123-138 | no cursor decodes more blocks than its list has |
| Exhaustive.SmallestDocid | cpp/query/searcher.cc:329-332 | the smallest docid any cursor stands at; no cursor is before it |
| Exhaustive.ScoreAndPass | cpp/query/searcher.cc:335-342 | computes the document's complete score and moves exactly the cursors that stood at it, counting them |
| Exhaustive.AllPushed | cpp/query/searcher.cc:322-324 | at the end every matching document was pushed with its complete score, and every posting read |
| Exhaustive.DaatOr | cpp/query/searcher.cc:325-348 | gives the k best of all matching documents; scores every posting once and every matching document once, and decodes every block once |
| LiveCursors.SortByDocid | cpp/query/searcher.cc:92-98 | the same cursors by docid, then by place in the vector |
| LiveCursors.RemoveExhausted | cpp/query/searcher.cc:362-364 | keeps exactly the cursors with postings left |
| LiveCursors.Refresh | cpp/query/searcher.cc:362-366 | exactly the live cursors, in docid order |
| LiveCursors.FindPivot | cpp/query/searcher.cc:368-380 | the first cursor at which the sum of term bounds reaches the threshold, or the end when it never does |
| LiveCursors.ScorePivot | cpp/query/searcher.cc:388-394 | sums the cursors at the pivot to the document's complete score |
| LiveCursors.PassPivot | cpp/query/searcher.cc:397-400 | moves each cursor at the pivot one posting on and no other |
| LiveCursors.SettlePivot | cpp/query/searcher.cc:387-400 | pushes the pivot with its complete score, settles it, and reads strictly further |
| LiveCursors.DragLaggard | cpp/query/searcher.cc:402-416 | a cursor behind the pivot moves up to it, losing nothing and reading strictly further |
| Wand.ChooseLaggard | cpp/query/searcher.cc:411-415 | always finds a cursor strictly behind the pivot, one with the largest bound among those before it in the list |
| Wand.SettleOrApproach | cpp/query/searcher.cc:386-416 | a pivot no cursor is behind is scored and any other approached, either way as a round that carries the run on, with strictly less left to read |
| Wand.Wand | cpp/query/searcher.cc:354-420 | terminates with the k best of all matching documents and a log that is a run with no pivot left, of which the cursors, the heap and the statistics are the end; scores no more postings or documents, and decodes no more blocks, than the exhaustive evaluation |
| BlockBounds.CountCandidates | cpp/query/searcher.cc:465-468 | the candidates are all cursors at or before the pivot and no others |
| BlockBounds.PositionBlocks | cpp/query/searcher.cc:475-486 | every candidate's block reaches the pivot and the sum is that of their block bounds, or one ran out and strictly less is left to read |
| SpanJump.EarliestBlockEnd | cpp/query/searcher.cc:529-533 | the earliest last docid among the candidates' blocks: every block lasts to it, some block no further; at or past the pivot and never the sentinel |
| SpanJump.OutsidePast | cpp/query/searcher.cc:534-536 | a cursor outside the candidates stands at the next one outside or later |
| SpanJump.SpanSettled | cpp/query/searcher.cc:521-537 | the whole span up to the earliest block end, cut at the next cursor outside the candidates, is settled |
| SpanJump.JumpSpan | cpp/query/searcher.cc:538-540 | moves the candidates up to the target and gives up only postings before it |
| SpanJump.SkipSpan | cpp/query/searcher.cc:520-541 | the target is past the pivot, nothing is lost, strictly less is left to read |
| BlockMaxWand.SortAgain | cpp/query/searcher.cc:488-492 | after the blocks have moved, sorting restores docid order over exactly the live cursors |
| BlockMaxWand.PivotStands | cpp/query/searcher.cc:489-494 | the pivot's own cursor has not moved, so the first cursor is at or before the pivot |
| BlockMaxWand.ChooseBehind | cpp/query/searcher.cc:513-517 | always finds a cursor behind the pivot, one with the largest bound |
| BlockMaxWand.DragBehind | cpp/query/searcher.cc:508-519 | moves it up to the pivot, losing nothing and reading strictly further |
| BlockMaxWand.TestPivot | cpp/query/searcher.cc:488-519 | a pivot the blocks do not rule out is scored or approached, as a round that carries the run on, with strictly less left to read |
| BlockMaxWand.JumpPivot | cpp/query/searcher.cc:520-541 | a pivot the blocks rule out is jumped, as a round that carries the run on, with strictly less left to read |
| BlockMaxWand.PivotRound | cpp/query/searcher.cc:465-541 | a pivot is approached if a candidate runs out, tested if the blocks reach the threshold and jumped if not, each a round that carries the run on with strictly less left to read |
| BlockMaxWand.BlockMaxWand | cpp/query/searcher.cc:427-544 | terminates with the k best of all matching documents and a log that is a run with no pivot left, of which the cursors, the heap and the statistics are the end; scores no more postings or documents, and decodes no more blocks, than the exhaustive evaluation |
| Search.ScoresAgree | cpp/query/searcher.cc:335-341 | the score over the opened lists is the corpus's score of the document for the query terms |
| Search.ResultsAgree | cpp/query/searcher.cc:283-301 | the documents the lists match, with their scores, are exactly the corpus's documents with any of the terms |
| Search.OpenCursors | cpp/query/searcher.cc:283-301 | one cursor for each distinct query term the index has, each at the start of that term's list |
| Search.Run | cpp/query/searcher.cc:303-320 | each algorithm returns the k best of the corpus's matching documents, and so all three the same sequence |
| Varint.PutVarint | cpp/index/index_format.h:72-78 | appends the unsigned LEB128 code of the value (section 7.6 of DWARF Version 5) |
| Varint.GetVarint | cpp/index/index_format.h:80-89 | reads back the value whose code stands at the position, on a 32-bit accumulator, and stops just behind it |
| Varint.DecodeEncode | cpp/index/index_format.h:70-89 | round trip, whatever bytes follow |
| Varint.EncodeForm | cpp/index/index_format.h:72-78 | a code has the high bit on every byte but the last, no zero at the end that could be left out, and its low seven bits, low byte first, are the value |
| Varint.EncodeAllInjective | cpp/index/index_format.h:70-89 | a run of codes can be cut into values in one way only |
| Varint.EncodeLength | cpp/index/index_format.h:72-78 | a 32-bit value takes at most five bytes |
| Postings.BlockFacts | cpp/index/builder.cc:226-231 | block b holds postings 128 b and on, 128 of them or what is left, and records the last one's docid |
| Postings.PastBlock | cpp/index/index_format.h:8-11 | a posting whose docid is at most a block's maximum stands in that block or an earlier one |
| Corpus.PostingsSound | cpp/index/builder.cc:134-138 | the inverted list of a term has each document with the term once, with its frequency, in ascending order, and no other |
| Corpus.PostingsConcatenate | cpp/index/builder.cc:212-217 | the lists of consecutive ranges of documents, one after the other, are the list of the whole range |
| Segments.CountTerms | cpp/index/builder.cc:134-135 | counts each term of a document |
| Segments.AddDocument | cpp/index/builder.cc:134-138 | the in-memory segment becomes the inverted index of one document more |
| Segments.EntryWritten | cpp/index/builder.cc:71-83 | the smallest term still to come goes behind all that are written |
| Segments.FlushSegment | cpp/index/builder.cc:71-83 | writes the segment's terms strictly ascending, each with its list |
| Segments.BuildSegments | cpp/index/builder.cc:123-158 | the files are the inverted indexes of consecutive ranges that together are the corpus, whatever the segment size; each range has exactly as many documents as a segment may, the last one what is left |
| Merge.SegmentReader.Advance | cpp/index/builder.cc:55-68 | shows the next entry of the file, or is exhausted at its end |
| Merge.SmallestTerm | cpp/index/builder.cc:203-210 | the smallest term any reader shows, or none when all are exhausted |
| Merge.TakeTerm | cpp/index/builder.cc:212-217 | concatenates the postings of the readers that show the term, and moves exactly those |
| Merge.GatheredIsInverted | cpp/index/builder.cc:212-217 | what a round gathers is the term's inverted list over the documents covered so far |
| Merge.MergeRound | cpp/index/builder.cc:202-217 | a round appends the next term in order with its list for the whole corpus |
| Merge.MergeDone | cpp/index/builder.cc:209 | when all readers are exhausted every term of the corpus has been written |
| Merge.MergeSegments | cpp/index/builder.cc:187-271 | for every way the corpus was cut the records are its inverted index |
| IndexLaws.InvertedUnique | cpp/index/builder.cc:37-39 | a corpus has one inverted index: two lists of entries that are its index are equal |
| IndexLaws.FrequenciesAddUp | cpp/index/builder.cc:132-138 | a document's frequencies over all the terms of the index sum to its recorded length |
| IndexLaws.FirstDifferenceDecides | cpp/index/builder.cc:203-210 | terms are ordered by the code of the first character in which they differ |
| IndexLaws.PrefixComesFirst | cpp/index/builder.cc:203-210 | a term comes before any that continues it |
| IndexLaws.OccurrencesCount | cpp/index/builder.cc:134-135 | a term's frequency is its multiplicity among the document's words |
| IndexLaws.AverageTimesCount | cpp/index/builder.cc:132-168 | the average length times the number of documents is the number of words of all documents joined |
| BlockWriter.WriteGaps | cpp/index/builder.cc:233-244 | writes the first docid and then the gaps, in exactly as many bytes as their codes take, and finds the true maximum of the block's impacts |
| BlockWriter.WriteFreqs | cpp/index/builder.cc:245 | writes the block's frequencies, in exactly as many bytes as their codes take |
| BlockWriter.WriteBlock | cpp/index/builder.cc:226-249 | appends the block's code, in exactly as many bytes as the postings say |
| BlockWriter.WriteTerm | cpp/index/builder.cc:222-266 | every block is coded where it starts, the record keeps the low 32 bits of that place, and the list decodes to the postings it was made from if the last block starts within 4 GiB; block and term maxima are attained bounds |
| BlockOffsets.OffsetsRight | cpp/index/builder.cc:231 | every recorded offset is the place its block starts at, exactly if the last block starts within 4 GiB |
| BlockOffsets.FittingIsValid | cpp/query/searcher.cc:123-125 | with those offsets every block decodes to the postings it was made from |
| BlockOffsets.SmallFits | cpp/index/builder.cc:231 | 429,496,729 postings never start a block past 4 GiB |
| BlockOffsets.FarListValid | cpp/index/builder.cc:231 | the list of the next row is in order and within 32 bits |
| BlockOffsets.OffsetWraps | cpp/index/builder.cc:231 | a list of 2,114,445,568 postings whose last block starts four bytes past 4 GiB: the record says four, and what stands there does not decode to the block |
| StrayOffset.StrayListValid | cpp/index/builder.cc:231 | the list of the next row is in order and within 32 bits |
| StrayOffset.WrongAndValid | cpp/index/builder.cc:231 | a list of 1,416,896,513 postings whose last offset is wrong by 4 GiB and that decodes to its postings all the same |
| SearchIndex.Saturated | cpp/index/index_format.h:64-68 | a term score is positive and below idf (k1 + 1) |
| SearchIndex.TermScore | cpp/index/index_format.h:64-68 | the BM25 score of a posting is positive and below 1.9 idf whenever frequency, idf and average length are positive; how it moves with frequency and length is in the `Bm25Laws` rows |
| Bm25Laws.ScoreEquation | cpp/index/index_format.h:64-68 | the score times its denominator, all divisions multiplied out, is 1.9 idf times frequency times average length |
| Bm25Laws.LongerScoresLess | cpp/index/index_format.h:64-68 | the same frequency in a longer document scores strictly less |
| Bm25Laws.OftenerScoresMore | cpp/index/index_format.h:64-68 | a higher frequency in a document of the same length scores strictly more |
| Bm25Laws.AtAverage | cpp/index/index_format.h:64-68 | in a document of average length the score is 1.9 idf tf / (tf + 0.9) |
| Bm25Laws.OnlyRatioCounts | cpp/index/index_format.h:64-68 | document length and average scaled together leave the score as it is |
| Bm25Laws.ScoreAddsUp | cpp/query/searcher.cc:335-341 | a query's score is the sum of its parts' scores |
| Bm25Laws.DominatingScoresMore | cpp/query/searcher.cc:335-341 | a document with every query term at least as often as another, in no more words, never scores less, and strictly more if it is ahead for a term |
| Bm25Laws.DominatingFirst | cpp/query/searcher.cc:303-320 | such a document is listed before the other in every answer that lists the other, whatever k and whatever else matches |
| Bm25Laws.ShorterFirst | cpp/query/searcher.cc:303-320 | of two documents with the one query term equally often the shorter is listed first |
| SearchIndex.DocumentLengths | cpp/index/builder.cc:132-168 | records every document's length, and their sum |
| SearchIndex.BuildIndex | cpp/index/builder.cc:87-289 | no index of no documents; otherwise, for every segment size, the corpus's inverted index as written, and an index that decodes to it if every list's last block starts within 4 GiB |
| SearchIndex.BuiltIsValid | cpp/index/builder.cc:222-266 | what the builder writes decodes to the inverted index of the corpus if every list fits |
| SearchIndex.SmallCorpusFits | cpp/index/builder.cc:231 | every list of a corpus of up to 429,496,729 documents fits |
| IndexLimits.FarCorpusUnreadable | cpp/index/builder.cc:231 | a corpus within the limits of docids and lengths of which no index the builder writes decodes to its postings |
| SearchIndex.FindTerm | cpp/query/searcher.cc:257-273 | the binary search finds the record of a term exactly if there is one |
| SearchIndex.SortUnique | cpp/query/searcher.cc:285-290 | each query term once, ascending |
| SearchIndex.AscendingUnique | cpp/query/searcher.cc:285-290 | a set of terms has one ascending list |
| Analyzer.ScanToken | cpp/index/analyzer.cc:56-77 | goes to the end of the maximal run that continues a token |
| Analyzer.Tokenize | cpp/index/analyzer.cc:47-83 | gives the text's tokens, each cut to 255 characters with the rest of its run dropped |
| TokenLaws.TokensAreRuns | cpp/index/analyzer.cc:47-83 | the tokens are, in order and each once, all the maximal runs of characters that are letters, digits, bytes from 128 up, apostrophes between letters or periods and commas between digits, each up to its 255th character |
| WordLaws.SeparatorSeparates | cpp/index/analyzer.cc:50-72 | any other character, and an apostrophe, period or comma not so placed, splits a text into two whose terms follow one another |
| WordLaws.SeparatorJoins | cpp/index/analyzer.cc:65-72 | an apostrophe between letters, a period or comma between digits, makes one token of two |
| Analyzer.Analyze | cpp/index/analyzer.cc:85-98 | gives `Analysis` of the text: the terms, in order, of its tokens; what those are is in the `TokenLaws` and `WordLaws` rows |
| WordLaws.TokenBecomes | cpp/index/analyzer.cc:89-96 | a token without a trailing possessive gives the stem of its small letters, or nothing if they are a stop word |
| WordLaws.PossessiveBecomes | cpp/index/analyzer.cc:29-37 | a trailing 's or 'S behind a letter is taken off before that |
| WordLaws.PossessiveDropped | cpp/index/analyzer.cc:29-37 | a word and its possessive, in either case, have the same terms |
| WordLaws.LongWordCut | cpp/index/analyzer.cc:78-80 | a word of more than 255 characters has the terms of its first 255 |
| Analyzer.AnalysisIgnoresCase | cpp/index/analyzer.cc:85-98 | a text and its lower case have the same terms |
| CacheKey.Normalize | cpp/server/search_service.cc:26-42 | gives the normal form of the query |
| CacheKey.NormalForm | cpp/server/search_service.cc:26-42 | a normalized query is in small letters, with white space only as single blanks and none at its ends; what is so already is left alone, so normalizing twice is normalizing once |
| CacheKey.TokensSqueezed | cpp/server/search_service.cc:30-39 | collapsing white space does not change the tokens |
| CacheKey.TokensStripped | cpp/server/search_service.cc:40 | dropping blanks at the end does not change the tokens |
| CacheKey.AnalysisIgnoresNormalization | cpp/server/search_service.cc:26-42 | for every text and every stop list and stemmer, the normalized text has the same terms |
| CacheKey.DecimalInjective | cpp/server/search_service.cc:45 | different numbers have different decimal forms |
| CacheKey.KeyInjective | cpp/server/search_service.cc:45 | a key determines the normalized query and k, whatever bars the query holds |
| KeyLaws.NormalIsWords | cpp/server/search_service.cc:26-42 | the normal form of a query is what white space separates in it, in small letters, joined by single blanks |
| KeyLaws.DecimalStandsFor | cpp/server/search_service.cc:45 | reading the decimal form of a number gives the number back |
| KeyLaws.SameKeyExactly | cpp/server/search_service.cc:44-46 | two requests share a key if and only if they have the same words up to case and the same k |
| LruCache.GetKeeps | cpp/server/lru_cache.h:19-26 | a lookup only reorders the entries |
| LruCache.PutKeeps | cpp/server/lru_cache.h:30-44 | a store keeps keys distinct and the size within capacity, and adds nothing but its own entry |
| LruCache.AccessKeepsPrefix | cpp/server/lru_cache.h:19-44 | one access keeps the smaller of two caches the front of the larger |
| LruCache.Inclusion | cpp/server/lru_cache.h:1-2 | after any accesses a cache of capacity n holds exactly the first n entries of one of capacity m, so its hits are hits there |
| LruLaws.GetIsFront | cpp/server/lru_cache.h:19-26 | a lookup that hits gives the found entry followed by the others as they stood |
| LruLaws.PutIsFront | cpp/server/lru_cache.h:30-44 | a store, of a key held or not, gives the new entry followed by the others, cut to the capacity |
| LruLaws.CacheIsMostRecent | cpp/server/lru_cache.h:1-2 | after any accesses the cache holds the keys used most recently, the last one first, and leaves a key out only if it is full of keys all used later |
| LruCache.KeyIsFound | cpp/server/lru_cache.h:21-22 | the index has a key exactly if the list does, and points at its entry |
| LruCache.SizesAgree | cpp/server/lru_cache.h:40-49 | list and index have the same size |
| LruCache.LruCache.constructor | cpp/server/lru_cache.h:15 | an empty cache |
| LruCache.LruCache.Get | cpp/server/lru_cache.h:19-26 | hits exactly on the keys held, gives the value and brings the entry to the front; a miss changes nothing |
| LruCache.LruCache.Put | cpp/server/lru_cache.h:30-44 | the entry is in front, with its new value, and the least recently used one gone if there was one too many |
| SearchService.SameKeySameReply | cpp/server/search_service.cc:44-48 | requests with one key have one answer |
| SearchService.FoundIsReply | cpp/server/search_service.cc:56-62 | whichever algorithm a search is made with, what it finds is the one answer of the corpus |
| SearchService.Service.HandleQuery | cpp/server/search_service.cc:44-67 | hit or miss, the reply is the corpus's answer to the request; a miss leaves it in the cache |
| SearchService.StepIsSound | cpp/server/search_service.cc:44-67 | between any worker's lookup and store, any other's: cached values and replies stay true |
| SearchService.StepDoes | cpp/server/search_service.cc:44-67 | a hit replies at once, a miss makes the worker busy, a store replies, frees the worker and leaves the answer first in the cache |
| SearchService.EachAnsweredOnce | cpp/server/search_service.cc:44-67 | in every interleaving the requests begun are those replied to and those being searched for |
| SearchService.EveryReplyIsTrue | cpp/server/search_service.cc:44-67 | in every interleaving of lookups and stores, each search made with any algorithm, every reply is the corpus's answer to its request and every cached value that of its key |
| StableSort.SortPermutes | py/nrt/merge_policy.py:20 | sorting keeps the members, each as often |
| StableSort.SortChain | py/nrt/segment.py:96 | stability: an order that refines the key and held between members with one key holds throughout the sorted list |
| StableSort.SortAscends | py/nrt/merge_policy.py:20 | the keys of a sorted list ascend |
| StableSort.SortMapped | py/nrt/segment.py:96 | sorting looks at nothing but the key |
| MergePolicy.PlanIsSmallest | py/nrt/merge_policy.py:17-21 | there is a plan exactly above the limit; it has the smallest segments, as many as the factor or all, each once |
| MergePolicy.LargestChosen | py/nrt/merge_policy.py:17-21 | the strictly largest segment is chosen exactly if all are, so never with a factor up to the limit |
| MergePolicy.KeptWithout | py/nrt/index.py:157-160 | filtering out the chosen segments takes exactly their documents and their number away |
| NrtState.AddKeeps | py/nrt/index.py:64-66 | a document more, in the buffer |
| NrtState.FlushKeeps | py/nrt/index.py:86-101 | the buffer becomes one live segment, or stays when the build fails; over the limit a merge is then in flight |
| NrtState.ScheduleKeeps | py/nrt/index.py:103-126 | at most one merge is in flight, of distinct live segments, under an unused number |
| NrtState.BuildKeeps | py/nrt/index.py:140-150 | the source files of a plan are all there to be read and hold the segments' documents; a failure clears the flag |
| NrtState.SwapKeeps | py/nrt/index.py:157-166 | the chosen segments are all still live, the merged one has their documents, and the count falls by the number chosen less one |
| NrtState.RemoveKeeps | py/nrt/index.py:168-170 | files go only for segments no longer listed |
| NrtState.StepKeeps | py/nrt/index.py:64-170 | every step keeps the whole invariant and takes no searchable document out of sight; a delete adds its id to the tombstones and no other step changes them |
| NrtLaws.AddDoes | py/nrt/index.py:64-72 | the document goes behind the buffer, which is flushed exactly at the threshold or after the interval: then it is a segment under the next number, or stays if the build fails |
| NrtLaws.FlushDoes | py/nrt/index.py:86-99 | a buffer that is not empty is written under the next number and becomes one segment behind the others; a failed build uses the number up and leaves the buffer |
| NrtLaws.ScheduleDoes | py/nrt/index.py:103-126 | a merge is submitted exactly if none is in flight and there are more segments than the limit, of the smallest, under the next number |
| NrtLaws.BuildDoes | py/nrt/index.py:140-150 | what is built is the concatenation of what the chosen segments hold; a failure gives the merge up and changes no segment |
| NrtLaws.SwapDoes | py/nrt/index.py:157-166 | the merged segment, last, takes the place of exactly the chosen ones |
| NrtLaws.RemoveDoes | py/nrt/index.py:168-170 | one chosen segment's files are gone and all others stay |
| NrtLaws.RunRemembers | py/nrt/index.py:78-84 | after any run the tombstones are exactly the ids deleted in it, and the documents added are counted in order |
| NrtLaws.FlushShowsAll | py/nrt/index.py:86-99 | after a flush that succeeds at the end of any run the live segments hold every document exactly as often as it was added |
| NrtLaws.BufferStaysBelow | py/nrt/index.py:64-72 | while no build fails fewer documents wait than the threshold |
| NrtLaws.NoFileLeft | py/nrt/index.py:168-170 | in a run in which no build fails, whenever the merge thread is idle the source files are exactly those of the live segments |
| NrtRuns.RunKeeps | py/nrt/index.py:64-170 | from segments whose file numbers are below their count, in every interleaving each added document occurrence is in the buffer or in exactly one live segment, each live segment has its file, one merge at most is in flight; without failed merges one is whenever there are too many segments |
| NrtFiles.KeptExactlyApart | py/nrt/index.py:53-55 | under any settings, live segments keep their files in every run if and only if no initial segment has a file number the counter is still to reach |
| NrtFiles.SafeExactlyApart | py/nrt/index.py:53-166 | over all settings and runs: every document is held exactly as often as it was added, none is lost, none is doubled, none goes out of sight, each if and only if no initial segment has a file number the counter is still to reach |
| NrtFiles.RunLoses | py/nrt/index.py:86-166 | for any other start, the run that fails to build until that number is used up, flushes once more and merges all segments loses and hides a document of the overwritten segment and doubles an added one |
| NrtFiles.NumbersUsedUp | py/nrt/index.py:86-96 | after n flushes whose build fails the segments are what they were, the counter is n further, and the files under those numbers hold the growing buffer |
| NrtFiles.SourceOverwritten | py/nrt/index.py:89-94 | a live segment with such a number has its source overwritten by the flush that takes the number |
| NrtFiles.DocumentLost | py/nrt/index.py:89-94 | opened over one segment stored under number one, a flush and the merge of the two leave the flushed document twice and the other not at all |
| NrtRuns.MergeStepProgresses | py/nrt/index.py:128-170 | each step of an undisturbed merge thread lowers the segment count or what is left of its jobs |
| NrtRuns.MergedOut | py/nrt/index.py:103-126 | with a factor of two or more and a limit of one or more the chain ends within the limit, with no further flush and no document lost |
| NrtRuns.RoundLowers | py/nrt/index.py:152-166 | a round lowers the count exactly if factor and count are two or more; a factor of one goes round for ever |
| NrtRuns.BaseSurvives | py/nrt/lag_experiment.py:214-222 | a segment larger than all other documents together is not chosen by any step and keeps its file |
| NrtRuns.BaseNeverMerged | py/nrt/lag_experiment.py:214-222 | over a whole run from segments whose file numbers are below their count, an initial segment larger than all other documents together stays live and unchosen |
| NrtIndex.NrtIndex.constructor | py/nrt/index.py:27-57 | starts from segments already built, under whatever file names, the counter at their number; the state is sound if no file name is still to come from the counter |
| NrtIndex.NrtIndex.Add | py/nrt/index.py:64-72 | the state changes as the step of adding says, and stays valid; the buffer has the document, or has become a segment if it was due and the build succeeded |
| NrtIndex.NrtIndex.Flush | py/nrt/index.py:74-76 | the state changes as the step of flushing says, and stays valid; what waited is a segment behind the others, unless the build fails |
| NrtIndex.NrtIndex.Delete | py/nrt/index.py:78-84 | the tombstones gain exactly the id, nothing else changes, and the state stays valid |
| NrtIndex.NrtIndex.FlushLocked | py/nrt/index.py:86-101 | writes, builds, publishes and schedules |
| NrtIndex.NrtIndex.MaybeScheduleMergeLocked | py/nrt/index.py:103-126 | submits a plan of the smallest segments exactly if there are too many and no merge is in flight |
| NrtIndex.NrtIndex.MergeBuild | py/nrt/index.py:140-150 | reads the chosen sources, which are there, and builds, or gives the merge up |
| NrtIndex.NrtIndex.MergeSwap | py/nrt/index.py:157-166 | the merged segment takes the place of exactly the chosen ones; the next merge is scheduled |
| NrtIndex.NrtIndex.MergeRemove | py/nrt/index.py:168-170 | deletes one merged segment's files and touches no segment |
| NrtSearch.LiveIdsOnce | py/nrt/index.py:172-183 | in every sound state, if no id was added twice, every live segment has each id once, whatever was merged into it |
| NrtSearch.SnapshotCoverable | py/nrt/index.py:172-183 | so in every sound state over-fetching by the number of tombstones is enough for each segment of a snapshot |
| NrtSearch.SnapshotExactness | py/nrt/index.py:172-183 | a snapshot is searched exactly on every query if and only if each of its segments is coverable |
| NrtSearch.DeletedNeverShown | py/nrt/index.py:78-84 | after a delete no search of any later state of any run shows the id, whatever was added, flushed or merged meanwhile |
| NrtIndex.NrtIndex.Search | py/nrt/index.py:172-183 | in whatever state, no hit is deleted, there are at most k, each is a live match named as it stands, in order of score, segment and place; they are the first k of all flushed documents not deleted if every segment is coverable, the exact condition for all queries, which holds if no id was added twice |
| FanOut.LossBounded | py/nrt/segment.py:92-95 | a ranked list loses to a filter no more members than there are dead documents |
| FanOut.FetchedEnough | py/nrt/segment.py:76 | having fetched k and as many more as there are dead documents, every live result not fetched is behind k live ones that are |
| FanOut.MergedCovers | py/nrt/segment.py:93-95 | the merged list leaves out no live result but those behind k of its members, and its ties stand in segment and docid order |
| FanOut.SortedByScore | py/nrt/segment.py:96 | a list whose ties stand in order of place is put, by the stable sort by score, in order of score and then place |
| FanOut.MergeIsExact | py/nrt/segment.py:71-97 | filtering, merging, sorting and cutting what was fetched gives the k best of the whole live union, by score, segment and docid |
| FanOut.MergedIsSound | py/nrt/segment.py:93-97 | coverable or not, the merged list holds only live matches at their places, ties in order of place |
| FanOut.UnionMembers | py/nrt/segment.py:71-97 | a result is in the union exactly if it is a live match of some segment moved behind the segments before |
| SegmentSet.DistinctIdsCover | py/nrt/segment.py:76 | where no id stands twice in a segment, no more of its documents are deleted than there are tombstones |
| SegmentSet.CoverableIsExact | py/nrt/segment.py:76-95 | if no more of a segment's documents are deleted than there are tombstones, or all are, the first k survivors of the k and as many more fetched are its k best live ones |
| SegmentSet.Loses | py/nrt/segment.py:76-95 | a segment with more deleted documents than tombstones loses a live result on a query where the deleted ones score better |
| SegmentSet.OverFetchEnough | py/nrt/segment.py:46-51 | for given ids and tombstones, over-fetching is exact on every set of matches if and only if no more documents of the segment are deleted than there are tombstones, or all are |
| SegmentSet.SearchIsExact | py/nrt/segment.py:71-97 | over any number of coverable segments the sorted and cut list is the first k of the live union by score, segment and docid |
| SegmentSet.SearchIsSound | py/nrt/segment.py:71-97 | coverable or not, the hits are live matches in order of score, segment and place, and none is deleted |
| SegmentSet.SegmentSet.Filter | py/nrt/segment.py:95 | keeps the pairs whose ids are not tombstoned, in order |
| SegmentSet.SegmentSet.Search | py/nrt/segment.py:71-97 | at most k live matches in order, none deleted; the first k of the live union with their ids, if every segment is coverable |
| OverFetch.SetExactness | py/nrt/segment.py:46-51 | a set of segments with given ids and tombstones is searched exactly on all sets of matches if and only if each of its segments is coverable |
| OverFetch.SetLoses | py/nrt/segment.py:76-97 | one segment that is not coverable makes the whole set lose a live result on some query |
| OverFetch.CoverableAlways | py/nrt/segment.py:46-51 | a segment is coverable whatever is deleted if and only if no id stands in it twice or it has one id only |
| LosingTexts.TextsDecide | py/nrt/segment.py:46-51 | for given ids and tombstones, over-fetching is exact for all documents with those ids and all query terms if and only if the segment is coverable |
| LosingTexts.SetTextsDecide | py/nrt/segment.py:46-51 | a set of segments is searched exactly for all documents with its ids and all query terms if and only if each segment is coverable |
| LosingTexts.LosingScores | cpp/index/index_format.h:64-68 | documents on which the deleted ones all score better for a term than one live document, and no other matches |
| LosingTexts.MeasuredIsEnough | cpp/query/searcher.cc:335-341 | what an index of given documents answers depends on nothing in it but their count, lengths, average length and weights |
| Broker.CombineIsExact | py/server/broker.py:47-60 | merging the shards' k best gives the k best of all shards by score, shard and docid |
| Broker.RaceDoesNotMatter | py/server/broker.py:109-153 | hedging gives the unhedged outcome for every outcome of every race, when each winning replica's reply is its primary's very reply or both are the k best of the shard's matches |
| Broker.RaisedIfFailed | py/server/broker.py:52-60 | the combined outcome raises exactly if one of the replies combined failed |
| Broker.HedgedCounts | py/server/broker.py:124-135 | the count of backups is the number of shards past the delay |
| Broker.Merge | py/server/broker.py:52-60 | combines all replies, or raises if one raised: no partial answer |
| Broker.Broker.Dispatch | py/server/broker.py:47-60 | raises exactly if a shard does; gives the k best of all shards' documents if every shard gives its k best |
| Broker.HedgedBroker.SendBackups | py/server/broker.py:124-135 | a backup for every call past the delay and for no other, each counted, before any race is resolved |
| Broker.HedgedBroker.Resolve | py/server/broker.py:137-146 | a shard's reply is its primary's, unless it has a backup and the backup finished first: then it is the backup's |
| Broker.HedgedBroker.Dispatch | py/server/broker.py:109-153 | combines each race's winner, exactly if every winner is right; raises exactly if a winner failed; counts every shard call and every backup sent, never more backups than calls |
| PoolState.SubmitKeeps | cpp/server/bounded_queue.h:21-27 | a push within capacity wakes a sleeper if there is one |
| PoolState.PopKeeps | cpp/server/bounded_queue.h:31-38 | a worker at the queue takes the first task, sleeps or leaves |
| PoolState.FinishKeeps | cpp/server/worker_pool.h:20-24 | a task taken out is run once |
| PoolState.WakeKeeps | cpp/server/bounded_queue.h:33 | a spurious wake-up keeps the invariant |
| PoolState.ShutdownKeeps | cpp/server/bounded_queue.h:40-44 | shutting down sets the flag, nobody sleeps afterwards, queued tasks stay queued, running ones go on, and the invariant holds |
| PoolState.SubmitDoes | cpp/server/bounded_queue.h:21-27 | accepted exactly if there is room, behind all others; then one sleeper, if any sleeps, is awake, and no other worker changes |
| PoolState.PopDoes | cpp/server/bounded_queue.h:31-38 | takes the first task if there is one, sleeps if there is none, leaves if there is none and the pool is shutting down |
| PoolState.FinishDoes | cpp/server/worker_pool.h:20-24 | the finished task counts as run and its worker is at the queue again |
| PoolState.WakeDoes | cpp/server/bounded_queue.h:33 | the worker is at the queue again and nothing else changes |
| PoolState.StepKeeps | cpp/server/bounded_queue.h:21-44 | every step keeps the size within capacity, the order, each task once, and for each queued task a worker awake while any sleeps |
| PoolState.RunKeeps | cpp/server/worker_pool.h:16-46 | in every interleaving every state keeps the size within capacity, the order, each task once and a worker awake for each queued task while any sleeps |
| PoolState.SomeoneAwake | cpp/server/bounded_queue.h:21-38 | a queue with tasks never has all workers asleep |
| PoolState.NothingLost | cpp/server/worker_pool.h:41-46 | when all workers are joined, every accepted task has run exactly once, taken out in the order accepted |
| PoolState.ShutdownEnds | cpp/server/worker_pool.h:41-46 | after shutdown every step of a worker brings the end nearer, and until all have left one can be taken |
| PoolState.AfterShutdown | cpp/server/worker_pool.h:41-46 | in every run every state after a shutdown is shutting down, nothing more is accepted, and the steps workers take are paid for by what was left at the shutdown |
| PoolState.ShutdownReturns | cpp/server/worker_pool.h:41-46 | after a shutdown the workers of any run take at most three steps for each task queued and two for each worker, by then all have left and every accepted task has run exactly once; until then one can take a step |
| WorkerPool.BoundedQueue.TryPush | cpp/server/bounded_queue.h:21-27 | refuses exactly when full, unchanged |
| WorkerPool.BoundedQueue.Pop | cpp/server/bounded_queue.h:31-38 | not yet, closed, or the first item |
| WorkerPool.BoundedQueue.Shutdown | cpp/server/bounded_queue.h:42 | sets the flag |
| WorkerPool.WorkerPool.TrySubmit | cpp/server/worker_pool.h:34-37 | accepted exactly when there is room, behind all others, waking one sleeper; the state changes as the step says, and stays valid |
| WorkerPool.WorkerPool.WorkerPop | cpp/server/worker_pool.h:21-22 | the worker runs the first task, sleeps, or leaves; the state changes as the step says, and stays valid |
| WorkerPool.WorkerPool.WorkerFinish | cpp/server/worker_pool.h:23 | a finished task counts as run and its worker is at the queue; the state changes as the step says, and stays valid |
| WorkerPool.WorkerPool.SpuriousWake | cpp/server/bounded_queue.h:33 | a worker that wakes for no reason goes back to the queue; the state changes as that step says, and stays valid |
| WorkerPool.WorkerPool.Shutdown | cpp/server/worker_pool.h:41-46 | the flag is set, nobody sleeps, queued and running tasks are as they were; the state changes as the step says, and stays valid |
| DynamicBatcher.Batcher.Add | py/rank/batcher.py:22-25 | appends; the first one in opens the window |
| DynamicBatcher.Batcher.ShouldFlush | py/rank/batcher.py:30-36 | true exactly when something waits and a batch is full or the window has passed |
| DynamicBatcher.Batcher.Flush | py/rank/batcher.py:38-51 | takes a full batch or all there is from the front; what is left opens a new window |
| BatchingState.EnqueueKeeps | py/rank/crossencoder_harness.py:248-254 | a request is shed at full depth, else waits behind all others |
| BatchingState.FlushKeeps | py/rank/crossencoder_harness.py:211-213 | a batch passes from the batcher into empty hands, in order, none in between |
| BatchingState.WakeKeeps | py/rank/crossencoder_harness.py:221-234 | waking goes in order through the batch |
| BatchingState.StepKeeps | py/rank/crossencoder_harness.py:209-257 | every step keeps: woken, in the flusher's hands and in the batcher are, in order, all that arrived; batches concatenate to the arrivals and none exceeds the limit; without failure nobody is woken unscored |
| BatchingState.RunKeeps | py/rank/crossencoder_harness.py:209-257 | in every interleaving, the scorer failing at any point, no request is stranded, lost or served twice, and batches are in order and within the limit |
| BatchingState.Progress | py/rank/crossencoder_harness.py:209-257 | a waiting request always has a flusher step ahead of it that brings it nearer to being woken, and nothing takes it further away |
| BatchingLaws.EnqueueDoes | py/rank/crossencoder_harness.py:248-254 | a request is shed exactly at full depth, else waits last under the next number; the first to wait opens the window |
| BatchingLaws.PollDoes | py/rank/crossencoder_harness.py:210-216 | a batch goes to the scorer exactly if one is full or the window has passed: a full one, or all there is, from the front |
| BatchingLaws.ScoreDoes | py/rank/crossencoder_harness.py:216-220 | the batch given to the scorer is the one to be woken, scored only if the scorer answered |
| BatchingLaws.WakeDoes | py/rank/crossencoder_harness.py:221-234 | requests are woken from the front of the batch, then the flusher looks again, or drains after a failure |
| BatchingLaws.DrainDoes | py/rank/crossencoder_harness.py:226-231 | after a failure what waits is taken without waiting and woken unscored |
| BatchingLaws.ArrivedOrShed | py/rank/crossencoder_harness.py:248-254 | in every run each request made has arrived or was shed |
| BatchingLaws.SmallBatchesWaited | py/rank/batcher.py:30-36 | a batch below the limit goes only after its window has passed, and takes all there is |
| BatchingState.ZeroLimitStrands | py/rank/batcher.py:48-50 | with a batch limit of zero, in every run, no request is ever woken: all that arrive wait in the batcher, the flusher goes on looking, and the run can stop only if nothing has arrived |
| BatchedRun.Run.constructor | py/rank/crossencoder_harness.py:203-207 | an empty run |
| BatchedRun.Run.Enqueue | py/rank/crossencoder_harness.py:248-254 | the state changes as the step of a dispatching thread says, and stays valid; accepted exactly below the depth limit |
| BatchedRun.Run.Poll | py/rank/crossencoder_harness.py:210-216 | the state changes as the step of looking for a batch says, and stays valid |
| BatchedRun.Run.Score | py/rank/crossencoder_harness.py:216-220 | the state changes as the step of the scorer answering or raising says, and stays valid |
| BatchedRun.Run.WakeOne | py/rank/crossencoder_harness.py:221-234 | the state changes as the step of setting one event says, and stays valid |
| BatchedRun.Run.Drain | py/rank/crossencoder_harness.py:226-231 | the state changes as the step of releasing arrivals after a failure says, and stays valid |
| BatchedRun.Run.Stop | py/rank/crossencoder_harness.py:269-271 | the state changes as the end of the run says, and stays valid |
| Ndcg.RankingIsRight | py/harness/metrics.py:24-41 | the ranking has the run's documents in order of score, then of descending docid |
| Ndcg.RankedDistinct | py/harness/metrics.py:24-29 | the ranking of a run repeats no document |
| Ndcg.PrefixBounded | py/harness/metrics.py:48-58 | the first m documents of any ranking gain together no more than the m highest positive judgments |
| Ndcg.PrefixReached | py/harness/metrics.py:48-58 | the first m documents of a ranking by judgment gain together at least the m highest positive judgments |
| Ndcg.DiscountedBounded | py/harness/metrics.py:49-58 | if no prefix of one sequence of gains sums to more than the other's, no discounted sum does |
| Ndcg.NdcgInRange | py/harness/metrics.py:44-60 | NDCG is between 0 and 1 for all judgments, rankings and cut-offs and any positive discount that does not grow |
| Ndcg.PerfectRun | py/harness/metrics.py:44-60 | NDCG is 1 for a run that has all positively judged documents and ranks by judgment, if anything can be gained |
| Ndcg.SomethingIdeal | py/harness/metrics.py:49-52 | the ideal is zero exactly if no judgment is positive or nothing is asked for |
| Ndcg.PositiveIfFound | py/harness/metrics.py:48-59 | NDCG is above zero exactly if one of the first k ranked documents is judged positive |
| NdcgLaws.HigherFirst | py/harness/metrics.py:24-41 | a document with a higher score is ranked first, and of two with one score the one with the larger docid |
| NdcgLaws.OnlyFrontCounts | py/harness/metrics.py:55 | only the first k ranked documents count |
| NdcgLaws.OnlyHighestCount | py/harness/metrics.py:48 | of the positive judgments only the k highest count in the ideal |
| NdcgLaws.OneRelevant | py/harness/metrics.py:48-59 | with one relevant document, ranked r-th, NDCG is the discount of r over that of the first rank if r is at most k, and zero if not |
| NdcgLaws.TwoGrades | py/harness/metrics.py:49-58 | gains are the judgments themselves: the exact value for two graded documents ranked the wrong way round |
| NdcgLaws.MovingUpHelps | py/harness/metrics.py:54-58 | exchanging two ranked documents so that the one judged no lower stands first never lowers NDCG |
| Ndcg.Accumulate | py/harness/metrics.py:54-58 | accumulates the discounted gain of the first k |
| Ndcg.QueryNdcg | py/harness/metrics.py:48-59 | computes the metric of one query, between 0 and 1, above 0 exactly if one of the first k ranked documents is judged positive |
| Ndcg.NdcgAtK | py/harness/metrics.py:44-60 | one such value for each judged query, an empty ranking where the run has none |
| PorterWords.MeasureIsFormCount | cpp/index/porter.cc:26-51 | however a word is decomposed as [C](VC)^m[V], m is its measure |
| PorterWords.EveryShapeHasForm | cpp/index/porter.cc:26-51 | every sequence of consonants and vowels has a decomposition [C](VC)^m[V] |
| PorterWords.VowelMore | cpp/index/porter.cc:225-232 | a final vowel does not change the measure |
| PorterRules.SwitchIsComplete | cpp/index/porter.cc:129-172 | looking only at the rules under one letter finds the rule that going through all of them would |
| PorterRules.Switch2 | cpp/index/porter.cc:129-172 | the switch of step 2 finds the rule that trying all its rules in turn would |
| PorterRules.Switch3 | cpp/index/porter.cc:174-194 | the switch of step 3 finds the rule that trying all its rules in turn would |
| PorterRules.Switch4 | cpp/index/porter.cc:197-223 | the switch of step 4 finds the rule that trying all its rules in turn would |
| PorterRules.LongestWins | cpp/index/porter.cc:128-223 | in steps 2 to 4 the rule obeyed is, of all that match, the one with the longest suffix |
| PorterRules.StepSizes | cpp/index/porter.cc:129-223 | steps 2 to 4 neither empty nor lengthen a word |
| PorterRules.PastSize | cpp/index/porter.cc:103-121 | taking -ed and -ing off neither empties nor lengthens a word, for all that may be put back |
| PorterRules.StemSize | cpp/index/porter.cc:238-256 | a stem is never empty and never longer than the word |
| PorterLaws.Step2Endings | cpp/index/porter.cc:132-149 | for every word with one of these endings, no longer ending of the step matching, step 2 puts the other in its place behind a stem of positive measure |
| PorterLaws.Step2MoreEndings | cpp/index/porter.cc:150-171 | the same for the other endings of step 2 |
| PorterLaws.Step3Endings | cpp/index/porter.cc:174-194 | the same for step 3 |
| PorterLaws.Step4Endings | cpp/index/porter.cc:197-223 | step 4 takes these endings off a stem of measure above one, -ion only behind s or t |
| PorterLaws.OtherwiseUnchanged | cpp/index/porter.cc:129-223 | words without any of the endings are left alone |
| PorterSteps.LetterKinds | cpp/index/porter.cc:15-24 | which letters are consonants, y at the front and behind a vowel |
| PorterSteps.SingularEndings | cpp/index/porter.cc:94-102 | what becomes of every word in -sses, -ies, -ss and -s |
| PorterSteps.PastEndings | cpp/index/porter.cc:103-106 | what becomes of every word in -eed, -ed and -ing |
| PorterSteps.RestoredEndings | cpp/index/porter.cc:107-120 | an e comes back behind at, bl and iz and behind short stems; a doubled letter but l, s and z becomes single |
| PorterSteps.ShortEnds | cpp/index/porter.cc:68-72 | which ends are short: consonant, vowel, consonant other than w, x and y |
| PorterSteps.FinalLetters | cpp/index/porter.cc:124-233 | what becomes of every final y, e and double l, by the measure of what is before |
| PorterChains.Fulness | cpp/index/porter.cc:247-252 | for every stem of positive measure, -fulness goes through steps 2 and 3 in turn |
| PorterChains.Iciti | cpp/index/porter.cc:247-252 | for every stem of measure above one, -iciti goes through steps 3 and 4 in turn |
| PorterChains.Ency | cpp/index/porter.cc:247-252 | and -ency through the final y, step 2 and step 4 |
| PorterChains.Izings | cpp/index/porter.cc:247-252 | and -izings through plural, past tense with its e restored, and step 4 |
| PorterChains.Ate | cpp/index/porter.cc:247-252 | and -ate goes in step 4, before a final e is looked for |
| PorterChains.Lle | cpp/index/porter.cc:247-252 | of -lle first the e goes and then an l |
| Stemmer.Stemmer.CountMeasure | cpp/index/porter.cc:27-51 | the three nested loops count the measure of what is before the mark |
| Stemmer.Stemmer.VowelInStem | cpp/index/porter.cc:53-58 | whether there is a vowel before the mark |
| Stemmer.Stemmer.Ends | cpp/index/porter.cc:74-80 | compares the end of the word, and puts the mark before a suffix found |
| Stemmer.Stemmer.SetTo | cpp/index/porter.cc:82-86 | replaces what is behind the mark |
| Stemmer.Stemmer.EndsShort | cpp/index/porter.cc:68-72 | whether the word ends consonant, vowel, consonant, the last not w, x or y |
| Stemmer.Stemmer.EndsDouble | cpp/index/porter.cc:60-64 | whether the word ends in a doubled consonant |
| Stemmer.Stemmer.Step1Plural | cpp/index/porter.cc:94-102 | the word becomes its singular by the rules for -sses, -ies and -s |
| Stemmer.Stemmer.Restore | cpp/index/porter.cc:106-119 | puts an e back after at, bl, iz and short stems, or takes a doubled consonant off but for l, s and z |
| Stemmer.Stemmer.Step1Past | cpp/index/porter.cc:103-121 | takes -ed and -ing off behind a vowel and restores the stem; -eed becomes -ee |
| Stemmer.Stemmer.Step1c | cpp/index/porter.cc:124-126 | turns a final y behind a vowel into i |
| Stemmer.Stemmer.DoStep2 | cpp/index/porter.cc:129-172 | applies the first of all rules of step 2 that fires |
| Stemmer.Stemmer.DoStep3 | cpp/index/porter.cc:174-194 | applies the first of all rules of step 3 that fires |
| Stemmer.Stemmer.DoStep4 | cpp/index/porter.cc:197-223 | takes off the first suffix of step 4 that fires, where the measure before it is above one |
| Stemmer.Stemmer.Step5 | cpp/index/porter.cc:225-233 | takes a final e and a doubled l off; the mark left behind the e does no harm |
| Stemmer.Stem | cpp/index/porter.cc:238-256 | for every word the steps stay inside the buffer and give the stem, not empty and not longer than the word |

## Left out

Arithmetic and representation:

- Floating-point rounding: scores, bounds and average lengths are exact. The claim is equality of results over exact scores, not bit for bit of sums taken in different orders.
- SearchIndex.Saturated: the logarithm in `bm25_idf` is left abstract, as a function from document count and document frequency to a non-negative weight.
- The 32-bit wrap-around of docids past the sentinel: a corpus has fewer documents than the sentinel value, and lengths fit 32 bits.
- BlockOffsets.FittingIsValid: one way only. A list whose last block starts past 4 GiB has a wrong offset, always, but `StrayOffset.WrongAndValid` is one that decodes all the same.
- The bytes of the index files (headers, record packing, memory mapping, the external id table, `max_docs`, lines without a tab): records and lists are values; the block payload alone is bytes.
- The library containers are modelled by their contracts: the priority queue as the list of its members in rank order, `std::map` as a map walked in key order, `std::list` iterators as references to entries, `std::sort` as insertion.

Preconditions kept from the source:

- Search.Run: asks for k of at least one, because a full heap of no results would read its top; so do the three evaluations, the service and `SegmentSet.Search`.
- PoolState.RunKeeps: tasks submitted after `shutdown` are not part of a run; neither is a merge submitted to a pool already shut down.
- BatchingState.RunKeeps: the run is stopped only when every request has come back, which is when the load generator returns.

Parts of the system:

- `blocks_decoded` is counted in each cursor and not summed; how many blocks a pruned search saves is not bounded.
- Analyzer.Analyze: takes the stop list and the stemmer as parameters; `PorterRules.StemOf` is one such stemmer. How far the tokenizer follows Unicode's word boundaries is not modelled.
- Porter's measure and rules are modelled on characters; whether stems are linguistically right is not a property of the code.
- NrtState.BuildKeeps: writing a source file always succeeds, only the index builder may fail; texts hold no newline and ids no tab, so a source file is the list of its documents.
- MergePolicy.PlanIsSmallest: the merge factor is not negative.
- NrtRuns.RunKeeps: the initial segments have files of their own, none shared between two, which hold their documents.
- NrtState.SwapKeeps: segments are filtered out by number, where the code compares objects; the numbers of live segments differ in every state `RunKeeps` speaks of.
- NrtIndex.NrtIndex.Search: what a built index answers to the query is a parameter, required to be right; `Search.Run` is such an answer.
- Broker.HedgedBroker.Dispatch: the delay and the two waits are a list of race outcomes handed in, one for each shard; every list is covered, no clock is modelled.
- WorkerPool.BoundedQueue.Shutdown: the waking of `cpp/server/bounded_queue.h:43` is in `WorkerPool.WorkerPool.Shutdown`, where the workers are.
- LosingTexts.TextsDecide: documents are given by their terms, and a term some document has is taken to weigh more than nothing, as `cpp/index/index_format.h:59-62` gives it.
- NrtRuns.BaseSurvives: looks at files of one index object; the sharing of a base segment between several is the caller's.
- Which worker `notify_one` wakes, when clocks pass a window, whether a build or a scorer fails and which call of a race finishes first are parameters of the steps, so every outcome is covered; nothing is said about how long anything takes.
- Time-outs of calls and of joining threads, process and port handling, remote procedure calls, report renderers, plots and data loaders.
- Rank fusion, corpus partitioning, recall, reciprocal rank and run files: they would only add easy members.
