# amigao: the algorithms, modelled and proved

amigao is a small search engine: a crawler, a Chinese word segmenter, a reverse index kept
as rows of text, and a ranked search. This project models the algorithms inside it and proves
what they are for. Code that works in place is modelled in place, on arrays, linked nodes and
object fields; each such method is proved against a function of its inputs or its old state,
and lemmas then say what that function achieves. Code that runs in several threads or
processes is a state machine with one step for each section under a lock, and its properties
hold in every reachable state.

Some results deserve a word, because the code does not do what one would expect everywhere;
each is a lemma with the exact condition, most with an input or a run where it fails beside it.

* A row cut at every update is the complete list cut once if and only if no update needs a
  node an earlier cut dropped (`RowHistory.CutHistory`). That holds with urls that are new to the
  start and to every earlier update (`RowHoldsHeaviest`), and whenever no update lowers a weight
  that is in the row (`UnloweredAgrees`); lowering one can miss (`ReweightingCanMiss`). The cap
  test is an equality, so a row that is too long stays too long (`StaysWithinCap`).
* Both dynamic programs of the segmenter start every cell at the constant `MIN_DOUBLE`. Every
  text of n runes is cut into a heaviest segmentation, under every dictionary whose weights
  are at least some bound, if and only if n - 1 times the bound is above that constant
  (`MaxProbFloor.AlwaysHeaviestIff`, weights of any sign). Every text of n runes gets the best
  path of states, under all tables in which no step adds and staying in the state of single
  runes costs at most some bound a step, if and only if 2 n times the bound is above it
  (`HmmFloor.AlwaysBestIff`); and under all tables of any sign in which nothing costs more than the
  bound, if and only if 2 n times the bound is not below it (`HmmFloor.AlwaysBestAboveIff`; a
  single rune is always safe). One rune that the user dictionary lists with frequency 0 is enough
  to break up the word in front of it (`MaxProbFloor.FloorCanLose`).
* The encoder masks the lead byte of a four-byte sequence with `0x03`, so the decoder undoes it
  if and only if the code point is below 0x100000 (`Utf8.RoundTrip`). It also encodes
  surrogates, which section 3 of RFC 3629 prohibits: it follows the standard if and only if the
  code point is below 0x100000 and no surrogate (`Utf8Standard.FollowsStandard`). The decoders read
  every text of the standard (`DecodesStandard`), and more: what they accept is a text of the
  standard if and only if every piece they take is octets that the grammar of section 4 lists
  (`DecodedIsTextIff`, `ReadsMalformed`).
* The block loop of MD5 tests `i + 63 < inputLen` in 32 bits: the test is right at every place
  if and only if the bytes in the buffer and the piece together stay below 2^32
  (`Md5.TestIsSoundIff`).
* The clamp of `add_connection` adds in 32 bits: a run of the connection pool keeps its idle
  limit if and only if every addition it is asked for stays within an int
  (`ConnPool.IdleLimitIff`, `ConnPool.ClampMissed`). Alone, `get_connection` comes back if and only
  if there is room and the idle list is above MIN_IDLE or MIN_IDLE below MAX_IDLE
  (`ConnPool.AloneReturnsIff`). No connection gets a second holder if and only if nobody gives
  back what somebody else uses (`ConnPool.ExclusiveIff`, `ConnPool.GivenBackComesNext`). Asked to
  delete so negative a number that the difference wraps around, the pool deletes all it may
  (`ConnPool.DeleteIs`). And `delete_node` on a node removes the head of the list whichever node it is
  given (`PoolList.DBPoolList.DeleteNode`), which is right for its only use.
* A shutdown of the thread pool runs every task if and only if no task was pushed behind the
  last sentinel (`ThreadPool.StopCompletesIff`); one that is is never run (`AddedTooLate`).
* The master drains the ring without its lock, the workers running on. When the drain ends all
  that was accepted by then has come out; nothing stays behind if and only if as many links
  came out as were ever accepted (`UrlRing.DrainLosesNothingIff`).

The files, in reading order: `Widths`, `IndexArithmetic`, `Lookup`, `Permutations`, `Decimal`, `Scan`
(shared basics); `PostingRow`, `UpdateWeight`, `RowHistory`, `SearchScore` (the reverse index);
`Ranking`, `ResultPages`, `Search` (search); `Utf8`, `Utf8Standard`, `Trie`, `MaxProb`, `MaxProbFloor`, `Hmm`,
`HmmFloor`, `MixSegment`, `QuerySegment` (the segmenter); `BlockingQueue`, `ThreadPool`,
`PoolOverQueue`, `PoolList`, `ConnPool`, `UrlRing` (concurrency); `Md5`.
`dafny verify dfyconfig.toml` checks them all.

Conventions. C++ `double` is `real`: weights and tables are arbitrary reals. Widths are written
out where the code depends on them: the 32-bit product and 64-bit sum of a score, the `short`
page count, the sums of the connection pool, the words of MD5, the decoded runes. Null pointers are the value `None`, the null
reference or, for a connection, 0. The result of a database query, the contents of a file and
the order in which an `unordered_map` is walked are parameters.

## Model

| member | source | states |
|---|---|---|
| `Decimal.ReadPrint` | src/strategy/reverse_valuate_strategy.hpp:203-219 | a number printed by a stream and read back is the same number, has only digits and, if positive, no leading zero |
| `Decimal.DigitsAre` | src/strategy/reverse_valuate_strategy.hpp:203-219 | the last digit is the remainder by ten, what stands in front of it is the tenth printed |
| `Scan.Find` | src/strategy/reverse_valuate_strategy.hpp:222-223 | `string::find`: the first position where the pattern occurs, negative exactly if there is none |
| `PostingRow.OccurrenceIsNode` | src/strategy/reverse_valuate_strategy.hpp:222-224 | `_u\|` occurs in a row's text only at the underscore of a node with that url that is not the last node: the text search is list membership |
| `PostingRow.NodeOccurs` | src/strategy/reverse_valuate_strategy.hpp:222-246 | the converse: every node but the last shows as `_u\|` at its underscore |
| `PostingRow.RowTextInjective` | src/strategy/reverse_valuate_strategy.hpp:196-219 | the row text determines the list of nodes: two well-formed lists with the same text are equal |
| `PostingRow.RowLooksLike` | src/strategy/reverse_valuate_strategy.hpp:196-219 | two nodes in the row format: count, then bar, weight, underscore and url for each |
| `UpdateWeight.NotFound` | src/strategy/reverse_valuate_strategy.hpp:223-229 | when the search fails, at most the last node has the url, which the tail comparison then decides |
| `UpdateWeight.Found` | src/strategy/reverse_valuate_strategy.hpp:223-251 | when the search succeeds, its position is the underscore of the first node of that url, and that node is not the last |
| `UpdateWeight.RemoveLast` | src/strategy/reverse_valuate_strategy.hpp:234-244 | cutting the last node and recounting gives the row of the list without it |
| `UpdateWeight.RemoveHead` | src/strategy/reverse_valuate_strategy.hpp:251-262 | cutting the first node and recounting gives the row of the list without it |
| `UpdateWeight.RemoveMiddle` | src/strategy/reverse_valuate_strategy.hpp:263-281 | cutting out a node in between and recounting gives the row of the list without it |
| `UpdateWeight.RemoveExisting` | src/strategy/reverse_valuate_strategy.hpp:220-283 | over all four cases: the row becomes that of the list without the url and the count follows; the early return happens exactly when nothing would be left |
| `UpdateWeight.WeightText` | src/strategy/reverse_valuate_strategy.hpp:290-300 | the characters between bar and underscore read back as the node's weight |
| `UpdateWeight.ReadNode` | src/strategy/reverse_valuate_strategy.hpp:306-316 | from the start of a node the scans find its weight and its end, which is the end of the row exactly for the last node |
| `UpdateWeight.InsertOrdered` | src/strategy/reverse_valuate_strategy.hpp:284-322 | the walk inserts the node behind all heavier ones and in front of the rest, at the end if all are heavier |
| `UpdateWeight.FitToCap` | src/strategy/reverse_valuate_strategy.hpp:323-344 | at the cap the last node goes and the count stays, otherwise the count grows by one; either way the result is a well-formed row text |
| `UpdateWeight.ReadCount` | src/strategy/reverse_valuate_strategy.hpp:209-219 | the prefix of a row is its number of nodes and ends at the first bar |
| `UpdateWeight.UpdateRow` | src/strategy/reverse_valuate_strategy.hpp:196-345 | the whole lambda refines, on lists, "remove the url, insert by weight, cut at MAX_URLS"; weight 0 changes nothing |
| `RowHistory.UpdateKeepsOrder` | src/strategy/reverse_valuate_strategy.hpp:284-344 | an update keeps the nodes sorted by weight and every url at most once |
| `RowHistory.UpdateRecords` | src/strategy/reverse_valuate_strategy.hpp:220-322 | as a map from url to weight, removal and insertion together are exactly one map update |
| `RowHistory.CutIsTop` | src/strategy/reverse_valuate_strategy.hpp:323-344 | for a row within the cap an update is: reweight, then keep the first MAX_URLS |
| `RowHistory.StaysWithinCap` | src/strategy/reverse_valuate_strategy.hpp:325-331 | because the cap test is an equality, the row ends within the cap if and only if it was, the url itself not counted |
| `RowHistory.CutStep` | src/strategy/reverse_valuate_strategy.hpp:325-331 | one update of the cut row equals the cut of the updated complete list if and only if it does not need a dropped node |
| `RowHistory.CutHistory` | src/strategy/reverse_valuate_strategy.hpp:284-344 | over any history, the row is the complete list cut after every update if and only if no update needs a dropped node |
| `RowHistory.RowHoldsHeaviest` | src/strategy/reverse_valuate_strategy.hpp:284-344 | when every update brings a url that neither the start nor an earlier update has, the row holds the MAX_URLS heaviest of all nodes there ever were: cutting at every step is cutting once |
| `RowHistory.UnloweredAgrees` | src/strategy/reverse_valuate_strategy.hpp:220-344 | the same, for urls given any number of times, as long as no update lowers a weight that the row then holds |
| `RowHistory.FreshHistory` | src/strategy/reverse_valuate_strategy.hpp:284-322 | the complete list is a permutation of the starting nodes and the updates |
| `RowHistory.NewestFirst` | src/strategy/reverse_valuate_strategy.hpp:301-320 | of two updates where the later is no lighter, the later stands in front: ties go to the newer |
| `RowHistory.ReweightingCanMiss` | src/strategy/reverse_valuate_strategy.hpp:220-331 | a concrete history with a url weighed twice where the row is not the cut of the complete list |
| `SearchScore.ParseWeight` | src/strategy/plain_search_strategy.hpp:141-164 | parsing a row written by an update adds each node's share to the scores, in order |
| `SearchScore.ScoreQuery` | src/strategy/plain_search_strategy.hpp:165-168 | parsing all rows of a query adds up all its postings |
| `SearchScore.AddNodesSum` | src/strategy/plain_search_strategy.hpp:147-163 | after one row each url other than "0" has its old score plus the sum of its shares modulo 2^64, and has an entry exactly if it had one or is in the row |
| `SearchScore.AddPostingsSum` | src/strategy/plain_search_strategy.hpp:165-168 | the same over all rows |
| `SearchScore.ScoreIsSum` | src/strategy/plain_search_strategy.hpp:141-168 | the scores have an entry for exactly the urls mentioned other than "0", and it is the sum of the 32-bit shares modulo 2^64 |
| `SearchScore.ScoreOrder` | src/strategy/plain_search_strategy.hpp:166-168 | the order in which the rows are walked does not matter |
| `SearchScore.ScoreIsPlainSum` | src/strategy/plain_search_strategy.hpp:156-162 | as long as no product reaches 2^32 and no sum 2^64, a score is the plain sum of times * weight |
| `SearchScore.ProductIs` | src/strategy/plain_search_strategy.hpp:156-162 | the product of weight and times is the unsigned int that is equal to it modulo 2^32 |
| `Ranking.SiftDown` | src/strategy/plain_search_strategy.hpp:200-215 | the sift-down loop on the array computes `Sift`; the loop of lines 226-240 is the same with the bound exclusive |
| `Ranking.BuildHeap` | src/strategy/plain_search_strategy.hpp:196-217 | the heap-building loop on the array computes `CreateHeap` |
| `Ranking.HeapSort1` | src/strategy/plain_search_strategy.hpp:219-241 | one `heap_sort1` on the array computes `SortStep` |
| `Ranking.RankPrefix` | src/strategy/plain_search_strategy.hpp:196-243 | building the heap and end_sub + 1 steps compute a partial `SortDown` |
| `Ranking.SiftHeap` | src/strategy/plain_search_strategy.hpp:200-215 | sifting down repairs a heap that is wrong at one place only |
| `Ranking.SiftPermutes` | src/strategy/plain_search_strategy.hpp:200-215 | sifting permutes the heap part and leaves the rest of the array alone |
| `Ranking.CreateHeapIsHeap` | src/strategy/plain_search_strategy.hpp:196-217 | the build ends in a heap that is a permutation of the urls |
| `Ranking.RootIsHeaviest` | src/strategy/plain_search_strategy.hpp:203-208 | no entry of a heap outweighs its root |
| `Ranking.Heaviest` | src/strategy/plain_search_strategy.hpp:202-208 | of a node and its children the heaviest is taken, the first of them on ties |
| `Ranking.SortStepKeeps` | src/strategy/plain_search_strategy.hpp:219-241 | a step keeps: permutation of the start, a heap in front, ranked entries behind, none of them lighter than any in front |
| `Ranking.SortDownRanks` | src/strategy/plain_search_strategy.hpp:242-243 | after any number of steps that invariant holds, so the tail is the top of the ranking |
| `Ranking.SortDownStable` | src/strategy/plain_search_strategy.hpp:242-243 | further steps never touch the places already ranked: a longer partial sort agrees with a shorter one |
| `ResultPages.PageBounds` | src/strategy/plain_search_strategy.hpp:176-187 | the slice is empty, so the request refused, if and only if the page is beyond the last |
| `ResultPages.RankedPage` | src/strategy/plain_search_strategy.hpp:48-51 | a request gets exactly the places (p - 1) * per on of the ranking, p the page asked for or 1 below that, per the size asked for from 1 to 50 or else 10, with the page count; or -1 and -1 exactly when the first of these places is beyond the ranking |
| `ResultPages.RankSlice` | src/strategy/plain_search_strategy.hpp:189-260 | partially sorting and walking back emits places start_sub to end_sub of the full ranking |
| `ResultPages.EmitPage` | src/strategy/plain_search_strategy.hpp:249-260 | the emitting loop lists the array from end - start_sub down to end - end_sub |
| `ResultPages.LastPage` | src/strategy/plain_search_strategy.hpp:177-187 | a page exists if and only if its first place is inside the ranking |
| `ResultPages.PageCountIs` | src/strategy/plain_search_strategy.hpp:186-187 | the page count is the least number of pages that holds all results |
| `ResultPages.OrderedPrefix` | src/strategy/plain_search_strategy.hpp:242-260 | a partial sort puts the same urls in the first places as the complete sort |
| `ResultPages.OrderedIsRanking` | src/strategy/plain_search_strategy.hpp:196-243 | the ranking is a permutation of the urls with the heaviest first |
| `ResultPages.RankOfRanking` | src/strategy/plain_search_strategy.hpp:196-243 | at each place it has the same weight as any other heaviest-first permutation |
| `ResultPages.PagesCoverRanking` | src/strategy/plain_search_strategy.hpp:177-187 | pages 1 to the last, one after the other, are the ranking: each url exactly once |
| `ResultPages.PageCountFits` | src/strategy/plain_search_strategy.hpp:186-188 | the page count survives being stored in a short if and only if it is below 2^15 |
| `Search.Walk` | src/strategy/plain_search_strategy.hpp:189-195 | the table is copied in any order, each url once |
| `Search.AnswerQuery` | src/strategy/plain_search_strategy.hpp:141-260 | from the rows to the page: whatever the order of the table, there is a ranking of exactly the urls mentioned, once each and by summed weight, whose places for the page and size asked for are the answer; refused exactly beyond its end |
| `Utf8.DecodeRunesInString` | src/utils/cppjieba/Unicode.hpp:138-154 | decodes rune by rune; fails, with no runes, exactly when some rune does not decode |
| `Utf8.DecodedTiles` | src/utils/cppjieba/Unicode.hpp:138-154 | the runes tile the text: offsets and lengths leave no gap and no overlap, numbers count up |
| `Utf8.NextCodePoint` | src/utils/cppjieba/limonp/StringUtil.hpp:212-256 | one round of the second decoder accepts and advances exactly as the first one does |
| `Utf8.Utf8ToUnicode32` | src/utils/cppjieba/limonp/StringUtil.hpp:207-260 | the second decoder's loop |
| `Utf8.DecodersAgree` | src/utils/cppjieba/Unicode.hpp:83-154 | on every byte string both decoders agree on success and on the runes |
| `Utf8.Unicode32ToUtf8` | src/utils/cppjieba/limonp/StringUtil.hpp:262-286 | the encoder's loop |
| `Utf8.DecodeEncode` | src/utils/cppjieba/limonp/StringUtil.hpp:207-286 | decoding what was encoded always succeeds, and gives each code point, above 0xffff with only its low twenty bits |
| `Utf8.RoundTrip` | src/utils/cppjieba/limonp/StringUtil.hpp:207-286 | decoding undoes encoding if and only if every code point is below 0x100000 |
| `Utf8Standard.FollowsStandard` | src/utils/cppjieba/limonp/StringUtil.hpp:269-283 | a code point gets the octets of section 3 of RFC 3629 if and only if it is below 0x100000 and no surrogate; surrogates and values above 0x10ffff have none there, and the encoder refuses nothing |
| `Utf8Standard.EncodedShape` | src/utils/cppjieba/limonp/StringUtil.hpp:262-286 | for any value at all, as many bytes as its size asks for, with a lead of that length and all others in 80..BF |
| `Utf8Standard.DecodesStandard` | src/utils/cppjieba/limonp/StringUtil.hpp:207-260 | every text of the standard, also above 0x100000, decodes to its characters |
| `Utf8Standard.PieceIsStandardIff` | src/utils/cppjieba/Unicode.hpp:83-136 | a decoded piece is the standard encoding of its rune if and only if it is octets that section 4 of RFC 3629 lists: no overlong form, no surrogate, nothing above 0x10ffff, tails in 80..BF |
| `Utf8Standard.DecodedIsTextIff` | src/utils/cppjieba/limonp/StringUtil.hpp:207-260 | a byte string that decodes is the encoding of the runes found, or of any others, if and only if every piece taken is octets of the grammar |
| `Utf8Standard.TextsAreOctets` | src/utils/cppjieba/limonp/StringUtil.hpp:207-260 | over all byte strings, the encodings of section 3, the strings of the grammar of section 4, and those that a decoder takes in pieces of that grammar are the same |
| `Utf8Standard.ReadsMalformed` | src/utils/cppjieba/limonp/StringUtil.hpp:216-223 | an overlong form and a second byte that continues nothing: two byte strings that decode and are no text of the standard |
| `Utf8Standard.DecodeRuneIs` | src/utils/cppjieba/Unicode.hpp:83-136 | on any bytes, a rune is read exactly if there are as many bytes as its lead asks for, whatever the other bytes are |
| `Utf8Standard.RuneOfFour` | src/utils/cppjieba/Unicode.hpp:112-123 | a rune of four bytes is the low bits of its lead and the low six of each other byte; `RuneOfOne`, `RuneOfTwo` and `RuneOfThree` say it for the shorter ones |
| `Trie.Trie.InsertNode` | src/utils/cppjieba/Trie.hpp:125-149 | grows linked nodes in place; as a map from words to values it is one update, nothing for the empty key |
| `Trie.Trie.Find` | src/utils/cppjieba/Trie.hpp:60-79 | finds exactly the value last inserted under the word |
| `Trie.Trie.FindEdges` | src/utils/cppjieba/Trie.hpp:89-121 | the edges of one position |
| `Trie.Trie.FindDag` | src/utils/cppjieba/Trie.hpp:81-123 | the graph of a text, position by position |
| `Trie.EdgesAre` | src/utils/cppjieba/Trie.hpp:99-121 | the edges at i are exactly i with the single-rune lookup, found or not, and every j within the word length whose slice is in the dictionary, with its value |
| `Trie.EdgesInOrder` | src/utils/cppjieba/Trie.hpp:89-121 | they come in the order of where they lead, each place once, the single rune first |
| `Trie.CreateTrie` | src/utils/cppjieba/Trie.hpp:152-162 | inserting a list of words gives the map in which the last value of a word wins |
| `Trie.LastInsertWins` | src/utils/cppjieba/Trie.hpp:125-162 | a non-empty word is in the dictionary exactly if it was inserted, with the last value it was given |
| `Trie.PrefixInTrie` | src/utils/cppjieba/Trie.hpp:125-149 | the paths of the trie are closed under prefixes |
| `Trie.GrowKeepsShape` | src/utils/cppjieba/Trie.hpp:138-143 | adding a node keeps the tree a tree: one path to each node, every child entry a path |
| `MaxProb.CalcDP` | src/utils/cppjieba/MPSegment.hpp:72-103 | the backward loop over the graph computes `Fill` in place |
| `MaxProb.FillSettles` | src/utils/cppjieba/MPSegment.hpp:77-102 | afterwards every position holds the best of its edges given the positions behind it |
| `MaxProb.WeightIsUpperBound` | src/utils/cppjieba/MPSegment.hpp:72-103 | for any graph and weights, no path from a position scores more than the weight recorded there |
| `MaxProb.TryAttains` | src/utils/cppjieba/MPSegment.hpp:84-101 | above the floor the choice is the first of the best edges |
| `MaxProb.CutByDag` | src/utils/cppjieba/MPSegment.hpp:104-121 | following the choices appends their words |
| `MaxProb.ChosenAttains` | src/utils/cppjieba/MPSegment.hpp:72-121 | if no position the cut stops at is at the floor, the cut is a path and scores exactly the recorded weight |
| `MaxProb.CutIsOptimal` | src/utils/cppjieba/MPSegment.hpp:72-121 | it then scores no less than any path |
| `MaxProb.ClearIff` | src/utils/cppjieba/MPSegment.hpp:80-103 | where no edge adds weight, the record at the start is above the floor if and only if some path through the graph scores above it |
| `MaxProb.LightCutIsOptimal` | src/utils/cppjieba/MPSegment.hpp:72-121 | in any graph with no edge below a bound, of whatever sign, length times bound above the floor makes the cut score no less than any path |
| `MaxProb.DagFits` | src/utils/cppjieba/MPSegment.hpp:52-59 | the graph of any dictionary whose entries spell their own key has the shape the dynamic program needs |
| `MaxProb.CutRange` | src/utils/cppjieba/MPSegment.hpp:52-59 | graph, weights and cut together append `BestWords` of the range |
| `MaxProb.BestWordsTile` | src/utils/cppjieba/MPSegment.hpp:52-59 | the words tile the range, whatever the weights |
| `MaxProb.BestWordsMove` | src/utils/cppjieba/MPSegment.hpp:104-121 | the words of a range that starts behind rune 0 are those of the same runes at rune 0, moved |
| `MaxProb.WordsFollowChoices` | src/utils/cppjieba/MPSegment.hpp:104-121 | every word ends where the choice recorded at its first rune says, at the floor too |
| `MaxProb.SegmentationBound` | src/utils/cppjieba/MPSegment.hpp:72-103 | no segmentation of the range into dictionary words and single runes weighs more than the recorded weight |
| `MaxProb.BestWordsAreBest` | src/utils/cppjieba/MPSegment.hpp:52-121 | for any dictionary and any range of a text, while no position the cut stops at is at the floor, the words cut are a heaviest segmentation of the range |
| `MaxProb.CutIsSegmentation` | src/utils/cppjieba/MPSegment.hpp:104-121 | whatever the weights and wherever the range starts, the words cut are a segmentation of it into dictionary words and single runes |
| `MaxProb.CutIsHeaviestIff` | src/utils/cppjieba/MPSegment.hpp:52-121 | with logarithms of probabilities, for a range wherever it starts, the cut weighs more than the floor if and only if some segmentation does, and then none weighs more than the cut |
| `MaxProbFloor.LightTextsAreCutBest` | src/utils/cppjieba/MPSegment.hpp:52-121 | weights of any sign, none below a bound, and n - 1 times the bound above the floor: the cut of a range of n runes, wherever it starts, is a heaviest segmentation, even if its first position is at the floor |
| `MaxProbFloor.BreaksUpWord` | src/utils/cppjieba/MPSegment.hpp:80-100 | otherwise there is a dictionary and a text of n runes whose only word is broken up, though keeping it weighs more |
| `MaxProbFloor.AlwaysHeaviestIff` | src/utils/cppjieba/MPSegment.hpp:52-121 | so every range of n runes, wherever it starts, is cut into a heaviest segmentation under every dictionary with no weight below a bound if and only if n is at most one or n - 1 times the bound is above the floor |
| `MaxProbFloor.FloorCanLose` | src/utils/cppjieba/DictTrie.hpp:104-109 | a rune listed with frequency 0, whose weight is the logarithm of 0, breaks up the known word in front of it, for any weights of the word and the least weight that make keeping it better |
| `Hmm.RelaxCell` | src/utils/cppjieba/HMMSegment.hpp:158-172 | the inner loop fills one cell of the flat arrays and keeps the others |
| `Hmm.Viterbi` | src/utils/cppjieba/HMMSegment.hpp:135-189 | the array program computes `Statuses`, the states traced back through the table |
| `Hmm.CellBoundsPaths` | src/utils/cppjieba/HMMSegment.hpp:157-173 | for any tables, no path of states ending in a cell scores more than the cell |
| `Hmm.FirstPredecessorWins` | src/utils/cppjieba/HMMSegment.hpp:158-172 | of the best predecessors a cell records the first, and at the floor state E |
| `Hmm.TraceAttains` | src/utils/cppjieba/HMMSegment.hpp:185-188 | if no cell on the way back is at the floor, the states traced score exactly the cell |
| `Hmm.TraceFollows` | src/utils/cppjieba/HMMSegment.hpp:185-188 | each state traced is the one the cell behind it came from |
| `Hmm.StatusesAreOptimal` | src/utils/cppjieba/HMMSegment.hpp:135-189 | the statuses then end in E or S and score no less than any path of states that does |
| `Hmm.FinalIsClearIff` | src/utils/cppjieba/HMMSegment.hpp:157-182 | with no positive table entry, the final cell is above the floor if and only if some path ending in E or S is |
| `Hmm.StatusesAreBestIff` | src/utils/cppjieba/HMMSegment.hpp:135-189 | with no positive table entry, the statuses score above the floor if and only if some path ending in E or S does, and then none scores more |
| `HmmFloor.CheapSinglesAreBest` | src/utils/cppjieba/HMMSegment.hpp:135-189 | no positive table entry, and 2 n times the cheapest step of staying in S above the floor: the statuses are a best path |
| `HmmFloor.TraceLeavesS` | src/utils/cppjieba/HMMSegment.hpp:157-188 | otherwise there are tables and a text of n runes whose statuses score less than staying in S |
| `HmmFloor.AlwaysBestIff` | src/utils/cppjieba/HMMSegment.hpp:135-189 | so under all such tables every text of n runes gets a best path if and only if n is one or 2 n times the bound is above the floor |
| `HmmFloor.CostlyTextsAreBest` | src/utils/cppjieba/HMMSegment.hpp:135-189 | at or above it the statuses are a best path, also where the last cells are at the floor |
| `HmmFloor.TraceMissesGain` | src/utils/cppjieba/HMMSegment.hpp:157-188 | below that: tables where everything costs the same but for one rune in one state, which the statuses miss |
| `HmmFloor.AlwaysBestAboveIff` | src/utils/cppjieba/HMMSegment.hpp:135-189 | under all tables of any sign in which no start, step or rune of the text is below a bound, every text of n runes gets a best path if and only if n is one or 2 n times the bound is at least the floor |
| `Hmm.FloorMisleads` | src/utils/cppjieba/HMMSegment.hpp:160-170 | two unknown runes and a table where the statuses score less than another path |
| `Hmm.SequentialLetterRule` | src/utils/cppjieba/HMMSegment.hpp:76-95 | from a letter, the longest stretch of letters and digits; from anything else, nothing |
| `Hmm.NumbersRule` | src/utils/cppjieba/HMMSegment.hpp:97-115 | from a digit, the longest stretch of digits and points; from anything else, nothing |
| `Hmm.ClassesAre` | src/utils/cppjieba/HMMSegment.hpp:76-115 | letters, digits and the runes that may follow them, by their codes |
| `Hmm.InternalCut` | src/utils/cppjieba/HMMSegment.hpp:116-133 | cuts a run after every E and S |
| `Hmm.RunEndsByStatus` | src/utils/cppjieba/HMMSegment.hpp:116-133 | in a run a word ends exactly at the runes whose status in the Viterbi result is E or S |
| `Hmm.Cut` | src/utils/cppjieba/HMMSegment.hpp:41-72 | alternates ASCII words and cut runs over the range |
| `Hmm.CutWordsTile` | src/utils/cppjieba/HMMSegment.hpp:41-133 | the words tile the range: nothing lost, doubled or reordered |
| `Hmm.AsciiWordsAre` | src/utils/cppjieba/HMMSegment.hpp:41-115 | a word that starts with a letter takes all letters and digits that follow, one that starts with a digit all digits and points, any other ASCII rune stands alone |
| `Hmm.ForeignRunsAreCut` | src/utils/cppjieba/HMMSegment.hpp:41-72 | every maximal stretch of other runes is cut by the model as a whole |
| `MixSegment.PreFilter.Next` | src/utils/cppjieba/PreFilter.hpp:26-41 | the next stretch is the separator at the cursor alone, or everything up to the next separator or the end |
| `MixSegment.RecutSingles` | src/utils/cppjieba/MixSegment.hpp:53-86 | every maximal run of single runes outside the user dictionary is cut anew, everything else stays |
| `MixSegment.CutRange` | src/utils/cppjieba/MixSegment.hpp:42-87 | the range cut, with and without the second model |
| `MixSegment.WithoutModel` | src/utils/cppjieba/MixSegment.hpp:44-47 | without the model the cut is the dictionary cut |
| `MixSegment.DictWordsStay` | src/utils/cppjieba/MixSegment.hpp:53-61 | with it, a dictionary word longer than a rune, or of a rune that is a user word, is in the result |
| `MixSegment.LeftoversGoToModel` | src/utils/cppjieba/MixSegment.hpp:63-85 | and every maximal run of single runes that are no user words is replaced by exactly what the model makes of it |
| `MixSegment.MixWordsTile` | src/utils/cppjieba/MixSegment.hpp:42-87 | its words tile the range |
| `MixSegment.WordBytes` | src/utils/cppjieba/Unicode.hpp:188-197 | a word has exactly the bytes from its first rune to its last, with the right offset and counts |
| `MixSegment.GetWordsFromWordRanges` | src/utils/cppjieba/Unicode.hpp:207-213 | the words of a list of ranges |
| `MixSegment.CutText` | src/utils/cppjieba/MixSegment.hpp:29-36 | cuts stretch by stretch |
| `MixSegment.StretchesAreCut` | src/utils/cppjieba/MixSegment.hpp:29-36 | every separator, and every stretch between two, is cut as a range of its own |
| `MixSegment.Cut` | src/utils/cppjieba/MixSegment.hpp:28-40 | decoding, filter, both models and substrings composed |
| `MixSegment.SentenceWordsAre` | src/utils/cppjieba/MixSegment.hpp:28-40 | the words are one for each range, in order, each with exactly the bytes of its runes; none if the sentence does not decode |
| `MixSegment.NothingIsLost` | src/utils/cppjieba/MixSegment.hpp:28-87 | for every text that decodes, the words joined are the text, and their offsets follow one another |
| `MixSegment.WordsLegal` | src/utils/cppjieba/KeywordExtractor.hpp:61-76 | the words' sizes add up to the sentence's, so the "words illegal" branch is not taken, if and only if the sentence decodes |
| `QuerySegment.CutRange` | src/utils/cppjieba/QuerySegment.hpp:45-72 | the mixed cut, each word with its grams in front |
| `QuerySegment.GramsAre` | src/utils/cppjieba/QuerySegment.hpp:54-69 | the grams are exactly the slices of n runes inside the word that are in the dictionary |
| `QuerySegment.ExpandedAre` | src/utils/cppjieba/QuerySegment.hpp:52-71 | a word gives itself and exactly its dictionary slices of two and three runes that are shorter than it |
| `QuerySegment.ExpandedInOrder` | src/utils/cppjieba/QuerySegment.hpp:52-71 | they come shorter ones first and in the order of the text, none twice, the word itself last |
| `QuerySegment.CutText` | src/utils/cppjieba/QuerySegment.hpp:33-40 | cutting stretch by stretch expands the mixed cut of the whole text |
| `QuerySegment.TextQueryIs` | src/utils/cppjieba/QuerySegment.hpp:33-72 | every word of the mixed cut stands expanded in its place, and nothing else is there |
| `QuerySegment.Cut` | src/utils/cppjieba/QuerySegment.hpp:32-44 | decoding, filter, mixed cut, grams and substrings composed |
| `QuerySegment.SentenceWordsAre` | src/utils/cppjieba/QuerySegment.hpp:32-44 | the words are one for each of these ranges, in order, each with exactly the bytes of its runes |
| `QuerySegment.QueryRefinesMix` | src/utils/cppjieba/QuerySegment.hpp:32-72 | every word of a sentence's query cut is the text at its offset and lies within a word of the mixed cut |
| `QuerySegment.MixIsKept` | src/utils/cppjieba/QuerySegment.hpp:32-72 | no word of the mixed cut is missing from the query cut |
| `BlockingQueue.BoundedQueue.Push` | src/utils/cppjieba/limonp/BoundedQueue.hpp:31-36 | on the circular buffer, appends at the back |
| `BlockingQueue.BoundedQueue.Pop` | src/utils/cppjieba/limonp/BoundedQueue.hpp:38-44 | takes from the front |
| `BlockingQueue.AttemptIs` | src/utils/cppjieba/limonp/BoundedBlockingQueue.hpp:13-32 | one round in full: a call that must wait waits and changes nothing else; one that gets through leaves and wakes one waiter of the other kind if there is one, never two |
| `BlockingQueue.AttemptKeeps` | src/utils/cppjieba/limonp/BoundedBlockingQueue.hpp:13-32 | one round of a Push or Pop, its wait or its signal, keeps the invariant on waiters and signalled threads |
| `BlockingQueue.NextInv` | src/utils/cppjieba/limonp/BoundedBlockingQueue.hpp:13-32 | so does every step: calls barging in, woken threads resuming, spurious wakes |
| `BlockingQueue.RunInv` | src/utils/cppjieba/limonp/BoundedBlockingQueue.hpp:13-32 | in every run: while consumers wait, the queue holds no more than signalled consumers will fetch; while producers wait, no more slots are free than signalled producers will fill |
| `BlockingQueue.NobodyStuck` | src/utils/cppjieba/limonp/BoundedBlockingQueue.hpp:15-30 | in every run, no wake-up is lost: a waiter that could proceed implies a thread already woken for it |
| `BlockingQueue.FirstInFirstOut` | src/utils/cppjieba/limonp/BoundedBlockingQueue.hpp:13-32 | in every run the bound holds and what came out followed by what is in is what went in |
| `BlockingQueue.StepOfQueue` | src/utils/cppjieba/limonp/BoundedBlockingQueue.hpp:18-29 | a step changes the queue only as a push to a queue not full or a pop from one not empty does, so the assertions hold |
| `ThreadPool.NextInv` | src/utils/cppjieba/limonp/ThreadPool.hpp:21-69 | every step, an addition during the shutdown too, keeps: what was popped followed by what is queued is what was pushed; a worker has left exactly if it took a sentinel; every task taken is running or done |
| `ThreadPool.StopRuns` | src/utils/cppjieba/limonp/ThreadPool.hpp:55-69 | when the last join returns every worker has taken exactly one NULL, the tasks pushed before the last one have run exactly once, and those pushed behind it are what is left in the queue |
| `ThreadPool.StopCompletesIff` | src/utils/cppjieba/limonp/ThreadPool.hpp:55-69 | so the queue is empty, and every task has run, if and only if a NULL was pushed last |
| `ThreadPool.AddedTooLate` | src/utils/cppjieba/limonp/ThreadPool.hpp:50-69 | a run in which a task is added behind the last NULL, the last join returns, and the task has not run |
| `ThreadPool.AddedInTime` | src/utils/cppjieba/limonp/ThreadPool.hpp:50-69 | a run in which a task added in time has run when the last join returns |
| `ThreadPool.StopCompletes` | src/utils/cppjieba/limonp/ThreadPool.hpp:55-69 | when all additions come before the shutdown, the last join returns with the queue empty, every task run exactly once and every worker having taken exactly one NULL |
| `ThreadPool.NeverRunTwice` | src/utils/cppjieba/limonp/ThreadPool.hpp:21-36 | at any time the tasks run or being run are at most those added, each as often as it was added |
| `ThreadPool.NoDeadlock` | src/utils/cppjieba/limonp/ThreadPool.hpp:55-64 | until the last join some push, pop, finished task or join is possible in a stopping pool |
| `ThreadPool.EveryStepCounts` | src/utils/cppjieba/limonp/ThreadPool.hpp:55-64 | every step a stopping pool takes by itself lowers a measure |
| `PoolOverQueue.ActKeeps` | src/utils/cppjieba/limonp/BoundedBlockingQueue.hpp:13-32 | a call of a worker, of Stop or of Add on the monitor, waiting or getting through, keeps both machines' invariants and their agreement |
| `PoolOverQueue.PoolRefined` | src/utils/cppjieba/limonp/ThreadPool.hpp:21-69 | with every wait, signal and spurious wake in the state, each run of the pool over the monitor is a run of the pool |
| `PoolOverQueue.ShutdownCompletes` | src/utils/cppjieba/limonp/ThreadPool.hpp:55-69 | so the shutdown result holds over the monitor's waits |
| `PoolOverQueue.NobodyMissesAWakeUp` | src/utils/cppjieba/limonp/ThreadPool.hpp:55-64 | in every such run, until the last join, some thread can move a stopping pool on without a spurious wake: none is stuck in the queue |
| `PoolOverQueue.ProgressCounts` | src/utils/cppjieba/limonp/BoundedBlockingQueue.hpp:13-32 | every other step, also one that only goes to wait, lowers the measure |
| `PoolOverQueue.ShutdownIsBounded` | src/utils/cppjieba/limonp/ThreadPool.hpp:55-64 | from Stop on, any stretch of a run takes no more steps, waits and wake-ups included, than a measure of the state says, but for late additions and spurious wakes, each worth a fixed number |
| `PoolList.DBPoolList.IfExist` | src/db/db_pool_list.hpp:59-68 | membership of a connection, with the answers for an empty list and for null as in the code |
| `PoolList.DBPoolList.IfNodeExists` | src/db/db_pool_list.hpp:69-78 | membership of a node, null included |
| `PoolList.DBPoolList.AddNode` | src/db/db_pool_list.hpp:79-86 | puts a node in front unless it or its connection is there |
| `PoolList.DBPoolList.AddConnection` | src/db/db_pool_list.hpp:87-93 | puts a new node in front unless the connection is there |
| `PoolList.DBPoolList.MoveNode` | src/db/db_pool_list.hpp:37-56 | moves exactly the one node to the front of the other list, keeps the order of the others, both counts, and both lists acyclic and disjoint; or changes nothing |
| `PoolList.DBPoolList.DeleteConnection` | src/db/db_pool_list.hpp:95-115 | unlinks exactly the node of the connection, or changes nothing |
| `PoolList.DBPoolList.DeleteNode` | src/db/db_pool_list.hpp:116-137 | removes the head of the list, whichever of its nodes is given |
| `PoolList.DBPoolList.PopConnection2` | src/db/db_pool_list.hpp:149-154 | hands over a connection by moving its node; to nowhere or to itself it only returns the connection |
| `ConnPool.NormalizedIsSane` | src/db/db_info.hpp:80-87 | the corrected limits are consistent if and only if the limit put above MIN_IDLE does not wrap around; consistent limits are not changed |
| `ConnPool.NormalizedIs` | src/db/db_info.hpp:80-87 | each limit is as configured or the least it may be; an upper idle limit below the lower becomes one more than it |
| `ConnPool.SqlDBPool.AddConnection` | src/db/sql_db_pool.hpp:36-55 | on the lists, computes `AddConnections` for any int, with the sum of the test in 32 bits |
| `ConnPool.AddIs` | src/db/sql_db_pool.hpp:36-55 | an addition that fits in an int opens the number asked for, as far as there is room, and puts the new connections in front |
| `ConnPool.ClampHoldsIff` | src/db/sql_db_pool.hpp:39-42 | an addition keeps the idle limit if and only if that sum fits in an int |
| `ConnPool.ClampMissed` | src/db/sql_db_pool.hpp:39-42 | one idle connection and 2147483647 more: the clamp is missed |
| `ConnPool.SqlDBPool.DeleteConnection` | src/db/sql_db_pool.hpp:56-65 | on the lists, computes `DeleteConnections` for any int, with the difference of the test in 32 bits |
| `ConnPool.DeleteIs` | src/db/sql_db_pool.hpp:56-65 | a deletion takes the number asked for from the front, as far as MIN_IDLE lets it; asked for so negative a number that the difference wraps around, all that MIN_IDLE lets it |
| `ConnPool.DeleteKeeps` | src/db/sql_db_pool.hpp:59-63 | deletion never goes below MIN_IDLE, even where the difference wraps around |
| `ConnPool.SqlDBPool.Try` | src/db/sql_db_pool.hpp:74-91 | one pass of `get_connection` under both locks |
| `ConnPool.PassIs` | src/db/sql_db_pool.hpp:74-91 | a pass hands out the front of the idle list and puts it in front of the used one, unless all are in use or the idle list is at MIN_IDLE |
| `ConnPool.SqlDBPool.GetConnection` | src/db/sql_db_pool.hpp:72-92 | with nobody else around, any number of passes on the lists computes `Passes`, the refills and the sleeping in between included |
| `ConnPool.SqlDBPool.RecycleConnection` | src/db/sql_db_pool.hpp:93-109 | on the lists, computes `Recycle` |
| `ConnPool.RecycleIs` | src/db/sql_db_pool.hpp:93-109 | a connection in use leaves its place in the used list and goes to the front of the idle one unless that is full; any other changes nothing |
| `ConnPool.FirstTry` | src/db/sql_db_pool.hpp:72-92 | with room and an idle connection to spare or to be had, the first pass succeeds, or asks for one connection after which the second does |
| `ConnPool.AloneReturnsIff` | src/db/sql_db_pool.hpp:72-92 | alone, `get_connection` comes back, and then within two passes, if and only if there is room and the idle list is above MIN_IDLE or MIN_IDLE is below MAX_IDLE |
| `ConnPool.RefillHelps` | src/db/sql_db_pool.hpp:82-87 | a refill lets the next pass succeed if and only if MIN_IDLE is below MAX_IDLE; with equal limits below the largest int it changes nothing |
| `ConnPool.RecycleUsed` | src/db/sql_db_pool.hpp:93-109 | giving back takes exactly that connection out of use and keeps the idle limit |
| `ConnPool.RunInv` | src/db/sql_db_pool.hpp:36-109 | every interleaving of gets, returns by anyone of anything, and maintenance with any ints keeps: lists duplicate-free and disjoint, at least MIN_IDLE idle, at most MAX_CONN used |
| `ConnPool.IdleLimitIff` | src/db/sql_db_pool.hpp:36-109 | a run keeps at most MAX_IDLE idle throughout if and only if every addition it is asked for fits in an int |
| `ConnPool.ExclusiveIff` | src/db/sql_db_pool.hpp:72-109 | in a run every connection in use has exactly one holder throughout if and only if nobody ever gives back what is in use by somebody else |
| `ConnPool.PoolIsSafe` | src/db/sql_db_pool.hpp:36-109 | in every run both lists are duplicate-free and disjoint; all limits hold as long as the additions so far fit in an int, and every connection in use has exactly one holder as long as nobody gave back what somebody else uses |
| `ConnPool.NoSecondHolder` | src/db/sql_db_pool.hpp:72-92 | as long as that holds a connection handed out is held by nobody |
| `ConnPool.GivenBackComesNext` | src/db/sql_db_pool.hpp:93-109 | a connection given back is the next handed out if and only if the idle list was not full |
| `UrlRing.StoredIff` | src/spider/crawl_worker.cc:279-283 | a slot gives a url back unchanged if and only if it fits |
| `UrlRing.StoredIs` | src/spider/crawl_worker.cc:279-283 | what it gives back is the longest front of the url that fits and has no terminator |
| `UrlRing.ShmCtrl.WriteSlot` | src/spider/crawl_worker.cc:279-283 | copying a url changes only the slot at the tail |
| `UrlRing.ShmCtrl.ReadSlot` | src/spider/crawl_worker.cc:123-128 | copying out reads the slot at the head up to its terminator |
| `UrlRing.ShmCtrl.Dequeue` | src/spider/crawl_worker.cc:95-131 | takes the oldest url; fails exactly on an empty ring |
| `UrlRing.ShmCtrl.EnqueueBatch` | src/spider/parse_worker.cc:248-281 | the front of the batch goes in, in order, with every url in the ring still in place, the end comes back, and something comes back only if the ring is then full save one slot |
| `UrlRing.ShmCtrl.KeepOneQueueRest` | src/spider/crawl_worker.cc:257-300 | the first link is kept as the next work, the next ones go to the ring in order, and the rest is for the file only if the ring is then full save one slot |
| `UrlRing.ShmCtrl.Drain` | src/spider/master.cc:194-205 | writes out everything in the ring, oldest first, and leaves it empty |
| `UrlRing.NextInv` | src/spider/shmctrl.h:28-49 | every step of any worker and every round of the drain keep the ring first in, first out with a slot free, and every link in exactly one place |
| `UrlRing.OfferIs` | src/spider/crawl_worker.cc:246-300 | an offer of links in full: kept, accepted in order, and left to write out only if the ring is full |
| `UrlRing.FileOnlyWhenFull` | src/spider/parse_worker.cc:248-281 | in every run in which the ring has never been full, nothing has gone to the overflow file nor waits to go there |
| `UrlRing.NoUrlLost` | src/spider/crawl_worker.cc:246-300 | in every interleaving the ring is first in, first out and never overfull, and every surviving link is in exactly one place: kept, through the ring, in the file, or about to be written there |
| `UrlRing.DrainLosesNothingIff` | src/spider/master.cc:194-213 | with workers going on during and after the drain: at its end all that was accepted by then has come out in order, and nothing is in the ring later if and only if as many links came out as were accepted, as when none was accepted since |
| `UrlRing.DrainCompletes` | src/spider/master.cc:194-205 | with the ring and the workers empty and urls that fit: what came out is what was accepted, in order, and every link is kept, taken, drained or in the file |
| `UrlRing.Perform` | src/spider/crawl_worker.cc:95-300 | each locked section on the ring object is the step of the runs that it should be, and none where it does not apply |
| `UrlRing.ActionsAre` | src/spider/crawl_worker.cc:95-131 | what the other sections do to the state, in full |
| `UrlRing.Execute` | src/spider/crawl_worker.cc:95-300 | any schedule of them on a new ring is a run, so the two results above hold of the ring object |
| `Md5.Encode` | src/utils/cppjieba/limonp/Md5.hpp:206-215 | writes words low byte first and leaves the rest of the output alone |
| `Md5.Decode` | src/utils/cppjieba/limonp/Md5.hpp:219-225 | reads words low byte first |
| `Md5.WordsAreNumbers` | src/utils/cppjieba/limonp/Md5.hpp:219-225 | each word is the number its four bytes stand for, low byte first |
| `Md5.DecodeEncode` | src/utils/cppjieba/limonp/Md5.hpp:206-225 | decoding undoes encoding |
| `Md5.EncodeDecode` | src/utils/cppjieba/limonp/Md5.hpp:206-225 | encoding undoes decoding |
| `Md5.CountsBits` | src/utils/cppjieba/limonp/Md5.hpp:254-257 | the two-word counter with its carry by comparison counts bits modulo 2^64 |
| `Md5.IndexIs` | src/utils/cppjieba/limonp/Md5.hpp:250-251 | the low word tells how many bytes are in the buffer, also after the counter has wrapped around |
| `Md5.TestIsSoundIff` | src/utils/cppjieba/limonp/Md5.hpp:266-267 | the 32-bit test of the block loop says the right thing at every place if and only if the bytes in the buffer and the piece stay below 2^32 together |
| `Md5.MD5.Update` | src/utils/cppjieba/limonp/Md5.hpp:246-274 | after any pieces: the state is the fold of the block transform over the full blocks of all input, the buffer starts with the remainder, the counter is the number of bits modulo 2^64 |
| `Md5.MD5.Final` | src/utils/cppjieba/limonp/Md5.hpp:279-302 | the digest is that of the whole message as sections 3.1, 3.2 and 3.4 of RFC 1321 define it, however it was cut into pieces; the context is zeroed |
| `Md5.PadLengthIs` | src/utils/cppjieba/limonp/Md5.hpp:286-288 | the padding length is the one of section 3.1 |
| `Md5.PadLengthIsLeast` | src/utils/cppjieba/limonp/Md5.hpp:286-288 | which is the least positive one that reaches 56 modulo 64 |
| `Md5.PaddedIs` | src/utils/cppjieba/limonp/Md5.hpp:279-292 | the padded message is the message, 0x80, zeros to 56 modulo 64 and no further, and eight bytes that are the length in bits modulo 2^64, low byte first |
| `Md5.InitialBytes` | src/utils/cppjieba/limonp/Md5.hpp:230-244 | the registers start as the bytes 01 23 45 67 to 10 of section 3.3 |
| `Md5.DigestIs` | src/utils/cppjieba/limonp/Md5.hpp:246-302 | the digest is the registers, low byte first, behind a chain of states from the initial one by the rounds on each block in turn |
| `Md5.LengthBytes` | src/utils/cppjieba/limonp/Md5.hpp:283-292 | the eight bytes appended are the length in bits modulo 2^64, low byte first, as in section 3.2 |
| `Md5.PaddedInjective` | src/utils/cppjieba/limonp/Md5.hpp:279-292 | different messages below 2^61 bytes are padded differently |
| `Md5.DigestFile` | src/utils/cppjieba/limonp/Md5.hpp:320-342 | a file read in chunks has the digest of its contents |
| `Md5.DigestString` | src/utils/cppjieba/limonp/Md5.hpp:357-366 | a text taken in at once has its digest, or from 2^32 bytes on that of the part its truncated length leaves |

## Left out

Deliberately weaker than the source:

- MaxProb.BestWordsAreBest: asks that no position the cut stops at is at the floor; `AlwaysHeaviestIff` has the condition on the dictionary and the length instead.
- MaxProb.CutIsHeaviestIff: weights that are never positive; user words with a frequency above the sum of all frequencies have positive ones, which `AlwaysHeaviestIff` covers.
- Hmm.StatusesAreOptimal: asks that no cell on the way back is at the floor, for tables of any sign; `AlwaysBestIff` has the condition on the tables and the length.
- HmmFloor.AlwaysBestIff: tables without positive entries; `AlwaysBestAboveIff` is for any sign.
- Hmm.StatusesAreBestIff: tables without positive entries, as are `FinalIsClearIff` and `CheapSinglesAreBest`; `AlwaysBestAboveIff` is for any sign.
- ConnPool.SqlDBPool.GetConnection: nobody else is around, and the number of passes is given; in the runs with other clients each pass is a step.
- PoolList.DBPoolList.AddNode: lists of 2^31 nodes and more, whose own tests of the count go wrong; the pool reads the count as an int.
- UrlRing.DrainCompletes: each round of the drain is one step. The master does not take the lock of the ring, and what a round does in the middle of a worker's section is not modelled. Urls that do not fit a slot come out shortened (`StoredIff`).
- UrlRing.ShmCtrl.KeepOneQueueRest: the copying of the kept link into `work_url` is left out.
- Md5.MD5.Update: pieces that together with the buffered bytes reach 2^32, where the test of the block loop goes wrong (`TestIsSoundIff`).
- UpdateWeight.UpdateRow: the row is one that updates write, with fewer than 2^31 - 1 nodes; what a stream extraction does to text that is not a number is not modelled.

Not part of this model:

- The database, Redis, FastCGI, sockets, HTML parsing, regular expressions, signals and processes: calls into code outside the repository.
- Rounding of `double`, infinities and the computation of weights in `DictTrie` and `HMMModel`. Weights, minimum weights and model tables are arbitrary reals; each dictionary entry spells its own key.
- The order in which an `unordered_map` is walked: `ScoreOrder` shows it does not change the scores, and `Walk` takes any.
- 32-bit positions inside a row: they are unbounded here.
- Widths of byte counts in `MixSegment` are unbounded; only the decoder's limit of 2^32 bytes is kept. The constructor of `PreFilter` takes the decoded runes.
- A null child table of a trie node is the empty map.
- `Sift` is written once for the two copies of the loop in the search strategy.
- Freed memory: a deleted list node is unlinked and not looked at again. A connection is a positive number, a new one for each connection opened; a failed connect ends the process.
- The locking order of the connection pool and whether a waiting thread is ever scheduled: safety, and that a step exists, are proved instead.
- `BoundedBlockingQueue::size`, which calls a method its queue does not have.
- The start fill of the ring and the reading of urls from files: the contents of a file are not in the state. The HTML half of a ring slot is opaque and left out.
- The rounds of the MD5 transform are a parameter. The hexadecimal print of a digest, `digestMemory` and the initial contents of the buffers are left out.
- `FullSegment`, keyword and TextRank scoring, `format_url` and `parse_url`, `crypt`, escaping, INI parsing and page layout.
