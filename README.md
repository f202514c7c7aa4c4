# A verified model of the C++ core of Large-Scale HyperTextual Search Engine

The engine indexes a collection of research papers and answers keyword,
AND, phrase and autocomplete queries over it. This project models its C++
core in Dafny, one module per concern, and proves what each part promises.
It covers the path a paper takes through the engine:

- **Extraction** (`Extractor`, `ExtractorDocs`; backend/extractor.cpp):
  - whitespace trimming and normalisation, and field sanitising;
  - author joining and section grouping;
  - the plain-text paper parser;
  - the eight-column TSV line, and the `source` and `doi_or_id` choices.
- **Cleaning** (`CleanerText`, `CleanerTokens`, `PorterStemmer`; cleaner.cpp):
  - control-character normalisation and the hyphenation repair;
  - the field tokenizer, with its position counter, stop words and number filter;
  - the Porter (1980) stemmer;
  - `split_and_trim`, the TSV column split and the section-name split.
- **Indexing** (`Indexer`, `IndexerPostings`, `IndexerMerge`, `IndexerLexicon`; indexer.cpp):
  - stable internal document ids;
  - per-block posting accumulation and block flushing;
  - parsing of block lines;
  - the k-way merge into VByte-coded postings with a lexicon.
- **Barrels** (`Barrel`, `BarrelBlock`, `BarrelIndex`; barrel.cpp): the
  most-significant-group-first VByte code, block parsing, the
  sort-and-combine merge, and lexicon offsets.
- **Searching**:
  - `Searcher`, `SearcherQueries` (searcher.cpp): the unbounded decoder,
    OR, AND and phrase search, and query-mode parsing;
  - `BackendSearcher`, `BackendSearcherOr`, `BackendSearcherQueries`
    (backend/searcher.cpp): the bounded decoder, barrel loading, year
    extraction, the ranked searches and the performance counters;
  - `ApiServer` (Api_server.cpp): keyword search and autocomplete lookup;
  - `BackendApi`, `BackendApiIndex`, `BackendApiSearch`
    (backend/api_server.cpp): the in-memory index rebuild and AND and
    phrase search;
  - `QueryDecoder`, `QueryTokens`, `QueryEngine` (Query-engine.hpp).
- **Autocomplete**:
  - `AutocompleteBuilder` (backend/autocomplete_builder.cpp): the prefix
    index builder and its binary writer;
  - `AutocompleteServer` (backend/autocomplete_server.cpp): the loader and
    lookup;
  - `AutocompleteRoundTrip`: reading the written file back;
  - `AutocompleteEngine` (Auto-complete.hpp): the trie.
- **Semantic index** (`SemanticIndexer`; backend/semantic_indexer.cpp):
  the CSV splitter, the embedding loader's rules, the `semantic.idx`
  header and the docid mapping.
- **Barrel cache** (`BarrelManager`; Barrel-manager.hpp): the LRU cache of
  three barrels.

Shared modules hold the common pieces:

- `Common`: fixed-width integers with the 32-bit wrap `Low32`, and the
  ASCII character classes of `<cctype>`;
- `VByte`, `Postings`, `PostingLists`: the least-significant-group-first
  VByte code and the postings layout;
- `LittleEndian`: the fixed-width integers of the binary files;
- `Decimal`: `std::to_string` and `std::stoul` on decimal text;
- `Text`: finding separators, splitting, joining and trimming;
- `Ordering`, `Ranking`: string order, sorting, de-duplication, and
  top-k selection by score;
- `RecordStream`: reading records one after another.

Modelling conventions:

- Code that rewrites state in place is a `class`, or a `method` with loop
  invariants; each is proved against a specification function on values.
  - The barrel caches are classes whose fields are the loaded flags and buffers.
  - `AutocompleteIndex`, the trie `Engine`, the LRU `Manager` and the
    performance counters are classes too.
- A file read is an `Option<seq<byte>>` or `Option<seq<string>>`: `None`
  when the file cannot be opened.
- Floating-point scores, whose exact values are not modelled, come in as
  parameters:
  - BM25 (`Weight`), the recency decay, the popularity score and its bit pattern;
  - `std::hash` and `stof`.
- Hash-table iteration order is a parameter (`order`), so every result
  holds whatever order the table walks in.
- `uint32_t` arithmetic is wrapped explicitly with `Low32`.
- Api_server.cpp's `load_barrel` is the same function as
  backend/searcher.cpp's `load_barrel_if_needed`, so `ApiServer` uses
  `BackendSearcher.Barrels` and its `LoadIfNeeded`.

`PorterStemmer.StemWord` is the stemmer with the corrected measure: Porter's
`m`, the number of vowel-consonant sequences. cleaner.cpp as written is
`PorterStemmer.StemWith(s, VowelRuns)`: its `measure` counts every run of
vowels, a trailing one included (see Findings).

## Model

| member | source | states |
|---|---|---|
| `Common.Low32` | indexer.cpp:261 | a cast to `uint32_t` leaves a number below 2^32 unchanged |
| `Common.Lower` | backend/searcher.cpp:398-401 | lower-casing keeps the length, leaves no ASCII capital and keeps every character that is not one |
| `Decimal.ToDecimal` | indexer.cpp:142-146 | `to_string` of a count writes at least one digit and no leading zero |
| `Decimal.DecimalRoundTrip` | indexer.cpp:142-146 | the digits written denote the number written |
| `Decimal.StoulIn` | indexer.cpp:261 | a value `stoul` accepts is below the `unsigned long` limit |
| `Decimal.StoulInDigits` | indexer.cpp:261 | `stoul` reads a run of digits, ended by the bound or a non-digit, as the value of those digits |
| `Decimal.StoulInDecimal` | indexer.cpp:270 | `stoul` reads back `to_string(n)` wherever it stands, as long as no digit follows it |
| `Decimal.StoulOfDecimal` | indexer.cpp:270 | `stoul(to_string(n))` is `n` whatever non-digit follows |
| `Decimal.StoulSigned` | indexer.cpp:261 | a sign and leading blanks are accepted: "+3" reads 3, "-5" reads 2^64 - 5, whose `uint32_t` cast is 4294967291; "-" and "x1" throw |
| `Postings.ValueInSlice` | searcher.cpp:18-31 | the value of code bytes depends only on those bytes |
| `Postings.DecodePositions` | searcher.cpp:214-220 | a decoded position list has at most the `tf` requested |
| `Postings.DecodePostings` | searcher.cpp:205-224 | a decoded postings list has at most the document count requested |
| `Postings.ReadWord` | backend/searcher.cpp:16-34 | every decoder variant reads back the value of a code word that lies below its limit and stops right after it |
| `Postings.ReaderStaysWithin` | backend/api_server.cpp:89-103 | no decoder variant moves backwards or past its limit; the unchecked one fails where it would pass it |
| `Postings.EncodedStream` | indexer.cpp:294-313 | the bytes of the encoded numbers form a stream of code words whose width is their length |
| `Postings.PositionsRoundTrip` | searcher.cpp:214-220 | the position loop reads back the positions whose gaps the encoder wrote, ending where the gaps end |
| `Postings.PostingsRoundTrip` | searcher.cpp:205-224 | the postings loop reads back well-formed postings whose numbers the encoder wrote |
| `Postings.CountedRoundTrip` | searcher.cpp:195-227 | the count and the postings after it are read back together |
| `Postings.ListRoundTrip` | indexer.cpp:294-313 | every decoder reads the bytes the merge writes for a list back as that list and stops exactly at its end, whatever lies around them |
| `Postings.PostingsWithinTf` | backend/searcher.cpp:333-350 | each decoded posting carries at most `tf` positions |
| `Postings.ListWithinTf` | backend/searcher.cpp:304-354 | the same for a whole decoded list |
| `Postings.ReadLocal` | backend/searcher.cpp:16-34 | a number read with limit `max` depends on no byte at or past `max` |
| `Postings.DecodeListLocal` | backend/searcher.cpp:304-354 | a decoder limited by `max` never reads at or past it: the bytes from `max` on do not change what it decodes |
| `Text.Find` | indexer.cpp:259 | `find` gives the first index holding the character, or the end when there is none |
| `Text.SplitJoin` | indexer.cpp:347 | cutting a tab-separated line at its tabs gives back the fields written, when none holds a tab |
| `Text.Trim` | barrel.cpp:41-47 | the trimmed text neither starts nor ends with a blank |
| `Text.TrimSlice` | barrel.cpp:41-47 | the trimmed text is a slice of the input, only blanks are cut off, and it is empty exactly when the input is all blank |
| `Text.TrimIdempotent` | barrel.cpp:41-47 | trimming twice is trimming once |
| `Text.WordsFrom` | barrel.cpp:66 | the words a `>>` loop reads are non-empty and hold no white space |
| `Ordering.Sort` | indexer.cpp:117-123 | `std::sort` of numbers returns the same numbers, ascending |
| `Ordering.SortBy` | indexer.cpp:287-292 | `std::sort` by a key returns the same elements, ascending by that key |
| `Ordering.Unique` | barrel.cpp:170-171 | `unique` and `erase` keep exactly the elements present, first one first, and make an ascending sequence strictly ascending |
| `Ordering.SortStrings` | barrel.cpp:195 | `std::sort` of distinct strings returns them strictly sorted, a permutation of the input |
| `Ordering.SortedSetUnique` | indexer.cpp:285-292 | a strictly ascending sequence is determined by its elements |
| `Ordering.DistinctPermutation` | indexer.cpp:285-292 | a permutation of a sequence without repeats has none either |
| `LittleEndian.ValueOfBytes` | backend/semantic_indexer.cpp:178-180 | the bytes written for a value read back as that value modulo 256^width |
| `LittleEndian.BytesOfValue` | backend/autocomplete_server.cpp:45-46 | any bytes are the bytes of the value read from them, which lies below 256^width |
| `LittleEndian.CharsRoundTrip` | backend/autocomplete_server.cpp:48-49 | a string of byte-sized characters comes back from its bytes |
| `RecordStream.ReadMany` | backend/autocomplete_server.cpp:43-55 | reading `n` records gives exactly `n` of them or nothing |
| `RecordStream.ManyStopped` | backend/autocomplete_server.cpp:43-55 | once a record cannot be read, no longer run can be read |
| `Ranking.ValuesOf` | Api_server.cpp:257-258 | the copy loop lists every key of the score map once, in the map's traversal order, with its value |
| `Ranking.SortByScore` | Api_server.cpp:260-263 | the sort by descending score returns a permutation of its input whose scores do not increase |
| `Ranking.TopSpec` | Api_server.cpp:265 | the cut keeps the first `top_k` elements (all when there are fewer), and with scores not increasing every kept one scores at least as much as every dropped one |
| `Ranking.TopOfValues` | Api_server.cpp:257-265 | every result is the score of some document, and when there are no more documents than `top_k` every document's score is returned |
| `Ranking.Intersect` | searcher.cpp:366-376 | the loop keeping the documents also in the next term's set computes the intersection, in whatever order the set is walked |
| `PostingLists.DocSetOf` | searcher.cpp:358-363 | the insertion loop collects exactly the list's documents |
| `PostingLists.FirstPostingFound` | searcher.cpp:399-407 | a posting of the document is found exactly when the list holds the document |
| `PostingLists.FirstPostingFirst` | searcher.cpp:399-407 | the posting found is the first one of that document |
| `PostingLists.FindFirst` | searcher.cpp:399-407 | the search loop with its `break` finds that first posting |
| `VByte.EncodeShape` | indexer.cpp:23-34 | a code word has one to five bytes for a `uint32_t`, the 0x80 terminator sits on its last byte only, its 7-bit groups spell the value, and 0 is the single byte 0x80 |
| `VByte.DecodeEncoded` | indexer.cpp:23-34 | a code word read from any buffer, whatever precedes or follows it, ends right after its terminator and gives back the value written |
| `VByte.ValueOfFitting` | searcher.cpp:18-31 | the 32-bit register of the decoders loses nothing while the groups read denote a number below 2^32 |
| `Indexer.VByteEncodeUInt32` | indexer.cpp:23-34 | the loop appends exactly the code word of `v` to `out` |
| `Indexer.EncodedWordDecodes` | indexer.cpp:23-34 | the appended bytes are one to five, only the last carries 0x80, 0 is written as 0x80, and the bounded decoder reads `v` back and stops right after them, whatever follows |
| `Indexer.LowerCopy` | indexer.cpp:43-49 | the copy is the text with every ASCII capital lowered and every other character kept |
| `Indexer.DocIdMap.constructor` | indexer.cpp:70-72 | both directions of the mapping start empty and the next internal id is 1 |
| `Indexer.DocIdMap.GetOrAssign` | indexer.cpp:74-82 | a known docid gets its recorded id and nothing changes; an unknown one gets the counter's value, recorded in both directions, and the counter moves on by one; the id is never 0 |
| `Indexer.ParseCleanedLine` | indexer.cpp:85-126 | a line that parses to an object is accepted exactly when its "docid" is a string or an integer, and a line that does not parse is rejected; an accepted line's docid becomes its text, and its terms are then the aggregated, sorted positions of its tokens; a rejected line yields no terms |
| `Indexer.AggregateFields` | indexer.cpp:98-116 | the loops over fields and tokens produce the aggregate of every (term, position) of the line in document order |
| `Indexer.AggregateTokens` | indexer.cpp:100-114 | one field's tokens extend the aggregate by that field's (term, position) pairs |
| `Indexer.AggregateIsPositionsOf` | indexer.cpp:98-116 | a term has an entry exactly when some token spells it, and the entry lists the positions of exactly those tokens, in order |
| `Indexer.SortEach` | indexer.cpp:117-123 | every term keeps its entry and its positions come out sorted |
| `Indexer.ParsedTermsSpec` | indexer.cpp:85-126 | each term of a parsed line is lower-case, appears once, and carries the positions of exactly the tokens that spell it in any case, sorted ascending |
| `Indexer.LineEntriesLower` | indexer.cpp:106-108 | every term taken from a line is lower-case |
| `Indexer.AddPostingSpec` | indexer.cpp:488-500 | adding a document's positions to a term's list keeps neighbouring postings on distinct documents, loses no position, and adds exactly the document's positions after those it already had |
| `Indexer.AddDocument` | indexer.cpp:488-501 | every term of the document is added to the block dictionary with the document's internal id |
| `Indexer.AddDocumentKeepsInvariant` | indexer.cpp:488-501 | the block dictionary keeps its invariant and gains exactly the document's terms as keys |
| `Indexer.IndexDocument` | indexer.cpp:474-503 | a line is counted into the open block exactly when it parses; a malformed line changes nothing; a new docid gets the counter's value and no earlier id changes; the new block is the old one with the line's terms and forward entry added under the line's id |
| `Indexer.BuildBlocks` | indexer.cpp:466-524 | the flushed blocks are those built from consecutive runs of the input lines, each run ending where the block filled up, with the ids the pass gave; every block but the last holds exactly the block size of documents, together they hold every line that parses, and exactly the parsed docids gained ids |
| `Indexer.IndexLine` | indexer.cpp:474-509 | one line indexed into the open block leaves a block that is full exactly when the line parsed and reached the block size |
| `Indexer.PassLine` | indexer.cpp:474-516 | one turn of the line loop, flushing the block when it is full, keeps the pass's invariant: the blocks so far are those of the runs of lines read |
| `Indexer.AddLineCounts` | indexer.cpp:474-507 | one more line keeps the block's postings non-empty with no document twice in a row, counts the line exactly when it parses and adds exactly its docid to the forward map |
| `Indexer.AddLinePositions` | indexer.cpp:490-504 | one more line appends its positions of a term to the postings of its own id and leaves those of every other id unchanged |
| `Indexer.BlockOfLinesSpec` | indexer.cpp:474-507 | a block built from lines counts exactly the lines that parse, holds a forward entry for exactly their docids, and records under each term and id the positions those lines give, in line order |
| `Indexer.LineInBlock` | indexer.cpp:490-504 | every term of a parsed line is in the block's dictionary, the line's positions following those of the earlier lines of the same id |
| `Indexer.BlockOfLinesFrame` | indexer.cpp:483-484 | ids given later to other docids do not change a block already built |
| `Indexer.FlushBlock` | indexer.cpp:135-150 | one inverted-file line per term, in the order the dictionary is walked, each `term TAB docid:pos,pos;...` |
| `IndexerMerge.PositionsRoundTrip` | indexer.cpp:265-276 | the comma-separated position list the block writer prints is read back by the merge as the positions written |
| `IndexerMerge.SegmentsRoundTrip` | indexer.cpp:256-281 | the `docid:positions;...` text the block writer prints is read back by the merge's segment loop as the postings written |
| `IndexerMerge.BlockLineRoundTrip` | indexer.cpp:137-148 | a block line of a term without a tab is read back as that term and exactly its postings |
| `IndexerMerge.MinTermSpec` | indexer.cpp:237-243 | there is a minimum exactly when some reader is not exhausted, and it is some reader's term and no later than any reader's term |
| `IndexerMerge.FindMin` | indexer.cpp:237-243 | the first loop of a round computes that minimum |
| `IndexerMerge.Gather` | indexer.cpp:245-252 | the second loop of a round collects, in reader order, the current line of every reader on the minimum and moves exactly those readers on by one line |
| `IndexerMerge.AdvanceDecreases` | indexer.cpp:245-252 | a round consumes at least one line, so the merge loop ends |
| `IndexerMerge.MergeOfSortedFiles` | indexer.cpp:235-252 | over block files whose terms ascend strictly, the merge emits each term once, in strictly ascending order |
| `IndexerMerge.MergeOfUnsortedFilesRepeatsTerm` | indexer.cpp:135 | block files written in hash-table order can make the merge emit one term in two rounds (blocks `b, a` and `a` give `a`, `b`, `a`) |
| `IndexerMerge.FlushBlockSorted` | indexer.cpp:135-150 | the corrected writer prints the block's lines in ascending term order |
| `IndexerMerge.SortedTermsSortedFile` | indexer.cpp:135-150 | the lines of terms in strictly ascending order form a sorted block file |
| `IndexerPostings.ParsePositionList` | indexer.cpp:265-276 | the position loop succeeds exactly when no token makes `stoul` throw, and returns the positions parsed, empty tokens skipped |
| `IndexerPostings.ScanSegment` | indexer.cpp:259-266 | one pass of the segment loop: no ':' left ends the line, a throwing `stoul` ends the program, otherwise one posting and the ';' after it |
| `IndexerPostings.MergeSegments` | indexer.cpp:258-282 | the segment loop over one line succeeds exactly when its segments parse, adding every posting's positions to the table |
| `IndexerPostings.MergeLine` | indexer.cpp:255-258 | a gathered line contributes the postings after its first tab, none without a tab |
| `IndexerPostings.MergeLines` | indexer.cpp:254-283 | the loop over the gathered lines succeeds exactly when all of them parse, giving the merged table and the number of positions read |
| `IndexerPostings.MergedSpec` | indexer.cpp:254-283 | a document has an entry exactly when some gathered posting names it, and the entry holds all of its positions in block-line order |
| `IndexerPostings.TermPostingsSpec` | indexer.cpp:285-292 | the list written for a term has strictly ascending documents, exactly the gathered ones, each with all of its positions sorted and their number as `tf` |
| `IndexerPostings.DocidsOfPostings` | indexer.cpp:285-292 | the documents of the list are the table's keys in ascending order |
| `IndexerPostings.CollectPostings` | indexer.cpp:285-292 | collecting the table and sorting it by document gives the postings list of the table, whatever order the table is walked in |
| `IndexerPostings.CollectedIsPostingsOf` | indexer.cpp:285-292 | a list holding every document's posting once, ordered by document, is the table's postings list |
| `IndexerPostings.EncodeGaps` | indexer.cpp:307-312 | the position loop appends the code words of the position gaps |
| `IndexerPostings.EncodePosting` | indexer.cpp:301-312 | one posting appends the code of its document gap, of its `tf` and of its position gaps |
| `IndexerPostings.EncodePostings` | indexer.cpp:294-313 | the encoding loop writes the document count, then every posting: the bytes of the list as the decoders read them |
| `IndexerLexicon.MergeBlocks` | indexer.cpp:199-341 | the merge of the block files succeeds exactly when no `stoul` throws and then yields the lexicon and the bytes of postings.bin of the merge's specification |
| `IndexerLexicon.MergeRound` | indexer.cpp:245-333 | one round gathers the minimum's lines, advances its readers and makes the round's entry and bytes, with word id `k + 1` |
| `IndexerLexicon.MergeFromLayout` | indexer.cpp:314-333 | a merge that completes keeps what was written before, writes one entry per round and puts the lists back to back after it |
| `IndexerLexicon.MergeLayout` | indexer.cpp:314-333 | in a completed merge the lists sit back to back from offset 0 to the end of postings.bin, each entry describing its round |
| `IndexerLexicon.MergeEntry` | indexer.cpp:321-333 | entry `i` of a completed merge is round `i`'s, for the `i`-th term in merge order |
| `IndexerLexicon.DescribesSpec` | indexer.cpp:321-333 | an entry records its term, word id `k + 1`, the number of documents and of positions of its merged list, and where the list's code lies in postings.bin |
| `IndexerLexicon.EntryDecodes` | indexer.cpp:314-317 | reading postings.bin at an entry's offset gives back the term's merged list and stops at the end of the entry's bytes, whatever decoder reads it |
| `IndexerLexicon.SortedLexicon` | indexer.cpp:321-348 | with sorted block files the lexicon lists each term once, in ascending order, entry `i` having word id `i + 1` |
| `IndexerLexicon.Sanitized` | indexer.cpp:346 | the written term has the same length, no tab, newline or carriage return, and every other character kept |
| `IndexerLexicon.SanitizeTerm` | indexer.cpp:345-346 | the replacement loop computes that term |
| `IndexerLexicon.LexiconLineFields` | indexer.cpp:347 | a lexicon line holds no newline and cutting it at its tabs gives back its seven columns |
| `IndexerLexicon.TermsListLineFields` | indexer.cpp:355-357 | a term without tab or newline reads back from its terms_list.txt line together with its word id |
| `Barrel.Chunks` | barrel.cpp:11-15 | the do-while loop collects at least one 7-bit group, so 0 gives the single group 0 |
| `Barrel.VbEncodeNumber` | barrel.cpp:8-25 | the three loops (collect the groups least significant first, mark all but the first with 0x80, reverse) produce the code word of `n` |
| `Barrel.MarkContinued` | barrel.cpp:18-20 | the marking loop adds 0x80 to every group but the first and leaves the first as it is |
| `Barrel.VbEncodeList` | barrel.cpp:27-32 | the code words of all numbers are appended to `out`, in order |
| `Barrel.CodeShape` | barrel.cpp:8-25 | a code word has one to five bytes for a `uint32_t`, 0x80 on every byte but the last, and 0 is the single byte 0x00 |
| `Barrel.LeadIsReversed` | barrel.cpp:17-23 | the bytes before the last are the marked high groups, most significant first |
| `Barrel.CodeRoundTrip` | barrel.cpp:8-25 | reading most significant group first gives `n` back from its code word wherever it stands, and stops right after it |
| `Barrel.ListRoundTrip` | barrel.cpp:27-32 | what `vbEncodeList` appends decodes back to the numbers, in order |
| `Barrel.ConventionsDisagree` | barrel.cpp:17-23 | for every value of 128 or more this code word differs from the one indexer.cpp writes, and the searchers' decoder takes its first byte as a whole word, reading a value below 128 |
| `BarrelBlock.ReadPosition` | barrel.cpp:100-108 | one position token, trimmed: skipped when empty or when `stoul` throws, otherwise its value cast to `uint32_t` |
| `BarrelBlock.ParsePositions` | barrel.cpp:97-109 | the loop over the ','-separated tokens keeps, in order, the value of every token that reads |
| `BarrelBlock.ParseSegment` | barrel.cpp:79-117 | one ';'-separated piece gives no posting when it is blank, has no ':', has an empty side or an unreadable docid, and otherwise one posting, with empty positions when none read |
| `BarrelBlock.ParseAtColon` | barrel.cpp:83-88 | the piece is cut at its first ':' and both sides are trimmed |
| `BarrelBlock.ParseDocPositions` | barrel.cpp:88-116 | the docid is read with `stoul`, the position list parsed, and a posting made of them |
| `BarrelBlock.ParsePostings` | barrel.cpp:76-117 | the loop over the pieces of the postings text collects their postings, in order |
| `BarrelBlock.ParseLine` | barrel.cpp:58-119 | a line is skipped when blank, when no word can be read or when its postings text is blank or yields no posting; otherwise it gives its first word and its postings |
| `BarrelBlock.ReadBlock` | barrel.cpp:49-126 | the loop over a block file's lines builds the block index from the lines that are not skipped |
| `BarrelBlock.BlockCollectsLines` | barrel.cpp:119-123 | a term is in the block index exactly when one of its lines yields postings, and it holds the postings of all those lines, in file order |
| `BarrelBlock.TokensOfDecimals` | barrel.cpp:97-109 | position tokens written by `to_string` read back as the numbers |
| `BarrelBlock.PositionsRoundTrip` | barrel.cpp:97-109 | a position list as indexer.cpp writes it, `p1,p2,...`, reads back as its positions |
| `BarrelBlock.SegmentRoundTrip` | barrel.cpp:79-117 | the text indexer.cpp writes for a posting with positions reads back as that posting |
| `BarrelBlock.PostingsRoundTrip` | barrel.cpp:76-117 | the postings text of a list whose postings all have positions reads back as the list |
| `BarrelBlock.BlockLineRoundTrip` | barrel.cpp:58-119 | a block line indexer.cpp writes, for a term without white space and postings with positions, reads back as that term and those postings |
| `BarrelIndex.AddBlock` | barrel.cpp:142-147 | appending a block's terms, in whatever order its map is walked, gives the index with every term's block postings appended |
| `BarrelIndex.AddAll` | barrel.cpp:142-147 | the index after a block holds exactly the terms it held and those of the block |
| `BarrelIndex.MergeBlocks` | barrel.cpp:137-148 | the outer loop reads and appends every block file in turn |
| `BarrelIndex.MergedLines` | barrel.cpp:137-148 | after the merge a term holds the postings of all of its lines in all files, in file order, and is present exactly when it has any |
| `BarrelIndex.NormalizePostings` | barrel.cpp:151-175 | a term's postings come out one per document, by strictly increasing docid, each holding exactly the positions any posting gave that document, strictly increasing |
| `BarrelIndex.CombineSameDoc` | barrel.cpp:158-166 | over postings sorted by docid, the combining loop keeps one posting per document with the positions of all of its postings |
| `BarrelIndex.SortUniquePositions` | barrel.cpp:168-173 | every posting keeps its document and the same set of positions, now strictly increasing |
| `BarrelIndex.SortUnique` | barrel.cpp:170-171 | `sort` then `unique` and `erase` give the same positions, strictly increasing |
| `BarrelIndex.NormalizedUnique` | barrel.cpp:153-155 | the merged form of a list is unique, so the order in which `std::sort` leaves postings with equal docids does not matter |
| `BarrelIndex.NormalizedPermutation` | barrel.cpp:140-175 | postings that are a permutation of each other have the same merged form: it depends neither on the order of the block files nor on the order the maps are walked |
| `BarrelIndex.NormalizeAll` | barrel.cpp:151-175 | every term of the final index keeps its place and gets its merged postings |
| `BarrelIndex.TermNumbers` | barrel.cpp:202-221 | the numbers of a term are, per posting, the docid gap, the number of positions and the position gaps |
| `BarrelIndex.AppendGaps` | barrel.cpp:216-220 | the position loop appends the position gaps |
| `BarrelIndex.WriteIndex` | barrel.cpp:189-232 | the terms, sorted with `std::sort`, are written in that order: their lexicon lines and their code words |
| `BarrelIndex.WriteTerms` | barrel.cpp:197-232 | the loop over the sorted terms writes every term's lexicon line and bytes, the offset moving on by the bytes written |
| `BarrelIndex.WriteTerm` | barrel.cpp:224-231 | a term's number stream is encoded, and writing nothing for an empty encoding is the same as appending it |
| `BarrelIndex.SortedTerms` | barrel.cpp:192-195 | the lexicon lists every term of the final index once, in strictly increasing order |
| `BarrelIndex.LexiconAt` | barrel.cpp:200 | the `i`-th lexicon line names the `i`-th term, its number of postings and the number of bytes written before it |
| `BarrelIndex.LexiconLineFields` | barrel.cpp:200 | a lexicon line ends in its only newline and cut at its spaces gives the term, the count and the offset |
| `BarrelIndex.TermBytesAt` | barrel.cpp:228-231 | the `i`-th term's bytes stand in postings.bin at the offset its lexicon line gives |
| `BarrelIndex.MsbStream` | barrel.cpp:27-32 | code words laid out one after the other read back one after the other |
| `BarrelIndex.TermDecodes` | barrel.cpp:197-232 | reading postings.bin at the `i`-th term's offset with the most-significant-first decoder gives back that term's postings, when their counts fit 32 bits |
| `BarrelIndex.BytesDecode` | barrel.cpp:202-225 | a term's bytes, wherever they stand, decode back to its postings |
| `Searcher.VbyteDecode` | searcher.cpp:18-31 | the unchecked decoder, called where a terminator follows, reads the value of the code word at the offset and moves past its terminator |
| `Searcher.ReadStops` | searcher.cpp:18-31 | the unchecked decoder completes exactly when a terminator follows the offset; otherwise it would read past the buffer |
| `Searcher.UnboundedEnd` | searcher.cpp:18-31 | it stops just past the first terminator and reads the groups up to it |
| `Searcher.DecodePositionList` | searcher.cpp:214-220 | the position loop adds each gap to the previous position, giving the decoding's positions |
| `Searcher.DecodePostingsLoop` | searcher.cpp:205-224 | the postings loop reads `doc_count` postings, docids as running sums |
| `Searcher.DecodePostingsList` | searcher.cpp:195-227 | an entry whose bytes lie inside postings.bin decodes to its list, from the entry's offset on; one that does not gives the empty list |
| `Searcher.PostingsExact` | searcher.cpp:205-224 | a completed decoding without guards yields exactly the count read, each posting with exactly `tf` positions |
| `Searcher.DecodedExact` | searcher.cpp:195-227 | a decoded entry has as many postings as its first word says, each with exactly its `tf` positions |
| `Searcher.DecodedRoundTrip` | searcher.cpp:195-227 | a list indexer.cpp wrote at the entry's offset, with the entry's byte count, is read back as written |
| `Searcher.FindFromSpec` | searcher.cpp:128-131 | `find` from an index gives the first occurrence at or after it, and none means there is none |
| `Searcher.FindCharFromSpec` | searcher.cpp:131 | the same for a single character |
| `Searcher.ExtractJsonString` | searcher.cpp:126-134 | the text taken for a key never holds a quote |
| `Searcher.ExtractWritten` | searcher.cpp:126-134 | a field written as `"key":"v"`, with no earlier `"key":"` and no quote in `v`, reads back as `v` |
| `Searcher.ExtractMissing` | searcher.cpp:126-134 | a line without `"key":"` gives the empty string |
| `Searcher.QueryModeSpec` | searcher.cpp:617-623 | a line of two characters or more between double quotes is a phrase query, a line starting with '+' an AND query, anything else an OR query, and each gives back the line once its marks are put back around its text |
| `Searcher.ParsePhrase` | searcher.cpp:617-633 | a line `"a b"` asks for the phrase of its words |
| `SearcherQueries.Found` | searcher.cpp:258-266 | the kept terms are lower-cased query terms the lexicon has, no more of them than query terms |
| `SearcherQueries.FoundMembers` | searcher.cpp:258-266 | a term is kept exactly when it is some query term lower-cased and the lexicon has it |
| `SearcherQueries.FoundAll` | searcher.cpp:258-266 | all terms are kept exactly when the lexicon knows them all, and then they are the lower-cased query, in order |
| `SearcherQueries.FindTerms` | searcher.cpp:258-266 | the lookup loop computes the kept terms |
| `SearcherQueries.DecodeAll` | searcher.cpp:273-276 | the loop decodes the list of every kept term |
| `SearcherQueries.CreditListKeys` | searcher.cpp:286-312 | crediting one term's list adds exactly that list's documents, each under its own docid with its name and title |
| `SearcherQueries.CreditListScore` | searcher.cpp:297-310 | each document gains the term's BM25 sum over its postings |
| `SearcherQueries.CreditListTerms` | searcher.cpp:311 | each document in the list gains the term among its frequencies, and no other document does |
| `SearcherQueries.CreditStep` | searcher.cpp:286-312 | one posting credits its document only: a new result is created when it has none, its BM25 is added and its term recorded |
| `SearcherQueries.CreditPostings` | searcher.cpp:286-312 | the loop over one term's postings credits the whole list |
| `SearcherQueries.Accumulate` | searcher.cpp:279-313 | the loop over the terms computes the OR scores |
| `SearcherQueries.OrScoresSpec` | searcher.cpp:279-313 | a document is scored exactly when some list holds it, with the sum over terms of the BM25 of its postings and the terms whose list holds it |
| `SearcherQueries.OrAbsent` | searcher.cpp:279-313 | a document of no list scores nothing and matches no term |
| `SearcherQueries.RankScores` | searcher.cpp:316-328 | copying the map's values, sorting by descending score and cutting at `top_k` |
| `SearcherQueries.SearchQuery` | searcher.cpp:254-331 | no known term gives no result; otherwise the results are the OR scores of the known terms, ranked and cut |
| `SearcherQueries.OrResultsSpec` | searcher.cpp:254-331 | at most `top_k` results, by descending score, each a document of some list with its full score and matched terms |
| `SearcherQueries.RankedTopSpec` | searcher.cpp:316-328 | the kept results are values of the map, in descending score, and all of them when there are no more than `top_k` |
| `SearcherQueries.EveryListSpec` | searcher.cpp:366-376 | a document is in the intersection exactly when every list holds it |
| `SearcherQueries.IntersectAll` | searcher.cpp:351-376 | the set-building and intersection loops compute that intersection |
| `SearcherQueries.ScoreDoc` | searcher.cpp:381-408 | a document's result adds, for each term, the BM25 and frequency of the first posting of it |
| `SearcherQueries.ScoreAll` | searcher.cpp:378-412 | the loop over the intersection stores each document's result |
| `SearcherQueries.SearchAnd` | searcher.cpp:334-429 | no term, or a term the lexicon lacks, gives no result; otherwise the documents of every list, scored by the first posting of each, ranked and cut |
| `SearcherQueries.AndResultsSpec` | searcher.cpp:334-429 | at most `top_k` results, by descending score, each a document of every list with its AND result |
| `SearcherQueries.AndAgreesWithOr` | searcher.cpp:399-407 | over lists without a repeated document, the AND score of a document equals its OR score and records the same terms |
| `SearcherQueries.TermScoreFirst` | searcher.cpp:399-407 | in a list without a repeated document the BM25 sum of a document is that of its only posting |
| `SearcherQueries.Contains` | searcher.cpp:498-499 | `std::find` over a position list finds exactly the positions it holds |
| `SearcherQueries.FindAt` | searcher.cpp:496-504 | the loop over a term's postings finds one of the document holding the expected position exactly when there is one |
| `SearcherQueries.MatchAt` | searcher.cpp:492-510 | the loop over the later terms succeeds exactly when each term `i` is at `start + i` |
| `SearcherQueries.FindPhrase` | searcher.cpp:478-516 | the starts of the first term's first posting of the document are tried in order, and one succeeds exactly when the phrase stands in the document |
| `SearcherQueries.TryStarts` | searcher.cpp:488-516 | the loop stops at the first start that matches, or after the last one |
| `SearcherQueries.NormalizeAll` | searcher.cpp:435-443 | no terms are kept as soon as one is unknown; otherwise they are the lower-cased query |
| `SearcherQueries.PhraseWalk` | searcher.cpp:476-528 | the walk over the candidates lists each candidate holding the phrase once, with its hit |
| `SearcherQueries.SearchPhrase` | searcher.cpp:431-535 | no term or an unknown term gives no result; otherwise the hits of the documents holding the phrase, in the order the set is walked, cut at `top_k`, unsorted |
| `SearcherQueries.PhraseInEvery` | searcher.cpp:451-471 | the intersection is only a shortcut: a document holding the phrase is a document of every term |
| `SearcherQueries.PhraseOfOne` | searcher.cpp:488-516 | a phrase of one word finds the documents whose first posting lists a position |
| `SearcherQueries.PhraseResultsSpec` | searcher.cpp:431-535 | at most `top_k` results, each a document holding the phrase with its fixed-score hit, no document twice, and every such document when there are no more than `top_k` |
| `QueryDecoder.SkipPositions` | Query-engine.hpp:73-76 | the inner loop reads and drops `freq` numbers, ending where the position list ends |
| `QueryDecoder.DecodeDocids` | Query-engine.hpp:67-77 | the outer loop pushes, for each of `num_docs` postings, its docid as a running sum |
| `QueryDecoder.DecodePostingList` | Query-engine.hpp:58-80 | an entry of 0 bytes gives no document; otherwise the documents of the list read at its offset, in order, positions skipped |
| `QueryDecoder.DocIdsRoundTrip` | Query-engine.hpp:58-80 | a list indexer.cpp wrote, with its byte count, gives back its documents in order |
| `QueryDecoder.DocIdsCount` | Query-engine.hpp:58-80 | a non-empty entry that decodes gives as many documents as the count it starts with |
| `QueryTokens.Tokenize` | Query-engine.hpp:158-176 | the loop over the query computes its tokens: maximal runs of letters, digits and apostrophes, lower-cased |
| `QueryTokens.TokenizeStep` | Query-engine.hpp:162-169 | one character extends the current token when it is a token character, and otherwise closes the current token if there is one |
| `QueryTokens.TokensLower` | Query-engine.hpp:158-176 | every token is non-empty, in lower case, and made of token characters only |
| `QueryTokens.RunsShape` | Query-engine.hpp:158-176 | every token is non-empty, holds only token characters, and each of them comes from the query |
| `QueryTokens.RunsConcat` | Query-engine.hpp:158-176 | nothing is lost or invented: the tokens end to end are exactly the query's token characters |
| `QueryTokens.RunsSplit` | Query-engine.hpp:165-168 | text on both sides of a separator splits into the tokens of each side |
| `QueryTokens.RunsJoin` | Query-engine.hpp:158-176 | tokens joined by any separator character are tokenized back into themselves |
| `QueryEngine.SortedByBefore` | Query-engine.hpp:24-26 | a sequence sorted by the result's `operator<` is one whose scores never increase |
| `QueryEngine.Intersection` | Query-engine.hpp:331-342 | the `std::set` intersection loop computes the documents common to every kept list |
| `QueryEngine.RankAndCut` | Query-engine.hpp:300-304 | `sort` by `operator<`, then the cut to `top_k` |
| `QueryEngine.TopOfRanked` | Query-engine.hpp:300-304 | at most `top_k` results, by descending score, each one a hit, and every hit when there are no more than `top_k` |
| `QueryEngine.Engine.constructor` | Query-engine.hpp:179 | the engine starts with the loaded index, an empty barrel cache and no file read |
| `QueryEngine.Engine.LoadBarrel` | Query-engine.hpp:105-123 | a cached barrel is found without reading; a missing file is not found and changes nothing; otherwise the file is read once into the cache |
| `QueryEngine.Engine.PostingList` | Query-engine.hpp:126-142 | a term has documents only when the lexicon has it and its barrel file exists |
| `QueryEngine.Engine.GetPostingList` | Query-engine.hpp:126-142 | the documents of the term's list, its barrel now cached if the file exists |
| `QueryEngine.Engine.SingleResults` | Query-engine.hpp:289-298 | one result per document of the first token's list, each scored with `tf` 1 |
| `QueryEngine.Engine.SearchSingle` | Query-engine.hpp:275-307 | only the first token counts: its documents, scored with `tf` 1, sorted by descending score and cut to `top_k` |
| `QueryEngine.Engine.SingleSpec` | Query-engine.hpp:275-307 | at most `top_k` results, by descending score, each explained by the first token's list, and all of them when there are no more than `top_k` |
| `QueryEngine.Engine.CollectLists` | Query-engine.hpp:321-326 | the loop fetches every token's list and keeps the non-empty ones, in token order |
| `QueryEngine.Engine.NonEmptyLists` | Query-engine.hpp:321-326 | every kept list is non-empty and is its token's list |
| `QueryEngine.Engine.NonEmptyListsSpec` | Query-engine.hpp:321-326 | a token's list is kept exactly when it is not empty |
| `QueryEngine.Engine.CommonSkipsEmpty` | Query-engine.hpp:321-342 | a document is common exactly when every token with a non-empty list has it: a token with no documents does not empty the result |
| `QueryEngine.Engine.CommonFromTokens` | Query-engine.hpp:321-342 | a document of every non-empty list is common |
| `QueryEngine.Engine.TokensFromCommon` | Query-engine.hpp:321-342 | a common document is in every non-empty list |
| `QueryEngine.Engine.ScoreDoc` | Query-engine.hpp:352-362 | a document's score adds a BM25 with `tf` 1 for each kept term the lexicon has, and records that term |
| `QueryEngine.Engine.ScoreAll` | Query-engine.hpp:347-365 | the loop over the common documents, in ascending order, makes one result each |
| `QueryEngine.Engine.MultiTermsSpec` | Query-engine.hpp:355-362 | each kept term is recorded once, with frequency 1 |
| `QueryEngine.Engine.SearchAnd` | Query-engine.hpp:318-373 | no non-empty list gives no result; otherwise the common documents, scored, sorted and cut |
| `QueryEngine.Engine.SearchMulti` | Query-engine.hpp:310-374 | one token or none is the single-term search; several tokens with no documents give nothing; otherwise the AND search over the non-empty lists |
| `QueryEngine.Engine.MultiSpec` | Query-engine.hpp:318-373 | at most `top_k` results, by descending score, each explained by the kept lists, and all the common documents when there are no more than `top_k` |
| `ApiServer.VbyteDecode` | Api_server.cpp:27-41 | the decoder with a limit but no shift guard reads the value of the bytes up to the first terminator or up to the limit, and stops there |
| `ApiServer.BoundedEnd` | Api_server.cpp:27-41 | it stops just after a terminator, or at the limit, having read the groups before |
| `ApiServer.ReadBounds` | Api_server.cpp:27-41 | it never passes the limit, and stops before it only just after a terminator, however many bytes lack 0x80 |
| `ApiServer.NoShiftGuard` | Api_server.cpp:30-39 | six bytes without 0x80 and a terminator are one word to this decoder, while backend/searcher.cpp's gives up after five |
| `ApiServer.EncodeDecode` | Api_server.cpp:27-41 | the code word of `v` reads back as `v`, just past its last byte, whatever surrounds it |
| `ApiServer.DecodePositionList` | Api_server.cpp:208-213 | the position loop reads up to `tf` gaps while the offset is below the limit |
| `ApiServer.DecodePostingsLoop` | Api_server.cpp:201-215 | the postings loop reads postings while any remain and the offset is below the limit |
| `ApiServer.PostingsDone` | Api_server.cpp:201 | no posting is read once the count is reached or the limit passed |
| `ApiServer.DecodeRange` | Api_server.cpp:195-216 | whatever the bytes, decoding the entry's range always completes and gives the document count, then the postings, within the range |
| `ApiServer.DecodeEntry` | Api_server.cpp:194-216 | an entry whose range lies inside the barrel decodes to its list |
| `ApiServer.EntryListShape` | Api_server.cpp:198-215 | the list has at most as many postings as the count it starts with, and each posting at most `tf` positions |
| `ApiServer.EntryListLocal` | Api_server.cpp:196-215 | no byte at or past the end of the entry's range has a say in the list |
| `ApiServer.EntryRoundTrip` | Api_server.cpp:188-217 | a list as the indexers write it, with the entry covering it, decodes to the postings written |
| `ApiServer.DecodeTermPostings` | Api_server.cpp:188-217 | the entry's barrel is loaded if its file exists, and the result is the list it holds there, empty when the file is missing |
| `ApiServer.KnownTermsSpec` | Api_server.cpp:235-238 | a term is searched exactly when it is a query term lower-cased and the lexicon has it |
| `ApiServer.CreditStep` | Api_server.cpp:242-253 | one posting credits its document only: a new result when it had none, the weight added and the term recorded |
| `ApiServer.CreditListKeys` | Api_server.cpp:242-254 | crediting a list adds exactly its documents |
| `ApiServer.CreditListScore` | Api_server.cpp:250-252 | each document gains the term's weight summed over its postings |
| `ApiServer.CreditListTerms` | Api_server.cpp:253 | each document of the list gains the term among its frequencies, no other document does |
| `ApiServer.CreditPostings` | Api_server.cpp:242-254 | the loop over one term's postings credits the whole list |
| `ApiServer.ScoresSpec` | Api_server.cpp:233-255 | a document is scored exactly when some searched term's list holds it, with the sum of its weights and the terms whose lists hold it |
| `ApiServer.ScoresAbsent` | Api_server.cpp:233-255 | a document of no list scores nothing and matches no term |
| `ApiServer.KeywordScoresStep` | Api_server.cpp:235-255 | one query term more is credited when the lexicon has it and skipped otherwise |
| `ApiServer.AccumulateTerms` | Api_server.cpp:233-255 | the loop over the query terms computes the keyword scores, loading barrels as needed |
| `ApiServer.CutSpec` | Api_server.cpp:265 | the cut keeps the first `top_k` results, and all of them when `top_k` is negative, since it is compared as an unsigned size |
| `ApiServer.SearchKeywords` | Api_server.cpp:232-268 | the keyword scores, sorted by descending score and cut |
| `ApiServer.KeywordsSpec` | Api_server.cpp:257-267 | no more than `top_k` results when it is not negative, by descending score |
| `ApiServer.KeywordsMembers` | Api_server.cpp:232-268 | every result is explained: a document of some list, with its full score and matched terms |
| `ApiServer.KeywordsComplete` | Api_server.cpp:232-268 | when no more documents match than `top_k` allows, every one of them is returned |
| `ApiServer.CutAsTop` | Api_server.cpp:265 | the cut is a `Top` by `top_k`, or by the whole length when `top_k` is negative |
| `ApiServer.AutocompleteSpec` | Api_server.cpp:351-364 | an unknown prefix gets no suggestion; a known one gets the first `limit` (10 by default, all when negative) of its stored list, and prefixes differing only in ASCII case get the same answer |
| `BackendApi.ToLowerString` | backend/api_server.cpp:76-80 | every character is lowered through `tolower` |
| `BackendApi.LastSpace` | backend/api_server.cpp:84 | `find_last_of(' ')` gives the last space, with none after it, or none when there is no space |
| `BackendApi.SplitContextQueryParts` | backend/api_server.cpp:83-87 | a query without a space is all word and no context; otherwise context and word put together are the query, the context ends with a space and the word has none |
| `BackendApi.VbyteEncode` | backend/api_server.cpp:105-111 | the loop appends the code word of `val` |
| `BackendApi.VbyteDecode` | backend/api_server.cpp:89-103 | the decoder reads the value of the bytes up to the first terminator, the limit or the fifth byte, whichever comes first, and stops there |
| `BackendApi.CappedEnd` | backend/api_server.cpp:89-103 | where it stops: after a terminator, after five bytes or at the limit |
| `BackendApi.EncodeDecode` | backend/api_server.cpp:89-111 | the code word `vbyte_encode` writes has one to five bytes and `vbyte_decode` reads it back as the value, whatever surrounds it |
| `BackendApi.DecodePositions` | backend/api_server.cpp:282-287 | the position loop reads `tf` gaps, each added to the previous position, with no check of the limit between them |
| `BackendApi.DecodePostingsLoop` | backend/api_server.cpp:274-289 | the postings loop reads postings while any remain and the offset is below the limit |
| `BackendApi.DecodeRange` | backend/api_server.cpp:271-290 | whatever the bytes, decoding completes and gives the count, then the postings |
| `BackendApi.PostingsDone` | backend/api_server.cpp:274 | the postings loop stops when no posting remains or the offset has reached the limit |
| `BackendApi.DecodeEntry` | backend/api_server.cpp:265-290 | the entry's list read within its bytes, or nothing when those bytes reach past the barrel |
| `BackendApi.Barrels.constructor` | backend/api_server.cpp:66-67 | four empty barrels, none loaded |
| `BackendApi.Barrels.LoadBarrel` | backend/api_server.cpp:243-259 | an id out of range fails and changes nothing; an id in range empties its buffer first, then fails if the file is missing, or else holds the file's bytes and is marked loaded |
| `BackendApi.Barrels.Clear` | backend/api_server.cpp:201-202 | after a rebuild every buffer is empty and marked not loaded |
| `BackendApi.Barrels.DecodePostings` | backend/api_server.cpp:261-291 | every call reloads the entry's barrel: an id out of range changes nothing, a missing file leaves its buffer empty, otherwise the buffer holds the file and is marked loaded; the entry's list is read within its bytes when the id is in range, the file exists and the bytes lie inside it, otherwise nothing |
| `BackendApiIndex.Alnums` | backend/api_server.cpp:137 | the kept characters are never more than the word's and all pass `isalnum` |
| `BackendApiIndex.AlnumsKeeps` | backend/api_server.cpp:137 | a word of letters and digits only is kept whole, so cleaning a clean word changes nothing |
| `BackendApiIndex.CleanWord` | backend/api_server.cpp:135-137 | the loop yields the `isalnum` characters of the lowered word, in order |
| `BackendApiIndex.TokensAreTerms` | backend/api_server.cpp:134-141 | every term taken from a document is non-empty lower-case letters and digits |
| `BackendApiIndex.AddWord` | backend/api_server.cpp:139-141 | a non-empty word is recorded at the current position and the position advances; an empty one changes nothing |
| `BackendApiIndex.IndexDocument` | backend/api_server.cpp:131-142 | after the word loop `doc_terms` holds each term's positions and `pos` counts the terms read, modulo 2^32 |
| `BackendApiIndex.TermPositionsKeys` | backend/api_server.cpp:132-141 | the keys of `doc_terms` are exactly the terms read |
| `BackendApiIndex.TermPositionsSpec` | backend/api_server.cpp:132-141 | while the counter does not wrap, a term's positions are exactly the places it was read at, ascending |
| `BackendApiIndex.AddDocument` | backend/api_server.cpp:145-147 | the loop over `doc_terms` appends one posting per term of the document to that term's list, whatever the walk order |
| `BackendApiIndex.InvertedGet` | backend/api_server.cpp:145-148 | one document more appends its posting to a term's list exactly when the document holds the term |
| `BackendApiIndex.InvertedSound` | backend/api_server.cpp:124-150 | every posting of a term names a document holding the term, with exactly that document's positions |
| `BackendApiIndex.InvertedComplete` | backend/api_server.cpp:124-150 | every document holding a term has a posting in the term's list |
| `BackendApiIndex.InvertedAscending` | backend/api_server.cpp:124-150 | a term's list is in strictly ascending document order |
| `BackendApiIndex.InvertedTerms` | backend/api_server.cpp:124-150 | every key of the inverted index is a term |
| `BackendApiIndex.DocMapSpec` | backend/api_server.cpp:126-127 | `doc_map` maps exactly the numbers below the document count, each to its file's stem |
| `BackendApiIndex.IndexDoc` | backend/api_server.cpp:125-148 | one file of the read loop records its name, indexes its terms, adds its length and advances the counter |
| `BackendApiIndex.EncodeGaps` | backend/api_server.cpp:184-188 | the position loop appends the code of each position's gap from the one before |
| `BackendApiIndex.EncodePosting` | backend/api_server.cpp:176-188 | one posting appends its docid gap, its position count and its position gaps |
| `BackendApiIndex.EncodeTerm` | backend/api_server.cpp:168-189 | the buffer holds the posting count then every posting, and `total_tf` sums the position counts |
| `BackendApiIndex.WrittenSnoc` | backend/api_server.cpp:166-194 | one term more appends its buffer to the barrel and a lexicon line with its id, counts, offset and length |
| `BackendApiIndex.WriteTerm` | backend/api_server.cpp:166-194 | one pass of the writer loop keeps the barrel and lexicon equal to those of the terms taken so far |
| `BackendApiIndex.WriteIndex` | backend/api_server.cpp:162-194 | the writer visits every term once and the files are those of the visit order |
| `BackendApiIndex.BuildIndexFiles` | backend/api_server.cpp:114-194 | nothing is written exactly when the 32-bit document counter is zero; otherwise the files are the doc map, lexicon and barrel of all documents |
| `BackendApiIndex.RebuildIndex` | backend/api_server.cpp:114-203 | after a rebuild that writes files the barrel buffers are empty and marked unloaded; with no documents they are untouched |
| `BackendApiIndex.LexLineFields` | backend/api_server.cpp:192-193 | a lexicon line ends in its only newline and splits at spaces into its seven fields |
| `BackendApiIndex.EntryPlace` | backend/api_server.cpp:167-193 | each lexicon line's offset and length delimit exactly that term's buffer in the barrel |
| `BackendApiIndex.BufferDecodes` | backend/api_server.cpp:170-189 | a term's buffer read back by the stop-bit decoder gives its postings, when the counts fit in 32 bits |
| `BackendApiSearch.CollectLists` | backend/api_server.cpp:332-337 | the term loop gives nothing exactly when some lower-cased term is missing from the lexicon, and otherwise the lowered terms with their decoded lists |
| `BackendApiSearch.CountList` | backend/api_server.cpp:341 | counting one list adds one to a document's count per posting naming it |
| `BackendApiSearch.CountDocs` | backend/api_server.cpp:339-342 | `doc_counts` is the number of postings naming each document over all lists |
| `BackendApiSearch.MakeAndResult` | backend/api_server.cpp:349-361 | a hit carries the document's name, the scores of its first posting in each list, and those term frequencies |
| `BackendApiSearch.AndHits` | backend/api_server.cpp:344-364 | the loop visits each document counted as often as there are terms exactly once and emits its hit |
| `BackendApiSearch.SearchAnd` | backend/api_server.cpp:326-366 | no terms or a missing term give no hits; otherwise one hit per document counted once per term, in the map's walk order |
| `BackendApiSearch.CountIsHolding` | backend/api_server.cpp:339-342 | with no document twice in a list, a document's count is the number of lists that hold it |
| `BackendApiSearch.HoldingAll` | backend/api_server.cpp:348 | the count equals the number of terms exactly when every list holds the document |
| `BackendApiSearch.AndMatchesSpec` | backend/api_server.cpp:338-348 | with distinct documents per list, a document is reported exactly when every term's list holds it |
| `BackendApiSearch.AndMatchesNeedDistinct` | backend/api_server.cpp:338-345 | a list naming a document twice makes the count reach the number of terms though another list lacks the document |
| `BackendApiSearch.AndTfsKeys` | backend/api_server.cpp:353-360 | a hit's term frequencies are keyed by exactly the terms whose list holds the document |
| `BackendApiSearch.LastMapSpec` | backend/api_server.cpp:384-386 | a term's map has an entry exactly for the documents of its list, the last posting naming each |
| `BackendApiSearch.BuildLastMap` | backend/api_server.cpp:384-386 | the map loop of one list builds that map |
| `BackendApiSearch.CandidatesSnoc` | backend/api_server.cpp:387-393 | each later term narrows the candidates to the documents its map holds |
| `BackendApiSearch.MapsAndCandidates` | backend/api_server.cpp:378-394 | the loop builds every term's map and the candidates common to all |
| `BackendApiSearch.CandidatesSpec` | backend/api_server.cpp:381-394 | a candidate is exactly a document every term's list holds |
| `BackendApiSearch.Contains` | backend/api_server.cpp:407-412 | the innermost loop finds whether `start_pos + i` is among the positions |
| `BackendApiSearch.MatchFrom` | backend/api_server.cpp:403-414 | the loop over the later terms tells whether the phrase starts at the given position |
| `BackendApiSearch.FindPhrase` | backend/api_server.cpp:399-416 | the loop over the first term's positions tells whether the phrase occurs in the document |
| `BackendApiSearch.PhraseSpec` | backend/api_server.cpp:398-416 | the phrase occurs exactly when some position p of the first term has p + i among the positions of the i-th term, for every i |
| `BackendApiSearch.MakePhraseResult` | backend/api_server.cpp:418-425 | a phrase hit has the document's name, score 100 plus the number of terms, and each term's frequency in the document |
| `BackendApiSearch.PhraseHits` | backend/api_server.cpp:396-427 | the result loop emits one hit per candidate holding the phrase, each once |
| `BackendApiSearch.SearchPhrase` | backend/api_server.cpp:368-428 | no terms or a missing term give no hits; otherwise exactly the documents holding the phrase, in the set's walk order |
| `BackendSearcher.VbyteDecode` | backend/searcher.cpp:17-34 | the loop reads the number the shared stop-bit reader gives, with a lone five-byte run reading 0 |
| `BackendSearcher.CappedZeroEnd` | backend/searcher.cpp:20-27 | a number ends after the first terminator byte, or at the limit within four bytes, and is the value of the bytes read |
| `BackendSearcher.CappedZeroOverflow` | backend/searcher.cpp:27-31 | five bytes without a terminator read as 0, five bytes consumed |
| `BackendSearcher.ReadBounds` | backend/searcher.cpp:17-34 | the reader never passes the limit, reads at most five bytes, and reads nothing at the limit |
| `BackendSearcher.DecodePositionList` | backend/searcher.cpp:341-347 | the position loop reads up to `term_freq` gaps while below the end, as running sums |
| `BackendSearcher.DecodePosting` | backend/searcher.cpp:334-349 | one round of the postings loop appends the next posting of the list |
| `BackendSearcher.DecodePostingsLoop` | backend/searcher.cpp:332-350 | the postings loop reads up to `doc_count` postings while below the end, docids as running sums |
| `BackendSearcher.DecodeRange` | backend/searcher.cpp:327-350 | the count and the postings read within the entry's byte range always give a list |
| `BackendSearcher.DecodeEntry` | backend/searcher.cpp:317-352 | an offset at or past the end of the barrel, or a range past it, gives no postings; otherwise the list in the range |
| `BackendSearcher.EntryListWithinTf` | backend/searcher.cpp:342 | no posting has more positions than its `term_freq` |
| `BackendSearcher.EntryListLocal` | backend/searcher.cpp:327-350 | no byte at or past the entry's end affects the decoded list |
| `BackendSearcher.Barrels.constructor` | backend/searcher.cpp:69-70 | four barrels, empty and unloaded |
| `BackendSearcher.Barrels.LoadIfNeeded` | backend/searcher.cpp:139-165 | an id in range, not yet loaded, whose file exists is loaded and marked; every other call changes nothing |
| `BackendSearcher.Barrels.DecodePostingsList` | backend/searcher.cpp:304-353 | the barrel is loaded if its file exists; a missing file gives no postings, otherwise the entry's list; loaded barrels stay loaded |
| `BackendSearcher.StillLoadedTrans` | backend/searcher.cpp:139-165 | a barrel once loaded stays loaded across any number of lookups |
| `BackendSearcher.YearValueRange` | backend/searcher.cpp:357 | a match of the year pattern reads as a year from 1900 to 2099 |
| `BackendSearcher.ExtractYearSpec` | backend/searcher.cpp:356-363 | the year is 0 exactly when no whole four-digit word 19xx or 20xx occurs, otherwise the leftmost one |
| `BackendSearcher.ExtractYearExamples` | backend/searcher.cpp:356-363 | dates in the usual forms give their year; a longer digit run gives 0 |
| `BackendSearcher.RecencySpec` | backend/searcher.cpp:365-371 | a year from 2024 on scores as age 0; an earlier non-zero year scores the decay of its age |
| `BackendSearcher.GuessFieldSpec` | backend/searcher.cpp:373-378 | below a ratio of 0.10 the title, below 0.30 the abstract, otherwise the body |
| `BackendSearcher.FieldBoostOrder` | backend/searcher.cpp:380-396 | a title match scores three times a body match and an abstract match twice; with a non-negative base the title ranks first |
| `BackendSearcher.FinalScoreSpec` | backend/searcher.cpp:505-506 | the final score is nine tenths of the BM25 plus the recency, and grows with the BM25 |
| `BackendSearcher.PerformanceStats.constructor` | backend/searcher.cpp:90-93 | no queries, no times, no counts |
| `BackendSearcher.PerformanceStats.Record` | backend/searcher.cpp:95-99 | one query more, its time appended, its kind counted once more |
| `BackendSearcher.PerformanceStats.Report` | backend/searcher.cpp:101-110 | with no times nothing happens; otherwise the times are sorted in place, a permutation, and the summary is their percentiles |
| `BackendSearcher.PercentileIndices` | backend/searcher.cpp:107-109 | the median, p95 and p99 indices are in order and inside the list |
| `BackendSearcher.PercentilesSpec` | backend/searcher.cpp:104-109 | on sorted times min <= median <= p95 <= p99 <= max, each a recorded time, and min and max bound all times |
| `BackendSearcherOr.CreditStep` | backend/searcher.cpp:466-500 | one posting adds its fielded BM25 to its document, creating the result on first sight, records the term, and leaves every other document alone |
| `BackendSearcherOr.CreditListDocs` | backend/searcher.cpp:466-500 | crediting one list adds exactly the documents it holds |
| `BackendSearcherOr.CreditListScore` | backend/searcher.cpp:466-500 | each document gains the sum of the list's BM25 for it |
| `BackendSearcherOr.CreditListTerms` | backend/searcher.cpp:499 | each document the list holds gains the term among its frequencies |
| `BackendSearcherOr.TermScoreAbsent` | backend/searcher.cpp:466-500 | a document a list does not hold scores nothing from it |
| `BackendSearcherOr.OrAbsent` | backend/searcher.cpp:459-501 | a document of no list scores nothing and matches no term |
| `BackendSearcherOr.OrScoresSpec` | backend/searcher.cpp:459-501 | the scores hold exactly the documents of some list, each with the BM25 of all its postings and the terms whose list holds it |
| `BackendSearcherOr.CreditPostings` | backend/searcher.cpp:466-500 | the inner loop credits every posting of one list |
| `BackendSearcherOr.Accumulate` | backend/searcher.cpp:461-501 | the outer loop credits every list of every known term |
| `BackendSearcherOr.Finalize` | backend/searcher.cpp:503-507 | the loop sets each result's final score in place |
| `BackendSearcherOr.FinalizedSpec` | backend/searcher.cpp:479-507 | every result carries its name, title and recency, and its final score is nine tenths of its BM25 plus its recency |
| `BackendSearcherOr.SearchQueryRanked` | backend/searcher.cpp:433-525 | no known term gives no results; otherwise the finalised scores of the decoded lists, sorted by final score and cut to `top_k` |
| `BackendSearcherOr.OrRankedSpec` | backend/searcher.cpp:433-525 | at most `top_k` results by descending final score, each a document of some known term with its full score and terms; all of them when they fit |
| `BackendSearcherQueries.DecodeLists` | backend/searcher.cpp:565-574 | each entry's list is decoded in turn; barrels are loaded as needed and stay loaded |
| `BackendSearcherQueries.Found` | backend/searcher.cpp:532-541 | every kept term is in the lexicon |
| `BackendSearcherQueries.FoundAll` | backend/searcher.cpp:532-546 | all terms are kept exactly when the lexicon knows each, and then they are the lowered query terms |
| `BackendSearcherQueries.FindTerms` | backend/searcher.cpp:438-447 | the lookup loop keeps each lowered term the lexicon has, in query order |
| `BackendSearcherQueries.SortByDocFreq` | backend/searcher.cpp:548-560 | the terms are reordered by ascending document frequency |
| `BackendSearcherQueries.ByDocFreqSame` | backend/searcher.cpp:548-560 | the reordering keeps the same terms, as many of them |
| `BackendSearcherQueries.IntersectEarly` | backend/searcher.cpp:576-590 | the intersection loop, leaving as soon as it is empty, yields the documents of every list |
| `BackendSearcherQueries.EveryListEmpty` | backend/searcher.cpp:586-589 | once the running intersection is empty, the full one is too, so returning early loses nothing |
| `BackendSearcherQueries.ScoreDoc` | backend/searcher.cpp:595-633 | one document's result: each term's first posting of it adds its fielded BM25 and frequency, then the final score |
| `BackendSearcherQueries.ScoreAll` | backend/searcher.cpp:592-634 | the loop over the intersection scores every document of it |
| `BackendSearcherQueries.RankScores` | backend/searcher.cpp:636-651 | the results are the scores sorted by descending final score and cut to `top_k` |
| `BackendSearcherQueries.RankedTopSpec` | backend/searcher.cpp:636-651 | at most `top_k` results by descending final score, each one of the scores; all of them when they fit |
| `BackendSearcherQueries.SearchAndRanked` | backend/searcher.cpp:527-652 | no terms or an unknown term give no results; otherwise the documents of every list, scored, ranked and cut |
| `BackendSearcherQueries.AndRankedSpec` | backend/searcher.cpp:576-651 | every result is held by every term's list and carries that document's AND score |
| `BackendSearcherQueries.AndOrderFree` | backend/searcher.cpp:548-590 | reordering the terms by document frequency does not change which documents match |
| `BackendSearcherQueries.AndTfsKeys` | backend/searcher.cpp:611-629 | a result's terms are exactly those whose list holds the document |
| `BackendSearcherQueries.AndResultParts` | backend/searcher.cpp:595-633 | a result's name and final score follow its document; without metadata its recency is 0 and its title empty; an undated one has recency 0.5 |
| `BackendSearcherQueries.OrigDocidSpec` | backend/searcher.cpp:412-418 | a known document gets its name, an unknown one `UNKNOWN_` and its number |
| `BackendSearcherQueries.LookupPhrase` | backend/searcher.cpp:656-670 | nothing as soon as a lowered word is missing from the lexicon; otherwise all lowered words |
| `BackendSearcherQueries.FirstStartInSpec` | backend/searcher.cpp:708-729 | the start kept is the first of the given positions that starts the phrase, or none when none does |
| `BackendSearcherQueries.PhraseStartSpec` | backend/searcher.cpp:702-729 | the phrase stands in the document exactly when some position of its first word starts it, and the first such is kept |
| `BackendSearcherQueries.PhraseOfOneWord` | backend/searcher.cpp:708-729 | a one-word phrase stands at the word's first position, if it has one |
| `BackendSearcherQueries.MatchAt` | backend/searcher.cpp:709-722 | the loop over the later words tells whether the phrase starts at the given position |
| `BackendSearcherQueries.FindStart` | backend/searcher.cpp:705-729 | the loop over the first word's positions finds the first start of the phrase |
| `BackendSearcherQueries.PhraseRecencyUninitialised` | backend/searcher.cpp:732-751 | as written, a document without metadata reads an uninitialised recency, so its final score depends on that garbage; with 0 it agrees with the corrected result |
| `BackendSearcherQueries.PhraseResultParts` | backend/searcher.cpp:732-751 | a phrase result scores 100 times the field boost of its start, no term frequencies, and nine tenths of that plus its recency |
| `BackendSearcherQueries.PhraseWalk` | backend/searcher.cpp:700-755 | the walk over the candidates adds one result for each document the phrase stands in |
| `BackendSearcherQueries.SearchPhraseRanked` | backend/searcher.cpp:654-767 | no words or an unknown word give no results; otherwise the phrase hits sorted by final score and cut |
| `BackendSearcherQueries.PhraseRankedSpec` | backend/searcher.cpp:700-766 | at most `top_k` results by descending final score, each a document the phrase stands in with its result; all of them when they fit |
| `BarrelManager.BarrelId` | Barrel-manager.hpp:38-43 | whatever the hash yields, the id is below the number of barrels |
| `BarrelManager.Remove` | Barrel-manager.hpp:49 | `list::remove` drops every occurrence of the id and keeps the rest, so a list without repeats loses exactly one entry |
| `BarrelManager.EvictValid` | Barrel-manager.hpp:55-60 | evicting drops exactly the back of the recency list from the cache and keeps the cache's invariant |
| `BarrelManager.FullHasBack` | Barrel-manager.hpp:55-56 | a full cache has a back to evict |
| `BarrelManager.LoadValid` | Barrel-manager.hpp:46-82 | a load keeps the invariant: the recency list holds the loaded ids once each, at most three of them |
| `BarrelManager.RoomValid` | Barrel-manager.hpp:55-60 | making room leaves fewer than three barrels, each with its contents |
| `BarrelManager.HitValid` | Barrel-manager.hpp:47-51 | moving a loaded id to the front keeps the invariant |
| `BarrelManager.AddValid` | Barrel-manager.hpp:77-78 | adding a new barrel at the front keeps the invariant when there is room |
| `BarrelManager.LoadHit` | Barrel-manager.hpp:47-51 | a hit succeeds, keeps the contents and moves the id to the front, the others in the same order |
| `BarrelManager.LoadMiss` | Barrel-manager.hpp:53-81 | a miss succeeds exactly when the file opens, then holds its bytes at the front; a full cache loses its least recent barrel first, even when the open then fails |
| `BarrelManager.LoadAll` | Barrel-manager.hpp:128-130 | loading several ids in turn keeps the invariant |
| `BarrelManager.Needed` | Barrel-manager.hpp:123-126 | every needed id names a barrel |
| `BarrelManager.LoadAllLast` | Barrel-manager.hpp:128-130 | after a preload the greatest needed id is loaded and most recent, when its file opens |
| `BarrelManager.TotalSizeRemove` | Barrel-manager.hpp:133-139 | the total size is one barrel's size plus the rest's, whichever barrel is taken first |
| `BarrelManager.InfosOf` | Barrel-manager.hpp:98-105 | only lines that parse give metadata, so there are never more records than lines |
| `BarrelManager.ReadInfos` | Barrel-manager.hpp:97-105 | the line loop keeps the records of the lines that parse, in order |
| `BarrelManager.Manager.constructor` | Barrel-manager.hpp:85-87 | an empty cache and the metadata of the file, none when it cannot be opened |
| `BarrelManager.Manager.LoadMetadata` | Barrel-manager.hpp:89-108 | every readable metadata line is appended; the cache is untouched |
| `BarrelManager.Manager.LoadBarrel` | Barrel-manager.hpp:46-82 | the cache steps as the load function says and keeps its invariant |
| `BarrelManager.Manager.GetBarrelForTerm` | Barrel-manager.hpp:111-119 | the term's barrel is loaded; its bytes come back exactly when the load succeeds |
| `BarrelManager.Manager.PreloadBarrels` | Barrel-manager.hpp:122-131 | the needed barrels are loaded once each in ascending id order |
| `BarrelManager.Manager.MemoryUsage` | Barrel-manager.hpp:133-139 | the total is the size of every loaded barrel, whatever the walk order |
| `BarrelManager.Manager.ClearCache` | Barrel-manager.hpp:141-145 | the cache and the recency list are emptied, the metadata kept |
| `BarrelManager.LoadSucceeds` | Barrel-manager.hpp:46-82 | a successful load leaves the id loaded |
| `CleanerText.Normalized` | cleaner.cpp:230-242 | the normalized text holds no control character and is no longer than the input |
| `CleanerText.NormalizeNfc` | cleaner.cpp:235-241 | the loop drops carriage returns and other control characters and turns each newline into a space |
| `CleanerText.NormalizedAppend` | cleaner.cpp:236-240 | normalization works character by character, so it distributes over concatenation |
| `CleanerText.NormalizedPrintable` | cleaner.cpp:238 | printable text is left as it is |
| `CleanerText.NormalizedIdempotent` | cleaner.cpp:230-242 | normalizing twice is normalizing once |
| `CleanerText.NormalizedNewline` | cleaner.cpp:239 | a newline between two pieces of text becomes one space |
| `CleanerText.SkipBreaks` | cleaner.cpp:284 | the skip lands on the first index from `i` on that is not a line break |
| `CleanerText.RepairHyphens` | cleaner.cpp:277-291 | the repair loop builds the repaired text |
| `CleanerText.SkipBreakRun` | cleaner.cpp:283-284 | the inner loop steps over the run of line breaks after a hyphen |
| `CleanerText.RepairedNoBreaks` | cleaner.cpp:280-289 | without line breaks the repair changes nothing |
| `CleanerText.RepairedAtHyphen` | cleaner.cpp:281-285 | a hyphen followed by a line break is dropped with the break |
| `CleanerText.RepairedKeep` | cleaner.cpp:286-287 | a character that does not start a hyphen break is kept |
| `CleanerText.RepairedBefore` | cleaner.cpp:280-289 | before the first line break the text is kept as it is |
| `CleanerText.RepairedJoins` | cleaner.cpp:275-291 | a word hyphenated across a line break is joined again |
| `CleanerText.Blanked` | cleaner.cpp:294 | blanking keeps the length |
| `CleanerText.BlankControls` | cleaner.cpp:294 | the in-place loop rewrites each newline, carriage return and tab as a space |
| `CleanerText.BlankedSpec` | cleaner.cpp:294 | blanking leaves no line break and no tab and changes nothing else |
| `CleanerText.PreparedIsNormalized` | cleaner.cpp:273-294 | after normalization no line break is left, so the hyphen repair and the blanking change nothing |
| `CleanerText.PieceEnd` | cleaner.cpp:419-420 | a piece ends at the next separator, or at the end of the line |
| `CleanerText.SplitAndTrimStep` | cleaner.cpp:418-428 | one turn of the loop moves past the separator and keeps the pieces still to come |
| `CleanerText.SplitAndTrim` | cleaner.cpp:414-430 | the loop yields the trimmed non-empty pieces between separators |
| `CleanerText.PieceEndFirst` | cleaner.cpp:419 | no separator starts before the end of the piece |
| `CleanerText.PiecesShape` | cleaner.cpp:414-430 | every piece is non-empty, trimmed and free of the separator |
| `CleanerText.PiecesJoin` | cleaner.cpp:414-430 | pieces joined by the separator split back into the same pieces, when each is non-empty, trimmed and does not form a separator with its neighbours |
| `CleanerText.Cols` | cleaner.cpp:517-525 | the row always has exactly the number of columns asked for |
| `CleanerText.SplitColumns` | cleaner.cpp:515-525 | the column loop cuts seven columns at tabs and keeps the rest as the eighth; the padding never adds anything |
| `CleanerText.ColsTabFree` | cleaner.cpp:518-522 | every column but the last is free of tabs |
| `CleanerText.ColumnsRoundTrip` | cleaner.cpp:513-525 | eight fields written tab-separated come back as the eight columns when no field but the last holds a tab |
| `CleanerText.SectionNamed` | cleaner.cpp:574-583 | a part "name:text" gives its name when it is shorter than 50 characters and has no colon; otherwise the whole part is text under "body" |
| `CleanerText.StopwordOf` | cleaner.cpp:251-260 | a kept stopword is non-empty, lower-case and does not start with '#' |
| `CleanerTokens.LowerAll` | cleaner.cpp:301 | the in-place loop lower-cases every character |
| `CleanerTokens.IsNumber` | cleaner.cpp:378-379 | the loop, leaving at the first non-digit, tells whether the word is all digits |
| `CleanerTokens.Flush` | cleaner.cpp:373-391 | a finished word is recorded unless it is a removed number or a stopword, stemmed when stemming is on |
| `CleanerTokens.ScanStep` | cleaner.cpp:318-395 | one turn of the scanning loop advances and leaves the tokens still to come unchanged |
| `CleanerTokens.TokenizeField` | cleaner.cpp:269-411 | the whole pipeline: normalize, repair, blank, lower-case, then scan words and flush the last |
| `CleanerTokens.TokensAscending` | cleaner.cpp:309-409 | positions start at 1 and strictly increase |
| `CleanerTokens.BegunWord` | cleaner.cpp:371-374 | a character that is not kept ends a word made of kept characters |
| `CleanerTokens.ScanEnd` | cleaner.cpp:397-409 | at the end of the text a pending word is flushed at the next position |
| `CleanerTokens.ScanSkip` | cleaner.cpp:371-393 | a delimiter with no word pending is skipped |
| `CleanerTokens.ScanCut` | cleaner.cpp:331-359 | a delimiter after a word flushes it at the next position; after a dropped apostrophe the original text is the slice before it |
| `CleanerTokens.ScanKept` | cleaner.cpp:322-370 | a letter, digit or apostrophe between letters extends the pending word |
| `CleanerTokens.ScanWords` | cleaner.cpp:318-409 | every record comes from a whole word of the text |
| `CleanerTokens.TokensAreWords` | cleaner.cpp:318-409 | every record is a whole word that is neither a removed number nor a stopword, stemmed when stemming is on |
| `CleanerTokens.ScanSpace` | cleaner.cpp:371-391 | a space ends the pending word, which is flushed at the next position |
| `CleanerTokens.ScanJoin` | cleaner.cpp:318-409 | words joined by spaces are scanned as those words, in turn |
| `CleanerTokens.PlainText` | cleaner.cpp:273-301 | text of lower-case letters, digits and spaces comes out of the preparation and the lower-casing as it went in |
| `CleanerTokens.TokensOfWords` | cleaner.cpp:269-411 | plain words joined by spaces are filtered and stemmed word by word, positions counting every word |
| `CleanerTokens.EmitAllUnfiltered` | cleaner.cpp:373-391 | with no filter on, every word is recorded as it is at its own place |
| `CleanerTokens.StopwordKeepsPlace` | cleaner.cpp:374-388 | a dropped stopword still takes its position, so "the cell" gives "cell" at position 2 |
| `PorterStemmer.IsConsSpec` | cleaner.cpp:60-65 | a, e, i, o, u are vowels; a leading 'y' is a consonant and a later 'y' is one exactly when the letter before is not; every other letter is a consonant |
| `PorterStemmer.MeasureRelation` | cleaner.cpp:66-77 | the measure as written counts every run of vowels, so it exceeds Porter's measure by one exactly on words ending in a vowel |
| `PorterStemmer.MeasureTree` | cleaner.cpp:66-77 | "tree" has Porter measure 0 but the loop as written gives 1 |
| `PorterStemmer.MeasureAsWritten` | cleaner.cpp:66-77 | the loop as written counts the runs of vowels of the word |
| `PorterStemmer.Measure` | cleaner.cpp:66-77 | the corrected loop counts a run of vowels only when a consonant follows it, Porter's `m` |
| `PorterStemmer.ContainsVowel` | cleaner.cpp:78-82 | the loop finds a vowel exactly when the word has one |
| `PorterStemmer.Rewrite1b` | cleaner.cpp:113-129 | step 1b rewrites the word as its specification says |
| `PorterStemmer.Rewrite1c` | cleaner.cpp:130-135 | step 1c turns a final 'y' into 'i' when the stem has a vowel |
| `PorterStemmer.RewriteRules` | cleaner.cpp:144-150 | the rule loop of steps 2 and 3 applies the first rule whose suffix the word ends in, and only when the stem's measure is positive |
| `PorterStemmer.Rewrite4` | cleaner.cpp:165-181 | the suffix loop of step 4 strips the first suffix the word ends in when the stem's measure exceeds 1, "ion" only after 's' or 't' |
| `PorterStemmer.Rewrite5a` | cleaner.cpp:182-187 | step 5a drops a final 'e' as its specification says |
| `PorterStemmer.Rewrite5b` | cleaner.cpp:188-190 | step 5b drops one 'l' of a final double 'l' when the measure exceeds 1 |
| `PorterStemmer.StemWord` | cleaner.cpp:51-58 | the word rewritten by each step in turn, with Porter's measure |
| `PorterStemmer.Step1aSpec` | cleaner.cpp:107-112 | "sses" becomes "ss", "ies" becomes "i", "ss" stays, any other final 's' goes, and other words stay |
| `PorterStemmer.StemShrinks` | cleaner.cpp:51-58 | a word of two letters or fewer is kept; stemming never lengthens a word and never empties it, with either measure |
| `PorterStemmer.Step4Spec` | cleaner.cpp:165-181 | step 4 leaves the word or strips one of its suffixes from a stem of measure above 1 |
| `PorterStemmer.TreeBeforeStep5` | cleaner.cpp:55-56 | whatever the measure, steps 1a to 4 leave "tree" alone |
| `PorterStemmer.StemTreeAsWritten` | cleaner.cpp:66-77 | as written, "tree" stems to "tre", because the measure of "tre" counts its final vowel |
| `PorterStemmer.StemTree` | cleaner.cpp:51-58 | with Porter's measure "tree" is kept |
| `Extractor.TrimSpec` | backend/extractor.cpp:20-25 | the trimmed text is a slice of the input with no blank at either end, and is empty exactly when the input is all blanks |
| `Extractor.NormalizeWhitespace` | backend/extractor.cpp:27-39 | the squeezing loop drops carriage returns, turns each white-space run into one space, then trims |
| `Extractor.SqueezedFixed` | backend/extractor.cpp:28-37 | text already squeezed is squeezed into itself |
| `Extractor.CollapsedSpec` | backend/extractor.cpp:27-39 | the output has no carriage return, each white-space run is one space, and no space sits at either end |
| `Extractor.CollapsedIdempotent` | backend/extractor.cpp:27-39 | normalizing twice is normalizing once |
| `Extractor.SanitizeForField` | backend/extractor.cpp:41-45 | tabs and line breaks become spaces, then the whitespace is normalized |
| `Extractor.SanitizedClean` | backend/extractor.cpp:41-45 | a sanitized field holds no tab and no line break and does not start or end with a space |
| `Extractor.SanitizedIdempotent` | backend/extractor.cpp:41-45 | sanitizing twice is sanitizing once |
| `Extractor.SanitizedFree` | backend/extractor.cpp:356-363 | no sanitized field holds a tab or a newline |
| `Extractor.TsvLineShape` | backend/extractor.cpp:352-364 | the line ends in its one newline, and its tabs cut it into exactly the eight sanitized fields |
| `Extractor.TsvRoundTrip` | backend/extractor.cpp:352-364 | the cleaner's column reader gets the eight sanitized fields back from the line |
| `Extractor.SectionsJoinedSplit` | backend/extractor.cpp:538-542 | the cleaner's `split_and_trim` gets the sanitized sections back when none is empty and none forms " \| " with its neighbours |
| `Extractor.SourceOf` | backend/extractor.cpp:536 | the source is "pmc" exactly when the paper id starts with "PMC", and "pdf" otherwise |
| `Extractor.DoiOrId` | backend/extractor.cpp:544 | the DOI when there is one, the paper id otherwise |
| `ExtractorDocs.ObjectNameParts` | backend/extractor.cpp:88-95 | an author object's name is its non-empty first, middle and last parts joined by spaces; with none of those, its "name", then its "email" |
| `ExtractorDocs.NamesCount` | backend/extractor.cpp:74-100 | there are never more names than authors, and an author object adds a name only when it is non-empty |
| `ExtractorDocs.JoinAuthors` | backend/extractor.cpp:69-107 | the name loop and the join loop give the names joined by "; " |
| `ExtractorDocs.IndexOf` | backend/extractor.cpp:154 | the index found holds a section of that name; none means no section has it |
| `ExtractorDocs.SectionsOf` | backend/extractor.cpp:162-167 | one output entry per grouped section |
| `ExtractorDocs.IndexedLookup` | backend/extractor.cpp:142-157 | the name index agrees with a search of the ordered list |
| `ExtractorDocs.GroupEntry` | backend/extractor.cpp:145-160 | one body entry: an empty text is skipped, a new name appends a section, a known name extends its section; the index stays in step |
| `ExtractorDocs.ExtractSections` | backend/extractor.cpp:140-168 | the grouping loop and the output loop give one "Name: text" entry per section, normalized |
| `ExtractorDocs.GroupedNames` | backend/extractor.cpp:144-161 | one section per distinct name with text, in order of first appearance |
| `ExtractorDocs.GroupedDistinct` | backend/extractor.cpp:154-160 | no section name occurs twice |
| `ExtractorDocs.GroupedTexts` | backend/extractor.cpp:144-161 | every section holds all the texts of its name, in order, joined by blank lines |
| `ExtractorDocs.FallbackTitle` | backend/extractor.cpp:278-285 | the fallback title is never longer than 200 characters |
| `ExtractorDocs.ParseLine` | backend/extractor.cpp:244-272 | one line updates the document and the abstract mode as the line rules say |
| `ExtractorDocs.ParseTextFile` | backend/extractor.cpp:231-288 | the line loop, then the fallback title; an unreadable file gives the empty document |
| `ExtractorDocs.ParseMode` | backend/extractor.cpp:256-271 | plain lines go to the abstract exactly when the last mode line was an "Abstract:" line |
| `ExtractorDocs.ParseKeeps` | backend/extractor.cpp:243-273 | no line changes the paper id or the source |
| `ExtractorDocs.TextFileFields` | backend/extractor.cpp:236-285 | a read file's paper id is its stem and its source "text"; a fallback title has at most 200 characters |
| `SemanticIndexer.CsvFrom` | backend/semantic_indexer.cpp:46-58 | the last field is always pushed, so a line gives at least one field more than those already pushed |
| `SemanticIndexer.ParseCsvLine` | backend/semantic_indexer.cpp:41-61 | the loop gives the fields of the line |
| `SemanticIndexer.CsvFieldsSpec` | backend/semantic_indexer.cpp:41-61 | a line has one field more than its commas outside quotes, and no field holds a quote, so a doubled quote adds nothing |
| `SemanticIndexer.CsvJoinRoundTrip` | backend/semantic_indexer.cpp:41-61 | fields free of quotes and commas come back from the line that joins them with commas |
| `SemanticIndexer.HeaderIsId` | backend/semantic_indexer.cpp:83-85 | a line is taken for the header exactly when it contains "id", the other two patterns adding nothing |
| `SemanticIndexer.Values` | backend/semantic_indexer.cpp:113-122 | there are never more values than fields |
| `SemanticIndexer.ParseValues` | backend/semantic_indexer.cpp:111-122 | the vector loop converts the fields after the docid until `stof` rejects one |
| `SemanticIndexer.AddRow` | backend/semantic_indexer.cpp:91-144 | one non-header line goes through the row rules: empty and one-field lines are skipped, the first non-empty vector fixes the dimension, and only vectors of that dimension are kept |
| `SemanticIndexer.LoadEmbeddings` | backend/semantic_indexer.cpp:64-149 | the line loop gives the rows of the file |
| `SemanticIndexer.HeaderSkippedOnce` | backend/semantic_indexer.cpp:79-89 | at most one line is skipped as a header, the first one containing "id"; without one every line is read as a row |
| `SemanticIndexer.AllRowsConsistent` | backend/semantic_indexer.cpp:124-144 | every kept vector has the detected dimension, and a detected dimension never changes |
| `SemanticIndexer.LoadedConsistent` | backend/semantic_indexer.cpp:124-144 | every loaded embedding has the dimension the first non-empty vector fixed, which is positive when anything is loaded |
| `SemanticIndexer.OneFieldSkipped` | backend/semantic_indexer.cpp:95-100 | a line without a comma outside quotes has one field and is skipped |
| `SemanticIndexer.StripQuotesIdle` | backend/semantic_indexer.cpp:105-108 | the quote stripping of the docid never applies, since the splitter already dropped every quote |
| `SemanticIndexer.WriteDocidMapping` | backend/semantic_indexer.cpp:199-213 | the loop writes line i as the docid, a tab and i, in load order |
| `SemanticIndexer.MappingRoundTrip` | backend/semantic_indexer.cpp:207-209 | the mapping cut at newlines and then at the tab gives each docid and its number back |
| `SemanticIndexer.FloatBytes` | backend/semantic_indexer.cpp:185-187 | each value takes four bytes |
| `SemanticIndexer.Header` | backend/semantic_indexer.cpp:164-174 | the header takes sixteen bytes |
| `SemanticIndexer.DocidTableSnoc` | backend/semantic_indexer.cpp:177-181 | each docid record is its 32-bit length, little-endian, then its bytes |
| `SemanticIndexer.WriteDocids` | backend/semantic_indexer.cpp:177-181 | the docid loop appends the docid table |
| `SemanticIndexer.WriteVector` | backend/semantic_indexer.cpp:185-187 | the inner loop appends the bytes of one vector's values |
| `SemanticIndexer.WriteSemanticIndex` | backend/semantic_indexer.cpp:152-196 | the file is the header, the docid table, then the vectors |
| `SemanticIndexer.VectorBytesSize` | backend/semantic_indexer.cpp:184-188 | the vectors take four bytes per value, `dim` values per document when all have that dimension |
| `SemanticIndexer.U32RoundTrip` | backend/semantic_indexer.cpp:164-174 | a 32-bit number written little-endian reads back as itself |
| `SemanticIndexer.DocidRead` | backend/semantic_indexer.cpp:178-180 | one docid record reads back as its length and its text |
| `SemanticIndexer.ReadDocidTable` | backend/semantic_indexer.cpp:177-181 | the docid table reads back as the docids, ending right after it |
| `SemanticIndexer.HeaderRead` | backend/semantic_indexer.cpp:164-174 | the header reads back as the magic "SEMI", version 1, the dimension and the count |
| `SemanticIndexer.IndexHeadRoundTrip` | backend/semantic_indexer.cpp:152-188 | the file's head reads back as its magic, version, dimension and docids, the vectors starting right after the table |
| `AutocompleteBuilder.SkipWs` | backend/autocomplete_builder.cpp:39-40 | each `>>` first skips the leading white space, leaving text that does not start with it |
| `AutocompleteBuilder.DigitRun` | backend/autocomplete_builder.cpp:39-40 | a number read by `>>` takes the leading run of digits and stops at the first non-digit |
| `AutocompleteBuilder.WordRun` | backend/autocomplete_builder.cpp:39 | a word read by `>>` takes the characters up to the next white space |
| `AutocompleteBuilder.NumberRoundTrip` | backend/autocomplete_builder.cpp:39-40 | `>>` reads back the digits of a number that fits its type, up to the first non-digit |
| `AutocompleteBuilder.WordRoundTrip` | backend/autocomplete_builder.cpp:39 | `>>` reads back a word up to the white space after it |
| `AutocompleteBuilder.ParsedFrom` | backend/autocomplete_builder.cpp:39-45 | when all six reads succeed the line gives the term, its id, its counts and its popularity |
| `AutocompleteBuilder.LexiconLineRoundTrip` | backend/autocomplete_builder.cpp:39-45 | a well-formed lexicon line is read back into its term and numbers |
| `AutocompleteBuilder.LexiconTerms` | backend/autocomplete_builder.cpp:31-51 | malformed lines are skipped, so there are never more terms than lines |
| `AutocompleteBuilder.LoadTermsWithFreq` | backend/autocomplete_builder.cpp:20-55 | the line loop keeps the terms of the well-formed lines, in order |
| `AutocompleteBuilder.MaxLen` | backend/autocomplete_builder.cpp:76 | the longest prefix is no longer than the term |
| `AutocompleteBuilder.AddTerm` | backend/autocomplete_builder.cpp:76-92 | the prefix loop files the term under each lowered prefix of 2 to `max_len` characters |
| `AutocompleteBuilder.LowerAll` | backend/autocomplete_builder.cpp:81-82 | the `transform` lower-cases every character |
| `AutocompleteBuilder.BuildPrefixMap` | backend/autocomplete_builder.cpp:69-93 | the term loop builds the prefix map, skipping terms shorter than 2 |
| `AutocompleteBuilder.BuildWellKeyed` | backend/autocomplete_builder.cpp:69-93 | every key is lower-case, 2 to `max_prefix_len` long, and the lowered start of each term filed under it |
| `AutocompleteBuilder.BuildHas` | backend/autocomplete_builder.cpp:69-93 | every term of at least 2 characters is filed under each of its prefixes of 2 to `max_prefix_len` characters |
| `AutocompleteBuilder.InsertByPopularity` | backend/autocomplete_builder.cpp:106-109 | one insertion keeps the list by descending popularity and adds exactly the entry |
| `AutocompleteBuilder.SortByPopularity` | backend/autocomplete_builder.cpp:106-109 | the sort gives a permutation by descending popularity |
| `AutocompleteBuilder.PruneTopK` | backend/autocomplete_builder.cpp:112-114 | cutting a sorted permutation keeps the most popular entries, at most `top_k` of them |
| `AutocompleteBuilder.LeftOutBelowAll` | backend/autocomplete_builder.cpp:105-114 | no entry cut off is more popular than one kept |
| `AutocompleteBuilder.SortAndPrune` | backend/autocomplete_builder.cpp:103-114 | sorting and cutting one list keeps its `top_k` most popular entries, in order |
| `AutocompleteBuilder.PruneAll` | backend/autocomplete_builder.cpp:102-117 | every prefix's list is sorted and cut, the keys unchanged |
| `AutocompleteBuilder.PrunedWellKeyed` | backend/autocomplete_builder.cpp:102-117 | after pruning every stored term still starts with its key |
| `AutocompleteBuilder.WriteTerms` | backend/autocomplete_builder.cpp:150-167 | the term loop appends each term's record, in the list's order |
| `AutocompleteBuilder.WriteTerm` | backend/autocomplete_builder.cpp:158-166 | one term's record: its length cut to a `uint16_t`, that many of its bytes, then its score bits, id and counts |
| `AutocompleteBuilder.WritePrefix` | backend/autocomplete_builder.cpp:137-167 | one prefix appends its length cut to a `uint16_t`, that many of its bytes, its term count cut to a `uint16_t`, then its terms |
| `AutocompleteBuilder.WriteIndex` | backend/autocomplete_builder.cpp:131-168 | the file is the 32-bit prefix count, then each prefix in the map's walk order |
| `AutocompleteBuilder.U16` | backend/autocomplete_builder.cpp:141-142 | a length stored in a `uint16_t` is below 2^16, no more than the length, and the length itself when that is below 2^16 |
| `AutocompleteBuilder.U16Mod` | backend/autocomplete_builder.cpp:141 | the stored length is the length modulo 2^16 |
| `AutocompleteBuilder.ShortText` | backend/autocomplete_builder.cpp:142-143 | as many bytes of the text are written as its stored length says: the whole text only when it is shorter than 2^16 |
| `AutocompleteRoundTrip.UIntRead` | backend/autocomplete_server.cpp:37-38 | a little-endian number written in `w` bytes reads back as itself |
| `AutocompleteRoundTrip.TermLenRead` | backend/autocomplete_server.cpp:63-64 | the u16 length of a term shorter than 2^16 reads back as its length, and the record is 26 bytes longer than the term |
| `AutocompleteRoundTrip.TermTextRead` | backend/autocomplete_server.cpp:66-67 | the bytes after the length read back as the term's text |
| `AutocompleteRoundTrip.TermNumbersRead` | backend/autocomplete_server.cpp:70-73 | the score bits, word id and both frequencies after the text read back as the term's own |
| `AutocompleteRoundTrip.TermRead` | backend/autocomplete_server.cpp:60-75 | a term record the builder wrote reads back as its suggestion, ending where the record ends |
| `AutocompleteRoundTrip.TermsRead` | backend/autocomplete_server.cpp:59-76 | the term records of a list read back as its suggestions, in order |
| `AutocompleteRoundTrip.PrefixRead` | backend/autocomplete_server.cpp:45-78 | a prefix record reads back as the prefix and its suggestions, when its lengths fit in 16 bits |
| `AutocompleteRoundTrip.PairsRead` | backend/autocomplete_server.cpp:43-79 | the records of a list of prefixes read back as its entries |
| `AutocompleteRoundTrip.WalkPairs` | backend/autocomplete_builder.cpp:136-168 | the builder's records of a walk are those of its prefixes, each with its own list |
| `AutocompleteRoundTrip.PrefixesRead` | backend/autocomplete_server.cpp:43-79 | the prefix records of a walk read back as its entries, in the order written |
| `AutocompleteRoundTrip.IndexRoundTrip` | backend/autocomplete_server.cpp:26-91 | reading autocomplete.idx gives back each prefix with its terms, in the order the builder wrote them |
| `AutocompleteRoundTrip.InsertEntries` | backend/autocomplete_server.cpp:78 | inserting the entries gives each walked prefix its list and keeps every other key |
| `AutocompleteRoundTrip.LoadBuilt` | backend/autocomplete_server.cpp:26-91 | loading what the builder wrote into an empty index gives the builder's map, each term as its suggestion |
| `AutocompleteRoundTrip.SuggestionsMatchQuery` | backend/autocomplete_server.cpp:94-126 | served from what the builder wrote, every suggestion starts, in any case, with the query's key |
| `AutocompleteServer.ReadTerm` | backend/autocomplete_server.cpp:60-75 | a term record that fits in the file is read and the position moves past it |
| `AutocompleteServer.ReadTerms` | backend/autocomplete_server.cpp:59-76 | `num_terms` term records are read, one suggestion per record |
| `AutocompleteServer.ReadPrefixes` | backend/autocomplete_server.cpp:43-79 | `num_prefixes` prefix records are read, one entry per record |
| `AutocompleteServer.ReadTermList` | backend/autocomplete_server.cpp:59-76 | the term loop succeeds exactly when the records fit, and then yields the suggestions in file order and the position after them |
| `AutocompleteServer.ReadPrefixEntry` | backend/autocomplete_server.cpp:45-78 | one prefix record is read exactly when it fits, yielding the prefix and its suggestions |
| `AutocompleteServer.LoadEntries` | backend/autocomplete_server.cpp:37-79 | the header and prefix loop succeed exactly when the file parses, and then every prefix record is put into the map in file order, a later record replacing an earlier one with the same prefix |
| `AutocompleteServer.AutocompleteIndex.constructor` | backend/autocomplete_server.cpp:21-22 | a new index has an empty prefix map and is not loaded |
| `AutocompleteServer.AutocompleteIndex.Load` | backend/autocomplete_server.cpp:26-91 | a file that cannot be opened returns false and changes nothing; a parsed file adds its records to the map, marks the index loaded and returns true |
| `AutocompleteServer.AutocompleteIndex.GetSuggestions` | backend/autocomplete_server.cpp:94-126 | the answer is the specification of `get_suggestions` on the current map and loaded flag |
| `AutocompleteServer.Normalized` | backend/autocomplete_server.cpp:98-111 | the lookup key has no upper-case letter and at most 15 characters |
| `AutocompleteServer.NoSuggestions` | backend/autocomplete_server.cpp:95-117 | the answer is empty exactly when the index is not loaded, the query is shorter than two characters, its key is absent, the limit is zero or the stored list is empty |
| `AutocompleteServer.FirstSuggestions` | backend/autocomplete_server.cpp:119-125 | a found key answers with the first `min(max_results, n)` stored suggestions, in stored order |
| `AutocompleteServer.LowerTwice` | backend/autocomplete_server.cpp:98-101 | lower-casing is idempotent |
| `AutocompleteServer.CaseInsensitive` | backend/autocomplete_server.cpp:98-101 | a query and its lower-case form get the same suggestions |
| `AutocompleteServer.LongQueryCut` | backend/autocomplete_server.cpp:109-111 | a query longer than 15 characters gets the same suggestions as its first 15 |
| `AutocompleteEngine.LookupEmpty` | Auto-complete.hpp:11-16 | a fresh node marks no string as a term |
| `AutocompleteEngine.LookupInsertAt` | Auto-complete.hpp:93-102 | marking the end of a walk sets that one string's frequency and leaves every other string's lookup as it was |
| `AutocompleteEngine.InsertLookup` | Auto-complete.hpp:88-103 | after `insert`, the term maps to its frequency, every other string keeps its lookup, and an empty term changes nothing |
| `AutocompleteEngine.InsertAtWf` | Auto-complete.hpp:93-101 | the walk of `insert` keeps each node's stored term equal to the path that reaches it |
| `AutocompleteEngine.InsertWf` | Auto-complete.hpp:88-103 | `insert` keeps every end node's stored term equal to its path |
| `AutocompleteEngine.FindWf` | Auto-complete.hpp:37-48 | the node a prefix reaches is well formed for the extended path |
| `AutocompleteEngine.EntriesExtend` | Auto-complete.hpp:24-34 | every term collected below a node starts with that node's path |
| `AutocompleteEngine.EntriesLookup` | Auto-complete.hpp:24-34 | the terms collected below a node are exactly the strings marked below it, each with its stored frequency |
| `AutocompleteEngine.FindMatches` | Auto-complete.hpp:37-48 | the node of a prefix holds exactly the inserted terms that start with the prefix, and a prefix without a node starts no term |
| `AutocompleteEngine.FindAppend` | Auto-complete.hpp:37-48 | walking `p + s` is walking `p` and then `s` from where it ends |
| `AutocompleteEngine.CollectTerms` | Auto-complete.hpp:24-34 | `collect_terms` lists every term of the subtree exactly once, in some order |
| `AutocompleteEngine.UpperInsertUnseen` | Auto-complete.hpp:88-103 | a term inserted with an upper-case letter is never seen by a lower-cased lookup |
| `AutocompleteEngine.ReadCount` | Auto-complete.hpp:66-77 | the count of parsed lines never exceeds the number of lines |
| `AutocompleteEngine.BuiltLookup` | Auto-complete.hpp:68-78 | after building, each string maps to the low 32 bits of the term frequency of the last line naming it, or keeps its old lookup |
| `AutocompleteEngine.Engine.constructor` | Auto-complete.hpp:51-53 | a new engine has an empty root and the given limit |
| `AutocompleteEngine.Engine.Insert` | Auto-complete.hpp:88-103 | the trie becomes the value `Inserted` describes and stays well formed |
| `AutocompleteEngine.Engine.BuildFromLexicon` | Auto-complete.hpp:56-85 | a lexicon that cannot be opened changes nothing; otherwise every parsed line is inserted in order and counted |
| `AutocompleteEngine.Engine.FindPrefixNode` | Auto-complete.hpp:37-48 | the walk follows one child per character and gives up at the first missing one |
| `AutocompleteEngine.Engine.Contains` | Auto-complete.hpp:181-188 | a term is contained exactly when its lower-cased form was inserted |
| `AutocompleteEngine.Engine.Candidates` | Auto-complete.hpp:119-133 | the candidates are every term starting with the lower-cased prefix, once each, sorted by non-increasing frequency |
| `AutocompleteEngine.Engine.SuggestWithFreq` | Auto-complete.hpp:154-178 | an empty prefix gets nothing; otherwise the answer is exactly `min(max_suggestions, n)` of the `n` matching terms, each once, with frequencies, most frequent first, and no left-out match is more frequent than one returned |
| `AutocompleteEngine.Engine.Suggest` | Auto-complete.hpp:106-151 | an empty prefix gets nothing; otherwise the answer is the terms of such a top selection of exactly `min(max_suggestions, n)` matches, in order |
| `AutocompleteEngine.TermsOf` | Auto-complete.hpp:137-139 | the terms of a list of hits, position by position |
| `AutocompleteEngine.RankedListed` | Auto-complete.hpp:130-133 | sorting the candidates keeps each term once |
| `AutocompleteEngine.TopSuggested` | Auto-complete.hpp:135-139 | the first `max` sorted candidates are a suggestion list: exactly `min(max, n)` of the `n` candidates, each once, in descending frequency, none left out more frequent than one kept |

## Left out

Preconditions that exclude inputs the source does not check, and contracts
weaker than the source's behaviour:

- Searcher.VbyteDecode: requires a terminator byte in the buffer. searcher.cpp:18-31 reads on until a byte with 0x80, past the end of the buffer if need be, which is undefined behaviour.
- Searcher.DecodePostingsList: requires `Decodable`: the entry's range fits the buffer and its bytes decode without running off the end. searcher.cpp:195-227 checks only `offset + bytes <= size`, and its decoder reads past the range on malformed bytes.
- Searcher.DecodePositionList, Searcher.DecodePosting, Searcher.DecodePostingsLoop: require the same, for the same reason.
- SearcherQueries.SearchQuery, SearcherQueries.SearchAnd, SearcherQueries.SearchPhrase: require every lexicon entry to be `Decodable` (`Consistent`), for the same reason.
- QueryDecoder.DecodePostingList, QueryDecoder.DecodeDocids, QueryDecoder.DecodeDocid, QueryDecoder.SkipPositions: require the list to decode within the buffer. Query-engine.hpp:43-80 has no bound at all.
- QueryEngine.Engine.GetPostingList, QueryEngine.Engine.CollectLists, QueryEngine.Engine.SearchAnd: require `Fits`, that each term's bytes lie inside its barrel. `get_posting_list` (Query-engine.hpp:126-142) hands the entry's offset and length to the decoder without comparing them with the barrel's size.
- QueryEngine.Engine.SearchSingle, QueryEngine.Engine.SearchMulti: require `QueryFits`, the same for every token of the query.
- ApiServer.DecodeTermPostings: requires the entry's barrel id in [0, 4) and, when the barrel's file exists, `offset + bytes` within it. Api_server.cpp:188-217 reads `barrel_loaded[barrel_id]` (line 192) and `barrel_data[barrel_id]` without a range check, and never compares `offset + bytes` with the barrel's size; both are undefined behaviour.
- ApiServer.AccumulateTerms, ApiServer.SearchKeywords: require `Fits` (the same two bounds for every term's entry), for the same reason.
- BackendSearcher.Barrels.DecodePostingsList: requires the entry's barrel id in [0, 4). backend/searcher.cpp:307 reads `barrel_loaded[barrel_id]` for any id. The guard in `load_barrel_if_needed` does not protect that read, and an id outside the range is undefined behaviour.
- BackendSearcherQueries.DecodeLists, BackendSearcherQueries.SearchAndRanked, BackendSearcherQueries.SearchPhraseRanked, BackendSearcherOr.SearchQueryRanked: require every lexicon entry's barrel id in range (`InRange`), for the same reason.
- Indexer.DocIdMap.GetOrAssign: requires the counter below 2^32 - 1. `next_internal_docid++` at indexer.cpp:75 would wrap to 0 after 2^32 - 1 documents and then hand out ids already in use.
- Indexer.IndexDocument, Indexer.BuildBlocks: require the same of the counter, for every line they read.
- Indexer.ParseCleanedLine: a line that parses to a JSON value other than an object (`42`, `[]`) has no value in `Indexer.CleanedLine`, which is a parse error or an object. indexer.cpp:90 calls `HasMember("docid")` on it, and RapidJSON's assertion aborts the program in a build without NDEBUG. The same holds at indexer.cpp:395. Its row therefore speaks of lines that parse to an object.
- Indexer.AggregateFields, Indexer.AggregateTokens: a token whose "term" is present but not a string has no value in `Indexer.TokenJson`, whose `term` is a string or absent. indexer.cpp:107 calls `GetString()` on it, which aborts in the same way. An absent "term" skips the token, as the source does.
- SemanticIndexer.StripQuotes: an empty first field (`,0.5` or `"",0.5`, whose quotes the splitter drops) makes backend/semantic_indexer.cpp:106 call `front()` and `back()` on an empty string, which is undefined behaviour. The model keeps the row with the empty docid.
- AutocompleteServer.AutocompleteIndex.GetSuggestions: requires `max_results >= 0`. For a negative value backend/autocomplete_server.cpp:122-123 builds a vector from a range whose end precedes its start, which is undefined behaviour.
- AutocompleteServer.AutocompleteIndex.Load: a file that ends inside a record fails and leaves the index unchanged. backend/autocomplete_server.cpp:37-82 never checks its reads; it keeps whatever the failed reads leave and marks the index loaded. Only files that parse completely are modelled.
- CleanerText.SplitAndTrim: requires a non-empty separator. With `""`, cleaner.cpp:418-428 never advances and loops for ever; the one caller passes `" | "`.
- Decimal.StoulIn: takes `unsigned long` to be 64 bits wide. On a target where it is 32 bits (LLP64), values from 2^32 up throw instead of being narrowed by the cast to `uint32_t`.
- CleanerTokens.Flush: stems with `PorterStemmer.Stem`, the stemmer with the corrected measure of the Findings row on cleaner.cpp:66-77. cleaner.cpp:385 calls the stemmer as written, `PorterStemmer.StemWith(s, VowelRuns)`, so when stemming is on, "tree" is recorded here as "tree" where cleaner.cpp records "tre" (`PorterStemmer.StemTree`, `PorterStemmer.StemTreeAsWritten`).
- CleanerTokens.TokenizeField: stems with the corrected stemmer too, for the same reason (cleaner.cpp:351 and 405 flush through the stemmer as written).
- CleanerTokens.TokensAreWords, CleanerTokens.TokensOfWords: state the term of a record as `PorterStemmer.Stem` of its word, with the corrected measure, for the same reason. Everything else they state (which words are kept, their positions and original text) does not depend on the stemmer.
- AutocompleteRoundTrip.IndexRoundTrip, AutocompleteRoundTrip.LoadBuilt, AutocompleteRoundTrip.PrefixesRead, AutocompleteRoundTrip.PrefixRead, AutocompleteRoundTrip.TermRead: require every prefix, term and term list to be shorter than 2^16 (`Fits`, `PrefixFits`). backend/autocomplete_builder.cpp:141-143 and 158-160 store each length in a `uint16_t` and write only that many bytes. `AutocompleteBuilder.WriteIndex` models that truncation (`AutocompleteBuilder.ShortText`), but the round trip is proved only for what the file holds without loss.

Choices the model makes where the C++ has undefined behaviour or depends on the platform:

- A `uint32_t` shifted by 32 or more bits, and a promoted byte shifted past bit 31 of an `int`, are undefined behaviour. This happens in the decoders at Api_server.cpp:28-41, searcher.cpp:18-31 and Query-engine.hpp:43-56 when a number runs to six bytes or more. The model gives it one meaning: the value is taken modulo 2^32, so bits past 31 are lost.
- Characters stand for bytes: `string` is `seq<char>` and every character is read as one byte.
  - cleaner.cpp:52 tests `s.size() <= 2`, counting UTF-8 bytes; the model counts characters, which agrees on ASCII words.
  - `isalnum` and `tolower` on a negative `char` (Query-engine.hpp:163, and the other tokenizers) are undefined behaviour. The model classifies characters by their ASCII codes only, so every character beyond ASCII is neither a letter nor a digit.
- The locale-aware `towlower`/`iswalnum` path of cleaner.cpp and ICU normalisation are modelled by the ASCII "C" locale and by the non-ICU `normalize_nfc`.

What the engine does that the model does not:

- Query_embedder.py and the semantic searchers: floating-point tensor pooling and dot products over foreign libraries.
- The floating-point scores are parameters, and only their order is reasoned about:
  - BM25;
  - the recency `exp` decay;
  - field boosts as reals;
  - the popularity logarithm of the autocomplete builder and its IEEE bit pattern;
  - `PerformanceStats` averages.
- backend/api_server.cpp's `search_or` (301-324) and its randomised `fake_semantic_search` (430-520): random noise and floating-point fusion.
- backend/extractor.cpp's JSON readers `extract_abstract`, `extract_doi` and `extract_pub_date` (109-217) and the RapidJSON document walk: the model starts from already-parsed fields.
- I/O and argument handling:
  - backend/extractor.cpp's `get_manual_input`, `write_jsonl_line` and `show_progress`;
  - cleaner.cpp's `parse_args` and the JSON lines its `main` writes;
  - the UTF-8 conversions `utf8_to_wstring` and `wstring_to_utf8`.
- The loaders of the index files: `load_index` (Query-engine.hpp:182-271), `load_lexicon`, `load_docid_map` and `load_forward_index`. Their results are parameters of the model: the lexicon, document map and metadata. cleaner.cpp's `load_stopwords` is modelled line by line (`CleanerText.StopwordOf`); the set it fills is a parameter of the tokenizer.
- `main` of every program, the interactive and benchmark loops, the HTTP routes and JSON responses, threads and sleeps, and all timing and console output. Also left out: `print_stats`, the autocomplete builder's `.txt` dump (backend/autocomplete_builder.cpp:174-200), `estimate_memory` (Auto-complete.hpp:191-203) and `DocEmbedding::normalize`.
- The trie of Auto-complete.hpp is a value held in the engine's `root` field. Node identity and `unique_ptr` ownership are not modelled.
- `std::sort` is not stable, so the order of equal scores is unspecified. Where the source sorts, the model states only that the result is a permutation in non-increasing score order.

## Findings

| source | as written | input that shows it | evidently intended | confidence | as-written member | corrected member |
|---|---|---|---|---|---|---|
| indexer.cpp:135 | each block file is written in `unordered_map` order, while the k-way merge of indexer.cpp:235-252 assumes every file's terms ascend | block files `b, a` and `a`: the merge emits `a`, `b`, then `a` again, giving one term two lexicon entries | block files sorted by term, so each term is merged once | not executed | `IndexerMerge.MergeOfUnsortedFilesRepeatsTerm` | `IndexerMerge.FlushBlockSorted`, `IndexerMerge.MergeOfSortedFiles`, `IndexerLexicon.SortedLexicon` |
| backend/searcher.cpp:732 | `SearchResult sr;` leaves `recency_score` uninitialised for a document without metadata, and lines 750-751 read it into the final score | a phrase match on a document missing from the metadata: its final score depends on the uninitialised value | recency 0 without metadata, as the OR and AND searches set it | not executed | `BackendSearcherQueries.PhraseResultAsWritten`, `BackendSearcherQueries.PhraseRecencyUninitialised` | `BackendSearcherQueries.PhraseResult`, `BackendSearcherQueries.PhraseResultParts`, `BackendSearcherQueries.PhraseRankedSpec` |
| backend/api_server.cpp:338-345 | `search_and` counts postings per document and keeps those counted once per term, so a document repeated in one list stands in for a missing term | lists `[1, 1]` and `[2]`: document 1 is reported though the second list lacks it | a document reported only when every term's list holds it | not executed | `BackendApiSearch.AndMatchesNeedDistinct` | `BackendApiSearch.AndMatchesSpec` (for lists without repeated documents, as every index the engine writes) |
| cleaner.cpp:66-77 | `measure` counts every run of vowels, including a trailing one, where Porter's `m` counts vowel-consonant sequences | "tree": as written the measure of "tre" is 1, step 5a drops the `e` and "tree" stems to "tre" | Porter's measure, under which "tree" is kept | not executed | `PorterStemmer.MeasureAsWritten`, `PorterStemmer.StemTreeAsWritten` | `PorterStemmer.Measure`, `PorterStemmer.StemWord`, `PorterStemmer.StemTree` |
