/** The `QueryEngine` class of Query-engine.hpp once `load_index` has run:
    the lexicon, docid names and document lengths it read, the barrel
    cache it fills on demand, and its single-word and AND searches. BM25
    is a parameter: a score for a document frequency and a document
    length, with the term frequency fixed at 1 as both searches use it. */
module QueryEngine {
  import opened Common
  import Ranking
  import QueryDecoder
  import QueryTokens
  import Searcher
  import Postings

  /** `SearchResult`; the title and snippet stay empty in these searches. */
  datatype SearchResult = SearchResult(docid: string, score: real, termFreqs: map<string, uint32>)

  function ScoreOf(r: SearchResult): real { r.score }

  /** `operator<`: `a` sorts before `b` when it scores more. */
  predicate Before(a: SearchResult, b: SearchResult) { a.score > b.score }

  /** A sequence sorted by `operator<` is one whose scores never increase. */
  lemma SortedByBefore(r: seq<SearchResult>)
    ensures Ranking.NonIncreasing(r, ScoreOf) <==> forall i, j :: 0 <= i < j < |r| ==> !Before(r[j], r[i])
  {
  }

  /** A line of the lexicon; the barrel id is a `uint32_t` here. */
  datatype LexEntry = LexEntry(wordID: uint32, term: string, docFreq: uint32, termFreq: nat,
                               offset: nat, bytes: nat, barrelID: uint32)

  /** `calculate_bm25(doc_freq, 1, doc_len, total_docs)`. */
  type Weight = (uint32, uint32) -> real

  /** The documents in every list of `kept`. */
  function CommonDocs(kept: seq<(string, seq<uint32>)>): set<uint32>
    requires kept != []
  {
    set d | d in kept[0].1 && forall k :: 0 <= k < |kept| ==> d in kept[k].1
  }

  /** A common document is in every list. */
  lemma InCommon(kept: seq<(string, seq<uint32>)>, d: uint32)
    requires kept != [] && d in CommonDocs(kept)
    ensures forall k :: 0 <= k < |kept| ==> d in kept[k].1
  {
  }

  /** The documents of the first list, intersected with each next one as
      `std::set`s. */
  method Intersection(kept: seq<(string, seq<uint32>)>) returns (common: set<uint32>)
    requires kept != []
    ensures common == CommonDocs(kept)
  {
    common := set d | d in kept[0].1;
    for i := 1 to |kept|
      invariant common == set d | d in kept[0].1 && forall k :: 0 <= k < i ==> d in kept[k].1
    {
      var current := set d | d in kept[i].1;
      common := common * current;
    }
  }

  /** Sorting and cutting to `k`: at most `k` results, scores never
      increasing, each one a hit, and every hit when there are no more
      than `k`. */
  lemma TopOfRanked(hits: seq<SearchResult>, ranked: seq<SearchResult>, k: nat)
    requires Ranking.Ranked(ranked, hits, ScoreOf)
    ensures |Ranking.Top(ranked, k)| <= k
    ensures Ranking.NonIncreasing(Ranking.Top(ranked, k), ScoreOf)
    ensures forall r :: r in Ranking.Top(ranked, k) ==> r in hits
    ensures |hits| <= k ==> forall h :: h in hits ==> h in Ranking.Top(ranked, k)
  {
    var top := Ranking.Top(ranked, k);
    forall r | r in top ensures r in hits {
      assert r in multiset(ranked);
    }
    if |hits| <= k {
      assert |ranked| == |multiset(ranked)| == |hits|;
      assert top == ranked;
      forall h | h in hits ensures h in top {
        assert h in multiset(hits);
      }
    }
  }

  /** `sort` by `operator<`, then `resize(top_k)` when longer. */
  method RankAndCut(hits: seq<SearchResult>, topK: nat) returns (results: seq<SearchResult>, ghost ranked: seq<SearchResult>)
    ensures Ranking.Ranked(ranked, hits, ScoreOf) && results == Ranking.Top(ranked, topK)
  {
    var sorted := Ranking.SortByScore(hits, ScoreOf);
    ranked := sorted;
    results := Ranking.Top(sorted, topK);
  }

  class Engine {
    const lexicon: map<string, LexEntry>
    const names: map<uint32, string>
    const docLengths: map<uint32, uint32>
    /** `avg_doc_length` converted to `uint32_t`: the length of a document
        that has none. */
    const fallbackLength: uint32
    /** The barrel files that exist, by barrel id. */
    const disk: map<uint32, seq<byte>>
    var barrelCache: map<uint32, seq<byte>>
    /** The barrels read from disk, in the order they were read. */
    ghost var fileReads: seq<uint32>

    /** The cache holds barrels as they are on disk, and each was read
        once. */
    ghost predicate Valid()
      reads this
    {
      (forall id :: id in barrelCache ==> id in disk && barrelCache[id] == disk[id])
      && Ranking.Listed(fileReads, barrelCache.Keys)
    }

    constructor(lexicon: map<string, LexEntry>, names: map<uint32, string>, docLengths: map<uint32, uint32>,
                fallbackLength: uint32, disk: map<uint32, seq<byte>>)
      ensures this.lexicon == lexicon && this.names == names && this.docLengths == docLengths
      ensures this.fallbackLength == fallbackLength && this.disk == disk
      ensures barrelCache == map[] && fileReads == []
      ensures Valid()
    {
      this.lexicon := lexicon;
      this.names := names;
      this.docLengths := docLengths;
      this.fallbackLength := fallbackLength;
      this.disk := disk;
      barrelCache := map[];
      fileReads := [];
    }

    /** `load_barrel`: true at once for a cached barrel, false when the
        file is missing, otherwise the file is read into the cache. */
    method LoadBarrel(id: uint32) returns (found: bool)
      requires Valid()
      modifies this
      ensures Valid()
      ensures found <==> id in disk
      ensures barrelCache == if id in disk then old(barrelCache)[id := disk[id]] else old(barrelCache)
      ensures fileReads == if id in old(barrelCache) || id !in disk then old(fileReads) else old(fileReads) + [id]
    {
      if id in barrelCache {
        return true;
      }
      if id !in disk {
        return false;
      }
      barrelCache := barrelCache[id := disk[id]];
      fileReads := fileReads + [id];
      return true;
    }

    /** What `get_posting_list` returns: nothing for an unknown term or a
        missing barrel file, otherwise the documents of the term's entry
        in its barrel. */
    function PostingList(term: string): (ds: seq<uint32>)
      ensures ds != [] ==> term in lexicon && lexicon[term].barrelID in disk
    {
      if term !in lexicon then []
      else
        var e := lexicon[term];
        if e.barrelID !in disk then [] else QueryDecoder.DocIdsAt(disk[e.barrelID], e.offset, e.bytes)
    }

    /** Decoding the term's entry stays within its barrel; the C++ has
        undefined behaviour otherwise. */
    predicate Fits(term: string) {
      term in lexicon && lexicon[term].barrelID in disk && lexicon[term].bytes != 0 ==>
        Postings.DecodeList(Searcher.ListDecoder, disk[lexicon[term].barrelID], lexicon[term].offset,
                            |disk[lexicon[term].barrelID]|).Some?
    }

    /** The barrel looking up `term` brings into the cache. */
    function BarrelOf(term: string): set<uint32> {
      if term in lexicon && lexicon[term].barrelID in disk then {lexicon[term].barrelID} else {}
    }

    /** `get_posting_list`. */
    method GetPostingList(term: string) returns (docids: seq<uint32>)
      requires Valid() && Fits(term)
      modifies this
      ensures Valid() && docids == PostingList(term)
      ensures barrelCache.Keys == old(barrelCache).Keys + BarrelOf(term)
    {
      if term !in lexicon {
        return [];
      }
      var e := lexicon[term];
      var found := LoadBarrel(e.barrelID);
      if !found {
        return [];
      }
      var data := barrelCache[e.barrelID];
      docids := QueryDecoder.DecodePostingList(data, e.offset, e.bytes);
    }

    /** `docid_map[docid]`: the empty string for an unknown document. */
    function NameOf(d: uint32): string {
      if d in names then names[d] else ""
    }

    /** The document's length, or the average for one without. */
    function LengthOf(d: uint32): uint32 {
      if d in docLengths then docLengths[d] else fallbackLength
    }

    /** Every token of the query fits. */
    predicate QueryFits(query: string) {
      forall t :: t in QueryTokens.Tokens(query) ==> Fits(t)
    }

    // -------------------------------------------------------------------
    // search_single

    /** The result `search_single` builds for a document. */
    function SingleHit(term: string, docFreq: uint32, d: uint32, w: Weight): SearchResult {
      SearchResult(NameOf(d), w(docFreq, LengthOf(d)), map[term := 1])
    }

    /** One result per document of `ps`, in list order. */
    function HitsOf(term: string, docFreq: uint32, ps: seq<uint32>, w: Weight): seq<SearchResult> {
      seq(|ps|, k requires 0 <= k < |ps| => SingleHit(term, docFreq, ps[k], w))
    }

    /** The results before sorting: one per posting of the first token, in
        list order. */
    function SingleHits(tokens: seq<string>, w: Weight): seq<SearchResult> {
      if tokens == [] then []
      else
        var ps := PostingList(tokens[0]);
        if ps == [] then [] else HitsOf(tokens[0], lexicon[tokens[0]].docFreq, ps, w)
    }

    /** The loop building a result per document. */
    method SingleResults(term: string, docFreq: uint32, postings: seq<uint32>, w: Weight) returns (hits: seq<SearchResult>)
      ensures hits == HitsOf(term, docFreq, postings, w)
    {
      hits := [];
      for k := 0 to |postings|
        invariant hits == seq(k, j requires 0 <= j < k => SingleHit(term, docFreq, postings[j], w))
      {
        var d := postings[k];
        hits := hits + [SearchResult(NameOf(d), w(docFreq, LengthOf(d)), map[term := 1])];
      }
    }

    /** `search_single`: only the first token counts; its documents, each
        scored with `tf` 1, sorted by descending score and cut to `top_k`. */
    method SearchSingle(query: string, topK: nat, w: Weight) returns (results: seq<SearchResult>, ghost ranked: seq<SearchResult>)
      requires Valid() && QueryFits(query)
      modifies this
      ensures Valid()
      ensures Ranking.Ranked(ranked, SingleHits(QueryTokens.Tokens(query), w), ScoreOf)
      ensures results == Ranking.Top(ranked, topK)
    {
      var tokens := QueryTokens.Tokenize(query);
      if tokens == [] {
        return [], [];
      }
      var term := tokens[0];
      assert term in tokens;
      var postings := GetPostingList(term);
      if postings == [] {
        return [], [];
      }
      var hits := SingleResults(term, lexicon[term].docFreq, postings, w);
      results, ranked := RankAndCut(hits, topK);
    }

    /** `r` is the result of one of the documents of the first token. */
    ghost predicate SingleExplained(tokens: seq<string>, w: Weight, r: SearchResult) {
      tokens != [] && tokens[0] in lexicon
      && exists d :: d in PostingList(tokens[0]) && r == SingleHit(tokens[0], lexicon[tokens[0]].docFreq, d, w)
    }

    /** At most `top_k` results in descending score order, each the result
        of a document holding the first token, and every such document
        when there are no more than `top_k`. */
    lemma SingleSpec(tokens: seq<string>, topK: nat, w: Weight, results: seq<SearchResult>, ranked: seq<SearchResult>)
      requires Ranking.Ranked(ranked, SingleHits(tokens, w), ScoreOf) && results == Ranking.Top(ranked, topK)
      ensures |results| <= topK && Ranking.NonIncreasing(results, ScoreOf)
      ensures forall r :: r in results ==> SingleExplained(tokens, w, r)
      ensures tokens != [] && |PostingList(tokens[0])| <= topK ==>
                forall d :: d in PostingList(tokens[0]) ==>
                  SingleHit(tokens[0], lexicon[tokens[0]].docFreq, d, w) in results
    {
      var hits := SingleHits(tokens, w);
      TopOfRanked(hits, ranked, topK);
      forall r | r in results ensures SingleExplained(tokens, w, r) {
        var k :| 0 <= k < |hits| && hits[k] == r;
        assert hits[k] == SingleHit(tokens[0], lexicon[tokens[0]].docFreq, PostingList(tokens[0])[k], w);
        assert PostingList(tokens[0])[k] in PostingList(tokens[0]);
      }
      if tokens != [] && |PostingList(tokens[0])| <= topK {
        var ps := PostingList(tokens[0]);
        forall d | d in ps ensures SingleHit(tokens[0], lexicon[tokens[0]].docFreq, d, w) in results {
          var k :| 0 <= k < |ps| && ps[k] == d;
          assert hits[k] in hits;
        }
      }
    }

    // -------------------------------------------------------------------
    // search_multi

    /** The lists `search_multi` keeps: the list of every token whose list
        is not empty, in token order, a repeated token once per
        occurrence. */
    function NonEmptyLists(tokens: seq<string>): (kept: seq<(string, seq<uint32>)>)
      ensures forall k :: 0 <= k < |kept| ==> kept[k].1 != [] && kept[k].1 == PostingList(kept[k].0)
    {
      if tokens == [] then []
      else
        var t := tokens[|tokens| - 1];
        var ps := PostingList(t);
        NonEmptyLists(tokens[..|tokens| - 1]) + (if ps == [] then [] else [(t, ps)])
    }

    /** The loop fetching each token's list and keeping the non-empty
        ones. */
    method CollectLists(tokens: seq<string>) returns (kept: seq<(string, seq<uint32>)>)
      requires Valid() && forall t :: t in tokens ==> Fits(t)
      modifies this
      ensures Valid() && kept == NonEmptyLists(tokens)
    {
      kept := [];
      for i := 0 to |tokens|
        invariant Valid() && kept == NonEmptyLists(tokens[..i])
      {
        assert tokens[..i + 1][..i] == tokens[..i];
        var postings := GetPostingList(tokens[i]);
        if postings != [] {
          kept := kept + [(tokens[i], postings)];
        }
      }
      assert tokens[..|tokens|] == tokens;
    }

    /** The sum of the BM25 scores of the kept terms for a document. */
    function MultiScore(kept: seq<(string, seq<uint32>)>, d: uint32, w: Weight): real {
      if kept == [] then 0.0
      else
        var t := kept[|kept| - 1].0;
        MultiScore(kept[..|kept| - 1], d, w) + (if t in lexicon then w(lexicon[t].docFreq, LengthOf(d)) else 0.0)
    }

    /** `term_frequencies[term] = 1` for each kept term in the lexicon. */
    function MultiTerms(kept: seq<(string, seq<uint32>)>): map<string, uint32> {
      if kept == [] then map[]
      else
        var t := kept[|kept| - 1].0;
        var m := MultiTerms(kept[..|kept| - 1]);
        if t in lexicon then m[t := 1] else m
    }

    /** The result `search_multi` builds for a document. */
    function MultiHit(kept: seq<(string, seq<uint32>)>, d: uint32, w: Weight): SearchResult {
      SearchResult(NameOf(d), MultiScore(kept, d, w), MultiTerms(kept))
    }

    /** The results before sorting, in the order the documents are taken. */
    function MultiHits(kept: seq<(string, seq<uint32>)>, order: seq<uint32>, w: Weight): seq<SearchResult> {
      seq(|order|, k requires 0 <= k < |order| => MultiHit(kept, order[k], w))
    }

    /** The scoring loop for one document: a BM25 score added, and the
        term recorded, for each kept term found in the lexicon. */
    method ScoreDoc(kept: seq<(string, seq<uint32>)>, d: uint32, w: Weight) returns (r: SearchResult)
      ensures r == MultiHit(kept, d, w)
    {
      var score: real := 0.0;
      var tf: map<string, uint32> := map[];
      var len := LengthOf(d);
      for k := 0 to |kept|
        invariant score == MultiScore(kept[..k], d, w) && tf == MultiTerms(kept[..k])
      {
        assert kept[..k + 1][..k] == kept[..k];
        var t := kept[k].0;
        if t in lexicon {
          score := score + w(lexicon[t].docFreq, len);
          tf := tf[t := 1];
        }
      }
      assert kept[..|kept|] == kept;
      r := SearchResult(NameOf(d), score, tf);
    }

    /** The loop over the common documents. */
    method ScoreAll(kept: seq<(string, seq<uint32>)>, common: set<uint32>, w: Weight)
      returns (hits: seq<SearchResult>, ghost order: seq<uint32>)
      ensures Ranking.Listed(order, common) && hits == MultiHits(kept, order, w)
    {
      hits := [];
      order := [];
      var todo := common;
      while todo != {}
        invariant Ranking.Walking(common, order, todo) && todo <= common
        invariant hits == MultiHits(kept, order, w)
        decreases |todo|
      {
        var d :| d in todo;
        Ranking.WalkStep(common, order, todo, d);
        var r := ScoreDoc(kept, d, w);
        hits := hits + [r];
        order := order + [d];
        todo := todo - {d};
      }
      Ranking.WalkDone(common, order);
    }

    /** The results of the AND over the kept lists, sorted and cut. */
    ghost predicate AndRanked(kept: seq<(string, seq<uint32>)>, w: Weight, topK: nat, order: seq<uint32>,
                              ranked: seq<SearchResult>, results: seq<SearchResult>)
      requires kept != []
    {
      Ranking.Listed(order, CommonDocs(kept))
      && Ranking.Ranked(ranked, MultiHits(kept, order, w), ScoreOf)
      && results == Ranking.Top(ranked, topK)
    }

    /** The part of `search_multi` for two tokens or more. */
    method SearchAnd(tokens: seq<string>, topK: nat, w: Weight)
      returns (results: seq<SearchResult>, ghost order: seq<uint32>, ghost ranked: seq<SearchResult>)
      requires Valid() && forall t :: t in tokens ==> Fits(t)
      modifies this
      ensures Valid()
      ensures NonEmptyLists(tokens) == [] ==> results == []
      ensures NonEmptyLists(tokens) != [] ==> AndRanked(NonEmptyLists(tokens), w, topK, order, ranked, results)
    {
      var kept := CollectLists(tokens);
      if kept == [] {
        return [], [], [];
      }
      var common := Intersection(kept);
      var hits;
      hits, order := ScoreAll(kept, common, w);
      results, ranked := RankAndCut(hits, topK);
    }

    /** `search_multi`: a one-token query goes to `search_single`;
        otherwise the documents found in every non-empty list (lists of
        unknown or missing terms are skipped, not intersected), each
        scored by the sum over the kept terms, sorted by descending score
        and cut to `top_k`. */
    method SearchMulti(query: string, topK: nat, w: Weight)
      returns (results: seq<SearchResult>, ghost order: seq<uint32>, ghost ranked: seq<SearchResult>)
      requires Valid() && QueryFits(query)
      modifies this
      ensures Valid()
      ensures |QueryTokens.Tokens(query)| <= 1 ==>
                Ranking.Ranked(ranked, SingleHits(QueryTokens.Tokens(query), w), ScoreOf)
                && results == Ranking.Top(ranked, topK)
      ensures |QueryTokens.Tokens(query)| > 1 && NonEmptyLists(QueryTokens.Tokens(query)) == [] ==> results == []
      ensures |QueryTokens.Tokens(query)| > 1 && NonEmptyLists(QueryTokens.Tokens(query)) != [] ==>
                AndRanked(NonEmptyLists(QueryTokens.Tokens(query)), w, topK, order, ranked, results)
    {
      var tokens := QueryTokens.Tokenize(query);
      if tokens == [] {
        return [], [], [];
      }
      if |tokens| == 1 {
        results, ranked := SearchSingle(query, topK, w);
        order := [];
        return;
      }
      results, order, ranked := SearchAnd(tokens, topK, w);
    }

    /** A token's list is kept exactly when it is not empty. */
    lemma {:induction false} NonEmptyListsSpec(tokens: seq<string>)
      ensures forall p :: p in NonEmptyLists(tokens) ==> p.0 in tokens
      ensures forall t :: t in tokens && PostingList(t) != [] ==> (t, PostingList(t)) in NonEmptyLists(tokens)
      decreases |tokens|
    {
      if tokens != [] {
        var front, last := tokens[..|tokens| - 1], tokens[|tokens| - 1];
        NonEmptyListsSpec(front);
        assert tokens == front + [last];
        var tail := if PostingList(last) == [] then [] else [(last, PostingList(last))];
        assert NonEmptyLists(tokens) == NonEmptyLists(front) + tail;
        forall p | p in NonEmptyLists(tokens) ensures p.0 in tokens {
          if p !in tail {
            assert p.0 in front;
          }
        }
      }
    }

    /** The AND of `search_multi` ignores the tokens without documents: a
        document is common exactly when every non-empty token list holds
        it. */
    lemma CommonSkipsEmpty(tokens: seq<string>, d: uint32)
      requires NonEmptyLists(tokens) != []
      ensures d in CommonDocs(NonEmptyLists(tokens))
              <==> forall t :: t in tokens && PostingList(t) != [] ==> d in PostingList(t)
    {
      if forall t :: t in tokens && PostingList(t) != [] ==> d in PostingList(t) {
        CommonFromTokens(tokens, d);
      }
      if d in CommonDocs(NonEmptyLists(tokens)) {
        TokensFromCommon(tokens, d);
      }
    }

    lemma CommonFromTokens(tokens: seq<string>, d: uint32)
      requires NonEmptyLists(tokens) != []
      requires forall t :: t in tokens && PostingList(t) != [] ==> d in PostingList(t)
      ensures d in CommonDocs(NonEmptyLists(tokens))
    {
      var kept := NonEmptyLists(tokens);
      NonEmptyListsSpec(tokens);
      forall k | 0 <= k < |kept| ensures d in kept[k].1 {
        assert kept[k] in kept;
      }
    }

    lemma TokensFromCommon(tokens: seq<string>, d: uint32)
      requires NonEmptyLists(tokens) != []
      requires d in CommonDocs(NonEmptyLists(tokens))
      ensures forall t :: t in tokens && PostingList(t) != [] ==> d in PostingList(t)
    {
      var kept := NonEmptyLists(tokens);
      InCommon(kept, d);
      NonEmptyListsSpec(tokens);
      forall t | t in tokens && PostingList(t) != [] ensures d in PostingList(t) {
        var p := (t, PostingList(t));
        assert p in kept;
        var k :| 0 <= k < |kept| && kept[k] == p;
        assert d in kept[k].1;
      }
    }

    /** Each kept term is recorded once, with frequency 1. */
    lemma {:induction false} MultiTermsSpec(kept: seq<(string, seq<uint32>)>)
      requires forall k :: 0 <= k < |kept| ==> kept[k].1 == PostingList(kept[k].0) && kept[k].1 != []
      ensures forall t :: t in MultiTerms(kept) <==> exists k :: 0 <= k < |kept| && kept[k].0 == t
      ensures forall t :: t in MultiTerms(kept) ==> MultiTerms(kept)[t] == 1
      decreases |kept|
    {
      if kept != [] {
        var front := kept[..|kept| - 1];
        var last := kept[|kept| - 1];
        assert forall k :: 0 <= k < |front| ==> front[k] == kept[k];
        MultiTermsSpec(front);
        assert last.1 == PostingList(last.0) && last.1 != [];
        assert MultiTerms(kept) == MultiTerms(front)[last.0 := 1];
        forall t ensures t in MultiTerms(kept) <==> exists k :: 0 <= k < |kept| && kept[k].0 == t {
          NamesSnoc(kept, front, t);
        }
      }
    }

    /** A name occurs in a list when it occurs in all but the last entry,
        or is the last entry's. */
    lemma NamesSnoc(kept: seq<(string, seq<uint32>)>, front: seq<(string, seq<uint32>)>, t: string)
      requires kept != [] && front == kept[..|kept| - 1]
      ensures (exists k :: 0 <= k < |kept| && kept[k].0 == t)
          <==> (exists k :: 0 <= k < |front| && front[k].0 == t) || kept[|kept| - 1].0 == t
    {
      if exists k :: 0 <= k < |kept| && kept[k].0 == t {
        var k :| 0 <= k < |kept| && kept[k].0 == t;
        if k < |kept| - 1 {
          assert front[k].0 == t;
        }
      }
      if exists k :: 0 <= k < |front| && front[k].0 == t {
        var k :| 0 <= k < |front| && front[k].0 == t;
        assert kept[k].0 == t;
      }
    }

    /** `r` is the result of a document common to the kept lists. */
    ghost predicate MultiExplained(kept: seq<(string, seq<uint32>)>, w: Weight, r: SearchResult)
      requires kept != []
    {
      exists d :: d in CommonDocs(kept) && r == MultiHit(kept, d, w)
    }

    /** At most `top_k` results in descending score order, each the result
        of a common document, and every common document when there are no
        more than `top_k`. */
    lemma MultiSpec(kept: seq<(string, seq<uint32>)>, w: Weight, topK: nat, order: seq<uint32>,
                    ranked: seq<SearchResult>, results: seq<SearchResult>)
      requires kept != [] && AndRanked(kept, w, topK, order, ranked, results)
      ensures |results| <= topK && Ranking.NonIncreasing(results, ScoreOf)
      ensures forall r :: r in results ==> MultiExplained(kept, w, r)
      ensures |CommonDocs(kept)| <= topK ==> forall d :: d in CommonDocs(kept) ==> MultiHit(kept, d, w) in results
    {
      var hits := MultiHits(kept, order, w);
      TopOfRanked(hits, ranked, topK);
      forall r | r in results ensures MultiExplained(kept, w, r) {
        var k :| 0 <= k < |hits| && hits[k] == r;
        assert order[k] in order;
      }
      Ranking.ListedSize(order, CommonDocs(kept));
      if |CommonDocs(kept)| <= topK {
        forall d | d in CommonDocs(kept) ensures MultiHit(kept, d, w) in results {
          var k :| 0 <= k < |order| && order[k] == d;
          assert hits[k] in hits;
        }
      }
    }
  }
}
