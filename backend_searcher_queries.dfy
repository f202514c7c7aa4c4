/** The ranked searches of backend/searcher.cpp: the conjunctive query
    (`search_query_and_ranked`) and the exact phrase
    (`search_phrase_ranked`), with the field boost and the recency of each
    document folded into a final score. Postings come from the barrels,
    which are loaded on the way. The BM25 formula and the recency decay are
    parameters; floating-point rounding is not modelled. */
module BackendSearcherQueries {
  import opened Common
  import opened Postings
  import opened PostingLists
  import opened BackendSearcher
  import Ranking
  import Decimal
  import SearcherQueries
  import BackendApiSearch

  /** `DocMetadata` */
  datatype DocMeta = DocMeta(origDocid: string, docLength: uint32, title: string, authors: string, pubDate: string)

  /** The loaded index besides the barrels: `lexicon`, `int_to_docid`,
      `doc_metadata`, `total_docs`, and `avg_doc_length` as the integer
      `get_doc_length` casts it to. */
  datatype Catalog = Catalog(lexicon: map<string, LexEntry>, names: map<uint32, string>,
                             meta: map<uint32, DocMeta>, totalDocs: nat, avgDocLength: uint32)

  /** Every entry names one of the four barrels: `decode_postings_list`
      indexes `barrel_loaded` with the id unchecked. */
  predicate InRange(cat: Catalog) {
    forall t :: t in cat.lexicon ==> 0 <= cat.lexicon[t].barrelID < NumBarrels
  }

  datatype SearchResult = SearchResult(docid: uint32, origDocid: string, bm25: real, recency: real, final: real,
                                       termFreqs: map<string, uint32>, title: string, pubDate: string)

  function FinalOf(r: SearchResult): real { r.final }

  /** `get_orig_docid` */
  function OrigDocid(cat: Catalog, d: uint32): string {
    if d in cat.names then cat.names[d] else "UNKNOWN_" + Decimal.ToDecimal(d)
  }

  /** `get_doc_length` */
  function DocLength(cat: Catalog, d: uint32): uint32 {
    if d in cat.meta then cat.meta[d].docLength else cat.avgDocLength
  }

  function TitleOf(cat: Catalog, d: uint32): string {
    if d in cat.meta then cat.meta[d].title else ""
  }

  function PubDateOf(cat: Catalog, d: uint32): string {
    if d in cat.meta then cat.meta[d].pubDate else ""
  }

  /** The recency of a document: that of its publication year when it has
      metadata, 0 otherwise. */
  function RecencyOf(cat: Catalog, d: uint32, decay: nat -> real): real {
    if d in cat.meta then Recency(ExtractYear(cat.meta[d].pubDate), decay) else 0.0
  }

  /** The field of a posting: from its first position, the body when it
      has none. */
  function FieldOf(p: Posting, docLen: uint32): Field {
    if p.positions == [] then Body else GuessField(p.positions[0], docLen)
  }

  /** The list of an entry as the barrels on disk give it. */
  function ListOf(disk: seq<Option<seq<byte>>>, e: LexEntry): seq<Posting>
    requires |disk| == NumBarrels && 0 <= e.barrelID < NumBarrels
  {
    if disk[e.barrelID].Some? then EntryList(disk[e.barrelID].value, e) else []
  }

  function ListsOf(disk: seq<Option<seq<byte>>>, es: seq<LexEntry>): (lists: seq<seq<Posting>>)
    requires |disk| == NumBarrels && forall k :: 0 <= k < |es| ==> 0 <= es[k].barrelID < NumBarrels
    ensures |lists| == |es|
  {
    seq(|es|, k requires 0 <= k < |es| => ListOf(disk, es[k]))
  }

  /** `decode_postings_list` for each entry in turn; barrels are loaded as
      the entries need them and stay loaded. */
  method DecodeLists(barrels: Barrels, es: seq<LexEntry>) returns (lists: seq<seq<Posting>>)
    requires barrels.Valid() && forall k :: 0 <= k < |es| ==> 0 <= es[k].barrelID < NumBarrels
    modifies barrels
    ensures barrels.Valid() && lists == ListsOf(barrels.disk, es)
    ensures forall b :: 0 <= b < NumBarrels && old(barrels.loaded)[b] ==> barrels.loaded[b]
  {
    lists := [];
    for i := 0 to |es|
      invariant barrels.Valid() && |lists| == i
      invariant forall k :: 0 <= k < i ==> lists[k] == ListOf(barrels.disk, es[k])
      invariant StillLoaded(old(barrels.loaded), barrels.loaded)
    {
      ghost var before := barrels.loaded;
      var ps := barrels.DecodePostingsList(es[i]);
      StillLoadedTrans(old(barrels.loaded), before, barrels.loaded);
      lists := lists + [ps];
    }
  }

  // ---------------------------------------------------------------------
  // The query terms

  /** Every query term, lower-cased, is in the lexicon. */
  predicate AllKnown(lexicon: map<string, LexEntry>, terms: seq<string>) {
    forall k :: 0 <= k < |terms| ==> Lower(terms[k]) in lexicon
  }

  /** The lower-cased terms the lexicon knows, in query order. */
  function Found(lexicon: map<string, LexEntry>, terms: seq<string>): (ns: seq<string>)
    ensures forall k :: 0 <= k < |ns| ==> ns[k] in lexicon
  {
    if terms == [] then []
    else
      var n := |terms| - 1;
      var norm := Lower(terms[n]);
      Found(lexicon, terms[..n]) + if norm in lexicon then [norm] else []
  }

  /** All terms are found exactly when the lexicon knows each, and then
      they are found as they were written, lower-cased. */
  lemma {:induction false} FoundAll(lexicon: map<string, LexEntry>, terms: seq<string>)
    ensures |Found(lexicon, terms)| <= |terms|
    ensures |Found(lexicon, terms)| == |terms| <==> AllKnown(lexicon, terms)
    ensures AllKnown(lexicon, terms) ==> Found(lexicon, terms) == SearcherQueries.Norms(terms)
  {
    if terms != [] {
      var n := |terms| - 1;
      FoundAll(lexicon, terms[..n]);
      assert forall k :: 0 <= k < n ==> terms[..n][k] == terms[k];
      if AllKnown(lexicon, terms) {
        assert AllKnown(lexicon, terms[..n]);
        assert SearcherQueries.Norms(terms) == SearcherQueries.Norms(terms[..n]) + [Lower(terms[n])];
      }
      if |Found(lexicon, terms)| == |terms| {
        assert Lower(terms[n]) in lexicon;
        assert |Found(lexicon, terms[..n])| == n;
      }
    }
  }

  /** The lookup loop: each term lower-cased, kept when the lexicon has it. */
  method FindTerms(lexicon: map<string, LexEntry>, terms: seq<string>) returns (ns: seq<string>)
    ensures ns == Found(lexicon, terms)
  {
    ns := [];
    for i := 0 to |terms|
      invariant ns == Found(lexicon, terms[..i])
    {
      assert terms[..i + 1][..i] == terms[..i];
      var norm := Lower(terms[i]);
      if norm in lexicon {
        ns := ns + [norm];
      }
    }
    assert terms[..|terms|] == terms;
  }

  /** A query term with its lexicon entry. */
  datatype QueryTerm = QueryTerm(norm: string, entry: LexEntry)

  function Pair(lexicon: map<string, LexEntry>, t: string): QueryTerm
    requires t in lexicon
  {
    QueryTerm(t, lexicon[t])
  }

  function Pairs(lexicon: map<string, LexEntry>, ns: seq<string>): (ts: seq<QueryTerm>)
    requires forall k :: 0 <= k < |ns| ==> ns[k] in lexicon
    ensures |ts| == |ns|
  {
    seq(|ns|, k requires 0 <= k < |ns| => Pair(lexicon, ns[k]))
  }

  function Entries(ts: seq<QueryTerm>): (es: seq<LexEntry>)
    ensures |es| == |ts|
  {
    seq(|ts|, k requires 0 <= k < |ts| => ts[k].entry)
  }

  /** Rarer terms first: descending in this key is ascending in
      `doc_freq`. */
  function Rarity(t: QueryTerm): real { -(t.entry.docFreq as real) }

  /** The terms by ascending document frequency, in any order among equal
      frequencies (`std::sort` of the indices). */
  predicate ByDocFreq(sorted: seq<QueryTerm>, ts: seq<QueryTerm>) {
    multiset(sorted) == multiset(ts)
    && forall i, j :: 0 <= i < j < |sorted| ==> sorted[i].entry.docFreq <= sorted[j].entry.docFreq
  }

  method SortByDocFreq(ts: seq<QueryTerm>) returns (sorted: seq<QueryTerm>)
    ensures ByDocFreq(sorted, ts)
  {
    sorted := Ranking.SortByScore(ts, Rarity);
  }

  /** Reordering the terms keeps the same terms, each as often. */
  lemma ByDocFreqSame(sorted: seq<QueryTerm>, ts: seq<QueryTerm>)
    requires ByDocFreq(sorted, ts)
    ensures |sorted| == |ts|
    ensures forall t :: t in sorted <==> t in ts
  {
    assert |multiset(sorted)| == |multiset(ts)|;
    forall t ensures t in sorted <==> t in ts {
      assert t in sorted <==> t in multiset(sorted);
      assert t in ts <==> t in multiset(ts);
    }
  }

  // ---------------------------------------------------------------------
  // search_query_and_ranked

  /** The intersection of the document sets, stopping as soon as it is
      empty. */
  method IntersectEarly(lists: seq<seq<Posting>>) returns (docs: set<uint32>)
    requires lists != []
    ensures docs == SearcherQueries.EveryList(lists)
  {
    docs := DocSetOf(lists[0]);
    assert lists[..1] == [lists[0]];
    for i := 1 to |lists|
      invariant docs == SearcherQueries.EveryList(lists[..i])
    {
      var termDocs := DocSetOf(lists[i]);
      assert lists[..i + 1][..i] == lists[..i];
      docs := Ranking.Intersect(docs, termDocs);
      if docs == {} {
        EveryListEmpty(lists, i + 1);
        return;
      }
    }
    assert lists[..|lists|] == lists;
  }

  /** The documents of all lists are among those of the first `i`. */
  lemma EveryListPrefix(lists: seq<seq<Posting>>, i: nat)
    requires 0 < i <= |lists|
    ensures SearcherQueries.EveryList(lists) <= SearcherQueries.EveryList(lists[..i])
  {
    forall d | d in SearcherQueries.EveryList(lists) ensures d in SearcherQueries.EveryList(lists[..i]) {
      SearcherQueries.EveryListSpec(lists, d);
      SearcherQueries.EveryListSpec(lists[..i], d);
      assert forall k :: 0 <= k < i ==> lists[..i][k] == lists[k];
    }
  }

  /** Once the documents of the first lists have nothing in common, the
      documents of all of them have not either: the early exit loses
      nothing. */
  lemma EveryListEmpty(lists: seq<seq<Posting>>, i: nat)
    requires 0 < i <= |lists| && SearcherQueries.EveryList(lists[..i]) == {}
    ensures SearcherQueries.EveryList(lists) == {}
  {
    EveryListPrefix(lists, i);
  }

  /** The fielded BM25 that each term's first posting of `d` adds. */
  function AndBm25(cat: Catalog, ts: seq<QueryTerm>, lists: seq<seq<Posting>>, d: uint32, bm25: Scorer): real
    requires |lists| == |ts|
  {
    if ts == [] then 0.0
    else
      var n := |ts| - 1;
      AndBm25(cat, ts[..n], lists[..n], d, bm25)
      + match FirstPosting(lists[n], d)
        case Some(p) =>
          Bm25Fielded(cat.totalDocs, p.tf, DocLength(cat, d), ts[n].entry.docFreq, FieldOf(p, DocLength(cat, d)), bm25)
        case None => 0.0
  }

  /** The frequency in each term's first posting of `d`, keyed by term. */
  function AndTfs(ts: seq<QueryTerm>, lists: seq<seq<Posting>>, d: uint32): map<string, uint32>
    requires |lists| == |ts|
  {
    if ts == [] then map[]
    else
      var n := |ts| - 1;
      var tfs := AndTfs(ts[..n], lists[..n], d);
      match FirstPosting(lists[n], d)
      case Some(p) => tfs[ts[n].norm := p.tf]
      case None => tfs
  }

  /** A result before any term has added to it. */
  function Fresh(cat: Catalog, d: uint32, decay: nat -> real): SearchResult {
    SearchResult(d, OrigDocid(cat, d), 0.0, RecencyOf(cat, d, decay), 0.0, map[], TitleOf(cat, d), PubDateOf(cat, d))
  }

  function AndResult(cat: Catalog, ts: seq<QueryTerm>, lists: seq<seq<Posting>>, d: uint32,
                     bm25: Scorer, decay: nat -> real): SearchResult
    requires |lists| == |ts|
  {
    var score := AndBm25(cat, ts, lists, d, bm25);
    Fresh(cat, d, decay).(bm25 := score, final := FinalScore(score, RecencyOf(cat, d, decay)),
                          termFreqs := AndTfs(ts, lists, d))
  }

  function AndScores(cat: Catalog, ts: seq<QueryTerm>, lists: seq<seq<Posting>>, docs: set<uint32>,
                     bm25: Scorer, decay: nat -> real): map<uint32, SearchResult>
    requires |lists| == |ts|
  {
    map d | d in docs :: AndResult(cat, ts, lists, d, bm25, decay)
  }

  /** The scoring of one document: each term's first posting of it adds
      its fielded BM25 and its frequency; the final score comes last. */
  method ScoreDoc(cat: Catalog, ts: seq<QueryTerm>, lists: seq<seq<Posting>>, d: uint32,
                  bm25: Scorer, decay: nat -> real) returns (sr: SearchResult)
    requires |lists| == |ts|
    ensures sr == AndResult(cat, ts, lists, d, bm25, decay)
  {
    sr := Fresh(cat, d, decay);
    var docLen := DocLength(cat, d);
    for i := 0 to |ts|
      invariant sr == Fresh(cat, d, decay).(bm25 := AndBm25(cat, ts[..i], lists[..i], d, bm25),
                                            termFreqs := AndTfs(ts[..i], lists[..i], d))
    {
      assert ts[..i + 1][..i] == ts[..i] && lists[..i + 1][..i] == lists[..i];
      var first := FindFirst(lists[i], d);
      if first.Some? {
        var p := first.value;
        var field := if p.positions == [] then Body else GuessField(p.positions[0], docLen);
        sr := sr.(bm25 := sr.bm25 + Bm25Fielded(cat.totalDocs, p.tf, docLen, ts[i].entry.docFreq, field, bm25),
                  termFreqs := sr.termFreqs[ts[i].norm := p.tf]);
      }
    }
    assert ts[..|ts|] == ts && lists[..|lists|] == lists;
    sr := sr.(final := FinalScore(sr.bm25, sr.recency));
  }

  /** The loop over the intersection. */
  method ScoreAll(cat: Catalog, ts: seq<QueryTerm>, lists: seq<seq<Posting>>, docs: set<uint32>,
                  bm25: Scorer, decay: nat -> real) returns (scores: map<uint32, SearchResult>)
    requires |lists| == |ts|
    ensures scores == AndScores(cat, ts, lists, docs, bm25, decay)
  {
    scores := map[];
    var todo := docs;
    while todo != {}
      invariant todo <= docs && scores == AndScores(cat, ts, lists, docs - todo, bm25, decay)
      decreases |todo|
    {
      var d :| d in todo;
      var sr := ScoreDoc(cat, ts, lists, d, bm25, decay);
      scores := scores[d := sr];
      todo := todo - {d};
      assert scores == AndScores(cat, ts, lists, docs - todo, bm25, decay);
    }
  }

  /** The results of a map in traversal order, sorted by descending final
      score and cut to `top_k`. */
  ghost predicate RankedTop(scores: map<uint32, SearchResult>, topK: nat, results: seq<SearchResult>,
                            order: seq<uint32>, ranked: seq<SearchResult>)
  {
    Ranking.Listed(order, scores.Keys)
    && (forall k :: 0 <= k < |order| ==> order[k] in scores)
    && Ranking.Ranked(ranked, Ranking.ValuesAt(scores, order), FinalOf)
    && results == Ranking.Top(ranked, topK)
  }

  method RankScores(scores: map<uint32, SearchResult>, topK: nat)
    returns (results: seq<SearchResult>, ghost order: seq<uint32>, ghost ranked: seq<SearchResult>)
    ensures RankedTop(scores, topK, results, order, ranked)
  {
    var vs;
    vs, order := Ranking.ValuesOf(scores);
    var sorted := Ranking.SortByScore(vs, FinalOf);
    ranked := sorted;
    results := Ranking.Top(sorted, topK);
  }

  /** `search_query_and_ranked`: nothing unless every query term is known
      (and there is one); otherwise the terms by ascending document
      frequency, the documents of every term, each scored, sorted by final
      score and cut. */
  method SearchAndRanked(cat: Catalog, barrels: Barrels, terms: seq<string>, topK: nat,
                         bm25: Scorer, decay: nat -> real)
    returns (results: seq<SearchResult>, ghost ts: seq<QueryTerm>, ghost order: seq<uint32>,
             ghost ranked: seq<SearchResult>)
    requires InRange(cat) && barrels.Valid()
    modifies barrels
    ensures barrels.Valid()
    ensures terms == [] || !AllKnown(cat.lexicon, terms) ==> results == []
    ensures terms != [] && AllKnown(cat.lexicon, terms) ==>
              ByDocFreq(ts, Pairs(cat.lexicon, SearcherQueries.Norms(terms)))
              && (forall k :: 0 <= k < |ts| ==> ts[k].norm in cat.lexicon && ts[k].entry == cat.lexicon[ts[k].norm])
              && var lists := ListsOf(barrels.disk, Entries(ts));
                 RankedTop(AndScores(cat, ts, lists, SearcherQueries.EveryList(lists), bm25, decay),
                           topK, results, order, ranked)
  {
    var ns := FindTerms(cat.lexicon, terms);
    FoundAll(cat.lexicon, terms);
    if ns == [] || |ns| != |terms| {
      return [], [], [], [];
    }
    var sorted := SortByDocFreq(Pairs(cat.lexicon, ns));
    ByDocFreqSame(sorted, Pairs(cat.lexicon, ns));
    ts := sorted;
    forall k | 0 <= k < |sorted| ensures sorted[k].norm in cat.lexicon && sorted[k].entry == cat.lexicon[sorted[k].norm] {
      assert sorted[k] in Pairs(cat.lexicon, ns);
    }
    var lists := DecodeLists(barrels, Entries(sorted));
    var docs := IntersectEarly(lists);
    var scores := ScoreAll(cat, sorted, lists, docs, bm25, decay);
    results, order, ranked := RankScores(scores, topK);
  }

  /** Each result sits under its own docid. */
  predicate Keyed(scores: map<uint32, SearchResult>) {
    forall d :: d in scores ==> scores[d].docid == d
  }

  /** The generic part: the kept results are values of the map, in
      descending final score, and all of them when the map is small
      enough. */
  lemma RankedTopSpec(scores: map<uint32, SearchResult>, topK: nat, results: seq<SearchResult>,
                      order: seq<uint32>, ranked: seq<SearchResult>)
    requires Keyed(scores) && RankedTop(scores, topK, results, order, ranked)
    ensures |results| <= topK && Ranking.NonIncreasing(results, FinalOf)
    ensures forall r :: r in results ==> r.docid in scores && scores[r.docid] == r
    ensures |scores| <= topK ==> forall d :: d in scores ==> exists r :: r in results && r.docid == d
  {
    Ranking.TopSpec(ranked, topK, FinalOf);
    Ranking.TopOfValues(scores, order, ranked, topK, FinalOf);
    forall d | d in scores && |scores| <= topK
      ensures exists r :: r in results && r.docid == d
    {
      assert scores[d] in results;
    }
  }

  /** What the ranked conjunctive search returns: at most `top_k` results
      by descending final score, each a document of every term's list with
      the result its postings give it; all of them when there are no more
      than `top_k`. */
  lemma AndRankedSpec(cat: Catalog, ts: seq<QueryTerm>, lists: seq<seq<Posting>>, bm25: Scorer, decay: nat -> real,
                      topK: nat, results: seq<SearchResult>, order: seq<uint32>, ranked: seq<SearchResult>)
    requires lists != [] && |lists| == |ts|
    requires RankedTop(AndScores(cat, ts, lists, SearcherQueries.EveryList(lists), bm25, decay), topK, results, order, ranked)
    ensures |results| <= topK && Ranking.NonIncreasing(results, FinalOf)
    ensures forall r :: r in results ==>
              (forall i :: 0 <= i < |lists| ==> r.docid in DocSet(lists[i]))
              && r == AndResult(cat, ts, lists, r.docid, bm25, decay)
    ensures |SearcherQueries.EveryList(lists)| <= topK ==>
              forall d :: d in SearcherQueries.EveryList(lists) ==> exists r :: r in results && r.docid == d
  {
    var scores := AndScores(cat, ts, lists, SearcherQueries.EveryList(lists), bm25, decay);
    assert scores.Keys == SearcherQueries.EveryList(lists);
    RankedTopSpec(scores, topK, results, order, ranked);
    forall r | r in results
      ensures forall i :: 0 <= i < |lists| ==> r.docid in DocSet(lists[i])
    {
      SearcherQueries.EveryListSpec(lists, r.docid);
    }
  }

  /** Sorting the terms does not change which documents match: a document
      is in every sorted term's list exactly when it is in the list of every
      query term. */
  lemma AndOrderFree(cat: Catalog, disk: seq<Option<seq<byte>>>, terms: seq<string>, ts: seq<QueryTerm>, d: uint32)
    requires InRange(cat) && |disk| == NumBarrels && terms != [] && AllKnown(cat.lexicon, terms)
    requires ByDocFreq(ts, Pairs(cat.lexicon, SearcherQueries.Norms(terms)))
    requires forall k :: 0 <= k < |ts| ==> ts[k].norm in cat.lexicon && ts[k].entry == cat.lexicon[ts[k].norm]
    ensures d in SearcherQueries.EveryList(ListsOf(disk, Entries(ts)))
            <==> forall k :: 0 <= k < |terms| ==> d in DocSet(ListOf(disk, cat.lexicon[Lower(terms[k])]))
  {
    var pairs := Pairs(cat.lexicon, SearcherQueries.Norms(terms));
    ByDocFreqSame(ts, pairs);
    var lists := ListsOf(disk, Entries(ts));
    SearcherQueries.EveryListSpec(lists, d);
    if d in SearcherQueries.EveryList(lists) {
      forall k | 0 <= k < |terms| ensures d in DocSet(ListOf(disk, cat.lexicon[Lower(terms[k])])) {
        assert pairs[k] in ts;
        var j :| 0 <= j < |ts| && ts[j] == pairs[k];
        assert lists[j] == ListOf(disk, ts[j].entry);
      }
    } else {
      var j :| 0 <= j < |lists| && d !in DocSet(lists[j]);
      assert ts[j] in pairs;
      var k :| 0 <= k < |pairs| && pairs[k] == ts[j];
      assert ListOf(disk, cat.lexicon[Lower(terms[k])]) == lists[j];
    }
  }

  /** The terms of a result are those whose list holds the document. */
  lemma {:induction false} AndTfsKeys(ts: seq<QueryTerm>, lists: seq<seq<Posting>>, d: uint32, t: string)
    requires |lists| == |ts|
    ensures t in AndTfs(ts, lists, d) <==> exists i :: 0 <= i < |ts| && ts[i].norm == t && d in DocIds(lists[i])
  {
    if ts != [] {
      var n := |ts| - 1;
      AndTfsKeys(ts[..n], lists[..n], d, t);
      FirstPostingFound(lists[n], d);
      if t in AndTfs(ts[..n], lists[..n], d) {
        var i :| 0 <= i < n && ts[..n][i].norm == t && d in DocIds(lists[..n][i]);
        assert ts[i].norm == t && d in DocIds(lists[i]);
      }
      if exists i :: 0 <= i < |ts| && ts[i].norm == t && d in DocIds(lists[i]) {
        var i :| 0 <= i < |ts| && ts[i].norm == t && d in DocIds(lists[i]);
        if i < n {
          assert ts[..n][i].norm == t && d in DocIds(lists[..n][i]);
        }
      }
    }
  }

  /** The parts of a result: nine tenths of its BM25 plus its recency,
      which is 0 without metadata and 0.5 for a date without a year; its
      terms are those whose list holds it. */
  lemma AndResultParts(cat: Catalog, ts: seq<QueryTerm>, lists: seq<seq<Posting>>, d: uint32,
                       bm25: Scorer, decay: nat -> real)
    requires |lists| == |ts|
    ensures var r := AndResult(cat, ts, lists, d, bm25, decay);
            r.docid == d && r.origDocid == OrigDocid(cat, d)
            && r.final == 0.9 * r.bm25 + r.recency
            && (d !in cat.meta ==> r.recency == 0.0 && r.title == "" && r.pubDate == "")
            && (d in cat.meta && ExtractYear(cat.meta[d].pubDate) == 0 ==> r.recency == 0.5)
            && forall t :: t in r.termFreqs <==> exists i :: 0 <= i < |ts| && ts[i].norm == t && d in DocIds(lists[i])
  {
    var r := AndResult(cat, ts, lists, d, bm25, decay);
    FinalScoreSpec(r.bm25, r.recency, r.bm25);
    forall t ensures t in r.termFreqs <==> exists i :: 0 <= i < |ts| && ts[i].norm == t && d in DocIds(lists[i]) {
      AndTfsKeys(ts, lists, d, t);
    }
  }

  /** A document without a name gets `UNKNOWN_` and its number. */
  lemma OrigDocidSpec(cat: Catalog, d: uint32)
    ensures d in cat.names ==> OrigDocid(cat, d) == cat.names[d]
    ensures d !in cat.names ==>
              OrigDocid(cat, d)[..8] == "UNKNOWN_" && Decimal.Stoul(OrigDocid(cat, d)[8..]) == Some(d as nat)
  {
    if d !in cat.names {
      var s := OrigDocid(cat, d);
      assert s[8..] == Decimal.ToDecimal(d);
      Decimal.StoulOfDecimal(d, "");
      assert Decimal.ToDecimal(d) + "" == Decimal.ToDecimal(d);
    }
  }

  // ---------------------------------------------------------------------
  // search_phrase_ranked

  /** Each lower-cased phrase word's entry; none as soon as one is not in
      the lexicon. */
  method LookupPhrase(lexicon: map<string, LexEntry>, terms: seq<string>) returns (ns: Option<seq<string>>)
    ensures ns.None? <==> !AllKnown(lexicon, terms)
    ensures ns.Some? ==> ns.value == SearcherQueries.Norms(terms)
  {
    var norms: seq<string> := [];
    for i := 0 to |terms|
      invariant norms == SearcherQueries.Norms(terms[..i]) && AllKnown(lexicon, terms[..i])
    {
      var norm := Lower(terms[i]);
      if norm !in lexicon {
        return None;
      }
      norms := norms + [norm];
      assert terms[..i + 1] == terms[..i] + [terms[i]];
    }
    assert terms[..|terms|] == terms;
    return Some(norms);
  }

  /** Every later word `i` stands at `start + i`, the sum cast back to
      `uint32_t`, in the last posting of `d` in its list. */
  predicate StartsAt(maps: seq<map<uint32, Posting>>, d: uint32, start: uint32)
    requires BackendApiSearch.InAll(maps, d)
  {
    forall i :: 1 <= i < |maps| ==> Low32(start + i) in maps[i][d].positions
  }

  /** The first of `starts` the phrase stands at. */
  function FirstStartIn(maps: seq<map<uint32, Posting>>, d: uint32, starts: seq<uint32>): Option<uint32>
    requires BackendApiSearch.InAll(maps, d)
  {
    if starts == [] then None
    else if StartsAt(maps, d, starts[0]) then Some(starts[0])
    else FirstStartIn(maps, d, starts[1..])
  }

  /** The first position of the first word at which the phrase stands. */
  function PhraseStart(maps: seq<map<uint32, Posting>>, d: uint32): Option<uint32>
    requires 0 < |maps| && BackendApiSearch.InAll(maps, d)
  {
    FirstStartIn(maps, d, maps[0][d].positions)
  }

  lemma {:induction false} FirstStartInSpec(maps: seq<map<uint32, Posting>>, d: uint32, starts: seq<uint32>)
    requires BackendApiSearch.InAll(maps, d)
    ensures FirstStartIn(maps, d, starts).None? <==> forall k :: 0 <= k < |starts| ==> !StartsAt(maps, d, starts[k])
    ensures FirstStartIn(maps, d, starts).Some? ==>
              exists k :: 0 <= k < |starts| && starts[k] == FirstStartIn(maps, d, starts).value
                          && StartsAt(maps, d, starts[k]) && forall j :: 0 <= j < k ==> !StartsAt(maps, d, starts[j])
  {
    if starts != [] && !StartsAt(maps, d, starts[0]) {
      var tail := starts[1..];
      FirstStartInSpec(maps, d, tail);
      assert forall k :: 0 <= k < |tail| ==> tail[k] == starts[k + 1];
      if FirstStartIn(maps, d, tail).Some? {
        var k :| 0 <= k < |tail| && tail[k] == FirstStartIn(maps, d, tail).value
                 && StartsAt(maps, d, tail[k]) && forall j :: 0 <= j < k ==> !StartsAt(maps, d, tail[j]);
        assert starts[k + 1] == tail[k];
        assert forall j :: 0 <= j < k + 1 ==> !StartsAt(maps, d, starts[j]);
      } else {
        assert forall k :: 0 <= k < |starts| ==> !StartsAt(maps, d, starts[k]);
      }
    } else if starts != [] {
      assert starts[0] == FirstStartIn(maps, d, starts).value;
    }
  }

  /** The phrase stands somewhere in `d` exactly when some position of its
      first word starts it; the start kept is the first such position. */
  lemma PhraseStartSpec(maps: seq<map<uint32, Posting>>, d: uint32)
    requires 0 < |maps| && BackendApiSearch.InAll(maps, d)
    ensures PhraseStart(maps, d).Some? <==> exists p :: p in maps[0][d].positions && StartsAt(maps, d, p)
    ensures PhraseStart(maps, d).Some? ==>
              var ps := maps[0][d].positions;
              exists k :: 0 <= k < |ps| && ps[k] == PhraseStart(maps, d).value
                          && StartsAt(maps, d, ps[k]) && forall j :: 0 <= j < k ==> !StartsAt(maps, d, ps[j])
  {
    FirstStartInSpec(maps, d, maps[0][d].positions);
  }

  /** A phrase of one word stands in every document whose posting has a
      position, at its first position. */
  lemma PhraseOfOneWord(maps: seq<map<uint32, Posting>>, d: uint32)
    requires |maps| == 1 && BackendApiSearch.InAll(maps, d)
    ensures maps[0][d].positions != [] ==> PhraseStart(maps, d) == Some(maps[0][d].positions[0])
    ensures maps[0][d].positions == [] ==> PhraseStart(maps, d) == None
  {
    if maps[0][d].positions != [] {
      assert StartsAt(maps, d, maps[0][d].positions[0]);
    }
  }

  /** The loop over the later words for one start, leaving at the first
      that misses. */
  method MatchAt(maps: seq<map<uint32, Posting>>, d: uint32, start: uint32) returns (matched: bool)
    requires BackendApiSearch.InAll(maps, d)
    ensures matched == StartsAt(maps, d, start)
  {
    var i := 1;
    while i < |maps|
      invariant forall j :: 1 <= j < i && j < |maps| ==> Low32(start + j) in maps[j][d].positions
      decreases |maps| - i
    {
      var expected := Low32(start + i);
      var found := SearcherQueries.Contains(maps[i][d].positions, expected);
      if !found {
        return false;
      }
      i := i + 1;
    }
    return true;
  }

  /** The loop over the first word's positions, leaving at the first that
      starts the phrase. */
  method FindStart(maps: seq<map<uint32, Posting>>, d: uint32) returns (found: bool, position: uint32)
    requires 0 < |maps| && BackendApiSearch.InAll(maps, d)
    ensures found == PhraseStart(maps, d).Some? && (found ==> position == PhraseStart(maps, d).value)
  {
    var ps := maps[0][d].positions;
    var k := 0;
    while k < |ps|
      invariant k <= |ps| && PhraseStart(maps, d) == FirstStartIn(maps, d, ps[k..])
      decreases |ps| - k
    {
      var matched := MatchAt(maps, d, ps[k]);
      if matched {
        return true, ps[k];
      }
      assert ps[k..][1..] == ps[k + 1..];
      k := k + 1;
    }
    return false, 0;
  }

  /** The phrase score of a match at `start`: 100 times the boost of the
      field the start falls in. */
  function PhraseBm25(cat: Catalog, d: uint32, start: uint32): real {
    100.0 * FieldBoost(GuessField(start, DocLength(cat, d)))
  }

  /** The result of a phrase match, with the recency 0 when the document
      has no metadata, as the other two searches set it. */
  function PhraseResult(cat: Catalog, d: uint32, start: uint32, decay: nat -> real): SearchResult {
    var score := PhraseBm25(cat, d, start);
    Fresh(cat, d, decay).(bm25 := score, final := FinalScore(score, RecencyOf(cat, d, decay)))
  }

  /** The result as the code builds it: a document without metadata keeps
      whatever `recency_score` a default-initialised `SearchResult` holds,
      here `junk`. */
  function PhraseResultAsWritten(cat: Catalog, d: uint32, start: uint32, decay: nat -> real, junk: real): SearchResult {
    var score := PhraseBm25(cat, d, start);
    var recency := if d in cat.meta then RecencyOf(cat, d, decay) else junk;
    Fresh(cat, d, decay).(bm25 := score, recency := recency, final := FinalScore(score, recency))
  }

  /** Without metadata, the final score of a phrase match as written
      depends on the uninitialised value; with 0 in it the written result is
      the corrected one. */
  lemma PhraseRecencyUninitialised(cat: Catalog, d: uint32, start: uint32, decay: nat -> real)
    ensures d !in cat.meta ==>
              PhraseResultAsWritten(cat, d, start, decay, 0.0).final != PhraseResultAsWritten(cat, d, start, decay, 1.0).final
    ensures PhraseResultAsWritten(cat, d, start, decay, 0.0) == PhraseResult(cat, d, start, decay)
  {
  }

  /** A phrase match scores 300 in the title, 200 in the abstract and 100
      in the body, and its final score is nine tenths of that plus its
      recency, 0 without metadata. */
  lemma PhraseResultParts(cat: Catalog, d: uint32, start: uint32, decay: nat -> real)
    ensures var r := PhraseResult(cat, d, start, decay);
            var field := GuessField(start, DocLength(cat, d));
            r.docid == d && r.termFreqs == map[]
            && (field == Title ==> r.bm25 == 300.0) && (field == Abstract ==> r.bm25 == 200.0)
            && (field == Body ==> r.bm25 == 100.0)
            && r.final == 0.9 * r.bm25 + r.recency
            && (d !in cat.meta ==> r.recency == 0.0 && r.final == 0.9 * r.bm25)
  {
  }

  /** The documents the phrase stands in, among the candidates. */
  ghost function PhraseDocs(maps: seq<map<uint32, Posting>>): set<uint32>
    requires 0 < |maps|
  {
    set d | d in maps[0] && BackendApiSearch.InAll(maps, d) && PhraseStart(maps, d).Some?
  }

  /** The results of the documents of `order`, each at its first start. */
  predicate PhraseHits(cat: Catalog, maps: seq<map<uint32, Posting>>, order: seq<uint32>, decay: nat -> real,
                       hits: seq<SearchResult>)
    requires 0 < |maps|
  {
    |hits| == |order|
    && forall k :: 0 <= k < |order| ==>
         BackendApiSearch.InAll(maps, order[k]) && PhraseStart(maps, order[k]).Some?
         && hits[k] == PhraseResult(cat, order[k], PhraseStart(maps, order[k]).value, decay)
  }

  /** The walk over the candidates, adding a result for each the phrase
      stands in. */
  method PhraseWalk(cat: Catalog, maps: seq<map<uint32, Posting>>, cands: set<uint32>, decay: nat -> real)
    returns (hits: seq<SearchResult>, ghost order: seq<uint32>)
    requires 0 < |maps| && cands == BackendApiSearch.CandidatesUpTo(maps, |maps|)
    ensures Ranking.Listed(order, PhraseDocs(maps)) && PhraseHits(cat, maps, order, decay, hits)
  {
    ghost var keep := PhraseDocs(maps);
    assert forall d :: d in keep <==> d in cands && PhraseStart(maps, d).Some?;
    hits, order := [], [];
    var todo := cands;
    while todo != {}
      invariant todo <= cands && Ranking.Walking(keep, order, todo)
      invariant PhraseHits(cat, maps, order, decay, hits)
      decreases |todo|
    {
      var d :| d in todo;
      Ranking.WalkStep(keep, order, todo, d);
      var found, position := FindStart(maps, d);
      if found {
        hits := hits + [PhraseResult(cat, d, position, decay)];
        order := order + [d];
      }
      todo := todo - {d};
    }
    Ranking.WalkDone(keep, order);
  }

  /** `search_phrase_ranked`: nothing for an empty phrase or a word not in
      the lexicon; otherwise each candidate the phrase stands in, scored at
      its first start, sorted by final score and cut. */
  method SearchPhraseRanked(cat: Catalog, barrels: Barrels, terms: seq<string>, topK: nat, decay: nat -> real)
    returns (results: seq<SearchResult>, ghost order: seq<uint32>, ghost ranked: seq<SearchResult>)
    requires InRange(cat) && barrels.Valid()
    modifies barrels
    ensures barrels.Valid()
    ensures terms == [] || !AllKnown(cat.lexicon, terms) ==> results == []
    ensures terms != [] && AllKnown(cat.lexicon, terms) ==>
              var es := Entries(Pairs(cat.lexicon, SearcherQueries.Norms(terms)));
              var maps := BackendApiSearch.Maps(ListsOf(barrels.disk, es));
              exists hits :: PhraseHits(cat, maps, order, decay, hits)
                             && Ranking.Listed(order, PhraseDocs(maps))
                             && Ranking.Ranked(ranked, hits, FinalOf) && results == Ranking.Top(ranked, topK)
  {
    if terms == [] {
      return [], [], [];
    }
    var ns := LookupPhrase(cat.lexicon, terms);
    if ns.None? {
      return [], [], [];
    }
    var es := Entries(Pairs(cat.lexicon, ns.value));
    var lists := DecodeLists(barrels, es);
    var maps, cands := BackendApiSearch.MapsAndCandidates(lists);
    var hits;
    hits, order := PhraseWalk(cat, maps, cands, decay);
    var sorted := Ranking.SortByScore(hits, FinalOf);
    ranked := sorted;
    results := Ranking.Top(sorted, topK);
  }

  /** What the ranked phrase search returns: at most `top_k` results by
      descending final score, each a document of every word's list in
      which the phrase stands, scored at its first start; all of them when
      there are no more than `top_k`. */
  lemma PhraseRankedSpec(cat: Catalog, lists: seq<seq<Posting>>, decay: nat -> real, topK: nat,
                         hits: seq<SearchResult>, order: seq<uint32>, ranked: seq<SearchResult>, results: seq<SearchResult>)
    requires 0 < |lists|
    requires var maps := BackendApiSearch.Maps(lists);
             PhraseHits(cat, maps, order, decay, hits) && Ranking.Listed(order, PhraseDocs(maps))
             && Ranking.Ranked(ranked, hits, FinalOf) && results == Ranking.Top(ranked, topK)
    ensures |results| <= topK && Ranking.NonIncreasing(results, FinalOf)
    ensures var maps := BackendApiSearch.Maps(lists);
            forall r :: r in results ==>
              (forall i :: 0 <= i < |lists| ==> r.docid in DocIds(lists[i]))
              && BackendApiSearch.InAll(maps, r.docid) && PhraseStart(maps, r.docid).Some?
              && r == PhraseResult(cat, r.docid, PhraseStart(maps, r.docid).value, decay)
    ensures var maps := BackendApiSearch.Maps(lists);
            |PhraseDocs(maps)| <= topK ==> forall d :: d in PhraseDocs(maps) ==> exists r :: r in results && r.docid == d
  {
    var maps := BackendApiSearch.Maps(lists);
    Ranking.TopSpec(ranked, topK, FinalOf);
    Ranking.ListedSize(order, PhraseDocs(maps));
    assert |ranked| == |hits| by {
      assert |multiset(ranked)| == |multiset(hits)|;
    }
    forall r | r in results
      ensures (forall i :: 0 <= i < |lists| ==> r.docid in DocIds(lists[i]))
              && BackendApiSearch.InAll(maps, r.docid) && PhraseStart(maps, r.docid).Some?
              && r == PhraseResult(cat, r.docid, PhraseStart(maps, r.docid).value, decay)
    {
      assert r in multiset(ranked);
      assert r in multiset(hits);
      var k :| 0 <= k < |hits| && hits[k] == r;
      var d := order[k];
      assert r.docid == d;
      assert d in PhraseDocs(maps);
      BackendApiSearch.CandidatesSpec(lists, d);
    }
    if |PhraseDocs(maps)| <= topK {
      forall d | d in PhraseDocs(maps) ensures exists r :: r in results && r.docid == d {
        var k :| 0 <= k < |order| && order[k] == d;
        assert hits[k] in multiset(hits);
        assert hits[k] in multiset(ranked);
        assert hits[k] in results;
      }
    }
  }
}
