/** The ranked disjunctive query of backend/searcher.cpp
    (`search_query_ranked`): every document of a known term, credited with
    the fielded BM25 of each of its postings, given its final score, sorted
    and cut. */
module BackendSearcherOr {
  import opened Common
  import opened Postings
  import opened PostingLists
  import opened BackendSearcher
  import opened BackendSearcherQueries
  import Ranking
  import SearcherQueries

  /** The fielded BM25 of one posting of a term with document frequency
      `df`. */
  function PostingScore(cat: Catalog, df: uint32, p: Posting, bm25: Scorer): real {
    var len := DocLength(cat, p.docid);
    Bm25Fielded(cat.totalDocs, p.tf, len, df, FieldOf(p, len), bm25)
  }

  /** Every result is the fresh result of its docid with some BM25 and
      frequencies added, the final score not yet set. */
  predicate Shaped(cat: Catalog, decay: nat -> real, m: map<uint32, SearchResult>) {
    forall d :: d in m ==>
      m[d].docid == d && m[d].origDocid == OrigDocid(cat, d) && m[d].recency == RecencyOf(cat, d, decay)
      && m[d].final == 0.0 && m[d].title == TitleOf(cat, d) && m[d].pubDate == PubDateOf(cat, d)
  }

  /** One posting credited: the document's result is created if it is new,
      its BM25 grows by the posting's and the term's frequency is
      (re)recorded. */
  function Credit(cat: Catalog, decay: nat -> real, acc: map<uint32, SearchResult>, t: QueryTerm,
                  p: Posting, bm25: Scorer): map<uint32, SearchResult>
  {
    var sr := if p.docid in acc then acc[p.docid] else Fresh(cat, p.docid, decay);
    acc[p.docid := sr.(bm25 := sr.bm25 + PostingScore(cat, t.entry.docFreq, p, bm25),
                       termFreqs := sr.termFreqs[t.norm := p.tf])]
  }

  /** All postings of one term credited in list order. */
  function CreditList(cat: Catalog, decay: nat -> real, acc: map<uint32, SearchResult>, t: QueryTerm,
                      ps: seq<Posting>, bm25: Scorer): map<uint32, SearchResult>
  {
    if ps == [] then acc
    else
      var n := |ps| - 1;
      Credit(cat, decay, CreditList(cat, decay, acc, t, ps[..n], bm25), t, ps[n], bm25)
  }

  /** All terms credited in query order. */
  function OrScores(cat: Catalog, decay: nat -> real, ts: seq<QueryTerm>, lists: seq<seq<Posting>>, bm25: Scorer)
    : map<uint32, SearchResult>
    requires |lists| == |ts|
  {
    if ts == [] then map[]
    else
      var n := |ts| - 1;
      CreditList(cat, decay, OrScores(cat, decay, ts[..n], lists[..n], bm25), ts[n], lists[n], bm25)
  }

  /** The fielded BM25 of every posting of `d` in one list, summed. */
  function TermScore(cat: Catalog, df: uint32, ps: seq<Posting>, d: uint32, bm25: Scorer): real {
    if ps == [] then 0.0
    else
      var n := |ps| - 1;
      TermScore(cat, df, ps[..n], d, bm25) + (if ps[n].docid == d then PostingScore(cat, df, ps[n], bm25) else 0.0)
  }

  /** The BM25 of `d` over every posting of every list: the score of the
      disjunctive search, stated per document. */
  function DocScore(cat: Catalog, ts: seq<QueryTerm>, lists: seq<seq<Posting>>, d: uint32, bm25: Scorer): real
    requires |lists| == |ts|
  {
    if ts == [] then 0.0
    else
      var n := |ts| - 1;
      DocScore(cat, ts[..n], lists[..n], d, bm25) + TermScore(cat, ts[n].entry.docFreq, lists[n], d, bm25)
  }

  /** The terms whose list holds `d`. */
  function TermsOf(ts: seq<QueryTerm>, lists: seq<seq<Posting>>, d: uint32): set<string>
    requires |lists| == |ts|
  {
    if ts == [] then {}
    else
      var n := |ts| - 1;
      TermsOf(ts[..n], lists[..n], d) + (if d in DocSet(lists[n]) then {ts[n].norm} else {})
  }

  /** One posting credited: its document gains the posting's BM25 and the
      term, every other document is left as it was. */
  lemma CreditStep(cat: Catalog, decay: nat -> real, r: map<uint32, SearchResult>, t: QueryTerm, p: Posting, bm25: Scorer)
    requires Shaped(cat, decay, r)
    ensures var m := Credit(cat, decay, r, t, p, bm25);
            m.Keys == r.Keys + {p.docid} && Shaped(cat, decay, m)
            && (forall d :: d in r && d != p.docid ==> m[d] == r[d])
            && m[p.docid].bm25 == (if p.docid in r then r[p.docid].bm25 else 0.0) + PostingScore(cat, t.entry.docFreq, p, bm25)
            && m[p.docid].termFreqs.Keys == (if p.docid in r then r[p.docid].termFreqs.Keys else {}) + {t.norm}
  {
  }

  /** Crediting a list adds exactly its documents. */
  lemma {:induction false} CreditListDocs(cat: Catalog, decay: nat -> real, acc: map<uint32, SearchResult>, t: QueryTerm,
                                          ps: seq<Posting>, bm25: Scorer)
    ensures CreditList(cat, decay, acc, t, ps, bm25).Keys == acc.Keys + DocSet(ps)
  {
    if ps != [] {
      var n := |ps| - 1;
      CreditListDocs(cat, decay, acc, t, ps[..n], bm25);
      DocSetFront(ps);
    }
  }

  /** Crediting a list keeps every result's shape. */
  lemma {:induction false} CreditListKeys(cat: Catalog, decay: nat -> real, acc: map<uint32, SearchResult>, t: QueryTerm,
                                          ps: seq<Posting>, bm25: Scorer)
    requires Shaped(cat, decay, acc)
    ensures var m := CreditList(cat, decay, acc, t, ps, bm25);
            m.Keys == acc.Keys + DocSet(ps) && Shaped(cat, decay, m)
  {
    CreditListDocs(cat, decay, acc, t, ps, bm25);
    if ps != [] {
      var n := |ps| - 1;
      CreditListKeys(cat, decay, acc, t, ps[..n], bm25);
      CreditStep(cat, decay, CreditList(cat, decay, acc, t, ps[..n], bm25), t, ps[n], bm25);
    }
  }

  /** A document a list does not hold scores nothing from it. */
  lemma {:induction false} TermScoreAbsent(cat: Catalog, df: uint32, ps: seq<Posting>, d: uint32, bm25: Scorer)
    requires d !in DocSet(ps)
    ensures TermScore(cat, df, ps, d, bm25) == 0.0
  {
    if ps != [] {
      DocSetFront(ps);
      TermScoreAbsent(cat, df, ps[..|ps| - 1], d, bm25);
    }
  }

  /** Each document gains the list's BM25 sum for it. */
  lemma {:induction false} CreditListScore(cat: Catalog, decay: nat -> real, acc: map<uint32, SearchResult>, t: QueryTerm,
                                           ps: seq<Posting>, bm25: Scorer)
    requires Shaped(cat, decay, acc)
    ensures var m := CreditList(cat, decay, acc, t, ps, bm25);
            forall d :: d in m ==>
              m[d].bm25 == (if d in acc then acc[d].bm25 else 0.0) + TermScore(cat, t.entry.docFreq, ps, d, bm25)
  {
    if ps != [] {
      var n := |ps| - 1;
      var p := ps[n];
      CreditListScore(cat, decay, acc, t, ps[..n], bm25);
      CreditListKeys(cat, decay, acc, t, ps[..n], bm25);
      var r := CreditList(cat, decay, acc, t, ps[..n], bm25);
      var m := Credit(cat, decay, r, t, p, bm25);
      CreditStep(cat, decay, r, t, p, bm25);
      forall d | d in m
        ensures m[d].bm25 == (if d in acc then acc[d].bm25 else 0.0) + TermScore(cat, t.entry.docFreq, ps, d, bm25)
      {
        if d == p.docid && d !in r {
          TermScoreAbsent(cat, t.entry.docFreq, ps[..n], d, bm25);
        }
      }
    }
  }

  /** Each document the list holds gains the term among its frequencies. */
  lemma {:induction false} CreditListTerms(cat: Catalog, decay: nat -> real, acc: map<uint32, SearchResult>, t: QueryTerm,
                                           ps: seq<Posting>, bm25: Scorer)
    requires Shaped(cat, decay, acc)
    ensures var m := CreditList(cat, decay, acc, t, ps, bm25);
            forall d :: d in m ==>
              m[d].termFreqs.Keys == (if d in acc then acc[d].termFreqs.Keys else {})
                                     + (if d in DocSet(ps) then {t.norm} else {})
  {
    if ps != [] {
      var n := |ps| - 1;
      var p := ps[n];
      CreditListTerms(cat, decay, acc, t, ps[..n], bm25);
      CreditListKeys(cat, decay, acc, t, ps[..n], bm25);
      DocSetFront(ps);
      var r := CreditList(cat, decay, acc, t, ps[..n], bm25);
      var m := Credit(cat, decay, r, t, p, bm25);
      CreditStep(cat, decay, r, t, p, bm25);
      forall d | d in m
        ensures m[d].termFreqs.Keys == (if d in acc then acc[d].termFreqs.Keys else {})
                                       + (if d in DocSet(ps) then {t.norm} else {})
      {
        if d != p.docid {
          assert m[d] == r[d];
          assert d in DocSet(ps) <==> d in DocSet(ps[..n]);
        }
      }
    }
  }

  /** A document of no list scores nothing and matches no term. */
  lemma {:induction false} OrAbsent(cat: Catalog, ts: seq<QueryTerm>, lists: seq<seq<Posting>>, d: uint32, bm25: Scorer)
    requires |lists| == |ts| && d !in SearcherQueries.AnyList(lists)
    ensures DocScore(cat, ts, lists, d, bm25) == 0.0 && TermsOf(ts, lists, d) == {}
  {
    if ts != [] {
      var n := |ts| - 1;
      OrAbsent(cat, ts[..n], lists[..n], d, bm25);
      TermScoreAbsent(cat, ts[n].entry.docFreq, lists[n], d, bm25);
    }
  }

  /** The accumulated map holds exactly the documents of some list, each
      with its name, title, date and recency, scored by the sum over all
      its postings, and with the terms whose list holds it. */
  lemma {:induction false} OrScoresSpec(cat: Catalog, decay: nat -> real, ts: seq<QueryTerm>, lists: seq<seq<Posting>>,
                                        bm25: Scorer)
    requires |lists| == |ts|
    ensures var m := OrScores(cat, decay, ts, lists, bm25);
            m.Keys == SearcherQueries.AnyList(lists) && Shaped(cat, decay, m)
            && forall d :: d in m ==>
                 m[d].bm25 == DocScore(cat, ts, lists, d, bm25) && m[d].termFreqs.Keys == TermsOf(ts, lists, d)
  {
    if ts != [] {
      var n := |ts| - 1;
      OrScoresSpec(cat, decay, ts[..n], lists[..n], bm25);
      var r := OrScores(cat, decay, ts[..n], lists[..n], bm25);
      CreditListKeys(cat, decay, r, ts[n], lists[n], bm25);
      CreditListScore(cat, decay, r, ts[n], lists[n], bm25);
      CreditListTerms(cat, decay, r, ts[n], lists[n], bm25);
      forall d | d !in r
        ensures DocScore(cat, ts[..n], lists[..n], d, bm25) == 0.0 && TermsOf(ts[..n], lists[..n], d) == {}
      {
        OrAbsent(cat, ts[..n], lists[..n], d, bm25);
      }
    }
  }

  /** The scoring loop over one term's postings. */
  method CreditPostings(cat: Catalog, decay: nat -> real, acc0: map<uint32, SearchResult>, t: QueryTerm,
                        ps: seq<Posting>, bm25: Scorer) returns (acc: map<uint32, SearchResult>)
    ensures acc == CreditList(cat, decay, acc0, t, ps, bm25)
  {
    acc := acc0;
    for j := 0 to |ps|
      invariant acc == CreditList(cat, decay, acc0, t, ps[..j], bm25)
    {
      assert ps[..j + 1][..j] == ps[..j];
      ghost var prev := acc;
      var d := ps[j].docid;
      var docLen := DocLength(cat, d);
      var field := if ps[j].positions == [] then Body else GuessField(ps[j].positions[0], docLen);
      var score := Bm25Fielded(cat.totalDocs, ps[j].tf, docLen, t.entry.docFreq, field, bm25);
      if d !in acc {
        acc := acc[d := Fresh(cat, d, decay)];
      }
      var sr := acc[d];
      acc := acc[d := sr.(bm25 := sr.bm25 + score, termFreqs := sr.termFreqs[t.norm := ps[j].tf])];
      assert acc == Credit(cat, decay, prev, t, ps[j], bm25);
    }
    assert ps[..|ps|] == ps;
  }

  /** The scoring loop over the terms. */
  method Accumulate(cat: Catalog, decay: nat -> real, ts: seq<QueryTerm>, lists: seq<seq<Posting>>, bm25: Scorer)
    returns (scores: map<uint32, SearchResult>)
    requires |lists| == |ts|
    ensures scores == OrScores(cat, decay, ts, lists, bm25)
  {
    scores := map[];
    for i := 0 to |ts|
      invariant scores == OrScores(cat, decay, ts[..i], lists[..i], bm25)
    {
      assert ts[..i + 1][..i] == ts[..i] && lists[..i + 1][..i] == lists[..i];
      scores := CreditPostings(cat, decay, scores, ts[i], lists[i], bm25);
    }
    assert ts[..|ts|] == ts && lists[..|lists|] == lists;
  }

  /** Every result with its final score set. */
  function Finalized(m: map<uint32, SearchResult>): map<uint32, SearchResult> {
    map d | d in m :: m[d].(final := FinalScore(m[d].bm25, m[d].recency))
  }

  /** The loop over the map setting each result's final score in place. */
  method Finalize(m: map<uint32, SearchResult>) returns (scores: map<uint32, SearchResult>)
    ensures scores == Finalized(m)
  {
    scores := m;
    var todo := m.Keys;
    while todo != {}
      invariant todo <= m.Keys && scores.Keys == m.Keys
      invariant forall d :: d in m ==> scores[d] == if d in todo then m[d] else Finalized(m)[d]
      decreases |todo|
    {
      var d :| d in todo;
      var sr := scores[d];
      scores := scores[d := sr.(final := FinalScore(sr.bm25, sr.recency))];
      todo := todo - {d};
    }
  }

  /** `search_query_ranked`: nothing when no term is known; otherwise every
      document of a known term, credited with each of its postings, given
      its final score, sorted and cut. */
  method SearchQueryRanked(cat: Catalog, barrels: Barrels, terms: seq<string>, topK: nat,
                           bm25: Scorer, decay: nat -> real)
    returns (results: seq<SearchResult>, ghost order: seq<uint32>, ghost ranked: seq<SearchResult>)
    requires InRange(cat) && barrels.Valid()
    modifies barrels
    ensures barrels.Valid()
    ensures Found(cat.lexicon, terms) == [] ==> results == []
    ensures Found(cat.lexicon, terms) != [] ==>
              var ts := Pairs(cat.lexicon, Found(cat.lexicon, terms));
              var lists := ListsOf(barrels.disk, Entries(ts));
              RankedTop(Finalized(OrScores(cat, decay, ts, lists, bm25)), topK, results, order, ranked)
  {
    var ns := FindTerms(cat.lexicon, terms);
    if ns == [] {
      return [], [], [];
    }
    var ts := Pairs(cat.lexicon, ns);
    var lists := DecodeLists(barrels, Entries(ts));
    var acc := Accumulate(cat, decay, ts, lists, bm25);
    var scores := Finalize(acc);
    results, order, ranked := RankScores(scores, topK);
  }

  /** The finalised map: the documents of some list, each with its name,
      title and recency, the BM25 of all its postings, nine tenths of which
      plus the recency make its final score, and the terms whose list holds
      it. */
  lemma FinalizedSpec(cat: Catalog, decay: nat -> real, ts: seq<QueryTerm>, lists: seq<seq<Posting>>, bm25: Scorer)
    requires |lists| == |ts|
    ensures var m := Finalized(OrScores(cat, decay, ts, lists, bm25));
            m.Keys == SearcherQueries.AnyList(lists) && Keyed(m)
            && forall d :: d in m ==>
                 m[d].bm25 == DocScore(cat, ts, lists, d, bm25) && m[d].termFreqs.Keys == TermsOf(ts, lists, d)
                 && m[d].recency == RecencyOf(cat, d, decay) && m[d].final == 0.9 * m[d].bm25 + m[d].recency
                 && m[d].origDocid == OrigDocid(cat, d) && m[d].title == TitleOf(cat, d)
  {
    var acc := OrScores(cat, decay, ts, lists, bm25);
    OrScoresSpec(cat, decay, ts, lists, bm25);
    forall d | d in acc ensures FinalScore(acc[d].bm25, acc[d].recency) == 0.9 * acc[d].bm25 + acc[d].recency {
      FinalScoreSpec(acc[d].bm25, acc[d].recency, acc[d].bm25);
    }
  }

  /** What the ranked disjunctive search returns: at most `top_k` results
      by descending final score, each a document of some known term with
      the fielded BM25 of all its postings, nine tenths of which plus its
      recency make its final score, and the terms whose list holds it; all
      of them when there are no more than `top_k`. */
  lemma OrRankedSpec(cat: Catalog, decay: nat -> real, ts: seq<QueryTerm>, lists: seq<seq<Posting>>, bm25: Scorer,
                     topK: nat, results: seq<SearchResult>, order: seq<uint32>, ranked: seq<SearchResult>)
    requires |lists| == |ts|
    requires RankedTop(Finalized(OrScores(cat, decay, ts, lists, bm25)), topK, results, order, ranked)
    ensures |results| <= topK && Ranking.NonIncreasing(results, FinalOf)
    ensures forall r :: r in results ==>
              r.docid in SearcherQueries.AnyList(lists) && r.bm25 == DocScore(cat, ts, lists, r.docid, bm25)
              && r.termFreqs.Keys == TermsOf(ts, lists, r.docid)
              && r.recency == RecencyOf(cat, r.docid, decay) && r.final == 0.9 * r.bm25 + r.recency
              && r.origDocid == OrigDocid(cat, r.docid) && r.title == TitleOf(cat, r.docid)
    ensures |SearcherQueries.AnyList(lists)| <= topK ==>
              forall d :: d in SearcherQueries.AnyList(lists) ==> exists r :: r in results && r.docid == d
  {
    FinalizedSpec(cat, decay, ts, lists, bm25);
    RankedTopSpec(Finalized(OrScores(cat, decay, ts, lists, bm25)), topK, results, order, ranked);
  }
}
