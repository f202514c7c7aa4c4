/** The three searches of `searcher.cpp`: the disjunctive BM25 query
    (`search_query`), the conjunctive one (`search_query_and`) and the
    exact phrase (`search_phrase`), over the index that the loaders leave
    in memory. The BM25 formula is a parameter: its floating-point value
    is not modelled, only where and how often it is added. */
module SearcherQueries {
  import opened Common
  import opened Postings
  import opened PostingLists
  import Searcher
  import Ranking

  /** The fields of `DocMetadata` that the searches read. */
  datatype DocMeta = DocMeta(docLength: uint32, title: string)

  /** The loaded index: `lexicon`, `postings_data`, `int_to_docid` and
      `doc_metadata`. */
  datatype Index = Index(lexicon: map<string, Searcher.LexEntry>, data: seq<byte>,
                         names: map<uint32, string>, meta: map<uint32, DocMeta>)

  /** Every term's list can be decoded without running off the buffer. */
  predicate Consistent(ix: Index) {
    forall t :: t in ix.lexicon ==> Searcher.Decodable(ix.data, ix.lexicon[t])
  }

  /** `compute_bm25(tf, doc_len, df)` */
  type Scorer = (uint32, uint32, uint32) -> real

  datatype SearchResult = SearchResult(docid: uint32, origDocid: string, score: real,
                                       termFreqs: map<string, uint32>, title: string)

  function ScoreOf(r: SearchResult): real { r.score }

  /** `int_to_docid[docid]`: the `operator[]` of a missing key yields "". */
  function NameOf(ix: Index, d: uint32): string {
    if d in ix.names then ix.names[d] else ""
  }

  function TitleOf(ix: Index, d: uint32): string {
    if d in ix.meta then ix.meta[d].title else ""
  }

  /** The document length, 1000 for a document without metadata. */
  function DocLen(ix: Index, d: uint32): uint32 {
    if d in ix.meta then ix.meta[d].docLength else 1000
  }

  /** A result before any term has added to its score. */
  function Fresh(ix: Index, d: uint32): SearchResult {
    SearchResult(d, NameOf(ix, d), 0.0, map[], TitleOf(ix, d))
  }

  /** Every result sits under its own docid, with its name and title. */
  predicate Shaped(ix: Index, m: map<uint32, SearchResult>) {
    forall d :: d in m ==> m[d].docid == d && m[d].origDocid == NameOf(ix, d) && m[d].title == TitleOf(ix, d)
  }

  // ---------------------------------------------------------------------
  // The query terms and their lists

  function Norms(terms: seq<string>): (ns: seq<string>)
    ensures |ns| == |terms| && forall i :: 0 <= i < |terms| ==> ns[i] == Lower(terms[i])
  {
    seq(|terms|, i requires 0 <= i < |terms| => Lower(terms[i]))
  }

  /** The lower-cased query terms that the lexicon knows, in query order;
      the others are dropped with a warning. */
  function Found(ix: Index, terms: seq<string>): (ns: seq<string>)
    ensures |ns| <= |terms|
    ensures forall k :: 0 <= k < |ns| ==> ns[k] in ix.lexicon
  {
    if terms == [] then []
    else
      var ns := Found(ix, terms[..|terms| - 1]);
      var n := Lower(terms[|terms| - 1]);
      if n in ix.lexicon then ns + [n] else ns
  }

  predicate AllKnown(ix: Index, terms: seq<string>) {
    forall i :: 0 <= i < |terms| ==> Lower(terms[i]) in ix.lexicon
  }

  /** A term is kept exactly when it is some query term lower-cased and
      the lexicon has it. */
  lemma {:induction false} FoundMembers(ix: Index, terms: seq<string>, t: string)
    ensures t in Found(ix, terms) <==> t in ix.lexicon && exists i :: 0 <= i < |terms| && Lower(terms[i]) == t
  {
    if terms != [] {
      var n := |terms| - 1;
      var front := terms[..n];
      FoundMembers(ix, front, t);
      if t in ix.lexicon && exists i :: 0 <= i < |terms| && Lower(terms[i]) == t {
        var i :| 0 <= i < |terms| && Lower(terms[i]) == t;
        if i < n {
          assert Lower(front[i]) == t;
        }
      }
      if t in Found(ix, front) {
        var i :| 0 <= i < n && Lower(front[i]) == t;
        assert Lower(terms[i]) == t;
      }
    }
  }

  /** All terms are kept exactly when the lexicon knows them all, and then
      they are the lower-cased query in order. */
  lemma {:induction false} FoundAll(ix: Index, terms: seq<string>)
    ensures |Found(ix, terms)| == |terms| <==> AllKnown(ix, terms)
    ensures AllKnown(ix, terms) ==> Found(ix, terms) == Norms(terms)
  {
    if terms != [] {
      var n := |terms| - 1;
      var front := terms[..n];
      FoundAll(ix, front);
      assert forall i :: 0 <= i < n ==> front[i] == terms[i];
      if AllKnown(ix, terms) {
        assert AllKnown(ix, front);
        assert Norms(terms) == Norms(front) + [Lower(terms[n])];
      }
    }
  }

  /** The first loop: each term lower-cased and looked up. */
  method FindTerms(ix: Index, terms: seq<string>) returns (ns: seq<string>)
    ensures ns == Found(ix, terms)
  {
    ns := [];
    for i := 0 to |terms|
      invariant ns == Found(ix, terms[..i])
    {
      assert terms[..i + 1][..i] == terms[..i];
      var norm := Lower(terms[i]);
      if norm in ix.lexicon {
        ns := ns + [norm];
      }
    }
    assert terms[..|terms|] == terms;
  }

  /** The decoded list of each kept term. */
  function ListsOf(ix: Index, ns: seq<string>): (lists: seq<seq<Posting>>)
    requires forall k :: 0 <= k < |ns| ==> ns[k] in ix.lexicon
    ensures |lists| == |ns|
  {
    seq(|ns|, i requires 0 <= i < |ns| => Searcher.Decoded(ix.data, ix.lexicon[ns[i]]))
  }

  /** The loop calling `decode_postings_list` on each entry. */
  method DecodeAll(ix: Index, ns: seq<string>) returns (lists: seq<seq<Posting>>)
    requires Consistent(ix) && forall k :: 0 <= k < |ns| ==> ns[k] in ix.lexicon
    ensures lists == ListsOf(ix, ns)
  {
    lists := [];
    for i := 0 to |ns|
      invariant |lists| == i && forall k :: 0 <= k < i ==> lists[k] == ListsOf(ix, ns)[k]
    {
      var ps := Searcher.DecodePostingsList(ix.data, ix.lexicon[ns[i]]);
      lists := lists + [ps];
    }
  }

  /** The documents of some list. */
  function AnyList(lists: seq<seq<Posting>>): set<uint32> {
    if lists == [] then {} else AnyList(lists[..|lists| - 1]) + DocSet(lists[|lists| - 1])
  }

  lemma {:induction false} AnyListSpec(lists: seq<seq<Posting>>, d: uint32)
    ensures d in AnyList(lists) <==> exists i :: 0 <= i < |lists| && d in DocSet(lists[i])
  {
    if lists != [] {
      var n := |lists| - 1;
      AnyListSpec(lists[..n], d);
      assert forall i :: 0 <= i < n ==> lists[..n][i] == lists[i];
    }
  }

  // ---------------------------------------------------------------------
  // search_query: every document of any term, scored by the sum of BM25

  /** One posting credited: the document's result is created if it is new,
      its score grows by the posting's BM25 and the term's frequency is
      (re)recorded. */
  function Credit(ix: Index, acc: map<uint32, SearchResult>, term: string, df: uint32,
                  p: Posting, bm25: Scorer): map<uint32, SearchResult>
  {
    var sr := if p.docid in acc then acc[p.docid] else Fresh(ix, p.docid);
    acc[p.docid := sr.(score := sr.score + bm25(p.tf, DocLen(ix, p.docid), df),
                       termFreqs := sr.termFreqs[term := p.tf])]
  }

  /** All postings of one term credited in list order. */
  function CreditList(ix: Index, acc: map<uint32, SearchResult>, term: string, df: uint32,
                      ps: seq<Posting>, bm25: Scorer): map<uint32, SearchResult>
  {
    if ps == [] then acc
    else
      var n := |ps| - 1;
      Credit(ix, CreditList(ix, acc, term, df, ps[..n], bm25), term, df, ps[n], bm25)
  }

  /** All terms credited in query order. */
  function OrScores(ix: Index, ns: seq<string>, lists: seq<seq<Posting>>, bm25: Scorer): map<uint32, SearchResult>
    requires |lists| == |ns| && forall k :: 0 <= k < |ns| ==> ns[k] in ix.lexicon
  {
    if ns == [] then map[]
    else
      var n := |ns| - 1;
      CreditList(ix, OrScores(ix, ns[..n], lists[..n], bm25), ns[n], ix.lexicon[ns[n]].docFreq, lists[n], bm25)
  }

  /** The BM25 of every posting of `d` in one list, summed. */
  function TermScore(ix: Index, df: uint32, ps: seq<Posting>, d: uint32, bm25: Scorer): real {
    if ps == [] then 0.0
    else
      var n := |ps| - 1;
      TermScore(ix, df, ps[..n], d, bm25) + (if ps[n].docid == d then bm25(ps[n].tf, DocLen(ix, d), df) else 0.0)
  }

  /** The BM25 of every posting of `d` in every list, summed: the score of
      the disjunctive search, stated per document. */
  function DocScore(ix: Index, ns: seq<string>, lists: seq<seq<Posting>>, d: uint32, bm25: Scorer): real
    requires |lists| == |ns| && forall k :: 0 <= k < |ns| ==> ns[k] in ix.lexicon
  {
    if ns == [] then 0.0
    else
      var n := |ns| - 1;
      DocScore(ix, ns[..n], lists[..n], d, bm25) + TermScore(ix, ix.lexicon[ns[n]].docFreq, lists[n], d, bm25)
  }

  /** The terms whose list holds `d`. */
  function TermsOf(ns: seq<string>, lists: seq<seq<Posting>>, d: uint32): set<string>
    requires |lists| == |ns|
  {
    if ns == [] then {}
    else
      var n := |ns| - 1;
      TermsOf(ns[..n], lists[..n], d) + (if d in DocSet(lists[n]) then {ns[n]} else {})
  }

  /** Crediting a list adds exactly its documents, each under its own
      docid with its name and title. */
  lemma {:induction false} CreditListKeys(ix: Index, acc: map<uint32, SearchResult>, term: string, df: uint32,
                                          ps: seq<Posting>, bm25: Scorer)
    requires Shaped(ix, acc)
    ensures var m := CreditList(ix, acc, term, df, ps, bm25);
            m.Keys == acc.Keys + DocSet(ps) && Shaped(ix, m)
  {
    if ps != [] {
      var n := |ps| - 1;
      CreditListKeys(ix, acc, term, df, ps[..n], bm25);
      DocSetFront(ps);
      var r := CreditList(ix, acc, term, df, ps[..n], bm25);
      CreditStep(ix, r, term, df, ps[n], bm25);
      assert CreditList(ix, acc, term, df, ps, bm25) == Credit(ix, r, term, df, ps[n], bm25);
    }
  }

  /** Each document gains the list's BM25 sum for it. */
  lemma {:induction false} CreditListScore(ix: Index, acc: map<uint32, SearchResult>, term: string, df: uint32,
                                           ps: seq<Posting>, bm25: Scorer)
    requires Shaped(ix, acc)
    ensures var m := CreditList(ix, acc, term, df, ps, bm25);
            forall d :: d in m ==>
              m[d].score == (if d in acc then acc[d].score else 0.0) + TermScore(ix, df, ps, d, bm25)
  {
    if ps != [] {
      var n := |ps| - 1;
      var p := ps[n];
      CreditListScore(ix, acc, term, df, ps[..n], bm25);
      CreditListKeys(ix, acc, term, df, ps[..n], bm25);
      var r := CreditList(ix, acc, term, df, ps[..n], bm25);
      var m := Credit(ix, r, term, df, p, bm25);
      CreditStep(ix, r, term, df, p, bm25);
      forall d | d in m
        ensures m[d].score == (if d in acc then acc[d].score else 0.0) + TermScore(ix, df, ps, d, bm25)
      {
        if d == p.docid && d !in r {
          TermScoreAbsent(ix, df, ps[..n], d, bm25);
        }
      }
    }
  }

  /** Each document the list holds gains the term among its frequencies. */
  lemma {:induction false} CreditListTerms(ix: Index, acc: map<uint32, SearchResult>, term: string, df: uint32,
                                           ps: seq<Posting>, bm25: Scorer)
    requires Shaped(ix, acc)
    ensures var m := CreditList(ix, acc, term, df, ps, bm25);
            forall d :: d in m ==>
              m[d].termFreqs.Keys == (if d in acc then acc[d].termFreqs.Keys else {})
                                     + (if d in DocSet(ps) then {term} else {})
  {
    if ps != [] {
      var n := |ps| - 1;
      var p := ps[n];
      CreditListTerms(ix, acc, term, df, ps[..n], bm25);
      CreditListKeys(ix, acc, term, df, ps[..n], bm25);
      DocSetFront(ps);
      var r := CreditList(ix, acc, term, df, ps[..n], bm25);
      var m := Credit(ix, r, term, df, p, bm25);
      CreditStep(ix, r, term, df, p, bm25);
      forall d | d in m
        ensures m[d].termFreqs.Keys == (if d in acc then acc[d].termFreqs.Keys else {})
                                       + (if d in DocSet(ps) then {term} else {})
      {
        if d != p.docid {
          assert m[d] == r[d];
          assert d in DocSet(ps) <==> d in DocSet(ps[..n]);
        }
      }
    }
  }

  /** One posting credited: its document gains the posting's BM25 and the
      term, every other document is left as it was. */
  lemma CreditStep(ix: Index, r: map<uint32, SearchResult>, term: string, df: uint32, p: Posting, bm25: Scorer)
    requires Shaped(ix, r)
    ensures var m := Credit(ix, r, term, df, p, bm25);
            m.Keys == r.Keys + {p.docid} && Shaped(ix, m)
            && (forall d :: d in r && d != p.docid ==> m[d] == r[d])
            && m[p.docid].score == (if p.docid in r then r[p.docid].score else 0.0) + bm25(p.tf, DocLen(ix, p.docid), df)
            && m[p.docid].termFreqs.Keys == (if p.docid in r then r[p.docid].termFreqs.Keys else {}) + {term}
  {
  }

  /** A document a list does not hold scores nothing from it. */
  lemma {:induction false} TermScoreAbsent(ix: Index, df: uint32, ps: seq<Posting>, d: uint32, bm25: Scorer)
    requires d !in DocSet(ps)
    ensures TermScore(ix, df, ps, d, bm25) == 0.0
  {
    if ps != [] {
      DocSetFront(ps);
      TermScoreAbsent(ix, df, ps[..|ps| - 1], d, bm25);
    }
  }

  /** The accumulated map holds exactly the documents of some list, each
      under its own docid with its name and title, scored by the sum over
      all its postings, and with the terms whose list holds it. */
  lemma {:induction false} OrScoresSpec(ix: Index, ns: seq<string>, lists: seq<seq<Posting>>, bm25: Scorer)
    requires |lists| == |ns| && forall k :: 0 <= k < |ns| ==> ns[k] in ix.lexicon
    ensures var m := OrScores(ix, ns, lists, bm25);
            m.Keys == AnyList(lists) && Shaped(ix, m)
            && forall d :: d in m ==>
                 m[d].score == DocScore(ix, ns, lists, d, bm25) && m[d].termFreqs.Keys == TermsOf(ns, lists, d)
  {
    if ns != [] {
      var n := |ns| - 1;
      OrScoresSpec(ix, ns[..n], lists[..n], bm25);
      var r := OrScores(ix, ns[..n], lists[..n], bm25);
      var df := ix.lexicon[ns[n]].docFreq;
      CreditListKeys(ix, r, ns[n], df, lists[n], bm25);
      CreditListScore(ix, r, ns[n], df, lists[n], bm25);
      CreditListTerms(ix, r, ns[n], df, lists[n], bm25);
      forall d | d !in r
        ensures DocScore(ix, ns[..n], lists[..n], d, bm25) == 0.0 && TermsOf(ns[..n], lists[..n], d) == {}
      {
        OrAbsent(ix, ns[..n], lists[..n], d, bm25);
      }
    }
  }

  /** A document of no list scores nothing and matches no term. */
  lemma {:induction false} OrAbsent(ix: Index, ns: seq<string>, lists: seq<seq<Posting>>, d: uint32, bm25: Scorer)
    requires |lists| == |ns| && forall k :: 0 <= k < |ns| ==> ns[k] in ix.lexicon
    requires d !in AnyList(lists)
    ensures DocScore(ix, ns, lists, d, bm25) == 0.0 && TermsOf(ns, lists, d) == {}
  {
    if ns != [] {
      var n := |ns| - 1;
      OrAbsent(ix, ns[..n], lists[..n], d, bm25);
      TermScoreAbsent(ix, ix.lexicon[ns[n]].docFreq, lists[n], d, bm25);
    }
  }

  /** The scoring loop over one term's postings: create the result of a
      new document, then add the BM25 and record the frequency. */
  method CreditPostings(ix: Index, acc0: map<uint32, SearchResult>, term: string, df: uint32,
                        ps: seq<Posting>, bm25: Scorer) returns (acc: map<uint32, SearchResult>)
    ensures acc == CreditList(ix, acc0, term, df, ps, bm25)
  {
    acc := acc0;
    for j := 0 to |ps|
      invariant acc == CreditList(ix, acc0, term, df, ps[..j], bm25)
    {
      assert ps[..j + 1][..j] == ps[..j];
      var d := ps[j].docid;
      if d !in acc {
        acc := acc[d := Fresh(ix, d)];
      }
      var sr := acc[d];
      acc := acc[d := sr.(score := sr.score + bm25(ps[j].tf, DocLen(ix, d), df),
                          termFreqs := sr.termFreqs[term := ps[j].tf])];
    }
    assert ps[..|ps|] == ps;
  }

  /** The scoring loop over the terms. */
  method Accumulate(ix: Index, ns: seq<string>, lists: seq<seq<Posting>>, bm25: Scorer)
    returns (scores: map<uint32, SearchResult>)
    requires |lists| == |ns| && forall k :: 0 <= k < |ns| ==> ns[k] in ix.lexicon
    ensures scores == OrScores(ix, ns, lists, bm25)
  {
    scores := map[];
    for i := 0 to |ns|
      invariant scores == OrScores(ix, ns[..i], lists[..i], bm25)
    {
      assert ns[..i + 1][..i] == ns[..i] && lists[..i + 1][..i] == lists[..i];
      scores := CreditPostings(ix, scores, ns[i], ix.lexicon[ns[i]].docFreq, lists[i], bm25);
    }
    assert ns[..|ns|] == ns && lists[..|lists|] == lists;
  }

  /** The results of a map in traversal order, sorted by descending score
      and cut to `top_k`. */
  ghost predicate RankedTop(scores: map<uint32, SearchResult>, topK: nat, results: seq<SearchResult>,
                            order: seq<uint32>, ranked: seq<SearchResult>)
  {
    Ranking.Listed(order, scores.Keys)
    && (forall k :: 0 <= k < |order| ==> order[k] in scores)
    && Ranking.Ranked(ranked, Ranking.ValuesAt(scores, order), ScoreOf)
    && results == Ranking.Top(ranked, topK)
  }

  /** Copy the map's values out, sort them and cut. */
  method RankScores(scores: map<uint32, SearchResult>, topK: nat)
    returns (results: seq<SearchResult>, ghost order: seq<uint32>, ghost ranked: seq<SearchResult>)
    ensures RankedTop(scores, topK, results, order, ranked)
  {
    var vs;
    vs, order := Ranking.ValuesOf(scores);
    var sorted := Ranking.SortByScore(vs, ScoreOf);
    ranked := sorted;
    results := Ranking.Top(sorted, topK);
  }

  /** `search_query`: no result when no term is known; otherwise every
      document of a known term, credited with each of its postings, sorted
      and cut. */
  method SearchQuery(ix: Index, terms: seq<string>, topK: nat, bm25: Scorer)
    returns (results: seq<SearchResult>, ghost order: seq<uint32>, ghost ranked: seq<SearchResult>)
    requires Consistent(ix)
    ensures Found(ix, terms) == [] ==> results == []
    ensures Found(ix, terms) != [] ==>
              var ns := Found(ix, terms);
              RankedTop(OrScores(ix, ns, ListsOf(ix, ns), bm25), topK, results, order, ranked)
  {
    var ns := FindTerms(ix, terms);
    if ns == [] {
      return [], [], [];
    }
    var lists := DecodeAll(ix, ns);
    var scores := Accumulate(ix, ns, lists, bm25);
    results, order, ranked := RankScores(scores, topK);
  }

  /** What the disjunctive search returns: at most `top_k` results in
      descending score, each a document of some known term scored by the
      BM25 of all its postings, with its name, title and matching terms;
      and when there are no more than `top_k` such documents, all of them. */
  lemma OrResultsSpec(ix: Index, ns: seq<string>, lists: seq<seq<Posting>>, bm25: Scorer, topK: nat,
                      results: seq<SearchResult>, order: seq<uint32>, ranked: seq<SearchResult>)
    requires |lists| == |ns| && forall k :: 0 <= k < |ns| ==> ns[k] in ix.lexicon
    requires RankedTop(OrScores(ix, ns, lists, bm25), topK, results, order, ranked)
    ensures |results| <= topK && Ranking.NonIncreasing(results, ScoreOf)
    ensures forall r :: r in results ==>
              r.docid in AnyList(lists) && r.score == DocScore(ix, ns, lists, r.docid, bm25)
              && r.termFreqs.Keys == TermsOf(ns, lists, r.docid)
              && r.origDocid == NameOf(ix, r.docid) && r.title == TitleOf(ix, r.docid)
    ensures |AnyList(lists)| <= topK ==> forall d :: d in AnyList(lists) ==> exists r :: r in results && r.docid == d
  {
    var scores := OrScores(ix, ns, lists, bm25);
    OrScoresSpec(ix, ns, lists, bm25);
    RankedTopSpec(ix, scores, topK, results, order, ranked);
  }

  /** The generic part: the kept results are values of the map, in
      descending score, and all of them when the map is small enough. */
  lemma RankedTopSpec(ix: Index, scores: map<uint32, SearchResult>, topK: nat, results: seq<SearchResult>,
                      order: seq<uint32>, ranked: seq<SearchResult>)
    requires Shaped(ix, scores) && RankedTop(scores, topK, results, order, ranked)
    ensures |results| <= topK && Ranking.NonIncreasing(results, ScoreOf)
    ensures forall r :: r in results ==> r.docid in scores && scores[r.docid] == r
    ensures |scores| <= topK ==> forall d :: d in scores ==> exists r :: r in results && r.docid == d
  {
    Ranking.TopSpec(ranked, topK, ScoreOf);
    Ranking.TopOfValues(scores, order, ranked, topK, ScoreOf);
    forall d | d in scores && |scores| <= topK
      ensures exists r :: r in results && r.docid == d
    {
      assert scores[d] in results;
    }
  }

  // ---------------------------------------------------------------------
  // search_query_and: the documents of every term

  /** The documents every list holds, intersected from the first list's. */
  function EveryList(lists: seq<seq<Posting>>): set<uint32>
    requires lists != []
  {
    if |lists| == 1 then DocSet(lists[0])
    else EveryList(lists[..|lists| - 1]) * DocSet(lists[|lists| - 1])
  }

  lemma {:induction false} EveryListSpec(lists: seq<seq<Posting>>, d: uint32)
    requires lists != []
    ensures d in EveryList(lists) <==> forall i :: 0 <= i < |lists| ==> d in DocSet(lists[i])
  {
    if |lists| > 1 {
      var n := |lists| - 1;
      EveryListSpec(lists[..n], d);
      assert forall i :: 0 <= i < n ==> lists[..n][i] == lists[i];
    }
  }

  /** The intersection loop: each list's document set, then the running
      set narrowed to the documents of each list after the first. */
  method IntersectAll(lists: seq<seq<Posting>>) returns (docs: set<uint32>)
    requires lists != []
    ensures docs == EveryList(lists)
  {
    docs := DocSetOf(lists[0]);
    assert lists[..1] == [lists[0]];
    for i := 1 to |lists|
      invariant docs == EveryList(lists[..i])
    {
      var termDocs := DocSetOf(lists[i]);
      assert lists[..i + 1][..i] == lists[..i];
      docs := Ranking.Intersect(docs, termDocs);
    }
    assert lists[..|lists|] == lists;
  }

  /** The BM25 of the first posting of `d` in each list, summed. */
  function AndScore(ix: Index, ns: seq<string>, lists: seq<seq<Posting>>, d: uint32, bm25: Scorer): real
    requires |lists| == |ns| && forall k :: 0 <= k < |ns| ==> ns[k] in ix.lexicon
  {
    if ns == [] then 0.0
    else
      var n := |ns| - 1;
      AndScore(ix, ns[..n], lists[..n], d, bm25)
      + match FirstPosting(lists[n], d)
        case Some(p) => bm25(p.tf, DocLen(ix, d), ix.lexicon[ns[n]].docFreq)
        case None => 0.0
  }

  /** The frequency of `d` in the first posting of each list that holds it,
      keyed by term; a later term of the same spelling overwrites. */
  function AndTfs(ns: seq<string>, lists: seq<seq<Posting>>, d: uint32): map<string, uint32>
    requires |lists| == |ns|
  {
    if ns == [] then map[]
    else
      var n := |ns| - 1;
      var tfs := AndTfs(ns[..n], lists[..n], d);
      match FirstPosting(lists[n], d)
      case Some(p) => tfs[ns[n] := p.tf]
      case None => tfs
  }

  function AndResult(ix: Index, ns: seq<string>, lists: seq<seq<Posting>>, d: uint32, bm25: Scorer): SearchResult
    requires |lists| == |ns| && forall k :: 0 <= k < |ns| ==> ns[k] in ix.lexicon
  {
    SearchResult(d, NameOf(ix, d), AndScore(ix, ns, lists, d, bm25), AndTfs(ns, lists, d), TitleOf(ix, d))
  }

  /** The result of every document of `docs`. */
  function AndScores(ix: Index, ns: seq<string>, lists: seq<seq<Posting>>, docs: set<uint32>, bm25: Scorer)
    : map<uint32, SearchResult>
    requires |lists| == |ns| && forall k :: 0 <= k < |ns| ==> ns[k] in ix.lexicon
  {
    map d | d in docs :: AndResult(ix, ns, lists, d, bm25)
  }

  /** The scoring of one document: for each term, the first posting of the
      document (the loop with its `break`) adds its BM25 and frequency. */
  method ScoreDoc(ix: Index, ns: seq<string>, lists: seq<seq<Posting>>, d: uint32, bm25: Scorer)
    returns (sr: SearchResult)
    requires |lists| == |ns| && forall k :: 0 <= k < |ns| ==> ns[k] in ix.lexicon
    ensures sr == AndResult(ix, ns, lists, d, bm25)
  {
    sr := Fresh(ix, d);
    var docLen := DocLen(ix, d);
    for i := 0 to |ns|
      invariant sr == AndResult(ix, ns[..i], lists[..i], d, bm25)
    {
      assert ns[..i + 1][..i] == ns[..i] && lists[..i + 1][..i] == lists[..i];
      var first := FindFirst(lists[i], d);
      if first.Some? {
        var p := first.value;
        sr := sr.(score := sr.score + bm25(p.tf, docLen, ix.lexicon[ns[i]].docFreq),
                  termFreqs := sr.termFreqs[ns[i] := p.tf]);
      }
    }
    assert ns[..|ns|] == ns && lists[..|lists|] == lists;
  }

  /** The loop over the intersection, storing each document's result. */
  method ScoreAll(ix: Index, ns: seq<string>, lists: seq<seq<Posting>>, docs: set<uint32>, bm25: Scorer)
    returns (scores: map<uint32, SearchResult>)
    requires |lists| == |ns| && forall k :: 0 <= k < |ns| ==> ns[k] in ix.lexicon
    ensures scores == AndScores(ix, ns, lists, docs, bm25)
  {
    scores := map[];
    var todo := docs;
    while todo != {}
      invariant todo <= docs && scores == AndScores(ix, ns, lists, docs - todo, bm25)
      decreases |todo|
    {
      var d :| d in todo;
      var sr := ScoreDoc(ix, ns, lists, d, bm25);
      scores := scores[d := sr];
      todo := todo - {d};
      assert scores == AndScores(ix, ns, lists, docs - todo, bm25);
    }
  }

  /** `search_query_and`: no result unless every query term is known
      (and there is one); otherwise the documents of every term, scored
      by the first posting of each, sorted and cut. */
  method SearchAnd(ix: Index, terms: seq<string>, topK: nat, bm25: Scorer)
    returns (results: seq<SearchResult>, ghost order: seq<uint32>, ghost ranked: seq<SearchResult>)
    requires Consistent(ix)
    ensures terms == [] || !AllKnown(ix, terms) ==> results == []
    ensures terms != [] && AllKnown(ix, terms) ==>
              var ns := Norms(terms);
              var lists := ListsOf(ix, ns);
              RankedTop(AndScores(ix, ns, lists, EveryList(lists), bm25), topK, results, order, ranked)
  {
    var ns := FindTerms(ix, terms);
    FoundAll(ix, terms);
    if ns == [] || |ns| != |terms| {
      return [], [], [];
    }
    var lists := DecodeAll(ix, ns);
    var docs := IntersectAll(lists);
    var scores := ScoreAll(ix, ns, lists, docs, bm25);
    results, order, ranked := RankScores(scores, topK);
  }

  /** What the conjunctive search returns: at most `top_k` results in
      descending score, each a document of every term scored by its first
      posting in each list; all of them when there are no more than
      `top_k`. */
  lemma AndResultsSpec(ix: Index, ns: seq<string>, lists: seq<seq<Posting>>, bm25: Scorer, topK: nat,
                       results: seq<SearchResult>, order: seq<uint32>, ranked: seq<SearchResult>)
    requires lists != [] && |lists| == |ns| && forall k :: 0 <= k < |ns| ==> ns[k] in ix.lexicon
    requires RankedTop(AndScores(ix, ns, lists, EveryList(lists), bm25), topK, results, order, ranked)
    ensures |results| <= topK && Ranking.NonIncreasing(results, ScoreOf)
    ensures forall r :: r in results ==>
              (forall i :: 0 <= i < |lists| ==> r.docid in DocSet(lists[i]))
              && r == AndResult(ix, ns, lists, r.docid, bm25)
    ensures |EveryList(lists)| <= topK ==> forall d :: d in EveryList(lists) ==> exists r :: r in results && r.docid == d
  {
    var scores := AndScores(ix, ns, lists, EveryList(lists), bm25);
    assert scores.Keys == EveryList(lists);
    RankedTopSpec(ix, scores, topK, results, order, ranked);
    forall r | r in results
      ensures forall i :: 0 <= i < |lists| ==> r.docid in DocSet(lists[i])
    {
      EveryListSpec(lists, r.docid);
    }
  }

  /** On lists without a repeated document, as the index writes them, the
      conjunctive score of a document is its disjunctive score, and it
      records the same terms. */
  lemma {:induction false} AndAgreesWithOr(ix: Index, ns: seq<string>, lists: seq<seq<Posting>>, d: uint32, bm25: Scorer)
    requires |lists| == |ns| && forall k :: 0 <= k < |ns| ==> ns[k] in ix.lexicon
    requires forall i :: 0 <= i < |lists| ==> Distinct(lists[i])
    ensures AndScore(ix, ns, lists, d, bm25) == DocScore(ix, ns, lists, d, bm25)
    ensures AndTfs(ns, lists, d).Keys == TermsOf(ns, lists, d)
  {
    if ns != [] {
      var n := |ns| - 1;
      AndAgreesWithOr(ix, ns[..n], lists[..n], d, bm25);
      TermScoreFirst(ix, ix.lexicon[ns[n]].docFreq, lists[n], d, bm25);
      FirstPostingFound(lists[n], d);
      DocSetIds(lists[n], d);
    }
  }

  /** In a list without a repeated document, the BM25 sum of `d` is that
      of its only posting. */
  lemma {:induction false} TermScoreFirst(ix: Index, df: uint32, ps: seq<Posting>, d: uint32, bm25: Scorer)
    requires Distinct(ps)
    ensures TermScore(ix, df, ps, d, bm25) ==
              match FirstPosting(ps, d)
              case Some(p) => bm25(p.tf, DocLen(ix, d), df)
              case None => 0.0
  {
    if ps != [] {
      var n := |ps| - 1;
      TermScoreFirst(ix, df, ps[..n], d, bm25);
      FirstPostingFront(ps, d);
      if ps[n].docid == d {
        assert d !in DocSet(ps[..n]);
        DocSetIds(ps[..n], d);
        FirstPostingFound(ps[..n], d);
        TermScoreAbsent(ix, df, ps[..n], d, bm25);
      }
    }
  }

  // ---------------------------------------------------------------------
  // search_phrase: the documents where the terms stand one after another

  /** Some posting of `d` in the list records position `pos`. */
  predicate HasAt(ps: seq<Posting>, d: uint32, pos: uint32) {
    exists k :: 0 <= k < |ps| && ps[k].docid == d && pos in ps[k].positions
  }

  /** Starting at `start`, each later term `i` stands at `start + i`, the
      sum cast back to `uint32_t`. */
  predicate MatchesFrom(lists: seq<seq<Posting>>, d: uint32, start: uint32) {
    forall i :: 1 <= i < |lists| ==> HasAt(lists[i], d, Low32(start + i))
  }

  /** The positions of the first posting of `d`, none when there is none. */
  function FirstPositions(ps: seq<Posting>, d: uint32): seq<uint32> {
    match FirstPosting(ps, d)
    case Some(p) => p.positions
    case None => []
  }

  /** The phrase stands in `d` from some position of its first term. */
  predicate PhraseIn(lists: seq<seq<Posting>>, d: uint32)
    requires lists != []
  {
    exists start :: start in FirstPositions(lists[0], d) && MatchesFrom(lists, d, start)
  }

  /** `std::find` over a position list. */
  method Contains(xs: seq<uint32>, x: uint32) returns (found: bool)
    ensures found <==> x in xs
  {
    for k := 0 to |xs|
      invariant x !in xs[..k]
    {
      assert xs[..k + 1] == xs[..k] + [xs[k]];
      if xs[k] == x {
        return true;
      }
    }
    assert xs[..|xs|] == xs;
    return false;
  }

  /** The loop over a term's postings, stopping at the first of `d` that
      has the position. */
  method FindAt(ps: seq<Posting>, d: uint32, pos: uint32) returns (found: bool)
    ensures found == HasAt(ps, d, pos)
  {
    for k := 0 to |ps|
      invariant forall j :: 0 <= j < k ==> !(ps[j].docid == d && pos in ps[j].positions)
    {
      if ps[k].docid == d {
        var has := Contains(ps[k].positions, pos);
        if has {
          return true;
        }
      }
    }
    return false;
  }

  /** The loop over the later terms, stopping at the first that is not in
      place. */
  method MatchAt(lists: seq<seq<Posting>>, d: uint32, start: uint32) returns (matched: bool)
    requires lists != []
    ensures matched == MatchesFrom(lists, d, start)
  {
    for i := 1 to |lists|
      invariant forall j :: 1 <= j < i ==> HasAt(lists[j], d, Low32(start + j))
    {
      var expected := Low32(start + i);
      var found := FindAt(lists[i], d, expected);
      if !found {
        return false;
      }
    }
    return true;
  }

  /** The positions of the first term's first posting of `d`, tried in
      order until one starts the phrase. */
  method FindPhrase(lists: seq<seq<Posting>>, d: uint32) returns (found: bool)
    requires lists != []
    ensures found == PhraseIn(lists, d)
  {
    var first := FindFirst(lists[0], d);
    var starts: seq<uint32> := if first.Some? then first.value.positions else [];
    assert starts == FirstPositions(lists[0], d);
    var k := TryStarts(lists, d, starts);
    if k < |starts| {
      PhraseFrom(lists, d, starts[k]);
      return true;
    }
    NoPhrase(lists, d);
    return false;
  }

  /** The loop over the starting positions: the index of the first that
      starts the phrase, or the length when none does. */
  method TryStarts(lists: seq<seq<Posting>>, d: uint32, starts: seq<uint32>) returns (k: nat)
    requires lists != []
    ensures k <= |starts| && forall j :: 0 <= j < k ==> !MatchesFrom(lists, d, starts[j])
    ensures k < |starts| ==> MatchesFrom(lists, d, starts[k])
  {
    k := 0;
    while k < |starts|
      invariant k <= |starts| && forall j :: 0 <= j < k ==> !MatchesFrom(lists, d, starts[j])
      decreases |starts| - k
    {
      var matched := MatchAt(lists, d, starts[k]);
      if matched {
        return;
      }
      k := k + 1;
    }
  }

  /** A start that matches is a phrase. */
  lemma PhraseFrom(lists: seq<seq<Posting>>, d: uint32, start: uint32)
    requires lists != [] && start in FirstPositions(lists[0], d) && MatchesFrom(lists, d, start)
    ensures PhraseIn(lists, d)
  {
  }

  /** When no start matches there is no phrase. */
  lemma NoPhrase(lists: seq<seq<Posting>>, d: uint32)
    requires lists != []
    requires forall j :: 0 <= j < |FirstPositions(lists[0], d)| ==> !MatchesFrom(lists, d, FirstPositions(lists[0], d)[j])
    ensures !PhraseIn(lists, d)
  {
  }

  /** The result of a phrase match: a fixed score and no frequencies. */
  function PhraseHit(ix: Index, d: uint32): SearchResult {
    SearchResult(d, NameOf(ix, d), 100.0, map[], TitleOf(ix, d))
  }

  function Hits(ix: Index, order: seq<uint32>): (rs: seq<SearchResult>)
    ensures |rs| == |order|
  {
    seq(|order|, k requires 0 <= k < |order| => PhraseHit(ix, order[k]))
  }

  /** The candidates the phrase stands in. */
  ghost function PhraseDocs(lists: seq<seq<Posting>>): set<uint32>
    requires lists != []
  {
    set d | d in EveryList(lists) && PhraseIn(lists, d)
  }

  /** Each term's query word lower-cased; none as soon as one is unknown. */
  method NormalizeAll(ix: Index, terms: seq<string>) returns (ns: Option<seq<string>>)
    ensures ns.None? <==> !AllKnown(ix, terms)
    ensures ns.Some? ==> ns.value == Norms(terms)
  {
    var norms: seq<string> := [];
    for i := 0 to |terms|
      invariant norms == Norms(terms[..i]) && AllKnown(ix, terms[..i])
    {
      var norm := Lower(terms[i]);
      if norm !in ix.lexicon {
        return None;
      }
      norms := norms + [norm];
      assert terms[..i + 1] == terms[..i] + [terms[i]];
    }
    assert terms[..|terms|] == terms;
    return Some(norms);
  }

  /** The walk over the candidates, appending a hit for each that holds
      the phrase. */
  method PhraseWalk(ix: Index, lists: seq<seq<Posting>>, cands: set<uint32>)
    returns (hits: seq<SearchResult>, ghost order: seq<uint32>)
    requires lists != []
    ensures Ranking.Listed(order, set d | d in cands && PhraseIn(lists, d))
    ensures hits == Hits(ix, order)
  {
    ghost var keep := set d | d in cands && PhraseIn(lists, d);
    hits, order := [], [];
    var todo := cands;
    while todo != {}
      invariant todo <= cands && Ranking.Walking(keep, order, todo)
      invariant hits == Hits(ix, order)
      decreases |todo|
    {
      var d :| d in todo;
      Ranking.WalkStep(keep, order, todo, d);
      var found := FindPhrase(lists, d);
      if found {
        hits := hits + [PhraseHit(ix, d)];
        order := order + [d];
      }
      todo := todo - {d};
    }
    Ranking.WalkDone(keep, order);
  }

  /** `search_phrase`: no result for an empty phrase or an unknown term;
      otherwise, among the documents of every term, those where the terms
      stand in consecutive positions, in traversal order, cut to `top_k`
      without sorting. */
  method SearchPhrase(ix: Index, terms: seq<string>, topK: nat)
    returns (results: seq<SearchResult>, ghost order: seq<uint32>)
    requires Consistent(ix)
    ensures terms == [] || !AllKnown(ix, terms) ==> results == []
    ensures terms != [] && AllKnown(ix, terms) ==>
              var lists := ListsOf(ix, Norms(terms));
              Ranking.Listed(order, PhraseDocs(lists)) && results == Ranking.Top(Hits(ix, order), topK)
  {
    if terms == [] {
      return [], [];
    }
    var ns := NormalizeAll(ix, terms);
    if ns.None? {
      return [], [];
    }
    var lists := DecodeAll(ix, ns.value);
    var cands := IntersectAll(lists);
    var hits;
    hits, order := PhraseWalk(ix, lists, cands);
    results := Ranking.Top(hits, topK);
  }

  /** The intersection is only a shortcut: a document the phrase stands in
      is a document of every term. */
  lemma PhraseInEvery(lists: seq<seq<Posting>>, d: uint32)
    requires lists != [] && PhraseIn(lists, d)
    ensures d in EveryList(lists)
  {
    var start :| start in FirstPositions(lists[0], d) && MatchesFrom(lists, d, start);
    forall i | 0 <= i < |lists|
      ensures d in DocSet(lists[i])
    {
      if i == 0 {
        FirstPostingFound(lists[0], d);
        DocSetIds(lists[0], d);
      } else {
        var k :| 0 <= k < |lists[i]| && lists[i][k].docid == d && Low32(start + i) in lists[i][k].positions;
      }
    }
    EveryListSpec(lists, d);
  }

  /** A phrase of one word finds the documents whose posting lists a
      position. */
  lemma PhraseOfOne(ps: seq<Posting>, d: uint32)
    ensures PhraseIn([ps], d) <==> FirstPositions(ps, d) != []
  {
    if FirstPositions(ps, d) != [] {
      assert MatchesFrom([ps], d, FirstPositions(ps, d)[0]);
    }
  }

  /** What the phrase search returns: at most `top_k` hits, each once, each
      a document the phrase stands in, scored 100; all of them when there
      are no more than `top_k`. */
  lemma PhraseResultsSpec(ix: Index, lists: seq<seq<Posting>>, topK: nat, results: seq<SearchResult>, order: seq<uint32>)
    requires lists != [] && Ranking.Listed(order, PhraseDocs(lists)) && results == Ranking.Top(Hits(ix, order), topK)
    ensures |results| <= topK
    ensures forall k :: 0 <= k < |results| ==>
              PhraseIn(lists, results[k].docid) && results[k] == PhraseHit(ix, results[k].docid)
    ensures forall j, k :: 0 <= j < k < |results| ==> results[j].docid != results[k].docid
    ensures forall d :: PhraseIn(lists, d) && |PhraseDocs(lists)| <= topK ==>
              exists k :: 0 <= k < |results| && results[k].docid == d
  {
    Ranking.TopSpec(Hits(ix, order), topK, ScoreOf);
    Ranking.ListedSize(order, PhraseDocs(lists));
    forall k | 0 <= k < |results|
      ensures PhraseIn(lists, results[k].docid) && results[k] == PhraseHit(ix, results[k].docid)
    {
      assert results[k] == PhraseHit(ix, order[k]);
      assert order[k] in PhraseDocs(lists);
    }
    forall d | PhraseIn(lists, d) && |PhraseDocs(lists)| <= topK
      ensures exists k :: 0 <= k < |results| && results[k].docid == d
    {
      PhraseInEvery(lists, d);
      assert d in PhraseDocs(lists);
      var k :| 0 <= k < |order| && order[k] == d;
      assert results[k].docid == d;
    }
  }
}
