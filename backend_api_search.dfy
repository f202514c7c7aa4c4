/** `search_and` and `search_phrase` of backend/api_server.cpp. Both
    lower-case the query terms, give up on a term the lexicon lacks, and
    decode each term's postings list; the AND search keeps the documents
    counted once per term, the phrase search those where the terms stand at
    consecutive positions. */
module BackendApiSearch {
  import opened Common
  import opened Postings
  import BackendApi
  import Ranking
  import opened PostingLists

  /** A hit: the document's name, its score and the term frequencies. */
  datatype SearchResult = SearchResult(docid: string, score: real, termFreqs: map<string, uint32>)

  /** `g_int_to_docid[docid]`: the document's name, or the empty string
      that `operator[]` inserts for a number it does not know. */
  function NameOf(names: map<uint32, string>, d: uint32): string {
    if d in names then names[d] else ""
  }

  /** `g_lexicon[t].doc_freq`, 0 for a term `operator[]` would insert. */
  function DocFreq(lexicon: map<string, BackendApi.LexiconEntry>, t: string): uint32 {
    if t in lexicon then lexicon[t].docFreq else 0
  }

  /** Every query term, lower-cased, is in the lexicon. */
  predicate Known(terms: seq<string>, lexicon: map<string, BackendApi.LexiconEntry>) {
    forall i :: 0 <= i < |terms| ==> Lower(terms[i]) in lexicon
  }

  /** The lower-cased terms. */
  function Norms(terms: seq<string>): (ns: seq<string>)
    ensures |ns| == |terms|
  {
    seq(|terms|, i requires 0 <= i < |terms| => Lower(terms[i]))
  }

  /** The postings list of each term, as `decode_postings` yields it for
      the term's lexicon entry. */
  function Lists(terms: seq<string>, lexicon: map<string, BackendApi.LexiconEntry>,
                 decode: BackendApi.LexiconEntry -> seq<Posting>): (ls: seq<seq<Posting>>)
    requires Known(terms, lexicon)
    ensures |ls| == |terms|
  {
    seq(|terms|, i requires 0 <= i < |terms| => decode(lexicon[Lower(terms[i])]))
  }

  /** The first loop of both searches: each term lower-cased and looked
      up; nothing when one is missing. */
  method CollectLists(terms: seq<string>, lexicon: map<string, BackendApi.LexiconEntry>,
                      decode: BackendApi.LexiconEntry -> seq<Posting>)
    returns (r: Option<(seq<string>, seq<seq<Posting>>)>)
    ensures r.None? <==> !Known(terms, lexicon)
    ensures r.Some? ==> r.value == (Norms(terms), Lists(terms, lexicon, decode))
  {
    var norms: seq<string> := [];
    var lists: seq<seq<Posting>> := [];
    for i := 0 to |terms|
      invariant |norms| == i && |lists| == i
      invariant forall k :: 0 <= k < i ==>
                  Lower(terms[k]) in lexicon && norms[k] == Lower(terms[k]) && lists[k] == decode(lexicon[norms[k]])
    {
      var norm := BackendApi.ToLowerString(terms[i]);
      if norm !in lexicon {
        return None;
      }
      norms := norms + [norm];
      lists := lists + [decode(lexicon[norm])];
    }
    assert norms == Norms(terms);
    assert lists == Lists(terms, lexicon, decode);
    return Some((norms, lists));
  }

  // ---------------------------------------------------------------------
  // search_and

  /** The document numbers of all lists, one after the other. */
  function AllDocIds(lists: seq<seq<Posting>>): seq<uint32> {
    if lists == [] then [] else AllDocIds(lists[..|lists| - 1]) + DocIds(lists[|lists| - 1])
  }

  /** `doc_counts`: how often each document number occurs. */
  function Tally(xs: seq<uint32>): map<uint32, nat> {
    map d | d in xs :: multiset(xs)[d]
  }

  function GetCount(m: map<uint32, nat>, d: uint32): nat {
    if d in m then m[d] else 0
  }

  /** One occurrence more. */
  lemma TallySnoc(xs: seq<uint32>, d: uint32)
    ensures Tally(xs + [d]) == Tally(xs)[d := GetCount(Tally(xs), d) + 1]
  {
    var m := Tally(xs + [d]);
    var m' := Tally(xs)[d := GetCount(Tally(xs), d) + 1];
    assert multiset(xs + [d]) == multiset(xs) + multiset{d};
    forall u | u in m' ensures u in m {
      if u != d {
        assert u in xs;
      }
    }
    forall u | u in m ensures u in m' && m[u] == m'[u] {
      if u != d {
        assert u in xs;
      }
    }
  }

  /** The inner counting loop: every posting of one list counted. */
  method CountList(counts: map<uint32, nat>, ghost xs: seq<uint32>, ps: seq<Posting>) returns (counts': map<uint32, nat>)
    requires counts == Tally(xs)
    ensures counts' == Tally(xs + DocIds(ps))
  {
    counts' := counts;
    for j := 0 to |ps|
      invariant counts' == Tally(xs + DocIds(ps[..j]))
    {
      CountStep(xs, ps, j);
      counts' := counts'[ps[j].docid := GetCount(counts', ps[j].docid) + 1];
    }
    assert ps[..|ps|] == ps;
  }

  /** One posting more counts its document once more. */
  lemma CountStep(xs: seq<uint32>, ps: seq<Posting>, j: nat)
    requires j < |ps|
    ensures var c := Tally(xs + DocIds(ps[..j]));
            Tally(xs + DocIds(ps[..j + 1])) == c[ps[j].docid := GetCount(c, ps[j].docid) + 1]
  {
    var ys := xs + DocIds(ps[..j]);
    TallySnoc(ys, ps[j].docid);
    assert ys + [ps[j].docid] == xs + DocIds(ps[..j + 1]);
  }

  /** The counting loop of `search_and`. */
  method CountDocs(lists: seq<seq<Posting>>) returns (counts: map<uint32, nat>)
    ensures counts == Tally(AllDocIds(lists))
  {
    counts := map[];
    for i := 0 to |lists|
      invariant counts == Tally(AllDocIds(lists[..i]))
    {
      assert lists[..i + 1][..i] == lists[..i];
      counts := CountList(counts, AllDocIds(lists[..i]), lists[i]);
    }
    assert lists[..|lists|] == lists;
  }

  /** The documents `search_and` reports: those counted once per term. */
  function AndMatches(lists: seq<seq<Posting>>): set<uint32> {
    var t := Tally(AllDocIds(lists));
    set d | d in t && t[d] == |lists|
  }

  /** The term frequencies of an AND hit after the first `i` terms: each
      term that has `d` mapped to the `tf` of its first posting there. */
  function AndTfs(norms: seq<string>, lists: seq<seq<Posting>>, d: uint32, i: nat): map<string, uint32>
    requires i <= |norms| == |lists|
  {
    if i == 0 then map[]
    else
      var m := AndTfs(norms, lists, d, i - 1);
      match FirstPosting(lists[i - 1], d)
      case None => m
      case Some(p) => m[norms[i - 1] := p.tf]
  }

  /** The score of an AND hit after the first `i` terms: the sum of the
      per-posting scores `bm25(tf, doc_freq)`. */
  function AndScore(norms: seq<string>, lists: seq<seq<Posting>>, lexicon: map<string, BackendApi.LexiconEntry>,
                    bm25: (uint32, uint32) -> real, d: uint32, i: nat): real
    requires i <= |norms| == |lists|
  {
    if i == 0 then 0.0
    else
      var s := AndScore(norms, lists, lexicon, bm25, d, i - 1);
      match FirstPosting(lists[i - 1], d)
      case None => s
      case Some(p) => s + bm25(p.tf, DocFreq(lexicon, norms[i - 1]))
  }

  function AndResult(norms: seq<string>, lists: seq<seq<Posting>>, lexicon: map<string, BackendApi.LexiconEntry>,
                     names: map<uint32, string>, bm25: (uint32, uint32) -> real, d: uint32): SearchResult
    requires |norms| == |lists|
  {
    SearchResult(NameOf(names, d), AndScore(norms, lists, lexicon, bm25, d, |norms|), AndTfs(norms, lists, d, |norms|))
  }

  /** The hit for one matching document, built term by term. */
  method MakeAndResult(norms: seq<string>, lists: seq<seq<Posting>>, lexicon: map<string, BackendApi.LexiconEntry>,
                       names: map<uint32, string>, bm25: (uint32, uint32) -> real, d: uint32)
    returns (res: SearchResult)
    requires |norms| == |lists|
    ensures res == AndResult(norms, lists, lexicon, names, bm25, d)
  {
    var score := 0.0;
    var tfs: map<string, uint32> := map[];
    for i := 0 to |norms|
      invariant score == AndScore(norms, lists, lexicon, bm25, d, i)
      invariant tfs == AndTfs(norms, lists, d, i)
    {
      var p := FindFirst(lists[i], d);
      if p.Some? {
        score := score + bm25(p.value.tf, DocFreq(lexicon, norms[i]));
        tfs := tfs[norms[i] := p.value.tf];
      }
    }
    res := SearchResult(NameOf(names, d), score, tfs);
  }

  /** The AND hits for the documents of `order`, in that order. */
  function AndResults(norms: seq<string>, lists: seq<seq<Posting>>, lexicon: map<string, BackendApi.LexiconEntry>,
                      names: map<uint32, string>, bm25: (uint32, uint32) -> real, order: seq<uint32>): (r: seq<SearchResult>)
    requires |norms| == |lists|
    ensures |r| == |order|
  {
    if order == [] then []
    else AndResults(norms, lists, lexicon, names, bm25, order[..|order| - 1])
         + [AndResult(norms, lists, lexicon, names, bm25, order[|order| - 1])]
  }

  lemma AndResultsSnoc(norms: seq<string>, lists: seq<seq<Posting>>, lexicon: map<string, BackendApi.LexiconEntry>,
                       names: map<uint32, string>, bm25: (uint32, uint32) -> real, order: seq<uint32>, d: uint32)
    requires |norms| == |lists|
    ensures AndResults(norms, lists, lexicon, names, bm25, order + [d])
            == AndResults(norms, lists, lexicon, names, bm25, order) + [AndResult(norms, lists, lexicon, names, bm25, d)]
  {
    assert (order + [d])[..|order|] == order;
  }

  /** The result loop over `doc_counts`, in its traversal order. */
  method AndHits(norms: seq<string>, lists: seq<seq<Posting>>, lexicon: map<string, BackendApi.LexiconEntry>,
                 names: map<uint32, string>, bm25: (uint32, uint32) -> real, counts: map<uint32, nat>)
    returns (results: seq<SearchResult>, ghost order: seq<uint32>)
    requires |norms| == |lists|
    ensures Ranking.Listed(order, set d | d in counts && counts[d] == |lists|)
    ensures results == AndResults(norms, lists, lexicon, names, bm25, order)
  {
    results, order := [], [];
    ghost var keep := set d | d in counts && counts[d] == |lists|;
    var todo := counts.Keys;
    while todo != {}
      invariant todo <= counts.Keys && Ranking.Walking(keep, order, todo)
      invariant results == AndResults(norms, lists, lexicon, names, bm25, order)
      decreases |todo|
    {
      var d :| d in todo;
      Ranking.WalkStep(keep, order, todo, d);
      if counts[d] == |lists| {
        var res := MakeAndResult(norms, lists, lexicon, names, bm25, d);
        AndResultsSnoc(norms, lists, lexicon, names, bm25, order, d);
        results := results + [res];
        order := order + [d];
      }
      todo := todo - {d};
    }
    Ranking.WalkDone(keep, order);
  }

  /** `search_and`: nothing for no terms or an unknown one; otherwise a hit
      for every document counted once per term, in the traversal order of
      `doc_counts`. */
  method SearchAnd(terms: seq<string>, lexicon: map<string, BackendApi.LexiconEntry>,
                   decode: BackendApi.LexiconEntry -> seq<Posting>, names: map<uint32, string>,
                   bm25: (uint32, uint32) -> real)
    returns (results: seq<SearchResult>, ghost order: seq<uint32>)
    ensures terms == [] || !Known(terms, lexicon) ==> results == []
    ensures terms != [] && Known(terms, lexicon) ==>
              var lists := Lists(terms, lexicon, decode);
              Ranking.Listed(order, AndMatches(lists))
              && results == AndResults(Norms(terms), lists, lexicon, names, bm25, order)
  {
    order := [];
    if terms == [] {
      return [], order;
    }
    var found := CollectLists(terms, lexicon, decode);
    if found.None? {
      return [], order;
    }
    var (norms, lists) := found.value;
    var counts := CountDocs(lists);
    results, order := AndHits(norms, lists, lexicon, names, bm25, counts);
  }

  // ---------------------------------------------------------------------
  // What search_and finds

  /** The number of lists that hold `d`. */
  function Holding(lists: seq<seq<Posting>>, d: uint32): (n: nat)
    ensures n <= |lists|
  {
    if lists == [] then 0
    else Holding(lists[..|lists| - 1], d) + (if d in DocIds(lists[|lists| - 1]) then 1 else 0)
  }

  lemma {:induction false} DistinctOnce(ps: seq<Posting>, d: uint32)
    requires Distinct(ps)
    ensures multiset(DocIds(ps))[d] == if d in DocIds(ps) then 1 else 0
  {
    if ps != [] {
      var n := |ps| - 1;
      DistinctOnce(ps[..n], d);
      assert DocIds(ps) == DocIds(ps[..n]) + [ps[n].docid];
      if ps[n].docid == d {
        assert d !in DocIds(ps[..n]);
      }
    }
  }

  /** With no document twice in a list, a document's count is the number
      of lists that hold it. */
  lemma {:induction false} CountIsHolding(lists: seq<seq<Posting>>, d: uint32)
    requires forall i :: 0 <= i < |lists| ==> Distinct(lists[i])
    ensures multiset(AllDocIds(lists))[d] == Holding(lists, d)
  {
    if lists != [] {
      var n := |lists| - 1;
      assert forall i :: 0 <= i < n ==> lists[..n][i] == lists[i];
      CountIsHolding(lists[..n], d);
      DistinctOnce(lists[n], d);
      assert AllDocIds(lists) == AllDocIds(lists[..n]) + DocIds(lists[n]);
      assert multiset(AllDocIds(lists)) == multiset(AllDocIds(lists[..n])) + multiset(DocIds(lists[n]));
    }
  }

  /** All lists hold `d` exactly when they number as many as those that do. */
  lemma {:induction false} HoldingAll(lists: seq<seq<Posting>>, d: uint32)
    ensures Holding(lists, d) == |lists| <==> forall i :: 0 <= i < |lists| ==> d in DocIds(lists[i])
  {
    if lists != [] {
      var n := |lists| - 1;
      HoldingAll(lists[..n], d);
      if Holding(lists, d) == |lists| {
        forall i | 0 <= i < |lists| ensures d in DocIds(lists[i]) {
          if i < n {
            assert lists[..n][i] == lists[i];
          }
        }
      }
    }
  }

  /** When no list holds a document twice, as in every index the engine
      writes, `search_and` reports exactly the documents every term's list
      holds. */
  lemma AndMatchesSpec(lists: seq<seq<Posting>>, d: uint32)
    requires |lists| > 0
    requires forall i :: 0 <= i < |lists| ==> Distinct(lists[i])
    ensures d in AndMatches(lists) <==> forall i :: 0 <= i < |lists| ==> d in DocIds(lists[i])
  {
    CountIsHolding(lists, d);
    HoldingAll(lists, d);
    if forall i :: 0 <= i < |lists| ==> d in DocIds(lists[i]) {
      AllDocIdsHold(lists, d, 0);
    }
  }

  /** A document a list holds is among all the document numbers. */
  lemma {:induction false} AllDocIdsHold(lists: seq<seq<Posting>>, d: uint32, i: nat)
    requires i < |lists| && d in DocIds(lists[i])
    ensures d in AllDocIds(lists)
  {
    var n := |lists| - 1;
    if i < n {
      assert lists[..n][i] == lists[i];
      AllDocIdsHold(lists[..n], d, i);
    }
  }

  /** Without that, a document can be counted twice in one list and
      reported though another list lacks it. */
  lemma AndMatchesNeedDistinct()
    ensures var lists := [[Posting(1, 1, [0]), Posting(1, 1, [0])], [Posting(2, 1, [0])]];
            1 in AndMatches(lists) && 1 !in DocIds(lists[1])
  {
    var lists := [[Posting(1, 1, [0]), Posting(1, 1, [0])], [Posting(2, 1, [0])]];
    assert lists[..1] == [lists[0]];
    assert AllDocIds(lists) == [1, 1, 2];
    assert multiset([1, 1, 2])[1] == 2;
  }

  /** A hit's term frequencies are keyed by exactly the terms whose list
      holds the document. */
  lemma {:induction false} AndTfsKeys(norms: seq<string>, lists: seq<seq<Posting>>, d: uint32, i: nat, t: string)
    requires i <= |norms| == |lists|
    ensures t in AndTfs(norms, lists, d, i) <==> exists k :: 0 <= k < i && norms[k] == t && d in DocIds(lists[k])
  {
    if i > 0 {
      AndTfsKeys(norms, lists, d, i - 1, t);
      FirstPostingFound(lists[i - 1], d);
    }
  }

  // ---------------------------------------------------------------------
  // search_phrase

  /** `maps[i]` of one list: each document number to its last posting,
      later postings overwriting earlier ones. */
  function LastMap(ps: seq<Posting>): map<uint32, Posting> {
    if ps == [] then map[] else LastMap(ps[..|ps| - 1])[ps[|ps| - 1].docid := ps[|ps| - 1]]
  }

  /** A document has an entry exactly when the list holds it, and the
      entry is its last posting there. */
  lemma {:induction false} LastMapSpec(ps: seq<Posting>, d: uint32)
    ensures d in LastMap(ps) <==> d in DocIds(ps)
    ensures d in LastMap(ps) ==> exists k :: 0 <= k < |ps| && LastMap(ps)[d] == ps[k] && ps[k].docid == d
                                             && forall j :: k < j < |ps| ==> ps[j].docid != d
  {
    if ps != [] {
      var n := |ps| - 1;
      LastMapSpec(ps[..n], d);
      assert DocIds(ps) == DocIds(ps[..n]) + [ps[n].docid];
      if ps[n].docid != d && d in LastMap(ps) {
        var k :| 0 <= k < n && LastMap(ps[..n])[d] == ps[..n][k] && ps[..n][k].docid == d
                 && forall j :: k < j < n ==> ps[..n][j].docid != d;
        assert LastMap(ps)[d] == ps[k];
      }
    }
  }

  /** The map loop of one list. */
  method BuildLastMap(ps: seq<Posting>) returns (m: map<uint32, Posting>)
    ensures m == LastMap(ps)
  {
    m := map[];
    for j := 0 to |ps|
      invariant m == LastMap(ps[..j])
    {
      assert ps[..j + 1][..j] == ps[..j];
      m := m[ps[j].docid := ps[j]];
    }
    assert ps[..|ps|] == ps;
  }

  /** The maps of all lists. */
  function Maps(lists: seq<seq<Posting>>): (ms: seq<map<uint32, Posting>>)
    ensures |ms| == |lists|
  {
    seq(|lists|, i requires 0 <= i < |lists| => LastMap(lists[i]))
  }

  /** The candidates after the first `i` maps: the documents of the first
      list that every later map among them holds. */
  function CandidatesUpTo(maps: seq<map<uint32, Posting>>, i: nat): set<uint32>
    requires 0 < |maps| && i <= |maps|
  {
    set d | d in maps[0] && forall j :: 1 <= j < i ==> d in maps[j]
  }

  /** One map more narrows the candidates to those it holds. */
  lemma CandidatesSnoc(maps: seq<map<uint32, Posting>>, m: map<uint32, Posting>)
    requires 0 < |maps|
    ensures CandidatesUpTo(maps + [m], |maps| + 1) == CandidatesUpTo(maps, |maps|) * m.Keys
  {
    var ms := maps + [m];
    assert forall j :: 0 <= j < |maps| ==> ms[j] == maps[j];
    assert ms[|maps|] == m;
  }

  /** The map and candidate loop of `search_phrase`. */
  method MapsAndCandidates(lists: seq<seq<Posting>>) returns (maps: seq<map<uint32, Posting>>, candidates: set<uint32>)
    requires |lists| > 0
    ensures maps == Maps(lists) && candidates == CandidatesUpTo(maps, |maps|)
  {
    candidates := {};
    for j := 0 to |lists[0]|
      invariant candidates == set k | 0 <= k < j :: lists[0][k].docid
    {
      candidates := candidates + {lists[0][j].docid};
    }
    maps := [];
    for i := 0 to |lists|
      invariant |maps| == i && forall k :: 0 <= k < i ==> maps[k] == LastMap(lists[k])
      invariant i > 0 ==> candidates == CandidatesUpTo(maps, i)
      invariant i == 0 ==> candidates == set k | 0 <= k < |lists[0]| :: lists[0][k].docid
    {
      var m := BuildLastMap(lists[i]);
      if i > 0 {
        CandidatesSnoc(maps, m);
        candidates := Ranking.Intersect(candidates, m.Keys);
      }
      maps := maps + [m];
      if i == 0 {
        forall d ensures d in candidates <==> d in m {
          LastMapSpec(lists[0], d);
        }
      }
    }
  }

  /** Every map holds `d`. */
  predicate InAll(maps: seq<map<uint32, Posting>>, d: uint32) {
    forall i :: 0 <= i < |maps| ==> d in maps[i]
  }

  /** `v` is among the positions. */
  predicate Has(ps: seq<uint32>, v: int) {
    exists j :: 0 <= j < |ps| && ps[j] == v
  }

  /** The innermost loop: a position equal to `v`. */
  method Contains(ps: seq<uint32>, v: int) returns (b: bool)
    ensures b == Has(ps, v)
  {
    for j := 0 to |ps|
      invariant forall k :: 0 <= k < j ==> ps[k] != v
    {
      if ps[j] == v {
        return true;
      }
    }
    return false;
  }

  /** Every map from the second on has `d` at `start` plus its index. */
  predicate PhraseFrom(maps: seq<map<uint32, Posting>>, d: uint32, start: int)
    requires InAll(maps, d)
  {
    forall i :: 1 <= i < |maps| ==> Has(maps[i][d].positions, start + i)
  }

  /** Some position of the first term starts the phrase. */
  predicate HasPhrase(maps: seq<map<uint32, Posting>>, d: uint32)
    requires 0 < |maps| && InAll(maps, d)
  {
    exists k :: 0 <= k < |maps[0][d].positions| && PhraseFrom(maps, d, maps[0][d].positions[k])
  }

  /** The loop over the later terms for one start position, leaving at the
      first that misses. */
  method MatchFrom(maps: seq<map<uint32, Posting>>, d: uint32, start: uint32) returns (matched: bool)
    requires InAll(maps, d)
    ensures matched == PhraseFrom(maps, d, start)
  {
    matched := true;
    var i := 1;
    while i < |maps|
      invariant 1 <= i <= |maps| || |maps| <= 1
      invariant forall k :: 1 <= k < i && k < |maps| ==> Has(maps[k][d].positions, start + k)
      decreases |maps| - i
    {
      var posMatch := Contains(maps[i][d].positions, start as int + i);
      if !posMatch {
        return false;
      }
      i := i + 1;
    }
  }

  /** The loop over the first term's positions, leaving at the first that
      starts the phrase. */
  method FindPhrase(maps: seq<map<uint32, Posting>>, d: uint32) returns (found: bool)
    requires 0 < |maps| && InAll(maps, d)
    ensures found == HasPhrase(maps, d)
  {
    var ps := maps[0][d].positions;
    for k := 0 to |ps|
      invariant forall j :: 0 <= j < k ==> !PhraseFrom(maps, d, ps[j])
    {
      var matched := MatchFrom(maps, d, ps[k]);
      if matched {
        return true;
      }
    }
    return false;
  }

  /** The term frequencies of a phrase hit after the first `i` terms, keyed
      by the query terms as typed. */
  function PhraseTfs(terms: seq<string>, maps: seq<map<uint32, Posting>>, d: uint32, i: nat): map<string, uint32>
    requires i <= |terms| == |maps| && InAll(maps, d)
  {
    if i == 0 then map[] else PhraseTfs(terms, maps, d, i - 1)[terms[i - 1] := maps[i - 1][d].tf]
  }

  /** A phrase hit scores 100 plus the number of terms. */
  function PhraseResult(terms: seq<string>, maps: seq<map<uint32, Posting>>, names: map<uint32, string>, d: uint32): SearchResult
    requires |terms| == |maps| && InAll(maps, d)
  {
    SearchResult(NameOf(names, d), 100.0 + |terms| as real, PhraseTfs(terms, maps, d, |terms|))
  }

  method MakePhraseResult(terms: seq<string>, maps: seq<map<uint32, Posting>>, names: map<uint32, string>, d: uint32)
    returns (res: SearchResult)
    requires |terms| == |maps| && InAll(maps, d)
    ensures res == PhraseResult(terms, maps, names, d)
  {
    var tfs: map<string, uint32> := map[];
    for i := 0 to |terms|
      invariant tfs == PhraseTfs(terms, maps, d, i)
    {
      tfs := tfs[terms[i] := maps[i][d].tf];
    }
    res := SearchResult(NameOf(names, d), 100.0 + |terms| as real, tfs);
  }

  /** The documents `search_phrase` reports. */
  ghost function PhraseMatches(maps: seq<map<uint32, Posting>>): set<uint32>
    requires 0 < |maps|
  {
    set d | d in CandidatesUpTo(maps, |maps|) && HasPhrase(maps, d)
  }

  /** The phrase hits for the documents of `order`, in that order. */
  function PhraseResults(terms: seq<string>, maps: seq<map<uint32, Posting>>, names: map<uint32, string>,
                         order: seq<uint32>): (r: seq<SearchResult>)
    requires 0 < |terms| == |maps|
    requires forall k :: 0 <= k < |order| ==> InAll(maps, order[k])
    ensures |r| == |order|
  {
    if order == [] then []
    else PhraseResults(terms, maps, names, order[..|order| - 1])
         + [PhraseResult(terms, maps, names, order[|order| - 1])]
  }

  lemma PhraseResultsSnoc(terms: seq<string>, maps: seq<map<uint32, Posting>>, names: map<uint32, string>,
                          order: seq<uint32>, d: uint32)
    requires 0 < |terms| == |maps|
    requires forall k :: 0 <= k < |order| ==> InAll(maps, order[k])
    requires InAll(maps, d)
    ensures PhraseResults(terms, maps, names, order + [d])
            == PhraseResults(terms, maps, names, order) + [PhraseResult(terms, maps, names, d)]
  {
    assert (order + [d])[..|order|] == order;
  }

  /** The result loop over the candidates, in the set's traversal order. */
  method PhraseHits(terms: seq<string>, maps: seq<map<uint32, Posting>>, names: map<uint32, string>,
                    candidates: set<uint32>)
    returns (results: seq<SearchResult>, ghost order: seq<uint32>)
    requires 0 < |terms| == |maps| && candidates == CandidatesUpTo(maps, |maps|)
    ensures Ranking.Listed(order, PhraseMatches(maps))
    ensures forall k :: 0 <= k < |order| ==> InAll(maps, order[k])
    ensures results == PhraseResults(terms, maps, names, order)
  {
    results, order := [], [];
    ghost var keep := PhraseMatches(maps);
    var todo := candidates;
    while todo != {}
      invariant todo <= candidates && Ranking.Walking(keep, order, todo)
      invariant forall k :: 0 <= k < |order| ==> InAll(maps, order[k])
      invariant results == PhraseResults(terms, maps, names, order)
      decreases |todo|
    {
      var d :| d in todo;
      Ranking.WalkStep(keep, order, todo, d);
      var found := FindPhrase(maps, d);
      if found {
        var res := MakePhraseResult(terms, maps, names, d);
        PhraseResultsSnoc(terms, maps, names, order, d);
        results := results + [res];
        order := order + [d];
      }
      todo := todo - {d};
    }
    Ranking.WalkDone(keep, order);
  }

  /** `search_phrase`: nothing for no terms or an unknown one; otherwise a
      hit, scored 100 plus the number of terms, for every document of the
      first list that every list holds and in which the terms stand at
      consecutive positions. */
  method SearchPhrase(terms: seq<string>, lexicon: map<string, BackendApi.LexiconEntry>,
                      decode: BackendApi.LexiconEntry -> seq<Posting>, names: map<uint32, string>)
    returns (results: seq<SearchResult>, ghost order: seq<uint32>)
    ensures terms == [] || !Known(terms, lexicon) ==> results == []
    ensures terms != [] && Known(terms, lexicon) ==>
              var maps := Maps(Lists(terms, lexicon, decode));
              Ranking.Listed(order, PhraseMatches(maps))
              && (forall k :: 0 <= k < |order| ==> InAll(maps, order[k]))
              && results == PhraseResults(terms, maps, names, order)
  {
    order := [];
    if terms == [] {
      return [], order;
    }
    var found := CollectLists(terms, lexicon, decode);
    if found.None? {
      return [], order;
    }
    var lists := found.value.1;
    var maps, candidates := MapsAndCandidates(lists);
    results, order := PhraseHits(terms, maps, names, candidates);
  }

  // ---------------------------------------------------------------------
  // What search_phrase finds

  /** A candidate is a document every term's list holds. */
  lemma CandidatesSpec(lists: seq<seq<Posting>>, d: uint32)
    requires 0 < |lists|
    ensures d in CandidatesUpTo(Maps(lists), |lists|) <==> forall i :: 0 <= i < |lists| ==> d in DocIds(lists[i])
  {
    forall i | 0 <= i < |lists| ensures d in Maps(lists)[i] <==> d in DocIds(lists[i]) {
      LastMapSpec(lists[i], d);
    }
  }

  /** When no list holds a document twice, the phrase test reads the
      document's one posting in each list: some position `p` of the first
      term has `p + i` among the positions of the `i`-th. */
  lemma PhraseSpec(lists: seq<seq<Posting>>, d: uint32, ks: seq<nat>)
    requires 0 < |lists| && |ks| == |lists|
    requires forall i :: 0 <= i < |lists| ==> Distinct(lists[i]) && ks[i] < |lists[i]| && lists[i][ks[i]].docid == d
    ensures InAll(Maps(lists), d)
    ensures HasPhrase(Maps(lists), d)
            <==> exists k :: 0 <= k < |lists[0][ks[0]].positions|
                   && forall i :: 1 <= i < |lists| ==> Has(lists[i][ks[i]].positions, lists[0][ks[0]].positions[k] + i)
  {
    var maps := Maps(lists);
    forall i | 0 <= i < |lists| ensures d in maps[i] && maps[i][d] == lists[i][ks[i]] {
      LastMapSpec(lists[i], d);
      assert d in DocIds(lists[i]);
    }
    var p := lists[0][ks[0]].positions;
    assert maps[0][d].positions == p;
    forall k | 0 <= k < |p|
      ensures PhraseFrom(maps, d, p[k]) <==> forall i :: 1 <= i < |lists| ==> Has(lists[i][ks[i]].positions, p[k] + i)
    {
      PhraseFromPostings(maps, lists, ks, d, p[k]);
    }
  }

  /** The phrase test from one start, read on the postings the maps give. */
  lemma PhraseFromPostings(maps: seq<map<uint32, Posting>>, lists: seq<seq<Posting>>, ks: seq<nat>, d: uint32, start: int)
    requires |maps| == |lists| == |ks| && InAll(maps, d)
    requires forall i :: 0 <= i < |lists| ==> ks[i] < |lists[i]| && maps[i][d] == lists[i][ks[i]]
    ensures PhraseFrom(maps, d, start) <==> forall i :: 1 <= i < |lists| ==> Has(lists[i][ks[i]].positions, start + i)
  {
  }
}
