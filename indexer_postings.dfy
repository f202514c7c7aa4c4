/** indexer.cpp, merge_blocks after a term has been chosen: the gathered
    block lines are parsed into one table from document to positions, the
    table becomes a postings list ordered by document, the list is
    VByte-encoded and appended to postings.bin, and a lexicon entry records
    the term, its counts and where its bytes are. */
module IndexerPostings {
  import opened Common
  import opened VByte
  import opened Ordering
  import opened Decimal
  import opened Postings
  import Indexer
  import opened IndexerMerge

  // ---------------------------------------------------------------------
  // What one round computes

  /** The postings of the gathered lines, line after line; `None` as soon
      as a `stoul` throws. */
  function GroupSegments(lines: seq<string>): Option<seq<Indexer.BlockPosting>> {
    if lines == [] then Some([])
    else Then(GroupSegments(lines[..|lines| - 1]), LineSegments(lines[|lines| - 1]))
  }

  /** `merged[docid]` (an `unordered_map`) extended by each posting in turn:
      `v.insert(v.end(), posvec...)`, creating the entry when missing. */
  function MergeAll(m: map<uint32, seq<uint32>>, segs: seq<Indexer.BlockPosting>): map<uint32, seq<uint32>> {
    if segs == [] then m
    else
      var r := MergeAll(m, segs[..|segs| - 1]);
      var b := segs[|segs| - 1];
      r[b.docid := (if b.docid in r then r[b.docid] else []) + b.positions]
  }

  function Merged(segs: seq<Indexer.BlockPosting>): map<uint32, seq<uint32>> {
    MergeAll(map[], segs)
  }

  /** `term_freq`: one for every position token read. */
  function PositionCount(segs: seq<Indexer.BlockPosting>): nat {
    if segs == [] then 0 else PositionCount(segs[..|segs| - 1]) + |segs[|segs| - 1].positions|
  }

  /** The posting of document `d`: its positions sorted, and their number
      cast to `uint32_t` as its term frequency. */
  function PostingFor(m: map<uint32, seq<uint32>>, d: uint32): Posting
    requires d in m
  {
    var v := Sort(m[d]);
    Posting(d, Low32(|v|), v)
  }

  /** The postings list of a table: one posting per document, by ascending
      document. */
  ghost function PostingsOf(m: map<uint32, seq<uint32>>): seq<Posting> {
    var ks := SortedSet(m.Keys);
    seq(|ks|, i requires 0 <= i < |ks| => PostingFor(m, ks[i]))
  }

  function Docids(ps: seq<Posting>): seq<uint32> {
    seq(|ps|, i requires 0 <= i < |ps| => ps[i].docid)
  }

  function DocidOf(p: Posting): int {
    p.docid
  }

  // ---------------------------------------------------------------------
  // Properties of a round's result

  lemma {:induction false} MergeAllAppend(m: map<uint32, seq<uint32>>, a: seq<Indexer.BlockPosting>, b: seq<Indexer.BlockPosting>)
    ensures MergeAll(MergeAll(m, a), b) == MergeAll(m, a + b)
    decreases |b|
  {
    if b == [] {
      assert a + b == a;
    } else {
      MergeAllAppend(m, a, b[..|b| - 1]);
      assert (a + b)[..|a + b| - 1] == a + b[..|b| - 1];
    }
  }

  lemma {:induction false} PositionCountAppend(a: seq<Indexer.BlockPosting>, b: seq<Indexer.BlockPosting>)
    ensures PositionCount(a + b) == PositionCount(a) + PositionCount(b)
    decreases |b|
  {
    if b == [] {
      assert a + b == a;
    } else {
      PositionCountAppend(a, b[..|b| - 1]);
      assert (a + b)[..|a + b| - 1] == a + b[..|b| - 1];
    }
  }

  /** A document has an entry exactly when some gathered posting names it,
      and the entry holds all of its positions in the order the block lines
      list them. */
  lemma {:induction false} MergedSpec(segs: seq<Indexer.BlockPosting>, d: uint32)
    ensures d in Merged(segs) <==> exists i :: 0 <= i < |segs| && segs[i].docid == d
    ensures Indexer.DocPositions(segs, d) == if d in Merged(segs) then Merged(segs)[d] else []
    decreases |segs|
  {
    if segs != [] {
      var init := segs[..|segs| - 1];
      MergedSpec(init, d);
      if exists i :: 0 <= i < |init| && init[i].docid == d {
        var i :| 0 <= i < |init| && init[i].docid == d;
        assert segs[i] == init[i];
      }
      if exists i :: 0 <= i < |segs| && segs[i].docid == d {
        var i :| 0 <= i < |segs| && segs[i].docid == d;
        if i < |init| {
          assert init[i] == segs[i];
        }
      }
    }
  }

  /** The list written for a term: documents strictly ascending, exactly
      the documents of the gathered postings, each with all of its
      positions from every block, sorted, and their number as `tf`. */
  lemma TermPostingsSpec(segs: seq<Indexer.BlockPosting>)
    ensures var ps := PostingsOf(Merged(segs));
            StrictlyAscending(Docids(ps))
            && (forall d: uint32 :: d in Docids(ps) <==> exists i :: 0 <= i < |segs| && segs[i].docid == d)
            && forall k :: 0 <= k < |ps| ==>
                 Ascending(ps[k].positions)
                 && multiset(ps[k].positions) == multiset(Indexer.DocPositions(segs, ps[k].docid))
                 && ps[k].tf == Low32(|ps[k].positions|)
  {
    PostingsAscending(Merged(segs));
    TermPostingsDocs(segs);
    TermPostingsLists(segs);
  }

  lemma TermPostingsDocs(segs: seq<Indexer.BlockPosting>)
    ensures var ps := PostingsOf(Merged(segs));
            forall d: uint32 :: d in Docids(ps) <==> exists i :: 0 <= i < |segs| && segs[i].docid == d
  {
    var m := Merged(segs);
    DocidsOfPostings(m);
    forall d: uint32 ensures d in SortedSet(m.Keys) <==> exists i :: 0 <= i < |segs| && segs[i].docid == d {
      MergedSpec(segs, d);
    }
  }

  lemma TermPostingsLists(segs: seq<Indexer.BlockPosting>)
    ensures var ps := PostingsOf(Merged(segs));
            forall k :: 0 <= k < |ps| ==>
              Ascending(ps[k].positions)
              && multiset(ps[k].positions) == multiset(Indexer.DocPositions(segs, ps[k].docid))
              && ps[k].tf == Low32(|ps[k].positions|)
  {
    var ps := PostingsOf(Merged(segs));
    forall k | 0 <= k < |ps|
      ensures multiset(ps[k].positions) == multiset(Indexer.DocPositions(segs, ps[k].docid))
    {
      MergedSpec(segs, ps[k].docid);
    }
  }

  /** The documents of the table's postings list are its keys in order. */
  lemma DocidsOfPostings(m: map<uint32, seq<uint32>>)
    ensures Docids(PostingsOf(m)) == SortedSet(m.Keys)
  {
  }

  lemma PostingsAscending(m: map<uint32, seq<uint32>>)
    ensures StrictlyAscending(Docids(PostingsOf(m)))
  {
    DocidsOfPostings(m);
    SortedSetAscending(m.Keys);
  }

  /** Every posting of `ps` is its document's posting of the table. */
  predicate AllPostingsOf(m: map<uint32, seq<uint32>>, ps: seq<Posting>) {
    forall k :: 0 <= k < |ps| ==> ps[k].docid in m && ps[k] == PostingFor(m, ps[k].docid)
  }

  lemma PermutedPostings(m: map<uint32, seq<uint32>>, list: seq<Posting>, ps: seq<Posting>)
    requires AllPostingsOf(m, list) && multiset(ps) == multiset(list)
    ensures AllPostingsOf(m, ps)
  {
    forall i | 0 <= i < |ps| ensures ps[i].docid in m && ps[i] == PostingFor(m, ps[i].docid) {
      assert ps[i] in multiset(list);
      var k :| 0 <= k < |list| && list[k] == ps[i];
    }
  }

  lemma AscendingDocids(m: map<uint32, seq<uint32>>, ps: seq<Posting>)
    requires AllPostingsOf(m, ps) && Distinct(ps) && AscendingBy(ps, DocidOf)
    ensures StrictlyAscending(Docids(ps))
  {
    var ds := Docids(ps);
    forall i, j | 0 <= i < j < |ds| ensures ds[i] < ds[j] {
      assert DocidOf(ps[i]) <= DocidOf(ps[j]);
    }
  }

  lemma DocidsCover(m: map<uint32, seq<uint32>>, list: seq<Posting>, ps: seq<Posting>)
    requires AllPostingsOf(m, ps) && multiset(ps) == multiset(list)
    requires forall d :: d in m ==> exists k :: 0 <= k < |list| && list[k].docid == d
    ensures forall x :: x in Docids(ps) <==> x in m.Keys
  {
    var ds := Docids(ps);
    forall x ensures x in ds <==> x in m.Keys {
      if x in m.Keys {
        var k :| 0 <= k < |list| && list[k].docid == x;
        assert list[k] in multiset(ps);
        var i :| 0 <= i < |ps| && ps[i] == list[k];
        assert ds[i] == x;
      }
    }
  }

  /** A collected list that holds every document's posting once, once
      ordered by document, is the postings list of the table. */
  lemma CollectedIsPostingsOf(m: map<uint32, seq<uint32>>, list: seq<Posting>, ps: seq<Posting>)
    requires AllPostingsOf(m, list)
    requires forall d :: d in m ==> exists k :: 0 <= k < |list| && list[k].docid == d
    requires Distinct(list)
    requires AscendingBy(ps, DocidOf) && multiset(ps) == multiset(list)
    ensures ps == PostingsOf(m)
  {
    DistinctPermutation(list, ps);
    PermutedPostings(m, list, ps);
    AscendingDocids(m, ps);
    DocidsCover(m, list, ps);
    SortedSetUnique(Docids(ps), m.Keys);
    var ks := SortedSet(m.Keys);
    assert |ps| == |PostingsOf(m)|;
    forall i | 0 <= i < |ps| ensures ps[i] == PostingsOf(m)[i] {
      assert ps[i].docid == ks[i];
    }
  }

  // ---------------------------------------------------------------------
  // The loops of a round

  lemma ThenNil<T>(c: Option<seq<T>>)
    ensures Then(Some([]), c) == c
  {
    if c.Some? {
      assert [] + c.value == c.value;
    }
  }

  lemma ThenEmpty<T>(a: seq<T>)
    ensures Then(Some(a), Some([])) == Some(a)
  {
    assert a + [] == a;
  }

  lemma ThenSome<T>(a: seq<T>, b: seq<T>, c: Option<seq<T>>)
    ensures Then(Some(a), Then(Some(b), c)) == Then(Some(a + b), c)
  {
    if c.Some? {
      assert a + (b + c.value) == a + b + c.value;
    }
  }

  lemma ThenStep<T>(want: Option<seq<T>>, done: seq<T>, b: T, x: Option<seq<T>>, y: Option<seq<T>>)
    requires Then(Some(done), x) == want && x == Then(Some([b]), y)
    ensures Then(Some(done + [b]), y) == want
  {
    ThenSome(done, [b], y);
  }

  /** The innermost loop: the position tokens of `s[lo..hi]`, each read
      with `stoul`; `ok` is false where `stoul` throws. */
  method ParsePositionList(s: string, lo: nat, hi: nat) returns (ok: bool, posvec: seq<uint32>)
    requires lo <= hi <= |s|
    ensures ok <==> ParsePositions(s, lo, hi).Some?
    ensures ok ==> posvec == ParsePositions(s, lo, hi).value
  {
    posvec := [];
    var p := lo;
    ThenNil(ParsePositions(s, lo, hi));
    while p < hi
      invariant lo <= p <= hi
      invariant Then(Some(posvec), ParsePositions(s, p, hi)) == ParsePositions(s, lo, hi)
      decreases hi - p
    {
      var comma := FindIn(s, ',', p, hi);
      var tok: seq<uint32> := [];
      if comma > p {
        var v := StoulIn(s, p, comma);
        if v.None? {
          return false, posvec;
        }
        tok := [Low32(v.value)];
      }
      var rest := if comma == hi then Some([]) else ParsePositions(s, comma + 1, hi);
      ThenSome(posvec, tok, rest);
      posvec := posvec + tok;
      if comma == hi {
        assert posvec + [] == posvec;
        return true, posvec;
      }
      p := comma + 1;
    }
    assert posvec + [] == posvec;
    ok := true;
  }

  lemma MergeSnoc(m: map<uint32, seq<uint32>>, done: seq<Indexer.BlockPosting>, b: Indexer.BlockPosting)
    ensures var r := MergeAll(m, done);
            MergeAll(m, done + [b]) == r[b.docid := (if b.docid in r then r[b.docid] else []) + b.positions]
    ensures PositionCount(done + [b]) == PositionCount(done) + |b.positions|
  {
    assert (done + [b])[..|done|] == done;
  }

  /** What one pass of the segment loop finds at `idx`: no ':' left, a
      `stoul` that throws, or a posting and the index of the ';' after it
      (the end of the line when there is none). */
  datatype SegmentScan = NoColon | Throws | Found(posting: Indexer.BlockPosting, semi: nat)

  /** The body of the segment loop: the docid up to the next ':', then the
      position list up to the next ';'. */
  method ScanSegment(line: string, idx: nat) returns (r: SegmentScan)
    requires idx < |line|
    ensures r.NoColon? ==> ParseSegments(line, idx) == Some([])
    ensures r.Throws? ==> ParseSegments(line, idx) == None
    ensures r.Found? ==> idx < r.semi <= |line|
    ensures r.Found? ==> ParseSegments(line, idx) == Then(Some([r.posting]), SegmentsAfter(line, r.semi))
  {
    var colon := FindIn(line, ':', idx, |line|);
    if colon == |line| {
      return NoColon;
    }
    var d := StoulIn(line, idx, colon);
    if d.None? {
      return Throws;
    }
    var docid := Low32(d.value);
    var semi := FindIn(line, ';', colon + 1, |line|);
    var ok, posvec := ParsePositionList(line, colon + 1, semi);
    if !ok {
      return Throws;
    }
    SegmentOf(line, idx, colon, semi, d.value, posvec);
    return Found(Indexer.BlockPosting(docid, posvec), semi);
  }

  /** The segment loop over the text of a gathered line after its tab,
      adding each posting to `merged` and counting its positions into
      `term_freq`. */
  method MergeSegments(line: string, start: nat, merged0: map<uint32, seq<uint32>>, tf0: nat)
    returns (ok: bool, merged: map<uint32, seq<uint32>>, termFreq: nat)
    requires start <= |line|
    ensures ok <==> ParseSegments(line, start).Some?
    ensures ok ==> merged == MergeAll(merged0, ParseSegments(line, start).value)
                   && termFreq == tf0 + PositionCount(ParseSegments(line, start).value)
  {
    merged, termFreq := merged0, tf0;
    var idx := start;
    ghost var done: seq<Indexer.BlockPosting> := [];
    ghost var want := ParseSegments(line, start);
    ThenNil(want);
    while idx < |line|
      invariant start <= idx <= |line|
      invariant Then(Some(done), ParseSegments(line, idx)) == want
      invariant merged == MergeAll(merged0, done) && termFreq == tf0 + PositionCount(done)
      decreases |line| - idx
    {
      var r := ScanSegment(line, idx);
      if r.NoColon? {
        assert Then(Some(done), Some([])) == want;
        break;
      }
      if r.Throws? {
        return false, merged, termFreq;
      }
      var b := r.posting;
      SegmentStep(line, idx, r.semi, b, want, done, merged0, merged, tf0, termFreq);
      termFreq := termFreq + |b.positions|;
      merged := merged[b.docid := (if b.docid in merged then merged[b.docid] else []) + b.positions];
      done := done + [b];
      if r.semi == |line| {
        assert Then(Some(done), Some([])) == want;
        break;
      }
      idx := r.semi + 1;
    }
    ThenEmpty(done);
    ok := true;
  }

  /** One posting found by the segment loop: the parse still to come and
      the merged table and count move on by that posting. */
  lemma SegmentStep(line: string, idx: nat, semi: nat, b: Indexer.BlockPosting, want: Option<seq<Indexer.BlockPosting>>,
                    done: seq<Indexer.BlockPosting>, merged0: map<uint32, seq<uint32>>, merged: map<uint32, seq<uint32>>,
                    tf0: nat, termFreq: nat)
    requires idx < semi <= |line|
    requires Then(Some(done), ParseSegments(line, idx)) == want
    requires ParseSegments(line, idx) == Then(Some([b]), SegmentsAfter(line, semi))
    requires merged == MergeAll(merged0, done) && termFreq == tf0 + PositionCount(done)
    ensures Then(Some(done + [b]), SegmentsAfter(line, semi)) == want
    ensures merged[b.docid := (if b.docid in merged then merged[b.docid] else []) + b.positions] == MergeAll(merged0, done + [b])
    ensures termFreq + |b.positions| == tf0 + PositionCount(done + [b])
  {
    ThenStep(want, done, b, ParseSegments(line, idx), SegmentsAfter(line, semi));
    MergeSnoc(merged0, done, b);
  }

  /** One gathered line: the text after its first tab, nothing without a
      tab. */
  method MergeLine(line: string, merged0: map<uint32, seq<uint32>>, tf0: nat)
    returns (ok: bool, merged: map<uint32, seq<uint32>>, termFreq: nat)
    ensures ok <==> LineSegments(line).Some?
    ensures ok ==> merged == MergeAll(merged0, LineSegments(line).value)
                   && termFreq == tf0 + PositionCount(LineSegments(line).value)
  {
    var tab := FindIn(line, '\t', 0, |line|);
    if tab == |line| {
      return true, merged0, tf0;
    }
    ok, merged, termFreq := MergeSegments(line, tab + 1, merged0, tf0);
  }

  lemma {:induction false} GroupNoneExtends(lines: seq<string>, i: nat)
    requires i <= |lines| && GroupSegments(lines[..i]).None?
    ensures GroupSegments(lines).None?
    decreases |lines| - i
  {
    if i == |lines| {
      assert lines[..i] == lines;
    } else {
      assert lines[..i + 1][..i] == lines[..i];
      GroupNoneExtends(lines, i + 1);
    }
  }

  /** The loop over the gathered block lines, into a fresh table. */
  method MergeLines(lines: seq<string>) returns (ok: bool, merged: map<uint32, seq<uint32>>, termFreq: nat)
    ensures ok <==> GroupSegments(lines).Some?
    ensures ok ==> merged == Merged(GroupSegments(lines).value)
                   && termFreq == PositionCount(GroupSegments(lines).value)
  {
    merged, termFreq := map[], 0;
    ghost var done: seq<Indexer.BlockPosting> := [];
    for i := 0 to |lines|
      invariant GroupSegments(lines[..i]) == Some(done)
      invariant merged == Merged(done) && termFreq == PositionCount(done)
    {
      assert lines[..i + 1][..i] == lines[..i];
      var lineOk;
      lineOk, merged, termFreq := MergeLine(lines[i], merged, termFreq);
      if !lineOk {
        GroupNoneExtends(lines, i + 1);
        return false, merged, termFreq;
      }
      ghost var segs := LineSegments(lines[i]).value;
      MergeAllAppend(map[], done, segs);
      PositionCountAppend(done, segs);
      done := done + segs;
    }
    assert lines[..|lines|] == lines;
    ok := true;
  }

  /** What the collecting loop keeps: `list` holds the posting of every
      document already taken out of `keys`, once each. */
  ghost predicate Collected(merged: map<uint32, seq<uint32>>, keys: set<uint32>, list: seq<Posting>) {
    && keys <= merged.Keys
    && AllPostingsOf(merged, list) && Distinct(list)
    && (forall k :: 0 <= k < |list| ==> list[k].docid !in keys)
    && forall d :: d in merged.Keys - keys ==> exists k :: 0 <= k < |list| && list[k].docid == d
  }

  lemma CollectStep(merged: map<uint32, seq<uint32>>, keys: set<uint32>, list: seq<Posting>, d: uint32)
    requires Collected(merged, keys, list) && d in keys
    ensures Collected(merged, keys - {d}, list + [PostingFor(merged, d)])
  {
    var list' := list + [PostingFor(merged, d)];
    forall e | e in merged.Keys - (keys - {d}) ensures exists k :: 0 <= k < |list'| && list'[k].docid == e {
      if e == d {
        assert list'[|list|].docid == d;
      } else {
        assert e in merged.Keys - keys;
        var k :| 0 <= k < |list| && list[k].docid == e;
        assert list'[k] == list[k];
      }
    }
    forall i, j | 0 <= i < j < |list'| ensures list'[i] != list'[j] {
      if j == |list| {
        assert list'[i] == list[i];
      }
    }
  }

  /** The loop over the table's entries (in the table's own order) that
      sorts each position list, followed by the sort of the collected
      postings by document: the result is the table's postings list,
      whatever order the table was walked in. */
  method CollectPostings(merged: map<uint32, seq<uint32>>) returns (ps: seq<Posting>)
    ensures ps == PostingsOf(merged)
  {
    var list: seq<Posting> := [];
    var keys := merged.Keys;
    while keys != {}
      invariant Collected(merged, keys, list)
      decreases keys
    {
      var d :| d in keys;
      var vec := Sort(merged[d]);
      CollectStep(merged, keys, list, d);
      list := list + [Posting(d, Low32(|vec|), vec)];
      keys := keys - {d};
    }
    assert merged.Keys - keys == merged.Keys;
    ps := SortBy(list, DocidOf);
    CollectedIsPostingsOf(merged, list, ps);
  }


  /** The innermost encoding loop: position gaps, each against the
      previous position. */
  method EncodeGaps(out: seq<byte>, xs: seq<uint32>) returns (res: seq<byte>)
    ensures res == out + EncodeAll(PositionGaps(xs, 0))
  {
    res := out;
    var last: uint32 := 0;
    for j := 0 to |xs|
      invariant res + EncodeAll(PositionGaps(xs[j..], last)) == out + EncodeAll(PositionGaps(xs, 0))
    {
      assert xs[j..][1..] == xs[j + 1..];
      EncodeAllAppend([Sub32(xs[j], last)], PositionGaps(xs[j + 1..], xs[j]));
      res := Indexer.VByteEncodeUInt32(Sub32(xs[j], last), res);
      last := xs[j];
    }
  }

  /** The encoding loop of a round: the document count, then per posting
      the document gap, the term frequency and the position gaps. */
  method EncodePostings(ps: seq<Posting>) returns (enc: seq<byte>)
    requires TfCounts(ps)
    ensures enc == ListBytes(ps)
  {
    enc := Indexer.VByteEncodeUInt32(Low32(|ps|), []);
    EncodeAllAppend([Low32(|ps|)], PostingNumbers(ps, 0));
    var last: uint32 := 0;
    for i := 0 to |ps|
      invariant enc + EncodeAll(PostingNumbers(ps[i..], last)) == ListBytes(ps)
    {
      ghost var before := enc;
      enc := EncodePosting(enc, last, ps[i]);
      EncodeLoopStep(ps, i, last, before, enc, ListBytes(ps));
      last := ps[i].docid;
    }
  }

  /** The body of the encoding loop for one posting. */
  method EncodePosting(out: seq<byte>, last: uint32, p: Posting) returns (res: seq<byte>)
    requires p.tf == Low32(|p.positions|)
    ensures res == out + Encode(Sub32(p.docid, last)) + Encode(p.tf) + EncodeAll(PositionGaps(p.positions, 0))
  {
    res := Indexer.VByteEncodeUInt32(Sub32(p.docid, last), out);
    res := Indexer.VByteEncodeUInt32(Low32(|p.positions|), res);
    res := EncodeGaps(res, p.positions);
  }
}
