/** indexer.cpp, merge_blocks: the block files written by the first pass
    are merged term by term. Each round takes the smallest current term of
    all readers, gathers the current line of every reader on that term and
    advances those readers, parses the gathered lines into (docid,
    positions) pairs, merges them per document, sorts, and appends the
    VByte stream of the term's postings to postings.bin, recording a
    lexicon entry for it. */
module IndexerMerge {
  import opened Common
  import opened VByte
  import opened Ordering
  import opened Decimal
  import opened Postings
  import Indexer

  // ---------------------------------------------------------------------
  // Text of a block line, read with indices as the source does

  /** `s.find(c, i)` looking no further than `hi`: the first index from `i`
      on that holds `c`, or `hi` for `npos`. */
  function FindIn(s: string, c: char, i: nat, hi: nat): (k: nat)
    requires i <= hi <= |s|
    ensures i <= k <= hi
    decreases hi - i
  {
    if i == hi || s[i] == c then i else FindIn(s, c, i + 1, hi)
  }

  /** Where the term of a block line ends: its first tab, or its end. */
  function Tab(line: string): nat {
    FindIn(line, '\t', 0, |line|)
  }

  /** The term of a block line: the text before the first tab, or the whole
      line without one (the `read_line_state` lambda). */
  function TermOf(line: string): string {
    line[..Tab(line)]
  }

  /** Both parts parsed, or `None` as soon as either throws. */
  function Then<T>(a: Option<seq<T>>, b: Option<seq<T>>): Option<seq<T>> {
    if a.None? || b.None? then None else Some(a.value + b.value)
  }

  /** One position token `s[lo..hi]`, read with `stoul` and cast to
      `uint32_t`; an empty token is skipped. */
  function Token(s: string, lo: nat, hi: nat): Option<seq<uint32>>
    requires lo <= hi <= |s|
  {
    if lo == hi then Some([])
    else match StoulIn(s, lo, hi) case None => None case Some(v) => Some([Low32(v)])
  }

  /** The position list `s[p..hi]` of one posting: tokens separated by ',';
      `None` where `stoul` throws, which ends the program. */
  function ParsePositions(s: string, p: nat, hi: nat): Option<seq<uint32>>
    requires p <= hi <= |s|
    decreases hi - p
  {
    if p == hi then Some([])
    else
      var comma := FindIn(s, ',', p, hi);
      Then(Token(s, p, comma), if comma == hi then Some([]) else ParsePositions(s, comma + 1, hi))
  }

  /** One `docid:positions` segment: the docid `s[idx..colon]` read with
      `stoul` and cast to `uint32_t`, then the positions up to `semi`. */
  function Segment(s: string, idx: nat, colon: nat, semi: nat): Option<seq<Indexer.BlockPosting>>
    requires idx <= colon < semi <= |s|
  {
    match StoulIn(s, idx, colon)
    case None => None
    case Some(d) =>
      match ParsePositions(s, colon + 1, semi)
      case None => None
      case Some(pos) => Some([Indexer.BlockPosting(Low32(d), pos)])
  }

  /** The segments of `s` from `idx` on, separated by ';'. A docid runs up
      to the next ':', wherever that is; parsing stops when no ':' is left. */
  function ParseSegments(s: string, idx: nat): Option<seq<Indexer.BlockPosting>>
    requires idx <= |s|
    decreases |s| - idx, 1
  {
    if idx == |s| then Some([])
    else
      var colon := FindIn(s, ':', idx, |s|);
      if colon == |s| then Some([])
      else SegmentAndRest(s, idx, colon, FindIn(s, ';', colon + 1, |s|))
  }

  /** The segments after the ';' at `semi`, none when `semi` is the end. */
  function SegmentsAfter(s: string, semi: nat): Option<seq<Indexer.BlockPosting>>
    requires semi <= |s|
  {
    if semi == |s| then Some([]) else ParseSegments(s, semi + 1)
  }

  /** The segment `s[idx..semi]` with its ':' at `colon`, followed by the
      segments after the ';' at `semi`, if there is one. */
  function SegmentAndRest(s: string, idx: nat, colon: nat, semi: nat): Option<seq<Indexer.BlockPosting>>
    requires idx <= colon < semi <= |s|
    decreases |s| - idx, 0
  {
    Then(Segment(s, idx, colon, semi), if semi == |s| then Some([]) else ParseSegments(s, semi + 1))
  }

  /** The postings of a block line: the segments after its first tab; none
      without a tab. */
  function LineSegments(line: string): Option<seq<Indexer.BlockPosting>> {
    var t := Tab(line);
    if t == |line| then Some([]) else ParseSegments(line, t + 1)
  }

  // ---------------------------------------------------------------------
  // The parser reads back what flush_block_to_disk writes

  lemma AtSplit(s: string, lo: nat, a: string, b: string)
    requires At(s, lo, a + b)
    ensures At(s, lo, a) && At(s, lo + |a|, b)
  {
    forall j | 0 <= j < |a| ensures s[lo + j] == a[j] {
      assert (a + b)[j] == a[j];
    }
    forall j | 0 <= j < |b| ensures s[lo + |a| + j] == b[j] {
      assert (a + b)[|a| + j] == b[j];
    }
  }

  /** Where the parts of `a + [c] + b` stand. */
  lemma AtAround(s: string, lo: nat, a: string, c: char, b: string)
    requires At(s, lo, a + [c] + b)
    ensures At(s, lo, a) && lo + |a| < |s| && s[lo + |a|] == c && At(s, lo + |a| + 1, b)
  {
    AtSplit(s, lo, a + [c], b);
    AtSplit(s, lo, a, [c]);
    assert s[lo + |a| + 0] == [c][0];
  }

  lemma AtIndex(s: string, lo: nat, t: string, j: nat)
    requires At(s, lo, t) && j < |t|
    ensures s[lo + j] == t[j]
  {
  }

  /** `find` stops at the first occurrence. */
  lemma {:induction false} FindInAt(s: string, c: char, i: nat, hi: nat, k: nat)
    requires i <= k < hi <= |s| && s[k] == c
    requires forall j :: i <= j < k ==> s[j] != c
    ensures FindIn(s, c, i, hi) == k
    decreases k - i
  {
    if i < k {
      FindInAt(s, c, i + 1, hi, k);
    }
  }

  /** `find` returns `npos` when the character does not occur. */
  lemma {:induction false} FindInNone(s: string, c: char, i: nat, hi: nat)
    requires i <= hi <= |s|
    requires forall j :: i <= j < hi ==> s[j] != c
    ensures FindIn(s, c, i, hi) == hi
    decreases hi - i
  {
    if i < hi {
      FindInNone(s, c, i + 1, hi);
    }
  }

  /** Digits and ',' only: the text of a position list. */
  predicate PositionText(t: string) {
    forall i :: 0 <= i < |t| ==> IsDigit(t[i]) || t[i] == ','
  }

  lemma {:induction false} JoinNumbersText(xs: seq<uint32>)
    ensures PositionText(Indexer.JoinNumbers(xs, ','))
  {
    if |xs| > 1 {
      JoinNumbersText(xs[1..]);
    }
  }

  /** A character that does not occur in `t` does not occur where `t`
      stands. */
  lemma AtAvoids(s: string, lo: nat, t: string, c: char)
    requires At(s, lo, t) && forall i :: 0 <= i < |t| ==> t[i] != c
    ensures forall j :: lo <= j < lo + |t| ==> s[j] != c
  {
    forall j | lo <= j < lo + |t| ensures s[j] != c {
      AtIndex(s, lo, t, j - lo);
    }
  }

  /** The text `t + [c]` at `lo`, where `c` does not occur in `t`: `find`
      from `lo` stops at `c`. */
  lemma FindAfter(s: string, lo: nat, hi: nat, t: string, c: char)
    requires At(s, lo, t + [c]) && lo + |t| < hi <= |s|
    requires forall i :: 0 <= i < |t| ==> t[i] != c
    ensures FindIn(s, c, lo, hi) == lo + |t|
  {
    AtSplit(s, lo, t, [c]);
    AtIndex(s, lo + |t|, [c], 0);
    AtAvoids(s, lo, t, c);
    FindInAt(s, c, lo, hi, lo + |t|);
  }

  /** A number written with `to_string` reads back as one token. */
  lemma TokenAt(s: string, lo: nat, hi: nat, x: uint32)
    requires At(s, lo, ToDecimal(x)) && hi == lo + |ToDecimal(x)|
    ensures Token(s, lo, hi) == Some([x])
  {
    StoulInDecimal(s, lo, hi, x as nat);
  }

  lemma PositionsOne(s: string, lo: nat, hi: nat, x: uint32)
    requires At(s, lo, ToDecimal(x)) && hi == lo + |ToDecimal(x)|
    ensures ParsePositions(s, lo, hi) == Some([x])
  {
    AtAvoids(s, lo, ToDecimal(x), ',');
    FindInNone(s, ',', lo, hi);
    TokenAt(s, lo, hi, x);
    assert [x] + [] == [x];
  }

  lemma PositionsCons(s: string, lo: nat, comma: nat, hi: nat, xs: seq<uint32>)
    requires |xs| > 1 && comma == lo + |ToDecimal(xs[0])| && comma < hi <= |s|
    requires At(s, lo, ToDecimal(xs[0]) + [','])
    requires ParsePositions(s, comma + 1, hi) == Some(xs[1..])
    ensures ParsePositions(s, lo, hi) == Some(xs)
  {
    FindAfter(s, lo, hi, ToDecimal(xs[0]), ',');
    AtSplit(s, lo, ToDecimal(xs[0]), [',']);
    TokenAt(s, lo, comma, xs[0]);
    PositionsStep(s, lo, comma, hi);
    assert xs == [xs[0]] + xs[1..];
  }

  lemma PositionsStep(s: string, lo: nat, comma: nat, hi: nat)
    requires lo <= comma < hi <= |s| && FindIn(s, ',', lo, hi) == comma
    ensures ParsePositions(s, lo, hi) == Then(Token(s, lo, comma), ParsePositions(s, comma + 1, hi))
  {
  }

  /** The position list `flush_block_to_disk` writes reads back as the
      positions written. */
  lemma {:induction false} PositionsRoundTrip(s: string, lo: nat, hi: nat, xs: seq<uint32>)
    requires At(s, lo, Indexer.JoinNumbers(xs, ',')) && hi == lo + |Indexer.JoinNumbers(xs, ',')|
    ensures ParsePositions(s, lo, hi) == Some(xs)
    decreases |xs|
  {
    if |xs| == 1 {
      PositionsOne(s, lo, hi, xs[0]);
      assert xs == [xs[0]];
    } else if |xs| > 1 {
      var d := ToDecimal(xs[0]);
      var tail := Indexer.JoinNumbers(xs[1..], ',');
      assert Indexer.JoinNumbers(xs, ',') == d + [','] + tail;
      AtSplit(s, lo, d + [','], tail);
      var comma := lo + |d|;
      PositionsRoundTrip(s, comma + 1, hi, xs[1..]);
      PositionsCons(s, lo, comma, hi, xs);
    }
  }

  /** Where the parts of one posting's text stand. */
  lemma SegmentFinds(s: string, lo: nat, colon: nat, semi: nat, b: Indexer.BlockPosting)
    requires At(s, lo, Indexer.SegmentText(b)) && semi == lo + |Indexer.SegmentText(b)|
    requires colon == lo + |ToDecimal(b.docid)|
    requires semi == |s| || s[semi] == ';'
    ensures colon < semi && FindIn(s, ':', lo, |s|) == colon && FindIn(s, ';', colon + 1, |s|) == semi
    ensures At(s, lo, ToDecimal(b.docid)) && At(s, colon + 1, Indexer.JoinNumbers(b.positions, ','))
  {
    var d := ToDecimal(b.docid);
    var p := Indexer.JoinNumbers(b.positions, ',');
    assert Indexer.SegmentText(b) == d + [':'] + p;
    AtSplit(s, lo, d + [':'], p);
    FindAfter(s, lo, |s|, d, ':');
    AtSplit(s, lo, d, [':']);
    JoinNumbersText(b.positions);
    AtAvoids(s, colon + 1, p, ';');
    if semi == |s| {
      FindInNone(s, ';', colon + 1, |s|);
    } else {
      FindInAt(s, ';', colon + 1, |s|, semi);
    }
  }

  /** `Segment` from its two parts. */
  lemma SegmentOf(s: string, idx: nat, colon: nat, semi: nat, d: nat, pos: seq<uint32>)
    requires idx <= colon < semi <= |s|
    requires StoulIn(s, idx, colon) == Some(d) && ParsePositions(s, colon + 1, semi) == Some(pos)
    ensures Segment(s, idx, colon, semi) == Some([Indexer.BlockPosting(Low32(d), pos)])
  {
  }

  /** One step of `ParseSegments`. */
  lemma ParseSegmentsStep(s: string, idx: nat, colon: nat, semi: nat,
                          seg: seq<Indexer.BlockPosting>, rest: seq<Indexer.BlockPosting>)
    requires idx <= colon < semi <= |s|
    requires FindIn(s, ':', idx, |s|) == colon && FindIn(s, ';', colon + 1, |s|) == semi
    requires Segment(s, idx, colon, semi) == Some(seg)
    requires semi == |s| ==> rest == []
    requires semi < |s| ==> ParseSegments(s, semi + 1) == Some(rest)
    ensures ParseSegments(s, idx) == Some(seg + rest)
  {
    if semi == |s| {
      assert seg + [] == seg;
    }
  }

  /** One posting's text reads back as that posting. */
  lemma SegmentAt(s: string, lo: nat, colon: nat, semi: nat, b: Indexer.BlockPosting)
    requires colon < semi <= |s| && colon == lo + |ToDecimal(b.docid)|
    requires At(s, lo, ToDecimal(b.docid)) && colon < |s| && !IsDigit(s[colon])
    requires At(s, colon + 1, Indexer.JoinNumbers(b.positions, ','))
    requires semi == colon + 1 + |Indexer.JoinNumbers(b.positions, ',')|
    ensures Segment(s, lo, colon, semi) == Some([b])
  {
    StoulInDecimal(s, lo, colon, b.docid as nat);
    PositionsRoundTrip(s, colon + 1, semi, b.positions);
    SegmentOf(s, lo, colon, semi, b.docid as nat, b.positions);
  }

  /** The text of one posting, followed by the end of `s` or a ';'. */
  lemma SegmentStep(s: string, lo: nat, colon: nat, semi: nat, b: Indexer.BlockPosting)
    requires At(s, lo, Indexer.SegmentText(b)) && semi == lo + |Indexer.SegmentText(b)|
    requires colon == lo + |ToDecimal(b.docid)|
    requires semi == |s| || s[semi] == ';'
    ensures lo <= colon < semi <= |s|
    ensures FindIn(s, ':', lo, |s|) == colon && FindIn(s, ';', colon + 1, |s|) == semi
    ensures Segment(s, lo, colon, semi) == Some([b])
  {
    SegmentFinds(s, lo, colon, semi, b);
    assert Indexer.SegmentText(b) == ToDecimal(b.docid) + [':'] + Indexer.JoinNumbers(b.positions, ',');
    AtIndex(s, lo, Indexer.SegmentText(b), |ToDecimal(b.docid)|);
    SegmentAt(s, lo, colon, semi, b);
  }

  lemma SegmentsOne(s: string, lo: nat, b: Indexer.BlockPosting)
    requires At(s, lo, Indexer.SegmentText(b)) && |s| == lo + |Indexer.SegmentText(b)|
    ensures ParseSegments(s, lo) == Some([b])
  {
    var colon := lo + |ToDecimal(b.docid)|;
    SegmentStep(s, lo, colon, |s|, b);
    ParseSegmentsStep(s, lo, colon, |s|, [b], []);
    assert [b] + [] == [b];
  }

  /** Where the first posting's text and the ';' after it stand. */
  lemma SegmentsSplit(s: string, lo: nat, pl: seq<Indexer.BlockPosting>)
    requires |pl| > 1 && At(s, lo, Indexer.PostingsText(pl))
    ensures At(s, lo, Indexer.SegmentText(pl[0]))
    ensures lo + |Indexer.SegmentText(pl[0])| < |s| && s[lo + |Indexer.SegmentText(pl[0])|] == ';'
    ensures At(s, lo + |Indexer.SegmentText(pl[0])| + 1, Indexer.PostingsText(pl[1..]))
    ensures |Indexer.PostingsText(pl)| == |Indexer.SegmentText(pl[0])| + 1 + |Indexer.PostingsText(pl[1..])|
  {
    AtAround(s, lo, Indexer.SegmentText(pl[0]), ';', Indexer.PostingsText(pl[1..]));
  }

  lemma SegmentsCons(s: string, lo: nat, semi: nat, pl: seq<Indexer.BlockPosting>)
    requires |pl| > 1 && At(s, lo, Indexer.SegmentText(pl[0]))
    requires semi == lo + |Indexer.SegmentText(pl[0])| && semi < |s| && s[semi] == ';'
    requires ParseSegments(s, semi + 1) == Some(pl[1..])
    ensures ParseSegments(s, lo) == Some(pl)
  {
    var colon := lo + |ToDecimal(pl[0].docid)|;
    SegmentStep(s, lo, colon, semi, pl[0]);
    ParseSegmentsStep(s, lo, colon, semi, [pl[0]], pl[1..]);
    assert pl == [pl[0]] + pl[1..];
  }

  /** The postings text `flush_block_to_disk` writes, standing at `lo` up
      to the end of `s`, reads back as the postings written. */
  lemma {:induction false} SegmentsRoundTrip(s: string, lo: nat, pl: seq<Indexer.BlockPosting>)
    requires At(s, lo, Indexer.PostingsText(pl)) && |s| == lo + |Indexer.PostingsText(pl)|
    ensures ParseSegments(s, lo) == Some(pl)
    decreases |pl|
  {
    if |pl| == 1 {
      assert Indexer.PostingsText(pl) == Indexer.SegmentText(pl[0]);
      SegmentsOne(s, lo, pl[0]);
      assert pl == [pl[0]];
    } else if |pl| > 1 {
      SegmentsSplit(s, lo, pl);
      var semi := lo + |Indexer.SegmentText(pl[0])|;
      SegmentsRoundTrip(s, semi + 1, pl[1..]);
      SegmentsCons(s, lo, semi, pl);
    }
  }

  /** A line written by `flush_block_to_disk` for a term without a tab is
      read back as that term and exactly the block's postings. */
  lemma BlockLineRoundTrip(term: string, pl: seq<Indexer.BlockPosting>)
    requires '\t' !in term
    ensures TermOf(Indexer.BlockLine(term, pl)) == term
    ensures LineSegments(Indexer.BlockLine(term, pl)) == Some(pl)
  {
    var line := Indexer.BlockLine(term, pl);
    assert At(line, 0, line);
    AtSplit(line, 0, term + "\t", Indexer.PostingsText(pl));
    assert forall i :: 0 <= i < |term| ==> term[i] != '\t' by {
      forall i | 0 <= i < |term| ensures term[i] != '\t' {
        assert term[i] in term;
      }
    }
    FindAfter(line, 0, |line|, term, '\t');
    AtSplit(line, 0, term, "\t");
    SegmentsRoundTrip(line, |term| + 1, pl);
  }

  // ---------------------------------------------------------------------
  // The readers and the choice of the next term

  /** Where each reader stands in its block file. */
  predicate Cursor(files: seq<seq<string>>, idx: seq<nat>) {
    |idx| == |files| && forall i :: 0 <= i < |idx| ==> idx[i] <= |files[i]|
  }

  /** The term of reader `i`, `None` once it is exhausted. */
  function Current(files: seq<seq<string>>, idx: seq<nat>, i: nat): Option<string>
    requires Cursor(files, idx) && i < |files|
  {
    if idx[i] < |files[i]| then Some(TermOf(files[i][idx[i]])) else None
  }

  /** The smallest current term among readers `0..n-1`, first one wins. */
  function MinTerm(files: seq<seq<string>>, idx: seq<nat>, n: nat): Option<string>
    requires Cursor(files, idx) && n <= |files|
  {
    if n == 0 then None
    else
      var m := MinTerm(files, idx, n - 1);
      var c := Current(files, idx, n - 1);
      if c.None? then m
      else if m.None? || LexLess(c.value, m.value) then c
      else m
  }

  /** The minimum is some reader's term and is not after any reader's term. */
  lemma {:induction false} MinTermSpec(files: seq<seq<string>>, idx: seq<nat>, n: nat)
    requires Cursor(files, idx) && n <= |files|
    ensures MinTerm(files, idx, n).Some? <==> exists i :: 0 <= i < n && Current(files, idx, i).Some?
    ensures MinTerm(files, idx, n).Some? ==>
              (exists i :: 0 <= i < n && Current(files, idx, i) == MinTerm(files, idx, n))
              && forall i :: 0 <= i < n && Current(files, idx, i).Some? ==>
                   var m, c := MinTerm(files, idx, n).value, Current(files, idx, i).value;
                   m == c || LexLess(m, c)
  {
    if n > 0 {
      MinTermSpec(files, idx, n - 1);
      var m := MinTerm(files, idx, n - 1);
      var c := Current(files, idx, n - 1);
      if c.Some? && m.Some? {
        LexTotal(c.value, m.value);
        if LexLess(c.value, m.value) {
          forall i | 0 <= i < n - 1 && Current(files, idx, i).Some?
            ensures c.value == Current(files, idx, i).value || LexLess(c.value, Current(files, idx, i).value)
          {
            if m.value != Current(files, idx, i).value {
              LexTransitive(c.value, m.value, Current(files, idx, i).value);
            }
          }
        }
      }
    }
  }

  /** The current lines of readers `0..n-1` that are on term `t`, in reader
      order. */
  function Picked(files: seq<seq<string>>, idx: seq<nat>, t: string, n: nat): seq<string>
    requires Cursor(files, idx) && n <= |files|
  {
    if n == 0 then []
    else Picked(files, idx, t, n - 1) + (if Current(files, idx, n - 1) == Some(t) then [files[n - 1][idx[n - 1]]] else [])
  }

  /** Every reader on term `t` moves to its next line. */
  function Advanced(files: seq<seq<string>>, idx: seq<nat>, t: string): (r: seq<nat>)
    requires Cursor(files, idx)
    ensures Cursor(files, r)
  {
    seq(|idx|, i requires 0 <= i < |idx| => if Current(files, idx, i) == Some(t) then idx[i] + 1 else idx[i])
  }

  /** Lines not yet read by readers `0..n-1`. */
  function Remaining(files: seq<seq<string>>, idx: seq<nat>, n: nat): nat
    requires Cursor(files, idx) && n <= |files|
  {
    if n == 0 then 0 else Remaining(files, idx, n - 1) + (|files[n - 1]| - idx[n - 1])
  }

  lemma {:induction false} AdvanceDecreases(files: seq<seq<string>>, idx: seq<nat>, t: string, n: nat, j: nat)
    requires Cursor(files, idx) && n <= |files|
    requires j < n && Current(files, idx, j) == Some(t)
    ensures Remaining(files, Advanced(files, idx, t), n) < Remaining(files, idx, n)
  {
    AdvanceNotIncreases(files, idx, t, n - 1);
    if j < n - 1 {
      AdvanceDecreases(files, idx, t, n - 1, j);
    }
  }

  lemma {:induction false} AdvanceNotIncreases(files: seq<seq<string>>, idx: seq<nat>, t: string, n: nat)
    requires Cursor(files, idx) && n <= |files|
    ensures Remaining(files, Advanced(files, idx, t), n) <= Remaining(files, idx, n)
  {
    if n > 0 {
      AdvanceNotIncreases(files, idx, t, n - 1);
    }
  }

  /** One term of the merge and the block lines gathered for it. */
  datatype Group = Group(term: string, lines: seq<string>)

  /** The rounds of the merge loop from cursor `idx` on. */
  function MergeGroups(files: seq<seq<string>>, idx: seq<nat>): seq<Group>
    requires Cursor(files, idx)
    decreases Remaining(files, idx, |files|), 1
  {
    GroupsFrom(files, idx, MinTerm(files, idx, |files|))
  }

  /** The rounds from cursor `idx` on, `min` being its smallest current term. */
  function GroupsFrom(files: seq<seq<string>>, idx: seq<nat>, min: Option<string>): seq<Group>
    requires Cursor(files, idx) && min == MinTerm(files, idx, |files|)
    decreases Remaining(files, idx, |files|), 0
  {
    match min
    case None => []
    case Some(m) =>
      MinTermSpec(files, idx, |files|);
      var j :| 0 <= j < |files| && Current(files, idx, j) == Some(m);
      AdvanceDecreases(files, idx, m, |files|, j);
      [Group(m, Picked(files, idx, m, |files|))] + MergeGroups(files, Advanced(files, idx, m))
  }

  lemma MergeGroupsStep(files: seq<seq<string>>, idx: seq<nat>, m: string)
    requires Cursor(files, idx) && MinTerm(files, idx, |files|) == Some(m)
    ensures MergeGroups(files, idx) == [Group(m, Picked(files, idx, m, |files|))] + MergeGroups(files, Advanced(files, idx, m))
    ensures Remaining(files, Advanced(files, idx, m), |files|) < Remaining(files, idx, |files|)
  {
    MinTermSpec(files, idx, |files|);
    var j :| 0 <= j < |files| && Current(files, idx, j) == Some(m);
    AdvanceDecreases(files, idx, m, |files|, j);
  }

  lemma MergeGroupsEnd(files: seq<seq<string>>, idx: seq<nat>)
    requires Cursor(files, idx) && MinTerm(files, idx, |files|).None?
    ensures MergeGroups(files, idx) == []
  {
  }

  function Start(files: seq<seq<string>>): (idx: seq<nat>)
    ensures Cursor(files, idx)
  {
    seq(|files|, i => 0)
  }

  /** The first loop of a round: the smallest current term, a later reader
      replacing the candidate only when its term is strictly smaller. */
  method FindMin(files: seq<seq<string>>, idx: seq<nat>) returns (min: Option<string>)
    requires Cursor(files, idx)
    ensures min == MinTerm(files, idx, |files|)
  {
    min := None;
    for i := 0 to |files|
      invariant min == MinTerm(files, idx, i)
    {
      if idx[i] < |files[i]| {
        var term := TermOf(files[i][idx[i]]);
        if min.None? || LexLess(term, min.value) {
          min := Some(term);
        }
      }
    }
  }

  /** The second loop of a round: the current line of every reader on
      `term`, in reader order, each of those readers moving on by one line. */
  method Gather(files: seq<seq<string>>, idx: seq<nat>, term: string) returns (lines: seq<string>, next: seq<nat>)
    requires Cursor(files, idx)
    ensures lines == Picked(files, idx, term, |files|)
    ensures next == Advanced(files, idx, term)
  {
    lines := [];
    next := idx;
    for i := 0 to |files|
      invariant |next| == |idx|
      invariant lines == Picked(files, idx, term, i)
      invariant forall k :: 0 <= k < |idx| ==> next[k] == if k < i then Advanced(files, idx, term)[k] else idx[k]
    {
      if idx[i] < |files[i]| && TermOf(files[i][idx[i]]) == term {
        lines := lines + [files[i][idx[i]]];
        next := next[i := idx[i] + 1];
      }
    }
  }

  // ---------------------------------------------------------------------
  // The term order of the merge: the finding about unsorted block files

  /** A block file whose lines are in strictly increasing term order. */
  predicate SortedFile(file: seq<string>) {
    forall i, j :: 0 <= i < j < |file| ==> LexLess(TermOf(file[i]), TermOf(file[j]))
  }

  /** Every term still to be read lies strictly after `m`. */
  predicate AllAfter(files: seq<seq<string>>, idx: seq<nat>, m: string)
    requires Cursor(files, idx)
  {
    forall i, k :: 0 <= i < |files| && idx[i] <= k < |files[i]| ==> LexLess(m, TermOf(files[i][k]))
  }

  /** With sorted files, every term still to be read after a round lies
      strictly after the round's term. */
  lemma AdvancePassesMin(files: seq<seq<string>>, idx: seq<nat>, m: string)
    requires Cursor(files, idx) && forall i :: 0 <= i < |files| ==> SortedFile(files[i])
    requires MinTerm(files, idx, |files|) == Some(m)
    ensures AllAfter(files, Advanced(files, idx, m), m)
  {
    MinTermSpec(files, idx, |files|);
    var idx2 := Advanced(files, idx, m);
    forall i, k | 0 <= i < |files| && idx2[i] <= k < |files[i]| ensures LexLess(m, TermOf(files[i][k])) {
      var c := TermOf(files[i][idx[i]]);
      assert Current(files, idx, i) == Some(c);
      if c != m {
        assert LexLess(m, c);
        if k > idx[i] {
          LexTransitive(m, c, TermOf(files[i][k]));
        }
      }
    }
  }

  /** Every term of the later rounds is a term still to be read. */
  lemma {:induction false} GroupTermsAhead(files: seq<seq<string>>, idx: seq<nat>, m: string)
    requires Cursor(files, idx) && AllAfter(files, idx, m)
    ensures forall g :: g in MergeGroups(files, idx) ==> LexLess(m, g.term)
    decreases Remaining(files, idx, |files|)
  {
    var r := MinTerm(files, idx, |files|);
    if r.None? {
      MergeGroupsEnd(files, idx);
    } else {
      MergeGroupsStep(files, idx, r.value);
      MinTermSpec(files, idx, |files|);
      var j :| 0 <= j < |files| && Current(files, idx, j) == r;
      assert LexLess(m, TermOf(files[j][idx[j]]));
      var idx2 := Advanced(files, idx, r.value);
      assert AllAfter(files, idx2, m) by {
        forall i, k | 0 <= i < |files| && idx2[i] <= k < |files[i]| ensures LexLess(m, TermOf(files[i][k])) {
        }
      }
      GroupTermsAhead(files, idx2, m);
    }
  }

  /** Over sorted block files the merge emits every term once, in strictly
      increasing order. */
  lemma {:induction false} MergeOfSortedFiles(files: seq<seq<string>>, idx: seq<nat>)
    requires Cursor(files, idx) && forall i :: 0 <= i < |files| ==> SortedFile(files[i])
    ensures forall a, b :: 0 <= a < b < |MergeGroups(files, idx)| ==>
              LexLess(MergeGroups(files, idx)[a].term, MergeGroups(files, idx)[b].term)
    decreases Remaining(files, idx, |files|)
  {
    var r := MinTerm(files, idx, |files|);
    if r.Some? {
      var m := r.value;
      MergeGroupsStep(files, idx, m);
      var idx2 := Advanced(files, idx, m);
      AdvancePassesMin(files, idx, m);
      GroupTermsAhead(files, idx2, m);
      MergeOfSortedFiles(files, idx2);
      var gs := MergeGroups(files, idx);
      forall a, b | 0 <= a < b < |gs| ensures LexLess(gs[a].term, gs[b].term) {
        if a == 0 {
          assert gs[b] in MergeGroups(files, idx2);
        } else {
          assert gs[a] == MergeGroups(files, idx2)[a - 1];
        }
      }
    }
  }

  lemma TermBeforeTab(line: string, k: nat)
    requires k < |line| && line[k] == '\t' && forall j :: 0 <= j < k ==> line[j] != '\t'
    ensures TermOf(line) == line[..k]
  {
    FindInAt(line, '\t', 0, |line|, k);
  }

  /** As written, the first pass writes each block's terms in hash-table
      order, not sorted: with blocks `b, a` and `a` the merge emits `a`,
      `b` and then `a` again, so one term receives two lexicon entries and
      two separate postings lists. */
  lemma MergeOfUnsortedFilesRepeatsTerm()
    ensures var files := [["b\t1:0", "a\t1:1"], ["a\t2:0"]];
            var gs := MergeGroups(files, Start(files));
            |gs| == 3 && gs[0].term == "a" && gs[1].term == "b" && gs[2].term == "a"
  {
    var files := [["b\t1:0", "a\t1:1"], ["a\t2:0"]];
    TermBeforeTab("b\t1:0", 1);
    TermBeforeTab("a\t1:1", 1);
    TermBeforeTab("a\t2:0", 1);
    assert "b\t1:0"[..1] == "b" && "a\t1:1"[..1] == "a" && "a\t2:0"[..1] == "a";
    assert LexLess("a", "b");
    var i0 := Start(files);
    assert Current(files, i0, 0) == Some("b") && Current(files, i0, 1) == Some("a");
    assert MinTerm(files, i0, 1) == Some("b");
    assert MinTerm(files, i0, 2) == Some("a");
    var i1 := Advanced(files, i0, "a");
    assert i1 == [0, 1];
    assert Current(files, i1, 0) == Some("b") && Current(files, i1, 1) == None;
    assert MinTerm(files, i1, 1) == Some("b");
    assert MinTerm(files, i1, 2) == Some("b");
    var i2 := Advanced(files, i1, "b");
    assert i2 == [1, 1];
    assert Current(files, i2, 0) == Some("a") && Current(files, i2, 1) == None;
    assert MinTerm(files, i2, 1) == Some("a");
    assert MinTerm(files, i2, 2) == Some("a");
    var i3 := Advanced(files, i2, "a");
    assert i3 == [2, 1];
    assert MinTerm(files, i3, 1) == None;
    assert MinTerm(files, i3, 2) == None;
    MergeGroupsEnd(files, i3);
    MergeGroupsStep(files, i2, "a");
    var g2 := MergeGroups(files, i2);
    MergeGroupsStep(files, i1, "b");
    var g1 := MergeGroups(files, i1);
    MergeGroupsStep(files, i0, "a");
    var g0 := MergeGroups(files, i0);
  }

  /** The correction: a block's terms written in ascending order instead of
      the hash table's order, so that every block file is sorted and the
      merge emits each term once. */
  method FlushBlockSorted(dict: Indexer.BlockDict, order: seq<string>) returns (lines: seq<string>)
    requires forall t :: t in dict <==> t in order
    requires Distinct(order)
    ensures |lines| == |order|
    ensures forall i :: 0 <= i < |lines| ==>
              exists t :: t in dict && lines[i] == Indexer.BlockLine(t, dict[t])
    ensures (forall t :: t in dict ==> '\t' !in t) ==> SortedFile(lines)
  {
    var terms := SortStrings(order);
    assert forall t :: t in terms <==> t in order by {
      forall t ensures t in terms <==> t in order {
        assert t in terms <==> t in multiset(terms);
        assert t in order <==> t in multiset(order);
      }
    }
    assert |terms| == |order| by {
      assert |multiset(terms)| == |multiset(order)|;
    }
    lines := Indexer.FlushBlock(dict, terms);
    forall i | 0 <= i < |lines| ensures exists t :: t in dict && lines[i] == Indexer.BlockLine(t, dict[t]) {
      assert terms[i] in dict;
    }
    if forall t :: t in dict ==> '\t' !in t {
      SortedTermsSortedFile(dict, terms, lines);
    }
  }

  lemma SortedTermsSortedFile(dict: Indexer.BlockDict, terms: seq<string>, lines: seq<string>)
    requires StrictlySorted(terms) && |lines| == |terms|
    requires forall i :: 0 <= i < |terms| ==> terms[i] in dict && '\t' !in terms[i]
    requires forall i :: 0 <= i < |terms| ==> lines[i] == Indexer.BlockLine(terms[i], dict[terms[i]])
    ensures SortedFile(lines)
  {
    forall i, j | 0 <= i < j < |lines| ensures LexLess(TermOf(lines[i]), TermOf(lines[j])) {
      BlockLineRoundTrip(terms[i], dict[terms[i]]);
      BlockLineRoundTrip(terms[j], dict[terms[j]]);
    }
  }
}
