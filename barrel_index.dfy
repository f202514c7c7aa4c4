/** barrel.cpp, main: the block indexes are merged into one index, each
    term's postings are sorted by docid, postings of the same document are
    combined and their positions sorted and made unique; then the terms are
    written in lexicographic order to the lexicon (`term count offset`) and
    their number streams, in barrel.cpp's variable-byte code, to the
    postings file. */
module BarrelIndex {
  import opened Common
  import opened Ordering
  import opened Decimal
  import opened Text
  import Indexer
  import Postings
  import opened Barrel
  import opened BarrelBlock

  type Index = map<string, seq<BlockPosting>>

  // ---------------------------------------------------------------------
  // Merging the block indexes

  /** The list of `t` in `m`, empty when `t` is absent (`operator[]`). */
  function Get(m: Index, t: string): seq<BlockPosting> {
    if t in m then m[t] else []
  }

  /** One block index appended, term by term, to the index so far. */
  function AddAll(m: Index, b: Index): (r: Index)
    ensures forall t :: t in r <==> t in m || t in b
  {
    map t | t in m.Keys + b.Keys :: Get(m, t) + Get(b, t)
  }

  /** The index after merging the given block indexes, in order. */
  function Gathered(blocks: seq<Index>): Index {
    if blocks == [] then map[] else AddAll(Gathered(blocks[..|blocks| - 1]), blocks[|blocks| - 1])
  }

  /** No key listed twice: the traversal order of an `unordered_map`. */
  ghost predicate Traversal<V>(m: map<string, V>, order: seq<string>) {
    (forall t :: t in m <==> t in order)
    && forall i, j :: 0 <= i < j < |order| ==> order[i] != order[j]
  }

  /** The inner loop of the merge: every term of one block, in the order
      the block's `unordered_map` is traversed, appended to the final index. */
  method AddBlock(finalIndex: Index, block: Index, order: seq<string>) returns (r: Index)
    requires Traversal(block, order)
    ensures r == AddAll(finalIndex, block)
  {
    r := finalIndex;
    ghost var seen: set<string> := {};
    for i := 0 to |order|
      invariant seen <= block.Keys
      invariant forall k :: 0 <= k < |order| ==> (order[k] in seen <==> k < i)
      invariant forall t :: t in r <==> t in finalIndex || t in seen
      invariant forall t :: t in r ==> r[t] == Get(finalIndex, t) + (if t in seen then block[t] else [])
    {
      var t := order[i];
      assert forall k :: 0 <= k < |order| && k != i ==> order[k] != t;
      var dest := if t in r then r[t] else [];
      r := r[t := dest + block[t]];
      seen := seen + {t};
    }
    AllSeen(finalIndex, block, order, seen, r);
  }

  /** Once every term of the block is seen, the index is the sum. */
  lemma AllSeen(m: Index, b: Index, order: seq<string>, seen: set<string>, r: Index)
    requires Traversal(b, order) && seen <= b.Keys
    requires forall k :: 0 <= k < |order| ==> order[k] in seen
    requires forall t :: t in r <==> t in m || t in seen
    requires forall t :: t in r ==> r[t] == Get(m, t) + (if t in seen then b[t] else [])
    ensures r == AddAll(m, b)
  {
    forall t | t in b ensures t in seen {
      var k :| 0 <= k < |order| && order[k] == t;
    }
    forall t | t in r ensures r[t] == AddAll(m, b)[t] {
      if t !in seen {
        assert Get(m, t) + [] == Get(m, t);
      }
    }
  }

  /** The outer loop of the merge: every block file read and added. */
  method MergeBlocks(files: seq<seq<string>>, orders: seq<seq<string>>) returns (finalIndex: Index)
    requires |orders| == |files|
    requires forall k :: 0 <= k < |files| ==> Traversal(BlockOf(files[k]), orders[k])
    ensures finalIndex == Gathered(Blocks(files))
  {
    finalIndex := map[];
    for k := 0 to |files|
      invariant finalIndex == Gathered(Blocks(files[..k]))
    {
      var block := ReadBlock(files[k]);
      assert Blocks(files[..k + 1]) == Blocks(files[..k]) + [block];
      finalIndex := AddBlock(finalIndex, block, orders[k]);
    }
    assert files[..|files|] == files;
  }

  /** The block index of each file. */
  function Blocks(files: seq<seq<string>>): (r: seq<Index>)
    ensures |r| == |files| && forall k :: 0 <= k < |files| ==> r[k] == BlockOf(files[k])
  {
    seq(|files|, k requires 0 <= k < |files| => BlockOf(files[k]))
  }

  /** Every posting the files give for `t`: file by file, line by line. */
  function FilesLines(files: seq<seq<string>>, t: string): seq<BlockPosting> {
    if files == [] then [] else FilesLines(files[..|files| - 1], t) + TermLines(files[|files| - 1], t)
  }

  /** After the merge a term holds the postings of all its lines in all
      files, in file order, and it is present exactly when it has any. */
  lemma {:induction false} MergedLines(files: seq<seq<string>>, t: string)
    ensures t in Gathered(Blocks(files)) <==> FilesLines(files, t) != []
    ensures t in Gathered(Blocks(files)) ==> Gathered(Blocks(files))[t] == FilesLines(files, t)
  {
    if files != [] {
      var init := files[..|files| - 1];
      assert Blocks(files)[..|files| - 1] == Blocks(init);
      MergedLines(init, t);
      BlockCollectsLines(files[|files| - 1], t);
    }
  }

  // ---------------------------------------------------------------------
  // Sorting, combining and de-duplicating one term's postings

  function Docids(ps: seq<BlockPosting>): (r: seq<uint32>)
    ensures |r| == |ps| && forall i :: 0 <= i < |ps| ==> r[i] == ps[i].docid
  {
    seq(|ps|, i requires 0 <= i < |ps| => ps[i].docid)
  }

  /** Some posting of `ps` is for document `d`. */
  ghost predicate HasDoc(ps: seq<BlockPosting>, d: uint32) {
    exists k :: 0 <= k < |ps| && ps[k].docid == d
  }

  /** Some posting of `ps` for document `d` has position `x`. */
  ghost predicate HasPos(ps: seq<BlockPosting>, d: uint32, x: uint32) {
    exists k :: 0 <= k < |ps| && ps[k].docid == d && x in ps[k].positions
  }

  /** `out` is the merged form of `ps`: one posting per document of `ps`,
      by increasing docid, each with the positions `ps` gives that
      document, strictly increasing. */
  ghost predicate Normalized(out: seq<BlockPosting>, ps: seq<BlockPosting>) {
    StrictlyAscending(Docids(out))
    && (forall d :: HasDoc(out, d) <==> HasDoc(ps, d))
    && (forall i :: 0 <= i < |out| ==> StrictlyAscending(out[i].positions))
    && (forall i, x :: 0 <= i < |out| ==> (x in out[i].positions <==> HasPos(ps, out[i].docid, x)))
  }

  /** The loop combining neighbours with the same docid, with its
      invariant lifted out. */
  ghost predicate MergedSoFar(merged: seq<BlockPosting>, sorted: seq<BlockPosting>, i: nat)
    requires i <= |sorted|
  {
    (merged == [] <==> i == 0)
    && (i > 0 ==> merged[|merged| - 1].docid == sorted[i - 1].docid)
    && StrictlyAscending(Docids(merged))
    && (forall d :: HasDoc(merged, d) <==> HasDoc(sorted[..i], d))
    && (forall j, x :: 0 <= j < |merged| ==> (x in merged[j].positions <==> HasPos(sorted[..i], merged[j].docid, x)))
  }

  function DocKey(p: BlockPosting): int { p.docid }

  /** `std::sort` by docid, then the loop that appends the positions of a
      posting to the previous one when their docids are equal, then the
      loop that sorts and de-duplicates each posting's positions. Postings
      with equal docids may come out of `std::sort` in any order; `SortBy`
      keeps input order, and `NormalizedUnique` shows that the outcome is
      the same for every order. */
  method NormalizePostings(postings: seq<BlockPosting>) returns (merged: seq<BlockPosting>)
    ensures Normalized(merged, postings)
  {
    var sorted := SortBy(postings, DocKey);
    SamePostings(sorted, postings);
    var combined := CombineSameDoc(sorted);
    merged := SortUniquePositions(combined);
    assert sorted[..|sorted|] == sorted;
  }

  /** The loop that appends the positions of a posting to the previous one
      when their docids are equal. */
  method CombineSameDoc(sorted: seq<BlockPosting>) returns (merged: seq<BlockPosting>)
    requires AscendingBy(sorted, DocKey)
    ensures MergedSoFar(merged, sorted, |sorted|)
  {
    merged := [];
    for i := 0 to |sorted|
      invariant MergedSoFar(merged, sorted, i)
    {
      var p := sorted[i];
      if merged != [] && merged[|merged| - 1].docid == p.docid {
        var last := merged[|merged| - 1];
        ExtendStep(merged, sorted, i);
        merged := merged[..|merged| - 1] + [Indexer.BlockPosting(last.docid, last.positions + p.positions)];
      } else {
        PushStep(merged, sorted, i);
        merged := merged + [p];
      }
    }
  }

  /** The loop that sorts and de-duplicates each posting's positions. */
  method SortUniquePositions(m0: seq<BlockPosting>) returns (merged: seq<BlockPosting>)
    ensures |merged| == |m0| && Docids(merged) == Docids(m0)
    ensures forall d :: HasDoc(merged, d) <==> HasDoc(m0, d)
    ensures forall k, x :: 0 <= k < |merged| ==> (x in merged[k].positions <==> x in m0[k].positions)
    ensures forall k :: 0 <= k < |merged| ==> StrictlyAscending(merged[k].positions)
  {
    merged := m0;
    for j := 0 to |merged|
      invariant |merged| == |m0|
      invariant forall k :: 0 <= k < |merged| ==> merged[k].docid == m0[k].docid
      invariant forall k, x :: 0 <= k < |merged| ==> (x in merged[k].positions <==> x in m0[k].positions)
      invariant forall k :: 0 <= k < j ==> StrictlyAscending(merged[k].positions)
    {
      if merged[j].positions != [] {
        var u := SortUnique(merged[j].positions);
        merged := merged[j := merged[j].(positions := u)];
      }
    }
    SameDocids(merged, m0);
  }

  /** `std::sort` then `std::unique` and `erase`: the same positions,
      strictly increasing. */
  function SortUnique(xs: seq<uint32>): (u: seq<uint32>)
    ensures StrictlyAscending(u) && forall x :: x in u <==> x in xs
  {
    var s := Sort(xs);
    var u := Unique(s);
    assert forall x :: x in u <==> x in xs by {
      forall x ensures x in u <==> x in xs {
        assert x in s <==> x in multiset(s);
        assert x in xs <==> x in multiset(xs);
      }
    }
    u
  }

  lemma SameDocids(a: seq<BlockPosting>, b: seq<BlockPosting>)
    requires |a| == |b| && forall k :: 0 <= k < |a| ==> a[k].docid == b[k].docid
    ensures Docids(a) == Docids(b)
    ensures forall d :: HasDoc(a, d) <==> HasDoc(b, d)
  {
  }

  lemma HasSnoc(ps: seq<BlockPosting>, p: BlockPosting)
    ensures forall d :: HasDoc(ps + [p], d) <==> HasDoc(ps, d) || p.docid == d
    ensures forall d, x :: HasPos(ps + [p], d, x) <==> HasPos(ps, d, x) || (p.docid == d && x in p.positions)
  {
    var q := ps + [p];
    forall d | HasDoc(ps, d) ensures HasDoc(q, d) {
      var k :| 0 <= k < |ps| && ps[k].docid == d;
      assert q[k] == ps[k];
    }
    forall d | HasDoc(q, d) && p.docid != d ensures HasDoc(ps, d) {
      var k :| 0 <= k < |q| && q[k].docid == d;
      assert k < |ps| && q[k] == ps[k];
    }
    assert q[|ps|] == p;
    forall d, x | HasPos(ps, d, x) ensures HasPos(q, d, x) {
      var k :| 0 <= k < |ps| && ps[k].docid == d && x in ps[k].positions;
      assert q[k] == ps[k];
    }
    forall d, x | HasPos(q, d, x) && !(p.docid == d && x in p.positions) ensures HasPos(ps, d, x) {
      var k :| 0 <= k < |q| && q[k].docid == d && x in q[k].positions;
      assert k < |ps| && q[k] == ps[k];
    }
  }

  /** A permutation has the same documents and positions. */
  lemma SamePostings(a: seq<BlockPosting>, b: seq<BlockPosting>)
    requires multiset(a) == multiset(b)
    ensures forall d :: HasDoc(a, d) <==> HasDoc(b, d)
    ensures forall d, x :: HasPos(a, d, x) <==> HasPos(b, d, x)
  {
    forall d ensures HasDoc(a, d) <==> HasDoc(b, d) {
      Carried(a, b, d, 0);
      Carried(b, a, d, 0);
    }
    forall d, x ensures HasPos(a, d, x) <==> HasPos(b, d, x) {
      Carried(a, b, d, x);
      Carried(b, a, d, x);
    }
  }

  lemma Carried(a: seq<BlockPosting>, b: seq<BlockPosting>, d: uint32, x: uint32)
    requires multiset(a) == multiset(b)
    ensures HasDoc(a, d) ==> HasDoc(b, d)
    ensures HasPos(a, d, x) ==> HasPos(b, d, x)
  {
    if HasDoc(a, d) {
      var k :| 0 <= k < |a| && a[k].docid == d;
      assert a[k] in multiset(b);
      var k' :| 0 <= k' < |b| && b[k'] == a[k];
    }
    if HasPos(a, d, x) {
      var k :| 0 <= k < |a| && a[k].docid == d && x in a[k].positions;
      assert a[k] in multiset(b);
      var k' :| 0 <= k' < |b| && b[k'] == a[k];
    }
  }

  /** The next posting starts a new document. */
  lemma PushStep(merged: seq<BlockPosting>, sorted: seq<BlockPosting>, i: nat)
    requires i < |sorted| && AscendingBy(sorted, DocKey) && MergedSoFar(merged, sorted, i)
    requires merged == [] || merged[|merged| - 1].docid != sorted[i].docid
    ensures MergedSoFar(merged + [sorted[i]], sorted, i + 1)
  {
    var p := sorted[i];
    var m := merged + [p];
    assert sorted[..i + 1] == sorted[..i] + [p];
    HasSnoc(sorted[..i], p);
    HasSnoc(merged, p);
    if merged != [] {
      assert DocKey(sorted[i - 1]) <= DocKey(p);
      forall a, b | 0 <= a < b < |m| ensures Docids(m)[a] < Docids(m)[b] {
        if b == |merged| {
          assert Docids(merged)[a] <= Docids(merged)[|merged| - 1];
        } else {
          assert Docids(merged)[a] < Docids(merged)[b];
        }
      }
    }
    forall j, x | 0 <= j < |m| ensures x in m[j].positions <==> HasPos(sorted[..i + 1], m[j].docid, x) {
      if j < |merged| {
        assert m[j] == merged[j];
        assert Docids(merged)[j] <= Docids(merged)[|merged| - 1];
      }
    }
  }

  /** The next posting is for the same document as the last one kept. */
  lemma ExtendStep(merged: seq<BlockPosting>, sorted: seq<BlockPosting>, i: nat)
    requires i < |sorted| && MergedSoFar(merged, sorted, i)
    requires merged != [] && merged[|merged| - 1].docid == sorted[i].docid
    ensures var last := merged[|merged| - 1];
            MergedSoFar(merged[..|merged| - 1] + [Indexer.BlockPosting(last.docid, last.positions + sorted[i].positions)],
                        sorted, i + 1)
  {
    var p := sorted[i];
    var last := merged[|merged| - 1];
    var n := Indexer.BlockPosting(last.docid, last.positions + p.positions);
    var m := merged[..|merged| - 1] + [n];
    assert sorted[..i + 1] == sorted[..i] + [p];
    HasSnoc(sorted[..i], p);
    HasSnoc(merged[..|merged| - 1], n);
    HasSnoc(merged[..|merged| - 1], last);
    assert merged == merged[..|merged| - 1] + [last];
    assert Docids(m) == Docids(merged);
    forall j, x | 0 <= j < |m| ensures x in m[j].positions <==> HasPos(sorted[..i + 1], m[j].docid, x) {
      if j < |merged| - 1 {
        assert m[j] == merged[j];
        assert Docids(merged)[j] < Docids(merged)[|merged| - 1];
      }
    }
  }

  /** The merged form of a postings list is unique: two outputs that are
      both merged forms of the same postings are equal. So the order in
      which `std::sort` leaves postings with equal docids does not matter. */
  lemma NormalizedUnique(a: seq<BlockPosting>, b: seq<BlockPosting>, ps: seq<BlockPosting>)
    requires Normalized(a, ps) && Normalized(b, ps)
    ensures a == b
  {
    SameDocs(a, b, ps);
    forall i | 0 <= i < |a| ensures a[i] == b[i] {
      assert a[i].docid == Docids(a)[i] == Docids(b)[i] == b[i].docid;
      SamePositions(a[i].positions, b[i].positions);
    }
  }

  /** Two strictly increasing sequences with the same elements are equal. */
  lemma SamePositions(xs: seq<uint32>, ys: seq<uint32>)
    requires StrictlyAscending(xs) && StrictlyAscending(ys) && forall x :: x in xs <==> x in ys
    ensures xs == ys
  {
    var ks := set x | x in xs;
    SortedSetUnique(xs, ks);
    SortedSetUnique(ys, ks);
  }

  lemma SameDocs(a: seq<BlockPosting>, b: seq<BlockPosting>, ps: seq<BlockPosting>)
    requires StrictlyAscending(Docids(a)) && StrictlyAscending(Docids(b))
    requires forall d :: HasDoc(a, d) <==> HasDoc(ps, d)
    requires forall d :: HasDoc(b, d) <==> HasDoc(ps, d)
    ensures Docids(a) == Docids(b)
  {
    forall x ensures x in Docids(a) <==> x in Docids(b) {
      DocidIn(a, x);
      DocidIn(b, x);
    }
    SamePositions(Docids(a), Docids(b));
  }

  lemma DocidIn(a: seq<BlockPosting>, x: uint32)
    ensures x in Docids(a) <==> HasDoc(a, x)
  {
    if HasDoc(a, x) {
      var k :| 0 <= k < |a| && a[k].docid == x;
      assert Docids(a)[k] == x;
    }
  }

  /** Postings that are a permutation of each other have the same merged
      form: it depends on neither the block order nor the traversal order. */
  lemma NormalizedPermutation(out: seq<BlockPosting>, ps: seq<BlockPosting>, qs: seq<BlockPosting>)
    requires multiset(ps) == multiset(qs) && Normalized(out, ps)
    ensures Normalized(out, qs)
  {
    SamePostings(ps, qs);
  }

  /** The loop over the final index that replaces every term's postings by
      their merged form. */
  method NormalizeAll(finalIndex: Index, order: seq<string>) returns (r: Index)
    requires Traversal(finalIndex, order)
    ensures r.Keys == finalIndex.Keys
    ensures forall t :: t in r ==> Normalized(r[t], finalIndex[t])
  {
    r := finalIndex;
    ghost var seen: set<string> := {};
    for i := 0 to |order|
      invariant r.Keys == finalIndex.Keys && seen <= r.Keys
      invariant forall k :: 0 <= k < |order| ==> (order[k] in seen <==> k < i)
      invariant forall t :: t in seen ==> Normalized(r[t], finalIndex[t])
      invariant forall t :: t in r && t !in seen ==> r[t] == finalIndex[t]
    {
      var t := order[i];
      assert forall k :: 0 <= k < |order| && k != i ==> order[k] != t;
      var merged := NormalizePostings(r[t]);
      r := r[t := merged];
      seen := seen + {t};
    }
    forall t | t in r ensures t in seen {
      var k :| 0 <= k < |order| && order[k] == t;
    }
  }

  // ---------------------------------------------------------------------
  // Writing lexicon.txt and postings.bin

  /** A merged posting as the number stream sees it: its `tf` is its
      number of positions cast to `uint32_t`. */
  function AsPosting(p: BlockPosting): Postings.Posting {
    Postings.Posting(p.docid, Low32(|p.positions|), p.positions)
  }

  function AsPostings(pl: seq<BlockPosting>): (r: seq<Postings.Posting>)
    ensures |r| == |pl| && forall k :: 0 <= k < |pl| ==> r[k] == AsPosting(pl[k])
  {
    seq(|pl|, k requires 0 <= k < |pl| => AsPosting(pl[k]))
  }

  /** The bytes a term's postings add to postings.bin: docid gap, `tf` and
      position gaps of each posting, in barrel.cpp's code. */
  function TermBytes(pl: seq<BlockPosting>): seq<byte> {
    CodeAll(Postings.PostingNumbers(AsPostings(pl), 0))
  }

  /** A lexicon.txt line: term, number of postings, byte offset. */
  function LexiconLine(term: string, count: nat, offset: nat): string {
    term + " " + ToDecimal(count) + " " + ToDecimal(offset) + "\n"
  }

  /** The lexicon lines of `terms`, the first one's postings starting at
      byte `offset`. */
  function LexiconLines(idx: Index, terms: seq<string>, offset: nat): (r: seq<string>)
    ensures |r| == |terms|
  {
    if terms == [] then []
    else [LexiconLine(terms[0], |Get(idx, terms[0])|, offset)]
         + LexiconLines(idx, terms[1..], offset + |TermBytes(Get(idx, terms[0]))|)
  }

  /** postings.bin: every term's bytes, in the order of `terms`. */
  function PostingsFile(idx: Index, terms: seq<string>): seq<byte> {
    if terms == [] then [] else TermBytes(Get(idx, terms[0])) + PostingsFile(idx, terms[1..])
  }

  /** The inner loops over one term's postings: docid gaps from the
      previous posting (`uint32_t` subtraction), the `tf`, then the
      position gaps. */
  method TermNumbers(pl: seq<BlockPosting>) returns (numbers: seq<uint32>)
    ensures numbers == Postings.PostingNumbers(AsPostings(pl), 0)
  {
    numbers := [];
    var lastDoc: uint32 := 0;
    assert pl[0..] == pl;
    for i := 0 to |pl|
      invariant numbers + Postings.PostingNumbers(AsPostings(pl[i..]), lastDoc) == Postings.PostingNumbers(AsPostings(pl), 0)
    {
      var p := pl[i];
      NumbersStep(pl, i, lastDoc);
      var before := numbers;
      numbers := numbers + [Postings.Sub32(p.docid, lastDoc), Low32(|p.positions|)];
      numbers := AppendGaps(numbers, p.positions);
      ConcatAssoc(before, [Postings.Sub32(p.docid, lastDoc), Low32(|p.positions|)], Postings.PositionGaps(p.positions, 0));
      lastDoc := p.docid;
    }
  }

  /** Two numbers per posting, docid gap and `tf`, plus one per position;
      no document count in front. */
  function StreamLength(pl: seq<BlockPosting>): nat {
    if pl == [] then 0 else 2 + |pl[0].positions| + StreamLength(pl[1..])
  }

  lemma {:induction false} GapsLength(xs: seq<uint32>, last: uint32)
    ensures |Postings.PositionGaps(xs, last)| == |xs|
    decreases |xs|
  {
    if xs != [] {
      GapsLength(xs[1..], xs[0]);
    }
  }

  /** The number stream of a term has length the sum of 2 + |positions|. */
  lemma {:induction false} NumbersLength(pl: seq<BlockPosting>, last: uint32)
    ensures |Postings.PostingNumbers(AsPostings(pl), last)| == StreamLength(pl)
    decreases |pl|
  {
    if pl != [] {
      var ps := AsPostings(pl);
      assert ps[1..] == AsPostings(pl[1..]);
      GapsLength(pl[0].positions, 0);
      NumbersLength(pl[1..], pl[0].docid);
    }
  }

  /** The loop over one posting's positions. */
  method AppendGaps(out: seq<uint32>, xs: seq<uint32>) returns (res: seq<uint32>)
    ensures res == out + Postings.PositionGaps(xs, 0)
  {
    res := out;
    var lastPos: uint32 := 0;
    assert xs[0..] == xs;
    for j := 0 to |xs|
      invariant res + Postings.PositionGaps(xs[j..], lastPos) == out + Postings.PositionGaps(xs, 0)
    {
      SliceCons(xs, j);
      ConcatAssoc(res, [Postings.Sub32(xs[j], lastPos)], Postings.PositionGaps(xs[j + 1..], xs[j]));
      res := res + [Postings.Sub32(xs[j], lastPos)];
      lastPos := xs[j];
    }
  }

  lemma NumbersStep(pl: seq<BlockPosting>, i: nat, last: uint32)
    requires i < |pl|
    ensures Postings.PostingNumbers(AsPostings(pl[i..]), last)
            == [Postings.Sub32(pl[i].docid, last), Low32(|pl[i].positions|)] + Postings.PositionGaps(pl[i].positions, 0)
               + Postings.PostingNumbers(AsPostings(pl[i + 1..]), pl[i].docid)
  {
    var a := AsPostings(pl[i..]);
    assert a[1..] == AsPostings(pl[i + 1..]);
  }

  /** The terms of the final index sorted with `std::sort`, then written
      in that order. */
  method WriteIndex(finalIndex: Index, order: seq<string>) returns (lexicon: seq<string>, postings: seq<byte>)
    requires Traversal(finalIndex, order)
    ensures var terms := SortStrings(order);
            lexicon == LexiconLines(finalIndex, terms, 0) && postings == PostingsFile(finalIndex, terms)
  {
    var terms := SortStrings(order);
    lexicon, postings := WriteTerms(finalIndex, terms);
  }

  /** The loop over the sorted terms: a lexicon line with the current
      offset, then the term's encoded numbers appended to postings.bin and
      the offset advanced by their length. */
  method WriteTerms(finalIndex: Index, terms: seq<string>) returns (lexicon: seq<string>, postings: seq<byte>)
    ensures lexicon == LexiconLines(finalIndex, terms, 0) && postings == PostingsFile(finalIndex, terms)
  {
    lexicon := [];
    postings := [];
    assert terms[0..] == terms;
    for i := 0 to |terms|
      invariant lexicon + LexiconLines(finalIndex, terms[i..], |postings|) == LexiconLines(finalIndex, terms, 0)
      invariant postings + PostingsFile(finalIndex, terms[i..]) == PostingsFile(finalIndex, terms)
    {
      lexicon, postings := WriteRound(finalIndex, terms, i, lexicon, postings);
    }
  }

  /** One round of the loop over the sorted terms. */
  method WriteRound(idx: Index, terms: seq<string>, i: nat, lexicon0: seq<string>, postings0: seq<byte>)
    returns (lexicon: seq<string>, postings: seq<byte>)
    requires i < |terms|
    ensures lexicon + LexiconLines(idx, terms[i + 1..], |postings|) == lexicon0 + LexiconLines(idx, terms[i..], |postings0|)
    ensures postings + PostingsFile(idx, terms[i + 1..]) == postings0 + PostingsFile(idx, terms[i..])
  {
    var offset := |postings0|;
    var term := terms[i];
    var pl := Get(idx, term);
    WriteStep(idx, terms, i, lexicon0, postings0);
    lexicon := lexicon0 + [LexiconLine(term, |pl|, offset)];
    postings := postings0;
    var encoded := WriteTerm(pl);
    if encoded != [] {
      postings := postings + encoded;
      offset := offset + |encoded|;
    }
  }

  /** One term's number stream encoded; writing nothing for an empty
      encoding is the same as appending it. */
  method WriteTerm(pl: seq<BlockPosting>) returns (encoded: seq<byte>)
    ensures encoded == TermBytes(pl)
  {
    var numbers := TermNumbers(pl);
    encoded := VbEncodeList(numbers, []);
  }

  lemma WriteStep(idx: Index, terms: seq<string>, i: nat, lexicon: seq<string>, postings: seq<byte>)
    requires i < |terms|
    ensures var pl := Get(idx, terms[i]);
            lexicon + LexiconLines(idx, terms[i..], |postings|)
            == (lexicon + [LexiconLine(terms[i], |pl|, |postings|)]) + LexiconLines(idx, terms[i + 1..], |postings + TermBytes(pl)|)
    ensures postings + PostingsFile(idx, terms[i..]) == (postings + TermBytes(Get(idx, terms[i]))) + PostingsFile(idx, terms[i + 1..])
  {
    var pl := Get(idx, terms[i]);
    SliceCons(terms, i);
    ConcatAssoc(lexicon, [LexiconLine(terms[i], |pl|, |postings|)], LexiconLines(idx, terms[i + 1..], |postings| + |TermBytes(pl)|));
    ConcatAssoc(postings, TermBytes(pl), PostingsFile(idx, terms[i + 1..]));
  }

  // ---------------------------------------------------------------------
  // What the written files say

  /** A lexicon line is one line whose space-separated fields are the
      term, the count and the offset, for a term without space or newline
      (as every term read with `>>` is). */
  lemma LexiconLineFields(term: string, count: nat, offset: nat)
    requires ' ' !in term && '\n' !in term
    ensures var line := LexiconLine(term, count, offset);
            |line| >= 1 && line[|line| - 1] == '\n' && '\n' !in line[..|line| - 1]
            && Split(line[..|line| - 1], ' ') == [term, ToDecimal(count), ToDecimal(offset)]
  {
    var a, b := ToDecimal(count), ToDecimal(offset);
    var fs := [term, a, b];
    var line := LexiconLine(term, count, offset);
    DigitsFree(a);
    DigitsFree(b);
    assert FreeOf(fs, ' ') && FreeOf(fs, '\n');
    JoinFree(fs, ' ', '\n');
    assert Join(fs, ' ') == term + [' '] + (a + [' '] + b) by {
      assert Join([b], ' ') == b;
      assert [a, b][1..] == [b];
      assert Join([a, b], ' ') == a + [' '] + b;
      assert fs[1..] == [a, b];
    }
    assert line == (term + [' '] + (a + [' '] + b)) + ['\n'];
    SplitJoin(fs, ' ');
  }

  lemma DigitsFree(s: string)
    requires AllDigits(s)
    ensures ' ' !in s && '\n' !in s
  {
  }

  lemma PrefixCons<T>(s: seq<T>, i: nat)
    requires 0 < i < |s|
    ensures s[..i] == [s[0]] + s[1..][..i - 1] && s[1..][i - 1] == s[i] && s[1..][i..] == s[i + 1..]
  {
  }

  lemma SliceSplit<T>(data: seq<T>, off: nat, x: seq<T>, y: seq<T>)
    requires off + |x + y| <= |data| && data[off..off + |x + y|] == x + y
    ensures data[off..off + |x|] == x && data[off + |x|..off + |x| + |y|] == y
  {
    forall j | 0 <= j < |x| ensures data[off..off + |x|][j] == x[j] {
      assert data[off + j] == data[off..off + |x + y|][j];
    }
    forall j | 0 <= j < |y| ensures data[off + |x|..off + |x| + |y|][j] == y[j] {
      assert data[off + |x| + j] == data[off..off + |x + y|][|x| + j];
    }
  }

  lemma SliceMiddle<T>(a: seq<T>, b: seq<T>, c: seq<T>)
    ensures (a + b + c)[|a|..|a| + |b|] == b
  {
  }

  /** The lexicon lists every term of the final index once, in strictly
      increasing `operator<` order. */
  lemma SortedTerms(finalIndex: Index, order: seq<string>)
    requires Traversal(finalIndex, order)
    ensures StrictlySorted(SortStrings(order))
    ensures forall t :: t in SortStrings(order) <==> t in finalIndex
  {
    var terms := SortStrings(order);
    forall t ensures t in terms <==> t in order {
      assert t in terms <==> t in multiset(terms);
      assert t in order <==> t in multiset(order);
    }
  }

  /** The `i`-th lexicon line names the `i`-th term, its number of
      postings, and the number of bytes written for the terms before it. */
  lemma {:induction false} LexiconAt(idx: Index, terms: seq<string>, offset: nat, i: nat)
    requires i < |terms|
    ensures LexiconLines(idx, terms, offset)[i]
            == LexiconLine(terms[i], |Get(idx, terms[i])|, offset + |PostingsFile(idx, terms[..i])|)
    decreases i
  {
    if i > 0 {
      var b := |TermBytes(Get(idx, terms[0]))|;
      LexiconAt(idx, terms[1..], offset + b, i - 1);
      PrefixCons(terms, i);
    }
  }

  /** postings.bin around the `i`-th term: the bytes of the terms before
      it, its own bytes, then those of the terms after it. */
  lemma {:induction false} PostingsAt(idx: Index, terms: seq<string>, i: nat)
    requires i < |terms|
    ensures PostingsFile(idx, terms)
            == PostingsFile(idx, terms[..i]) + TermBytes(Get(idx, terms[i])) + PostingsFile(idx, terms[i + 1..])
    decreases i
  {
    if i == 0 {
      assert terms[..0] == [];
    } else {
      var t := TermBytes(Get(idx, terms[0]));
      PostingsAt(idx, terms[1..], i - 1);
      PrefixCons(terms, i);
      ConcatAssoc(t, PostingsFile(idx, terms[1..][..i - 1]), TermBytes(Get(idx, terms[i])));
      ConcatAssoc(t, PostingsFile(idx, terms[1..][..i - 1]) + TermBytes(Get(idx, terms[i])), PostingsFile(idx, terms[i + 1..]));
    }
  }

  /** The `i`-th term's bytes stand in postings.bin at the offset its
      lexicon line gives. */
  lemma TermBytesAt(idx: Index, terms: seq<string>, i: nat)
    requires i < |terms|
    ensures |PostingsFile(idx, terms[..i])| + |TermBytes(Get(idx, terms[i]))| <= |PostingsFile(idx, terms)|
    ensures PostingsFile(idx, terms)[|PostingsFile(idx, terms[..i])|..|PostingsFile(idx, terms[..i])| + |TermBytes(Get(idx, terms[i]))|]
            == TermBytes(Get(idx, terms[i]))
  {
    var before, tb, after := PostingsFile(idx, terms[..i]), TermBytes(Get(idx, terms[i])), PostingsFile(idx, terms[i + 1..]);
    PostingsAt(idx, terms, i);
    SliceMiddle(before, tb, after);
  }

  /** A reader of barrel.cpp's own code: most significant group first,
      the value cast to `uint32_t`. */
  function MsbReader(data: seq<byte>): Postings.NumberReader {
    (o: nat) =>
      match MsbRead(data, o, 0)
      case None => None
      case Some((v, e)) => Some((Low32(v), e))
  }

  /** One code word of a 32-bit number reads back as that number. */
  lemma MsbReadsCode(data: seq<byte>, off: nat, n: uint32)
    requires off + |Code(n)| <= |data| && data[off..off + |Code(n)|] == Code(n)
    ensures MsbReader(data)(off) == Some((n, off + |Code(n)|)) && |Code(n)| > 0
  {
    CodeRoundTrip(data, off, n);
  }

  /** Code words laid out from `off` read back one after the other. */
  lemma {:induction false} MsbStream(data: seq<byte>, off: nat, nums: seq<uint32>)
    requires off + |CodeAll(nums)| <= |data| && data[off..off + |CodeAll(nums)|] == CodeAll(nums)
    ensures Postings.ReadsStream(MsbReader(data), off, nums, off + |CodeAll(nums)|)
    decreases |nums|
  {
    if nums != [] {
      var c := Code(nums[0]);
      var rest := CodeAll(nums[1..]);
      assert CodeAll(nums) == c + rest;
      SliceSplit(data, off, c, rest);
      MsbReadsCode(data, off, nums[0]);
      MsbStream(data, off + |c|, nums[1..]);
      Postings.ReadsStreamCons(MsbReader(data), off, nums, off + |c|, off + |CodeAll(nums)|);
    }
  }

  /** Postings with fewer than 2^32 positions each, so that `tf` is
      exact. */
  predicate CountsFit(pl: seq<BlockPosting>) {
    forall k :: 0 <= k < |pl| ==> |pl[k].positions| < U32
  }

  /** Reading postings.bin at the offset and count the lexicon line gives
      for a term, with a decoder of barrel.cpp's code, gives back the
      term's postings: docids, `tf` and positions. */
  lemma TermDecodes(idx: Index, terms: seq<string>, i: nat, dec: Postings.Decoder)
    requires i < |terms| && CountsFit(Get(idx, terms[i]))
    ensures Postings.DecodePostings(MsbReader(PostingsFile(idx, terms)), dec, |PostingsFile(idx, terms)|,
                                    |PostingsFile(idx, terms[..i])|, |Get(idx, terms[i])|, 0)
            == Some((AsPostings(Get(idx, terms[i])), |PostingsFile(idx, terms[..i])| + |TermBytes(Get(idx, terms[i]))|))
  {
    TermBytesAt(idx, terms, i);
    BytesDecode(PostingsFile(idx, terms), |PostingsFile(idx, terms[..i])|, Get(idx, terms[i]), dec);
  }

  /** A term's bytes, wherever they stand, decode back to its postings. */
  lemma BytesDecode(data: seq<byte>, off: nat, pl: seq<BlockPosting>, dec: Postings.Decoder)
    requires CountsFit(pl)
    requires off + |TermBytes(pl)| <= |data| && data[off..off + |TermBytes(pl)|] == TermBytes(pl)
    ensures Postings.DecodePostings(MsbReader(data), dec, |data|, off, |pl|, 0)
            == Some((AsPostings(pl), off + |TermBytes(pl)|))
  {
    var ps := AsPostings(pl);
    MsbStream(data, off, Postings.PostingNumbers(ps, 0));
    assert Postings.WellFormed(ps);
    Postings.PostingsRoundTrip(MsbReader(data), dec, |data|, off, ps, 0, off + |TermBytes(pl)|);
  }
}
