/** `rebuild_index` of backend/api_server.cpp: every `.txt` document is read
    word by word, each word lower-cased and stripped to its letters and
    digits, and the positions of its terms collected; the documents'
    postings are gathered per term, and each term's list is written to
    barrel_0.bin in the VByte code, with a line in lexicon.txt giving its
    offset and length there. */
module BackendApiIndex {
  import opened Common
  import opened VByte
  import opened Text
  import opened Decimal
  import Ordering
  import Postings
  import Indexer
  import BarrelIndex
  import BackendApi

  // ---------------------------------------------------------------------
  // Terms of one document

  /** The characters of `s` that `isalnum` accepts, in order. */
  function Alnums(s: string): (r: string)
    ensures |r| <= |s|
    ensures forall i :: 0 <= i < |r| ==> IsAlnum(r[i])
  {
    if s == [] then []
    else Alnums(s[..|s| - 1]) + (if IsAlnum(s[|s| - 1]) then [s[|s| - 1]] else [])
  }

  /** Each kept character comes from `s`, at an index no smaller than its
      own. */
  lemma {:induction false} AlnumsFrom(s: string, i: nat)
    requires i < |Alnums(s)|
    ensures exists j :: i <= j < |s| && s[j] == Alnums(s)[i]
  {
    var n := |s| - 1;
    if i < |Alnums(s[..n])| {
      AlnumsFrom(s[..n], i);
      var j :| i <= j < n && s[..n][j] == Alnums(s[..n])[i];
      assert s[j] == Alnums(s)[i];
    } else {
      assert Alnums(s)[i] == s[n];
    }
  }

  /** Filtering distributes over concatenation. */
  lemma {:induction false} AlnumsAppend(a: string, b: string)
    ensures Alnums(a + b) == Alnums(a) + Alnums(b)
    decreases |b|
  {
    if b != [] {
      var b' := b[..|b| - 1];
      assert (a + b)[..|a + b| - 1] == a + b';
      AlnumsAppend(a, b');
      ConcatAssoc(Alnums(a), Alnums(b'), if IsAlnum(b[|b| - 1]) then [b[|b| - 1]] else []);
    } else {
      assert a + b == a;
    }
  }

  /** A string of letters and digits is kept whole; in particular a
      cleaned word cleans to itself. */
  lemma {:induction false} AlnumsKeeps(s: string)
    requires forall i :: 0 <= i < |s| ==> IsAlnum(s[i])
    ensures Alnums(s) == s
  {
    if s != [] {
      AlnumsKeeps(s[..|s| - 1]);
      assert s[..|s| - 1] + [s[|s| - 1]] == s;
    }
  }

  /** The loop of `rebuild_index` over one word: `to_lower`, then only the
      `isalnum` characters kept. */
  method CleanWord(word: string) returns (clean: string)
    ensures clean == Alnums(Lower(word))
  {
    var w := BackendApi.ToLowerString(word);
    clean := [];
    for i := 0 to |w|
      invariant clean == Alnums(w[..i])
    {
      assert w[..i + 1][..i] == w[..i];
      if IsAlnum(w[i]) {
        clean := clean + [w[i]];
      }
    }
    assert w[..|w|] == w;
  }

  /** A term as the index holds it: lower-case letters and digits. */
  predicate IsTerm(t: string) {
    t != [] && forall i :: 0 <= i < |t| ==> IsAlnum(t[i]) && !IsUpper(t[i])
  }

  /** The terms of a document in reading order: its cleaned words, the
      empty ones left out. */
  function Tokens(words: seq<string>): (ts: seq<string>)
    ensures |ts| <= |words|
  {
    if words == [] then []
    else
      var c := Alnums(Lower(words[|words| - 1]));
      Tokens(words[..|words| - 1]) + (if c != [] then [c] else [])
  }

  /** One word more adds its cleaned form, unless that is empty. */
  lemma TokensSnoc(words: seq<string>, i: nat)
    requires i < |words|
    ensures var c := Alnums(Lower(words[i]));
            Tokens(words[..i + 1]) == Tokens(words[..i]) + (if c != [] then [c] else [])
  {
    assert words[..i + 1][..i] == words[..i];
  }

  /** Every token is a term. */
  lemma {:induction false} TokensAreTerms(words: seq<string>)
    ensures forall k :: 0 <= k < |Tokens(words)| ==> IsTerm(Tokens(words)[k])
  {
    if words != [] {
      var n := |words| - 1;
      TokensAreTerms(words[..n]);
      var c := Alnums(Lower(words[n]));
      if c != [] {
        forall i | 0 <= i < |c| ensures !IsUpper(c[i]) {
          AlnumsFrom(Lower(words[n]), i);
        }
      }
    }
  }

  /** The positions of `t` in `m`, empty when it is absent. */
  function Positions(m: map<string, seq<uint32>>, t: string): seq<uint32> {
    if t in m then m[t] else []
  }

  /** `doc_terms` after the terms `ts`: each term with the values of the
      `uint32_t` position counter at which it was read. */
  function TermPositions(ts: seq<string>): map<string, seq<uint32>> {
    if ts == [] then map[]
    else
      var m := TermPositions(ts[..|ts| - 1]);
      m[ts[|ts| - 1] := Positions(m, ts[|ts| - 1]) + [Low32(|ts| - 1)]]
  }

  /** A `uint32_t` counter advanced by one, wrapping at 2^32. */
  method Advance(c: uint32, ghost n: nat) returns (c': uint32)
    requires c == Low32(n)
    ensures c' == Low32(n + 1)
  {
    c' := if c == 0xFFFF_FFFF then 0 else c + 1;
  }

  /** One cleaned word recorded: a non-empty one at the current position,
      which then advances. */
  method AddWord(docTerms: map<string, seq<uint32>>, pos: uint32, ghost ts: seq<string>, clean: string)
    returns (docTerms': map<string, seq<uint32>>, pos': uint32)
    requires docTerms == TermPositions(ts) && pos == Low32(|ts|)
    ensures var ts' := ts + (if clean != [] then [clean] else []);
            docTerms' == TermPositions(ts') && pos' == Low32(|ts'|)
  {
    if clean != [] {
      assert (ts + [clean])[..|ts|] == ts;
      docTerms' := docTerms[clean := Positions(docTerms, clean) + [pos]];
      pos' := Advance(pos, |ts|);
    } else {
      assert ts + [] == ts;
      docTerms', pos' := docTerms, pos;
    }
  }

  /** The word loop of one document: `doc_terms` and the final position
      counter. */
  method IndexDocument(words: seq<string>) returns (docTerms: map<string, seq<uint32>>, pos: uint32)
    ensures docTerms == TermPositions(Tokens(words)) && pos == Low32(|Tokens(words)|)
  {
    docTerms := map[];
    pos := 0;
    for i := 0 to |words|
      invariant docTerms == TermPositions(Tokens(words[..i])) && pos == Low32(|Tokens(words[..i])|)
    {
      var clean := CleanWord(words[i]);
      docTerms, pos := AddWord(docTerms, pos, Tokens(words[..i]), clean);
      TokensSnoc(words, i);
    }
    assert words[..|words|] == words;
  }

  /** The terms of `doc_terms` are the terms read. */
  lemma {:induction false} TermPositionsKeys(ts: seq<string>, t: string)
    ensures t in TermPositions(ts) <==> t in ts
  {
    if ts != [] {
      TermPositionsKeys(ts[..|ts| - 1], t);
      assert ts == ts[..|ts| - 1] + [ts[|ts| - 1]];
    }
  }

  /** While the counter does not wrap, a term's positions are exactly the
      places where it was read, in ascending order. */
  lemma {:induction false} TermPositionsSpec(ts: seq<string>, t: string)
    requires |ts| <= U32
    ensures var ps := Positions(TermPositions(ts), t);
            (forall k :: 0 <= k < |ts| ==> (ts[k] == t <==> k in ps))
            && (forall j :: 0 <= j < |ps| ==> ps[j] < |ts| && ts[ps[j]] == t)
            && Ordering.StrictlyAscending(ps)
  {
    if ts != [] {
      var n := |ts| - 1;
      var pre := ts[..n];
      TermPositionsSpec(pre, t);
      var p0 := Positions(TermPositions(pre), t);
      var ps := Positions(TermPositions(ts), t);
      if ts[n] == t {
        assert ps == p0 + [n];
      } else {
        assert ps == p0;
      }
      forall k | 0 <= k < |ts| ensures ts[k] == t <==> k in ps {
        if k < n {
          assert ts[k] == pre[k];
        }
      }
    }
  }

  // ---------------------------------------------------------------------
  // The inverted index over all documents

  /** A `.txt` file of the data directory: its stem and its text. */
  datatype Doc = Doc(name: string, text: string)

  /** `doc_terms` of one document: its words as `ifs >> word` reads them. */
  function DocTerms(text: string): map<string, seq<uint32>> {
    TermPositions(Tokens(Words(text)))
  }

  /** What one document adds to `inverted_index`: one posting per term. */
  function DocBlock(d: uint32, dt: map<string, seq<uint32>>): BarrelIndex.Index {
    map t | t in dt :: [Indexer.BlockPosting(d, dt[t])]
  }

  /** `inverted_index` after the documents `docs`, numbered from 0 by the
      `uint32_t` document counter. */
  function Inverted(docs: seq<Doc>): BarrelIndex.Index {
    if docs == [] then map[]
    else BarrelIndex.AddAll(Inverted(docs[..|docs| - 1]), DocBlock(Low32(|docs| - 1), DocTerms(docs[|docs| - 1].text)))
  }

  /** `doc_map` after the documents `docs`. */
  function DocMap(docs: seq<Doc>): map<uint32, string> {
    if docs == [] then map[] else DocMap(docs[..|docs| - 1])[Low32(|docs| - 1) := docs[|docs| - 1].name]
  }

  /** `total_len`: the final position counter of every document, summed. */
  function TotalLen(docs: seq<Doc>): nat {
    if docs == [] then 0 else TotalLen(docs[..|docs| - 1]) + Low32(|Tokens(Words(docs[|docs| - 1].text))|)
  }

  /** The loop over `doc_terms`: each term's posting for this document
      appended to its list, the terms taken in whatever order the
      `unordered_map` yields them. Every term is touched once, so the order
      does not show in the result. */
  method AddDocument(inv: BarrelIndex.Index, d: uint32, docTerms: map<string, seq<uint32>>)
    returns (r: BarrelIndex.Index)
    ensures r == BarrelIndex.AddAll(inv, DocBlock(d, docTerms))
  {
    r := inv;
    var todo := docTerms.Keys;
    assert DocBlock(d, docTerms - todo) == map[];
    AddNothing(inv);
    while todo != {}
      invariant todo <= docTerms.Keys
      invariant r == BarrelIndex.AddAll(inv, DocBlock(d, docTerms - todo))
      decreases |todo|
    {
      var t :| t in todo;
      AddOne(inv, d, docTerms, todo, t);
      r := r[t := BarrelIndex.Get(r, t) + [Indexer.BlockPosting(d, docTerms[t])]];
      todo := todo - {t};
    }
    assert docTerms - todo == docTerms;
  }

  /** One term more of the loop over `doc_terms`. */
  lemma AddOne(inv: BarrelIndex.Index, d: uint32, docTerms: map<string, seq<uint32>>, todo: set<string>, t: string)
    requires t in todo && todo <= docTerms.Keys
    ensures var r := BarrelIndex.AddAll(inv, DocBlock(d, docTerms - todo));
            BarrelIndex.AddAll(inv, DocBlock(d, docTerms - (todo - {t})))
            == r[t := BarrelIndex.Get(r, t) + [Indexer.BlockPosting(d, docTerms[t])]]
  {
    var done := docTerms - todo;
    assert docTerms - (todo - {t}) == done[t := docTerms[t]];
    assert DocBlock(d, done[t := docTerms[t]]) == DocBlock(d, done)[t := [Indexer.BlockPosting(d, docTerms[t])]];
    AddAllNew(inv, DocBlock(d, done), t, [Indexer.BlockPosting(d, docTerms[t])]);
  }

  /** A list for a term new to the block is appended to the term's list. */
  lemma AddAllNew(m: BarrelIndex.Index, b: BarrelIndex.Index, t: string, v: seq<Indexer.BlockPosting>)
    requires t !in b
    ensures var r := BarrelIndex.AddAll(m, b);
            BarrelIndex.AddAll(m, b[t := v]) == r[t := BarrelIndex.Get(r, t) + v]
  {
    var r := BarrelIndex.AddAll(m, b);
    assert BarrelIndex.Get(r, t) == BarrelIndex.Get(m, t);
  }

  /** Adding an empty block changes nothing. */
  lemma AddNothing(m: BarrelIndex.Index)
    ensures BarrelIndex.AddAll(m, map[]) == m
  {
    forall t | t in m ensures BarrelIndex.AddAll(m, map[])[t] == m[t] {
      assert m[t] + [] == m[t];
    }
  }

  /** A term's list after one document more. */
  lemma InvertedGet(docs: seq<Doc>, t: string)
    requires docs != []
    ensures var n := |docs| - 1;
            var dt := DocTerms(docs[n].text);
            BarrelIndex.Get(Inverted(docs), t)
            == BarrelIndex.Get(Inverted(docs[..n]), t) + (if t in dt then [Indexer.BlockPosting(Low32(n), dt[t])] else [])
  {
  }

  /** Every posting in a term's list names a document that contains the
      term, with the positions the term has there (while the counter does
      not wrap). */
  lemma {:induction false} InvertedSound(docs: seq<Doc>, t: string)
    requires |docs| <= U32
    ensures var l := BarrelIndex.Get(Inverted(docs), t);
            forall k :: 0 <= k < |l| ==>
              l[k].docid < |docs| && t in DocTerms(docs[l[k].docid].text)
              && l[k].positions == DocTerms(docs[l[k].docid].text)[t]
  {
    if docs != [] {
      var n := |docs| - 1;
      var pre := docs[..n];
      InvertedSound(pre, t);
      InvertedGet(docs, t);
      var l0 := BarrelIndex.Get(Inverted(pre), t);
      var l := BarrelIndex.Get(Inverted(docs), t);
      forall k | 0 <= k < |l|
        ensures l[k].docid < |docs| && t in DocTerms(docs[l[k].docid].text)
                && l[k].positions == DocTerms(docs[l[k].docid].text)[t]
      {
        if k < |l0| {
          assert l[k] == l0[k] && docs[l0[k].docid] == pre[l0[k].docid];
        }
      }
    }
  }

  /** Every document that contains a term has a posting in its list. */
  lemma {:induction false} InvertedComplete(docs: seq<Doc>, t: string, i: nat)
    requires |docs| <= U32 && i < |docs| && t in DocTerms(docs[i].text)
    ensures var l := BarrelIndex.Get(Inverted(docs), t);
            exists k :: 0 <= k < |l| && l[k].docid == i
  {
    var n := |docs| - 1;
    var pre := docs[..n];
    var dt := DocTerms(docs[n].text);
    assert i == n ==> t in dt;
    InvertedGet(docs, t);
    var l0 := BarrelIndex.Get(Inverted(pre), t);
    var l := BarrelIndex.Get(Inverted(docs), t);
    if i < n {
      assert pre[i] == docs[i];
      InvertedComplete(pre, t, i);
      var k :| 0 <= k < |l0| && l0[k].docid == i;
      assert l[k] == l0[k];
    } else {
      assert l == l0 + [Indexer.BlockPosting(Low32(n), dt[t])];
      assert l[|l0|].docid == i;
    }
  }

  /** A term's list is in ascending document order, each document once. */
  lemma {:induction false} InvertedAscending(docs: seq<Doc>, t: string)
    requires |docs| <= U32
    ensures var l := BarrelIndex.Get(Inverted(docs), t);
            forall j, k :: 0 <= j < k < |l| ==> l[j].docid < l[k].docid
  {
    if docs != [] {
      var n := |docs| - 1;
      var pre := docs[..n];
      InvertedAscending(pre, t);
      InvertedSound(pre, t);
      InvertedGet(docs, t);
      var l0 := BarrelIndex.Get(Inverted(pre), t);
      var l := BarrelIndex.Get(Inverted(docs), t);
      forall j, k | 0 <= j < k < |l| ensures l[j].docid < l[k].docid {
        assert l[j] == l0[j];
        if k < |l0| {
          assert l[k] == l0[k];
        }
      }
    }
  }

  /** Every key of the index is a term: lower-case letters and digits. */
  lemma {:induction false} InvertedTerms(docs: seq<Doc>, t: string)
    requires t in Inverted(docs)
    ensures IsTerm(t)
  {
    var n := |docs| - 1;
    if t !in Inverted(docs[..n]) {
      var ts := Tokens(Words(docs[n].text));
      TermPositionsKeys(ts, t);
      var k :| 0 <= k < |ts| && ts[k] == t;
      TokensAreTerms(Words(docs[n].text));
    } else {
      InvertedTerms(docs[..n], t);
    }
  }

  /** While the counter does not wrap, `doc_map` gives each document's
      number its name. */
  lemma {:induction false} DocMapSpec(docs: seq<Doc>)
    requires |docs| <= U32
    ensures forall i: uint32 :: i in DocMap(docs) <==> i < |docs|
    ensures forall i :: 0 <= i < |docs| ==> DocMap(docs)[i] == docs[i].name
  {
    if docs != [] {
      var n := |docs| - 1;
      DocMapSpec(docs[..n]);
      forall i | 0 <= i < n ensures docs[i] == docs[..n][i] { }
    }
  }

  // ---------------------------------------------------------------------
  // Writing barrel_0.bin and lexicon.txt

  /** The bytes written for one term: the number of postings, then for
      each the docid gap, the number of positions and the position gaps,
      every number cast to `uint32_t` and VByte-coded. */
  function TermBuffer(pl: seq<Indexer.BlockPosting>): seq<byte> {
    EncodeAll(Postings.ListNumbers(BarrelIndex.AsPostings(pl)))
  }

  /** `total_tf`: the positions of all postings. */
  function TotalTf(pl: seq<Indexer.BlockPosting>): nat {
    if pl == [] then 0 else TotalTf(pl[..|pl| - 1]) + |pl[|pl| - 1].positions|
  }

  /** A line of lexicon.txt: word id, term, document frequency, total
      term frequency, offset and length in the barrel. */
  datatype LexEntry = LexEntry(wordID: uint32, term: string, docFreq: nat, totalTf: nat, offset: nat, bytes: nat)

  /** The line's fields; the barrel id is always 0. */
  function LexFields(e: LexEntry): seq<string> {
    [ToDecimal(e.wordID), e.term, ToDecimal(e.docFreq), ToDecimal(e.totalTf), ToDecimal(e.offset), ToDecimal(e.bytes), "0"]
  }

  function LexLine(e: LexEntry): string {
    Join(LexFields(e), ' ') + "\n"
  }

  /** Lines of text, one per entry. */
  function Lines(es: seq<LexEntry>): (r: seq<string>)
    ensures |r| == |es|
  {
    seq(|es|, k requires 0 <= k < |es| => LexLine(es[k]))
  }

  /** The buffer of each term of `order`. */
  function Buffers(inv: BarrelIndex.Index, order: seq<string>): (bs: seq<seq<byte>>)
    ensures |bs| == |order|
  {
    seq(|order|, k requires 0 <= k < |order| => TermBuffer(BarrelIndex.Get(inv, order[k])))
  }

  /** Buffers written one after the other. */
  function Concat(bs: seq<seq<byte>>): seq<byte> {
    if bs == [] then [] else Concat(bs[..|bs| - 1]) + bs[|bs| - 1]
  }

  /** barrel_0.bin after the terms `order`. */
  function BarrelBytes(inv: BarrelIndex.Index, order: seq<string>): seq<byte> {
    Concat(Buffers(inv, order))
  }

  /** The lexicon after the terms `order`: word ids count up from 0, and
      each term's offset is the length of the buffers written before its
      own. */
  function LexEntries(inv: BarrelIndex.Index, order: seq<string>): (r: seq<LexEntry>)
    ensures |r| == |order|
  {
    var bs := Buffers(inv, order);
    seq(|order|, k requires 0 <= k < |order| =>
          var pl := BarrelIndex.Get(inv, order[k]);
          LexEntry(Low32(k), order[k], |pl|, TotalTf(pl), |Concat(bs[..k])|, |bs[k]|))
  }

  /** The position loop of one posting: each position's gap from the one
      before. */
  method EncodeGaps(out: seq<byte>, xs: seq<uint32>) returns (res: seq<byte>)
    ensures res == out + EncodeAll(Postings.PositionGaps(xs, 0))
  {
    res := out;
    var lastPos: uint32 := 0;
    for j := 0 to |xs|
      invariant res + EncodeAll(Postings.PositionGaps(xs[j..], lastPos)) == out + EncodeAll(Postings.PositionGaps(xs, 0))
    {
      assert xs[j..][1..] == xs[j + 1..];
      EncodeAllAppend([Postings.Sub32(xs[j], lastPos)], Postings.PositionGaps(xs[j + 1..], xs[j]));
      ConcatAssoc(res, Encode(Postings.Sub32(xs[j], lastPos)), EncodeAll(Postings.PositionGaps(xs[j + 1..], xs[j])));
      res := BackendApi.VbyteEncode(Postings.Sub32(xs[j], lastPos), res);
      lastPos := xs[j];
    }
  }

  /** One posting: the docid gap, the number of positions, the gaps. */
  method EncodePosting(out: seq<byte>, lastDoc: uint32, p: Indexer.BlockPosting) returns (res: seq<byte>)
    ensures res == out + Encode(Postings.Sub32(p.docid, lastDoc)) + Encode(Low32(|p.positions|))
                   + EncodeAll(Postings.PositionGaps(p.positions, 0))
  {
    res := BackendApi.VbyteEncode(Postings.Sub32(p.docid, lastDoc), out);
    res := BackendApi.VbyteEncode(Low32(|p.positions|), res);
    res := EncodeGaps(res, p.positions);
  }

  /** The buffer of one term and its `total_tf`. */
  method EncodeTerm(pl: seq<Indexer.BlockPosting>) returns (buffer: seq<byte>, totalTf: nat)
    ensures buffer == TermBuffer(pl) && totalTf == TotalTf(pl)
  {
    ghost var ps := BarrelIndex.AsPostings(pl);
    buffer := BackendApi.VbyteEncode(Low32(|pl|), []);
    EncodeAllAppend([Low32(|pl|)], Postings.PostingNumbers(ps, 0));
    var lastDoc: uint32 := 0;
    totalTf := 0;
    for i := 0 to |pl|
      invariant buffer + EncodeAll(Postings.PostingNumbers(ps[i..], lastDoc)) == TermBuffer(pl)
      invariant totalTf == TotalTf(pl[..i])
    {
      ghost var before := buffer;
      assert pl[..i + 1][..i] == pl[..i];
      totalTf := totalTf + |pl[i].positions|;
      buffer := EncodePosting(buffer, lastDoc, pl[i]);
      Postings.EncodeLoopStep(ps, i, lastDoc, before, buffer, TermBuffer(pl));
      lastDoc := pl[i].docid;
    }
    assert pl[..|pl|] == pl;
  }

  /** The files after one term more. */
  lemma WrittenSnoc(inv: BarrelIndex.Index, order: seq<string>, t: string)
    ensures var pl := BarrelIndex.Get(inv, t);
            BarrelBytes(inv, order + [t]) == BarrelBytes(inv, order) + TermBuffer(pl)
            && LexEntries(inv, order + [t])
               == LexEntries(inv, order) + [LexEntry(Low32(|order|), t, |pl|, TotalTf(pl), |BarrelBytes(inv, order)|, |TermBuffer(pl)|)]
  {
    var bs := Buffers(inv, order);
    var bs' := Buffers(inv, order + [t]);
    assert bs' == bs + [TermBuffer(BarrelIndex.Get(inv, t))];
    assert bs'[..|bs|] == bs;
    forall k | 0 <= k < |order| ensures bs'[..k] == bs[..k] {
    }
  }

  /** One line more. */
  lemma LinesSnoc(es: seq<LexEntry>, e: LexEntry)
    ensures Lines(es + [e]) == Lines(es) + [LexLine(e)]
  {
    assert forall k :: 0 <= k < |es| ==> (es + [e])[k] == es[k];
  }

  /** One term of the write loop: its buffer appended to the barrel at the
      barrel's current length, its line to the lexicon, the word id
      advanced. */
  method WriteTerm(inv: BarrelIndex.Index, lexicon: seq<string>, barrel: seq<byte>, wordID: uint32,
                   ghost order: seq<string>, t: string)
    returns (lexicon': seq<string>, barrel': seq<byte>, wordID': uint32)
    requires t in inv
    requires wordID == Low32(|order|) && lexicon == Lines(LexEntries(inv, order)) && barrel == BarrelBytes(inv, order)
    ensures wordID' == Low32(|order + [t]|)
    ensures lexicon' == Lines(LexEntries(inv, order + [t])) && barrel' == BarrelBytes(inv, order + [t])
  {
    var offset := |barrel|;
    var buffer, totalTf := EncodeTerm(inv[t]);
    WrittenSnoc(inv, order, t);
    var entry := LexEntry(wordID, t, |inv[t]|, totalTf, offset, |buffer|);
    LinesSnoc(LexEntries(inv, order), entry);
    barrel' := barrel + buffer;
    lexicon' := lexicon + [LexLine(entry)];
    wordID' := Advance(wordID, |order|);
  }

  /** The write loop over `inverted_index`, in its traversal order: each
      term's buffer appended to the barrel and its lexicon line written.
      `order` is the order the terms were taken in. */
  method WriteIndex(inv: BarrelIndex.Index) returns (lexicon: seq<string>, barrel: seq<byte>, ghost order: seq<string>)
    ensures BarrelIndex.Traversal(inv, order)
    ensures lexicon == Lines(LexEntries(inv, order)) && barrel == BarrelBytes(inv, order)
  {
    lexicon, barrel, order := [], [], [];
    var todo := inv.Keys;
    var wordID: uint32 := 0;
    while todo != {}
      invariant Remaining(inv, order, todo)
      invariant wordID == Low32(|order|)
      invariant lexicon == Lines(LexEntries(inv, order)) && barrel == BarrelBytes(inv, order)
      decreases |todo|
    {
      var t :| t in todo;
      lexicon, barrel, wordID := WriteTerm(inv, lexicon, barrel, wordID, order, t);
      TakeOne(inv, order, todo, t);
      order := order + [t];
      todo := todo - {t};
    }
  }

  /** The keys of `m` are those taken, in `order`, each once, and those
      still in `todo`. */
  ghost predicate Remaining(m: BarrelIndex.Index, order: seq<string>, todo: set<string>) {
    todo <= m.Keys
    && (forall t :: t in m <==> t in order || t in todo)
    && (forall k :: 0 <= k < |order| ==> order[k] !in todo)
    && (forall i, j :: 0 <= i < j < |order| ==> order[i] != order[j])
  }

  lemma TakeOne(m: BarrelIndex.Index, order: seq<string>, todo: set<string>, t: string)
    requires Remaining(m, order, todo) && t in todo
    ensures Remaining(m, order + [t], todo - {t})
  {
  }

  /** The files `rebuild_index` writes, and the counts it keeps. */
  datatype IndexFiles = IndexFiles(docMap: map<uint32, string>, lexicon: seq<string>, barrel: seq<byte>,
                                   totalLen: nat, totalDocs: uint32)

  /** The index after one document more. */
  lemma InvertedSnoc(docs: seq<Doc>, i: nat)
    requires i < |docs|
    ensures Inverted(docs[..i + 1]) == BarrelIndex.AddAll(Inverted(docs[..i]), DocBlock(Low32(i), DocTerms(docs[i].text)))
  {
    assert docs[..i + 1][..i] == docs[..i];
  }

  /** `doc_map` after one document more. */
  lemma DocMapSnoc(docs: seq<Doc>, i: nat)
    requires i < |docs|
    ensures DocMap(docs[..i + 1]) == DocMap(docs[..i])[Low32(i) := docs[i].name]
  {
    assert docs[..i + 1][..i] == docs[..i];
  }

  /** `total_len` after one document more. */
  lemma TotalLenSnoc(docs: seq<Doc>, i: nat)
    requires i < |docs|
    ensures TotalLen(docs[..i + 1]) == TotalLen(docs[..i]) + Low32(|Tokens(Words(docs[i].text))|)
  {
    assert docs[..i + 1][..i] == docs[..i];
  }

  /** One document of the read loop: its name recorded under the current
      counter, its terms indexed, its length added, the counter advanced. */
  method IndexDoc(inv: BarrelIndex.Index, docMap: map<uint32, string>, counter: uint32, totalLen: nat,
                  docs: seq<Doc>, i: nat)
    returns (inv': BarrelIndex.Index, docMap': map<uint32, string>, counter': uint32, totalLen': nat)
    requires i < |docs|
    requires inv == Inverted(docs[..i]) && docMap == DocMap(docs[..i])
    requires counter == Low32(i) && totalLen == TotalLen(docs[..i])
    ensures inv' == Inverted(docs[..i + 1]) && docMap' == DocMap(docs[..i + 1])
    ensures counter' == Low32(i + 1) && totalLen' == TotalLen(docs[..i + 1])
  {
    InvertedSnoc(docs, i);
    DocMapSnoc(docs, i);
    TotalLenSnoc(docs, i);
    var d := docs[i];
    docMap' := docMap[counter := d.name];
    var docTerms, pos := IndexDocument(Words(d.text));
    totalLen' := totalLen + pos;
    inv' := AddDocument(inv, counter, docTerms);
    counter' := Advance(counter, i);
  }

  /** `rebuild_index` up to its writes: nothing is written when the
      document counter ends at 0; otherwise the index is written in the
      order `order` its `unordered_map` is traversed in. */
  method BuildIndexFiles(docs: seq<Doc>) returns (files: Option<IndexFiles>, ghost order: seq<string>)
    ensures files.None? <==> Low32(|docs|) == 0
    ensures files.Some? ==>
              var inv := Inverted(docs);
              BarrelIndex.Traversal(inv, order)
              && files.value == IndexFiles(DocMap(docs), Lines(LexEntries(inv, order)), BarrelBytes(inv, order),
                                           TotalLen(docs), Low32(|docs|))
  {
    var inv: BarrelIndex.Index := map[];
    var docMap: map<uint32, string> := map[];
    var counter: uint32 := 0;
    var totalLen: nat := 0;
    for i := 0 to |docs|
      invariant inv == Inverted(docs[..i]) && docMap == DocMap(docs[..i])
      invariant counter == Low32(i) && totalLen == TotalLen(docs[..i])
    {
      inv, docMap, counter, totalLen := IndexDoc(inv, docMap, counter, totalLen, docs, i);
    }
    assert docs[..|docs|] == docs;
    order := [];
    if counter == 0 {
      return None, order;
    }
    var lexicon, barrel;
    lexicon, barrel, order := WriteIndex(inv);
    files := Some(IndexFiles(docMap, lexicon, barrel, totalLen, counter));
  }

  /** `rebuild_index` as a whole: after writing the files it empties the
      barrel buffers, so that they are read again. */
  method RebuildIndex(docs: seq<Doc>, barrels: BackendApi.Barrels) returns (files: Option<IndexFiles>, ghost order: seq<string>)
    requires barrels.Valid()
    modifies barrels
    ensures barrels.Valid()
    ensures files.None? <==> Low32(|docs|) == 0
    ensures files.None? ==> barrels.data == old(barrels.data) && barrels.loaded == old(barrels.loaded)
    ensures files.Some? ==> barrels.data == [[], [], [], []] && barrels.loaded == [false, false, false, false]
    ensures files.Some? ==>
              var inv := Inverted(docs);
              BarrelIndex.Traversal(inv, order)
              && files.value == IndexFiles(DocMap(docs), Lines(LexEntries(inv, order)), BarrelBytes(inv, order),
                                           TotalLen(docs), Low32(|docs|))
  {
    files, order := BuildIndexFiles(docs);
    if files.Some? {
      barrels.Clear();
    }
  }

  // ---------------------------------------------------------------------
  // What a reader finds in the written files

  /** The buffers written before the `j`-th are a prefix of all of them. */
  lemma {:induction false} ConcatPrefix(bs: seq<seq<byte>>, j: nat)
    requires j <= |bs|
    ensures |Concat(bs[..j])| <= |Concat(bs)|
    ensures Concat(bs)[..|Concat(bs[..j])|] == Concat(bs[..j])
    decreases |bs|
  {
    if j == |bs| {
      assert bs[..j] == bs;
    } else {
      var n := |bs| - 1;
      assert bs[..n][..j] == bs[..j];
      ConcatPrefix(bs[..n], j);
    }
  }

  /** The `k`-th buffer lies in the concatenation just after the ones
      before it. */
  lemma ConcatAt(bs: seq<seq<byte>>, k: nat)
    requires k < |bs|
    ensures var off := |Concat(bs[..k])|;
            off + |bs[k]| <= |Concat(bs)| && Concat(bs)[off..off + |bs[k]|] == bs[k]
  {
    assert bs[..k + 1][..k] == bs[..k];
    assert Concat(bs[..k + 1]) == Concat(bs[..k]) + bs[k];
    ConcatPrefix(bs, k + 1);
  }

  /** A lexicon line cut at its spaces gives its seven fields back, the
      term included, as long as the term holds no space. */
  lemma LexLineFields(e: LexEntry)
    requires ' ' !in e.term && '\n' !in e.term
    ensures var line := LexLine(e);
            line[|line| - 1] == '\n' && '\n' !in line[..|line| - 1]
            && Split(line[..|line| - 1], ' ') == LexFields(e)
  {
    var fs := LexFields(e);
    forall i | 0 <= i < |fs| ensures ' ' !in fs[i] && '\n' !in fs[i] {
      if i != 1 && i != 6 {
        BarrelIndex.DigitsFree(fs[i]);
      }
    }
    JoinFree(fs, ' ', '\n');
    SplitJoin(fs, ' ');
    var line := LexLine(e);
    assert line[..|line| - 1] == Join(fs, ' ');
  }

  /** The `k`-th lexicon line's offset and length delimit the term's
      buffer in the barrel. */
  lemma EntryPlace(inv: BarrelIndex.Index, order: seq<string>, k: nat)
    requires k < |order|
    ensures var e := LexEntries(inv, order)[k];
            var data := BarrelBytes(inv, order);
            e.offset + e.bytes == e.offset + |TermBuffer(BarrelIndex.Get(inv, order[k]))| <= |data|
            && data[e.offset..e.offset + e.bytes] == TermBuffer(BarrelIndex.Get(inv, order[k]))
  {
    var bs := Buffers(inv, order);
    var e := LexEntries(inv, order)[k];
    assert e.offset == |Concat(bs[..k])| && e.bytes == |bs[k]|;
    ConcatAt(bs, k);
  }

  /** Reading a term's buffer as `decode_postings` does, wherever it lies
      in the barrel (the place `EntryPlace` gives), yields the term's
      postings with `tf` equal to the number of positions, with any of the
      stop-bit decoders, provided the counts fit in 32 bits. */
  lemma BufferDecodes(dec: Postings.Decoder, data: seq<byte>, off: nat, end: nat, pl: seq<Indexer.BlockPosting>)
    requires |pl| < U32 && BarrelIndex.CountsFit(pl)
    requires end == off + |TermBuffer(pl)| <= |data| && data[off..end] == TermBuffer(pl)
    ensures Postings.DecodeList(dec, data, off, end) == Some((BarrelIndex.AsPostings(pl), end))
  {
    var ps := BarrelIndex.AsPostings(pl);
    forall i | 0 <= i < |ps| ensures ps[i].tf == |ps[i].positions| {
      assert ps[i] == BarrelIndex.AsPosting(pl[i]);
    }
    Postings.ListRoundTrip(dec, data, off, end, ps);
  }
}
