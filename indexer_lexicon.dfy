/** indexer.cpp, merge_blocks as a whole: round after round the smallest
    current term is chosen, its block lines are merged and encoded, the
    bytes are appended to postings.bin and a lexicon entry records where
    they are; then lexicon.txt and terms_list.txt are written. */
module IndexerLexicon {
  import opened Common
  import opened VByte
  import opened Ordering
  import opened Decimal
  import opened Postings
  import opened IndexerMerge
  import opened IndexerPostings
  import opened Text
  import Indexer

  /** `SKIP_INTERVAL`, only recorded in the lexicon. */
  const SKIP_INTERVAL: nat := 128

  /** `{"df":<df>,"skip_interval":128}`. */
  function SkipMeta(df: uint32): string {
    "{\"df\":" + ToDecimal(df) + ",\"skip_interval\":" + ToDecimal(SKIP_INTERVAL) + "}"
  }

  /** A lexicon entry (its `skip_meta` column is `SkipMeta(docFreq)`);
      `term_freq`, `offset` and `bytes` are `uint64_t`
      counters that no realistic input brings near their limit. */
  datatype LexiconEntry = LexiconEntry(wordID: uint32, term: string, docFreq: uint32, termFreq: nat,
                                       offset: nat, bytes: nat)

  /** The postings list of a round whose lines all parse. */
  ghost function TermPostings(g: Group): seq<Posting>
    requires GroupSegments(g.lines).Some?
  {
    PostingsOf(Merged(GroupSegments(g.lines).value))
  }

  /** Round `k` (from 0) of the merge for group `g`, its bytes written at
      `offset`: the entry and the bytes, or `None` where a `stoul` throws. */
  ghost function Round(g: Group, k: nat, offset: nat): Option<(LexiconEntry, seq<byte>)> {
    match GroupSegments(g.lines)
    case None => None
    case Some(segs) =>
      var ps := PostingsOf(Merged(segs));
      var enc := ListBytes(ps);
      var df := Low32(|ps|);
      Some((LexiconEntry(Low32(k + 1), g.term, df, PositionCount(segs), offset, |enc|), enc))
  }

  /** The merge from cursor `idx` on, `lexicon` and `postings` having been
      written already: `None` as soon as a round's `stoul` throws, else
      what has been written once every reader is exhausted. */
  ghost function MergeFrom(files: seq<seq<string>>, idx: seq<nat>, lexicon: seq<LexiconEntry>, postings: seq<byte>)
    : Option<(seq<LexiconEntry>, seq<byte>)>
    requires Cursor(files, idx)
    decreases Remaining(files, idx, |files|), 2
  {
    MergeWith(files, idx, MinTerm(files, idx, |files|), lexicon, postings)
  }

  /** `MergeFrom`, `min` being the smallest current term at `idx`. */
  ghost function MergeWith(files: seq<seq<string>>, idx: seq<nat>, min: Option<string>,
                           lexicon: seq<LexiconEntry>, postings: seq<byte>)
    : Option<(seq<LexiconEntry>, seq<byte>)>
    requires Cursor(files, idx) && min == MinTerm(files, idx, |files|)
    decreases Remaining(files, idx, |files|), 1
  {
    if min.None? then Some((lexicon, postings)) else MergeTerm(files, idx, min.value, lexicon, postings)
  }

  /** `MergeFrom` when the round's term is `m`: its round, then the merge
      from the advanced cursor. */
  ghost function MergeTerm(files: seq<seq<string>>, idx: seq<nat>, m: string,
                           lexicon: seq<LexiconEntry>, postings: seq<byte>)
    : Option<(seq<LexiconEntry>, seq<byte>)>
    requires Cursor(files, idx) && MinTerm(files, idx, |files|) == Some(m)
    decreases Remaining(files, idx, |files|), 0
  {
    MergeGroupsStep(files, idx, m);
    var r := Round(Group(m, Picked(files, idx, m, |files|)), |lexicon|, |postings|);
    if r.None? then None
    else MergeFrom(files, Advanced(files, idx, m), lexicon + [r.value.0], postings + r.value.1)
  }

  /** The whole merge. */
  ghost function Merge(files: seq<seq<string>>): Option<(seq<LexiconEntry>, seq<byte>)> {
    MergeFrom(files, Start(files), [], [])
  }

  lemma RoundOfParsed(g: Group, k: nat, offset: nat, segs: seq<Indexer.BlockPosting>, tf: nat, ps: seq<Posting>, enc: seq<byte>)
    requires GroupSegments(g.lines) == Some(segs)
    requires tf == PositionCount(segs) && ps == PostingsOf(Merged(segs)) && enc == ListBytes(ps)
    ensures Round(g, k, offset)
            == Some((LexiconEntry(Low32(k + 1), g.term, Low32(|ps|), tf, offset, |enc|), enc))
  {
  }

  lemma MergeDone(files: seq<seq<string>>, idx: seq<nat>, lexicon: seq<LexiconEntry>, postings: seq<byte>)
    requires Cursor(files, idx) && MinTerm(files, idx, |files|).None?
    ensures MergeFrom(files, idx, lexicon, postings) == Some((lexicon, postings))
  {
  }

  /** A round that throws ends the merge; one that parses hands on to the
      merge from the advanced cursor with its entry and bytes written. */
  lemma MergeFromRound(files: seq<seq<string>>, idx: seq<nat>, m: string, lexicon: seq<LexiconEntry>, postings: seq<byte>,
                       r: Option<(LexiconEntry, seq<byte>)>)
    requires Cursor(files, idx) && MinTerm(files, idx, |files|) == Some(m)
    requires r == Round(Group(m, Picked(files, idx, m, |files|)), |lexicon|, |postings|)
    ensures r.None? ==> MergeFrom(files, idx, lexicon, postings).None?
    ensures r.Some? ==> MergeFrom(files, idx, lexicon, postings)
                        == MergeFrom(files, Advanced(files, idx, m), lexicon + [r.value.0], postings + r.value.1)
  {
    assert MergeFrom(files, idx, lexicon, postings) == MergeTerm(files, idx, m, lexicon, postings);
  }

  lemma NextWordID(n: nat)
    ensures Add32(Low32(n), 1) == Low32(n + 1)
  {
  }

  lemma PostingsOfTfCounts(m: map<uint32, seq<uint32>>)
    ensures TfCounts(PostingsOf(m))
  {
  }

  /** The merge of the block files: the lexicon and the bytes of
      postings.bin, or `ok` false where a `stoul` throws (which ends the
      program). */
  method MergeBlocks(files: seq<seq<string>>) returns (ok: bool, lexicon: seq<LexiconEntry>, postings: seq<byte>)
    ensures ok <==> Merge(files).Some?
    ensures ok ==> (lexicon, postings) == Merge(files).value
  {
    var idx := Start(files);
    lexicon, postings := [], [];
    var wordID: uint32 := 0;
    while true
      invariant Cursor(files, idx) && wordID == Low32(|lexicon|)
      invariant MergeFrom(files, idx, lexicon, postings) == Merge(files)
      decreases Remaining(files, idx, |files|)
    {
      var min := FindMin(files, idx);
      if min.None? {
        MergeDone(files, idx, lexicon, postings);
        break;
      }
      var next, r := MergeStep(files, idx, min.value, wordID, lexicon, postings);
      if r.None? {
        return false, lexicon, postings;
      }
      lexicon, postings := lexicon + [r.value.0], postings + r.value.1;
      wordID := r.value.0.wordID;
      idx := next;
    }
    ok := true;
  }

  /** One round of the merge loop, for the smallest current term `term`:
      its lines gathered, merged, collected, encoded, and its entry made
      with the next word id after `wordID`. */
  method MergeRound(files: seq<seq<string>>, idx: seq<nat>, term: string, wordID: uint32, k: nat, offset: nat)
    returns (lines: seq<string>, next: seq<nat>, r: Option<(LexiconEntry, seq<byte>)>)
    requires Cursor(files, idx) && wordID == Low32(k)
    ensures lines == Picked(files, idx, term, |files|) && next == Advanced(files, idx, term)
    ensures r == Round(Group(term, lines), k, offset)
    ensures r.Some? ==> r.value.0.wordID == Low32(k + 1)
  {
    lines, next := Gather(files, idx, term);
    var parsed, merged, termFreq := MergeLines(lines);
    if !parsed {
      return lines, next, None;
    }
    var ps := CollectPostings(merged);
    PostingsOfTfCounts(merged);
    var enc := EncodePostings(ps);
    var df := Low32(|ps|);
    NextWordID(k);
    var e := LexiconEntry(Add32(wordID, 1), term, df, termFreq, offset, |enc|);
    RoundOfParsed(Group(term, lines), k, offset, GroupSegments(lines).value, termFreq, ps, enc);
    r := Some((e, enc));
  }

  /** The body of the merge loop once the smallest current term is known:
      the round, and where the merge goes from there. */
  method MergeStep(files: seq<seq<string>>, idx: seq<nat>, term: string, wordID: uint32,
                   lexicon: seq<LexiconEntry>, postings: seq<byte>)
    returns (next: seq<nat>, r: Option<(LexiconEntry, seq<byte>)>)
    requires Cursor(files, idx) && MinTerm(files, idx, |files|) == Some(term) && wordID == Low32(|lexicon|)
    ensures Cursor(files, next) && Remaining(files, next, |files|) < Remaining(files, idx, |files|)
    ensures r.None? ==> MergeFrom(files, idx, lexicon, postings).None?
    ensures r.Some? ==> r.value.0.wordID == Low32(|lexicon| + 1)
    ensures r.Some? ==> MergeFrom(files, next, lexicon + [r.value.0], postings + r.value.1) == MergeFrom(files, idx, lexicon, postings)
  {
    var lines;
    lines, next, r := MergeRound(files, idx, term, wordID, |lexicon|, |postings|);
    MergeGroupsStep(files, idx, term);
    MergeFromRound(files, idx, term, lexicon, postings, r);
  }

  // ---------------------------------------------------------------------
  // What the merge writes

  /** Entry `e`, written in round `k` for group `g`, is what that round
      writes at the entry's offset, and the bytes it points at are the
      round's bytes. */
  ghost predicate Describes(e: LexiconEntry, g: Group, k: nat, postings: seq<byte>) {
    e.offset + e.bytes <= |postings| && Round(g, k, e.offset) == Some((e, postings[e.offset..e.offset + e.bytes]))
  }

  /** The lists of entries `es` follow one another from byte `from` to byte
      `to`, with no gap. */
  predicate Contiguous(es: seq<LexiconEntry>, from: nat, to: nat) {
    if es == [] then from == to else es[0].offset == from && Contiguous(es[1..], from + es[0].bytes, to)
  }

  /** Entries `es` are those of rounds `k`, `k + 1`, ... for groups `gs`,
      one per group, each describing its list inside `postings`. */
  ghost predicate Written(gs: seq<Group>, es: seq<LexiconEntry>, k: nat, postings: seq<byte>)
    decreases |gs|, 2
  {
    |es| == |gs| && WrittenFrom(gs, es, k, postings)
  }

  /** `Written` once the lengths agree. */
  ghost predicate WrittenFrom(gs: seq<Group>, es: seq<LexiconEntry>, k: nat, postings: seq<byte>)
    requires |es| == |gs|
    decreases |gs|, 1
  {
    gs == [] || WrittenHead(gs, es, k, postings)
  }

  /** `Written` for non-empty `gs`: the first entry, then the others. */
  ghost predicate WrittenHead(gs: seq<Group>, es: seq<LexiconEntry>, k: nat, postings: seq<byte>)
    requires gs != [] && |es| == |gs|
    decreases |gs|, 0
  {
    Describes(es[0], gs[0], k, postings) && Written(gs[1..], es[1..], k + 1, postings)
  }

  /** A merge that completes writes one entry per round, each describing
      its own list, the lists back to back after what was written before. */
  lemma {:induction false} MergeFromLayout(files: seq<seq<string>>, idx: seq<nat>, lexicon: seq<LexiconEntry>, postings: seq<byte>)
    requires Cursor(files, idx) && MergeFrom(files, idx, lexicon, postings).Some?
    ensures var (lex, post) := MergeFrom(files, idx, lexicon, postings).value;
            |lexicon| <= |lex| && lex[..|lexicon|] == lexicon
            && |postings| <= |post| && post[..|postings|] == postings
            && Contiguous(lex[|lexicon|..], |postings|, |post|)
            && Written(MergeGroups(files, idx), lex[|lexicon|..], |lexicon|, post)
    decreases Remaining(files, idx, |files|)
  {
    var (lex, post) := MergeFrom(files, idx, lexicon, postings).value;
    var min := MinTerm(files, idx, |files|);
    if min.None? {
      MergeDone(files, idx, lexicon, postings);
      MergeGroupsEnd(files, idx);
      assert lex[|lexicon|..] == [];
    } else {
      var m := min.value;
      MergeGroupsStep(files, idx, m);
      var next := Advanced(files, idx, m);
      var gs := MergeGroups(files, next);
      var e, enc := MergeFromStep(files, idx, m, lexicon, postings, gs, lex, post);
      MergeFromLayout(files, next, lexicon + [e], postings + enc);
      SplitAfter(lex, lexicon, e);
      PrefixOfPrefix(post, postings, enc);
      ContiguousCons(e, lex[|lexicon| + 1..], |postings|, |post|);
    }
  }

  /** The round for the smallest term `m` yields entry `e` and bytes `enc`:
      the merge goes on with them written, `e` records where they are, and
      once they sit at their offset in `post`, `e` heads the layout. */
  lemma MergeFromStep(files: seq<seq<string>>, idx: seq<nat>, m: string, lexicon: seq<LexiconEntry>, postings: seq<byte>,
                      gs: seq<Group>, lex: seq<LexiconEntry>, post: seq<byte>)
    returns (e: LexiconEntry, enc: seq<byte>)
    requires Cursor(files, idx) && MinTerm(files, idx, |files|) == Some(m)
    requires MergeFrom(files, idx, lexicon, postings).Some?
    ensures MergeFrom(files, Advanced(files, idx, m), lexicon + [e], postings + enc) == MergeFrom(files, idx, lexicon, postings)
    ensures e.offset == |postings| && e.bytes == |enc|
    ensures |postings| + |enc| <= |post| && post[|postings|..|postings| + |enc|] == enc
            && |lexicon| + 1 <= |lex| && |lex| - (|lexicon| + 1) == |gs| && Written(gs, lex[|lexicon| + 1..], |lexicon| + 1, post)
            ==> Written([Group(m, Picked(files, idx, m, |files|))] + gs, [e] + lex[|lexicon| + 1..], |lexicon|, post)
  {
    var g := Group(m, Picked(files, idx, m, |files|));
    var r := Round(g, |lexicon|, |postings|);
    MergeFromRound(files, idx, m, lexicon, postings, r);
    e, enc := r.value.0, r.value.1;
    HeadWrittenIn(g, gs, e, enc, lex, |lexicon|, |postings|, post);
  }

  /** The same, with the entries after `e` the rest of `lex`. */
  lemma HeadWrittenIn(g: Group, gs: seq<Group>, e: LexiconEntry, enc: seq<byte>, lex: seq<LexiconEntry>,
                      k: nat, offset: nat, post: seq<byte>)
    requires Round(g, k, offset) == Some((e, enc))
    ensures e.offset == offset && e.bytes == |enc|
    ensures offset + |enc| <= |post| && post[offset..offset + |enc|] == enc
            && k + 1 <= |lex| && |lex| - (k + 1) == |gs| && Written(gs, lex[k + 1..], k + 1, post)
            ==> Written([g] + gs, [e] + lex[k + 1..], k, post)
  {
    RoundPlace(g, k, offset, e, enc);
    if k + 1 <= |lex| {
      HeadWritten(g, gs, e, enc, lex[k + 1..], k, offset, post);
    }
  }

  /** Round `k` of group `g` at `offset` gives entry `e` and bytes `enc`;
      with the bytes in place in `post`, `e` heads the layout before `es`. */
  lemma HeadWritten(g: Group, gs: seq<Group>, e: LexiconEntry, enc: seq<byte>, es: seq<LexiconEntry>,
                    k: nat, offset: nat, post: seq<byte>)
    requires Round(g, k, offset) == Some((e, enc))
    ensures e.offset == offset && e.bytes == |enc|
    ensures offset + |enc| <= |post| && post[offset..offset + |enc|] == enc
            && |es| == |gs| && Written(gs, es, k + 1, post)
            ==> Written([g] + gs, [e] + es, k, post)
  {
    RoundPlace(g, k, offset, e, enc);
    if offset + |enc| <= |post| && post[offset..offset + |enc|] == enc && |es| == |gs| && Written(gs, es, k + 1, post) {
      RoundDescribes(g, k, e, enc, post);
      WrittenCons(g, gs, e, es, k, post);
    }
  }

  lemma RoundPlace(g: Group, k: nat, offset: nat, e: LexiconEntry, enc: seq<byte>)
    requires Round(g, k, offset) == Some((e, enc))
    ensures e.offset == offset && e.bytes == |enc|
  {
  }

  lemma RoundDescribes(g: Group, k: nat, e: LexiconEntry, enc: seq<byte>, post: seq<byte>)
    requires Round(g, k, e.offset) == Some((e, enc)) && e.bytes == |enc|
    requires e.offset + |enc| <= |post| && post[e.offset..e.offset + |enc|] == enc
    ensures Describes(e, g, k, post)
  {
  }

  lemma WrittenCons(g: Group, gs: seq<Group>, e: LexiconEntry, es: seq<LexiconEntry>, k: nat, post: seq<byte>)
    requires Describes(e, g, k, post) && |es| == |gs| && Written(gs, es, k + 1, post)
    ensures Written([g] + gs, [e] + es, k, post)
  {
    ConsTail(g, gs);
    ConsTail(e, es);
  }

  lemma ContiguousCons(e: LexiconEntry, es: seq<LexiconEntry>, from: nat, to: nat)
    requires e.offset == from && Contiguous(es, from + e.bytes, to)
    ensures Contiguous([e] + es, from, to)
  {
    ConsTail(e, es);
  }

  /** A completed merge: entry `k` (from 0) is round `k`'s, for the `k`-th
      term in merge order, and the lists sit back to back in postings.bin
      from offset 0 to its end. */
  lemma MergeLayout(files: seq<seq<string>>)
    requires Merge(files).Some?
    ensures var (lex, post) := Merge(files).value;
            Contiguous(lex, 0, |post|) && Written(MergeGroups(files, Start(files)), lex, 0, post)
  {
    var (lex, post) := Merge(files).value;
    MergeFromLayout(files, Start(files), [], []);
    assert lex[0..] == lex;
  }

  /** What an entry that describes its round records: the term, the word id
      `k + 1`, the document count and the position count of the merged
      list, and the place of the list's code in postings.bin. */
  lemma DescribesSpec(e: LexiconEntry, g: Group, k: nat, postings: seq<byte>)
    requires Describes(e, g, k, postings)
    ensures GroupSegments(g.lines).Some?
    ensures e.term == g.term && e.wordID == Low32(k + 1)
    ensures e.docFreq == Low32(|TermPostings(g)|) && e.termFreq == PositionCount(GroupSegments(g.lines).value)
    ensures e.offset + e.bytes <= |postings|
            && postings[e.offset..e.offset + e.bytes] == ListBytes(TermPostings(g))
  {
  }

  /** A searcher reading postings.bin at an entry's offset gets back the
      merged list of its term, and stops at the end of the entry's bytes,
      whatever the decoder's guards and however far it may read. */
  lemma EntryDecodes(e: LexiconEntry, g: Group, k: nat, postings: seq<byte>, dec: Decoder, max: nat)
    requires Describes(e, g, k, postings)
    requires e.offset + e.bytes <= max <= |postings|
    requires GroupSegments(g.lines).Some? && |TermPostings(g)| < U32
    requires forall i :: 0 <= i < |TermPostings(g)| ==> |TermPostings(g)[i].positions| < U32
    ensures DecodeList(dec, postings, e.offset, max) == Some((TermPostings(g), e.offset + e.bytes))
  {
    var ps := TermPostings(g);
    DescribesBytes(e, g, k, postings);
    PostingsOfTfCounts(Merged(GroupSegments(g.lines).value));
    assert TfCounts(ps);
    CodeDecodes(ps, postings, e.offset, e.offset + e.bytes, dec, max);
  }

  /** Bytes `off` to `end` of `data` are the list `ps` as written. */
  predicate ListAt(data: seq<byte>, off: nat, end: nat, ps: seq<Posting>) {
    off <= end <= |data| && data[off..end] == ListBytes(ps)
  }

  /** The bytes an entry describes are its term's list, encoded. */
  lemma DescribesBytes(e: LexiconEntry, g: Group, k: nat, postings: seq<byte>)
    requires Describes(e, g, k, postings)
    ensures GroupSegments(g.lines).Some?
    ensures ListAt(postings, e.offset, e.offset + e.bytes, TermPostings(g))
  {
    DescribesSpec(e, g, k, postings);
  }

  lemma CodeDecodes(ps: seq<Posting>, postings: seq<byte>, offset: nat, end: nat, dec: Decoder, max: nat)
    requires TfCounts(ps) && |ps| < U32 && forall i :: 0 <= i < |ps| ==> |ps[i].positions| < U32
    requires ListAt(postings, offset, end, ps) && end <= max <= |postings|
    ensures DecodeList(dec, postings, offset, max) == Some((ps, end))
  {
    assert WellFormed(ps) by {
      forall i | 0 <= i < |ps| ensures ps[i].tf == |ps[i].positions| {
        assert ps[i].tf == Low32(|ps[i].positions|);
      }
    }
    ListRoundTrip(dec, postings, offset, max, ps);
  }

  /** Entry `i` of a layout describes round `k + i`. */
  lemma {:induction false} WrittenAt(gs: seq<Group>, es: seq<LexiconEntry>, k: nat, postings: seq<byte>, i: nat)
    requires Written(gs, es, k, postings) && i < |gs|
    ensures |es| == |gs| && Describes(es[i], gs[i], k + i, postings)
    decreases i
  {
    assert WrittenHead(gs, es, k, postings);
    if i > 0 {
      WrittenAt(gs[1..], es[1..], k + 1, postings, i - 1);
      assert gs[1..][i - 1] == gs[i] && es[1..][i - 1] == es[i];
    }
  }

  /** Entry `i` of a completed merge is round `i`'s, for the `i`-th term in
      merge order. */
  lemma MergeEntry(files: seq<seq<string>>, i: nat)
    requires Merge(files).Some?
    ensures var (lex, post) := Merge(files).value;
            |lex| == |MergeGroups(files, Start(files))|
            && (i < |lex| ==> Describes(lex[i], MergeGroups(files, Start(files))[i], i, post))
  {
    var (lex, post) := Merge(files).value;
    MergeLayout(files);
    if i < |lex| {
      WrittenAt(MergeGroups(files, Start(files)), lex, 0, post, i);
    }
  }

  /** With block files whose terms are strictly ascending, as
      flush_block_to_disk writes them once sorted, lexicon.txt lists each
      term once, in ascending order, and entry `i` has word id `i + 1`. */
  lemma SortedLexicon(files: seq<seq<string>>)
    requires Merge(files).Some? && forall i :: 0 <= i < |files| ==> SortedFile(files[i])
    ensures var lex := Merge(files).value.0;
            (forall a, b :: 0 <= a < b < |lex| ==> LexLess(lex[a].term, lex[b].term))
            && forall a :: 0 <= a < |lex| ==> lex[a].wordID == Low32(a + 1)
  {
    var (lex, post) := Merge(files).value;
    var gs := MergeGroups(files, Start(files));
    MergeOfSortedFiles(files, Start(files));
    MergeEntry(files, 0);
    forall a | 0 <= a < |lex| ensures lex[a].term == gs[a].term && lex[a].wordID == Low32(a + 1) {
      MergeEntry(files, a);
      DescribesSpec(lex[a], gs[a], a, post);
    }
  }

  // ---------------------------------------------------------------------
  // lexicon.txt and terms_list.txt

  /** The term as lexicon.txt writes it: tab, newline and carriage return
      replaced by a space. */
  function Sanitized(t: string): (r: string)
    ensures |r| == |t| && '\t' !in r && '\n' !in r && '\r' !in r
    ensures forall i :: 0 <= i < |t| && t[i] != '\t' && t[i] != '\n' && t[i] != '\r' ==> r[i] == t[i]
  {
    seq(|t|, i requires 0 <= i < |t| => if t[i] == '\t' || t[i] == '\n' || t[i] == '\r' then ' ' else t[i])
  }

  /** The in-place replacement loop over the term's characters. */
  method SanitizeTerm(t: string) returns (r: string)
    ensures r == Sanitized(t)
  {
    r := t;
    for i := 0 to |r|
      invariant |r| == |t| && r[..i] == Sanitized(t)[..i] && r[i..] == t[i..]
    {
      if r[i] == '\t' || r[i] == '\n' || r[i] == '\r' {
        r := r[i := ' '];
      }
    }
  }

  /** The seven tab-separated columns of a lexicon line. */
  function LexiconFields(e: LexiconEntry): seq<string> {
    [ToDecimal(e.wordID), Sanitized(e.term), ToDecimal(e.docFreq), ToDecimal(e.termFreq),
     ToDecimal(e.offset), ToDecimal(e.bytes), SkipMeta(e.docFreq)]
  }

  function LexiconLine(e: LexiconEntry): string {
    Join(LexiconFields(e), '\t') + "\n"
  }

  lemma DigitsFree(s: string, c: char)
    requires AllDigits(s) && !IsDigit(c)
    ensures c !in s
  {
  }

  /** A lexicon line is one line, and cutting it at its tabs gives back the
      seven columns. */
  lemma LexiconLineFields(e: LexiconEntry)
    ensures var line := LexiconLine(e);
            |line| >= 1 && line[|line| - 1] == '\n' && '\n' !in line[..|line| - 1]
            && Split(line[..|line| - 1], '\t') == LexiconFields(e)
  {
    var fs := LexiconFields(e);
    var line := LexiconLine(e);
    FieldsFree(e, '\t');
    FieldsFree(e, '\n');
    JoinFree(fs, '\t', '\n');
    assert line[..|line| - 1] == Join(fs, '\t');
    SplitJoin(fs, '\t');
  }

  lemma FieldsFree(e: LexiconEntry, c: char)
    requires c == '\t' || c == '\n'
    ensures FreeOf(LexiconFields(e), c)
  {
    DigitsFree(ToDecimal(e.wordID), c);
    DigitsFree(ToDecimal(e.docFreq), c);
    DigitsFree(ToDecimal(e.termFreq), c);
    DigitsFree(ToDecimal(e.offset), c);
    DigitsFree(ToDecimal(e.bytes), c);
    DigitsFree(ToDecimal(SKIP_INTERVAL), c);
  }

  /** A terms_list.txt line: the term as it is, a tab, the word id. */
  function TermsListLine(e: LexiconEntry): string {
    e.term + "\t" + ToDecimal(e.wordID) + "\n"
  }

  /** A term without tab or newline reads back from its terms_list.txt
      line, with its word id. */
  lemma TermsListLineFields(e: LexiconEntry)
    requires '\t' !in e.term && '\n' !in e.term
    ensures var line := TermsListLine(e);
            |line| >= 1 && line[|line| - 1] == '\n' && '\n' !in line[..|line| - 1]
            && Split(line[..|line| - 1], '\t') == [e.term, ToDecimal(e.wordID)]
  {
    var fs := [e.term, ToDecimal(e.wordID)];
    DigitsFree(ToDecimal(e.wordID), '\t');
    DigitsFree(ToDecimal(e.wordID), '\n');
    assert Join(fs, '\t') == e.term + "\t" + ToDecimal(e.wordID);
    assert TermsListLine(e)[..|TermsListLine(e)| - 1] == Join(fs, '\t');
    SplitJoin(fs, '\t');
  }

  /** `s` starting with `a + [x]` starts with `a`, and from there with `x`. */
  lemma SplitAfter<T>(s: seq<T>, a: seq<T>, x: T)
    requires |a| < |s| && s[..|a| + 1] == a + [x]
    ensures s[..|a|] == a && s[|a|..] == [x] + s[|a| + 1..]
  {
    assert s[..|a|] == (a + [x])[..|a|];
    assert s[|a|] == s[..|a| + 1][|a|];
  }

  /** `s` starting with `a + b` starts with `a`, followed by `b`. */
  lemma PrefixOfPrefix<T>(s: seq<T>, a: seq<T>, b: seq<T>)
    requires |a| + |b| <= |s| && s[..|a| + |b|] == a + b
    ensures s[..|a|] == a && s[|a|..|a| + |b|] == b
  {
    assert s[..|a|] == (a + b)[..|a|];
    assert s[|a|..|a| + |b|] == (a + b)[|a|..];
  }
}
