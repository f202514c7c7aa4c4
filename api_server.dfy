/** The REST server `Api_server.cpp`: its VByte reader, which stops at the
    end of the term's bytes but has no five-byte cap, the lazily loaded
    barrels, `decode_postings`, the disjunctive `search_keywords` and the
    autocomplete lookup. The barrels are loaded exactly as backend/searcher.cpp
    loads them (`BackendSearcher.Barrels`). */
module ApiServer {
  import opened Common
  import opened VByte
  import opened Postings
  import opened BackendSearcher
  import Ranking
  import SearcherQueries
  import PostingLists

  // ---------------------------------------------------------------------
  // vbyte_decode_uint32

  /** Reads one number at `offset`, never at or past `maxSize`: groups are
      OR-ed in at shifts 0, 7, 14, ... until a byte with 0x80 or `maxSize`.
      Nothing stops the shift at 32. A shift of 32 or more, and a group
      shifted past bit 31 of the promoted `int`, are undefined behaviour in
      C++; this model gives them one meaning: the number is taken modulo
      2^32, so those bits are lost. */
  method VbyteDecode(data: seq<byte>, maxSize: nat, offset0: nat) returns (result: uint32, offset: nat)
    requires maxSize <= |data|
    ensures Read(Bounded, data, offset0, maxSize) == Some((result, offset))
  {
    result := 0;
    var shift: nat := 0;
    offset := offset0;
    if offset0 >= maxSize {
      // the loop does not run
      return;
    }
    while offset < maxSize
      invariant offset0 <= offset <= maxSize && shift == 7 * (offset - offset0)
      invariant result == ValueIn(data, offset0, offset)
      invariant forall j :: offset0 <= j < offset ==> !IsStop(data[j])
    {
      var b := data[offset];
      ValueInStep(data, offset0, offset, shift);
      offset := offset + 1;
      if IsStop(b) {
        result := (result + Group(b) * Pow128(shift / 7)) % U32;
        BoundedEnd(data, offset0, maxSize, offset);
        return;
      }
      assert Group(b) == b;
      result := (result + b * Pow128(shift / 7)) % U32;
      shift := shift + 7;
    }
    BoundedEnd(data, offset0, maxSize, offset);
  }

  /** Where the reader stops: just after a terminator, or at `max`. */
  lemma BoundedEnd(data: seq<byte>, off: nat, max: nat, e: nat)
    requires off < e <= max <= |data|
    requires forall j :: off <= j < e - 1 ==> !IsStop(data[j])
    requires IsStop(data[e - 1]) || e == max
    ensures Read(Bounded, data, off, max) == Some((ValueIn(data, off, e), e))
  {
    if IsStop(data[e - 1]) {
      StopEndSkip(data, off, e - 1, max);
    } else {
      StopEndSkip(data, off, e, max);
    }
  }

  /** The reader never reaches `max`, and stops early only just after a
      terminator: however many bytes lack 0x80, it reads on. */
  lemma ReadBounds(data: seq<byte>, off: nat, max: nat)
    requires off < max <= |data|
    ensures var (v, e) := Read(Bounded, data, off, max).value;
            off < e <= max && (e < max ==> IsStop(data[e - 1]))
            && forall j :: off <= j < e - 1 ==> !IsStop(data[j])
  {
    StopEndScan(data, off, max);
  }

  lemma {:induction false} StopEndScan(data: seq<byte>, off: nat, max: nat)
    requires off < max <= |data|
    ensures var e := StopEnd(data, off, max);
            (e < max ==> IsStop(data[e - 1])) && forall j :: off <= j < e - 1 ==> !IsStop(data[j])
    decreases max - off
  {
    if !IsStop(data[off]) && off + 1 < max {
      StopEndScan(data, off + 1, max);
    }
  }

  /** Six bytes without 0x80 and a terminator: this reader takes all seven,
      where backend/searcher.cpp's gives up after five. */
  lemma NoShiftGuard()
    ensures var data: seq<byte> := [1, 1, 1, 1, 1, 1, 128];
            Read(Bounded, data, 0, 7).value.1 == 7 && Read(CappedZero, data, 0, 7).value.1 == 5
  {
    var data: seq<byte> := [1, 1, 1, 1, 1, 1, 128];
    StopEndSkip(data, 0, 6, 7);
  }

  /** The code word of `v` reads back as `v`, just past its last byte,
      whatever surrounds it. */
  lemma EncodeDecode(out: seq<byte>, v: uint32, rest: seq<byte>)
    ensures var data := out + Encode(v) + rest;
            Read(Bounded, data, |out|, |data|) == Some((v, |out| + |Encode(v)|))
  {
    var data := out + Encode(v) + rest;
    assert data[|out|..|out| + |Encode(v)|] == Encode(v);
    ReadWord(Bounded, data, |out|, |data|, v);
  }

  // ---------------------------------------------------------------------
  // decode_postings

  /** Both loops stop once the offset reaches `offset + bytes`. */
  const ListDecoder := Decoder(Bounded, true, true)

  /** `rd` reads numbers from `data` as `vbyte_decode_uint32` does with
      limit `max`. */
  ghost predicate ReadsBounded(rd: NumberReader, data: seq<byte>, max: nat) {
    forall o: nat {:trigger Read(Bounded, data, o, max)} :: rd(o) == Read(Bounded, data, o, max)
  }

  /** The position loop: up to `tf` gaps, while the offset is below `max`. */
  method DecodePositionList(data: seq<byte>, max: nat, ghost rd: NumberReader, off0: nat, tf: uint32)
    returns (positions: seq<uint32>, offset: nat)
    requires max <= |data| && ReadsBounded(rd, data, max)
    ensures DecodePositions(rd, true, max, off0, tf, 0) == Some((positions, offset))
  {
    ghost var whole := DecodePositions(rd, true, max, off0, tf, 0);
    positions := [];
    offset := off0;
    var lastPos: uint32 := 0;
    var j: nat := 0;
    PrefixedEmpty(whole);
    while j < tf && offset < max
      invariant j <= tf
      invariant whole == Prefixed(positions, DecodePositions(rd, true, max, offset, tf - j, lastPos))
      decreases tf - j
    {
      var delta, o1 := VbyteDecode(data, max, offset);
      PositionsUnfold(rd, true, max, offset, tf - j, lastPos, delta, o1);
      PrefixedTwice(positions, [Add32(lastPos, delta)],
                    DecodePositions(rd, true, max, o1, tf - j - 1, Add32(lastPos, delta)));
      positions := positions + [Add32(lastPos, delta)];
      lastPos := Add32(lastPos, delta);
      offset := o1;
      j := j + 1;
    }
    PrefixedDone(positions, offset);
  }

  /** One round of the postings loop. */
  method DecodePosting(data: seq<byte>, max: nat, ghost rd: NumberReader, ghost whole: Option<(seq<Posting>, nat)>,
                       result: seq<Posting>, off: nat, n: nat, lastDocid: uint32)
    returns (p: Posting, o3: nat)
    requires max <= |data| && ReadsBounded(rd, data, max) && 0 < n && off < max
    requires whole == Prefixed(result, DecodePostings(rd, ListDecoder, max, off, n, lastDocid))
    ensures whole == Prefixed(result + [p], DecodePostings(rd, ListDecoder, max, o3, n - 1, p.docid))
  {
    var delta, o1 := VbyteDecode(data, max, off);
    var tf, o2 := VbyteDecode(data, max, o1);
    var positions;
    positions, o3 := DecodePositionList(data, max, rd, o2, tf);
    p := Posting(Add32(lastDocid, delta), tf, positions);
    PostingsUnfold(rd, ListDecoder, max, off, n, lastDocid, delta, o1, tf, o2, positions, o3);
    PrefixedTwice(result, [p], DecodePostings(rd, ListDecoder, max, o3, n - 1, p.docid));
  }

  /** Postings while any remain and the offset is below `max`. */
  method DecodePostingsLoop(data: seq<byte>, max: nat, ghost rd: NumberReader, off0: nat, docCount: uint32)
    returns (result: seq<Posting>, offset: nat)
    requires max <= |data| && ReadsBounded(rd, data, max)
    ensures DecodePostings(rd, ListDecoder, max, off0, docCount, 0) == Some((result, offset))
  {
    ghost var whole := DecodePostings(rd, ListDecoder, max, off0, docCount, 0);
    result := [];
    offset := off0;
    var lastDocid: uint32 := 0;
    var remaining: nat := docCount;
    PrefixedEmpty(whole);
    while remaining > 0 && offset < max
      invariant whole == Prefixed(result, DecodePostings(rd, ListDecoder, max, offset, remaining, lastDocid))
      decreases remaining
    {
      var p, o3 := DecodePosting(data, max, rd, whole, result, offset, remaining, lastDocid);
      result := result + [p];
      lastDocid := p.docid;
      offset := o3;
      remaining := remaining - 1;
    }
    PostingsDone(rd, max, offset, remaining, lastDocid);
    PrefixedDone(result, offset);
  }

  lemma PostingsDone(rd: NumberReader, max: nat, off: nat, n: nat, last: uint32)
    requires n == 0 || off >= max
    ensures DecodePostings(rd, ListDecoder, max, off, n, last) == Some(([], off))
  {
  }

  lemma ListStart(data: seq<byte>, off0: nat, max: nat, count: uint32, o: nat)
    requires Read(Bounded, data, off0, max) == Some((count, o))
    ensures DecodeList(ListDecoder, data, off0, max)
            == DecodePostings(ReaderOf(Bounded, data, max), ListDecoder, max, o, count, 0)
  {
  }

  /** What `decode_postings` reads for an entry from a barrel holding
      `data`: the document count, then the postings, within the entry's
      bytes. */
  function EntryList(data: seq<byte>, e: LexEntry): seq<Posting> {
    var r := DecodeList(ListDecoder, data, e.offset, e.offset + e.bytes);
    if r.Some? then r.value.0 else []
  }

  /** The document count, then the postings, within `[off0, max)`. */
  method DecodeRange(data: seq<byte>, off0: nat, max: nat) returns (result: seq<Posting>)
    requires max <= |data|
    ensures DecodeList(ListDecoder, data, off0, max).Some?
    ensures result == DecodeList(ListDecoder, data, off0, max).value.0
  {
    var docCount, o := VbyteDecode(data, max, off0);
    ListStart(data, off0, max, docCount, o);
    var end;
    result, end := DecodePostingsLoop(data, max, ReaderOf(Bounded, data, max), o, docCount);
  }

  /** The decoding part of `decode_postings`. It never compares the
      entry's bytes with the barrel's size: reading past the buffer is
      undefined, so the bytes must lie inside it. */
  method DecodeEntry(buffer: seq<byte>, entry: LexEntry) returns (result: seq<Posting>)
    requires entry.offset + entry.bytes <= |buffer|
    ensures result == EntryList(buffer, entry)
  {
    result := DecodeRange(buffer, entry.offset, entry.offset + entry.bytes);
  }

  /** The decoded list has at most as many postings as the document count
      it starts with, and each posting at most `tf` positions. */
  lemma EntryListShape(data: seq<byte>, e: LexEntry)
    requires e.offset + e.bytes <= |data|
    ensures |EntryList(data, e)| <= Read(Bounded, data, e.offset, e.offset + e.bytes).value.0
    ensures PositionsWithinTf(EntryList(data, e))
  {
    ListWithinTf(ListDecoder, data, e.offset, e.offset + e.bytes);
  }

  /** No byte at or past `offset + bytes` has a say in the decoded list. */
  lemma EntryListLocal(data: seq<byte>, data2: seq<byte>, e: LexEntry)
    requires AgreeBelow(data, data2, e.offset + e.bytes)
    ensures EntryList(data, e) == EntryList(data2, e)
  {
    var max := e.offset + e.bytes;
    DecodeListLocal(ListDecoder, data, data2, e.offset, max);
    var r, r2 := DecodeList(ListDecoder, data, e.offset, max), DecodeList(ListDecoder, data2, e.offset, max);
    assert r == r2;
    assert EntryList(data, e) == if r.Some? then r.value.0 else [];
  }

  /** A list as the indexers write it, with the entry covering it, decodes
      to the postings written. */
  lemma EntryRoundTrip(data: seq<byte>, e: LexEntry, ps: seq<Posting>)
    requires |ps| < U32 && WellFormed(ps)
    requires e.bytes == |ListBytes(ps)| && e.offset + e.bytes <= |data|
    requires data[e.offset..e.offset + e.bytes] == ListBytes(ps)
    ensures EntryList(data, e) == ps
  {
    var max := e.offset + e.bytes;
    ListRoundTrip(ListDecoder, data, e.offset, max, ps);
    assert DecodeList(ListDecoder, data, e.offset, max) == Some((ps, max));
  }

  /** `decode_postings`: the entry's barrel is loaded unless it already is;
      nothing is decoded when its file is missing, otherwise the entry's
      list is read from the file's bytes. `barrel_loaded` is indexed with
      the entry's barrel id unchecked, so the id must be in range. */
  method DecodeTermPostings(barrels: Barrels, entry: LexEntry) returns (result: seq<Posting>)
    requires barrels.Valid() && 0 <= entry.barrelID < NumBarrels
    requires barrels.disk[entry.barrelID].Some? ==> entry.offset + entry.bytes <= |barrels.disk[entry.barrelID].value|
    modifies barrels
    ensures barrels.Valid()
    ensures result == ListOf(barrels.disk, entry)
    ensures barrels.loaded == old(barrels.loaded)[entry.barrelID := barrels.disk[entry.barrelID].Some?]
  {
    barrels.LoadIfNeeded(entry.barrelID);
    if !barrels.loaded[entry.barrelID] {
      return [];
    }
    result := DecodeEntry(barrels.data[entry.barrelID], entry);
  }

  /** The list of an entry, read from its barrel file; empty when the
      file is missing. */
  function ListOf(disk: seq<Option<seq<byte>>>, e: LexEntry): seq<Posting> {
    if 0 <= e.barrelID < |disk| && disk[e.barrelID].Some? then EntryList(disk[e.barrelID].value, e) else []
  }

  // ---------------------------------------------------------------------
  // search_keywords

  /** The loaded index: `lexicon` and `int_to_docid`. */
  datatype Index = Index(lexicon: map<string, LexEntry>, names: map<uint32, string>)

  /** `idf * tf_score` for a term's `doc_freq` and a posting's `tf`. */
  type Weight = (uint32, uint32) -> real

  datatype KeywordResult = KeywordResult(docid: string, score: real, termFreqs: map<string, uint32>)

  function ScoreOf(r: KeywordResult): real { r.score }

  /** `int_to_docid[docid]`: the `operator[]` of a missing key yields "". */
  function NameOf(ix: Index, d: uint32): string {
    if d in ix.names then ix.names[d] else ""
  }

  function Fresh(ix: Index, d: uint32): KeywordResult {
    KeywordResult(NameOf(ix, d), 0.0, map[])
  }

  /** Every result carries the original docid of its key. */
  predicate Shaped(ix: Index, m: map<uint32, KeywordResult>) {
    forall d :: d in m ==> m[d].docid == NameOf(ix, d)
  }

  /** The lowercased query terms that the lexicon knows, in query order,
      repeats included. */
  function KnownTerms(lexicon: map<string, LexEntry>, terms: seq<string>): (ns: seq<string>)
    ensures forall k :: 0 <= k < |ns| ==> ns[k] in lexicon
  {
    if terms == [] then []
    else
      var n := |terms| - 1;
      KnownTerms(lexicon, terms[..n]) + (if Lower(terms[n]) in lexicon then [Lower(terms[n])] else [])
  }

  /** A term is searched iff it is the lowercase form of a query term and
      the lexicon knows it. */
  lemma {:induction false} KnownTermsSpec(lexicon: map<string, LexEntry>, terms: seq<string>, t: string)
    ensures t in KnownTerms(lexicon, terms) <==> t in lexicon && exists i :: 0 <= i < |terms| && Lower(terms[i]) == t
  {
    if terms != [] {
      var n := |terms| - 1;
      KnownTermsSpec(lexicon, terms[..n], t);
      assert forall i :: 0 <= i < n ==> terms[..n][i] == terms[i];
      if t in lexicon && (exists i :: 0 <= i < |terms| && Lower(terms[i]) == t) {
        var i :| 0 <= i < |terms| && Lower(terms[i]) == t;
        if i < n {
          assert Lower(terms[..n][i]) == t;
        }
      }
    }
  }

  /** The lists of the searched terms, as their barrels hold them. */
  function ListsOf(ix: Index, disk: seq<Option<seq<byte>>>, ns: seq<string>): (lists: seq<seq<Posting>>)
    requires forall k :: 0 <= k < |ns| ==> ns[k] in ix.lexicon
    ensures |lists| == |ns| && forall k :: 0 <= k < |ns| ==> lists[k] == ListOf(disk, ix.lexicon[ns[k]])
  {
    seq(|ns|, k requires 0 <= k < |ns| => ListOf(disk, ix.lexicon[ns[k]]))
  }

  /** One posting credited: the document's result is created if it is new,
      its score grows by the posting's weight and the term's frequency is
      (re)recorded. */
  function Credit(ix: Index, acc: map<uint32, KeywordResult>, term: string, df: uint32,
                  p: Posting, w: Weight): map<uint32, KeywordResult>
  {
    var sr := if p.docid in acc then acc[p.docid] else Fresh(ix, p.docid);
    acc[p.docid := sr.(score := sr.score + w(df, p.tf), termFreqs := sr.termFreqs[term := p.tf])]
  }

  function CreditList(ix: Index, acc: map<uint32, KeywordResult>, term: string, df: uint32,
                      ps: seq<Posting>, w: Weight): map<uint32, KeywordResult>
  {
    if ps == [] then acc
    else
      var n := |ps| - 1;
      Credit(ix, CreditList(ix, acc, term, df, ps[..n], w), term, df, ps[n], w)
  }

  /** All searched terms credited in query order. */
  function Scores(ix: Index, ns: seq<string>, lists: seq<seq<Posting>>, w: Weight): map<uint32, KeywordResult>
    requires |lists| == |ns| && forall k :: 0 <= k < |ns| ==> ns[k] in ix.lexicon
  {
    if ns == [] then map[]
    else
      var n := |ns| - 1;
      CreditList(ix, Scores(ix, ns[..n], lists[..n], w), ns[n], ix.lexicon[ns[n]].docFreq, lists[n], w)
  }

  /** The weights of the postings of `d` in one list, summed. */
  function TermScore(df: uint32, ps: seq<Posting>, d: uint32, w: Weight): real {
    if ps == [] then 0.0
    else
      var n := |ps| - 1;
      TermScore(df, ps[..n], d, w) + (if ps[n].docid == d then w(df, ps[n].tf) else 0.0)
  }

  /** The weights of the postings of `d` in every list, summed. */
  function DocScore(ix: Index, ns: seq<string>, lists: seq<seq<Posting>>, d: uint32, w: Weight): real
    requires |lists| == |ns| && forall k :: 0 <= k < |ns| ==> ns[k] in ix.lexicon
  {
    if ns == [] then 0.0
    else
      var n := |ns| - 1;
      DocScore(ix, ns[..n], lists[..n], d, w) + TermScore(ix.lexicon[ns[n]].docFreq, lists[n], d, w)
  }

  /** One posting credited: its document gains the weight and the term,
      every other document is left as it was. */
  lemma CreditStep(ix: Index, r: map<uint32, KeywordResult>, term: string, df: uint32, p: Posting, w: Weight)
    requires Shaped(ix, r)
    ensures var m := Credit(ix, r, term, df, p, w);
            m.Keys == r.Keys + {p.docid} && Shaped(ix, m)
            && (forall d :: d in r && d != p.docid ==> m[d] == r[d])
            && m[p.docid].score == (if p.docid in r then r[p.docid].score else 0.0) + w(df, p.tf)
            && m[p.docid].termFreqs.Keys == (if p.docid in r then r[p.docid].termFreqs.Keys else {}) + {term}
  {
  }

  lemma {:induction false} CreditListKeys(ix: Index, acc: map<uint32, KeywordResult>, term: string, df: uint32,
                                          ps: seq<Posting>, w: Weight)
    requires Shaped(ix, acc)
    ensures var m := CreditList(ix, acc, term, df, ps, w);
            m.Keys == acc.Keys + PostingLists.DocSet(ps) && Shaped(ix, m)
  {
    if ps != [] {
      var n := |ps| - 1;
      CreditListKeys(ix, acc, term, df, ps[..n], w);
      PostingLists.DocSetFront(ps);
      CreditStep(ix, CreditList(ix, acc, term, df, ps[..n], w), term, df, ps[n], w);
    }
  }

  lemma {:induction false} TermScoreAbsent(df: uint32, ps: seq<Posting>, d: uint32, w: Weight)
    requires d !in PostingLists.DocSet(ps)
    ensures TermScore(df, ps, d, w) == 0.0
  {
    if ps != [] {
      PostingLists.DocSetFront(ps);
      TermScoreAbsent(df, ps[..|ps| - 1], d, w);
    }
  }

  lemma {:induction false} CreditListScore(ix: Index, acc: map<uint32, KeywordResult>, term: string, df: uint32,
                                           ps: seq<Posting>, w: Weight)
    requires Shaped(ix, acc)
    ensures var m := CreditList(ix, acc, term, df, ps, w);
            forall d :: d in m ==> m[d].score == (if d in acc then acc[d].score else 0.0) + TermScore(df, ps, d, w)
  {
    if ps != [] {
      var n := |ps| - 1;
      var p := ps[n];
      CreditListScore(ix, acc, term, df, ps[..n], w);
      CreditListKeys(ix, acc, term, df, ps[..n], w);
      var r := CreditList(ix, acc, term, df, ps[..n], w);
      var m := Credit(ix, r, term, df, p, w);
      CreditStep(ix, r, term, df, p, w);
      forall d | d in m
        ensures m[d].score == (if d in acc then acc[d].score else 0.0) + TermScore(df, ps, d, w)
      {
        if d == p.docid && d !in r {
          TermScoreAbsent(df, ps[..n], d, w);
        }
      }
    }
  }

  lemma {:induction false} CreditListTerms(ix: Index, acc: map<uint32, KeywordResult>, term: string, df: uint32,
                                           ps: seq<Posting>, w: Weight)
    requires Shaped(ix, acc)
    ensures var m := CreditList(ix, acc, term, df, ps, w);
            forall d :: d in m ==>
              m[d].termFreqs.Keys == (if d in acc then acc[d].termFreqs.Keys else {})
                                     + (if d in PostingLists.DocSet(ps) then {term} else {})
  {
    if ps != [] {
      var n := |ps| - 1;
      var p := ps[n];
      CreditListTerms(ix, acc, term, df, ps[..n], w);
      CreditListKeys(ix, acc, term, df, ps[..n], w);
      PostingLists.DocSetFront(ps);
      var r := CreditList(ix, acc, term, df, ps[..n], w);
      var m := Credit(ix, r, term, df, p, w);
      CreditStep(ix, r, term, df, p, w);
      forall d | d in m
        ensures m[d].termFreqs.Keys == (if d in acc then acc[d].termFreqs.Keys else {})
                                       + (if d in PostingLists.DocSet(ps) then {term} else {})
      {
        if d != p.docid {
          assert m[d] == r[d];
        }
      }
    }
  }

  /** A document of no list scores nothing and matches no term. */
  lemma {:induction false} ScoresAbsent(ix: Index, ns: seq<string>, lists: seq<seq<Posting>>, d: uint32, w: Weight)
    requires |lists| == |ns| && forall k :: 0 <= k < |ns| ==> ns[k] in ix.lexicon
    requires d !in SearcherQueries.AnyList(lists)
    ensures DocScore(ix, ns, lists, d, w) == 0.0 && SearcherQueries.TermsOf(ns, lists, d) == {}
  {
    if ns != [] {
      var n := |ns| - 1;
      ScoresAbsent(ix, ns[..n], lists[..n], d, w);
      TermScoreAbsent(ix.lexicon[ns[n]].docFreq, lists[n], d, w);
    }
  }

  /** The accumulated map holds exactly the documents of some list, each
      with its original docid, scored by the sum of the weights of all its
      postings, and with the terms whose list holds it. */
  lemma {:induction false} ScoresSpec(ix: Index, ns: seq<string>, lists: seq<seq<Posting>>, w: Weight)
    requires |lists| == |ns| && forall k :: 0 <= k < |ns| ==> ns[k] in ix.lexicon
    ensures var m := Scores(ix, ns, lists, w);
            m.Keys == SearcherQueries.AnyList(lists) && Shaped(ix, m)
            && forall d :: d in m ==>
                 m[d].score == DocScore(ix, ns, lists, d, w) && m[d].termFreqs.Keys == SearcherQueries.TermsOf(ns, lists, d)
  {
    if ns != [] {
      var n := |ns| - 1;
      ScoresSpec(ix, ns[..n], lists[..n], w);
      var r := Scores(ix, ns[..n], lists[..n], w);
      var df := ix.lexicon[ns[n]].docFreq;
      CreditListKeys(ix, r, ns[n], df, lists[n], w);
      CreditListScore(ix, r, ns[n], df, lists[n], w);
      CreditListTerms(ix, r, ns[n], df, lists[n], w);
      forall d | d !in r
        ensures DocScore(ix, ns[..n], lists[..n], d, w) == 0.0 && SearcherQueries.TermsOf(ns[..n], lists[..n], d) == {}
      {
        ScoresAbsent(ix, ns[..n], lists[..n], d, w);
      }
    }
  }

  /** The scoring loop over one term's postings. */
  method CreditPostings(ix: Index, acc0: map<uint32, KeywordResult>, term: string, df: uint32,
                        ps: seq<Posting>, w: Weight) returns (acc: map<uint32, KeywordResult>)
    ensures acc == CreditList(ix, acc0, term, df, ps, w)
  {
    acc := acc0;
    for j := 0 to |ps|
      invariant acc == CreditList(ix, acc0, term, df, ps[..j], w)
    {
      ghost var prev := acc;
      assert ps[..j + 1][..j] == ps[..j];
      var d := ps[j].docid;
      if d !in acc {
        acc := acc[d := Fresh(ix, d)];
      }
      var sr := acc[d];
      acc := acc[d := sr.(score := sr.score + w(df, ps[j].tf), termFreqs := sr.termFreqs[term := ps[j].tf])];
      assert acc == Credit(ix, prev, term, df, ps[j], w);
    }
    assert ps[..|ps|] == ps;
  }

  /** `results.size() > top_k` compares with `top_k` converted to an
      unsigned size: a negative `top_k` never cuts. */
  function Cut<T>(s: seq<T>, topK: int): seq<T> {
    if topK < 0 then s else Ranking.Top(s, topK)
  }

  lemma CutSpec<T>(s: seq<T>, topK: int)
    ensures topK >= 0 ==> |Cut(s, topK)| == Ranking.Min(topK, |s|)
    ensures topK < 0 ==> Cut(s, topK) == s
    ensures forall i :: 0 <= i < |Cut(s, topK)| ==> Cut(s, topK)[i] == s[i]
  {
  }

  /** The results of a map in traversal order, sorted by descending score
      and cut. */
  ghost predicate RankedCut(scores: map<uint32, KeywordResult>, topK: int, results: seq<KeywordResult>,
                            order: seq<uint32>, ranked: seq<KeywordResult>)
  {
    Ranking.Listed(order, scores.Keys)
    && (forall k :: 0 <= k < |order| ==> order[k] in scores)
    && Ranking.Ranked(ranked, Ranking.ValuesAt(scores, order), ScoreOf)
    && results == Cut(ranked, topK)
  }

  /** Every searched term's entry names a barrel, and its bytes lie
      inside that barrel when the barrel's file exists. */
  predicate Fits(ix: Index, disk: seq<Option<seq<byte>>>, terms: seq<string>) {
    forall t :: t in KnownTerms(ix.lexicon, terms) ==> EntryFits(disk, ix.lexicon[t])
  }

  predicate EntryFits(disk: seq<Option<seq<byte>>>, e: LexEntry) {
    0 <= e.barrelID < |disk| && (disk[e.barrelID].Some? ==> e.offset + e.bytes <= |disk[e.barrelID].value|)
  }

  /** The `scores` map that the loop over the query terms leaves. */
  function KeywordScores(ix: Index, disk: seq<Option<seq<byte>>>, terms: seq<string>, w: Weight): map<uint32, KeywordResult> {
    var ns := KnownTerms(ix.lexicon, terms);
    Scores(ix, ns, ListsOf(ix, disk, ns), w)
  }

  /** One query term more: credited if the lexicon knows it, skipped
      otherwise. */
  lemma KeywordScoresStep(ix: Index, disk: seq<Option<seq<byte>>>, terms: seq<string>, i: nat, w: Weight)
    requires i < |terms|
    ensures var norm := Lower(terms[i]);
            KeywordScores(ix, disk, terms[..i + 1], w)
            == if norm in ix.lexicon
               then CreditList(ix, KeywordScores(ix, disk, terms[..i], w), norm, ix.lexicon[norm].docFreq,
                               ListOf(disk, ix.lexicon[norm]), w)
               else KeywordScores(ix, disk, terms[..i], w)
  {
    var norm := Lower(terms[i]);
    var ns := KnownTerms(ix.lexicon, terms[..i]);
    KnownTermsStep(ix.lexicon, terms, i);
    if norm in ix.lexicon {
      var ns1 := ns + [norm];
      var lists1 := ListsOf(ix, disk, ns1);
      assert ns1[..|ns|] == ns;
      assert lists1[..|ns|] == ListsOf(ix, disk, ns);
      assert ns1[|ns|] == norm && lists1[|ns|] == ListOf(disk, ix.lexicon[norm]);
      assert Scores(ix, ns1, lists1, w)
             == CreditList(ix, Scores(ix, ns, ListsOf(ix, disk, ns), w), norm, ix.lexicon[norm].docFreq, lists1[|ns|], w);
      assert KeywordScores(ix, disk, terms[..i + 1], w) == Scores(ix, ns1, lists1, w);
    } else {
      assert KnownTerms(ix.lexicon, terms[..i + 1]) == ns;
    }
  }

  lemma KnownTermsStep(lexicon: map<string, LexEntry>, terms: seq<string>, i: nat)
    requires i < |terms|
    ensures KnownTerms(lexicon, terms[..i + 1])
            == KnownTerms(lexicon, terms[..i]) + (if Lower(terms[i]) in lexicon then [Lower(terms[i])] else [])
  {
    assert terms[..i + 1][..i] == terms[..i];
  }

  /** The loop of `search_keywords` over the query terms: each is
      lowercased; those the lexicon does not know are skipped, the
      postings of the others credited in query order. */
  method AccumulateTerms(ix: Index, barrels: Barrels, terms: seq<string>, w: Weight)
    returns (scores: map<uint32, KeywordResult>)
    requires barrels.Valid() && Fits(ix, barrels.disk, terms)
    modifies barrels
    ensures barrels.Valid()
    ensures scores == KeywordScores(ix, barrels.disk, terms, w)
  {
    scores := map[];
    for i := 0 to |terms|
      invariant barrels.Valid()
      invariant scores == KeywordScores(ix, barrels.disk, terms[..i], w)
    {
      KeywordScoresStep(ix, barrels.disk, terms, i, w);
      var norm := Lower(terms[i]);
      if norm in ix.lexicon {
        KnownTermsSpec(ix.lexicon, terms, norm);
        var ps := DecodeTermPostings(barrels, ix.lexicon[norm]);
        scores := CreditPostings(ix, scores, norm, ix.lexicon[norm].docFreq, ps, w);
      }
    }
    assert terms[..|terms|] == terms;
  }

  /** `search_keywords`: the scores of the query terms, sorted by
      descending score and cut to `top_k`. */
  method SearchKeywords(ix: Index, barrels: Barrels, terms: seq<string>, topK: int, w: Weight)
    returns (results: seq<KeywordResult>, ghost order: seq<uint32>, ghost ranked: seq<KeywordResult>)
    requires barrels.Valid() && Fits(ix, barrels.disk, terms)
    modifies barrels
    ensures barrels.Valid()
    ensures RankedCut(KeywordScores(ix, barrels.disk, terms, w), topK, results, order, ranked)
  {
    var scores := AccumulateTerms(ix, barrels, terms, w);
    var vs;
    vs, order := Ranking.ValuesOf(scores);
    var sorted := Ranking.SortByScore(vs, ScoreOf);
    ranked := sorted;
    results := Cut(sorted, topK);
  }

  /** What `search_keywords` returns: no more than `top_k` results when
      `top_k` is not negative, in descending score. */
  lemma KeywordsSpec(scores: map<uint32, KeywordResult>, topK: int,
                     results: seq<KeywordResult>, order: seq<uint32>, ranked: seq<KeywordResult>)
    requires RankedCut(scores, topK, results, order, ranked)
    ensures topK >= 0 ==> |results| <= topK
    ensures Ranking.NonIncreasing(results, ScoreOf)
  {
    var k := CutAsTop(scores, topK, results, order, ranked);
    Ranking.TopSpec(ranked, k, ScoreOf);
  }

  /** `r` is the result of a document of some list: its original docid,
      the summed weights of all its postings and the terms that hold it. */
  ghost predicate Explained(ix: Index, ns: seq<string>, lists: seq<seq<Posting>>, w: Weight, r: KeywordResult)
    requires |lists| == |ns| && forall k :: 0 <= k < |ns| ==> ns[k] in ix.lexicon
  {
    exists d :: d in SearcherQueries.AnyList(lists) && r.docid == NameOf(ix, d)
                && r.score == DocScore(ix, ns, lists, d, w) && r.termFreqs.Keys == SearcherQueries.TermsOf(ns, lists, d)
  }

  /** Each result is a document of some known term's list, with its
      original docid, the summed weights of all its postings and the terms
      that hold it. */
  lemma KeywordsMembers(ix: Index, ns: seq<string>, lists: seq<seq<Posting>>, w: Weight, topK: int,
                        results: seq<KeywordResult>, order: seq<uint32>, ranked: seq<KeywordResult>)
    requires |lists| == |ns| && forall k :: 0 <= k < |ns| ==> ns[k] in ix.lexicon
    requires RankedCut(Scores(ix, ns, lists, w), topK, results, order, ranked)
    ensures forall r :: r in results ==> Explained(ix, ns, lists, w, r)
  {
    var scores := Scores(ix, ns, lists, w);
    var k := CutAsTop(scores, topK, results, order, ranked);
    Ranking.TopOfValues(scores, order, ranked, k, ScoreOf);
    ScoresSpec(ix, ns, lists, w);
    forall r | r in results
      ensures Explained(ix, ns, lists, w, r)
    {
      var d :| d in scores && scores[d] == r;
      assert d in SearcherQueries.AnyList(lists) && r.docid == NameOf(ix, d);
    }
  }

  /** When no more documents match than `top_k` allows, every one of them
      is returned. */
  lemma KeywordsComplete(ix: Index, ns: seq<string>, lists: seq<seq<Posting>>, w: Weight, topK: int,
                         results: seq<KeywordResult>, order: seq<uint32>, ranked: seq<KeywordResult>)
    requires |lists| == |ns| && forall k :: 0 <= k < |ns| ==> ns[k] in ix.lexicon
    requires RankedCut(Scores(ix, ns, lists, w), topK, results, order, ranked)
    requires topK < 0 || |SearcherQueries.AnyList(lists)| <= topK
    ensures forall d :: d in SearcherQueries.AnyList(lists) ==> exists r :: r in results && r.docid == NameOf(ix, d)
  {
    var scores := Scores(ix, ns, lists, w);
    ScoresSpec(ix, ns, lists, w);
    var k := CutAsTop(scores, topK, results, order, ranked);
    Ranking.TopOfValues(scores, order, ranked, k, ScoreOf);
    forall d | d in SearcherQueries.AnyList(lists)
      ensures exists r :: r in results && r.docid == NameOf(ix, d)
    {
      assert scores[d] in results;
    }
  }

  /** The cut as a `Top`: by `top_k`, or by the whole length when `top_k`
      is negative. */
  lemma CutAsTop(scores: map<uint32, KeywordResult>, topK: int, results: seq<KeywordResult>,
                 order: seq<uint32>, ranked: seq<KeywordResult>) returns (k: nat)
    requires RankedCut(scores, topK, results, order, ranked)
    ensures results == Ranking.Top(ranked, k)
    ensures topK >= 0 ==> k == topK
    ensures topK < 0 ==> k == |scores|
  {
    if topK < 0 {
      Ranking.ListedSize(order, scores.Keys);
      assert |ranked| == |order| by {
        assert |multiset(ranked)| == |multiset(Ranking.ValuesAt(scores, order))|;
      }
      k := |ranked|;
    } else {
      k := topK;
    }
  }

  // ---------------------------------------------------------------------
  // The autocomplete endpoint

  /** A stored suggestion; the popularity is an opaque ordered value. */
  datatype Suggestion = Suggestion(term: string, popularity: real, docFreq: uint32)

  /** `/api/autocomplete`: `q` is lowercased and looked up as an exact key;
      its stored list is cut to `limit`, 10 when no limit is given. */
  function Autocomplete(index: map<string, seq<Suggestion>>, q: string, limit: Option<int>): seq<Suggestion> {
    var prefix := Lower(q);
    var k := if limit.Some? then limit.value else 10;
    if prefix in index then Cut(index[prefix], k) else []
  }

  /** An unknown key gives nothing; a known one the first `limit` stored
      suggestions in stored order (all of them for a negative limit); and
      queries that differ only in ASCII case get the same answer. */
  lemma AutocompleteSpec(index: map<string, seq<Suggestion>>, q: string, limit: Option<int>)
    ensures var r := Autocomplete(index, q, limit);
            var k := if limit.Some? then limit.value else 10;
            (Lower(q) !in index ==> r == [])
            && (Lower(q) in index ==>
                  (forall i :: 0 <= i < |r| ==> r[i] == index[Lower(q)][i])
                  && |r| == (if k < 0 then |index[Lower(q)]| else Ranking.Min(k, |index[Lower(q)]|)))
    ensures forall q2 :: Lower(q2) == Lower(q) ==> Autocomplete(index, q2, limit) == Autocomplete(index, q, limit)
  {
    if Lower(q) in index {
      CutSpec(index[Lower(q)], if limit.Some? then limit.value else 10);
    }
  }
}
