/** `VByteDecoder` of Query-engine.hpp: its number reader is that of
    searcher.cpp (no bound but the terminator byte, and the same meaning
    chosen for the undefined shifts past 31), and
    `decode_posting_list` keeps only the document numbers of a list,
    reading and dropping each posting's positions. */
module QueryDecoder {
  import opened Common
  import opened VByte
  import opened Postings
  import PostingLists
  import Searcher

  /** The document numbers `decode_posting_list` returns for an entry of
      `bytes` bytes at `offset`: none for an empty entry, otherwise those
      of the list read from `offset` on. The byte count bounds nothing
      else: the reader runs on through the barrel. */
  function DocIdsAt(data: seq<byte>, offset: nat, bytes: nat): seq<uint32> {
    if bytes == 0 then []
    else
      match DecodeList(Searcher.ListDecoder, data, offset, |data|)
      case None => []
      case Some((ps, _)) => PostingLists.DocIds(ps)
  }

  /** The inner loop: `tf` numbers read and dropped; only where the reader
      ends up matters. */
  method SkipPositions(data: seq<byte>, ghost rd: NumberReader, off0: nat, tf: uint32) returns (offset: nat)
    requires Searcher.ReadsUnbounded(rd, data) && DecodePositions(rd, false, |data|, off0, tf, 0).Some?
    ensures offset == DecodePositions(rd, false, |data|, off0, tf, 0).value.1
  {
    ghost var whole := DecodePositions(rd, false, |data|, off0, tf, 0);
    ghost var positions: seq<uint32> := [];
    ghost var lastPos: uint32 := 0;
    offset := off0;
    PrefixedEmpty(whole);
    for j := 0 to tf
      invariant whole == Prefixed(positions, DecodePositions(rd, false, |data|, offset, tf - j, lastPos))
    {
      Searcher.PositionsHead(rd, |data|, offset, tf - j, lastPos);
      Searcher.ReadStops(data, offset);
      var gap, o1 := Searcher.VbyteDecode(data, offset);
      PositionsUnfold(rd, false, |data|, offset, tf - j, lastPos, gap, o1);
      PrefixedTwice(positions, [Add32(lastPos, gap)],
                    DecodePositions(rd, false, |data|, o1, tf - j - 1, Add32(lastPos, gap)));
      lastPos := Add32(lastPos, gap);
      positions := positions + [lastPos];
      offset := o1;
    }
    PrefixedDone(positions, offset);
  }

  /** One round of the outer loop: the docid gap added to the running
      docid, then `freq` and the positions it counts skipped. `p` is the
      posting the round reads, kept for the proof only. */
  method DecodeDocid(data: seq<byte>, ghost rd: NumberReader, ghost whole: Option<(seq<Posting>, nat)>,
                     ghost result: seq<Posting>, off: nat, n: nat, lastDocid: uint32)
    returns (docid: uint32, o3: nat, ghost p: Posting)
    requires Searcher.ReadsUnbounded(rd, data) && 0 < n && whole.Some?
    requires whole == Prefixed(result, DecodePostings(rd, Searcher.ListDecoder, |data|, off, n, lastDocid))
    ensures p.docid == docid
    ensures whole == Prefixed(result + [p], DecodePostings(rd, Searcher.ListDecoder, |data|, o3, n - 1, docid))
  {
    Searcher.PostingHead(rd, |data|, off, n, lastDocid);
    Searcher.ReadStops(data, off);
    var gap, o1 := Searcher.VbyteDecode(data, off);
    docid := Add32(lastDocid, gap);
    Searcher.ReadStops(data, o1);
    var freq, o2 := Searcher.VbyteDecode(data, o1);
    o3 := SkipPositions(data, rd, o2, freq);
    ghost var positions := DecodePositions(rd, false, |data|, o2, freq, 0).value.0;
    p := Posting(docid, freq, positions);
    PostingsUnfold(rd, Searcher.ListDecoder, |data|, off, n, lastDocid, gap, o1, freq, o2, positions, o3);
    PrefixedTwice(result, [p], DecodePostings(rd, Searcher.ListDecoder, |data|, o3, n - 1, docid));
  }

  /** The outer loop: `count` rounds, each pushing one document number. */
  method DecodeDocids(data: seq<byte>, ghost rd: NumberReader, off0: nat, count: uint32)
    returns (docids: seq<uint32>)
    requires Searcher.ReadsUnbounded(rd, data)
    requires DecodePostings(rd, Searcher.ListDecoder, |data|, off0, count, 0).Some?
    ensures docids == PostingLists.DocIds(DecodePostings(rd, Searcher.ListDecoder, |data|, off0, count, 0).value.0)
  {
    ghost var whole := DecodePostings(rd, Searcher.ListDecoder, |data|, off0, count, 0);
    ghost var result: seq<Posting> := [];
    docids := [];
    var offset := off0;
    var lastDocid: uint32 := 0;
    PrefixedEmpty(whole);
    for i := 0 to count
      invariant whole == Prefixed(result, DecodePostings(rd, Searcher.ListDecoder, |data|, offset, count - i, lastDocid))
      invariant docids == PostingLists.DocIds(result)
    {
      var d, o3, p := DecodeDocid(data, rd, whole, result, offset, count - i, lastDocid);
      result := result + [p];
      docids := docids + [d];
      lastDocid := d;
      offset := o3;
    }
    PrefixedDone(result, offset);
  }

  /** `decode_posting_list`: nothing for an empty entry; otherwise the
      document count, then that many document numbers, positions skipped. */
  method DecodePostingList(data: seq<byte>, offset: nat, bytes: nat) returns (docids: seq<uint32>)
    requires bytes == 0 || DecodeList(Searcher.ListDecoder, data, offset, |data|).Some?
    ensures docids == DocIdsAt(data, offset, bytes)
  {
    if bytes == 0 {
      return [];
    }
    Searcher.ReadStops(data, offset);
    var count, pos := Searcher.VbyteDecode(data, offset);
    Searcher.ListStart(data, offset, count, pos);
    docids := DecodeDocids(data, ReaderOf(Unbounded, data, |data|), pos, count);
  }

  /** A list the indexer wrote at `offset`, with its byte count, gives back
      its documents in order. */
  lemma DocIdsRoundTrip(data: seq<byte>, offset: nat, bytes: nat, ps: seq<Posting>)
    requires |ps| < U32 && WellFormed(ps)
    requires bytes == |ListBytes(ps)| && offset + bytes <= |data|
    requires data[offset..offset + bytes] == ListBytes(ps)
    ensures DecodeList(Searcher.ListDecoder, data, offset, |data|).Some?
    ensures DocIdsAt(data, offset, bytes) == PostingLists.DocIds(ps)
  {
    ListRoundTrip(Searcher.ListDecoder, data, offset, |data|, ps);
    EncodeAllAppend([|ps| % U32], PostingNumbers(ps, 0));
    EncodeShape(|ps| % U32);
  }

  /** Whatever the bytes, a non-empty entry that decodes gives as many
      document numbers as the count it starts with. */
  lemma DocIdsCount(data: seq<byte>, offset: nat, bytes: nat)
    requires bytes != 0 && DecodeList(Searcher.ListDecoder, data, offset, |data|).Some?
    ensures Read(Unbounded, data, offset, |data|).Some?
    ensures |DocIdsAt(data, offset, bytes)| == Read(Unbounded, data, offset, |data|).value.0
  {
    var rd := ReaderOf(Unbounded, data, |data|);
    var (count, o1) := rd(offset).value;
    Searcher.PostingsExact(rd, |data|, o1, count, 0);
  }
}
