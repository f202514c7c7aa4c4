/** The index access of searcher.cpp: its unbounded VByte reader, the
    postings decoder over the whole of `postings.bin`, the JSON field
    extraction of the forward index, and the parsing of an interactive
    query line. The searches themselves are in module SearcherQueries. */
module Searcher {
  import opened Common
  import opened VByte
  import opened Postings
  import Text

  // ---------------------------------------------------------------------
  // vbyte_decode_uint32

  /** Reads one number at `offset0`: groups are OR-ed in at shifts 0, 7,
      14, ... until a byte with 0x80. Nothing bounds the loop but that
      byte, so a caller must know one follows. The shifts of the sixth and
      later groups, 35 and more, are undefined behaviour in C++; this model
      takes the number modulo 2^32, so their bits are lost. */
  method VbyteDecode(data: seq<byte>, offset0: nat) returns (result: uint32, offset: nat)
    requires StopIn(data, offset0, |data|)
    ensures Read(Unbounded, data, offset0, |data|) == Some((result, offset))
  {
    result := 0;
    offset := offset0;
    var shift: nat := 0;
    ghost var stop :| offset0 <= stop < |data| && IsStop(data[stop]);
    while true
      invariant offset0 <= offset <= stop && shift == 7 * (offset - offset0)
      invariant result == ValueIn(data, offset0, offset)
      invariant forall j :: offset0 <= j < offset ==> !IsStop(data[j])
      decreases stop - offset
    {
      var b := data[offset];
      ValueInStep(data, offset0, offset, shift);
      offset := offset + 1;
      if IsStop(b) {
        result := (result + Group(b) * Pow128(shift / 7)) % U32;
        UnboundedEnd(data, offset0, offset);
        return;
      }
      assert Group(b) == b;
      result := (result + b * Pow128(shift / 7)) % U32;
      shift := shift + 7;
    }
  }

  /** Where the reader stops: just past the first terminator. */
  lemma UnboundedEnd(data: seq<byte>, off: nat, e: nat)
    requires off < e <= |data| && IsStop(data[e - 1])
    requires forall j :: off <= j < e - 1 ==> !IsStop(data[j])
    ensures Read(Unbounded, data, off, |data|) == Some((ValueIn(data, off, e), e))
  {
    StopEndSkip(data, off, e - 1, |data|);
  }

  /** The reader finds a terminator exactly when one follows. */
  lemma ReadStops(data: seq<byte>, o: nat)
    ensures Read(Unbounded, data, o, |data|).Some? <==> StopIn(data, o, |data|)
  {
  }

  // ---------------------------------------------------------------------
  // decode_postings_list

  /** A line of `lexicon.txt` as `load_lexicon` reads it. */
  datatype LexEntry = LexEntry(wordID: uint32, term: string, docFreq: uint32, termFreq: nat, offset: nat, bytes: nat)

  /** Neither loop stops at the end of the term's bytes: the reader runs
      on through `postings.bin`. */
  const ListDecoder := Decoder(Unbounded, false, false)

  /** The decoder runs to completion without reading past the buffer: a
      range that fits, read from well-formed bytes. The C++ has undefined
      behaviour otherwise. */
  predicate Decodable(data: seq<byte>, e: LexEntry) {
    e.offset + e.bytes > |data| || DecodeList(ListDecoder, data, e.offset, |data|).Some?
  }

  /** What `decode_postings_list` returns: nothing for a range past the
      end of `postings.bin`, otherwise the list read at its offset. */
  function Decoded(data: seq<byte>, e: LexEntry): seq<Posting> {
    if e.offset + e.bytes > |data| then []
    else
      match DecodeList(ListDecoder, data, e.offset, |data|)
      case None => []
      case Some((ps, _)) => ps
  }

  /** `rd` reads numbers from `data` as `vbyte_decode_uint32` does. */
  ghost predicate ReadsUnbounded(rd: NumberReader, data: seq<byte>) {
    forall o: nat {:trigger Read(Unbounded, data, o, |data|)} :: rd(o) == Read(Unbounded, data, o, |data|)
  }

  /** A position loop that completes reads its next gap. */
  lemma PositionsHead(rd: NumberReader, max: nat, off: nat, n: nat, last: uint32)
    requires 0 < n && DecodePositions(rd, false, max, off, n, last).Some?
    ensures rd(off).Some?
  {
  }

  /** A postings loop that completes reads its next gap, `tf` and
      positions. */
  lemma PostingHead(rd: NumberReader, max: nat, off: nat, n: nat, last: uint32)
    requires 0 < n && DecodePostings(rd, ListDecoder, max, off, n, last).Some?
    ensures rd(off).Some? && rd(rd(off).value.1).Some?
    ensures DecodePositions(rd, false, max, rd(rd(off).value.1).value.1, rd(rd(off).value.1).value.0, 0).Some?
  {
  }

  /** The position loop: `tf` gaps, each added to the previous position. */
  method DecodePositionList(data: seq<byte>, ghost rd: NumberReader, off0: nat, tf: uint32)
    returns (positions: seq<uint32>, offset: nat)
    requires ReadsUnbounded(rd, data) && DecodePositions(rd, false, |data|, off0, tf, 0).Some?
    ensures DecodePositions(rd, false, |data|, off0, tf, 0) == Some((positions, offset))
  {
    ghost var whole := DecodePositions(rd, false, |data|, off0, tf, 0);
    positions := [];
    offset := off0;
    var lastPos: uint32 := 0;
    PrefixedEmpty(whole);
    for j := 0 to tf
      invariant whole == Prefixed(positions, DecodePositions(rd, false, |data|, offset, tf - j, lastPos))
    {
      PositionsHead(rd, |data|, offset, tf - j, lastPos);
      ReadStops(data, offset);
      var delta, o1 := VbyteDecode(data, offset);
      PositionsUnfold(rd, false, |data|, offset, tf - j, lastPos, delta, o1);
      PrefixedTwice(positions, [Add32(lastPos, delta)],
                    DecodePositions(rd, false, |data|, o1, tf - j - 1, Add32(lastPos, delta)));
      lastPos := Add32(lastPos, delta);
      positions := positions + [lastPos];
      offset := o1;
    }
    PrefixedDone(positions, offset);
  }

  /** One round of the postings loop: a docid gap, a `tf` and the
      positions; `whole` is what the loop as a whole decodes. */
  method DecodePosting(data: seq<byte>, ghost rd: NumberReader, ghost whole: Option<(seq<Posting>, nat)>,
                       result: seq<Posting>, off: nat, n: nat, lastDocid: uint32)
    returns (p: Posting, o3: nat)
    requires ReadsUnbounded(rd, data) && 0 < n && whole.Some?
    requires whole == Prefixed(result, DecodePostings(rd, ListDecoder, |data|, off, n, lastDocid))
    ensures whole == Prefixed(result + [p], DecodePostings(rd, ListDecoder, |data|, o3, n - 1, p.docid))
  {
    PostingHead(rd, |data|, off, n, lastDocid);
    ReadStops(data, off);
    var delta, o1 := VbyteDecode(data, off);
    ReadStops(data, o1);
    var tf, o2 := VbyteDecode(data, o1);
    var positions;
    positions, o3 := DecodePositionList(data, rd, o2, tf);
    p := Posting(Add32(lastDocid, delta), tf, positions);
    PostingsUnfold(rd, ListDecoder, |data|, off, n, lastDocid, delta, o1, tf, o2, positions, o3);
    PrefixedTwice(result, [p], DecodePostings(rd, ListDecoder, |data|, o3, n - 1, p.docid));
  }

  /** The postings loop: `docCount` postings, docids as running sums. */
  method DecodePostingsLoop(data: seq<byte>, ghost rd: NumberReader, off0: nat, docCount: uint32)
    returns (result: seq<Posting>, offset: nat)
    requires ReadsUnbounded(rd, data) && DecodePostings(rd, ListDecoder, |data|, off0, docCount, 0).Some?
    ensures DecodePostings(rd, ListDecoder, |data|, off0, docCount, 0) == Some((result, offset))
  {
    ghost var whole := DecodePostings(rd, ListDecoder, |data|, off0, docCount, 0);
    result := [];
    offset := off0;
    var lastDocid: uint32 := 0;
    PrefixedEmpty(whole);
    for i := 0 to docCount
      invariant whole == Prefixed(result, DecodePostings(rd, ListDecoder, |data|, offset, docCount - i, lastDocid))
    {
      var p, o3 := DecodePosting(data, rd, whole, result, offset, docCount - i, lastDocid);
      result := result + [p];
      lastDocid := p.docid;
      offset := o3;
    }
    PrefixedDone(result, offset);
  }

  /** A list is its count followed by that many postings. */
  lemma ListStart(data: seq<byte>, off: nat, count: uint32, o: nat)
    requires Read(Unbounded, data, off, |data|) == Some((count, o))
    ensures ReadsUnbounded(ReaderOf(Unbounded, data, |data|), data)
    ensures DecodeList(ListDecoder, data, off, |data|)
            == DecodePostings(ReaderOf(Unbounded, data, |data|), ListDecoder, |data|, o, count, 0)
  {
  }

  /** `decode_postings_list`: nothing when the entry's range passes the
      end of `postings.bin`; otherwise the document count, then that many
      postings, read from the entry's offset on. */
  method DecodePostingsList(data: seq<byte>, entry: LexEntry) returns (result: seq<Posting>)
    requires Decodable(data, entry)
    ensures result == Decoded(data, entry)
  {
    if entry.offset + entry.bytes > |data| {
      return [];
    }
    ReadStops(data, entry.offset);
    var docCount, offset := VbyteDecode(data, entry.offset);
    ListStart(data, entry.offset, docCount, offset);
    var end;
    result, end := DecodePostingsLoop(data, ReaderOf(Unbounded, data, |data|), offset, docCount);
  }

  /** A completed decoding without guards yields exactly `n` postings, each
      with exactly `tf` positions. */
  lemma {:induction false} PositionsExact(rd: NumberReader, max: nat, off: nat, n: nat, last: uint32)
    requires DecodePositions(rd, false, max, off, n, last).Some?
    ensures |DecodePositions(rd, false, max, off, n, last).value.0| == n
    decreases n
  {
    if n > 0 {
      var (g, o1) := rd(off).value;
      PositionsExact(rd, max, o1, n - 1, Add32(last, g));
    }
  }

  lemma {:induction false} PostingsExact(rd: NumberReader, max: nat, off: nat, n: nat, last: uint32)
    requires DecodePostings(rd, ListDecoder, max, off, n, last).Some?
    ensures |DecodePostings(rd, ListDecoder, max, off, n, last).value.0| == n
    ensures WellFormed(DecodePostings(rd, ListDecoder, max, off, n, last).value.0)
    decreases n
  {
    if n > 0 {
      var (g, o1) := rd(off).value;
      var (tf, o2) := rd(o1).value;
      PositionsExact(rd, max, o2, tf, 0);
      var (pos, o3) := DecodePositions(rd, false, max, o2, tf, 0).value;
      PostingsExact(rd, max, o3, n - 1, Add32(last, g));
    }
  }

  /** The list `decode_postings_list` yields for an entry in range has as
      many postings as the count it starts with, and each posting exactly
      `tf` positions. */
  lemma DecodedExact(data: seq<byte>, e: LexEntry)
    requires e.offset + e.bytes <= |data| && DecodeList(ListDecoder, data, e.offset, |data|).Some?
    ensures Read(Unbounded, data, e.offset, |data|).Some?
    ensures |Decoded(data, e)| == Read(Unbounded, data, e.offset, |data|).value.0
    ensures WellFormed(Decoded(data, e))
  {
    var rd := ReaderOf(Unbounded, data, |data|);
    var (count, o1) := rd(e.offset).value;
    PostingsExact(rd, |data|, o1, count, 0);
  }

  /** A list the indexer wrote at the entry's offset, with the entry's
      byte count, is read back as written. */
  lemma DecodedRoundTrip(data: seq<byte>, e: LexEntry, ps: seq<Posting>)
    requires |ps| < U32 && WellFormed(ps)
    requires e.bytes == |ListBytes(ps)| && e.offset + e.bytes <= |data|
    requires data[e.offset..e.offset + e.bytes] == ListBytes(ps)
    ensures Decodable(data, e) && Decoded(data, e) == ps
  {
    ListRoundTrip(ListDecoder, data, e.offset, |data|, ps);
  }

  // ---------------------------------------------------------------------
  // extract_json_string

  /** `"key":"` */
  function SearchKey(key: string): string {
    "\"" + key + "\":\""
  }

  /** `find(pat, i)`: the first occurrence of `pat` at `i` or later. */
  function FindFrom(s: string, pat: string, i: nat): (r: Option<nat>)
    requires i <= |s|
    ensures r.Some? ==> i <= r.value && r.value + |pat| <= |s|
    decreases |s| - i
  {
    if i + |pat| > |s| then None
    else if At(s, i, pat) then Some(i)
    else FindFrom(s, pat, i + 1)
  }

  /** What `FindFrom` finds is an occurrence with none before it, and
      `None` means there is none at all. */
  lemma {:induction false} FindFromSpec(s: string, pat: string, i: nat)
    requires i <= |s|
    ensures var r := FindFrom(s, pat, i);
      r.Some? ==> At(s, r.value, pat) && forall k :: i <= k < r.value ==> !At(s, k, pat)
    ensures FindFrom(s, pat, i).None? ==> forall k :: i <= k ==> !At(s, k, pat)
    decreases |s| - i
  {
    if i + |pat| <= |s| && !At(s, i, pat) {
      FindFromSpec(s, pat, i + 1);
    }
  }

  /** `find(c, i)`: the first `c` at `i` or later. */
  function FindCharFrom(s: string, c: char, i: nat): (r: Option<nat>)
    requires i <= |s|
    ensures r.Some? ==> i <= r.value < |s| && s[r.value] == c
    decreases |s| - i
  {
    if i == |s| then None
    else if s[i] == c then Some(i)
    else FindCharFrom(s, c, i + 1)
  }

  /** No `c` stands before what `FindCharFrom` finds, and none at all from
      `i` on when it finds nothing. */
  lemma {:induction false} FindCharFromSpec(s: string, c: char, i: nat)
    requires i <= |s|
    ensures var r := FindCharFrom(s, c, i);
      r.Some? ==> forall k :: i <= k < r.value ==> s[k] != c
    ensures FindCharFrom(s, c, i).None? ==> forall k :: i <= k < |s| ==> s[k] != c
    decreases |s| - i
  {
    if i < |s| && s[i] != c {
      FindCharFromSpec(s, c, i + 1);
    }
  }

  /** A `c` at `j`, with none from `i` up to it, is what `FindCharFrom`
      finds. */
  lemma {:induction false} FindCharFromAt(s: string, c: char, i: nat, j: nat)
    requires i <= j < |s| && s[j] == c && forall k :: i <= k < j ==> s[k] != c
    ensures FindCharFrom(s, c, i) == Some(j)
    decreases j - i
  {
    if i < j {
      FindCharFromAt(s, c, i + 1, j);
    }
  }

  /** The text after the first `"key":"` up to the next quote; empty when
      either is missing. */
  function ExtractJsonString(json: string, key: string): (r: string)
    ensures forall j :: 0 <= j < |r| ==> r[j] != '"'
  {
    var sk := SearchKey(key);
    match FindFrom(json, sk, 0)
    case None => ""
    case Some(k) =>
      var start := k + |sk|;
      match FindCharFrom(json, '"', start)
      case None => ""
      case Some(end) =>
        FindCharFromSpec(json, '"', start);
        json[start..end]
  }

  /** A field written as `"key":"v"` is read back as `v` when no earlier
      `"key":"` precedes it and `v` holds no quote. */
  lemma ExtractWritten(json: string, key: string, k: nat, v: string)
    requires At(json, k, SearchKey(key) + v + "\"")
    requires forall j :: 0 <= j < |v| ==> v[j] != '"'
    requires forall j :: 0 <= j < k ==> !At(json, j, SearchKey(key))
    ensures ExtractJsonString(json, key) == v
  {
    var sk := SearchKey(key);
    var w := sk + v + "\"";
    assert At(json, k, sk) by {
      assert forall j :: 0 <= j < |sk| ==> w[j] == sk[j];
    }
    var start := k + |sk|;
    assert json[start + |v|] == '"' by {
      assert w[|sk| + |v|] == '"';
    }
    assert forall j :: 0 <= j < |v| ==> json[start + j] == v[j] by {
      assert forall j :: 0 <= j < |v| ==> w[|sk| + j] == v[j];
    }
    assert forall j :: start <= j < start + |v| ==> json[j] != '"' by {
      forall j | start <= j < start + |v| ensures json[j] != '"' {
        assert json[j] == v[j - start];
      }
    }
    FindCharFromAt(json, '"', start, start + |v|);
    FindFromSpec(json, sk, 0);
    assert json[start..start + |v|] == v;
  }

  /** No `"key":"` gives the empty string. */
  lemma ExtractMissing(json: string, key: string)
    requires forall j :: 0 <= j < |json| ==> !At(json, j, SearchKey(key))
    ensures ExtractJsonString(json, key) == ""
  {
    FindFromSpec(json, SearchKey(key), 0);
  }

  // ---------------------------------------------------------------------
  // The interactive query line

  datatype Mode = OrQuery | AndQuery | PhraseQuery

  /** A line wrapped in quotes is a phrase, without them; one with a
      leading `+` is an AND query, without it; any other an OR query. */
  function QueryMode(line: string): (Mode, string) {
    if |line| >= 2 && line[0] == '"' && line[|line| - 1] == '"' then (PhraseQuery, line[1..|line| - 1])
    else if |line| > 0 && line[0] == '+' then (AndQuery, line[1..])
    else (OrQuery, line)
  }

  /** Each mode gives back the line when its marks are put around the text
      it yields, and the marks decide the mode. */
  lemma QueryModeSpec(line: string)
    ensures var (mode, text) := QueryMode(line);
            && (mode == PhraseQuery <==> |line| >= 2 && line[0] == '"' && line[|line| - 1] == '"')
            && (mode == PhraseQuery ==> line == "\"" + text + "\"")
            && (mode == AndQuery ==> line == "+" + text && !(line[|line| - 1] == '"' && |line| >= 2 && line[0] == '"'))
            && (mode == OrQuery ==> line == text && (line == [] || line[0] != '+'))
  {
    var (mode, text) := QueryMode(line);
    if mode == PhraseQuery {
      Enclosed(line);
    } else if mode == AndQuery {
      assert line == [line[0]] + text;
    }
  }

  /** A line of two characters or more is its first, its middle and its last. */
  lemma Enclosed(line: string)
    requires |line| >= 2
    ensures line == [line[0]] + line[1..|line| - 1] + [line[|line| - 1]]
  {
    var w := [line[0]] + line[1..|line| - 1] + [line[|line| - 1]];
    forall i | 0 <= i < |line| ensures line[i] == w[i] {
      if 0 < i < |line| - 1 {
        assert w[i] == line[1..|line| - 1][i - 1];
      }
    }
  }

  /** The query a line asks for: nothing for an empty line or one without
      words; otherwise its mode and the words `>>` reads from the rest. */
  function ParseLine(line: string): Option<(Mode, seq<string>)> {
    if line == [] then None
    else
      var (mode, text) := QueryMode(line);
      var terms := Text.Words(text);
      if terms == [] then None else Some((mode, terms))
  }

  /** A phrase line `"a b"` asks for the phrase of its words. */
  lemma ParsePhrase(text: string)
    requires Text.Words(text) != []
    ensures ParseLine("\"" + text + "\"") == Some((PhraseQuery, Text.Words(text)))
  {
    var line := "\"" + text + "\"";
    assert line[1..|line| - 1] == text;
  }
}
