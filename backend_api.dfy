/** backend/api_server.cpp, its helpers and its reading side: lower-casing,
    cutting a query before its last word, the VByte code (least significant
    group first, 0x80 on the last byte; a reader stops after five bytes),
    the four barrel buffers held in memory, and `decode_postings`, which
    reads one term's postings list from its barrel. */
module BackendApi {
  import opened Common
  import opened VByte
  import Postings

  // ---------------------------------------------------------------------
  // to_lower and split_context_query

  /** `to_lower`: every character through `tolower`, in place. */
  method ToLowerString(s: string) returns (t: string)
    ensures t == Lower(s)
  {
    t := s;
    for i := 0 to |s|
      invariant |t| == |s|
      invariant forall j :: 0 <= j < i ==> t[j] == ToLower(s[j])
      invariant forall j :: i <= j < |s| ==> t[j] == s[j]
    {
      t := t[i := ToLower(t[i])];
    }
  }

  /** `find_last_of(' ')` within `q[..hi]`. */
  function LastSpace(q: string, hi: nat): (r: Option<nat>)
    requires hi <= |q|
    ensures r.Some? ==> r.value < hi && q[r.value] == ' ' && forall j :: r.value < j < hi ==> q[j] != ' '
    ensures r.None? ==> forall j :: 0 <= j < hi ==> q[j] != ' '
  {
    if hi == 0 then None else if q[hi - 1] == ' ' then Some(hi - 1) else LastSpace(q, hi - 1)
  }

  /** The query cut after its last space: the context (with that space)
      and the word being typed. */
  function SplitContextQuery(q: string): (string, string) {
    match LastSpace(q, |q|)
    case None => ("", q)
    case Some(k) => (q[..k + 1], q[k + 1..])
  }

  /** Without a space the whole query is the word being typed; otherwise
      the two parts put together give the query back, the context ends
      with a space and the word has none. */
  lemma SplitContextQueryParts(q: string)
    ensures ' ' !in q ==> SplitContextQuery(q) == ("", q)
    ensures ' ' in q ==> var (c, w) := SplitContextQuery(q);
                         c + w == q && c != [] && c[|c| - 1] == ' ' && ' ' !in w
  {
    if ' ' in q {
      var k :| 0 <= k < |q| && q[k] == ' ';
      assert LastSpace(q, |q|).Some?;
      var (c, w) := SplitContextQuery(q);
      assert q[..LastSpace(q, |q|).value + 1] + q[LastSpace(q, |q|).value + 1..] == q;
    }
  }

  // ---------------------------------------------------------------------
  // vbyte_encode and vbyte_decode

  /** Appends the groups of `val` while it is at least 128, then the last
      group with 0x80. */
  method VbyteEncode(val: uint32, out: seq<byte>) returns (res: seq<byte>)
    ensures res == out + Encode(val)
  {
    res := out;
    var v: nat := val;
    while v >= 128
      invariant res + Encode(v) == out + Encode(val)
      decreases v
    {
      ConcatAssoc(res, [v % 128], Encode(v / 128));
      res := res + [v % 128];
      v := v / 128;
    }
    res := res + [v + 128];
  }

  /** Reads one number at `offset`, never at or past `maxSize`: groups are
      OR-ed in at shifts 0, 7, 14, ... until a byte with 0x80, and the loop
      gives up once the shift reaches 32, after five bytes. */
  method VbyteDecode(data: seq<byte>, maxSize: nat, offset0: nat) returns (result: uint32, offset: nat)
    requires maxSize <= |data|
    ensures Postings.Read(Postings.Capped, data, offset0, maxSize) == Some((result, offset))
  {
    result := 0;
    var shift: nat := 0;
    offset := offset0;
    if offset0 >= maxSize {
      return;
    }
    while offset < maxSize
      invariant offset0 <= offset <= maxSize && offset - offset0 < 5 && shift == 7 * (offset - offset0)
      invariant result == Postings.ValueIn(data, offset0, offset)
      invariant forall j :: offset0 <= j < offset ==> !IsStop(data[j])
    {
      var b := data[offset];
      Postings.ValueInStep(data, offset0, offset, shift);
      offset := offset + 1;
      if IsStop(b) {
        result := (result + Group(b) * Pow128(shift / 7)) % U32;
        CappedEnd(data, offset0, maxSize, offset);
        return;
      }
      result := (result + b * Pow128(shift / 7)) % U32;
      shift := shift + 7;
      if shift >= 32 {
        CappedEnd(data, offset0, maxSize, offset);
        return;
      }
    }
    CappedEnd(data, offset0, maxSize, offset);
  }

  /** Where the capped reader stops: after a terminator, after five
      bytes, or at `max`. */
  lemma CappedEnd(data: seq<byte>, off: nat, max: nat, e: nat)
    requires off < e <= max <= |data| && e - off <= 5
    requires forall j :: off <= j < e - 1 ==> !IsStop(data[j])
    requires IsStop(data[e - 1]) || e == off + 5 || e == max
    ensures Postings.Read(Postings.Capped, data, off, max) == Some((Postings.ValueIn(data, off, e), e))
  {
    if IsStop(data[e - 1]) {
      StopEndSkip(data, off, e - 1, max);
    } else {
      StopEndSkip(data, off, e, max);
    }
  }

  /** What `vbyte_encode` appends is one to five bytes, and `vbyte_decode`
      reads the value back from them, advancing past exactly those bytes,
      whatever surrounds them. */
  lemma EncodeDecode(out: seq<byte>, v: uint32, rest: seq<byte>)
    ensures 1 <= |Encode(v)| <= 5
    ensures var data := out + Encode(v) + rest;
            Postings.Read(Postings.Capped, data, |out|, |data|) == Some((v, |out| + |Encode(v)|))
  {
    EncodeShape(v);
    var data := out + Encode(v) + rest;
    assert data[|out|..|out| + |Encode(v)|] == Encode(v);
    Postings.ReadWord(Postings.Capped, data, |out|, |data|, v);
  }

  // ---------------------------------------------------------------------
  // decode_postings

  /** The loops of `decode_postings`: the outer one also stops when the
      offset reaches the end of the term's bytes, the inner one does not. */
  const ListDecoder := Postings.Decoder(Postings.Capped, true, false)

  /** A lexicon entry as `load_lexicon` reads it. */
  datatype LexiconEntry = LexiconEntry(wordID: uint32, term: string, docFreq: uint32, termFreq: nat,
                                       offset: nat, bytes: nat, barrelID: int)

  /** `rd` reads numbers from `data` as `vbyte_decode` does, never past
      `max`. The loops below are proved over such a reader; only the
      numbers they read themselves tie it to the bytes. */
  ghost predicate ReadsCapped(rd: Postings.NumberReader, data: seq<byte>, max: nat) {
    forall o: nat {:trigger Postings.Read(Postings.Capped, data, o, max)} :: rd(o) == Postings.Read(Postings.Capped, data, o, max)
  }

  lemma CappedReader(data: seq<byte>, max: nat)
    ensures ReadsCapped(Postings.ReaderOf(Postings.Capped, data, max), data, max)
  {
  }

  /** The position loop: `tf` gaps, each added to the previous position. */
  method DecodePositions(data: seq<byte>, max: nat, ghost rd: Postings.NumberReader, off0: nat, tf: uint32)
    returns (positions: seq<uint32>, offset: nat)
    requires max <= |data| && ReadsCapped(rd, data, max)
    ensures Postings.DecodePositions(rd, false, max, off0, tf, 0) == Some((positions, offset))
  {
    positions := [];
    offset := off0;
    var lastPos: uint32 := 0;
    Postings.PrefixedEmpty(Postings.DecodePositions(rd, false, max, off0, tf, 0));
    for j := 0 to tf
      invariant Postings.DecodePositions(rd, false, max, off0, tf, 0)
                == Postings.Prefixed(positions, Postings.DecodePositions(rd, false, max, offset, tf - j, lastPos))
    {
      var delta, o1 := VbyteDecode(data, max, offset);
      Postings.PositionsUnfold(rd, false, max, offset, tf - j, lastPos, delta, o1);
      Postings.PrefixedTwice(positions, [Postings.Add32(lastPos, delta)],
                             Postings.DecodePositions(rd, false, max, o1, tf - j - 1, Postings.Add32(lastPos, delta)));
      lastPos := Postings.Add32(lastPos, delta);
      positions := positions + [lastPos];
      offset := o1;
    }
    Postings.PrefixedDone(positions, offset);
  }

  /** One round of the postings loop: a docid gap, a `tf` and the
      positions, read while postings remain and the offset is below `max`;
      `whole` is what the loop as a whole decodes. */
  method DecodePosting(data: seq<byte>, max: nat, ghost rd: Postings.NumberReader,
                       ghost whole: Option<(seq<Postings.Posting>, nat)>,
                       result: seq<Postings.Posting>, off: nat, n: nat, lastDocid: uint32)
    returns (p: Postings.Posting, o3: nat)
    requires max <= |data| && ReadsCapped(rd, data, max) && 0 < n && off < max
    requires whole == Postings.Prefixed(result, Postings.DecodePostings(rd, ListDecoder, max, off, n, lastDocid))
    ensures whole == Postings.Prefixed(result + [p], Postings.DecodePostings(rd, ListDecoder, max, o3, n - 1, p.docid))
  {
    var delta, o1 := VbyteDecode(data, max, off);
    var tf, o2 := VbyteDecode(data, max, o1);
    var positions;
    positions, o3 := DecodePositions(data, max, rd, o2, tf);
    p := Postings.Posting(Postings.Add32(lastDocid, delta), tf, positions);
    Postings.PostingsUnfold(rd, ListDecoder, max, off, n, lastDocid, delta, o1, tf, o2, positions, o3);
    Postings.PrefixedTwice(result, [p], Postings.DecodePostings(rd, ListDecoder, max, o3, n - 1, p.docid));
  }

  /** The document count, then the postings. */
  method DecodeRange(data: seq<byte>, off0: nat, max: nat) returns (result: seq<Postings.Posting>, offset: nat)
    requires max <= |data|
    ensures Postings.DecodeList(ListDecoder, data, off0, max) == Some((result, offset))
  {
    var docCount, o := VbyteDecode(data, max, off0);
    ListStart(data, off0, max, docCount, o);
    CappedReader(data, max);
    result, offset := DecodePostingsLoop(data, max, Postings.ReaderOf(Postings.Capped, data, max), o, docCount);
  }

  /** Postings while any remain and the offset is below `max`. */
  method DecodePostingsLoop(data: seq<byte>, max: nat, ghost rd: Postings.NumberReader, off0: nat, docCount: uint32)
    returns (result: seq<Postings.Posting>, offset: nat)
    requires max <= |data| && ReadsCapped(rd, data, max)
    ensures Postings.DecodePostings(rd, ListDecoder, max, off0, docCount, 0) == Some((result, offset))
  {
    ghost var whole := Postings.DecodePostings(rd, ListDecoder, max, off0, docCount, 0);
    result := [];
    offset := off0;
    var lastDocid: uint32 := 0;
    var remaining: nat := docCount;
    Postings.PrefixedEmpty(whole);
    while remaining > 0 && offset < max
      decreases remaining
      invariant whole == Postings.Prefixed(result, Postings.DecodePostings(rd, ListDecoder, max, offset, remaining, lastDocid))
    {
      var p, o3 := DecodePosting(data, max, rd, whole, result, offset, remaining, lastDocid);
      result := result + [p];
      lastDocid := p.docid;
      offset := o3;
      remaining := remaining - 1;
    }
    PostingsDone(rd, max, offset, remaining, lastDocid);
    Postings.PrefixedDone(result, offset);
  }

  /** A list is its count followed by that many postings. */
  lemma ListStart(data: seq<byte>, off0: nat, max: nat, count: uint32, o: nat)
    requires Postings.Read(Postings.Capped, data, off0, max) == Some((count, o))
    ensures Postings.DecodeList(ListDecoder, data, off0, max)
            == Postings.DecodePostings(Postings.ReaderOf(Postings.Capped, data, max), ListDecoder, max, o, count, 0)
  {
  }

  /** The postings loop stops when no posting remains or the offset has
      reached `max`. */
  lemma PostingsDone(rd: Postings.NumberReader, max: nat, off: nat, n: nat, last: uint32)
    requires n == 0 || off >= max
    ensures Postings.DecodePostings(rd, ListDecoder, max, off, n, last) == Some(([], off))
  {
  }

  /** The entry's list read from its barrel, within the entry's bytes;
      nothing when those bytes reach past the barrel. */
  method DecodeEntry(buffer: seq<byte>, entry: LexiconEntry) returns (result: seq<Postings.Posting>)
    ensures var maxOffset := entry.offset + entry.bytes;
            if maxOffset <= |buffer| then
              Postings.DecodeList(ListDecoder, buffer, entry.offset, maxOffset).Some?
              && result == Postings.DecodeList(ListDecoder, buffer, entry.offset, maxOffset).value.0
            else result == []
  {
    var maxOffset := entry.offset + entry.bytes;
    if maxOffset > |buffer| {
      return [];
    }
    var end;
    result, end := DecodeRange(buffer, entry.offset, maxOffset);
  }

  /** The server's barrel buffers and their loaded flags. */
  class Barrels {
    var data: seq<seq<byte>>
    var loaded: seq<bool>

    ghost predicate Valid()
      reads this
    {
      |data| == 4 && |loaded| == 4
    }

    constructor ()
      ensures Valid() && data == [[], [], [], []] && loaded == [false, false, false, false]
    {
      data := [[], [], [], []];
      loaded := [false, false, false, false];
    }

    /** `load_barrel`: ids outside 0..3 are refused and change nothing;
        otherwise the buffer is cleared, and filled and flagged loaded when
        the file opens. `file` is the content of `barrel_<id>.bin`, `None`
        when it cannot be opened. */
    method LoadBarrel(id: int, file: Option<seq<byte>>) returns (ok: bool)
      requires Valid()
      modifies this
      ensures Valid()
      ensures ok <==> 0 <= id < 4 && file.Some?
      ensures !(0 <= id < 4) ==> data == old(data) && loaded == old(loaded)
      ensures 0 <= id < 4 && file.None? ==> data == old(data)[id := []] && loaded == old(loaded)
      ensures ok ==> data == old(data)[id := file.value] && loaded == old(loaded)[id := true]
    {
      if id < 0 || id >= 4 {
        return false;
      }
      data := data[id := []];
      if file.None? {
        return false;
      }
      data := data[id := file.value];
      loaded := loaded[id := true];
      return true;
    }

    /** The end of `rebuild_index`: every buffer emptied and marked not
        loaded, so that the next search reads the new barrel. */
    method Clear()
      requires Valid()
      modifies this
      ensures Valid() && data == [[], [], [], []] && loaded == [false, false, false, false]
    {
      data := [[], [], [], []];
      loaded := [false, false, false, false];
    }

    /** `decode_postings`: the barrel is (re)loaded; nothing is decoded when
        that fails or when the entry's bytes reach past the barrel; otherwise
        the entry's list is read within its bytes. */
    method DecodePostings(entry: LexiconEntry, file: Option<seq<byte>>) returns (result: seq<Postings.Posting>)
      requires Valid()
      modifies this
      ensures Valid()
      ensures !(0 <= entry.barrelID < 4) ==> data == old(data) && loaded == old(loaded)
      ensures 0 <= entry.barrelID < 4 && file.None? ==>
                data == old(data)[entry.barrelID := []] && loaded == old(loaded)
      ensures 0 <= entry.barrelID < 4 && file.Some? ==>
                data == old(data)[entry.barrelID := file.value] && loaded == old(loaded)[entry.barrelID := true]
      ensures var maxOffset := entry.offset + entry.bytes;
              if 0 <= entry.barrelID < 4 && file.Some? && maxOffset <= |file.value| then
                Postings.DecodeList(ListDecoder, file.value, entry.offset, maxOffset).Some?
                && result == Postings.DecodeList(ListDecoder, file.value, entry.offset, maxOffset).value.0
              else result == []
    {
      var ok := LoadBarrel(entry.barrelID, file);
      if !ok {
        return [];
      }
      result := DecodeEntry(data[entry.barrelID], entry);
    }
  }
}
