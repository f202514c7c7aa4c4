/** The index access of backend/searcher.cpp: a VByte reader that stops at
    the end of the term's bytes and gives up after five bytes, the lazily
    loaded barrels, the postings decoder, the publication-year extraction
    and the query counters. */
module BackendSearcher {
  import opened Common
  import opened VByte
  import opened Postings
  import Decimal
  import Ranking

  // ---------------------------------------------------------------------
  // vbyte_decode_uint32

  /** Reads one number at `offset`, never at or past `maxSize`: groups are
      OR-ed in at shifts 0, 7, 14, ... until a byte with 0x80; once the
      shift reaches 32 (five bytes without a terminator) the number is 0. */
  method VbyteDecode(data: seq<byte>, maxSize: nat, offset0: nat) returns (result: uint32, offset: nat)
    requires maxSize <= |data|
    ensures Read(CappedZero, data, offset0, maxSize) == Some((result, offset))
  {
    result := 0;
    var shift: nat := 0;
    offset := offset0;
    if offset0 >= maxSize {
      // the loop does not run
      return;
    }
    while offset < maxSize
      invariant offset0 <= offset <= maxSize && offset - offset0 < 5 && shift == 7 * (offset - offset0)
      invariant result == ValueIn(data, offset0, offset)
      invariant forall j :: offset0 <= j < offset ==> !IsStop(data[j])
    {
      var b := data[offset];
      ValueInStep(data, offset0, offset, shift);
      offset := offset + 1;
      if IsStop(b) {
        result := (result + Group(b) * Pow128(shift / 7)) % U32;
        CappedZeroEnd(data, offset0, maxSize, offset);
        return;
      }
      assert Group(b) == b;
      result := (result + b * Pow128(shift / 7)) % U32;
      shift := shift + 7;
      if shift >= 32 {
        CappedZeroOverflow(data, offset0, maxSize);
        return 0, offset;
      }
    }
    CappedZeroEnd(data, offset0, maxSize, offset);
  }

  /** Where the reader stops with a value: after a terminator, or at
      `max` within the first four bytes. */
  lemma CappedZeroEnd(data: seq<byte>, off: nat, max: nat, e: nat)
    requires off < e <= max <= |data| && e - off <= 5
    requires forall j :: off <= j < e - 1 ==> !IsStop(data[j])
    requires IsStop(data[e - 1]) || (e == max && e - off < 5)
    ensures Read(CappedZero, data, off, max) == Some((ValueIn(data, off, e), e))
  {
    if IsStop(data[e - 1]) {
      StopEndSkip(data, off, e - 1, max);
    } else {
      StopEndSkip(data, off, e, max);
    }
  }

  /** Five bytes without a terminator read as 0. */
  lemma CappedZeroOverflow(data: seq<byte>, off: nat, max: nat)
    requires off + 5 <= max <= |data|
    requires forall j :: off <= j < off + 5 ==> !IsStop(data[j])
    ensures Read(CappedZero, data, off, max) == Some((0 as uint32, (off + 5) as nat))
  {
    StopEndSkip(data, off, off + 5, max);
  }

  /** The reader never passes `max`, and reads 0 exactly after five bytes
      without a terminator or when it starts at `max`. */
  lemma ReadBounds(data: seq<byte>, off: nat, max: nat)
    requires max <= |data|
    ensures var (v, e) := Read(CappedZero, data, off, max).value;
            (off < max ==> off < e <= max && e <= off + 5) && (off >= max ==> e == off && v == 0)
            && (off + 5 <= max && (forall j :: off <= j < off + 5 ==> !IsStop(data[j])) ==> v == 0 && e == off + 5)
  {
    if off + 5 <= max && forall j :: off <= j < off + 5 ==> !IsStop(data[j]) {
      CappedZeroOverflow(data, off, max);
    }
  }

  // ---------------------------------------------------------------------
  // decode_postings_list

  /** Both loops stop once the offset reaches the end of the term's bytes. */
  const ListDecoder := Decoder(CappedZero, true, true)

  /** A line of `lexicon.txt`, with the barrel that holds the term. */
  datatype LexEntry = LexEntry(wordID: uint32, term: string, docFreq: uint32, termFreq: nat,
                               offset: nat, bytes: nat, barrelID: int)

  /** `rd` reads numbers from `data` as `vbyte_decode_uint32` does with
      limit `max`. */
  ghost predicate ReadsCappedZero(rd: NumberReader, data: seq<byte>, max: nat) {
    forall o: nat {:trigger Read(CappedZero, data, o, max)} :: rd(o) == Read(CappedZero, data, o, max)
  }

  /** The position loop: up to `tf` gaps, while the offset is below `max`. */
  method DecodePositionList(data: seq<byte>, max: nat, ghost rd: NumberReader, off0: nat, tf: uint32)
    returns (positions: seq<uint32>, offset: nat)
    requires max <= |data| && ReadsCappedZero(rd, data, max)
    ensures DecodePositions(rd, true, max, off0, tf, 0) == Some((positions, offset))
  {
    ghost var whole := DecodePositions(rd, true, max, off0, tf, 0);
    positions := [];
    offset := off0;
    var lastPos: uint32 := 0;
    var j: nat := 0;
    PrefixedEmpty(whole);
    while j < tf && offset < max
      invariant j <= tf
      invariant whole == Prefixed(positions, DecodePositions(rd, true, max, offset, tf - j, lastPos))
      decreases tf - j
    {
      var delta, o1 := VbyteDecode(data, max, offset);
      PositionsUnfold(rd, true, max, offset, tf - j, lastPos, delta, o1);
      PrefixedTwice(positions, [Add32(lastPos, delta)],
                    DecodePositions(rd, true, max, o1, tf - j - 1, Add32(lastPos, delta)));
      lastPos := Add32(lastPos, delta);
      positions := positions + [lastPos];
      offset := o1;
      j := j + 1;
    }
    PrefixedDone(positions, offset);
  }

  /** One round of the postings loop. */
  method DecodePosting(data: seq<byte>, max: nat, ghost rd: NumberReader, ghost whole: Option<(seq<Posting>, nat)>,
                       result: seq<Posting>, off: nat, n: nat, lastDocid: uint32)
    returns (p: Posting, o3: nat)
    requires max <= |data| && ReadsCappedZero(rd, data, max) && 0 < n && off < max
    requires whole == Prefixed(result, DecodePostings(rd, ListDecoder, max, off, n, lastDocid))
    ensures whole == Prefixed(result + [p], DecodePostings(rd, ListDecoder, max, o3, n - 1, p.docid))
  {
    var delta, o1 := VbyteDecode(data, max, off);
    var tf, o2 := VbyteDecode(data, max, o1);
    var positions;
    positions, o3 := DecodePositionList(data, max, rd, o2, tf);
    p := Posting(Add32(lastDocid, delta), tf, positions);
    PostingsUnfold(rd, ListDecoder, max, off, n, lastDocid, delta, o1, tf, o2, positions, o3);
    PrefixedTwice(result, [p], DecodePostings(rd, ListDecoder, max, o3, n - 1, p.docid));
  }

  /** Postings while any remain and the offset is below `max`. */
  method DecodePostingsLoop(data: seq<byte>, max: nat, ghost rd: NumberReader, off0: nat, docCount: uint32)
    returns (result: seq<Posting>, offset: nat)
    requires max <= |data| && ReadsCappedZero(rd, data, max)
    ensures DecodePostings(rd, ListDecoder, max, off0, docCount, 0) == Some((result, offset))
  {
    ghost var whole := DecodePostings(rd, ListDecoder, max, off0, docCount, 0);
    result := [];
    offset := off0;
    var lastDocid: uint32 := 0;
    var remaining: nat := docCount;
    PrefixedEmpty(whole);
    while remaining > 0 && offset < max
      invariant whole == Prefixed(result, DecodePostings(rd, ListDecoder, max, offset, remaining, lastDocid))
      decreases remaining
    {
      var p, o3 := DecodePosting(data, max, rd, whole, result, offset, remaining, lastDocid);
      result := result + [p];
      lastDocid := p.docid;
      offset := o3;
      remaining := remaining - 1;
    }
    PostingsDone(rd, max, offset, remaining, lastDocid);
    PrefixedDone(result, offset);
  }

  lemma PostingsDone(rd: NumberReader, max: nat, off: nat, n: nat, last: uint32)
    requires n == 0 || off >= max
    ensures DecodePostings(rd, ListDecoder, max, off, n, last) == Some(([], off))
  {
  }

  lemma ListStart(data: seq<byte>, off0: nat, max: nat, count: uint32, o: nat)
    requires Read(CappedZero, data, off0, max) == Some((count, o))
    ensures DecodeList(ListDecoder, data, off0, max)
            == DecodePostings(ReaderOf(CappedZero, data, max), ListDecoder, max, o, count, 0)
  {
  }

  /** The document count, then the postings, within `[off0, max)`. */
  method DecodeRange(data: seq<byte>, off0: nat, max: nat) returns (result: seq<Posting>)
    requires max <= |data|
    ensures DecodeList(ListDecoder, data, off0, max).Some?
    ensures result == DecodeList(ListDecoder, data, off0, max).value.0
  {
    var docCount, o := VbyteDecode(data, max, off0);
    ListStart(data, off0, max, docCount, o);
    var end;
    result, end := DecodePostingsLoop(data, max, ReaderOf(CappedZero, data, max), o, docCount);
  }

  /** What `decode_postings_list` returns for an entry once its barrel
      holds `data`: nothing when the offset is not inside the barrel or
      the entry's bytes reach past it, otherwise the list read within the
      entry's bytes. */
  function EntryList(data: seq<byte>, e: LexEntry): seq<Posting> {
    if e.offset >= |data| || e.offset + e.bytes > |data| then []
    else
      var r := DecodeList(ListDecoder, data, e.offset, e.offset + e.bytes);
      if r.Some? then r.value.0 else []
  }

  /** The bounds checks of `decode_postings_list`, then the list. */
  method DecodeEntry(buffer: seq<byte>, entry: LexEntry) returns (result: seq<Posting>)
    ensures result == EntryList(buffer, entry)
  {
    if entry.offset >= |buffer| {
      return [];
    }
    if entry.offset + entry.bytes > |buffer| {
      return [];
    }
    result := DecodeRange(buffer, entry.offset, entry.offset + entry.bytes);
  }

  /** The decoded list has at most `tf` positions per posting. */
  lemma EntryListWithinTf(data: seq<byte>, e: LexEntry)
    ensures PositionsWithinTf(EntryList(data, e))
  {
    if e.offset < |data| && e.offset + e.bytes <= |data| {
      ListWithinTf(ListDecoder, data, e.offset, e.offset + e.bytes);
    }
  }

  /** No byte at or past `offset + bytes` has a say in the decoded list. */
  lemma EntryListLocal(data: seq<byte>, data2: seq<byte>, e: LexEntry)
    requires e.offset < |data| && e.offset < |data2|
    requires AgreeBelow(data, data2, e.offset + e.bytes)
    ensures EntryList(data, e) == EntryList(data2, e)
  {
    var max := e.offset + e.bytes;
    DecodeListLocal(ListDecoder, data, data2, e.offset, max);
    var r, r2 := DecodeList(ListDecoder, data, e.offset, max), DecodeList(ListDecoder, data2, e.offset, max);
    assert r == r2;
    assert EntryList(data, e) == if r.Some? then r.value.0 else [];
    assert EntryList(data2, e) == if r2.Some? then r2.value.0 else [];
  }

  // ---------------------------------------------------------------------
  // The barrels, loaded on demand

  const NumBarrels := 4

  /** `barrel_data` and `barrel_loaded`. `disk` holds the content of each
      `barrel_<i>.bin`, `None` when the file is missing or cannot be
      opened; `fileReads` counts the reads of each file. */
  class Barrels {
    const disk: seq<Option<seq<byte>>>
    var data: seq<seq<byte>>
    var loaded: seq<bool>
    ghost var fileReads: seq<nat>

    /** A loaded barrel holds its file, read exactly once; one that is not
        loaded was never read. */
    ghost predicate Valid()
      reads this
    {
      |disk| == NumBarrels && |data| == NumBarrels && |loaded| == NumBarrels && |fileReads| == NumBarrels
      && forall i :: 0 <= i < NumBarrels ==>
           (loaded[i] ==> disk[i].Some? && data[i] == disk[i].value)
           && fileReads[i] == if loaded[i] then 1 else 0
    }

    constructor (disk: seq<Option<seq<byte>>>)
      requires |disk| == NumBarrels
      ensures Valid() && this.disk == disk
      ensures loaded == [false, false, false, false] && data == [[], [], [], []]
    {
      this.disk := disk;
      data := [[], [], [], []];
      loaded := [false, false, false, false];
      fileReads := [0, 0, 0, 0];
    }

    /** `load_barrel_if_needed`: ids outside [0, 4), barrels already
        loaded and missing files change nothing; otherwise the file is read
        and the barrel marked loaded. */
    method LoadIfNeeded(id: int)
      requires Valid()
      modifies this
      ensures Valid()
      ensures (0 <= id < NumBarrels && !old(loaded)[id] && disk[id].Some?) ==>
                data == old(data)[id := disk[id].value] && loaded == old(loaded)[id := true]
      ensures !(0 <= id < NumBarrels && !old(loaded)[id] && disk[id].Some?) ==>
                data == old(data) && loaded == old(loaded) && fileReads == old(fileReads)
    {
      if id < 0 || id >= NumBarrels {
        return;
      }
      if loaded[id] {
        return;
      }
      if disk[id].None? {
        return;
      }
      data := data[id := disk[id].value];
      loaded := loaded[id := true];
      fileReads := fileReads[id := fileReads[id] + 1];
    }

    /** `decode_postings_list`: the entry's barrel is loaded if needed;
        nothing is decoded when it cannot be, otherwise the entry's list
        is read from the file's bytes. The C++ indexes `barrel_loaded` with
        the entry's barrel id unchecked, so the id must be in range. */
    method DecodePostingsList(entry: LexEntry) returns (result: seq<Posting>)
      requires Valid() && 0 <= entry.barrelID < NumBarrels
      modifies this
      ensures Valid()
      ensures result == if disk[entry.barrelID].Some? then EntryList(disk[entry.barrelID].value, entry) else []
      ensures loaded == old(loaded)[entry.barrelID := disk[entry.barrelID].Some?]
      ensures StillLoaded(old(loaded), loaded)
    {
      LoadIfNeeded(entry.barrelID);
      if !loaded[entry.barrelID] {
        return [];
      }
      result := DecodeEntry(data[entry.barrelID], entry);
    }
  }

  /** Every barrel loaded before is loaded after. */
  ghost predicate StillLoaded(before: seq<bool>, after: seq<bool>) {
    forall b :: 0 <= b < |before| && b < |after| && before[b] ==> after[b]
  }

  lemma StillLoadedTrans(a: seq<bool>, b: seq<bool>, c: seq<bool>)
    requires |a| == |b| == |c| && StillLoaded(a, b) && StillLoaded(b, c)
    ensures StillLoaded(a, c)
  {
  }

  // ---------------------------------------------------------------------
  // extract_year: the first match of `\b(19|20)\d{2}\b`

  /** A character of `\w`. */
  predicate IsWord(c: char) { IsAlnum(c) || c == '_' }

  /** Four digits starting with 19 or 20 at `i`, standing as a word of their
      own: no word character right before or right after. */
  predicate YearAt(s: string, i: nat) {
    i + 4 <= |s| && s[i] in "12" && (if s[i] == '1' then s[i + 1] == '9' else s[i + 1] == '0')
    && IsDigit(s[i + 2]) && IsDigit(s[i + 3])
    && (i == 0 || !IsWord(s[i - 1])) && (i + 4 == |s| || !IsWord(s[i + 4]))
  }

  /** `stoi` of the four digits at `i`. */
  function YearValue(s: string, i: nat): nat
    requires i + 4 <= |s|
  {
    1000 * Decimal.DigitOf(s[i]) + 100 * Decimal.DigitOf(s[i + 1])
    + 10 * Decimal.DigitOf(s[i + 2]) + Decimal.DigitOf(s[i + 3])
  }

  /** The leftmost match at or after `i`. */
  function YearFrom(s: string, i: nat): nat
    decreases |s| - i
  {
    if i + 4 > |s| then 0
    else if YearAt(s, i) then YearValue(s, i)
    else YearFrom(s, i + 1)
  }

  /** The year of a publication date, 0 when it holds none. */
  function ExtractYear(pubDate: string): nat {
    YearFrom(pubDate, 0)
  }

  /** A match reads as a year of the twentieth or twenty-first century. */
  lemma YearValueRange(s: string, i: nat)
    requires YearAt(s, i)
    ensures 1900 <= YearValue(s, i) <= 2099
  {
  }

  lemma {:induction false} YearFromSpec(s: string, i: nat)
    ensures YearFrom(s, i) == 0 || 1900 <= YearFrom(s, i) <= 2099
    ensures YearFrom(s, i) != 0 <==> exists j :: i <= j && YearAt(s, j)
    ensures YearFrom(s, i) != 0 ==>
              exists j :: i <= j && YearAt(s, j) && YearFrom(s, i) == YearValue(s, j)
                          && forall k :: i <= k < j ==> !YearAt(s, k)
    decreases |s| - i
  {
    if i + 4 > |s| {
      assert forall j :: i <= j ==> !YearAt(s, j);
    } else if YearAt(s, i) {
      YearValueRange(s, i);
    } else {
      YearFromSpec(s, i + 1);
      assert forall j :: i <= j ==> (YearAt(s, j) <==> i + 1 <= j && YearAt(s, j));
      if YearFrom(s, i) != 0 {
        var j :| i + 1 <= j && YearAt(s, j) && YearFrom(s, i + 1) == YearValue(s, j)
                 && forall k :: i + 1 <= k < j ==> !YearAt(s, k);
        assert forall k :: i <= k < j ==> !YearAt(s, k);
      }
    }
  }

  /** The year is 0 exactly when no four-digit word 19xx or 20xx occurs;
      otherwise it is the leftmost one. */
  lemma ExtractYearSpec(pubDate: string)
    ensures ExtractYear(pubDate) == 0 || 1900 <= ExtractYear(pubDate) <= 2099
    ensures ExtractYear(pubDate) != 0 <==> exists j :: YearAt(pubDate, j)
    ensures ExtractYear(pubDate) != 0 ==>
              exists j: nat :: YearAt(pubDate, j) && ExtractYear(pubDate) == YearValue(pubDate, j)
                          && forall k :: 0 <= k < j ==> !YearAt(pubDate, k)
  {
    YearFromSpec(pubDate, 0);
  }

  /** A date in the usual forms gives its year. */
  lemma ExtractYearExamples()
    ensures ExtractYear("2019-05-01") == 2019
    ensures ExtractYear("May 1998") == 1998
    ensures ExtractYear("21999") == 0
  {
    assert YearAt("2019-05-01", 0);
    assert !YearAt("May 1998", 0) && !YearAt("May 1998", 1) && !YearAt("May 1998", 2) && !YearAt("May 1998", 3);
    assert YearAt("May 1998", 4);
    assert !YearAt("21999", 0) && !YearAt("21999", 1);
  }

  // ---------------------------------------------------------------------
  // Ranking ingredients

  const CurrentYear := 2024

  /** `compute_recency_score`: 0.5 for an unknown year, otherwise the decay
      (`exp(-0.1 * age)`, a parameter here) of the age, a future year
      counting as age 0. */
  function Recency(year: int, decay: nat -> real): real {
    if year == 0 then 0.5
    else decay(if CurrentYear - year < 0 then 0 else CurrentYear - year)
  }

  /** Years from 2024 on score as the current year; earlier years score the
      decay of their distance. */
  lemma RecencySpec(year: int, decay: nat -> real)
    ensures year >= CurrentYear ==> Recency(year, decay) == decay(0)
    ensures 0 < year < CurrentYear ==> Recency(year, decay) == decay(CurrentYear - year)
    ensures year < 0 ==> Recency(year, decay) == decay(CurrentYear - year)
  {
  }

  datatype Field = Title | Abstract | Body

  /** `guess_field_from_position`: the first tenth of the document is the
      title, up to three tenths the abstract. A zero length makes the
      ratio infinite or NaN, which fails both comparisons. */
  function GuessField(position: uint32, docLength: uint32): Field {
    if docLength == 0 then Body
    else if 10 * position < docLength then Title
    else if 10 * position < 3 * docLength then Abstract
    else Body
  }

  /** The field follows the ratio position / length: below 0.10 the title,
      below 0.30 the abstract, the body from there on. */
  lemma GuessFieldSpec(position: uint32, docLength: uint32)
    requires docLength > 0
    ensures var ratio := position as real / docLength as real;
            (GuessField(position, docLength) == Title <==> ratio < 0.1)
            && (GuessField(position, docLength) == Abstract <==> 0.1 <= ratio < 0.3)
            && (GuessField(position, docLength) == Body <==> 0.3 <= ratio)
  {
    RatioBelow(position as real, docLength as real, 0.1);
    RatioBelow(position as real, docLength as real, 0.3);
  }

  lemma RatioBelow(p: real, len: real, c: real)
    requires len > 0.0
    ensures p / len < c <==> p < c * len
  {
    var r := p / len;
    assert r * len == p;
    if r < c {
      assert r * len < c * len;
    } else {
      assert r * len >= c * len;
    }
  }

  /** `get_field_boost` */
  function FieldBoost(f: Field): real {
    match f
    case Title => 3.0
    case Abstract => 2.0
    case Body => 1.0
  }

  /** The unboosted BM25 of a term frequency, document length and document
      frequency (its logarithms and divisions are not modelled). */
  type Scorer = (uint32, uint32, uint32) -> real

  /** `compute_bm25_fielded`: nothing when the collection is empty or the
      term occurs nowhere, otherwise the BM25 times the field's boost. */
  function Bm25Fielded(totalDocs: nat, tf: uint32, docLen: uint32, df: uint32, f: Field, bm25: Scorer): real {
    if totalDocs == 0 || df == 0 then 0.0 else bm25(tf, docLen, df) * FieldBoost(f)
  }

  /** A match in the title counts three times one in the body and one in
      the abstract twice; with a non-negative BM25 the title ranks first. */
  lemma FieldBoostOrder(totalDocs: nat, tf: uint32, docLen: uint32, df: uint32, bm25: Scorer)
    ensures Bm25Fielded(totalDocs, tf, docLen, df, Title, bm25) == 3.0 * Bm25Fielded(totalDocs, tf, docLen, df, Body, bm25)
    ensures Bm25Fielded(totalDocs, tf, docLen, df, Abstract, bm25) == 2.0 * Bm25Fielded(totalDocs, tf, docLen, df, Body, bm25)
    ensures bm25(tf, docLen, df) >= 0.0 ==>
              Bm25Fielded(totalDocs, tf, docLen, df, Title, bm25) >= Bm25Fielded(totalDocs, tf, docLen, df, Abstract, bm25)
              >= Bm25Fielded(totalDocs, tf, docLen, df, Body, bm25) >= 0.0
  {
  }

  const RecencyWeight := 0.1

  /** The final score: nine tenths of the BM25 plus the recency. */
  function FinalScore(bm25: real, recency: real): real {
    (1.0 - RecencyWeight) * bm25 + RecencyWeight * recency * 10.0
  }

  lemma FinalScoreSpec(bm25: real, recency: real, bm25': real)
    ensures FinalScore(bm25, recency) == 0.9 * bm25 + recency
    ensures bm25 <= bm25' ==> FinalScore(bm25, recency) <= FinalScore(bm25', recency)
  {
  }

  // ---------------------------------------------------------------------
  // PerformanceStats

  /** The statistics of a run: the percentiles of `report`. */
  datatype Summary = Summary(minTime: int, maxTime: int, median: int, p95: int, p99: int)

  function Ascending(x: int): real { -(x as real) }

  predicate Sorted(s: seq<int>) {
    forall i, j :: 0 <= i < j < |s| ==> s[i] <= s[j]
  }

  /** `perf_stats`: every recorded query with its time and kind. `history`
      lists the kinds in the order they were recorded. */
  class PerformanceStats {
    var queriesExecuted: nat
    var queryTimes: seq<int>
    var typeCounts: map<string, nat>
    ghost var history: seq<string>

    /** One time per query, and each kind counted as often as it was
        recorded. */
    ghost predicate Valid()
      reads this
    {
      queriesExecuted == |queryTimes| == |history|
      && (forall t :: t in typeCounts <==> t in multiset(history))
      && forall t :: t in typeCounts ==> typeCounts[t] == multiset(history)[t]
    }

    constructor ()
      ensures Valid() && queriesExecuted == 0 && queryTimes == [] && typeCounts == map[] && history == []
    {
      queriesExecuted := 0;
      queryTimes := [];
      typeCounts := map[];
      history := [];
    }

    /** `record`: one more query, its time appended, its kind counted. */
    method Record(kind: string, timeUs: int)
      requires Valid()
      modifies this
      ensures Valid()
      ensures queriesExecuted == old(queriesExecuted) + 1
      ensures queryTimes == old(queryTimes) + [timeUs] && history == old(history) + [kind]
      ensures typeCounts == old(typeCounts)[kind := if kind in old(typeCounts) then old(typeCounts)[kind] + 1 else 1]
    {
      queriesExecuted := queriesExecuted + 1;
      queryTimes := queryTimes + [timeUs];
      history := history + [kind];
      var count := if kind in typeCounts then typeCounts[kind] else 0;
      typeCounts := typeCounts[kind := count + 1];
    }

    /** `report`: nothing without queries; otherwise the times are sorted
        in place and read at the ends, the middle and the 95th and 99th
        percentile indices. */
    method Report() returns (summary: Option<Summary>)
      requires Valid()
      modifies this
      ensures Valid() && queriesExecuted == old(queriesExecuted) && typeCounts == old(typeCounts)
      ensures history == old(history)
      ensures old(queryTimes) == [] ==> summary.None? && queryTimes == []
      ensures old(queryTimes) != [] ==>
                Sorted(queryTimes) && multiset(queryTimes) == multiset(old(queryTimes))
                && summary == Some(Percentiles(queryTimes))
    {
      if queryTimes == [] {
        return None;
      }
      var sorted := Ranking.SortByScore(queryTimes, Ascending);
      assert |sorted| == |queryTimes| by {
        assert |multiset(sorted)| == |multiset(queryTimes)|;
      }
      queryTimes := sorted;
      var n := |queryTimes|;
      PercentileIndices(n);
      summary := Some(Summary(queryTimes[0], queryTimes[n - 1], queryTimes[n / 2],
                              queryTimes[n * 95 / 100], queryTimes[n * 99 / 100]));
    }
  }

  /** The readings of a sorted, non-empty list of times. */
  function Percentiles(times: seq<int>): Summary
    requires times != []
  {
    var n := |times|;
    PercentileIndices(n);
    Summary(times[0], times[n - 1], times[n / 2], times[n * 95 / 100], times[n * 99 / 100])
  }

  /** The percentile indices lie in the list and in order. */
  lemma PercentileIndices(n: nat)
    requires n > 0
    ensures n / 2 <= n * 95 / 100 <= n * 99 / 100 < n
  {
    assert n * 95 / 100 * 100 <= n * 95;
    assert n * 99 / 100 * 100 <= n * 99;
  }

  /** A sorted list of times gives min <= median <= p95 <= p99 <= max, each
      of them a recorded time. */
  lemma PercentilesSpec(times: seq<int>)
    requires times != [] && Sorted(times)
    ensures var s := Percentiles(times);
            s.minTime <= s.median <= s.p95 <= s.p99 <= s.maxTime
            && s.minTime in times && s.maxTime in times && s.median in times && s.p95 in times && s.p99 in times
            && forall t :: t in times ==> s.minTime <= t <= s.maxTime
  {
    PercentileIndices(|times|);
  }
}
