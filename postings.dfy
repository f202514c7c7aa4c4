/** Postings lists as the engine stores them: a VByte document count, then
    for each posting the docid gap, the term frequency and the position
    gaps. The decoders of the four query programs differ only in how a
    single number is read (module VByte) and in which loops stop early at
    the end of the term's byte range; `DecodeList` states all of them. */
module Postings {
  import opened Common
  import opened VByte

  datatype Posting = Posting(docid: uint32, tf: uint32, positions: seq<uint32>)

  /** `uint32_t` addition and subtraction. */
  function Add32(a: uint32, b: uint32): uint32 { (a + b) % U32 }
  function Sub32(a: uint32, b: uint32): uint32 { (a - b) % U32 }

  /** How one number is read. */
  datatype Reader =
    | Unbounded   // reads until a terminator, wherever it is
    | Bounded     // also stops at `max`
    | Capped      // also stops after five bytes
    | CappedZero  // as Capped, but five bytes without terminator read as 0

  /** Reads one number at `off`: its value and the offset after it. `None`
      means an unbounded reader would run off the end of the buffer (or
      that `max` lies beyond the buffer, which no caller passes). */
  function Read(r: Reader, data: seq<byte>, off: nat, max: nat): Option<(uint32, nat)> {
    if max > |data| then None
    else
      match r
      case Unbounded =>
        if StopIn(data, off, max) then
          var e := StopEnd(data, off, max);
          Some((ValueIn(data, off, e), e))
        else None
      case Bounded =>
        var e := StopEnd(data, off, max);
        Some((if off < e then ValueIn(data, off, e) else 0, e))
      case Capped =>
        var e := if off < max then Min(StopEnd(data, off, max), off + 5) else off;
        Some((if off < e then ValueIn(data, off, e) else 0, e))
      case CappedZero =>
        var e := if off < max then Min(StopEnd(data, off, max), off + 5) else off;
        var v := if off < e then ValueIn(data, off, e) else 0;
        Some((if e == off + 5 && !IsStop(data[off + 4]) then 0 else v, e))
  }

  function Min(a: nat, b: nat): nat { if a <= b then a else b }

  /** `Value(data[lo..hi])`, read in place: the word a reader has consumed
      between two offsets of its buffer. */
  function ValueIn(data: seq<byte>, lo: nat, hi: nat): uint32
    requires lo <= hi <= |data|
    decreases hi - lo
  {
    if hi == lo then 0 else (ValueIn(data, lo, hi - 1) + Group(data[hi - 1]) * Pow128(hi - 1 - lo)) % U32
  }

  /** One byte more ORs its group in at the next shift. */
  lemma ValueInStep(data: seq<byte>, lo: nat, o: nat, shift: nat)
    requires lo <= o < |data| && shift == 7 * (o - lo)
    ensures ValueIn(data, lo, o + 1) == (ValueIn(data, lo, o) + Group(data[o]) * Pow128(shift / 7)) % U32
  {
    assert shift / 7 == o - lo;
  }

  lemma {:induction false} ValueInSlice(data: seq<byte>, lo: nat, hi: nat)
    requires lo <= hi <= |data|
    ensures ValueIn(data, lo, hi) == Value(data[lo..hi])
    decreases hi - lo
  {
    if lo < hi {
      ValueInSlice(data, lo, hi - 1);
      assert data[lo..hi][..hi - 1 - lo] == data[lo..hi - 1];
    }
  }

  /** A number reader bound to a buffer and a limit: offset in, value and
      next offset out. The list decoders below are stated over such a
      reader, so that they are the same for every `Reader`. */
  type NumberReader = nat -> Option<(uint32, nat)>

  function ReaderOf(r: Reader, data: seq<byte>, max: nat): NumberReader {
    (o: nat) => Read(r, data, o, max)
  }

  /** `n` position gaps decoded into running sums starting from `last`;
      with `guard`, the loop also stops once the offset reaches `max`. */
  function DecodePositions(rd: NumberReader, guard: bool, max: nat, off: nat, n: nat, last: uint32)
    : (res: Option<(seq<uint32>, nat)>)
    ensures res.Some? ==> |res.value.0| <= n
    decreases n
  {
    if n == 0 || (guard && off >= max) then Some(([], off))
    else
      match rd(off)
      case None => None
      case Some((gap, o1)) =>
        var p := Add32(last, gap);
        match DecodePositions(rd, guard, max, o1, n - 1, p)
        case None => None
        case Some((rest, o2)) => Some(([p] + rest, o2))
  }

  /** `n` postings decoded with docids as running sums starting from `last`. */
  function DecodePostings(rd: NumberReader, dec: Decoder, max: nat, off: nat, n: nat, last: uint32)
    : (res: Option<(seq<Posting>, nat)>)
    ensures res.Some? ==> |res.value.0| <= n
    decreases n
  {
    if n == 0 || (dec.outerGuard && off >= max) then Some(([], off))
    else
      match rd(off)
      case None => None
      case Some((gap, o1)) =>
        match rd(o1)
        case None => None
        case Some((tf, o2)) =>
          match DecodePositions(rd, dec.innerGuard, max, o2, tf, 0)
          case None => None
          case Some((pos, o3)) =>
            var d := Add32(last, gap);
            match DecodePostings(rd, dec, max, o3, n - 1, d)
            case None => None
            case Some((rest, o4)) => Some(([Posting(d, tf, pos)] + rest, o4))
  }

  /** How the loops of a postings decoder are guarded, and how it reads a
      number. */
  datatype Decoder = Decoder(reader: Reader, outerGuard: bool, innerGuard: bool)

  /** A whole list read from `data[off..]`, with the reader limited by
      `max`: the document count, then that many postings. */
  function DecodeList(dec: Decoder, data: seq<byte>, off: nat, max: nat): Option<(seq<Posting>, nat)> {
    DecodeCounted(ReaderOf(dec.reader, data, max), dec, max, off)
  }

  /** The document count, then that many postings. */
  function DecodeCounted(rd: NumberReader, dec: Decoder, max: nat, off: nat): Option<(seq<Posting>, nat)> {
    match rd(off)
    case None => None
    case Some((count, o1)) => DecodePostings(rd, dec, max, o1, count, 0)
  }

  /** A reader never moves backwards and never past `max`. */
  ghost predicate StaysWithin(rd: NumberReader, max: nat) {
    forall o: nat :: o <= max && rd(o).Some? ==> o <= rd(o).value.1 <= max
  }

  /** Every posting of a decoded list carries at most `tf` positions. */
  predicate PositionsWithinTf(ps: seq<Posting>) {
    forall i :: 0 <= i < |ps| ==> |ps[i].positions| <= ps[i].tf
  }

  // ---------------------------------------------------------------------
  // The layout written by indexer.cpp (merge_blocks) and by
  // backend/api_server.cpp (rebuild_index).

  /** Gaps of a position list, each against its predecessor (the first
      against 0), as `uint32_t` differences. */
  function PositionGaps(xs: seq<uint32>, last: uint32): seq<uint32> {
    if xs == [] then [] else [Sub32(xs[0], last)] + PositionGaps(xs[1..], xs[0])
  }

  function PostingNumbers(ps: seq<Posting>, last: uint32): seq<uint32> {
    if ps == [] then []
    else [Sub32(ps[0].docid, last), ps[0].tf] + PositionGaps(ps[0].positions, 0)
         + PostingNumbers(ps[1..], ps[0].docid)
  }

  /** The number stream of a postings list: the count (cast to
      `uint32_t`), then the postings. */
  function ListNumbers(ps: seq<Posting>): seq<uint32> {
    [|ps| % U32] + PostingNumbers(ps, 0)
  }

  /** The bytes of a list as the indexers write it. */
  function ListBytes(ps: seq<Posting>): seq<byte> {
    EncodeAll(ListNumbers(ps))
  }

  /** A posting whose `tf` is its number of positions, as every writer
      produces. */
  predicate WellFormed(ps: seq<Posting>) {
    forall i :: 0 <= i < |ps| ==> ps[i].tf == |ps[i].positions|
  }

  /** Total length of the code words of a number stream. */
  function Width(nums: seq<nat>): nat {
    if nums == [] then 0 else |Encode(nums[0])| + Width(nums[1..])
  }

  /** `data` holds the code word of `v` at `off`. */
  predicate WordAt(data: seq<byte>, off: nat, v: nat) {
    off + |Encode(v)| <= |data| && data[off..off + |Encode(v)|] == Encode(v)
  }

  /** `data` holds the code words of `nums`, one after the other, from `off`. */
  predicate StreamAt(data: seq<byte>, off: nat, nums: seq<nat>)
    decreases |nums|
  {
    nums == [] || (WordAt(data, off, nums[0]) && StreamAt(data, off + |Encode(nums[0])|, nums[1..]))
  }

  lemma {:induction false} StreamAppend(data: seq<byte>, off: nat, a: seq<nat>, b: seq<nat>)
    ensures Width(a + b) == Width(a) + Width(b)
    ensures StreamAt(data, off, a + b) <==> StreamAt(data, off, a) && StreamAt(data, off + Width(a), b)
    decreases |a|
  {
    if a == [] {
      assert a + b == b;
    } else {
      assert (a + b)[1..] == a[1..] + b;
      StreamAppend(data, off + |Encode(a[0])|, a[1..], b);
    }
  }

  /** The bytes `EncodeAll(nums)` form such a stream. */
  lemma {:induction false} EncodedStream(data: seq<byte>, off: nat, nums: seq<nat>)
    requires off + |EncodeAll(nums)| <= |data|
    requires data[off..off + |EncodeAll(nums)|] == EncodeAll(nums)
    ensures StreamAt(data, off, nums) && Width(nums) == |EncodeAll(nums)|
    decreases |nums|
  {
    if nums != [] {
      var e, r := Encode(nums[0]), EncodeAll(nums[1..]);
      assert EncodeAll(nums) == e + r;
      assert data[off..off + |e|] == (e + r)[..|e|];
      assert data[off + |e|..off + |e| + |r|] == (e + r)[|e|..];
      EncodedStream(data, off + |e|, nums[1..]);
    }
  }

  /** Each reader returns the value of a code word that lies below `max`. */
  lemma ReadWord(r: Reader, data: seq<byte>, off: nat, max: nat, v: uint32)
    requires max <= |data| && WordAt(data, off, v) && off + |Encode(v)| <= max
    ensures Read(r, data, off, max) == Some((v, off + |Encode(v)|))
  {
    var e := Encode(v);
    DecodeEncoded(data, off, v, max);
    EncodeShape(v);
    ValueInSlice(data, off, off + |e|);
    assert StopIn(data, off, max) by {
      assert data[off + |e| - 1] == e[|e| - 1];
    }
    if |e| == 5 {
      assert data[off + 4] == e[4];
    }
  }

  /** No reader moves backwards or past `max`: the bounded ones stop there,
      and the unbounded one is `None` when it would pass it. */
  lemma ReaderStaysWithin(r: Reader, data: seq<byte>, max: nat)
    ensures StaysWithin(ReaderOf(r, data, max), max)
  {
  }

  /** The first word of a stream, and the stream after it. */
  lemma StreamHead(data: seq<byte>, off: nat, v: nat, rest: seq<nat>)
    requires StreamAt(data, off, [v] + rest)
    ensures WordAt(data, off, v) && StreamAt(data, off + |Encode(v)|, rest)
    ensures Width([v] + rest) == |Encode(v)| + Width(rest) && 1 <= |Encode(v)|
  {
    assert ([v] + rest)[1..] == rest;
    EncodeShape(v);
  }

  /** One unfolding of `DecodePositions` past a number that was read. */
  lemma PositionsStep(rd: NumberReader, guard: bool, max: nat, off: nat, n: nat, last: uint32,
                      g: uint32, o1: nat, rest: seq<uint32>, o2: nat)
    requires 0 < n && off < max && rd(off) == Some((g, o1))
    requires DecodePositions(rd, guard, max, o1, n - 1, Add32(last, g)) == Some((rest, o2))
    ensures DecodePositions(rd, guard, max, off, n, last) == Some(([Add32(last, g)] + rest, o2))
  {
  }

  /** One unfolding of `DecodePostings` past a posting that was read. */
  lemma PostingsStep(rd: NumberReader, dec: Decoder, max: nat, off: nat, n: nat, last: uint32,
                     g: uint32, o1: nat, tf: uint32, o2: nat, pos: seq<uint32>, o3: nat,
                     rest: seq<Posting>, o4: nat)
    requires 0 < n && off < max && rd(off) == Some((g, o1)) && rd(o1) == Some((tf, o2))
    requires DecodePositions(rd, dec.innerGuard, max, o2, tf, 0) == Some((pos, o3))
    requires DecodePostings(rd, dec, max, o3, n - 1, Add32(last, g)) == Some((rest, o4))
    ensures DecodePostings(rd, dec, max, off, n, last) == Some(([Posting(Add32(last, g), tf, pos)] + rest, o4))
  {
  }

  /** A decoded prefix put in front of the rest of a decoding. */
  function Prefixed<T>(xs: seq<T>, r: Option<(seq<T>, nat)>): Option<(seq<T>, nat)> {
    match r
    case None => None
    case Some((ys, e)) => Some((xs + ys, e))
  }

  lemma PrefixedTwice<T>(xs: seq<T>, ys: seq<T>, r: Option<(seq<T>, nat)>)
    ensures Prefixed(xs, Prefixed(ys, r)) == Prefixed(xs + ys, r)
  {
    if r.Some? {
      ConcatAssoc(xs, ys, r.value.0);
    }
  }

  lemma PrefixedEmpty<T>(r: Option<(seq<T>, nat)>)
    ensures Prefixed([], r) == r
  {
    if r.Some? {
      assert [] + r.value.0 == r.value.0;
    }
  }

  lemma PrefixedDone<T>(xs: seq<T>, e: nat)
    ensures Prefixed(xs, Some(([], e))) == Some((xs, e))
  {
    assert xs + [] == xs;
  }

  /** The position loop reading one more gap: what a decoder loop does in
      one round, as long as its guard lets it. */
  lemma PositionsUnfold(rd: NumberReader, guard: bool, max: nat, off: nat, n: nat, last: uint32, g: uint32, o1: nat)
    requires 0 < n && !(guard && off >= max) && rd(off) == Some((g, o1))
    ensures DecodePositions(rd, guard, max, off, n, last)
            == Prefixed([Add32(last, g)], DecodePositions(rd, guard, max, o1, n - 1, Add32(last, g)))
  {
  }

  /** The postings loop reading one more posting. */
  lemma PostingsUnfold(rd: NumberReader, dec: Decoder, max: nat, off: nat, n: nat, last: uint32,
                       g: uint32, o1: nat, tf: uint32, o2: nat, pos: seq<uint32>, o3: nat)
    requires 0 < n && !(dec.outerGuard && off >= max) && rd(off) == Some((g, o1)) && rd(o1) == Some((tf, o2))
    requires DecodePositions(rd, dec.innerGuard, max, o2, tf, 0) == Some((pos, o3))
    ensures DecodePostings(rd, dec, max, off, n, last)
            == Prefixed([Posting(Add32(last, g), tf, pos)], DecodePostings(rd, dec, max, o3, n - 1, Add32(last, g)))
  {
  }

  /** Each posting's `tf` counts its positions, cast to `uint32_t`. */
  predicate TfCounts(ps: seq<Posting>) {
    forall k :: 0 <= k < |ps| ==> ps[k].tf == Low32(|ps[k].positions|)
  }

  /** One round of an encoding loop: the code words of one posting
      appended, leaving the code of the postings after it. */
  lemma EncodeLoopStep(ps: seq<Posting>, i: nat, last: uint32, before: seq<byte>, after: seq<byte>, target: seq<byte>)
    requires i < |ps| && before + EncodeAll(PostingNumbers(ps[i..], last)) == target
    requires after == before + Encode(Sub32(ps[i].docid, last)) + Encode(ps[i].tf) + EncodeAll(PositionGaps(ps[i].positions, 0))
    ensures after + EncodeAll(PostingNumbers(ps[i + 1..], ps[i].docid)) == target
  {
    var p, rest := ps[i], ps[i + 1..];
    SliceCons(ps, i);
    EncodePostingStep(p, last, rest);
    var e1, e2, e3 := Encode(Sub32(p.docid, last)), Encode(p.tf), EncodeAll(PositionGaps(p.positions, 0));
    var tail := EncodeAll(PostingNumbers(rest, p.docid));
    ConcatAssoc(before, e1 + e2 + e3, tail);
    ConcatAssoc(before, e1 + e2, e3);
    ConcatAssoc(before, e1, e2);
  }

  lemma EncodePostingStep(p: Posting, last: uint32, rest: seq<Posting>)
    ensures EncodeAll(PostingNumbers([p] + rest, last))
            == Encode(Sub32(p.docid, last)) + Encode(p.tf) + EncodeAll(PositionGaps(p.positions, 0))
               + EncodeAll(PostingNumbers(rest, p.docid))
  {
    var q := [p] + rest;
    assert q[0] == p && q[1..] == rest;
    var gaps := PositionGaps(p.positions, 0);
    var tail := PostingNumbers(rest, p.docid);
    assert PostingNumbers(q, last) == [Sub32(p.docid, last)] + ([p.tf] + (gaps + tail));
    EncodeAllAppend([Sub32(p.docid, last)], [p.tf] + (gaps + tail));
    EncodeAllAppend([p.tf], gaps + tail);
    EncodeAllAppend(gaps, tail);
    assert EncodeAll([Sub32(p.docid, last)]) == Encode(Sub32(p.docid, last));
    assert EncodeAll([p.tf]) == Encode(p.tf);
  }

  /** Reading `nums` one number after the other from `off` with `rd`
      succeeds, each read advances, and the last one ends at `end`. */
  ghost predicate ReadsStream(rd: NumberReader, off: nat, nums: seq<uint32>, end: nat)
    decreases |nums|
  {
    if nums == [] then off == end
    else
      rd(off).Some? && rd(off).value.0 == nums[0] && off < rd(off).value.1
      && ReadsStream(rd, rd(off).value.1, nums[1..], end)
  }

  /** The offset after `k` reads from `off`. */
  ghost function Skip(rd: NumberReader, off: nat, k: nat): nat
    decreases k
  {
    if k == 0 || rd(off).None? then off else Skip(rd, rd(off).value.1, k - 1)
  }

  lemma {:induction false} ReadsStreamSplit(rd: NumberReader, off: nat, a: seq<uint32>, b: seq<uint32>, end: nat)
    requires ReadsStream(rd, off, a + b, end)
    ensures ReadsStream(rd, off, a, Skip(rd, off, |a|)) && ReadsStream(rd, Skip(rd, off, |a|), b, end)
    ensures off <= Skip(rd, off, |a|) <= end
    decreases |a|
  {
    if a == [] {
      assert a + b == b;
      ReadsStreamEnd(rd, off, b, end);
    } else {
      assert (a + b)[1..] == a[1..] + b;
      ReadsStreamSplit(rd, rd(off).value.1, a[1..], b, end);
    }
  }

  lemma {:induction false} ReadsStreamEnd(rd: NumberReader, off: nat, nums: seq<uint32>, end: nat)
    requires ReadsStream(rd, off, nums, end)
    ensures off <= end && (nums != [] ==> off < end)
    decreases |nums|
  {
    if nums != [] {
      ReadsStreamEnd(rd, rd(off).value.1, nums[1..], end);
    }
  }

  lemma {:induction false} PositionsRoundTrip(rd: NumberReader, guard: bool, max: nat, off: nat,
                                              xs: seq<uint32>, last: uint32, end: nat)
    requires ReadsStream(rd, off, PositionGaps(xs, last), end) && end <= max
    ensures DecodePositions(rd, guard, max, off, |xs|, last) == Some((xs, end))
    decreases |xs|
  {
    if xs != [] {
      var g := Sub32(xs[0], last);
      assert PositionGaps(xs, last) == [g] + PositionGaps(xs[1..], xs[0]);
      var o1 := rd(off).value.1;
      ReadsStreamEnd(rd, o1, PositionGaps(xs[1..], xs[0]), end);
      assert Add32(last, g) == xs[0];
      PositionsRoundTrip(rd, guard, max, o1, xs[1..], xs[0], end);
      PositionsStep(rd, guard, max, off, |xs|, last, g, o1, xs[1..], end);
      assert [xs[0]] + xs[1..] == xs;
    }
  }

  lemma {:induction false} PostingsRoundTrip(rd: NumberReader, dec: Decoder, max: nat, off: nat,
                                             ps: seq<Posting>, last: uint32, end: nat)
    requires WellFormed(ps)
    requires ReadsStream(rd, off, PostingNumbers(ps, last), end) && end <= max
    ensures DecodePostings(rd, dec, max, off, |ps|, last) == Some((ps, end))
    decreases |ps|
  {
    if ps != [] {
      var p := ps[0];
      var o1, o2, o3 := PostingHead(rd, dec, max, off, ps, last, end);
      WellFormedTail(ps);
      PostingsRoundTrip(rd, dec, max, o3, ps[1..], p.docid, end);
      PostingsStep(rd, dec, max, off, |ps|, last, Sub32(p.docid, last), o1, p.tf, o2, p.positions, o3, ps[1..], end);
      SliceCons(ps, 0);
    }
  }

  /** The first posting of a stream that reads back: its docid gap, its
      `tf` and its positions, leaving the stream of the others. */
  lemma PostingHead(rd: NumberReader, dec: Decoder, max: nat, off: nat, ps: seq<Posting>, last: uint32, end: nat)
    returns (o1: nat, o2: nat, o3: nat)
    requires ps != [] && WellFormed(ps)
    requires ReadsStream(rd, off, PostingNumbers(ps, last), end) && end <= max
    ensures off < max && rd(off) == Some((Sub32(ps[0].docid, last), o1)) && rd(o1) == Some((ps[0].tf, o2))
    ensures DecodePositions(rd, dec.innerGuard, max, o2, ps[0].tf, 0) == Some((ps[0].positions, o3))
    ensures ReadsStream(rd, o3, PostingNumbers(ps[1..], ps[0].docid), end)
    ensures Add32(last, Sub32(ps[0].docid, last)) == ps[0].docid
  {
    var p := ps[0];
    o1, o2 := PostingFront(rd, off, ps, last, end);
    o3 := Skip(rd, o2, |PositionGaps(p.positions, 0)|);
    PositionsOfFront(rd, dec.innerGuard, max, o2, p, PostingNumbers(ps[1..], p.docid), end);
    GapUndone(last, p.docid);
  }

  /** The docid gap and `tf` of the first posting read back, and the
      stream goes on with its position gaps, then the other postings. */
  lemma PostingFront(rd: NumberReader, off: nat, ps: seq<Posting>, last: uint32, end: nat) returns (o1: nat, o2: nat)
    requires ps != [] && ReadsStream(rd, off, PostingNumbers(ps, last), end)
    ensures off < end && rd(off) == Some((Sub32(ps[0].docid, last), o1)) && rd(o1) == Some((ps[0].tf, o2))
    ensures ReadsStream(rd, o2, PositionGaps(ps[0].positions, 0) + PostingNumbers(ps[1..], ps[0].docid), end)
  {
    var nums := PostingNumbers(ps, last);
    PostingNumbersCons(ps, last);
    ReadsStreamEnd(rd, off, nums, end);
    o1 := ReadsHead(rd, off, nums, end);
    assert nums[1..][1..] == PositionGaps(ps[0].positions, 0) + PostingNumbers(ps[1..], ps[0].docid);
    o2 := ReadsHead(rd, o1, nums[1..], end);
  }

  /** The position gaps of a posting at the head of a stream decode back
      to its positions, leaving the rest of the stream. */
  lemma PositionsOfFront(rd: NumberReader, guard: bool, max: nat, o2: nat, p: Posting, tail: seq<uint32>, end: nat)
    requires p.tf == |p.positions| && end <= max
    requires ReadsStream(rd, o2, PositionGaps(p.positions, 0) + tail, end)
    ensures DecodePositions(rd, guard, max, o2, p.tf, 0) == Some((p.positions, Skip(rd, o2, |PositionGaps(p.positions, 0)|)))
    ensures ReadsStream(rd, Skip(rd, o2, |PositionGaps(p.positions, 0)|), tail, end)
  {
    var gaps := PositionGaps(p.positions, 0);
    ReadsStreamSplit(rd, o2, gaps, tail, end);
    PositionsRoundTrip(rd, guard, max, o2, p.positions, 0, Skip(rd, o2, |gaps|));
  }

  /** Adding a gap back to the docid it was taken from gives the docid. */
  lemma GapUndone(last: uint32, d: uint32)
    ensures Add32(last, Sub32(d, last)) == d
  {
  }

  /** The first number of a stream that reads back, and where the rest
      starts. */
  lemma ReadsHead(rd: NumberReader, off: nat, nums: seq<uint32>, end: nat) returns (next: nat)
    requires nums != [] && ReadsStream(rd, off, nums, end)
    ensures rd(off) == Some((nums[0], next)) && off < next && ReadsStream(rd, next, nums[1..], end)
  {
    next := rd(off).value.1;
  }

  lemma PostingNumbersCons(ps: seq<Posting>, last: uint32)
    requires ps != []
    ensures PostingNumbers(ps, last)
            == [Sub32(ps[0].docid, last)] + ([ps[0].tf] + (PositionGaps(ps[0].positions, 0) + PostingNumbers(ps[1..], ps[0].docid)))
  {
  }

  lemma WellFormedTail(ps: seq<Posting>)
    requires ps != [] && WellFormed(ps)
    ensures WellFormed(ps[1..])
  {
    forall i | 0 <= i < |ps[1..]| ensures ps[1..][i].tf == |ps[1..][i].positions| {
      assert ps[1..][i] == ps[i + 1];
    }
  }

  /** `rd` reads back every code word that lies before `max`. */
  ghost predicate ReadsWords(rd: NumberReader, data: seq<byte>, max: nat) {
    forall o: nat, v: uint32 {:trigger WordAt(data, o, v)} ::
      WordAt(data, o, v) && o + |Encode(v)| <= max ==> rd(o) == Some((v, o + |Encode(v)|))
  }

  lemma ReaderReadsWords(r: Reader, data: seq<byte>, max: nat)
    requires max <= |data|
    ensures ReadsWords(ReaderOf(r, data, max), data, max)
  {
    forall o: nat, v: uint32 | WordAt(data, o, v) && o + |Encode(v)| <= max
      ensures ReaderOf(r, data, max)(o) == Some((v, o + |Encode(v)|))
    {
      ReadWord(r, data, o, max, v);
    }
  }

  lemma {:induction false} StreamReads(rd: NumberReader, data: seq<byte>, max: nat, off: nat, nums: seq<uint32>)
    requires ReadsWords(rd, data, max)
    requires StreamAt(data, off, nums) && off + Width(nums) <= max
    ensures ReadsStream(rd, off, nums, off + Width(nums))
    decreases |nums|
  {
    if nums != [] {
      SliceCons(nums, 0);
      StreamHead(data, off, nums[0], nums[1..]);
      var o1 := off + |Encode(nums[0])|;
      StreamReads(rd, data, max, o1, nums[1..]);
      ReadsStreamCons(rd, off, nums, o1, off + Width(nums));
    }
  }

  lemma ReadsStreamCons(rd: NumberReader, off: nat, nums: seq<uint32>, o1: nat, end: nat)
    requires nums != [] && rd(off) == Some((nums[0], o1)) && off < o1 && ReadsStream(rd, o1, nums[1..], end)
    ensures ReadsStream(rd, off, nums, end)
  {
  }

  lemma ReaderReadsStream(r: Reader, data: seq<byte>, max: nat, off: nat, nums: seq<uint32>)
    requires StreamAt(data, off, nums) && off + Width(nums) <= max <= |data|
    ensures ReadsStream(ReaderOf(r, data, max), off, nums, off + Width(nums))
  {
    ReaderReadsWords(r, data, max);
    StreamReads(ReaderOf(r, data, max), data, max, off, nums);
  }


  lemma CountedRoundTrip(rd: NumberReader, dec: Decoder, max: nat, off: nat, ps: seq<Posting>, end: nat)
    requires |ps| < U32 && WellFormed(ps)
    requires ReadsStream(rd, off, ListNumbers(ps), end) && end <= max
    ensures DecodeCounted(rd, dec, max, off) == Some((ps, end))
  {
    assert ListNumbers(ps)[1..] == PostingNumbers(ps, 0);
    PostingsRoundTrip(rd, dec, max, rd(off).value.1, ps, 0, end);
  }

  /** Every decoder recovers a list written by the indexers, whatever
      follows it, as long as its byte range covers the whole list; it stops
      exactly at the end of the list. */
  lemma {:induction false} ListRoundTrip(dec: Decoder, data: seq<byte>, off: nat, max: nat, ps: seq<Posting>)
    requires |ps| < U32 && WellFormed(ps)
    requires off + |ListBytes(ps)| <= max <= |data|
    requires data[off..off + |ListBytes(ps)|] == ListBytes(ps)
    ensures DecodeList(dec, data, off, max) == Some((ps, off + |ListBytes(ps)|))
  {
    var nums := ListNumbers(ps);
    EncodedStream(data, off, nums);
    ReaderReadsStream(dec.reader, data, max, off, nums);
    CountedRoundTrip(ReaderOf(dec.reader, data, max), dec, max, off, ps, off + |EncodeAll(nums)|);
  }

  // ---------------------------------------------------------------------
  // What every decoder guarantees, whatever the bytes

  /** Each decoded posting carries at most `tf` positions. */
  lemma {:induction false} PostingsWithinTf(rd: NumberReader, dec: Decoder, max: nat, off: nat, n: nat, last: uint32)
    ensures DecodePostings(rd, dec, max, off, n, last).Some? ==> PositionsWithinTf(DecodePostings(rd, dec, max, off, n, last).value.0)
    decreases n
  {
    if n > 0 && !(dec.outerGuard && off >= max) && rd(off).Some? {
      var (gap, o1) := rd(off).value;
      if rd(o1).Some? {
        var (tf, o2) := rd(o1).value;
        var pos := DecodePositions(rd, dec.innerGuard, max, o2, tf, 0);
        if pos.Some? {
          var d := Add32(last, gap);
          PostingsWithinTf(rd, dec, max, pos.value.1, n - 1, d);
        }
      }
    }
  }

  lemma ListWithinTf(dec: Decoder, data: seq<byte>, off: nat, max: nat)
    ensures DecodeList(dec, data, off, max).Some? ==> PositionsWithinTf(DecodeList(dec, data, off, max).value.0)
  {
    var rd := ReaderOf(dec.reader, data, max);
    if rd(off).Some? {
      PostingsWithinTf(rd, dec, max, rd(off).value.1, rd(off).value.0, 0);
    }
  }

  /** Two buffers that agree below `max`. */
  predicate AgreeBelow(data: seq<byte>, data2: seq<byte>, max: nat) {
    max <= |data| && max <= |data2| && forall k :: 0 <= k < max ==> data[k] == data2[k]
  }

  lemma {:induction false} StopEndLocal(data: seq<byte>, data2: seq<byte>, pos: nat, max: nat)
    requires AgreeBelow(data, data2, max)
    ensures StopEnd(data, pos, max) == StopEnd(data2, pos, max)
    decreases max - pos
  {
    if pos < max && !IsStop(data[pos]) {
      StopEndLocal(data, data2, pos + 1, max);
    }
  }

  lemma {:induction false} ValueInLocal(data: seq<byte>, data2: seq<byte>, lo: nat, hi: nat, max: nat)
    requires AgreeBelow(data, data2, max) && lo <= hi <= max
    ensures ValueIn(data, lo, hi) == ValueIn(data2, lo, hi)
    decreases hi - lo
  {
    if lo < hi {
      ValueInLocal(data, data2, lo, hi - 1, max);
    }
  }

  /** A number read with limit `max` depends on no byte at or past `max`. */
  lemma ReadLocal(r: Reader, data: seq<byte>, data2: seq<byte>, off: nat, max: nat)
    requires AgreeBelow(data, data2, max)
    ensures Read(r, data, off, max) == Read(r, data2, off, max)
  {
    StopEndLocal(data, data2, off, max);
    var e := StopEnd(data, off, max);
    if off <= max {
      ValueInLocal(data, data2, off, e, max);
    }
    if off < max {
      var c := Min(e, off + 5);
      ValueInLocal(data, data2, off, c, max);
    }
    assert StopIn(data, off, max) <==> StopIn(data2, off, max);
  }

  lemma {:induction false} PositionsAlike(rd: NumberReader, rd2: NumberReader, guard: bool, max: nat, off: nat, n: nat, last: uint32)
    requires forall o :: rd(o) == rd2(o)
    ensures DecodePositions(rd, guard, max, off, n, last) == DecodePositions(rd2, guard, max, off, n, last)
    decreases n
  {
    if n > 0 && !(guard && off >= max) && rd(off).Some? {
      var (gap, o1) := rd(off).value;
      PositionsAlike(rd, rd2, guard, max, o1, n - 1, Add32(last, gap));
    }
  }

  lemma {:induction false} PostingsAlike(rd: NumberReader, rd2: NumberReader, dec: Decoder, max: nat, off: nat, n: nat, last: uint32)
    requires forall o :: rd(o) == rd2(o)
    ensures DecodePostings(rd, dec, max, off, n, last) == DecodePostings(rd2, dec, max, off, n, last)
    decreases n
  {
    if n == 0 || (dec.outerGuard && off >= max) {
      return;
    }
    assert rd2(off) == rd(off);
    if rd(off).None? {
      return;
    }
    var (gap, o1) := rd(off).value;
    assert rd2(o1) == rd(o1);
    if rd(o1).None? {
      return;
    }
    var (tf, o2) := rd(o1).value;
    PositionsAlike(rd, rd2, dec.innerGuard, max, o2, tf, 0);
    var pos := DecodePositions(rd, dec.innerGuard, max, o2, tf, 0);
    if pos.None? {
      return;
    }
    PostingsAlike(rd, rd2, dec, max, pos.value.1, n - 1, Add32(last, gap));
  }

  /** A decoder limited by `max` never reads at or past it: the bytes from
      `max` on do not change what it decodes. */
  lemma DecodeListLocal(dec: Decoder, data: seq<byte>, data2: seq<byte>, off: nat, max: nat)
    requires AgreeBelow(data, data2, max)
    ensures DecodeList(dec, data, off, max) == DecodeList(dec, data2, off, max)
  {
    var rd, rd2 := ReaderOf(dec.reader, data, max), ReaderOf(dec.reader, data2, max);
    forall o: nat ensures rd(o) == rd2(o) {
      ReadLocal(dec.reader, data, data2, o, max);
    }
    if rd(off).Some? {
      PostingsAlike(rd, rd2, dec, max, rd(off).value.1, rd(off).value.0, 0);
    }
  }
}
