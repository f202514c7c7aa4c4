/** What the prefix index server reads from a file the prefix index
    builder wrote: each prefix with its terms, in the order written, and
    after loading, the builder's map itself. */
module AutocompleteRoundTrip {
  import opened Common
  import LittleEndian
  import AutocompleteBuilder
  import opened AutocompleteServer
  import RecordStream

  // ---------------------------------------------------------------------
  // Reading back what the builder wrote

  /** The suggestion the file keeps for a term. */
  function ToSuggestion(x: AutocompleteBuilder.TermInfo, bits: real -> nat): Suggestion {
    Suggestion(x.term, bits(x.popularity), x.wordId, x.docFreq, x.termFreq)
  }

  /** The suggestions the file keeps for a list of terms, in list order. */
  function Suggestions(l: seq<AutocompleteBuilder.TermInfo>, bits: real -> nat): (r: seq<Suggestion>)
    ensures |r| == |l|
    decreases |l|
  {
    if l == [] then [] else [ToSuggestion(l[0], bits)] + Suggestions(l[1..], bits)
  }

  lemma {:induction false} SuggestionAt(l: seq<AutocompleteBuilder.TermInfo>, bits: real -> nat, j: nat)
    requires j < |l|
    ensures Suggestions(l, bits)[j] == ToSuggestion(l[j], bits)
    decreases |l|
  {
    if j > 0 {
      SuggestionAt(l[1..], bits, j - 1);
    }
  }

  /** A prefix with its terms, as the builder takes them from its map. */
  type Pair = (string, seq<AutocompleteBuilder.TermInfo>)

  /** The prefixes of a walk, each with its terms. */
  function Pairs(m: AutocompleteBuilder.PrefixMap, order: seq<string>): (ps: seq<Pair>)
    requires forall i :: 0 <= i < |order| ==> order[i] in m
    ensures |ps| == |order|
    decreases |order|
  {
    if order == [] then [] else [(order[0], m[order[0]])] + Pairs(m, order[1..])
  }

  /** The prefix records of a list of pairs. */
  function PairRecords(ps: seq<Pair>, bits: real -> nat): seq<byte>
    decreases |ps|
  {
    if ps == [] then [] else AutocompleteBuilder.PrefixRecord(ps[0].0, ps[0].1, bits) + PairRecords(ps[1..], bits)
  }

  /** What the server reads for a list of pairs. */
  function PairEntries(ps: seq<Pair>, bits: real -> nat): (es: seq<Entry>)
    ensures |es| == |ps|
    decreases |ps|
  {
    if ps == [] then [] else [(ps[0].0, Suggestions(ps[0].1, bits))] + PairEntries(ps[1..], bits)
  }

  /** The records the builder writes, in its walk order. */
  function Entries(m: AutocompleteBuilder.PrefixMap, order: seq<string>, bits: real -> nat): (es: seq<Entry>)
    requires forall i :: 0 <= i < |order| ==> order[i] in m
    ensures |es| == |order|
  {
    PairEntries(Pairs(m, order), bits)
  }

  /** The map the server holds for the builder's map. */
  function Stored(m: AutocompleteBuilder.PrefixMap, bits: real -> nat): map<string, seq<Suggestion>> {
    map k | k in m :: Suggestions(m[k], bits)
  }

  /** A term the file holds without loss: its length fits the u16, its
      characters are bytes, and each number fits its field. */
  predicate Fits(x: AutocompleteBuilder.TermInfo, bits: real -> nat) {
    |x.term| < 0x1_0000 && LittleEndian.ByteChars(x.term) && bits(x.popularity) < AutocompleteBuilder.U64
    && x.wordId < U32 && x.docFreq < U32 && x.termFreq < AutocompleteBuilder.U64
  }

  /** Every term of a list the file holds without loss. */
  predicate TermsFit(l: seq<AutocompleteBuilder.TermInfo>, bits: real -> nat)
    decreases |l|
  {
    l == [] || (Fits(l[0], bits) && TermsFit(l[1..], bits))
  }

  /** A prefix and its list the file holds without loss. */
  predicate PrefixFits(k: string, l: seq<AutocompleteBuilder.TermInfo>, bits: real -> nat) {
    |k| < 0x1_0000 && LittleEndian.ByteChars(k) && |l| < 0x1_0000
    && TermsFit(l, bits)
  }

  /** Every prefix and list of a map the file holds without loss. */
  predicate MapFits(m: AutocompleteBuilder.PrefixMap, bits: real -> nat) {
    forall k :: k in m ==> PrefixFits(k, m[k], bits)
  }

  /** A map the file holds without loss, walked in `order`. */
  predicate Storable(m: AutocompleteBuilder.PrefixMap, order: seq<string>, bits: real -> nat) {
    AutocompleteBuilder.WalkOrder(m, order) && |order| < U32 && MapFits(m, bits)
  }

  lemma Powers()
    ensures LittleEndian.Pow256(2) == 0x1_0000 && LittleEndian.Pow256(4) == U32
    ensures LittleEndian.Pow256(8) == AutocompleteBuilder.U64
  {
    assert LittleEndian.Pow256(2) == 0x1_0000;
    assert LittleEndian.Pow256(4) == U32;
    assert LittleEndian.Pow256(6) == 0x1_0000_0000_0000;
  }

  lemma ValueRead(n: nat, w: nat)
    requires n < LittleEndian.Pow256(w)
    ensures LittleEndian.Value(LittleEndian.Bytes(n, w)) == n
  {
    LittleEndian.ValueOfBytes(n, w);
  }

  /** A prefix record read from its fields. */
  lemma PrefixFields(bs: seq<byte>, at: nat, len: nat, p: nat, count: nat, s: nat, k: string, ts: seq<Suggestion>, q: nat)
    requires p == at + 2 + len && s == p + 2
    requires ReadUInt(bs, at, 2) == Some(len) && ReadUInt(bs, p, 2) == Some(count)
    requires LittleEndian.BytesChars(bs[at + 2..p]) == k
    requires ReadTerms(bs, s, count) == Some((ts, q))
    ensures ReadPrefix(bs, at) == Some(((k, ts), q))
  {
  }

  /** A number written in `w` bytes reads back. */
  lemma FieldRead(bs: seq<byte>, p: nat, n: nat, w: nat)
    requires LittleEndian.Holds(bs, p, LittleEndian.Bytes(n, w)) && n < LittleEndian.Pow256(w)
    ensures p + w <= |bs| && LittleEndian.Value(bs[p..p + w]) == n
  {
    var field := bs[p..p + w];
    assert field == LittleEndian.Bytes(n, w);
    ValueRead(n, w);
  }

  /** The same, as the reader's unsigned field. */
  lemma UIntRead(bs: seq<byte>, p: nat, n: nat, w: nat)
    requires LittleEndian.Holds(bs, p, LittleEndian.Bytes(n, w)) && n < LittleEndian.Pow256(w)
    ensures ReadUInt(bs, p, w) == Some(n)
  {
    FieldRead(bs, p, n, w);
  }

  /** Where the fields of a term record stand. */
  lemma TermLayout(bs: seq<byte>, at: nat, x: AutocompleteBuilder.TermInfo, bits: real -> nat)
    requires LittleEndian.Holds(bs, at, AutocompleteBuilder.TermRecord(x, bits))
    ensures var p := at + 2 + AutocompleteBuilder.U16(|x.term|);
      LittleEndian.Holds(bs, at, LittleEndian.Bytes(|x.term|, 2)) && LittleEndian.Holds(bs, at + 2, AutocompleteBuilder.ShortText(x.term))
      && LittleEndian.Holds(bs, p, LittleEndian.Bytes(bits(x.popularity), 8)) && LittleEndian.Holds(bs, p + 8, LittleEndian.Bytes(x.wordId, 4))
      && LittleEndian.Holds(bs, p + 12, LittleEndian.Bytes(x.docFreq, 4)) && LittleEndian.Holds(bs, p + 16, LittleEndian.Bytes(x.termFreq, 8))
      && |AutocompleteBuilder.TermRecord(x, bits)| == 2 + AutocompleteBuilder.U16(|x.term|) + 24
  {
    var a := LittleEndian.Bytes(|x.term|, 2);
    var b := AutocompleteBuilder.ShortText(x.term);
    var c := LittleEndian.Bytes(bits(x.popularity), 8);
    var d := LittleEndian.Bytes(x.wordId, 4);
    var e := LittleEndian.Bytes(x.docFreq, 4);
    var f := LittleEndian.Bytes(x.termFreq, 8);
    assert AutocompleteBuilder.TermRecord(x, bits) == a + b + c + d + e + f;
    LittleEndian.HoldsSplit(bs, at, a + b + c + d + e, f);
    LittleEndian.HoldsSplit(bs, at, a + b + c + d, e);
    LittleEndian.HoldsSplit(bs, at, a + b + c, d);
    LittleEndian.HoldsSplit(bs, at, a + b, c);
    LittleEndian.HoldsSplit(bs, at, a, b);
  }

  /** The four numbers of a term record read back. */
  lemma NumbersDecode(bs: seq<byte>, p: nat, x: AutocompleteBuilder.TermInfo, bits: real -> nat)
    requires Fits(x, bits)
    requires LittleEndian.Holds(bs, p, LittleEndian.Bytes(bits(x.popularity), 8)) && LittleEndian.Holds(bs, p + 8, LittleEndian.Bytes(x.wordId, 4))
      && LittleEndian.Holds(bs, p + 12, LittleEndian.Bytes(x.docFreq, 4)) && LittleEndian.Holds(bs, p + 16, LittleEndian.Bytes(x.termFreq, 8))
    ensures p + 24 <= |bs|
    ensures LittleEndian.Value(bs[p..p + 8]) == bits(x.popularity) && LittleEndian.Value(bs[p + 8..p + 12]) == x.wordId
    ensures LittleEndian.Value(bs[p + 12..p + 16]) == x.docFreq && LittleEndian.Value(bs[p + 16..p + 24]) == x.termFreq
  {
    Powers();
    FieldRead(bs, p, bits(x.popularity), 8);
    FieldRead(bs, p + 8, x.wordId, 4);
    FieldRead(bs, p + 12, x.docFreq, 4);
    FieldRead(bs, p + 16, x.termFreq, 8);
  }

  /** The bytes of a text of byte characters read back as the text. */
  lemma TextDecode(bs: seq<byte>, p: nat, s: string)
    requires LittleEndian.ByteChars(s) && LittleEndian.Holds(bs, p, LittleEndian.CharBytes(s))
    ensures p + |s| <= |bs| && LittleEndian.BytesChars(bs[p..p + |s|]) == s
  {
    LittleEndian.CharsRoundTrip(s);
  }

  /** A term record reads back as its suggestion. */
  lemma TermRead(bs: seq<byte>, at: nat, x: AutocompleteBuilder.TermInfo, bits: real -> nat)
    requires Fits(x, bits) && LittleEndian.Holds(bs, at, AutocompleteBuilder.TermRecord(x, bits))
    ensures ReadTerm(bs, at) == Some((ToSuggestion(x, bits), at + |AutocompleteBuilder.TermRecord(x, bits)|))
  {
    TermLenRead(bs, at, x, bits);
    TermTextRead(bs, at, x, bits);
    TermNumbersRead(bs, at, x, bits);
    TermFieldsOf(bs, at + 2, |x.term|, ToSuggestion(x, bits));
    TermFieldsRead(bs, at, |x.term|, ToSuggestion(x, bits));
  }

  /** The fields after a term's length, read one by one. */
  lemma TermFieldsOf(bs: seq<byte>, at: nat, len: nat, s: Suggestion)
    requires at + len + 24 <= |bs| && LittleEndian.BytesChars(bs[at..at + len]) == s.term
    requires var p := at + len;
      LittleEndian.Value(bs[p..p + 8]) == s.popularityBits && LittleEndian.Value(bs[p + 8..p + 12]) == s.wordId
      && LittleEndian.Value(bs[p + 12..p + 16]) == s.docFreq && LittleEndian.Value(bs[p + 16..p + 24]) == s.termFreq
    ensures TermFields(bs, at, len) == s
  {
  }

  /** A term record read from its length and fields. */
  lemma TermFieldsRead(bs: seq<byte>, at: nat, len: nat, s: Suggestion)
    requires ReadUInt(bs, at, 2) == Some(len) && at + 2 + len + 24 <= |bs|
    requires TermFields(bs, at + 2, len) == s
    ensures ReadTerm(bs, at) == Some((s, at + 2 + len + 24))
  {
  }

  /** The length of a term reads back, and the record is 26 bytes longer. */
  lemma TermLenRead(bs: seq<byte>, at: nat, x: AutocompleteBuilder.TermInfo, bits: real -> nat)
    requires |x.term| < 0x1_0000 && LittleEndian.Holds(bs, at, AutocompleteBuilder.TermRecord(x, bits))
    ensures ReadUInt(bs, at, 2) == Some(|x.term|)
    ensures |AutocompleteBuilder.TermRecord(x, bits)| == 2 + |x.term| + 24 && at + 2 + |x.term| + 24 <= |bs|
  {
    TermLayout(bs, at, x, bits);
    ShortRead(bs, at, |x.term|);
  }

  /** The text of a term reads back. */
  lemma TermTextRead(bs: seq<byte>, at: nat, x: AutocompleteBuilder.TermInfo, bits: real -> nat)
    requires |x.term| < 0x1_0000 && LittleEndian.ByteChars(x.term)
    requires LittleEndian.Holds(bs, at, AutocompleteBuilder.TermRecord(x, bits))
    ensures at + 2 + |x.term| <= |bs| && LittleEndian.BytesChars(bs[at + 2..at + 2 + |x.term|]) == x.term
  {
    TermLayout(bs, at, x, bits);
    TextDecode(bs, at + 2, x.term);
  }

  /** The four numbers of a term record read back. */
  lemma TermNumbersRead(bs: seq<byte>, at: nat, x: AutocompleteBuilder.TermInfo, bits: real -> nat)
    requires Fits(x, bits) && LittleEndian.Holds(bs, at, AutocompleteBuilder.TermRecord(x, bits))
    ensures var p := at + 2 + |x.term|;
      p + 24 <= |bs|
      && LittleEndian.Value(bs[p..p + 8]) == bits(x.popularity) && LittleEndian.Value(bs[p + 8..p + 12]) == x.wordId
      && LittleEndian.Value(bs[p + 12..p + 16]) == x.docFreq && LittleEndian.Value(bs[p + 16..p + 24]) == x.termFreq
  {
    TermLayout(bs, at, x, bits);
    NumbersDecode(bs, at + 2 + |x.term|, x, bits);
  }

  /** The term records of a list read back as its suggestions. */
  lemma {:induction false} TermsRead(bs: seq<byte>, at: nat, l: seq<AutocompleteBuilder.TermInfo>, bits: real -> nat)
    requires TermsFit(l, bits)
    requires LittleEndian.Holds(bs, at, AutocompleteBuilder.TermRecords(l, bits))
    ensures ReadTerms(bs, at, |l|) == Some((Suggestions(l, bits), at + |AutocompleteBuilder.TermRecords(l, bits)|))
    decreases |l|
  {
    if l != [] {
      var q := TermsSplit(bs, at, l, bits);
      TermsRead(bs, q, l[1..], bits);
      TermThenRest(bs, at, l[0], |l|, q, Suggestions(l[1..], bits), at + |AutocompleteBuilder.TermRecords(l, bits)|, bits);
    }
  }

  /** The first term record of a list, then the others. */
  lemma TermsSplit(bs: seq<byte>, at: nat, l: seq<AutocompleteBuilder.TermInfo>, bits: real -> nat) returns (q: nat)
    requires l != [] && TermsFit(l, bits)
    requires LittleEndian.Holds(bs, at, AutocompleteBuilder.TermRecords(l, bits))
    ensures q == at + |AutocompleteBuilder.TermRecord(l[0], bits)|
    ensures Fits(l[0], bits) && TermsFit(l[1..], bits)
    ensures LittleEndian.Holds(bs, at, AutocompleteBuilder.TermRecord(l[0], bits))
    ensures LittleEndian.Holds(bs, q, AutocompleteBuilder.TermRecords(l[1..], bits))
    ensures q + |AutocompleteBuilder.TermRecords(l[1..], bits)| == at + |AutocompleteBuilder.TermRecords(l, bits)|
    ensures Suggestions(l, bits) == [ToSuggestion(l[0], bits)] + Suggestions(l[1..], bits)
  {
    LittleEndian.HoldsSplit(bs, at, AutocompleteBuilder.TermRecord(l[0], bits), AutocompleteBuilder.TermRecords(l[1..], bits));
    q := at + |AutocompleteBuilder.TermRecord(l[0], bits)|;
  }

  /** A term record, then `n - 1` more. */
  lemma TermThenRest(bs: seq<byte>, at: nat, x: AutocompleteBuilder.TermInfo, n: nat, q: nat, ts: seq<Suggestion>, r: nat,
                     bits: real -> nat)
    requires n > 0 && Fits(x, bits) && LittleEndian.Holds(bs, at, AutocompleteBuilder.TermRecord(x, bits))
    requires q == at + |AutocompleteBuilder.TermRecord(x, bits)| && ReadTerms(bs, q, n - 1) == Some((ts, r))
    ensures ReadTerms(bs, at, n) == Some(([ToSuggestion(x, bits)] + ts, r))
  {
    TermRead(bs, at, x, bits);
    TermCons(bs, at, n, ToSuggestion(x, bits), q, ts, r);
  }

  /** A term read at `at`, then `n - 1` more from where it ends. */
  lemma TermCons(bs: seq<byte>, at: nat, n: nat, t: Suggestion, q: nat, ts: seq<Suggestion>, r: nat)
    requires n > 0 && ReadTerm(bs, at) == Some((t, q)) && ReadTerms(bs, q, n - 1) == Some((ts, r))
    ensures ReadTerms(bs, at, n) == Some(([t] + ts, r))
  {
    RecordStream.ManyCons(ReadTerm, bs, at, n, t, q, ts, r);
  }

  /** The length of the prefix reads back. */
  lemma PrefixLenRead(bs: seq<byte>, at: nat, k: string, l: seq<AutocompleteBuilder.TermInfo>, bits: real -> nat)
    requires |k| < 0x1_0000 && LittleEndian.Holds(bs, at, AutocompleteBuilder.PrefixRecord(k, l, bits))
    ensures ReadUInt(bs, at, 2) == Some(|k|)
  {
    LittleEndian.HoldsFirst(bs, at, LittleEndian.Bytes(|k|, 2), AutocompleteBuilder.ShortText(k), LittleEndian.Bytes(|l|, 2),
                            AutocompleteBuilder.TermRecords(l, bits));
    ShortRead(bs, at, |k|);
  }

  /** The text of the prefix reads back. */
  lemma PrefixTextRead(bs: seq<byte>, at: nat, k: string, l: seq<AutocompleteBuilder.TermInfo>, bits: real -> nat)
    requires |k| < 0x1_0000 && LittleEndian.ByteChars(k) && LittleEndian.Holds(bs, at, AutocompleteBuilder.PrefixRecord(k, l, bits))
    ensures at + 2 + |k| <= |bs| && LittleEndian.BytesChars(bs[at + 2..at + 2 + |k|]) == k
  {
    LittleEndian.HoldsSecond(bs, at, LittleEndian.Bytes(|k|, 2), AutocompleteBuilder.ShortText(k), LittleEndian.Bytes(|l|, 2),
                             AutocompleteBuilder.TermRecords(l, bits));
    TextDecode(bs, at + 2, k);
  }

  /** The number of terms reads back. */
  lemma PrefixCountRead(bs: seq<byte>, at: nat, k: string, l: seq<AutocompleteBuilder.TermInfo>, bits: real -> nat)
    requires |k| < 0x1_0000 && |l| < 0x1_0000 && LittleEndian.Holds(bs, at, AutocompleteBuilder.PrefixRecord(k, l, bits))
    ensures ReadUInt(bs, at + 2 + |k|, 2) == Some(|l|)
  {
    LittleEndian.HoldsThird(bs, at, LittleEndian.Bytes(|k|, 2), AutocompleteBuilder.ShortText(k), LittleEndian.Bytes(|l|, 2),
                            AutocompleteBuilder.TermRecords(l, bits));
    ShortRead(bs, at + 2 + |k|, |l|);
  }

  /** The term records read back, and the record ends after them. */
  lemma PrefixTermsRead(bs: seq<byte>, at: nat, k: string, l: seq<AutocompleteBuilder.TermInfo>, bits: real -> nat)
    requires |k| < 0x1_0000 && TermsFit(l, bits)
    requires LittleEndian.Holds(bs, at, AutocompleteBuilder.PrefixRecord(k, l, bits))
    ensures ReadTerms(bs, at + 2 + |k| + 2, |l|) == Some((Suggestions(l, bits), at + |AutocompleteBuilder.PrefixRecord(k, l, bits)|))
  {
    var p := at + 2 + |k| + 2;
    var end := p + |AutocompleteBuilder.TermRecords(l, bits)|;
    PrefixTermsAt(bs, at, k, l, bits);
    TermsRead(bs, p, l, bits);
    assert ReadTerms(bs, p, |l|) == Some((Suggestions(l, bits), end));
    assert end == at + |AutocompleteBuilder.PrefixRecord(k, l, bits)|;
  }

  /** Where the term records of a prefix record stand, and that the
      record ends with them. */
  lemma PrefixTermsAt(bs: seq<byte>, at: nat, k: string, l: seq<AutocompleteBuilder.TermInfo>, bits: real -> nat)
    requires |k| < 0x1_0000 && LittleEndian.Holds(bs, at, AutocompleteBuilder.PrefixRecord(k, l, bits))
    ensures LittleEndian.Holds(bs, at + 2 + |k| + 2, AutocompleteBuilder.TermRecords(l, bits))
    ensures at + 2 + |k| + 2 + |AutocompleteBuilder.TermRecords(l, bits)| == at + |AutocompleteBuilder.PrefixRecord(k, l, bits)|
  {
    LittleEndian.HoldsFourth(bs, at, LittleEndian.Bytes(|k|, 2), AutocompleteBuilder.ShortText(k), LittleEndian.Bytes(|l|, 2),
                             AutocompleteBuilder.TermRecords(l, bits));
  }

  /** A prefix record reads back as the prefix and its suggestions. */
  lemma PrefixRead(bs: seq<byte>, at: nat, k: string, l: seq<AutocompleteBuilder.TermInfo>, bits: real -> nat)
    requires PrefixFits(k, l, bits)
    requires LittleEndian.Holds(bs, at, AutocompleteBuilder.PrefixRecord(k, l, bits))
    ensures ReadPrefix(bs, at) == Some(((k, Suggestions(l, bits)), at + |AutocompleteBuilder.PrefixRecord(k, l, bits)|))
  {
    var q := PrefixParts(bs, at, k, l, bits);
    PrefixEnd(bs, at, k, Suggestions(l, bits), |l|, q);
  }

  /** A prefix record read from where its fields stand. */
  lemma PrefixEnd(bs: seq<byte>, at: nat, k: string, ts: seq<Suggestion>, count: nat, q: nat)
    requires ReadUInt(bs, at, 2) == Some(|k|) && ReadUInt(bs, at + 2 + |k|, 2) == Some(count)
    requires at + 2 + |k| <= |bs| && LittleEndian.BytesChars(bs[at + 2..at + 2 + |k|]) == k
    requires ReadTerms(bs, at + 2 + |k| + 2, count) == Some((ts, q))
    ensures ReadPrefix(bs, at) == Some(((k, ts), q))
  {
    PrefixFields(bs, at, |k|, at + 2 + |k|, count, at + 2 + |k| + 2, k, ts, q);
  }

  /** The fields of a prefix record read back, and where it ends. */
  lemma PrefixParts(bs: seq<byte>, at: nat, k: string, l: seq<AutocompleteBuilder.TermInfo>, bits: real -> nat) returns (q: nat)
    requires PrefixFits(k, l, bits)
    requires LittleEndian.Holds(bs, at, AutocompleteBuilder.PrefixRecord(k, l, bits))
    ensures q == at + |AutocompleteBuilder.PrefixRecord(k, l, bits)|
    ensures ReadUInt(bs, at, 2) == Some(|k|) && ReadUInt(bs, at + 2 + |k|, 2) == Some(|l|)
    ensures at + 2 + |k| <= |bs| && LittleEndian.BytesChars(bs[at + 2..at + 2 + |k|]) == k
    ensures ReadTerms(bs, at + 2 + |k| + 2, |l|) == Some((Suggestions(l, bits), q))
  {
    PrefixLenRead(bs, at, k, l, bits);
    PrefixTextRead(bs, at, k, l, bits);
    PrefixCountRead(bs, at, k, l, bits);
    PrefixTermsRead(bs, at, k, l, bits);
    q := at + |AutocompleteBuilder.PrefixRecord(k, l, bits)|;
  }

  /** A u16 field reads back. */
  lemma ShortRead(bs: seq<byte>, p: nat, n: nat)
    requires n < 0x1_0000 && LittleEndian.Holds(bs, p, LittleEndian.Bytes(n, 2))
    ensures ReadUInt(bs, p, 2) == Some(n)
  {
    assert LittleEndian.Pow256(2) == 0x1_0000;
    UIntRead(bs, p, n, 2);
  }

  /** Every pair of a list the file holds without loss. */
  predicate PairsFit(ps: seq<Pair>, bits: real -> nat)
    decreases |ps|
  {
    ps == [] || (PrefixFits(ps[0].0, ps[0].1, bits) && PairsFit(ps[1..], bits))
  }

  /** The records of a list of pairs read back as its entries. */
  lemma {:induction false} PairsRead(bs: seq<byte>, at: nat, ps: seq<Pair>, bits: real -> nat)
    requires PairsFit(ps, bits)
    requires LittleEndian.Holds(bs, at, PairRecords(ps, bits))
    ensures ReadPrefixes(bs, at, |ps|) == Some((PairEntries(ps, bits), at + |PairRecords(ps, bits)|))
    decreases |ps|
  {
    if ps != [] {
      var q := PairsSplit(bs, at, ps, bits);
      PairsRead(bs, q, ps[1..], bits);
      PrefixThenRest(bs, at, ps[0].0, ps[0].1, |ps|, q, PairEntries(ps[1..], bits), at + |PairRecords(ps, bits)|, bits);
    }
  }

  /** The first prefix record of a list of pairs, then the others. */
  lemma PairsSplit(bs: seq<byte>, at: nat, ps: seq<Pair>, bits: real -> nat) returns (q: nat)
    requires ps != [] && PairsFit(ps, bits)
    requires LittleEndian.Holds(bs, at, PairRecords(ps, bits))
    ensures q == at + |AutocompleteBuilder.PrefixRecord(ps[0].0, ps[0].1, bits)|
    ensures PrefixFits(ps[0].0, ps[0].1, bits) && PairsFit(ps[1..], bits)
    ensures LittleEndian.Holds(bs, at, AutocompleteBuilder.PrefixRecord(ps[0].0, ps[0].1, bits))
    ensures LittleEndian.Holds(bs, q, PairRecords(ps[1..], bits))
    ensures q + |PairRecords(ps[1..], bits)| == at + |PairRecords(ps, bits)|
    ensures PairEntries(ps, bits) == [(ps[0].0, Suggestions(ps[0].1, bits))] + PairEntries(ps[1..], bits)
  {
    LittleEndian.HoldsSplit(bs, at, AutocompleteBuilder.PrefixRecord(ps[0].0, ps[0].1, bits), PairRecords(ps[1..], bits));
    q := at + |AutocompleteBuilder.PrefixRecord(ps[0].0, ps[0].1, bits)|;
  }

  /** The prefix records of a walk read back as its entries. */
  lemma PrefixesRead(bs: seq<byte>, at: nat, m: AutocompleteBuilder.PrefixMap, order: seq<string>, bits: real -> nat)
    requires (forall i :: 0 <= i < |order| ==> order[i] in m) && PairsFit(Pairs(m, order), bits)
    requires LittleEndian.Holds(bs, at, AutocompleteBuilder.PrefixRecords(m, order, bits))
    ensures ReadPrefixes(bs, at, |order|) == Some((Entries(m, order, bits), at + |AutocompleteBuilder.PrefixRecords(m, order, bits)|))
  {
    WalkPairs(m, order, bits);
    PairsRead(bs, at, Pairs(m, order), bits);
  }

  /** The builder's records of a walk are those of its pairs. */
  lemma {:induction false} WalkPairs(m: AutocompleteBuilder.PrefixMap, order: seq<string>, bits: real -> nat)
    requires forall i :: 0 <= i < |order| ==> order[i] in m
    ensures AutocompleteBuilder.PrefixRecords(m, order, bits) == PairRecords(Pairs(m, order), bits)
    decreases |order|
  {
    if order != [] {
      WalkPairs(m, order[1..], bits);
      var ps := Pairs(m, order);
      assert ps[0] == (order[0], m[order[0]]) && ps[1..] == Pairs(m, order[1..]);
    }
  }

  /** The pairs of a walk of a map the file holds are held too. */
  lemma {:induction false} PairsFitOf(m: AutocompleteBuilder.PrefixMap, order: seq<string>, bits: real -> nat)
    requires (forall i :: 0 <= i < |order| ==> order[i] in m) && MapFits(m, bits)
    ensures PairsFit(Pairs(m, order), bits)
    decreases |order|
  {
    if order != [] {
      PairsFitOf(m, order[1..], bits);
      var ps := Pairs(m, order);
      assert ps[0] == (order[0], m[order[0]]) && ps[1..] == Pairs(m, order[1..]);
    }
  }

  /** A prefix record, then `n - 1` more. */
  lemma PrefixThenRest(bs: seq<byte>, at: nat, k: string, l: seq<AutocompleteBuilder.TermInfo>, n: nat, q: nat, es: seq<Entry>,
                       r: nat, bits: real -> nat)
    requires n > 0 && PrefixFits(k, l, bits) && LittleEndian.Holds(bs, at, AutocompleteBuilder.PrefixRecord(k, l, bits))
    requires q == at + |AutocompleteBuilder.PrefixRecord(k, l, bits)| && ReadPrefixes(bs, q, n - 1) == Some((es, r))
    ensures ReadPrefixes(bs, at, n) == Some(([(k, Suggestions(l, bits))] + es, r))
  {
    PrefixRead(bs, at, k, l, bits);
    PrefixCons(bs, at, n, (k, Suggestions(l, bits)), q, es, r);
  }

  /** A prefix read at `at`, then `n - 1` more from where it ends. */
  lemma PrefixCons(bs: seq<byte>, at: nat, n: nat, e: Entry, q: nat, es: seq<Entry>, r: nat)
    requires n > 0 && ReadPrefix(bs, at) == Some((e, q)) && ReadPrefixes(bs, q, n - 1) == Some((es, r))
    ensures ReadPrefixes(bs, at, n) == Some(([e] + es, r))
  {
    RecordStream.ManyCons(ReadPrefix, bs, at, n, e, q, es, r);
  }

  /** Reading autocomplete.idx gives back each prefix with its terms, in
      the order they were written. */
  lemma IndexRoundTrip(m: AutocompleteBuilder.PrefixMap, order: seq<string>, bits: real -> nat)
    requires Storable(m, order, bits)
    ensures ReadIndexFile(AutocompleteBuilder.IndexFile(m, order, bits)) == Some(Entries(m, order, bits))
  {
    var bs := AutocompleteBuilder.IndexFile(m, order, bits);
    var count := LittleEndian.Bytes(|order|, 4);
    assert bs == count + AutocompleteBuilder.PrefixRecords(m, order, bits);
    assert LittleEndian.Holds(bs, 0, bs);
    LittleEndian.HoldsSplit(bs, 0, count, AutocompleteBuilder.PrefixRecords(m, order, bits));
    Powers();
    ValueRead(|order|, 4);
    PairsFitOf(m, order, bits);
    PrefixesRead(bs, 4, m, order, bits);
  }

  /** Inserting a first entry, then the others. */
  lemma {:induction false} InsertCons(m: map<string, seq<Suggestion>>, e: Entry, es: seq<Entry>)
    ensures InsertAll(m, [e] + es) == InsertAll(m[e.0 := e.1], es)
    decreases |es|
  {
    if es != [] {
      InsertCons(m, e, es[..|es| - 1]);
      assert ([e] + es)[..|es|] == [e] + es[..|es| - 1];
    } else {
      assert ([e] + es)[..0] == [];
    }
  }

  /** The entries of a walk, inserted into `m0`: the walked prefixes get
      their lists, every other key of `m0` keeps its own. */
  lemma {:induction false} InsertEntries(m0: map<string, seq<Suggestion>>, m: AutocompleteBuilder.PrefixMap, order: seq<string>, bits: real -> nat)
    requires forall j :: 0 <= j < |order| ==> order[j] in m
    ensures forall k :: k in InsertAll(m0, Entries(m, order, bits)) <==> k in m0 || k in order
    ensures forall k :: k in order ==> InsertAll(m0, Entries(m, order, bits))[k] == Suggestions(m[k], bits)
    ensures forall k :: k in m0 && k !in order ==> InsertAll(m0, Entries(m, order, bits))[k] == m0[k]
    decreases |order|
  {
    if order == [] {
      assert Entries(m, order, bits) == [];
    } else {
      var k := order[0];
      var m1 := m0[k := Suggestions(m[k], bits)];
      var rest := Entries(m, order[1..], bits);
      InsertCons(m0, (k, Suggestions(m[k], bits)), rest);
      assert Entries(m, order, bits) == [(k, Suggestions(m[k], bits))] + rest;
      InsertEntries(m1, m, order[1..], bits);
      assert forall x :: x in order <==> x == k || x in order[1..];
    }
  }

  /** Loading what the builder wrote into an empty index gives the server
      the builder's map, each term kept as its suggestion. */
  lemma LoadBuilt(m: AutocompleteBuilder.PrefixMap, order: seq<string>, bits: real -> nat)
    requires Storable(m, order, bits)
    ensures ReadIndexFile(AutocompleteBuilder.IndexFile(m, order, bits)).Some?
    ensures InsertAll(map[], ReadIndexFile(AutocompleteBuilder.IndexFile(m, order, bits)).value) == Stored(m, bits)
  {
    IndexRoundTrip(m, order, bits);
    var loaded := InsertAll(map[], Entries(m, order, bits));
    InsertEntries(map[], m, order, bits);
    assert loaded.Keys == Stored(m, bits).Keys;
    forall k | k in loaded
      ensures loaded[k] == Stored(m, bits)[k]
    {
    }
  }

  /** Served from what the builder wrote, every suggestion starts, in any
      case, with the query's key. */
  lemma SuggestionsMatchQuery(m: AutocompleteBuilder.PrefixMap, maxPrefix: int, bits: real -> nat, query: string,
                              maxResults: int, s: Suggestion)
    requires AutocompleteBuilder.WellKeyed(m, maxPrefix) && maxResults >= 0
    requires s in SuggestionsOf(Stored(m, bits), true, query, maxResults)
    ensures var key := Normalized(query);
      |key| <= |s.term| && Lower(s.term[..|key|]) == key
  {
    var key := Normalized(query);
    var all := Stored(m, bits)[key];
    var j :| 0 <= j < |all| && all[j] == s;
    SuggestionAt(m[key], bits, j);
    assert s.term == m[key][j].term;
  }
}
