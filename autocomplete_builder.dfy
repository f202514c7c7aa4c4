/** The prefix index builder of autocomplete_builder.cpp: reading the
    lexicon lines, generating the lowercase prefixes of every term, keeping
    the most popular terms under each prefix, and the binary layout of
    autocomplete.idx. The popularity score is a `double` computed from the
    two frequencies with `log`; the model takes that computation, and the
    64-bit pattern the file holds for a score, as parameters. */
module AutocompleteBuilder {
  import opened Common
  import Decimal
  import LittleEndian

  // ---------------------------------------------------------------------
  // Stream extraction, on the text still to be read

  /** The text after the leading white space. */
  function SkipWs(s: string): (t: string)
    ensures |t| <= |s| && (t != [] ==> !IsSpace(t[0]))
    decreases |s|
  {
    if s != [] && IsSpace(s[0]) then SkipWs(s[1..]) else s
  }

  /** The number of leading digits. */
  function DigitRun(s: string): (k: nat)
    ensures k <= |s| && forall j :: 0 <= j < k ==> IsDigit(s[j])
    ensures k < |s| ==> !IsDigit(s[k])
    decreases |s|
  {
    if s != [] && IsDigit(s[0]) then 1 + DigitRun(s[1..]) else 0
  }

  /** The number of leading characters that are not white space. */
  function WordRun(s: string): (k: nat)
    ensures k <= |s| && forall j :: 0 <= j < k ==> !IsSpace(s[j])
    ensures k < |s| ==> IsSpace(s[k])
    decreases |s|
  {
    if s != [] && !IsSpace(s[0]) then 1 + WordRun(s[1..]) else 0
  }

  /** `>>` into an unsigned integer below `limit`: white space, an
      optional sign, then digits; a minus sign negates modulo `limit`; no
      digit, or a value `limit` or above, fails. The rest of the text is
      what follows the digits. */
  function ExtractNumber(s: string, limit: nat): Option<(nat, string)>
    requires limit > 0
  {
    var t := SkipWs(s);
    var signed := t != [] && (t[0] == '+' || t[0] == '-');
    var u := if signed then t[1..] else t;
    var k := DigitRun(u);
    var v := Decimal.ValueIn(u, 0, k);
    if k == 0 || v >= limit then None
    else Some((if signed && t[0] == '-' && v != 0 then limit - v else v, u[k..]))
  }

  /** `>>` into a string: white space, then the characters up to the next
      white space; fails at the end of the text. */
  function ExtractWord(s: string): Option<(string, string)> {
    var t := SkipWs(s);
    if t == [] then None else Some((t[..WordRun(t)], t[WordRun(t)..]))
  }

  lemma {:induction false} ValuePrefix(d: string, rest: string, k: nat)
    requires k <= |d|
    ensures Decimal.ValueIn(d + rest, 0, k) == Decimal.ValueIn(d, 0, k)
    decreases k
  {
    if k > 0 {
      ValuePrefix(d, rest, k - 1);
      assert (d + rest)[k - 1] == d[k - 1];
    }
  }

  lemma {:induction false} DigitRunOf(d: string, rest: string)
    requires Decimal.AllDigits(d) && (rest == [] || !IsDigit(rest[0]))
    ensures DigitRun(d + rest) == |d|
    decreases |d|
  {
    if d != [] {
      assert (d + rest)[1..] == d[1..] + rest;
      DigitRunOf(d[1..], rest);
    } else {
      assert d + rest == rest;
    }
  }

  /** `>>` reads back the digits `to_string` writes, up to the first
      non-digit. */
  lemma NumberRoundTrip(n: nat, rest: string, limit: nat)
    requires n < limit && (rest == [] || !IsDigit(rest[0]))
    ensures ExtractNumber(Decimal.ToDecimal(n) + rest, limit) == Some((n, rest))
  {
    var d := Decimal.ToDecimal(n);
    var s := d + rest;
    assert s[0] == d[0];
    DigitRunOf(d, rest);
    ValuePrefix(d, rest, |d|);
    Decimal.DecimalRoundTrip(n);
    assert s[|d|..] == rest;
  }

  /** `>>` reads back a word up to the white space after it. */
  lemma {:induction false} WordRoundTrip(w: string, rest: string)
    requires w != [] && (forall j :: 0 <= j < |w| ==> !IsSpace(w[j])) && (rest == [] || IsSpace(rest[0]))
    ensures ExtractWord(w + rest) == Some((w, rest))
  {
    WordRunOf(w, rest);
    assert (w + rest)[0] == w[0];
    assert (w + rest)[..|w|] == w && (w + rest)[|w|..] == rest;
  }

  lemma {:induction false} WordRunOf(w: string, rest: string)
    requires (forall j :: 0 <= j < |w| ==> !IsSpace(w[j])) && (rest == [] || IsSpace(rest[0]))
    ensures WordRun(w + rest) == |w|
    decreases |w|
  {
    if w != [] {
      assert (w + rest)[1..] == w[1..] + rest;
      WordRunOf(w[1..], rest);
    } else {
      assert w + rest == rest;
    }
  }

  /** A leading space is skipped. */
  lemma SpaceSkipped(s: string)
    ensures SkipWs(" " + s) == SkipWs(s)
  {
    assert (" " + s)[1..] == s;
  }

  // ---------------------------------------------------------------------
  // load_terms_with_freq

  const U64: nat := 0x1_0000_0000_0000_0000

  /** A term with its lexicon numbers and its popularity score. */
  datatype TermInfo = TermInfo(term: string, wordId: nat, docFreq: nat, termFreq: nat, popularity: real)

  /** A lexicon line read as "word_id term doc_freq term_freq offset
      bytes" (the rest of the line is ignored); `None` when any of the six
      reads fails. */
  function ParseLexiconLine(line: string, score: (nat, nat) -> real): Option<TermInfo> {
    match ExtractNumber(line, U32)
    case None => None
    case Some(r1) =>
      match ExtractWord(r1.1)
      case None => None
      case Some(r2) =>
        match ExtractNumber(r2.1, U32)
        case None => None
        case Some(r3) =>
          match ExtractNumber(r3.1, U64)
          case None => None
          case Some(r4) =>
            match ExtractNumber(r4.1, U64)
            case None => None
            case Some(r5) =>
              match ExtractNumber(r5.1, U64)
              case None => None
              case Some(_) => Some(TermInfo(r2.0, r1.0, r3.0, r4.0, score(r3.0, r4.0)))
  }

  /** The terms of the lexicon, in line order, malformed lines skipped. */
  function LexiconTerms(lines: seq<string>, score: (nat, nat) -> real): (ts: seq<TermInfo>)
    ensures |ts| <= |lines|
    decreases |lines|
  {
    if lines == [] then []
    else
      var ts := LexiconTerms(lines[..|lines| - 1], score);
      match ParseLexiconLine(lines[|lines| - 1], score)
      case None => ts
      case Some(t) => ts + [t]
  }

  /** `load_terms_with_freq` over the lines of lexicon.txt. */
  method LoadTermsWithFreq(lines: seq<string>, score: (nat, nat) -> real) returns (terms: seq<TermInfo>)
    ensures terms == LexiconTerms(lines, score)
  {
    terms := [];
    for i := 0 to |lines|
      invariant terms == LexiconTerms(lines[..i], score)
    {
      assert lines[..i + 1][..i] == lines[..i];
      var info := ParseLexiconLine(lines[i], score);
      if info.Some? {
        terms := terms + [info.value];
      }
    }
    assert lines[..|lines|] == lines;
  }

  /** The lexicon line for a term and its numbers. */
  function LexiconLine(wordId: nat, term: string, docFreq: nat, termFreq: nat, offset: nat, bytes: nat): string {
    Decimal.ToDecimal(wordId) + (" " + term + (" " + Decimal.ToDecimal(docFreq) + (" " + Decimal.ToDecimal(termFreq)
      + (" " + Decimal.ToDecimal(offset) + (" " + Decimal.ToDecimal(bytes))))))
  }

  predicate IsWord(w: string) {
    w != [] && forall j :: 0 <= j < |w| ==> !IsSpace(w[j])
  }

  /** A read that starts at a space skips it. */
  lemma AfterSpace(w: string, limit: nat)
    requires limit > 0
    ensures ExtractNumber(" " + w, limit) == ExtractNumber(w, limit)
    ensures ExtractWord(" " + w) == ExtractWord(w)
  {
    SpaceSkipped(w);
  }

  /** The six reads succeeding give the term and its numbers. */
  lemma ParsedFrom(line: string, score: (nat, nat) -> real, wordId: nat, term: string, docFreq: nat, termFreq: nat,
                   r1: string, r2: string, r3: string, r4: string, r5: string, r6: string, offset: nat, bytes: nat)
    requires ExtractNumber(line, U32) == Some((wordId, r1)) && ExtractWord(r1) == Some((term, r2))
    requires ExtractNumber(r2, U32) == Some((docFreq, r3)) && ExtractNumber(r3, U64) == Some((termFreq, r4))
    requires ExtractNumber(r4, U64) == Some((offset, r5)) && ExtractNumber(r5, U64) == Some((bytes, r6))
    ensures ParseLexiconLine(line, score) == Some(TermInfo(term, wordId, docFreq, termFreq, score(docFreq, termFreq)))
  {
  }

  /** A number written after a space is read back, the rest left over. */
  lemma NumberAfterSpace(n: nat, rest: string, limit: nat)
    requires n < limit && (rest == [] || !IsDigit(rest[0]))
    ensures ExtractNumber(" " + Decimal.ToDecimal(n) + rest, limit) == Some((n, rest))
  {
    assert " " + Decimal.ToDecimal(n) + rest == " " + (Decimal.ToDecimal(n) + rest);
    AfterSpace(Decimal.ToDecimal(n) + rest, limit);
    NumberRoundTrip(n, rest, limit);
  }

  /** A word written after a space is read back, the rest left over. */
  lemma WordAfterSpace(w: string, rest: string)
    requires IsWord(w) && (rest == [] || IsSpace(rest[0]))
    ensures ExtractWord(" " + w + rest) == Some((w, rest))
  {
    assert " " + w + rest == " " + (w + rest);
    AfterSpace(w + rest, 1);
    WordRoundTrip(w, rest);
  }

  /** A well-formed lexicon line is read back into its term and numbers. */
  lemma LexiconLineRoundTrip(wordId: nat, term: string, docFreq: nat, termFreq: nat, offset: nat, bytes: nat, score: (nat, nat) -> real)
    requires IsWord(term) && wordId < U32 && docFreq < U32 && termFreq < U64 && offset < U64 && bytes < U64
    ensures ParseLexiconLine(LexiconLine(wordId, term, docFreq, termFreq, offset, bytes), score)
      == Some(TermInfo(term, wordId, docFreq, termFreq, score(docFreq, termFreq)))
  {
    var s5 := " " + Decimal.ToDecimal(bytes);
    var s4 := " " + Decimal.ToDecimal(offset) + s5;
    var s3 := " " + Decimal.ToDecimal(termFreq) + s4;
    var s2 := " " + Decimal.ToDecimal(docFreq) + s3;
    var s1 := " " + term + s2;
    NumberRoundTrip(wordId, s1, U32);
    WordAfterSpace(term, s2);
    NumberAfterSpace(docFreq, s3, U32);
    NumberAfterSpace(termFreq, s4, U64);
    NumberAfterSpace(offset, s5, U64);
    assert s5 == " " + Decimal.ToDecimal(bytes) + [];
    NumberAfterSpace(bytes, [], U64);
    ParsedFrom(LexiconLine(wordId, term, docFreq, termFreq, offset, bytes), score, wordId, term, docFreq, termFreq,
               s1, s2, s3, s4, s5, [], offset, bytes);
  }

  // ---------------------------------------------------------------------
  // build_autocomplete_index: the prefix map

  type PrefixMap = map<string, seq<TermInfo>>

  /** The key of the first `len` characters of a term. */
  function Key(term: string, len: nat): string
    requires len <= |term|
  {
    Lower(term[..len])
  }

  /** `min((int)term.length(), max_prefix_len)`. */
  function MaxLen(term: string, maxPrefix: int): (r: int)
    ensures r <= |term|
  {
    if |term| < maxPrefix then |term| else maxPrefix
  }

  /** `prefix_map[k].emplace_back(x)`. */
  function Push(m: PrefixMap, k: string, x: TermInfo): PrefixMap {
    m[k := (if k in m then m[k] else []) + [x]]
  }

  /** The prefixes of lengths `len` to `hi` of the term of `x`, each with
      `x` pushed under it. */
  function AddPrefixes(m: PrefixMap, x: TermInfo, len: nat, hi: int): PrefixMap
    requires hi <= |x.term|
    decreases hi - len + 1
  {
    if len > hi then m else AddPrefixes(Push(m, Key(x.term, len), x), x, len + 1, hi)
  }

  /** The map after the terms: a term shorter than 2 adds nothing. */
  function Build(terms: seq<TermInfo>, maxPrefix: int): PrefixMap
    decreases |terms|
  {
    if terms == [] then map[]
    else
      var m := Build(terms[..|terms| - 1], maxPrefix);
      var x := terms[|terms| - 1];
      if |x.term| < 2 then m else AddPrefixes(m, x, 2, MaxLen(x.term, maxPrefix))
  }

  /** The prefix loop for one term. */
  method AddTerm(m: PrefixMap, x: TermInfo, maxPrefix: int) returns (m': PrefixMap)
    requires |x.term| >= 2
    ensures m' == AddPrefixes(m, x, 2, MaxLen(x.term, maxPrefix))
  {
    var maxLen := if |x.term| < maxPrefix then |x.term| else maxPrefix;
    m' := m;
    var len := 2;
    while len <= maxLen
      invariant 2 <= len && (len <= maxLen + 1 || len == 2)
      invariant AddPrefixes(m', x, len, maxLen) == AddPrefixes(m, x, 2, maxLen)
      decreases maxLen - len + 1
    {
      var prefix := LowerAll(x.term[..len]);
      var list := if prefix in m' then m'[prefix] else [];
      m' := m'[prefix := list + [x]];
      len := len + 1;
    }
  }

  /** The `transform` with `tolower`. */
  method LowerAll(s: string) returns (r: string)
    ensures r == Lower(s)
  {
    r := [];
    for i := 0 to |s|
      invariant r == Lower(s[..i])
    {
      assert s[..i + 1] == s[..i] + [s[i]];
      LowerSnoc(s[..i], s[i]);
      r := r + [ToLower(s[i])];
    }
    assert s[..|s|] == s;
  }

  lemma LowerSnoc(s: string, c: char)
    ensures Lower(s + [c]) == Lower(s) + [ToLower(c)]
  {
  }

  /** The term loop of `build_autocomplete_index`. */
  method BuildPrefixMap(terms: seq<TermInfo>, maxPrefix: int) returns (m: PrefixMap)
    ensures m == Build(terms, maxPrefix)
  {
    m := map[];
    for i := 0 to |terms|
      invariant m == Build(terms[..i], maxPrefix)
    {
      assert terms[..i + 1][..i] == terms[..i];
      if |terms[i].term| >= 2 {
        m := AddTerm(m, terms[i], maxPrefix);
      }
    }
    assert terms[..|terms|] == terms;
  }

  /** Every key has 2 to `maxPrefix` characters, is lowercase, and is the
      lowercased start of every term stored under it. */
  ghost predicate WellKeyed(m: PrefixMap, maxPrefix: int) {
    forall k :: k in m ==>
      2 <= |k| <= maxPrefix && NoUpper(k)
      && forall j :: 0 <= j < |m[k]| ==> |k| <= |m[k][j].term| && Key(m[k][j].term, |k|) == k
  }

  lemma {:induction false} AddPrefixesWellKeyed(m: PrefixMap, x: TermInfo, len: nat, hi: int, maxPrefix: int)
    requires WellKeyed(m, maxPrefix) && 2 <= len && hi <= |x.term| && hi <= maxPrefix
    ensures WellKeyed(AddPrefixes(m, x, len, hi), maxPrefix)
    decreases hi - len + 1
  {
    if len <= hi {
      var k := Key(x.term, len);
      var m' := Push(m, k, x);
      assert WellKeyed(m', maxPrefix) by {
        forall k' | k' in m' ensures 2 <= |k'| <= maxPrefix && NoUpper(k')
          && forall j :: 0 <= j < |m'[k']| ==> |k'| <= |m'[k'][j].term| && Key(m'[k'][j].term, |k'|) == k'
        {
          if k' == k {
            var before := if k in m then m[k] else [];
            assert m'[k] == before + [x];
            assert |k| == len;
          }
        }
      }
      AddPrefixesWellKeyed(m', x, len + 1, hi, maxPrefix);
    }
  }

  /** Every key of the built map is lowercase, between 2 and `maxPrefix`
      long, and the lowercased start of each term under it. */
  lemma {:induction false} BuildWellKeyed(terms: seq<TermInfo>, maxPrefix: int)
    ensures WellKeyed(Build(terms, maxPrefix), maxPrefix)
    decreases |terms|
  {
    if terms != [] {
      BuildWellKeyed(terms[..|terms| - 1], maxPrefix);
      var x := terms[|terms| - 1];
      if |x.term| >= 2 {
        AddPrefixesWellKeyed(Build(terms[..|terms| - 1], maxPrefix), x, 2, MaxLen(x.term, maxPrefix), maxPrefix);
      }
    }
  }

  lemma {:induction false} AddPrefixesKeeps(m: PrefixMap, x: TermInfo, len: nat, hi: int, k: string, y: TermInfo)
    requires hi <= |x.term| && k in m && y in m[k]
    ensures k in AddPrefixes(m, x, len, hi) && y in AddPrefixes(m, x, len, hi)[k]
    decreases hi - len + 1
  {
    if len <= hi {
      AddPrefixesKeeps(Push(m, Key(x.term, len), x), x, len + 1, hi, k, y);
    }
  }

  lemma {:induction false} AddPrefixesHas(m: PrefixMap, x: TermInfo, len: nat, hi: int, l: nat)
    requires hi <= |x.term| && len <= l <= hi
    ensures Key(x.term, l) in AddPrefixes(m, x, len, hi) && x in AddPrefixes(m, x, len, hi)[Key(x.term, l)]
    decreases hi - len + 1
  {
    var m' := Push(m, Key(x.term, len), x);
    if l == len {
      AddPrefixesKeeps(m', x, len + 1, hi, Key(x.term, l), x);
    } else {
      AddPrefixesHas(m', x, len + 1, hi, l);
    }
  }

  /** Every term of at least 2 characters is stored under each of its
      prefixes of 2 to `maxPrefix` characters. */
  lemma {:induction false} BuildHas(terms: seq<TermInfo>, maxPrefix: int, i: nat, l: nat)
    requires i < |terms| && 2 <= l <= MaxLen(terms[i].term, maxPrefix)
    ensures var m := Build(terms, maxPrefix);
      Key(terms[i].term, l) in m && terms[i] in m[Key(terms[i].term, l)]
    decreases |terms|
  {
    var p := terms[..|terms| - 1];
    var x := terms[|terms| - 1];
    if i == |terms| - 1 {
      AddPrefixesHas(Build(p, maxPrefix), x, 2, MaxLen(x.term, maxPrefix), l);
    } else {
      assert p[i] == terms[i];
      BuildHas(p, maxPrefix, i, l);
      if |x.term| >= 2 {
        AddPrefixesKeeps(Build(p, maxPrefix), x, 2, MaxLen(x.term, maxPrefix), Key(terms[i].term, l), terms[i]);
      }
    }
  }

  // ---------------------------------------------------------------------
  // Sorting and pruning

  predicate NonIncreasing(l: seq<TermInfo>) {
    forall i, j :: 0 <= i < j < |l| ==> l[i].popularity >= l[j].popularity
  }

  /** `resize(top_k)` when the list is longer; the comparison is between
      `size_t` and `int`, so a negative `top_k` never cuts. */
  function Prune(l: seq<TermInfo>, topK: int): seq<TermInfo> {
    if topK >= 0 && |l| > topK then l[..topK] else l
  }

  /** `r` is what sorting `l` by descending popularity and pruning to
      `topK` can give, whatever order the sort leaves ties in: the right
      number of entries, taken from `l`, in non-increasing popularity, and
      none left out more popular than one kept. */
  predicate TopK(r: seq<TermInfo>, l: seq<TermInfo>, topK: int) {
    |r| == (if topK >= 0 && |l| > topK then topK else |l|)
    && multiset(r) <= multiset(l)
    && NonIncreasing(r)
    && forall x, y :: x in multiset(l) - multiset(r) && y in r ==> x.popularity <= y.popularity
  }

  /** One insertion: before the first entry less popular than `x`. */
  method InsertByPopularity(r: seq<TermInfo>, x: TermInfo) returns (r': seq<TermInfo>)
    requires NonIncreasing(r)
    ensures NonIncreasing(r') && multiset(r') == multiset(r) + multiset{x}
  {
    var j := 0;
    while j < |r| && r[j].popularity >= x.popularity
      invariant j <= |r| && forall k :: 0 <= k < j ==> r[k].popularity >= x.popularity
    {
      j := j + 1;
    }
    r' := r[..j] + [x] + r[j..];
    assert r == r[..j] + r[j..];
  }

  /** The `sort` by descending popularity (an insertion sort here: one of
      the orders `std::sort` may leave ties in). */
  method SortByPopularity(l: seq<TermInfo>) returns (r: seq<TermInfo>)
    ensures NonIncreasing(r) && multiset(r) == multiset(l)
  {
    r := [];
    for i := 0 to |l|
      invariant NonIncreasing(r) && multiset(r) == multiset(l[..i])
    {
      assert l[..i + 1] == l[..i] + [l[i]];
      r := InsertByPopularity(r, l[i]);
    }
    assert l[..|l|] == l;
  }

  lemma PruneSplit(s: seq<TermInfo>, l: seq<TermInfo>, k: nat)
    requires k <= |s| && multiset(s) == multiset(l)
    ensures multiset(s[..k]) <= multiset(l)
    ensures multiset(l) - multiset(s[..k]) == multiset(s[k..])
  {
    assert s == s[..k] + s[k..];
  }

  /** Pruning a sorted permutation keeps the most popular entries. */
  lemma PruneTopK(s: seq<TermInfo>, l: seq<TermInfo>, topK: int)
    requires NonIncreasing(s) && multiset(s) == multiset(l)
    ensures TopK(Prune(s, topK), l, topK)
  {
    var k := if topK >= 0 && |s| > topK then topK else |s|;
    assert Prune(s, topK) == s[..k];
    PruneSplit(s, l, k);
    PrefixSorted(s, k);
    LeftOutBelowAll(s, l, k);
    assert |s| == |multiset(s)| == |multiset(l)| == |l|;
  }

  lemma PrefixSorted(s: seq<TermInfo>, k: nat)
    requires NonIncreasing(s) && k <= |s|
    ensures NonIncreasing(s[..k])
  {
    forall i, j | 0 <= i < j < k ensures s[..k][i].popularity >= s[..k][j].popularity {
      assert s[..k][i] == s[i] && s[..k][j] == s[j];
    }
  }

  /** No entry left out of the first `k` is more popular than one kept. */
  lemma LeftOutBelowAll(s: seq<TermInfo>, l: seq<TermInfo>, k: nat)
    requires NonIncreasing(s) && k <= |s|
    requires multiset(l) - multiset(s[..k]) == multiset(s[k..])
    ensures forall x, y :: x in multiset(l) - multiset(s[..k]) && y in s[..k] ==> x.popularity <= y.popularity
  {
    forall x, y | x in multiset(l) - multiset(s[..k]) && y in s[..k] ensures x.popularity <= y.popularity {
      assert x in multiset(s[k..]);
      LeftOutBelow(s, k, x, y);
    }
  }

  /** In a sorted list, an entry past `k` is no more popular than one
      before it. */
  lemma LeftOutBelow(s: seq<TermInfo>, k: nat, x: TermInfo, y: TermInfo)
    requires NonIncreasing(s) && k <= |s| && x in s[k..] && y in s[..k]
    ensures x.popularity <= y.popularity
  {
    var a :| 0 <= a < |s| - k && s[k..][a] == x;
    var b :| 0 <= b < k && s[..k][b] == y;
    assert s[b] == y && s[k + a] == x;
  }

  /** Sorting and pruning one list. */
  method SortAndPrune(l: seq<TermInfo>, topK: int) returns (r: seq<TermInfo>)
    ensures TopK(r, l, topK)
  {
    var s := SortByPopularity(l);
    PruneTopK(s, l, topK);
    r := s;
    if topK >= 0 && |r| > topK {
      r := r[..topK];
    }
  }

  /** The lists of `m'` are the sorted and pruned lists of `m`. */
  ghost predicate Pruned(m': PrefixMap, m: PrefixMap, topK: int) {
    m'.Keys == m.Keys && forall k :: k in m ==> TopK(m'[k], m[k], topK)
  }

  /** The sort-and-prune loop over every prefix. */
  method PruneAll(m: PrefixMap, topK: int) returns (m': PrefixMap)
    ensures Pruned(m', m, topK)
  {
    m' := m;
    var todo := m.Keys;
    while todo != {}
      invariant todo <= m.Keys && m'.Keys == m.Keys
      invariant forall k :: k in m && k !in todo ==> TopK(m'[k], m[k], topK)
      invariant forall k :: k in todo ==> m'[k] == m[k]
      decreases todo
    {
      var k :| k in todo;
      var r := SortAndPrune(m[k], topK);
      m' := m'[k := r];
      todo := todo - {k};
    }
  }

  /** Pruning keeps each key's stored terms among those the key had:
      every stored term still starts with its key. */
  lemma PrunedWellKeyed(m': PrefixMap, m: PrefixMap, topK: int, maxPrefix: int)
    requires Pruned(m', m, topK) && WellKeyed(m, maxPrefix)
    ensures WellKeyed(m', maxPrefix)
  {
    forall k, j | k in m' && 0 <= j < |m'[k]| ensures |k| <= |m'[k][j].term| && Key(m'[k][j].term, |k|) == k {
      var y := m'[k][j];
      assert y in multiset(m'[k]);
      assert y in multiset(m[k]);
      var i :| 0 <= i < |m[k]| && m[k][i] == y;
    }
  }

  // ---------------------------------------------------------------------
  // The binary file

  /** A length stored in a `uint16_t`: what is left of it below 2^16. */
  function U16(n: nat): (r: nat)
    ensures r < 0x1_0000 && r <= n
    ensures n < 0x1_0000 ==> r == n
    decreases n
  {
    if n < 0x1_0000 then n else U16(n - 0x1_0000)
  }

  /** That is the length modulo 2^16. */
  lemma {:induction false} U16Mod(n: nat)
    ensures U16(n) == n % 0x1_0000
    decreases n
  {
    if n >= 0x1_0000 {
      U16Mod(n - 0x1_0000);
    }
  }

  /** The bytes written after a text's u16 length: as many as that length
      says, i.e. the whole text only when it is shorter than 2^16. */
  function ShortText(s: string): (bs: seq<byte>)
    ensures |bs| == U16(|s|)
    ensures |s| < 0x1_0000 ==> bs == LittleEndian.CharBytes(s)
  {
    LittleEndian.CharBytes(s)[..U16(|s|)]
  }

  /** One term: u16 length, that many bytes of the term, the f64 score's
      bits, u32 word id, u32 document frequency, u64 term frequency. */
  function TermRecord(x: TermInfo, bits: real -> nat): seq<byte> {
    LittleEndian.Bytes(|x.term|, 2) + ShortText(x.term) + LittleEndian.Bytes(bits(x.popularity), 8)
    + LittleEndian.Bytes(x.wordId, 4) + LittleEndian.Bytes(x.docFreq, 4) + LittleEndian.Bytes(x.termFreq, 8)
  }

  function TermRecords(l: seq<TermInfo>, bits: real -> nat): seq<byte>
    decreases |l|
  {
    if l == [] then [] else TermRecord(l[0], bits) + TermRecords(l[1..], bits)
  }

  /** One prefix: u16 length, that many bytes of the prefix, u16 number of
      terms, then every term. */
  function PrefixRecord(k: string, l: seq<TermInfo>, bits: real -> nat): seq<byte> {
    LittleEndian.Bytes(|k|, 2) + ShortText(k) + LittleEndian.Bytes(|l|, 2) + TermRecords(l, bits)
  }

  /** The prefixes in the order the map is walked. */
  function PrefixRecords(m: PrefixMap, order: seq<string>, bits: real -> nat): seq<byte>
    requires forall i :: 0 <= i < |order| ==> order[i] in m
    decreases |order|
  {
    if order == [] then [] else PrefixRecord(order[0], m[order[0]], bits) + PrefixRecords(m, order[1..], bits)
  }

  /** The order an `unordered_map` is walked in: each key once. */
  predicate WalkOrder(m: PrefixMap, order: seq<string>) {
    (forall i :: 0 <= i < |order| ==> order[i] in m)
    && (forall k :: k in m ==> k in order)
    && forall i, j :: 0 <= i < j < |order| ==> order[i] != order[j]
  }

  /** autocomplete.idx: u32 number of prefixes, then the prefixes. */
  function IndexFile(m: PrefixMap, order: seq<string>, bits: real -> nat): seq<byte>
    requires WalkOrder(m, order)
  {
    LittleEndian.Bytes(|order|, 4) + PrefixRecords(m, order, bits)
  }

  lemma {:induction false} TermRecordsAppend(a: seq<TermInfo>, b: seq<TermInfo>, bits: real -> nat)
    ensures TermRecords(a + b, bits) == TermRecords(a, bits) + TermRecords(b, bits)
    decreases |a|
  {
    if a == [] {
      assert a + b == b;
    } else {
      assert (a + b)[1..] == a[1..] + b;
      TermRecordsAppend(a[1..], b, bits);
    }
  }

  lemma {:induction false} PrefixRecordsAppend(m: PrefixMap, a: seq<string>, b: seq<string>, bits: real -> nat)
    requires forall i :: 0 <= i < |a| ==> a[i] in m
    requires forall i :: 0 <= i < |b| ==> b[i] in m
    ensures forall i :: 0 <= i < |a + b| ==> (a + b)[i] in m
    ensures PrefixRecords(m, a + b, bits) == PrefixRecords(m, a, bits) + PrefixRecords(m, b, bits)
    decreases |a|
  {
    if a == [] {
      assert a + b == b;
    } else {
      var ab := a + b;
      assert ab[0] == a[0] && ab[1..] == a[1..] + b;
      PrefixRecordsAppend(m, a[1..], b, bits);
      ConcatAssoc(PrefixRecord(a[0], m[a[0]], bits), PrefixRecords(m, a[1..], bits), PrefixRecords(m, b, bits));
    }
  }

  /** The term loop of the writer. */
  method WriteTerms(out: seq<byte>, l: seq<TermInfo>, bits: real -> nat) returns (out': seq<byte>)
    ensures out' == out + TermRecords(l, bits)
  {
    out' := out;
    for i := 0 to |l|
      invariant out' == out + TermRecords(l[..i], bits)
    {
      var t := l[i];
      TermRecordsSnoc(l, i, bits);
      ConcatAssoc(out, TermRecords(l[..i], bits), TermRecord(t, bits));
      var record := WriteTerm(t, bits);
      out' := out' + record;
    }
    assert l[..|l|] == l;
  }

  lemma TermRecordsSnoc(l: seq<TermInfo>, i: nat, bits: real -> nat)
    requires i < |l|
    ensures TermRecords(l[..i + 1], bits) == TermRecords(l[..i], bits) + TermRecord(l[i], bits)
  {
    TermRecordsAppend(l[..i], [l[i]], bits);
    assert l[..i + 1] == l[..i] + [l[i]];
    assert TermRecords([l[i]], bits) == TermRecord(l[i], bits) + TermRecords([], bits);
  }

  /** The bytes of one term: its length as a u16, that many of its bytes,
      then its numbers. */
  method WriteTerm(t: TermInfo, bits: real -> nat) returns (record: seq<byte>)
    ensures record == TermRecord(t, bits)
  {
    var termLen := |t.term| % 0x1_0000;
    U16Mod(|t.term|);
    LittleEndian.BytesMod(|t.term|, 2);
    record := LittleEndian.Bytes(termLen, 2) + LittleEndian.CharBytes(t.term)[..termLen]
      + LittleEndian.Bytes(bits(t.popularity), 8) + LittleEndian.Bytes(t.wordId, 4)
      + LittleEndian.Bytes(t.docFreq, 4) + LittleEndian.Bytes(t.termFreq, 8);
  }

  /** One prefix of the writer: its header, then its terms. */
  method WritePrefix(out: seq<byte>, k: string, l: seq<TermInfo>, bits: real -> nat) returns (out': seq<byte>)
    ensures out' == out + PrefixRecord(k, l, bits)
  {
    var prefixLen := |k| % 0x1_0000;
    U16Mod(|k|);
    LittleEndian.BytesMod(|k|, 2);
    LittleEndian.BytesMod(|l|, 2);
    var head := LittleEndian.Bytes(prefixLen, 2) + LittleEndian.CharBytes(k)[..prefixLen] + LittleEndian.Bytes(|l| % 0x1_0000, 2);
    out' := WriteTerms(out + head, l, bits);
  }

  lemma PrefixRecordsSnoc(m: PrefixMap, order: seq<string>, i: nat, bits: real -> nat)
    requires i < |order| && forall j :: 0 <= j < |order| ==> order[j] in m
    ensures PrefixRecords(m, order[..i + 1], bits) == PrefixRecords(m, order[..i], bits) + PrefixRecord(order[i], m[order[i]], bits)
  {
    PrefixRecordsAppend(m, order[..i], [order[i]], bits);
    assert order[..i + 1] == order[..i] + [order[i]];
    assert PrefixRecords(m, [order[i]], bits) == PrefixRecord(order[i], m[order[i]], bits) + PrefixRecords(m, [], bits);
  }

  /** The writer of autocomplete.idx, walking the map in `order`. */
  method WriteIndex(m: PrefixMap, order: seq<string>, bits: real -> nat) returns (out: seq<byte>)
    requires WalkOrder(m, order)
    ensures out == IndexFile(m, order, bits)
  {
    var count := LittleEndian.Bytes(|order|, 4);
    out := count;
    for i := 0 to |order|
      invariant out == count + PrefixRecords(m, order[..i], bits)
    {
      var prefix := order[i];
      PrefixRecordsSnoc(m, order, i, bits);
      ConcatAssoc(count, PrefixRecords(m, order[..i], bits), PrefixRecord(prefix, m[prefix], bits));
      out := WritePrefix(out, prefix, m[prefix], bits);
    }
    assert order[..|order|] == order;
  }
}
