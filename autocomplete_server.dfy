/** The query side of the prefix index, autocomplete_server.cpp: reading
    autocomplete.idx back into the prefix map, and answering a prefix with
    the first suggestions stored under it. A stored score is kept as the
    64-bit pattern the file holds; the server only copies it. */
module AutocompleteServer {
  import opened Common
  import LittleEndian
  import AutocompleteBuilder
  import RecordStream

  /** One stored suggestion: the term, the bits of its score, its word id
      and its two frequencies. */
  datatype Suggestion = Suggestion(term: string, popularityBits: nat, wordId: nat, docFreq: nat, termFreq: nat)

  type Entry = (string, seq<Suggestion>)

  /** The longest query the index answers for; longer ones are cut. */
  const MaxQuery: nat := 15

  // ---------------------------------------------------------------------
  // Reading autocomplete.idx

  /** A `w`-byte unsigned number at `at`. */
  function ReadUInt(bs: seq<byte>, at: nat, w: nat): Option<nat> {
    if at + w <= |bs| then Some(LittleEndian.Value(bs[at..at + w])) else None
  }

  /** The term of `len` bytes at `at` and the four numbers after it. */
  function TermFields(bs: seq<byte>, at: nat, len: nat): Suggestion
    requires at + len + 24 <= |bs|
  {
    var p := at + len;
    Suggestion(LittleEndian.BytesChars(bs[at..p]), LittleEndian.Value(bs[p..p + 8]),
               LittleEndian.Value(bs[p + 8..p + 12]), LittleEndian.Value(bs[p + 12..p + 16]),
               LittleEndian.Value(bs[p + 16..p + 24]))
  }

  /** One term record at `at`, and where it ends. */
  function ReadTerm(bs: seq<byte>, at: nat): (r: Option<(Suggestion, nat)>)
    ensures r.Some? ==> r.value.1 > at
  {
    match ReadUInt(bs, at, 2)
    case None => None
    case Some(len) =>
      if at + 2 + len + 24 > |bs| then None
      else Some((TermFields(bs, at + 2, len), at + 2 + len + 24))
  }

  /** `n` term records from `at`, in file order, and where they end. */
  function ReadTerms(bs: seq<byte>, at: nat, n: nat): (r: Option<(seq<Suggestion>, nat)>)
    ensures r.Some? ==> |r.value.0| == n
  {
    RecordStream.ReadMany(ReadTerm, bs, at, n)
  }

  /** One prefix record at `at`: the prefix, its suggestions, and where
      the record ends. */
  function ReadPrefix(bs: seq<byte>, at: nat): Option<(Entry, nat)>
  {
    match ReadUInt(bs, at, 2)
    case None => None
    case Some(len) =>
      match ReadUInt(bs, at + 2 + len, 2)
      case None => None
      case Some(count) =>
        match ReadTerms(bs, at + 2 + len + 2, count)
        case None => None
        case Some(terms) => Some(((LittleEndian.BytesChars(bs[at + 2..at + 2 + len]), terms.0), terms.1))
  }

  /** `n` prefix records from `at`, in file order, and where they end. */
  function ReadPrefixes(bs: seq<byte>, at: nat, n: nat): (r: Option<(seq<Entry>, nat)>)
    ensures r.Some? ==> |r.value.0| == n
  {
    RecordStream.ReadMany(ReadPrefix, bs, at, n)
  }

  /** The whole file: a u32 count, then that many prefix records. Bytes
      after the last record are not looked at. */
  function ReadIndexFile(bs: seq<byte>): Option<seq<Entry>> {
    match ReadUInt(bs, 0, 4)
    case None => None
    case Some(count) =>
      match ReadPrefixes(bs, 4, count)
      case None => None
      case Some(r) => Some(r.0)
  }

  /** `prefix_map[prefix] = suggestions` for each record in turn: a later
      record for the same prefix replaces an earlier one. */
  function InsertAll(m: map<string, seq<Suggestion>>, es: seq<Entry>): map<string, seq<Suggestion>>
    decreases |es|
  {
    if es == [] then m
    else InsertAll(m, es[..|es| - 1])[es[|es| - 1].0 := es[|es| - 1].1]
  }

  /** The term loop of `load`. */
  method ReadTermList(bs: seq<byte>, at: nat, n: nat) returns (ok: bool, terms: seq<Suggestion>, next: nat)
    ensures ok <==> ReadTerms(bs, at, n).Some?
    ensures ok ==> ReadTerms(bs, at, n) == Some((terms, next))
  {
    terms, next := [], at;
    var j := 0;
    while j < n
      invariant j <= n && ReadTerms(bs, at, j) == Some((terms, next))
    {
      var t := ReadTerm(bs, next);
      if t.None? {
        RecordStream.ManyStopped(ReadTerm, bs, at, j + 1, n);
        return false, terms, next;
      }
      terms, next := terms + [t.value.0], t.value.1;
      j := j + 1;
    }
    ok := true;
  }

  /** One prefix record of `load`. */
  method ReadPrefixEntry(bs: seq<byte>, at: nat) returns (ok: bool, e: Entry, next: nat)
    ensures ok <==> ReadPrefix(bs, at).Some?
    ensures ok ==> ReadPrefix(bs, at) == Some((e, next))
  {
    e, next := ([], []), at;
    if at + 2 > |bs| {
      return false, e, next;
    }
    var len := LittleEndian.Value(bs[at..at + 2]);
    assert ReadUInt(bs, at, 2) == Some(len);
    if at + 2 + len + 2 > |bs| {
      return false, e, next;
    }
    var prefix := LittleEndian.BytesChars(bs[at + 2..at + 2 + len]);
    var count := LittleEndian.Value(bs[at + 2 + len..at + 2 + len + 2]);
    assert ReadUInt(bs, at + 2 + len, 2) == Some(count);
    var terms;
    ok, terms, next := ReadTermList(bs, at + 2 + len + 2, count);
    e := (prefix, terms);
  }

  /** The prefix loop of `load`: the records of the file added to `m` in
      file order. */
  method LoadEntries(bs: seq<byte>, m: map<string, seq<Suggestion>>) returns (ok: bool, m': map<string, seq<Suggestion>>)
    ensures ok <==> ReadIndexFile(bs).Some?
    ensures ok ==> m' == InsertAll(m, ReadIndexFile(bs).value)
  {
    m' := m;
    if |bs| < 4 {
      return false, m';
    }
    var count := LittleEndian.Value(bs[0..4]);
    assert ReadUInt(bs, 0, 4) == Some(count);
    var pos := 4;
    ghost var es: seq<Entry> := [];
    var i := 0;
    while i < count
      invariant i <= count && ReadPrefixes(bs, 4, i) == Some((es, pos))
      invariant m' == InsertAll(m, es)
    {
      var found, e, next := ReadPrefixEntry(bs, pos);
      if !found {
        RecordStream.ManyStopped(ReadPrefix, bs, 4, i + 1, count);
        return false, m';
      }
      assert (es + [e])[..|es|] == es;
      m' := m'[e.0 := e.1];
      es := es + [e];
      pos := next;
      i := i + 1;
    }
    ok := true;
  }

  /** The prefix map of the server and whether a file has been loaded. */
  class AutocompleteIndex {
    var prefixMap: map<string, seq<Suggestion>>
    var loaded: bool

    constructor ()
      ensures prefixMap == map[] && !loaded
    {
      prefixMap := map[];
      loaded := false;
    }

    /** `load`, given the file's bytes or `None` when it cannot be opened.
        A file that ends inside a record fails and leaves the index as it
        was; otherwise its records are added to the map and the index
        counts as loaded. */
    method Load(file: Option<seq<byte>>) returns (ok: bool)
      modifies this
      ensures file.None? ==> !ok && unchanged(this)
      ensures file.Some? && ReadIndexFile(file.value).None? ==> !ok && unchanged(this)
      ensures file.Some? && ReadIndexFile(file.value).Some? ==>
        ok && loaded && prefixMap == InsertAll(old(prefixMap), ReadIndexFile(file.value).value)
    {
      if file.None? {
        return false;
      }
      var m;
      ok, m := LoadEntries(file.value, prefixMap);
      if ok {
        prefixMap := m;
        loaded := true;
      }
    }

    /** `get_suggestions`. A negative `max_results` would make the copy's
        end precede its start, so callers pass a count. */
    method GetSuggestions(query: string, maxResults: int) returns (r: seq<Suggestion>)
      requires maxResults >= 0
      ensures r == SuggestionsOf(prefixMap, loaded, query, maxResults)
    {
      if !loaded {
        return [];
      }
      var normalized := AutocompleteBuilder.LowerAll(query);
      if |normalized| < 2 {
        return [];
      }
      if |normalized| > MaxQuery {
        normalized := normalized[..MaxQuery];
      }
      if normalized !in prefixMap {
        return [];
      }
      var all := prefixMap[normalized];
      var n := if maxResults < |all| then maxResults else |all|;
      r := all[..n];
    }
  }

  // ---------------------------------------------------------------------
  // Answering a query

  /** The key a query is looked up under: lower case, cut to 15. */
  function Normalized(query: string): (k: string)
    ensures |k| <= MaxQuery && NoUpper(k)
  {
    var n := Lower(query);
    if |n| > MaxQuery then n[..MaxQuery] else n
  }

  /** What `get_suggestions` answers for a map and a loaded flag. */
  function SuggestionsOf(m: map<string, seq<Suggestion>>, loaded: bool, query: string, maxResults: int): seq<Suggestion>
    requires maxResults >= 0
  {
    if !loaded || |Lower(query)| < 2 then []
    else
      var key := Normalized(query);
      if key !in m then []
      else
        var all := m[key];
        all[..if maxResults < |all| then maxResults else |all|]
  }

  /** Nothing is suggested before a load, for a query of fewer than two
      characters, or for a prefix the map does not hold. */
  lemma NoSuggestions(m: map<string, seq<Suggestion>>, loaded: bool, query: string, maxResults: int)
    requires maxResults >= 0
    ensures SuggestionsOf(m, loaded, query, maxResults) == [] <==>
      !loaded || |query| < 2 || Normalized(query) !in m || maxResults == 0 || m[Normalized(query)] == []
  {
  }

  /** A loaded index answers with the first `min(max_results, n)` of the
      `n` suggestions stored under the query's key, in stored order. */
  lemma FirstSuggestions(m: map<string, seq<Suggestion>>, query: string, maxResults: int)
    requires maxResults >= 0 && |query| >= 2 && Normalized(query) in m
    ensures var all := m[Normalized(query)];
      var r := SuggestionsOf(m, true, query, maxResults);
      |r| == (if maxResults < |all| then maxResults else |all|) && IsPrefix(r, all)
  {
  }

  lemma {:induction false} LowerTwice(s: string)
    ensures Lower(Lower(s)) == Lower(s)
  {
    forall i | 0 <= i < |s| ensures Lower(Lower(s))[i] == Lower(s)[i] {
      assert !IsUpper(Lower(s)[i]);
    }
  }

  /** Lookup ignores ASCII case: a query and its lower-case form get the
      same answer. */
  lemma CaseInsensitive(m: map<string, seq<Suggestion>>, loaded: bool, query: string, maxResults: int)
    requires maxResults >= 0
    ensures SuggestionsOf(m, loaded, query, maxResults) == SuggestionsOf(m, loaded, Lower(query), maxResults)
  {
    LowerTwice(query);
  }

  /** Only the first 15 characters of a query matter. */
  lemma LongQueryCut(m: map<string, seq<Suggestion>>, loaded: bool, query: string, maxResults: int)
    requires maxResults >= 0 && |query| > MaxQuery
    ensures SuggestionsOf(m, loaded, query, maxResults) == SuggestionsOf(m, loaded, query[..MaxQuery], maxResults)
  {
    assert Lower(query[..MaxQuery]) == Lower(query)[..MaxQuery];
  }
}
