/** indexer.cpp, first pass: cleaned documents (already parsed JSON records)
    are given stable internal ids, their tokens are aggregated per term, and
    their postings are accumulated in blocks of `BLOCK_SIZE_DOCS` documents
    that are written out as text lines `term \t docid:pos,pos;docid:...`.
    The merge of those block files is in module IndexerMerge. */
module Indexer {
  import opened Common
  import opened VByte
  import opened Ordering
  import opened Decimal
  import Postings

  // ---------------------------------------------------------------------
  // vbyte_encode_uint32 and lower_copy

  /** Appends the code word of `v` to `out`, low group first. */
  method VByteEncodeUInt32(v: uint32, out: seq<byte>) returns (res: seq<byte>)
    ensures res == out + Encode(v)
  {
    res := out;
    var x: nat := v;
    while true
      invariant res + Encode(x) == out + Encode(v)
      decreases x
    {
      var b := x % 128;
      x := x / 128;
      if x == 0 {
        res := res + [b + 128];
        break;
      }
      res := res + [b];
    }
  }

  /** The appended bytes are one to five, only the last carries 0x80, and
      the decoder of backend/searcher.cpp reads `v` back from them and stops
      right after them, whatever follows. */
  lemma EncodedWordDecodes(out: seq<byte>, v: uint32, rest: seq<byte>)
    ensures 1 <= |Encode(v)| <= 5
    ensures forall i :: 0 <= i < |Encode(v)| ==> (IsStop(Encode(v)[i]) <==> i == |Encode(v)| - 1)
    ensures v == 0 ==> Encode(v) == [0x80]
    ensures var data := out + Encode(v) + rest;
            Postings.Read(Postings.CappedZero, data, |out|, |data|) == Some((v, |out| + |Encode(v)|))
  {
    EncodeShape(v);
    var data := out + Encode(v) + rest;
    assert data[|out|..|out| + |Encode(v)|] == Encode(v);
    Postings.ReadWord(Postings.CappedZero, data, |out|, |data|, v);
  }

  /** Lower-cases a copy of `s`, byte by byte. */
  method LowerCopy(s: string) returns (t: string)
    ensures t == Lower(s)
  {
    t := s;
    for i := 0 to |t|
      invariant |t| == |s|
      invariant forall k :: 0 <= k < i ==> t[k] == ToLower(s[k])
      invariant forall k :: i <= k < |t| ==> t[k] == s[k]
    {
      t := t[i := ToLower(t[i])];
    }
  }

  // ---------------------------------------------------------------------
  // get_or_assign_docint

  /** The two directions of the docid mapping and the next free internal id.
      `intToDocid` is indexed by internal id; slot 0 is never assigned. */
  class DocIdMap {
    var docidToInt: map<string, uint32>
    var intToDocid: seq<string>
    var nextInternal: uint32

    ghost predicate Valid()
      reads this
    {
      1 <= nextInternal
      && (if nextInternal == 1 then intToDocid == [] else |intToDocid| == nextInternal)
      && (forall o :: o in docidToInt ==>
            1 <= docidToInt[o] < nextInternal && intToDocid[docidToInt[o]] == o)
      && (forall i :: 1 <= i < nextInternal ==> intToDocid[i] in docidToInt && docidToInt[intToDocid[i]] == i)
    }

    constructor ()
      ensures Valid() && docidToInt == map[] && intToDocid == [] && nextInternal == 1
    {
      docidToInt := map[];
      intToDocid := [];
      nextInternal := 1;
    }

    /** The internal id of `orig`: the one it already has, or else the next
        counter value, which is then recorded in both directions. */
    method GetOrAssign(orig: string) returns (id: uint32)
      requires Valid() && nextInternal < U32 - 1
      modifies this
      ensures Valid() && id != 0
      ensures docidToInt == old(docidToInt)[orig := id] && orig in docidToInt && intToDocid[id] == orig
      ensures orig in old(docidToInt) ==>
                id == old(docidToInt[orig]) && nextInternal == old(nextInternal) && intToDocid == old(intToDocid)
      ensures orig !in old(docidToInt) ==> id == old(nextInternal) && nextInternal == old(nextInternal) + 1
    {
      if orig in docidToInt {
        id := docidToInt[orig];
        return;
      }
      id := nextInternal;
      nextInternal := nextInternal + 1;
      docidToInt := docidToInt[orig := id];
      if |intToDocid| <= id {
        intToDocid := intToDocid + seq(id + 1 - |intToDocid|, _ => "");
      }
      intToDocid := intToDocid[id := orig];
    }
  }

  // ---------------------------------------------------------------------
  // parse_cleaned_line, over records RapidJSON has already parsed

  /** A JSON value as the indexer tells it apart: a string, an integer, or
      anything else (a fraction, a boolean, null, an array, an object). */
  datatype Json = JString(str: string) | JInt(n: int) | JOther

  /** A token object with its "term" and "pos" members, when present. */
  datatype TokenJson = TokenObject(term: Option<string>, pos: Option<Json>) | TokenNotObject

  /** A field object with its "tokens" member, `None` when it is missing or
      not an array. */
  datatype FieldJson = FieldObject(tokens: Option<seq<TokenJson>>) | FieldNotObject

  /** One line of cleaned.jsonl: a parse error, or an object with its
      "docid" member and its "fields" member (`None` when missing or not an
      array). */
  datatype CleanedLine = ParseError | Record(docid: Option<Json>, fields: Option<seq<FieldJson>>)

  /** The docid as text: a string as is, an integer that fits `uint64_t` or
      `int64_t` in decimal; anything else rejects the line. */
  function DocIdText(j: Json): Option<string> {
    match j
    case JString(s) => Some(s)
    case JInt(n) =>
      if -0x8000_0000_0000_0000 <= n < 0x1_0000_0000_0000_0000 then Some(IntToDecimal(n)) else None
    case JOther => None
  }

  /** The position of a token: `uint32` as is, `uint64` and `int` cast to
      `uint32_t` (modulo 2^32), anything else 0. */
  function PosOf(j: Json): uint32 {
    match j
    case JInt(n) =>
      if 0 <= n < 0x1_0000_0000_0000_0000 || -0x8000_0000 <= n < 0 then n % U32 else 0
    case _ => 0
  }

  /** The (lower-cased term, position) a token contributes, if any. */
  function TokenEntry(t: TokenJson): seq<(string, uint32)> {
    if t.TokenObject? && t.term.Some? && t.pos.Some? then [(Lower(t.term.value), PosOf(t.pos.value))] else []
  }

  function TokenEntries(ts: seq<TokenJson>): seq<(string, uint32)> {
    if ts == [] then [] else TokenEntries(ts[..|ts| - 1]) + TokenEntry(ts[|ts| - 1])
  }

  function FieldEntries(f: FieldJson): seq<(string, uint32)> {
    if f.FieldObject? && f.tokens.Some? then TokenEntries(f.tokens.value) else []
  }

  /** Every (term, position) of a line's fields, in document order. */
  function LineEntries(fs: seq<FieldJson>): seq<(string, uint32)> {
    if fs == [] then [] else LineEntries(fs[..|fs| - 1]) + FieldEntries(fs[|fs| - 1])
  }

  /** The positions listed under each term, in order of appearance. */
  function Aggregate(es: seq<(string, uint32)>): map<string, seq<uint32>> {
    if es == [] then map[]
    else
      var m := Aggregate(es[..|es| - 1]);
      var (t, p) := es[|es| - 1];
      m[t := (if t in m then m[t] else []) + [p]]
  }

  /** The positions of the entries for term `t`, in order: the reference
      against which `Aggregate` is proved. */
  function PositionsOf(es: seq<(string, uint32)>, t: string): seq<uint32> {
    if es == [] then []
    else PositionsOf(es[..|es| - 1], t) + (if es[|es| - 1].0 == t then [es[|es| - 1].1] else [])
  }

  lemma {:induction false} AggregateIsPositionsOf(es: seq<(string, uint32)>)
    ensures forall t :: t in Aggregate(es) <==> PositionsOf(es, t) != []
    ensures forall t :: t in Aggregate(es) ==> Aggregate(es)[t] == PositionsOf(es, t)
  {
    if es != [] {
      AggregateIsPositionsOf(es[..|es| - 1]);
    }
  }

  /** What `parse_cleaned_line` produces: the docid text and, for every
      term, its positions sorted ascending. */
  function ParsedTerms(fs: Option<seq<FieldJson>>): map<string, seq<uint32>> {
    var agg := Aggregate(if fs.Some? then LineEntries(fs.value) else []);
    map t | t in agg :: Sort(agg[t])
  }

  function ParsedDocId(line: CleanedLine): Option<string> {
    if line.Record? && line.docid.Some? then DocIdText(line.docid.value) else None
  }

  method ParseCleanedLine(line: CleanedLine) returns (ok: bool, docid: string, terms: map<string, seq<uint32>>)
    ensures ok <==> ParsedDocId(line).Some?
    ensures ok ==> docid == ParsedDocId(line).value && terms == ParsedTerms(line.fields)
    ensures !ok ==> terms == map[]
  {
    docid, terms := "", map[];
    if line.ParseError? || line.docid.None? {
      return false, docid, terms;
    }
    var d := DocIdText(line.docid.value);
    if d.None? {
      return false, docid, terms;
    }
    docid := d.value;
    var agg: map<string, seq<uint32>> := map[];
    if line.fields.Some? {
      agg := AggregateFields(line.fields.value);
    }
    terms := SortEach(agg);
    ok := true;
  }

  /** The outer loop of `parse_cleaned_line`: every field's tokens added
      to the aggregate, field by field. */
  method AggregateFields(fs: seq<FieldJson>) returns (agg: map<string, seq<uint32>>)
    ensures agg == Aggregate(LineEntries(fs))
  {
    agg := map[];
    for i := 0 to |fs|
      invariant agg == Aggregate(LineEntries(fs[..i]))
    {
      LineEntriesSnoc(fs, i);
      if fs[i].FieldObject? && fs[i].tokens.Some? {
        agg := AggregateTokens(LineEntries(fs[..i]), agg, fs[i].tokens.value);
      } else {
        assert LineEntries(fs[..i + 1]) == LineEntries(fs[..i]);
      }
    }
    assert fs[..|fs|] == fs;
  }

  /** The inner loop of `parse_cleaned_line`: one field's tokens added to
      the aggregate. */
  method AggregateTokens(ghost es: seq<(string, uint32)>, agg0: map<string, seq<uint32>>, ts: seq<TokenJson>)
    returns (agg: map<string, seq<uint32>>)
    requires agg0 == Aggregate(es)
    ensures agg == Aggregate(es + TokenEntries(ts))
  {
    agg := agg0;
    assert es + TokenEntries(ts[..0]) == es;
    for j := 0 to |ts|
      invariant agg == Aggregate(es + TokenEntries(ts[..j]))
    {
      TokenEntriesSnoc(ts, j);
      ghost var before := es + TokenEntries(ts[..j]);
      assert es + TokenEntries(ts[..j + 1]) == before + TokenEntry(ts[j]);
      var tk := ts[j];
      if tk.TokenObject? && tk.term.Some? && tk.pos.Some? {
        var term := LowerCopy(tk.term.value);
        var pos := PosOf(tk.pos.value);
        AggregateSnoc(before, term, pos);
        agg := agg[term := (if term in agg then agg[term] else []) + [pos]];
      } else {
        assert before + TokenEntry(ts[j]) == before;
      }
    }
    assert ts[..|ts|] == ts;
  }

  lemma TokenEntriesSnoc(ts: seq<TokenJson>, j: nat)
    requires j < |ts|
    ensures TokenEntries(ts[..j + 1]) == TokenEntries(ts[..j]) + TokenEntry(ts[j])
  {
    assert ts[..j + 1][..j] == ts[..j];
  }

  lemma LineEntriesSnoc(fs: seq<FieldJson>, i: nat)
    requires i < |fs|
    ensures LineEntries(fs[..i + 1]) == LineEntries(fs[..i]) + FieldEntries(fs[i])
  {
    assert fs[..i + 1][..i] == fs[..i];
  }

  lemma AggregateSnoc(es: seq<(string, uint32)>, t: string, p: uint32)
    ensures Aggregate(es + [(t, p)]) == Aggregate(es)[t := (if t in Aggregate(es) then Aggregate(es)[t] else []) + [p]]
  {
    assert (es + [(t, p)])[..|es|] == es;
  }

  /** The final loop of `parse_cleaned_line`: every position list sorted. */
  method SortEach(agg: map<string, seq<uint32>>) returns (terms: map<string, seq<uint32>>)
    ensures terms == map t | t in agg :: Sort(agg[t])
  {
    terms := map[];
    var keys := agg.Keys;
    while keys != {}
      invariant keys <= agg.Keys
      invariant terms == map t | t in agg.Keys - keys :: Sort(agg[t])
      decreases keys
    {
      var t :| t in keys;
      SortedOneMore(agg, keys, t);
      terms := terms[t := Sort(agg[t])];
      keys := keys - {t};
    }
  }

  /** Sorting the list of one more term of `agg`. */
  lemma SortedOneMore(agg: map<string, seq<uint32>>, keys: set<string>, t: string)
    requires keys <= agg.Keys && t in keys
    ensures (map u | u in agg.Keys - keys :: Sort(agg[u]))[t := Sort(agg[t])]
            == map u | u in agg.Keys - (keys - {t}) :: Sort(agg[u])
  {
    assert agg.Keys - (keys - {t}) == (agg.Keys - keys) + {t};
  }

  lemma {:induction false} TokenEntriesLower(ts: seq<TokenJson>)
    ensures forall k :: 0 <= k < |TokenEntries(ts)| ==> NoUpper(TokenEntries(ts)[k].0)
  {
    if ts != [] {
      TokenEntriesLower(ts[..|ts| - 1]);
    }
  }

  lemma {:induction false} LineEntriesLower(fs: seq<FieldJson>)
    ensures forall k :: 0 <= k < |LineEntries(fs)| ==> NoUpper(LineEntries(fs)[k].0)
  {
    if fs != [] {
      LineEntriesLower(fs[..|fs| - 1]);
      if fs[|fs| - 1].FieldObject? && fs[|fs| - 1].tokens.Some? {
        TokenEntriesLower(fs[|fs| - 1].tokens.value);
      }
    }
  }

  lemma {:induction false} PositionsOfTerms(es: seq<(string, uint32)>, t: string)
    requires PositionsOf(es, t) != []
    ensures exists k :: 0 <= k < |es| && es[k].0 == t
  {
    if PositionsOf(es[..|es| - 1], t) != [] {
      PositionsOfTerms(es[..|es| - 1], t);
      var k :| 0 <= k < |es| - 1 && es[..|es| - 1][k].0 == t;
      assert es[k].0 == t;
    } else {
      assert es[|es| - 1].0 == t;
    }
  }

  /** Each term of a parsed line is lower-case and listed once, with the
      positions of exactly the tokens that spell it (in any case), sorted
      ascending. */
  lemma ParsedTermsSpec(fs: Option<seq<FieldJson>>, t: string)
    ensures var es := if fs.Some? then LineEntries(fs.value) else [];
            (t in ParsedTerms(fs) <==> PositionsOf(es, t) != [])
            && (t in ParsedTerms(fs) ==>
                  NoUpper(t) && Ascending(ParsedTerms(fs)[t])
                  && multiset(ParsedTerms(fs)[t]) == multiset(PositionsOf(es, t)))
  {
    var es := if fs.Some? then LineEntries(fs.value) else [];
    AggregateIsPositionsOf(es);
    if t in ParsedTerms(fs) {
      if fs.Some? {
        LineEntriesLower(fs.value);
      }
      PositionsOfTerms(es, t);
    }
  }

  // ---------------------------------------------------------------------
  // Block accumulation (the loop body of main)

  /** A posting of a block: a document and the positions of the term in it. */
  datatype BlockPosting = BlockPosting(docid: uint32, positions: seq<uint32>)

  /** The postings of one term in a block: a repeated document extends the
      last posting when it is the same document, otherwise a posting is
      appended. */
  function AddPosting(pl: seq<BlockPosting>, doc: uint32, positions: seq<uint32>): seq<BlockPosting> {
    if pl == [] || pl[|pl| - 1].docid != doc then pl + [BlockPosting(doc, positions)]
    else pl[..|pl| - 1] + [BlockPosting(doc, pl[|pl| - 1].positions + positions)]
  }

  /** No two neighbouring postings of a list name the same document. */
  predicate NoAdjacentRepeat(pl: seq<BlockPosting>) {
    forall i :: 0 <= i < |pl| - 1 ==> pl[i].docid != pl[i + 1].docid
  }

  /** All positions a list records for document `d`, in list order. */
  function DocPositions(pl: seq<BlockPosting>, d: uint32): seq<uint32> {
    if pl == [] then []
    else DocPositions(pl[..|pl| - 1], d) + (if pl[|pl| - 1].docid == d then pl[|pl| - 1].positions else [])
  }

  /** Adding a document keeps neighbours distinct, loses nothing, and adds
      exactly the document's positions, after those already recorded. */
  lemma AddPostingSpec(pl: seq<BlockPosting>, doc: uint32, positions: seq<uint32>, d: uint32)
    requires NoAdjacentRepeat(pl)
    ensures NoAdjacentRepeat(AddPosting(pl, doc, positions))
    ensures DocPositions(AddPosting(pl, doc, positions), d)
            == DocPositions(pl, d) + (if d == doc then positions else [])
    ensures |pl| <= |AddPosting(pl, doc, positions)| <= |pl| + 1
  {
    var r := AddPosting(pl, doc, positions);
    if pl != [] && pl[|pl| - 1].docid == doc {
      var init := pl[..|pl| - 1];
      assert r[..|r| - 1] == init;
      assert pl[..|pl| - 1] == init;
    } else {
      assert r[..|r| - 1] == pl;
    }
  }

  type BlockDict = map<string, seq<BlockPosting>>

  predicate BlockInvariant(dict: BlockDict) {
    forall t :: t in dict ==> dict[t] != [] && NoAdjacentRepeat(dict[t])
  }

  /** The dictionary after adding one document's terms. */
  function AddDocumentSpec(dict: BlockDict, doc: uint32, terms: map<string, seq<uint32>>): BlockDict {
    map t | t in dict.Keys + terms.Keys ::
      if t in terms then AddPosting(if t in dict then dict[t] else [], doc, terms[t]) else dict[t]
  }

  method AddDocument(dict: BlockDict, doc: uint32, terms: map<string, seq<uint32>>) returns (d: BlockDict)
    ensures d == AddDocumentSpec(dict, doc, terms)
  {
    d := dict;
    var todo := terms.Keys;
    while todo != {}
      invariant todo <= terms.Keys
      invariant d.Keys == dict.Keys + (terms.Keys - todo)
      invariant forall t :: t in d ==>
        d[t] == if t in terms && t !in todo then AddPosting(if t in dict then dict[t] else [], doc, terms[t]) else dict[t]
      decreases todo
    {
      var t :| t in todo;
      var pl := if t in d then d[t] else [];
      d := d[t := AddPosting(pl, doc, terms[t])];
      todo := todo - {t};
    }
    assert d.Keys == AddDocumentSpec(dict, doc, terms).Keys;
  }

  lemma AddDocumentKeepsInvariant(dict: BlockDict, doc: uint32, terms: map<string, seq<uint32>>)
    requires BlockInvariant(dict)
    ensures BlockInvariant(AddDocumentSpec(dict, doc, terms))
    ensures AddDocumentSpec(dict, doc, terms).Keys == dict.Keys + terms.Keys
  {
    var r := AddDocumentSpec(dict, doc, terms);
    forall t | t in r ensures r[t] != [] && NoAdjacentRepeat(r[t]) {
      if t in terms {
        var pl := if t in dict then dict[t] else [];
        AddPostingSpec(pl, doc, terms[t], doc);
      }
    }
  }

  // ---------------------------------------------------------------------
  // main: documents into blocks

  /** A flushed block: its dictionary, its forward map (original docid to
      terms) and the number of documents counted into it. */
  datatype Block = Block(dict: BlockDict, fwd: map<string, map<string, seq<uint32>>>, docs: nat)

  /** Lines that parse, i.e. documents that are indexed. */
  function ParsedCount(lines: seq<CleanedLine>): nat {
    if lines == [] then 0
    else ParsedCount(lines[..|lines| - 1]) + (if ParsedDocId(lines[|lines| - 1]).Some? then 1 else 0)
  }

  function BlockDocs(blocks: seq<Block>): nat {
    if blocks == [] then 0 else BlockDocs(blocks[..|blocks| - 1]) + blocks[|blocks| - 1].docs
  }

  lemma BlockDocsSnoc(blocks: seq<Block>, b: Block)
    ensures BlockDocs(blocks + [b]) == BlockDocs(blocks) + b.docs
  {
    assert (blocks + [b])[..|blocks|] == blocks;
  }

  /** The size at which a block is flushed: `docs_in_block >= BLOCK_SIZE_DOCS`
      is tested after a document is counted, so a size of 0 acts as 1. */
  function FlushAt(blockSize: nat): nat { if blockSize == 0 then 1 else blockSize }

  /** Runs the first pass over the input lines: malformed lines are skipped
      without counting, a block is flushed as soon as it holds
      `blockSize` documents, and what is left is flushed at the end. The
      blocks are those the chunks of `lines` cut at `cuts` build with the
      ids the pass gave (lines past the last cut are all malformed); the
      parsed docids, and no others, got new ids, and no earlier id changed. */
  method BuildBlocks(lines: seq<CleanedLine>, blockSize: nat, ids: DocIdMap) returns (blocks: seq<Block>, ghost cuts: seq<nat>)
    requires ids.Valid() && ids.nextInternal + |lines| < U32 - 1
    modifies ids
    ensures ids.Valid()
    ensures Chunked(blocks, blockSize)
    ensures BlockDocs(blocks) == ParsedCount(lines)
    ensures Extends(old(ids.docidToInt), ids.docidToInt)
    ensures ids.docidToInt.Keys == old(ids.docidToInt.Keys) + ParsedOrigs(lines)
    ensures Built(blocks, cuts, lines, ids.docidToInt)
    ensures ParsedCount(lines[cuts[|blocks|]..]) == 0
  {
    blocks := [];
    cuts := [0];
    var cur := Block(map[], map[], 0);
    ghost var m0 := ids.docidToInt;
    PassStart(lines, blockSize, m0);
    for n := 0 to |lines|
      invariant ids.Valid() && ids.nextInternal <= old(ids.nextInternal) + n
      invariant PassState(lines, n, blockSize, m0, ids.docidToInt, blocks, cuts, cur)
    {
      blocks, cuts, cur := PassLine(lines, n, blockSize, m0, ids, blocks, cuts, cur);
    }
    if cur.dict != map[] || cur.fwd != map[] {
      PassEndFlush(lines, blockSize, m0, ids.docidToInt, blocks, cuts, cur);
      blocks := blocks + [cur];
      cuts := cuts + [|lines|];
    } else {
      PassEndEmpty(lines, blockSize, m0, ids.docidToInt, blocks, cuts, cur);
    }
  }

  /** Line `n` of the pass, indexed into the open block `cur`. */
  method IndexLine(lines: seq<CleanedLine>, n: nat, blockSize: nat, ghost m0: map<string, uint32>, ids: DocIdMap,
                   ghost blocks: seq<Block>, ghost cuts: seq<nat>, cur: Block) returns (next: Block, parsed: bool)
    requires n < |lines| && ids.Valid() && ids.nextInternal < U32 - 1
    requires PassState(lines, n, blockSize, m0, ids.docidToInt, blocks, cuts, cur)
    modifies ids
    ensures ids.Valid() && ids.nextInternal <= old(ids.nextInternal) + 1
    ensures Advanced(lines, n + 1, blockSize, m0, ids.docidToInt, blocks, cuts, next)
    ensures if parsed && next.docs >= blockSize then next.docs == FlushAt(blockSize) else next.docs < FlushAt(blockSize)
  {
    ghost var before := ids.docidToInt;
    next, parsed := IndexDocument(cur, lines[n], ids);
    PassAdvance(lines, n, blockSize, m0, before, ids.docidToInt, blocks, cuts, cur, next);
  }

  /** One turn of the pass: line `n` indexed into the open block, which is
      flushed when it is full. */
  method PassLine(lines: seq<CleanedLine>, n: nat, blockSize: nat, ghost m0: map<string, uint32>, ids: DocIdMap,
                  blocks: seq<Block>, ghost cuts: seq<nat>, cur: Block)
    returns (blocks': seq<Block>, ghost cuts': seq<nat>, cur': Block)
    requires n < |lines| && ids.Valid() && ids.nextInternal < U32 - 1
    requires PassState(lines, n, blockSize, m0, ids.docidToInt, blocks, cuts, cur)
    modifies ids
    ensures ids.Valid() && ids.nextInternal <= old(ids.nextInternal) + 1
    ensures PassState(lines, n + 1, blockSize, m0, ids.docidToInt, blocks', cuts', cur')
  {
    var next, parsed := IndexLine(lines, n, blockSize, m0, ids, blocks, cuts, cur);
    if parsed && next.docs >= blockSize {
      PassFlush(lines, n + 1, blockSize, m0, ids.docidToInt, blocks, cuts, next);
      blocks', cuts', cur' := blocks + [next], cuts + [n + 1], Block(map[], map[], 0);
    } else {
      PassKeep(lines, n + 1, blockSize, m0, ids.docidToInt, blocks, cuts, next);
      blocks', cuts', cur' := blocks, cuts, next;
    }
  }

  /** `cuts` splits `lines[..cuts[count]]` into `count` consecutive chunks;
      no cut lies past `end`. */
  predicate Cuts(cuts: seq<nat>, count: nat, end: nat) {
    |cuts| == count + 1 && cuts[0] == 0 && cuts[count] <= end
    && (forall b :: 0 <= b < count ==> cuts[b] <= cuts[b + 1])
    && forall b :: 0 <= b <= count ==> cuts[b] <= cuts[count]
  }

  /** Block `b` is what lines `cuts[b]` to `cuts[b + 1]` build with the ids
      of `ids`. */
  ghost predicate Built(blocks: seq<Block>, cuts: seq<nat>, lines: seq<CleanedLine>, ids: map<string, uint32>) {
    Cuts(cuts, |blocks|, |lines|)
    && forall b :: 0 <= b < |blocks| ==> blocks[b] == BlockOfLines(lines[cuts[b]..cuts[b + 1]], ids)
  }

  /** What the pass knows after `n` lines, with ids `m0` before it and `m`
      now: the open block and the full blocks keep their invariants and
      count the parsed lines; the docids of those lines, and no others, got
      ids, and no earlier id changed; every flushed block, and the open
      one, is what its lines build. */
  ghost predicate PassState(lines: seq<CleanedLine>, n: nat, blockSize: nat, m0: map<string, uint32>, m: map<string, uint32>,
                            blocks: seq<Block>, cuts: seq<nat>, cur: Block)
  {
    n <= |lines|
    && OpenBlock(cur) && cur.docs < FlushAt(blockSize)
    && FullBlocks(blocks, blockSize)
    && BlockDocs(blocks) + cur.docs == ParsedCount(lines[..n])
    && Extends(m0, m)
    && m.Keys == m0.Keys + ParsedOrigs(lines[..n])
    && (forall k :: 0 <= k < n && ParsedDocId(lines[k]).Some? ==> ParsedDocId(lines[k]).value in m)
    && Built(blocks, cuts, lines, m) && cuts[|blocks|] <= n
    && cur == BlockOfLines(lines[cuts[|blocks|]..n], m)
  }

  lemma PassStart(lines: seq<CleanedLine>, blockSize: nat, m: map<string, uint32>)
    ensures PassState(lines, 0, blockSize, m, m, [], [0], Block(map[], map[], 0))
  {
    assert lines[..0] == [];
    assert lines[0..0] == [];
  }

  /** What holds once line `n - 1` has been added to the open block
      `next`, before the pass decides whether to flush it. */
  ghost predicate Advanced(lines: seq<CleanedLine>, n: nat, blockSize: nat, m0: map<string, uint32>, m: map<string, uint32>,
                           blocks: seq<Block>, cuts: seq<nat>, next: Block)
  {
    n <= |lines|
    && OpenBlock(next) && next.docs <= FlushAt(blockSize)
    && FullBlocks(blocks, blockSize)
    && BlockDocs(blocks) + next.docs == ParsedCount(lines[..n])
    && Extends(m0, m)
    && m.Keys == m0.Keys + ParsedOrigs(lines[..n])
    && (forall k :: 0 <= k < n && ParsedDocId(lines[k]).Some? ==> ParsedDocId(lines[k]).value in m)
    && Built(blocks, cuts, lines, m) && cuts[|blocks|] <= n
    && next == BlockOfLines(lines[cuts[|blocks|]..n], m)
  }

  /** After line `n`, with `next` not full: the pass goes on with it open. */
  lemma PassKeep(lines: seq<CleanedLine>, n: nat, blockSize: nat, m0: map<string, uint32>, m: map<string, uint32>,
                 blocks: seq<Block>, cuts: seq<nat>, next: Block)
    requires Advanced(lines, n, blockSize, m0, m, blocks, cuts, next) && next.docs < FlushAt(blockSize)
    ensures PassState(lines, n, blockSize, m0, m, blocks, cuts, next)
  {
  }

  /** After line `n`, with `next` full: it is flushed as the chunk that
      ends there, and an empty block opens the next one. */
  lemma PassFlush(lines: seq<CleanedLine>, n: nat, blockSize: nat, m0: map<string, uint32>, m: map<string, uint32>,
                  blocks: seq<Block>, cuts: seq<nat>, next: Block)
    requires Advanced(lines, n, blockSize, m0, m, blocks, cuts, next) && next.docs == FlushAt(blockSize)
    ensures PassState(lines, n, blockSize, m0, m, blocks + [next], cuts + [n], Block(map[], map[], 0))
  {
    BuiltSnoc(blocks, cuts, lines, m, n);
    FullBlocksSnoc(blocks, next, blockSize);
    assert lines[n..n] == [];
  }

  /** Line `n` added to the open block `cur` as `next`, its docid given an
      id (`m1` to `m2`): counts, ids and the blocks built so far carry over
      to `n + 1` lines. */
  lemma PassAdvance(lines: seq<CleanedLine>, n: nat, blockSize: nat, m0: map<string, uint32>,
                    m1: map<string, uint32>, m2: map<string, uint32>,
                    blocks: seq<Block>, cuts: seq<nat>, cur: Block, next: Block)
    requires n < |lines| && PassState(lines, n, blockSize, m0, m1, blocks, cuts, cur)
    requires Extends(m1, m2) && m2.Keys == m1.Keys + LineOrigs(lines[n])
    requires next == AddLine(cur, lines[n], m2) && OpenBlock(next)
    requires next.docs == cur.docs + (if ParsedDocId(lines[n]).Some? then 1 else 0)
    ensures Advanced(lines, n + 1, blockSize, m0, m2, blocks, cuts, next)
    ensures if ParsedDocId(lines[n]).Some? && next.docs >= blockSize then next.docs == FlushAt(blockSize)
            else next.docs < FlushAt(blockSize)
  {
    ParsedCountSnoc(lines, n);
    ParsedOrigsSnoc(lines, n);
    BuiltFrame(blocks, cuts, lines, n, m1, m2);
    OpenStep(lines, cuts[|blocks|], n, m1, m2);
    forall k | 0 <= k < n + 1 && ParsedDocId(lines[k]).Some? ensures ParsedDocId(lines[k]).value in m2 {
      if k == n {
        assert ParsedDocId(lines[k]).value in LineOrigs(lines[n]);
      }
    }
  }

  /** The end of the pass, with a block left open: it is flushed as the
      chunk that runs to the last line. */
  lemma PassEndFlush(lines: seq<CleanedLine>, blockSize: nat, m0: map<string, uint32>, m: map<string, uint32>,
                     blocks: seq<Block>, cuts: seq<nat>, cur: Block)
    requires PassState(lines, |lines|, blockSize, m0, m, blocks, cuts, cur)
    requires cur.dict != map[] || cur.fwd != map[]
    ensures Chunked(blocks + [cur], blockSize) && BlockDocs(blocks + [cur]) == ParsedCount(lines)
    ensures m.Keys == m0.Keys + ParsedOrigs(lines)
    ensures Built(blocks + [cur], cuts + [|lines|], lines, m)
    ensures ParsedCount(lines[|lines|..]) == 0
  {
    assert lines[..|lines|] == lines;
    LastBlock(blocks, cur, blockSize);
    BuiltSnoc(blocks, cuts, lines, m, |lines|);
    assert lines[|lines|..] == [];
  }

  /** The end of the pass, with nothing open: the lines after the last cut
      are all malformed. */
  lemma PassEndEmpty(lines: seq<CleanedLine>, blockSize: nat, m0: map<string, uint32>, m: map<string, uint32>,
                     blocks: seq<Block>, cuts: seq<nat>, cur: Block)
    requires PassState(lines, |lines|, blockSize, m0, m, blocks, cuts, cur)
    requires cur.dict == map[] && cur.fwd == map[]
    ensures Chunked(blocks, blockSize) && BlockDocs(blocks) == ParsedCount(lines)
    ensures m.Keys == m0.Keys + ParsedOrigs(lines)
    ensures ParsedCount(lines[cuts[|blocks|]..]) == 0
  {
    assert lines[..|lines|] == lines;
    FullChunked(blocks, blockSize);
    BlockOfLinesSpec(lines[cuts[|blocks|]..], m, "", 0);
  }

  /** A chunk from the last cut to `c` adds the block it builds. */
  lemma BuiltSnoc(blocks: seq<Block>, cuts: seq<nat>, lines: seq<CleanedLine>, m: map<string, uint32>, c: nat)
    requires Built(blocks, cuts, lines, m) && cuts[|blocks|] <= c <= |lines|
    ensures Built(blocks + [BlockOfLines(lines[cuts[|blocks|]..c], m)], cuts + [c], lines, m)
  {
    var bs := blocks + [BlockOfLines(lines[cuts[|blocks|]..c], m)];
    var cs := cuts + [c];
    forall b | 0 <= b < |bs| ensures bs[b] == BlockOfLines(lines[cs[b]..cs[b + 1]], m) {
      if b < |blocks| {
        assert bs[b] == blocks[b] && cs[b] == cuts[b] && cs[b + 1] == cuts[b + 1];
      }
    }
  }

  /** New ids for docids past line `n` change none of the blocks built
      from the lines before it. */
  lemma BuiltFrame(blocks: seq<Block>, cuts: seq<nat>, lines: seq<CleanedLine>, n: nat,
                   m1: map<string, uint32>, m2: map<string, uint32>)
    requires Built(blocks, cuts, lines, m1) && cuts[|blocks|] <= n <= |lines| && Extends(m1, m2)
    requires forall k :: 0 <= k < n && ParsedDocId(lines[k]).Some? ==> ParsedDocId(lines[k]).value in m1
    ensures Built(blocks, cuts, lines, m2)
  {
    forall b | 0 <= b < |blocks| ensures blocks[b] == BlockOfLines(lines[cuts[b]..cuts[b + 1]], m2) {
      KnownSlice(lines, cuts[b], cuts[b + 1], m1);
      BlockOfLinesFrame(lines[cuts[b]..cuts[b + 1]], m1, m2);
    }
  }

  lemma ParsedOrigsSnoc(lines: seq<CleanedLine>, n: nat)
    requires n < |lines|
    ensures ParsedOrigs(lines[..n + 1]) == ParsedOrigs(lines[..n]) + LineOrigs(lines[n])
  {
    assert lines[..n + 1][..n] == lines[..n];
  }

  /** The open block, lines `c` to `n`, with line `n` added. */
  lemma OpenStep(lines: seq<CleanedLine>, c: nat, n: nat, m1: map<string, uint32>, m2: map<string, uint32>)
    requires c <= n < |lines| && Extends(m1, m2)
    requires forall k :: 0 <= k < n && ParsedDocId(lines[k]).Some? ==> ParsedDocId(lines[k]).value in m1
    ensures BlockOfLines(lines[c..n + 1], m2) == AddLine(BlockOfLines(lines[c..n], m1), lines[n], m2)
  {
    KnownSlice(lines, c, n, m1);
    BlockOfLinesFrame(lines[c..n], m1, m2);
    var ls := lines[c..n + 1];
    assert ls[..|ls| - 1] == lines[c..n];
    assert ls[|ls| - 1] == lines[n];
  }

  /** Every block holds at least one and at most a block's worth of
      documents, only the last one may hold fewer, and each dictionary keeps
      the block invariant. */
  predicate Chunked(blocks: seq<Block>, blockSize: nat) {
    && (forall i :: 0 <= i < |blocks| - 1 ==> blocks[i].docs == FlushAt(blockSize))
    && (forall i :: 0 <= i < |blocks| ==> 1 <= blocks[i].docs <= FlushAt(blockSize))
    && (forall i :: 0 <= i < |blocks| ==> BlockInvariant(blocks[i].dict))
  }

  lemma FullChunked(blocks: seq<Block>, blockSize: nat)
    requires FullBlocks(blocks, blockSize)
    ensures Chunked(blocks, blockSize)
  {
  }

  lemma LastBlock(blocks: seq<Block>, b: Block, blockSize: nat)
    requires FullBlocks(blocks, blockSize) && OpenBlock(b) && b.docs < FlushAt(blockSize)
    requires b.dict != map[] || b.fwd != map[]
    ensures Chunked(blocks + [b], blockSize)
    ensures BlockDocs(blocks + [b]) == BlockDocs(blocks) + b.docs
  {
    BlockDocsSnoc(blocks, b);
    var bs := blocks + [b];
    forall i | 0 <= i < |bs| ensures 1 <= bs[i].docs <= FlushAt(blockSize) && BlockInvariant(bs[i].dict) {
      if i < |blocks| {
        assert bs[i] == blocks[i];
      }
    }
    forall i | 0 <= i < |bs| - 1 ensures bs[i].docs == FlushAt(blockSize) {
      assert bs[i] == blocks[i];
    }
  }

  lemma ParsedCountSnoc(lines: seq<CleanedLine>, n: nat)
    requires n < |lines|
    ensures ParsedCount(lines[..n + 1]) == ParsedCount(lines[..n]) + (if ParsedDocId(lines[n]).Some? then 1 else 0)
  {
    assert lines[..n + 1][..n] == lines[..n];
  }

  /** Blocks flushed because they reached the block size. */
  predicate FullBlocks(blocks: seq<Block>, blockSize: nat) {
    forall i :: 0 <= i < |blocks| ==> blocks[i].docs == FlushAt(blockSize) && BlockInvariant(blocks[i].dict)
  }

  lemma FullBlocksSnoc(blocks: seq<Block>, b: Block, blockSize: nat)
    ensures BlockDocs(blocks + [b]) == BlockDocs(blocks) + b.docs
    ensures FullBlocks(blocks, blockSize) && b.docs == FlushAt(blockSize) && BlockInvariant(b.dict)
            ==> FullBlocks(blocks + [b], blockSize)
  {
    BlockDocsSnoc(blocks, b);
  }

  /** The block being filled: its dictionary keeps its invariant, and it
      is empty exactly when no document has been counted into it. */
  predicate OpenBlock(b: Block) {
    BlockInvariant(b.dict) && (b.docs == 0 <==> b.fwd == map[]) && (b.docs == 0 ==> b.dict == map[])
  }

  /** One input line: parsed, given its internal id and added to the open
      block, or skipped when malformed, leaving block and ids as they were.
      A docid already seen keeps its id; a new one gets the next counter
      value. */
  method IndexDocument(cur: Block, line: CleanedLine, ids: DocIdMap) returns (next: Block, parsed: bool)
    requires ids.Valid() && ids.nextInternal < U32 - 1 && OpenBlock(cur)
    modifies ids
    ensures ids.Valid() && ids.nextInternal <= old(ids.nextInternal) + 1
    ensures parsed == ParsedDocId(line).Some?
    ensures !parsed ==> unchanged(ids)
    ensures Extends(old(ids.docidToInt), ids.docidToInt)
    ensures ids.docidToInt.Keys == old(ids.docidToInt.Keys) + LineOrigs(line)
    ensures parsed && ParsedDocId(line).value !in old(ids.docidToInt) ==>
              ids.docidToInt[ParsedDocId(line).value] == old(ids.nextInternal)
    ensures next == AddLine(cur, line, ids.docidToInt)
    ensures OpenBlock(next) && next.docs == cur.docs + (if parsed then 1 else 0)
  {
    var ok, orig, terms := ParseCleanedLine(line);
    if !ok {
      return cur, false;
    }
    var docInt := ids.GetOrAssign(orig);
    AddDocumentKeepsInvariant(cur.dict, docInt, terms);
    var dict := AddDocument(cur.dict, docInt, terms);
    next := Block(dict, cur.fwd[orig := terms], cur.docs + 1);
    assert orig in next.fwd;
    parsed := true;
  }

  /** `m2` keeps every id `m1` has given. */
  predicate Extends(m1: map<string, uint32>, m2: map<string, uint32>) {
    forall o :: o in m1 ==> o in m2 && m2[o] == m1[o]
  }

  /** The docid of a line, as a set: empty when the line is malformed. */
  function LineOrigs(line: CleanedLine): set<string> {
    if ParsedDocId(line).Some? then {ParsedDocId(line).value} else {}
  }

  /** The docids of the lines that parse. */
  function ParsedOrigs(lines: seq<CleanedLine>): set<string> {
    if lines == [] then {} else ParsedOrigs(lines[..|lines| - 1]) + LineOrigs(lines[|lines| - 1])
  }

  /** The id `ids` gives a docid (0, never given, when it has none). */
  function IdOf(ids: map<string, uint32>, orig: string): uint32 {
    if orig in ids then ids[orig] else 0
  }

  /** A block after one more line, with the ids of `ids`: the line's terms
      are added to the dictionary under its docid's id and stored in the
      forward map under the docid itself, and the line is counted; a
      malformed line changes nothing. */
  function AddLine(b: Block, line: CleanedLine, ids: map<string, uint32>): Block {
    match ParsedDocId(line)
    case None => b
    case Some(orig) =>
      Block(AddDocumentSpec(b.dict, IdOf(ids, orig), ParsedTerms(line.fields)),
            b.fwd[orig := ParsedTerms(line.fields)], b.docs + 1)
  }

  /** The block built from `lines` alone, starting empty. */
  function BlockOfLines(lines: seq<CleanedLine>, ids: map<string, uint32>): Block {
    if lines == [] then Block(map[], map[], 0)
    else AddLine(BlockOfLines(lines[..|lines| - 1], ids), lines[|lines| - 1], ids)
  }

  /** Every parsed line's docid has an id in `ids`. */
  predicate Known(lines: seq<CleanedLine>, ids: map<string, uint32>) {
    forall k :: 0 <= k < |lines| && ParsedDocId(lines[k]).Some? ==> ParsedDocId(lines[k]).value in ids
  }

  /** What a block holds depends only on the ids of its own docids. */
  lemma {:induction false} BlockOfLinesFrame(lines: seq<CleanedLine>, m1: map<string, uint32>, m2: map<string, uint32>)
    requires Known(lines, m1) && Extends(m1, m2)
    ensures BlockOfLines(lines, m1) == BlockOfLines(lines, m2)
  {
    if lines != [] {
      var init := lines[..|lines| - 1];
      assert Known(init, m1) by {
        forall k | 0 <= k < |init| ensures init[k] == lines[k] { }
      }
      BlockOfLinesFrame(init, m1, m2);
    }
  }

  /** A slice of lines whose docids all have ids has them too. */
  lemma KnownSlice(lines: seq<CleanedLine>, i: nat, j: nat, ids: map<string, uint32>)
    requires i <= j <= |lines|
    requires forall k :: 0 <= k < j && ParsedDocId(lines[k]).Some? ==> ParsedDocId(lines[k]).value in ids
    ensures Known(lines[i..j], ids)
  {
    forall k | 0 <= k < j - i ensures lines[i..j][k] == lines[i + k] { }
  }

  /** Where a line's positions end up: the positions that the lines of
      `lines` with id `d` give term `t`, line after line. */
  function LinePositions(lines: seq<CleanedLine>, ids: map<string, uint32>, t: string, d: uint32): seq<uint32> {
    if lines == [] then []
    else
      var line := lines[|lines| - 1];
      LinePositions(lines[..|lines| - 1], ids, t, d)
      + (if ParsedDocId(line).Some? && IdOf(ids, ParsedDocId(line).value) == d && t in ParsedTerms(line.fields)
         then ParsedTerms(line.fields)[t] else [])
  }

  /** The postings of `t` in a dictionary, none when it is absent. */
  function PostingsOf(dict: BlockDict, t: string): seq<BlockPosting> {
    if t in dict then dict[t] else []
  }

  /** One more line keeps the block invariant, counts the line when it
      parses and stores its docid in the forward map. */
  lemma AddLineCounts(b: Block, line: CleanedLine, ids: map<string, uint32>)
    requires BlockInvariant(b.dict)
    ensures BlockInvariant(AddLine(b, line, ids).dict)
    ensures AddLine(b, line, ids).docs == b.docs + (if ParsedDocId(line).Some? then 1 else 0)
    ensures AddLine(b, line, ids).fwd.Keys == b.fwd.Keys + LineOrigs(line)
  {
    if ParsedDocId(line).Some? {
      AddDocumentKeepsInvariant(b.dict, IdOf(ids, ParsedDocId(line).value), ParsedTerms(line.fields));
    }
  }

  /** One more line appends its positions for `t` to the postings of its
      id, and to those of no other id. */
  lemma AddLinePositions(b: Block, line: CleanedLine, ids: map<string, uint32>, t: string, d: uint32)
    requires BlockInvariant(b.dict)
    ensures DocPositions(PostingsOf(AddLine(b, line, ids).dict, t), d)
            == DocPositions(PostingsOf(b.dict, t), d)
               + (if ParsedDocId(line).Some? && IdOf(ids, ParsedDocId(line).value) == d && t in ParsedTerms(line.fields)
                  then ParsedTerms(line.fields)[t] else [])
  {
    if ParsedDocId(line).Some? {
      var doc := IdOf(ids, ParsedDocId(line).value);
      var terms := ParsedTerms(line.fields);
      var r := AddDocumentSpec(b.dict, doc, terms);
      assert AddLine(b, line, ids).dict == r;
      if t in terms {
        assert r[t] == AddPosting(PostingsOf(b.dict, t), doc, terms[t]);
        AddPostingSpec(PostingsOf(b.dict, t), doc, terms[t], d);
      } else {
        assert PostingsOf(r, t) == PostingsOf(b.dict, t);
      }
    }
  }

  /** A block built from lines keeps the block invariant, counts its parsed
      lines, holds a forward entry for exactly their docids, and records
      under each term and id exactly the positions those lines give it, in
      line order. */
  lemma {:induction false} BlockOfLinesSpec(lines: seq<CleanedLine>, ids: map<string, uint32>, t: string, d: uint32)
    ensures BlockInvariant(BlockOfLines(lines, ids).dict)
    ensures BlockOfLines(lines, ids).docs == ParsedCount(lines)
    ensures BlockOfLines(lines, ids).fwd.Keys == ParsedOrigs(lines)
    ensures DocPositions(PostingsOf(BlockOfLines(lines, ids).dict, t), d) == LinePositions(lines, ids, t, d)
  {
    if lines != [] {
      var init := lines[..|lines| - 1];
      BlockOfLinesSpec(init, ids, t, d);
      AddLineCounts(BlockOfLines(init, ids), lines[|lines| - 1], ids);
      AddLinePositions(BlockOfLines(init, ids), lines[|lines| - 1], ids, t, d);
    }
  }

  /** Every term of a parsed line is in its block's dictionary, and the
      line's positions for it follow, in the postings of the line's id,
      those of the earlier lines of the block. */
  lemma LineInBlock(lines: seq<CleanedLine>, ids: map<string, uint32>, t: string)
    requires lines != [] && ParsedDocId(lines[|lines| - 1]).Some?
    requires t in ParsedTerms(lines[|lines| - 1].fields)
    ensures t in BlockOfLines(lines, ids).dict
    ensures var line := lines[|lines| - 1];
            var d := IdOf(ids, ParsedDocId(line).value);
            DocPositions(BlockOfLines(lines, ids).dict[t], d)
            == LinePositions(lines[..|lines| - 1], ids, t, d) + ParsedTerms(line.fields)[t]
  {
    var line := lines[|lines| - 1];
    var d := IdOf(ids, ParsedDocId(line).value);
    BlockOfLinesSpec(lines, ids, t, d);
  }

  // ---------------------------------------------------------------------
  // flush_block_to_disk: the inverted file of a block

  /** Numbers in decimal, separated by `sep`. */
  function JoinNumbers(xs: seq<uint32>, sep: char): string {
    if xs == [] then "" else if |xs| == 1 then ToDecimal(xs[0]) else ToDecimal(xs[0]) + [sep] + JoinNumbers(xs[1..], sep)
  }

  /** One posting: `docid:pos,pos,...`. */
  function SegmentText(b: BlockPosting): string {
    ToDecimal(b.docid) + ":" + JoinNumbers(b.positions, ',')
  }

  /** Every posting of a list, separated by ';'. */
  function PostingsText(pl: seq<BlockPosting>): string {
    if pl == [] then ""
    else if |pl| == 1 then SegmentText(pl[0])
    else SegmentText(pl[0]) + ";" + PostingsText(pl[1..])
  }

  /** One line of a block's inverted file, without its newline. */
  function BlockLine(term: string, pl: seq<BlockPosting>): string {
    term + "\t" + PostingsText(pl)
  }

  /** The lines of the block's inverted file, in the order `order` in which
      the dictionary (an `unordered_map`) is traversed. */
  method FlushBlock(dict: BlockDict, order: seq<string>) returns (lines: seq<string>)
    requires forall t :: t in dict <==> t in order
    ensures |lines| == |order|
    ensures forall i :: 0 <= i < |order| ==> lines[i] == BlockLine(order[i], dict[order[i]])
  {
    lines := [];
    for i := 0 to |order|
      invariant |lines| == i
      invariant forall k :: 0 <= k < i ==> lines[k] == BlockLine(order[k], dict[order[k]])
    {
      lines := lines + [BlockLine(order[i], dict[order[i]])];
    }
  }
}
