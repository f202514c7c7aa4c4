/** The index builder of semantic_indexer.cpp: the CSV line splitter, the
    rules `load_embeddings` applies to each line of embeddings.csv, the
    docid mapping text and the head of semantic.idx. A float is modelled as
    a `real`; its 32-bit pattern, which the index file holds, is a
    parameter. */
module SemanticIndexer {
  import opened Common
  import Text
  import Decimal
  import Searcher
  import LittleEndian

  // ---------------------------------------------------------------------
  // parse_csv_line

  /** The fields so far, the field being read, and whether a quote is
      open. */
  datatype CsvState = CsvState(fields: seq<string>, field: string, inQuotes: bool)

  /** One character: a quote toggles the quote mode and is dropped, a
      comma outside quotes ends the field, anything else is kept. */
  function CsvStep(st: CsvState, c: char): CsvState {
    if c == '"' then st.(inQuotes := !st.inQuotes)
    else if c == ',' && !st.inQuotes then st.(fields := st.fields + [st.field], field := "")
    else st.(field := st.field + [c])
  }

  /** The fields once the characters of `s` have been read from `st`, with
      the last field pushed at the end. */
  function CsvFrom(st: CsvState, s: string): (r: seq<string>)
    ensures |r| > |st.fields|
    decreases |s|
  {
    if s == [] then st.fields + [st.field] else CsvFrom(CsvStep(st, s[0]), s[1..])
  }

  function CsvFields(line: string): seq<string> {
    CsvFrom(CsvState([], "", false), line)
  }

  /** `parse_csv_line`. */
  method ParseCsvLine(line: string) returns (fields: seq<string>)
    ensures fields == CsvFields(line)
  {
    fields := [];
    var field := "";
    var inQuotes := false;
    for i := 0 to |line|
      invariant CsvFrom(CsvState(fields, field, inQuotes), line[i..]) == CsvFields(line)
    {
      var c := line[i];
      assert line[i..][1..] == line[i + 1..];
      if c == '"' {
        inQuotes := !inQuotes;
      } else if c == ',' && !inQuotes {
        fields := fields + [field];
        field := "";
      } else {
        field := field + [c];
      }
    }
    fields := fields + [field];
  }

  /** The commas of `s` outside quotes, when `s` is read with the quote
      mode `inQuotes`. */
  function UnquotedCommas(s: string, inQuotes: bool): nat
    decreases |s|
  {
    if s == [] then 0
    else if s[0] == '"' then UnquotedCommas(s[1..], !inQuotes)
    else (if s[0] == ',' && !inQuotes then 1 else 0) + UnquotedCommas(s[1..], inQuotes)
  }

  predicate QuoteFree(fs: seq<string>) {
    forall k :: 0 <= k < |fs| ==> '"' !in fs[k]
  }

  lemma {:induction false} CsvFromCount(st: CsvState, s: string)
    ensures |CsvFrom(st, s)| == |st.fields| + UnquotedCommas(s, st.inQuotes) + 1
    decreases |s|
  {
    if s != [] {
      CsvFromCount(CsvStep(st, s[0]), s[1..]);
    }
  }

  lemma {:induction false} CsvFromQuoteFree(st: CsvState, s: string)
    requires QuoteFree(st.fields) && '"' !in st.field
    ensures QuoteFree(CsvFrom(st, s))
    decreases |s|
  {
    if s != [] {
      CsvFromQuoteFree(CsvStep(st, s[0]), s[1..]);
    }
  }

  /** There is one field more than there are commas outside quotes, and no
      field holds a quote: a doubled quote inside a quoted field adds
      nothing, unlike rule 7 of section 2 of RFC 4180. */
  lemma CsvFieldsSpec(line: string)
    ensures |CsvFields(line)| == UnquotedCommas(line, false) + 1
    ensures QuoteFree(CsvFields(line))
  {
    CsvFromCount(CsvState([], "", false), line);
    CsvFromQuoteFree(CsvState([], "", false), line);
  }

  /** Reading a run free of quotes and commas outside quotes only extends
      the field. */
  lemma {:induction false} CsvRun(st: CsvState, t: string, rest: string)
    requires !st.inQuotes && '"' !in t && ',' !in t
    ensures CsvFrom(st, t + rest) == CsvFrom(st.(field := st.field + t), rest)
    decreases |t|
  {
    if t != [] {
      assert (t + rest)[0] == t[0] && (t + rest)[1..] == t[1..] + rest;
      var st' := CsvStep(st, t[0]);
      CsvRun(st', t[1..], rest);
      assert st'.field + t[1..] == st.field + t;
    } else {
      assert t + rest == rest && st.field + t == st.field;
    }
  }

  lemma {:induction false} CsvJoinFrom(st: CsvState, fs: seq<string>)
    requires !st.inQuotes && |fs| >= 1 && Text.FreeOf(fs, '"') && Text.FreeOf(fs, ',')
    ensures CsvFrom(st, Text.Join(fs, ',')) == st.fields + [st.field + fs[0]] + fs[1..]
    decreases |fs|
  {
    assert '"' !in fs[0] && ',' !in fs[0];
    if |fs| == 1 {
      CsvRun(st, fs[0], []);
      assert fs[0] + [] == fs[0];
    } else {
      var j := Text.Join(fs[1..], ',');
      assert Text.Join(fs, ',') == fs[0] + ([','] + j);
      CsvRun(st, fs[0], [','] + j);
      var st1 := st.(field := st.field + fs[0]);
      var st2 := CsvStep(st1, ',');
      assert ([','] + j)[1..] == j;
      assert Text.FreeOf(fs[1..], '"') && Text.FreeOf(fs[1..], ',') by {
        forall k | 0 <= k < |fs[1..]| ensures '"' !in fs[1..][k] && ',' !in fs[1..][k] {
          assert fs[1..][k] == fs[k + 1];
        }
      }
      CsvJoinFrom(st2, fs[1..]);
      assert st2.field + fs[1] == fs[1];
      assert [fs[1]] + fs[1..][1..] == fs[1..];
    }
  }

  /** Fields free of quotes and commas come back from the line that joins
      them with commas. */
  lemma CsvJoinRoundTrip(fs: seq<string>)
    requires |fs| >= 1 && Text.FreeOf(fs, '"') && Text.FreeOf(fs, ',')
    ensures CsvFields(Text.Join(fs, ',')) == fs
  {
    var st := CsvState([], "", false);
    CsvJoinFrom(st, fs);
    assert st.fields + [st.field + fs[0]] + fs[1..] == fs by {
      assert st.field + fs[0] == fs[0];
      assert [fs[0]] + fs[1..] == fs;
    }
  }

  // ---------------------------------------------------------------------
  // load_embeddings

  /** `s.find(t) != npos`. */
  predicate Contains(s: string, t: string) {
    Searcher.FindFrom(s, t, 0).Some?
  }

  /** The header test of `load_embeddings`. */
  predicate HeaderLine(line: string) {
    Contains(line, "docid") || Contains(line, "document_id") || Contains(line, "id")
  }

  /** "docid" and "document_id" both contain "id", so the header test is
      whether the line contains "id" at all: a first data row whose docid
      holds "id" is taken for the header. */
  lemma HeaderIsId(line: string)
    ensures HeaderLine(line) <==> Contains(line, "id")
  {
    Searcher.FindFromSpec(line, "id", 0);
    Searcher.FindFromSpec(line, "docid", 0);
    Searcher.FindFromSpec(line, "document_id", 0);
    var r := Searcher.FindFrom(line, "docid", 0);
    if r.Some? {
      assert line[r.value + 3] == "docid"[3] && line[r.value + 4] == "docid"[4];
      assert At(line, r.value + 3, "id");
    }
    var r' := Searcher.FindFrom(line, "document_id", 0);
    if r'.Some? {
      assert line[r'.value + 9] == "document_id"[9] && line[r'.value + 10] == "document_id"[10];
      assert At(line, r'.value + 9, "id");
    }
  }

  /** One embedding: the docid and the parsed vector. */
  datatype Embedding = Embedding(docid: string, vector: seq<real>)

  /** The values of the fields up to the first one `stof` rejects. */
  function Values(fs: seq<string>, stof: string -> Option<real>): (vs: seq<real>)
    ensures |vs| <= |fs|
    decreases |fs|
  {
    if fs == [] then []
    else match stof(fs[0])
      case None => []
      case Some(v) => [v] + Values(fs[1..], stof)
  }

  /** The vector loop: `stof` on each field after the docid until one
      throws. */
  method ParseValues(fields: seq<string>, stof: string -> Option<real>) returns (vs: seq<real>)
    requires |fields| >= 1
    ensures vs == Values(fields[1..], stof)
  {
    vs := [];
    var i := 1;
    while i < |fields|
      invariant 1 <= i <= |fields|
      invariant vs + Values(fields[i..], stof) == Values(fields[1..], stof)
    {
      assert fields[i..][1..] == fields[i + 1..];
      var r := stof(fields[i]);
      if r.None? {
        assert vs + [] == vs;
        return;
      }
      assert vs + Values(fields[i..], stof) == (vs + [r.value]) + Values(fields[i + 1..], stof);
      vs := vs + [r.value];
      i := i + 1;
    }
    assert vs + [] == vs;
  }

  /** The quote stripping of the docid. */
  function StripQuotes(d: string): string {
    if |d| >= 1 && d[0] == '"' && d[|d| - 1] == '"' then (if |d| >= 2 then d[1..|d| - 1] else "") else d
  }

  /** The embeddings so far and the detected dimension (0 while none is
      detected). */
  datatype Rows = Rows(embs: seq<Embedding>, dim: nat)

  /** One line that is not the header: empty lines and lines with fewer
      than two fields are skipped; the first non-empty vector fixes the
      dimension; a non-empty vector of that dimension is kept. */
  function RowStep(rs: Rows, line: string, stof: string -> Option<real>): Rows {
    if line == [] then rs
    else
      var fs := CsvFields(line);
      if |fs| < 2 then rs
      else
        var v := Values(fs[1..], stof);
        var dim := if rs.dim == 0 && v != [] then |v| else rs.dim;
        if v != [] && |v| == dim then Rows(rs.embs + [Embedding(StripQuotes(fs[0]), v)], dim)
        else rs.(dim := dim)
  }

  /** The state of `load_embeddings`: the rows and whether the header has
      been skipped. */
  datatype LoadState = LoadState(rows: Rows, headerSkipped: bool)

  function LoadStep(st: LoadState, line: string, stof: string -> Option<real>): LoadState {
    if !st.headerSkipped && HeaderLine(line) then st.(headerSkipped := true)
    else st.(rows := RowStep(st.rows, line, stof))
  }

  function LoadFrom(st: LoadState, lines: seq<string>, stof: string -> Option<real>): LoadState
    decreases |lines|
  {
    if lines == [] then st else LoadStep(LoadFrom(st, lines[..|lines| - 1], stof), lines[|lines| - 1], stof)
  }

  const NoRows := Rows([], 0)

  /** What `load_embeddings` returns for the lines of the file, with the
      detected dimension (the caller starts it at 0). */
  function Loaded(lines: seq<string>, stof: string -> Option<real>): Rows {
    LoadFrom(LoadState(NoRows, false), lines, stof).rows
  }

  /** The row rules alone, applied to every line. */
  function AllRows(rs: Rows, lines: seq<string>, stof: string -> Option<real>): Rows
    decreases |lines|
  {
    if lines == [] then rs else RowStep(AllRows(rs, lines[..|lines| - 1], stof), lines[|lines| - 1], stof)
  }

  /** Lines 91-144 of the loop body: one non-header line. */
  method AddRow(embs: seq<Embedding>, dim: nat, line: string, stof: string -> Option<real>)
    returns (embs': seq<Embedding>, dim': nat)
    ensures Rows(embs', dim') == RowStep(Rows(embs, dim), line, stof)
  {
    embs', dim' := embs, dim;
    if line == [] {
      return;
    }
    var fields := ParseCsvLine(line);
    if |fields| < 2 {
      return;
    }
    var docid := fields[0];
    if |docid| >= 1 && docid[0] == '"' && docid[|docid| - 1] == '"' {
      docid := if |docid| >= 2 then docid[1..|docid| - 1] else "";
    }
    var v := ParseValues(fields, stof);
    if dim' == 0 && v != [] {
      dim' := |v|;
    }
    if v != [] && |v| == dim' {
      embs' := embs' + [Embedding(docid, v)];
    }
  }

  /** `load_embeddings` over the lines of the file. */
  method LoadEmbeddings(lines: seq<string>, stof: string -> Option<real>) returns (embs: seq<Embedding>, dim: nat)
    ensures Rows(embs, dim) == Loaded(lines, stof)
  {
    embs, dim := [], 0;
    var headerSkipped := false;
    for i := 0 to |lines|
      invariant LoadState(Rows(embs, dim), headerSkipped) == LoadFrom(LoadState(NoRows, false), lines[..i], stof)
    {
      assert lines[..i + 1][..i] == lines[..i];
      var line := lines[i];
      if !headerSkipped && HeaderLine(line) {
        headerSkipped := true;
        continue;
      }
      embs, dim := AddRow(embs, dim, line, stof);
    }
    assert lines[..|lines|] == lines;
  }

  lemma {:induction false} AllRowsAppend(rs: Rows, a: seq<string>, b: seq<string>, stof: string -> Option<real>)
    ensures AllRows(rs, a + b, stof) == AllRows(AllRows(rs, a, stof), b, stof)
    decreases |b|
  {
    if b == [] {
      assert a + b == a;
    } else {
      assert (a + b)[..|a + b| - 1] == a + b[..|b| - 1];
      AllRowsAppend(rs, a, b[..|b| - 1], stof);
    }
  }

  /** Before a header line, every line goes through the row rules. */
  lemma {:induction false} BeforeHeader(rs: Rows, lines: seq<string>, stof: string -> Option<real>)
    requires forall k :: 0 <= k < |lines| ==> !HeaderLine(lines[k])
    ensures LoadFrom(LoadState(rs, false), lines, stof) == LoadState(AllRows(rs, lines, stof), false)
    decreases |lines|
  {
    if lines != [] {
      BeforeHeader(rs, lines[..|lines| - 1], stof);
    }
  }

  /** After the header, every line goes through the row rules, header-like
      or not. */
  lemma {:induction false} AfterHeader(rs: Rows, lines: seq<string>, stof: string -> Option<real>)
    ensures LoadFrom(LoadState(rs, true), lines, stof) == LoadState(AllRows(rs, lines, stof), true)
    decreases |lines|
  {
    if lines != [] {
      AfterHeader(rs, lines[..|lines| - 1], stof);
    }
  }

  /** Exactly one line is skipped as a header, the first that passes the
      header test, and every other line is read as a row; a file without
      such a line has every line read as a row. */
  lemma HeaderSkippedOnce(lines: seq<string>, stof: string -> Option<real>)
    ensures (forall k :: 0 <= k < |lines| ==> !HeaderLine(lines[k])) ==>
      Loaded(lines, stof) == AllRows(NoRows, lines, stof)
    ensures forall h :: 0 <= h < |lines| && HeaderLine(lines[h]) && (forall k :: 0 <= k < h ==> !HeaderLine(lines[k])) ==>
      Loaded(lines, stof) == AllRows(NoRows, lines[..h] + lines[h + 1..], stof)
  {
    if forall k :: 0 <= k < |lines| ==> !HeaderLine(lines[k]) {
      BeforeHeader(NoRows, lines, stof);
    }
    forall h | 0 <= h < |lines| && HeaderLine(lines[h]) && (forall k :: 0 <= k < h ==> !HeaderLine(lines[k]))
      ensures Loaded(lines, stof) == AllRows(NoRows, lines[..h] + lines[h + 1..], stof)
    {
      HeaderAt(lines, stof, h);
    }
  }

  lemma HeaderAt(lines: seq<string>, stof: string -> Option<real>, h: nat)
    requires h < |lines| && HeaderLine(lines[h]) && forall k :: 0 <= k < h ==> !HeaderLine(lines[k])
    ensures Loaded(lines, stof) == AllRows(NoRows, lines[..h] + lines[h + 1..], stof)
  {
    var pre, post := lines[..h], lines[h + 1..];
    LoadFromAppend(LoadState(NoRows, false), pre + [lines[h]], post, stof);
    assert lines == pre + [lines[h]] + post;
    assert (pre + [lines[h]])[..h] == pre;
    BeforeHeader(NoRows, pre, stof);
    var rs := AllRows(NoRows, pre, stof);
    assert LoadFrom(LoadState(NoRows, false), pre + [lines[h]], stof) == LoadState(rs, true);
    AfterHeader(rs, post, stof);
    AllRowsAppend(NoRows, pre, post, stof);
  }

  lemma {:induction false} LoadFromAppend(st: LoadState, a: seq<string>, b: seq<string>, stof: string -> Option<real>)
    ensures LoadFrom(st, a + b, stof) == LoadFrom(LoadFrom(st, a, stof), b, stof)
    decreases |b|
  {
    if b == [] {
      assert a + b == a;
    } else {
      assert (a + b)[..|a + b| - 1] == a + b[..|b| - 1];
      LoadFromAppend(st, a, b[..|b| - 1], stof);
    }
  }

  /** Every kept vector is non-empty and of the detected dimension. */
  predicate Consistent(rs: Rows) {
    forall k :: 0 <= k < |rs.embs| ==> rs.embs[k].vector != [] && |rs.embs[k].vector| == rs.dim
  }

  /** The rows keep every vector at the detected dimension, and a detected
      dimension never changes. */
  lemma {:induction false} AllRowsConsistent(rs: Rows, lines: seq<string>, stof: string -> Option<real>)
    requires Consistent(rs)
    ensures Consistent(AllRows(rs, lines, stof))
    ensures rs.dim != 0 ==> AllRows(rs, lines, stof).dim == rs.dim
    decreases |lines|
  {
    if lines != [] {
      AllRowsConsistent(rs, lines[..|lines| - 1], stof);
    }
  }

  /** Every loaded embedding has the dimension the first non-empty vector
      fixed, so there is one when anything is loaded. */
  lemma LoadedConsistent(lines: seq<string>, stof: string -> Option<real>)
    ensures var r := Loaded(lines, stof);
      Consistent(r) && (r.embs != [] ==> r.dim > 0)
  {
    if exists h :: 0 <= h < |lines| && HeaderLine(lines[h]) {
      var h := FirstHeader(lines);
      HeaderAt(lines, stof, h);
      AllRowsConsistent(NoRows, lines[..h] + lines[h + 1..], stof);
    } else {
      assert forall k :: 0 <= k < |lines| ==> !HeaderLine(lines[k]);
      BeforeHeader(NoRows, lines, stof);
      AllRowsConsistent(NoRows, lines, stof);
    }
    var r := Loaded(lines, stof);
    if r.embs != [] {
      assert r.embs[0].vector != [];
    }
  }

  /** The first header-like line, when there is one. */
  lemma FirstHeader(lines: seq<string>) returns (h: nat)
    requires exists h :: 0 <= h < |lines| && HeaderLine(lines[h])
    ensures h < |lines| && HeaderLine(lines[h]) && forall k :: 0 <= k < h ==> !HeaderLine(lines[k])
  {
    h := 0;
    while !HeaderLine(lines[h])
      invariant h < |lines| && forall k :: 0 <= k < h ==> !HeaderLine(lines[k])
      decreases |lines| - h
    {
      h := h + 1;
    }
  }

  /** A line without a comma outside quotes has one field and is
      skipped. */
  lemma OneFieldSkipped(rs: Rows, line: string, stof: string -> Option<real>)
    requires UnquotedCommas(line, false) == 0
    ensures RowStep(rs, line, stof) == rs
  {
    CsvFieldsSpec(line);
  }

  /** The stripping of quotes around the docid never applies: the CSV
      splitter has already dropped every quote. */
  lemma StripQuotesIdle(line: string)
    ensures StripQuotes(CsvFields(line)[0]) == CsvFields(line)[0]
  {
    CsvFieldsSpec(line);
  }

  // ---------------------------------------------------------------------
  // write_docid_mapping

  function DocIds(embs: seq<Embedding>): (ids: seq<string>)
    ensures |ids| == |embs|
  {
    seq(|embs|, i requires 0 <= i < |embs| => embs[i].docid)
  }

  /** Line `i` of the mapping: the docid, a tab, and `i`. */
  function MappingLine(ids: seq<string>, i: nat): string
    requires i < |ids|
  {
    ids[i] + "\t" + Decimal.ToDecimal(i)
  }

  function MappingLines(ids: seq<string>): (ls: seq<string>)
    ensures |ls| == |ids|
  {
    seq(|ids|, i requires 0 <= i < |ids| => MappingLine(ids, i))
  }

  /** The text of semantic_docid.txt: each line ended by a newline. */
  function MappingText(ids: seq<string>): string
    decreases |ids|
  {
    if ids == [] then "" else MappingText(ids[..|ids| - 1]) + MappingLine(ids, |ids| - 1) + "\n"
  }

  /** `write_docid_mapping`. */
  method WriteDocidMapping(embs: seq<Embedding>) returns (out: string)
    ensures out == MappingText(DocIds(embs))
  {
    ghost var ids := DocIds(embs);
    out := "";
    for i := 0 to |embs|
      invariant out == MappingText(ids[..i])
    {
      assert ids[..i + 1][..i] == ids[..i];
      assert MappingLine(ids[..i + 1], i) == MappingLine(ids, i);
      out := out + embs[i].docid + "\t" + Decimal.ToDecimal(i) + "\n";
    }
    assert ids[..|embs|] == ids;
  }

  lemma {:induction false} MappingTextJoin(ids: seq<string>)
    requires ids != []
    ensures MappingText(ids) == Text.Join(MappingLines(ids), '\n') + "\n"
    decreases |ids|
  {
    var p := ids[..|ids| - 1];
    var ls := MappingLines(ids);
    if |ids| == 1 {
      assert ls == [MappingLine(ids, 0)];
    } else {
      MappingTextJoin(p);
      assert MappingLines(p) == ls[..|ls| - 1];
      Text.JoinSnoc(ls[..|ls| - 1], ls[|ls| - 1], '\n');
      assert ls[..|ls| - 1] + [ls[|ls| - 1]] == ls;
    }
  }

  /** The mapping reads back: cut at newlines it gives one line per
      docid, and line `i` cut at its tab gives the docid and the digits of
      `i`. */
  lemma MappingRoundTrip(ids: seq<string>, i: nat)
    requires i < |ids| && Text.FreeOf(ids, '\t') && Text.FreeOf(ids, '\n')
    ensures var t := MappingText(ids);
      t != [] && t[|t| - 1] == '\n' && Text.Split(t[..|t| - 1], '\n') == MappingLines(ids)
    ensures Text.Split(MappingLines(ids)[i], '\t') == [ids[i], Decimal.ToDecimal(i)]
    ensures Decimal.ValueIn(Decimal.ToDecimal(i), 0, |Decimal.ToDecimal(i)|) == i
  {
    MappingTextSplits(ids);
    MappingLineSplits(ids, i);
    Decimal.DecimalRoundTrip(i);
  }

  /** The mapping cut at newlines gives its lines back. */
  lemma MappingTextSplits(ids: seq<string>)
    requires |ids| > 0 && Text.FreeOf(ids, '\n')
    ensures var t := MappingText(ids);
      t != [] && t[|t| - 1] == '\n' && Text.Split(t[..|t| - 1], '\n') == MappingLines(ids)
  {
    var ls := MappingLines(ids);
    MappingTextJoin(ids);
    assert Text.FreeOf(ls, '\n') by {
      forall k | 0 <= k < |ls| ensures '\n' !in ls[k] {
        DigitsFree(k, '\n');
        assert '\n' !in ids[k];
      }
    }
    var t := MappingText(ids);
    assert t[..|t| - 1] == Text.Join(ls, '\n');
    Text.SplitJoin(ls, '\n');
  }

  /** Line `i` of the mapping cut at its tab gives the docid and the digits of `i`. */
  lemma MappingLineSplits(ids: seq<string>, i: nat)
    requires i < |ids| && '\t' !in ids[i]
    ensures Text.Split(MappingLines(ids)[i], '\t') == [ids[i], Decimal.ToDecimal(i)]
  {
    var pair := [ids[i], Decimal.ToDecimal(i)];
    DigitsFree(i, '\t');
    assert Text.FreeOf(pair, '\t');
    assert pair[1..] == [Decimal.ToDecimal(i)];
    assert Text.Join(pair, '\t') == MappingLines(ids)[i];
    Text.SplitJoin(pair, '\t');
  }

  lemma DigitsFree(n: nat, c: char)
    requires !IsDigit(c)
    ensures c !in Decimal.ToDecimal(n)
  {
  }

  // ---------------------------------------------------------------------
  // write_semantic_index

  /** "SEMI" */
  const Magic: nat := 0x53454D49
  const Version: nat := 1

  /** A `uint32_t` as written: a wider count keeps its low 32 bits. */
  function U32Bytes(n: nat): seq<byte> {
    LittleEndian.Bytes(n, 4)
  }

  /** The docid records: length, then the bytes. */
  function DocidTable(ids: seq<string>): seq<byte>
    decreases |ids|
  {
    if ids == [] then [] else U32Bytes(|ids[0]|) + LittleEndian.CharBytes(ids[0]) + DocidTable(ids[1..])
  }

  /** The vector values, each as the 32-bit pattern `bits` gives it. */
  function FloatBytes(vs: seq<real>, bits: real -> uint32): (r: seq<byte>)
    ensures |r| == 4 * |vs|
    decreases |vs|
  {
    if vs == [] then [] else U32Bytes(bits(vs[0])) + FloatBytes(vs[1..], bits)
  }

  function VectorBytes(embs: seq<Embedding>, bits: real -> uint32): seq<byte>
    decreases |embs|
  {
    if embs == [] then [] else FloatBytes(embs[0].vector, bits) + VectorBytes(embs[1..], bits)
  }

  function Header(dim: nat, count: nat): (h: seq<byte>)
    ensures |h| == 16
  {
    U32Bytes(Magic) + U32Bytes(Version) + U32Bytes(dim) + U32Bytes(count)
  }

  /** semantic.idx: the header, the docid records and the vectors. */
  function IndexFile(dim: nat, embs: seq<Embedding>, bits: real -> uint32): seq<byte> {
    Header(dim, |embs|) + DocidTable(DocIds(embs)) + VectorBytes(embs, bits)
  }

  lemma {:induction false} DocidTableAppend(a: seq<string>, b: seq<string>)
    ensures DocidTable(a + b) == DocidTable(a) + DocidTable(b)
    decreases |a|
  {
    if a == [] {
      assert a + b == b;
    } else {
      assert (a + b)[1..] == a[1..] + b;
      DocidTableAppend(a[1..], b);
    }
  }

  lemma {:induction false} FloatBytesAppend(a: seq<real>, b: seq<real>, bits: real -> uint32)
    ensures FloatBytes(a + b, bits) == FloatBytes(a, bits) + FloatBytes(b, bits)
    decreases |a|
  {
    if a == [] {
      assert a + b == b;
    } else {
      assert (a + b)[1..] == a[1..] + b;
      FloatBytesAppend(a[1..], b, bits);
    }
  }

  lemma {:induction false} VectorBytesAppend(a: seq<Embedding>, b: seq<Embedding>, bits: real -> uint32)
    ensures VectorBytes(a + b, bits) == VectorBytes(a, bits) + VectorBytes(b, bits)
    decreases |a|
  {
    if a == [] {
      assert a + b == b;
    } else {
      assert (a + b)[1..] == a[1..] + b;
      VectorBytesAppend(a[1..], b, bits);
    }
  }

  /** One more docid record at the end of the table. */
  lemma DocidTableSnoc(ids: seq<string>, i: nat)
    requires i < |ids|
    ensures DocidTable(ids[..i + 1]) == DocidTable(ids[..i]) + U32Bytes(|ids[i]|) + LittleEndian.CharBytes(ids[i])
  {
    var docid := ids[i];
    DocidTableAppend(ids[..i], [docid]);
    assert ids[..i + 1] == ids[..i] + [docid];
    assert DocidTable([docid]) == U32Bytes(|docid|) + LittleEndian.CharBytes(docid) + DocidTable([]);
  }

  /** The docid loop of `write_semantic_index`. */
  method WriteDocids(out: seq<byte>, ids: seq<string>) returns (out': seq<byte>)
    ensures out' == out + DocidTable(ids)
  {
    out' := out;
    for i := 0 to |ids|
      invariant out' == out + DocidTable(ids[..i])
    {
      var docid := ids[i];
      DocidTableSnoc(ids, i);
      out' := out' + U32Bytes(|docid|) + LittleEndian.CharBytes(docid);
    }
    assert ids[..|ids|] == ids;
  }

  /** The values of one vector. */
  method WriteVector(out: seq<byte>, vs: seq<real>, bits: real -> uint32) returns (out': seq<byte>)
    ensures out' == out + FloatBytes(vs, bits)
  {
    out' := out;
    for j := 0 to |vs|
      invariant out' == out + FloatBytes(vs[..j], bits)
    {
      FloatBytesAppend(vs[..j], [vs[j]], bits);
      assert vs[..j + 1] == vs[..j] + [vs[j]];
      out' := out' + U32Bytes(bits(vs[j]));
    }
    assert vs[..|vs|] == vs;
  }

  /** `write_semantic_index`: the header, a loop over the docids, then a
      loop over the vectors. */
  method WriteSemanticIndex(embs: seq<Embedding>, dim: nat, bits: real -> uint32) returns (out: seq<byte>)
    ensures out == IndexFile(dim, embs, bits)
  {
    var head := U32Bytes(Magic) + U32Bytes(Version) + U32Bytes(dim) + U32Bytes(|embs|);
    assert head == Header(dim, |embs|);
    out := WriteDocids(head, DocIds(embs));
    ghost var mid := out;
    for i := 0 to |embs|
      invariant out == mid + VectorBytes(embs[..i], bits)
    {
      VectorBytesSnoc(embs, i, bits);
      ConcatAssoc(mid, VectorBytes(embs[..i], bits), FloatBytes(embs[i].vector, bits));
      out := WriteVector(out, embs[i].vector, bits);
    }
    assert embs[..|embs|] == embs;
  }

  lemma VectorBytesSnoc(embs: seq<Embedding>, i: nat, bits: real -> uint32)
    requires i < |embs|
    ensures VectorBytes(embs[..i + 1], bits) == VectorBytes(embs[..i], bits) + FloatBytes(embs[i].vector, bits)
  {
    VectorBytesAppend(embs[..i], [embs[i]], bits);
    assert embs[..i + 1] == embs[..i] + [embs[i]];
    assert VectorBytes([embs[i]], bits) == FloatBytes(embs[i].vector, bits) + VectorBytes([], bits);
  }

  /** The vectors take four bytes per value: `dim` values for each
      document when every vector has the dimension. */
  lemma {:induction false} VectorBytesSize(embs: seq<Embedding>, dim: nat, bits: real -> uint32)
    requires forall k :: 0 <= k < |embs| ==> |embs[k].vector| == dim
    ensures |VectorBytes(embs, bits)| == 4 * dim * |embs|
    decreases |embs|
  {
    if embs != [] {
      VectorBytesSize(embs[1..], dim, bits);
    }
  }

  /** The head of the file as a reader finds it. */
  datatype Head = Head(magic: nat, version: nat, dim: nat, docids: seq<string>, vectorsAt: nat)

  /** The `uint32_t` at `at`, if the bytes are there. */
  function ReadU32(bs: seq<byte>, at: nat): Option<nat> {
    if at + 4 <= |bs| then Some(LittleEndian.Value(bs[at..at + 4])) else None
  }

  /** `n` docid records from `at`, and where they end. */
  function ReadDocids(bs: seq<byte>, at: nat, n: nat): Option<(seq<string>, nat)>
    decreases n
  {
    if n == 0 then Some(([], at))
    else match ReadU32(bs, at)
      case None => None
      case Some(len) =>
        if at + 4 + len > |bs| then None
        else match ReadDocids(bs, at + 4 + len, n - 1)
          case None => None
          case Some(rest) => Some(([LittleEndian.BytesChars(bs[at + 4..at + 4 + len])] + rest.0, rest.1))
  }

  function ReadHead(bs: seq<byte>): Option<Head> {
    if |bs| < 16 then None
    else
      var count := LittleEndian.Value(bs[12..16]);
      match ReadDocids(bs, 16, count)
      case None => None
      case Some(r) =>
        Some(Head(LittleEndian.Value(bs[0..4]), LittleEndian.Value(bs[4..8]), LittleEndian.Value(bs[8..12]), r.0, r.1))
  }

  /** A docid fits the file when its length fits a `uint32_t` and its
      characters are bytes. */
  predicate Writable(id: string) {
    |id| < U32 && LittleEndian.ByteChars(id)
  }

  lemma U32RoundTrip(n: nat)
    requires n < U32
    ensures LittleEndian.Value(U32Bytes(n)) == n
  {
    LittleEndian.ValueOfBytes(n, 4);
    assert LittleEndian.Pow256(4) == U32;
  }

  /** One docid record read back. */
  lemma DocidRead(bs: seq<byte>, at: nat, id: string)
    requires Writable(id)
    requires LittleEndian.Holds(bs, at, U32Bytes(|id|)) && LittleEndian.Holds(bs, at + 4, LittleEndian.CharBytes(id))
    ensures ReadU32(bs, at) == Some(|id|)
    ensures at + 4 + |id| <= |bs| && LittleEndian.BytesChars(bs[at + 4..at + 4 + |id|]) == id
  {
    U32RoundTrip(|id|);
    LittleEndian.CharsRoundTrip(id);
  }

  /** A docid record, then the records of the rest of the list, read as
      the whole list. */
  lemma DocidsCons(bs: seq<byte>, at: nat, ids: seq<string>, q: nat, r: nat)
    requires ids != [] && ReadU32(bs, at) == Some(|ids[0]|) && q == at + 4 + |ids[0]| && q <= |bs|
    requires LittleEndian.BytesChars(bs[at + 4..q]) == ids[0]
    requires ReadDocids(bs, q, |ids| - 1) == Some((ids[1..], r))
    ensures ReadDocids(bs, at, |ids|) == Some((ids, r))
  {
    assert [ids[0]] + ids[1..] == ids;
  }

  lemma {:induction false} ReadDocidTable(bs: seq<byte>, at: nat, ids: seq<string>)
    requires forall k :: 0 <= k < |ids| ==> Writable(ids[k])
    requires LittleEndian.Holds(bs, at, DocidTable(ids))
    ensures ReadDocids(bs, at, |ids|) == Some((ids, at + |DocidTable(ids)|))
    decreases |ids|
  {
    if ids != [] {
      var q := DocidTableFront(bs, at, ids);
      ReadDocidTable(bs, q, ids[1..]);
      DocidsCons(bs, at, ids, q, at + |DocidTable(ids)|);
    }
  }

  /** The first record of a table reads back, and the rest of the table
      stands at `q`, where that record ends. */
  lemma DocidTableFront(bs: seq<byte>, at: nat, ids: seq<string>) returns (q: nat)
    requires ids != [] && forall k :: 0 <= k < |ids| ==> Writable(ids[k])
    requires LittleEndian.Holds(bs, at, DocidTable(ids))
    ensures ReadU32(bs, at) == Some(|ids[0]|) && q == at + 4 + |ids[0]| && q <= |bs|
    ensures LittleEndian.BytesChars(bs[at + 4..q]) == ids[0]
    ensures LittleEndian.Holds(bs, q, DocidTable(ids[1..])) && forall k :: 0 <= k < |ids[1..]| ==> Writable(ids[1..][k])
    ensures q + |DocidTable(ids[1..])| == at + |DocidTable(ids)|
  {
    var rest := DocidTable(ids[1..]);
    assert DocidTable(ids) == U32Bytes(|ids[0]|) + LittleEndian.CharBytes(ids[0]) + rest;
    DocidHead(bs, at, ids[0], rest);
    WritableTail(ids);
    q := at + 4 + |ids[0]|;
  }

  lemma WritableTail(ids: seq<string>)
    requires ids != [] && forall k :: 0 <= k < |ids| ==> Writable(ids[k])
    ensures Writable(ids[0]) && forall k :: 0 <= k < |ids[1..]| ==> Writable(ids[1..][k])
  {
    forall k | 0 <= k < |ids[1..]| ensures Writable(ids[1..][k]) {
      assert ids[1..][k] == ids[k + 1];
    }
  }

  /** A docid record followed by more bytes: the record reads back, and the
      bytes after it stand right where it ends. */
  lemma DocidHead(bs: seq<byte>, at: nat, id: string, rest: seq<byte>)
    requires Writable(id)
    requires LittleEndian.Holds(bs, at, U32Bytes(|id|) + LittleEndian.CharBytes(id) + rest)
    ensures ReadU32(bs, at) == Some(|id|) && at + 4 + |id| <= |bs|
    ensures LittleEndian.BytesChars(bs[at + 4..at + 4 + |id|]) == id
    ensures LittleEndian.Holds(bs, at + 4 + |id|, rest)
    ensures |U32Bytes(|id|) + LittleEndian.CharBytes(id) + rest| == 4 + |id| + |rest|
  {
    var a := U32Bytes(|id|);
    var b := LittleEndian.CharBytes(id);
    LittleEndian.HoldsSplit(bs, at, a + b, rest);
    LittleEndian.HoldsSplit(bs, at, a, b);
    DocidRead(bs, at, id);
  }

  /** The four numbers of the header read back. */
  lemma HeaderRead(bs: seq<byte>, dim: nat, count: nat)
    requires dim < U32 && count < U32 && |bs| >= 16 && bs[..16] == Header(dim, count)
    ensures LittleEndian.Value(bs[0..4]) == Magic && LittleEndian.Value(bs[4..8]) == Version
    ensures LittleEndian.Value(bs[8..12]) == dim && LittleEndian.Value(bs[12..16]) == count
  {
    var h := Header(dim, count);
    assert bs[0..4] == h[0..4] == U32Bytes(Magic);
    assert bs[4..8] == h[4..8] == U32Bytes(Version);
    assert bs[8..12] == h[8..12] == U32Bytes(dim);
    assert bs[12..16] == h[12..16] == U32Bytes(count);
    U32RoundTrip(Magic);
    U32RoundTrip(Version);
    U32RoundTrip(dim);
    U32RoundTrip(count);
  }

  /** Reading the file back gives the magic number, version 1, the
      dimension and the docids in load order, with the vectors right after
      them. */
  lemma IndexHeadRoundTrip(dim: nat, embs: seq<Embedding>, bits: real -> uint32)
    requires dim < U32 && |embs| < U32
    requires forall k :: 0 <= k < |embs| ==> Writable(embs[k].docid)
    ensures ReadHead(IndexFile(dim, embs, bits))
      == Some(Head(Magic, Version, dim, DocIds(embs), 16 + |DocidTable(DocIds(embs))|))
  {
    var ids := DocIds(embs);
    var h := Header(dim, |embs|);
    var t := DocidTable(ids);
    var bs := IndexFile(dim, embs, bits);
    assert bs == h + t + VectorBytes(embs, bits);
    assert bs[..16] == h;
    HeaderRead(bs, dim, |embs|);
    assert LittleEndian.Holds(bs, 16, t);
    ReadDocidTable(bs, 16, ids);
  }
}
