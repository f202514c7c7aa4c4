/** barrel.cpp, readBlock: a block file is read line by line. A line is
    trimmed; its first white-space separated word is the term; the rest,
    trimmed, is cut at ';' into `docid:positions` segments and each
    position list at ',' into tokens. Pieces that are empty, that lack a
    ':', or whose docid `stoul` rejects are skipped, as are position tokens
    that are empty or that `stoul` rejects. A term met on several lines
    collects the postings of all of them, in file order. */
module BarrelBlock {
  import opened Common
  import opened Text
  import opened Decimal
  import Indexer
  import IndexerMerge

  type BlockPosting = Indexer.BlockPosting

  /** The characters `trim` removes. */
  const Blanks: set<char> := {' ', '\t', '\r', '\n'}

  // ---------------------------------------------------------------------
  // The parse of one line

  /** A position token: trimmed, then read with `stoul` and cast to
      `uint32_t`; nothing when it is empty or `stoul` throws. */
  function PositionToken(tok: string): seq<uint32> {
    var t := Trim(tok, Blanks);
    if t == [] then []
    else match Stoul(t) case None => [] case Some(v) => [Low32(v)]
  }

  function PositionTokens(ts: seq<string>): seq<uint32> {
    if ts == [] then [] else PositionToken(ts[0]) + PositionTokens(ts[1..])
  }

  /** One segment `docid:positions`: trimmed; skipped when it is empty, has
      no ':', has an empty docid or position list once trimmed, or when
      `stoul` rejects the docid. A docid with no valid position token still
      gives a posting, without positions. */
  function SegmentOf(piece: string): seq<BlockPosting> {
    var d := Trim(piece, Blanks);
    if d == [] then [] else SegmentAt(d, Find(d, ':'))
  }

  /** A trimmed segment cut at its first ':'. */
  function SegmentAt(d: string, colon: nat): seq<BlockPosting>
    requires colon <= |d|
  {
    if colon == |d| then [] else PostingOf(Trim(d[..colon], Blanks), Trim(d[colon + 1..], Blanks))
  }

  /** The trimmed docid text and position list of a segment. */
  function PostingOf(ds: string, ps: string): seq<BlockPosting> {
    if ds == [] || ps == [] then []
    else
      match Stoul(ds)
      case None => []
      case Some(v) => [Indexer.BlockPosting(Low32(v), PositionTokens(Split(ps, ',')))]
  }

  function SegmentsOf(pieces: seq<string>): seq<BlockPosting> {
    if pieces == [] then [] else SegmentOf(pieces[0]) + SegmentsOf(pieces[1..])
  }

  /** A whole line: its term and postings, or `None` when the line is
      skipped (blank, no postings text, or no posting survives). */
  function LineOf(line: string): Option<(string, seq<BlockPosting>)> {
    var l := Trim(line, Blanks);
    var a := SkipSpace(l, 0);
    if l == [] || a == |l| then None
    else
      var b := WordEnd(l, a);
      var rest := Trim(l[b..], Blanks);
      if rest == [] then None
      else
        var ps := SegmentsOf(Split(rest, ';'));
        if ps == [] then None else Some((l[a..b], ps))
  }

  /** The block index after the given lines: each parsed line appends its
      postings to its term's list. */
  function BlockOf(lines: seq<string>): map<string, seq<BlockPosting>> {
    if lines == [] then map[] else AddLine(BlockOf(lines[..|lines| - 1]), LineOf(lines[|lines| - 1]))
  }

  /** A parsed line appends its postings to its term's list. */
  function AddLine(m: map<string, seq<BlockPosting>>, parsed: Option<(string, seq<BlockPosting>)>)
    : map<string, seq<BlockPosting>>
  {
    match parsed
    case None => m
    case Some((t, ps)) => m[t := (if t in m then m[t] else []) + ps]
  }

  /** Every posting the lines give for `t`, in file order. */
  function TermLines(lines: seq<string>, t: string): seq<BlockPosting> {
    if lines == [] then []
    else
      TermLines(lines[..|lines| - 1], t)
      + match LineOf(lines[|lines| - 1])
        case Some((u, ps)) => if u == t then ps else []
        case None => []
  }

  // ---------------------------------------------------------------------
  // The loops of readBlock

  /** The body of the loop over position tokens: the token trimmed and,
      unless it is empty or `stoul` throws, its value. */
  method ReadPosition(tok: string) returns (r: seq<uint32>)
    ensures r == PositionToken(tok)
  {
    r := [];
    var pos := Trim(tok, Blanks);
    if pos == [] {
      return;
    }
    match Stoul(pos)
    case None =>
    case Some(p) =>
      r := [Low32(p)];
  }

  /** The inner loop over the ','-separated tokens of a position list. */
  method ParsePositions(posStr: string) returns (positions: seq<uint32>)
    ensures positions == PositionTokens(Split(posStr, ','))
  {
    var toks := Split(posStr, ',');
    positions := [];
    for i := 0 to |toks|
      invariant positions + PositionTokens(toks[i..]) == PositionTokens(toks)
    {
      SliceCons(toks, i);
      var p := ReadPosition(toks[i]);
      ConcatAssoc(positions, p, PositionTokens(toks[i + 1..]));
      positions := positions + p;
    }
  }

  /** The body of the loop over segments: one segment parsed. */
  method ParseSegment(piece: string) returns (r: seq<BlockPosting>)
    ensures r == SegmentOf(piece)
  {
    r := [];
    var docPost := Trim(piece, Blanks);
    if docPost == [] {
      return;
    }
    var colon := Find(docPost, ':');
    r := ParseAtColon(docPost, colon);
  }

  /** The segment cut at its ':', if it has one, and both parts trimmed. */
  method ParseAtColon(docPost: string, colon: nat) returns (r: seq<BlockPosting>)
    requires colon <= |docPost|
    ensures r == SegmentAt(docPost, colon)
  {
    r := [];
    if colon == |docPost| {
      return;
    }
    var docidStr := Trim(docPost[..colon], Blanks);
    var posStr := Trim(docPost[colon + 1..], Blanks);
    r := ParseDocPositions(docidStr, posStr);
  }

  /** The rest of that body: the docid read, the positions parsed. */
  method ParseDocPositions(docidStr: string, posStr: string) returns (r: seq<BlockPosting>)
    ensures r == PostingOf(docidStr, posStr)
  {
    r := [];
    if docidStr == [] || posStr == [] {
      return;
    }
    match Stoul(docidStr)
    case None =>
    case Some(d) =>
      var positions := ParsePositions(posStr);
      r := [Indexer.BlockPosting(Low32(d), positions)];
  }

  /** The loop over the ';'-separated segments of a line. */
  method ParsePostings(postingsStr: string) returns (postings: seq<BlockPosting>)
    ensures postings == SegmentsOf(Split(postingsStr, ';'))
  {
    var segs := Split(postingsStr, ';');
    postings := [];
    for i := 0 to |segs|
      invariant postings + SegmentsOf(segs[i..]) == SegmentsOf(segs)
    {
      SliceCons(segs, i);
      var seg := ParseSegment(segs[i]);
      ConcatAssoc(postings, seg, SegmentsOf(segs[i + 1..]));
      postings := postings + seg;
    }
  }

  /** The body of the loop over lines, up to the update of the index: the
      term and postings of one line, if it is not skipped. */
  method ParseLine(raw: string) returns (r: Option<(string, seq<BlockPosting>)>)
    ensures r == LineOf(raw)
  {
    r := None;
    var line := Trim(raw, Blanks);
    if line == [] {
      return;
    }
    var a := SkipSpace(line, 0);
    if a == |line| {
      return;
    }
    var b := WordEnd(line, a);
    var term := line[a..b];
    var postingsStr := Trim(line[b..], Blanks);
    if postingsStr == [] {
      return;
    }
    var postings := ParsePostings(postingsStr);
    if postings != [] {
      r := Some((term, postings));
    }
  }

  /** The loop over the lines of a block file. */
  method ReadBlock(lines: seq<string>) returns (blockIndex: map<string, seq<BlockPosting>>)
    ensures blockIndex == BlockOf(lines)
  {
    blockIndex := map[];
    for i := 0 to |lines|
      invariant blockIndex == BlockOf(lines[..i])
    {
      assert lines[..i + 1][..i] == lines[..i];
      var parsed := ParseLine(lines[i]);
      assert BlockOf(lines[..i + 1]) == AddLine(blockIndex, parsed);
      match parsed
      case None =>
      case Some((term, postings)) =>
        var vec := if term in blockIndex then blockIndex[term] else [];
        blockIndex := blockIndex[term := vec + postings];
    }
    assert lines[..|lines|] == lines;
  }

  // ---------------------------------------------------------------------
  // Properties

  /** The lines of a term append up: a term is in the block index exactly
      when some line parses with it, and its list is every posting of
      those lines, in file order. */
  lemma {:induction false} BlockCollectsLines(lines: seq<string>, t: string)
    ensures t in BlockOf(lines) <==> TermLines(lines, t) != []
    ensures t in BlockOf(lines) ==> BlockOf(lines)[t] == TermLines(lines, t)
  {
    if lines != [] {
      BlockCollectsLines(lines[..|lines| - 1], t);
    }
  }

  lemma NotBlank(c: char)
    requires IsDigit(c)
    ensures c !in Blanks
  {
  }

  /** Position tokens written with `to_string` read back as the numbers. */
  lemma {:induction false} TokensOfDecimals(xs: seq<uint32>)
    ensures PositionTokens(Decimals(xs)) == xs
  {
    if xs != [] {
      var d := ToDecimal(xs[0]);
      NotBlank(d[0]);
      NotBlank(d[|d| - 1]);
      TrimKeeps(d, Blanks);
      assert d + "" == d;
      StoulOfDecimal(xs[0], "");
      assert Decimals(xs)[1..] == Decimals(xs[1..]);
      TokensOfDecimals(xs[1..]);
    }
  }

  function Decimals(xs: seq<uint32>): (r: seq<string>)
    ensures |r| == |xs| && forall i :: 0 <= i < |xs| ==> r[i] == ToDecimal(xs[i])
  {
    if xs == [] then [] else [ToDecimal(xs[0])] + Decimals(xs[1..])
  }

  lemma {:induction false} JoinNumbersIsJoin(xs: seq<uint32>, sep: char)
    ensures Indexer.JoinNumbers(xs, sep) == Join(Decimals(xs), sep)
  {
    if |xs| > 1 {
      JoinNumbersIsJoin(xs[1..], sep);
      assert Decimals(xs)[1..] == Decimals(xs[1..]);
    }
  }

  lemma DecimalsFree(xs: seq<uint32>, c: char)
    requires !IsDigit(c)
    ensures FreeOf(Decimals(xs), c)
  {
    forall i | 0 <= i < |xs| ensures c !in Decimals(xs)[i] {
      var d := ToDecimal(xs[i]);
      assert forall j :: 0 <= j < |d| ==> d[j] != c;
    }
  }

  /** A position list written by the indexer, `p1,p2,...`, reads back as
      its positions. */
  lemma PositionsRoundTrip(xs: seq<uint32>)
    ensures PositionTokens(Split(Indexer.JoinNumbers(xs, ','), ',')) == xs
  {
    JoinNumbersIsJoin(xs, ',');
    if xs == [] {
      assert Split("", ',') == [""];
    } else {
      DecimalsFree(xs, ',');
      SplitJoin(Decimals(xs), ',');
    }
    TokensOfDecimals(xs);
  }

  /** A non-empty position list starts and ends with a digit. */
  lemma {:induction false} NumbersEnds(xs: seq<uint32>)
    requires xs != []
    ensures var j := Indexer.JoinNumbers(xs, ','); j != [] && IsDigit(j[0]) && IsDigit(j[|j| - 1])
  {
    if |xs| > 1 {
      NumbersEnds(xs[1..]);
    }
  }

  /** The text of one posting: digits, ':' and ','. */
  lemma SegmentChars(b: BlockPosting)
    ensures forall j :: 0 <= j < |Indexer.SegmentText(b)| ==>
              IsDigit(Indexer.SegmentText(b)[j]) || Indexer.SegmentText(b)[j] in {':', ','}
  {
    IndexerMerge.JoinNumbersText(b.positions);
  }

  /** Where the ':' of a posting's text stands. */
  lemma SegmentParts(b: BlockPosting)
    requires b.positions != []
    ensures var s := Indexer.SegmentText(b);
            var d := ToDecimal(b.docid);
            Trim(s, Blanks) == s && s != [] && Find(s, ':') == |d| && |d| < |s|
            && s[..|d|] == d && s[|d| + 1..] == Indexer.JoinNumbers(b.positions, ',')
  {
    var d := ToDecimal(b.docid);
    var p := Indexer.JoinNumbers(b.positions, ',');
    var s := Indexer.SegmentText(b);
    assert s == d + [':'] + p;
    NumbersEnds(b.positions);
    NotBlank(d[0]);
    NotBlank(p[|p| - 1]);
    assert s[0] == d[0] && s[|s| - 1] == p[|p| - 1];
    TrimKeeps(s, Blanks);
    assert ':' !in d by {
      assert forall j :: 0 <= j < |d| ==> d[j] != ':';
    }
    FindAfter(d, ':', p);
  }

  /** The docid and the positions the indexer writes read back. */
  lemma PostingOfDecimals(b: BlockPosting)
    requires b.positions != []
    ensures PostingOf(Trim(ToDecimal(b.docid), Blanks), Trim(Indexer.JoinNumbers(b.positions, ','), Blanks)) == [b]
  {
    var d := ToDecimal(b.docid);
    var p := Indexer.JoinNumbers(b.positions, ',');
    NumbersEnds(b.positions);
    NotBlank(d[0]);
    NotBlank(d[|d| - 1]);
    NotBlank(p[0]);
    NotBlank(p[|p| - 1]);
    TrimKeeps(d, Blanks);
    TrimKeeps(p, Blanks);
    assert d + "" == d;
    StoulOfDecimal(b.docid, "");
    PositionsRoundTrip(b.positions);
  }

  /** The text the indexer writes for a posting with positions reads back
      as that posting. */
  lemma SegmentRoundTrip(b: BlockPosting)
    requires b.positions != []
    ensures SegmentOf(Indexer.SegmentText(b)) == [b]
  {
    SegmentParts(b);
    PostingOfDecimals(b);
  }

  function Segments(pl: seq<BlockPosting>): (r: seq<string>)
    ensures |r| == |pl| && forall i :: 0 <= i < |pl| ==> r[i] == Indexer.SegmentText(pl[i])
  {
    if pl == [] then [] else [Indexer.SegmentText(pl[0])] + Segments(pl[1..])
  }

  lemma {:induction false} PostingsTextIsJoin(pl: seq<BlockPosting>)
    ensures Indexer.PostingsText(pl) == Join(Segments(pl), ';')
  {
    if |pl| > 1 {
      PostingsTextIsJoin(pl[1..]);
      assert Segments(pl)[1..] == Segments(pl[1..]);
    }
  }

  /** Every posting carries at least one position. */
  predicate Positioned(pl: seq<BlockPosting>) {
    forall i :: 0 <= i < |pl| ==> pl[i].positions != []
  }

  lemma {:induction false} SegmentsRoundTrip(pl: seq<BlockPosting>)
    requires Positioned(pl)
    ensures SegmentsOf(Segments(pl)) == pl
  {
    if pl != [] {
      SegmentRoundTrip(pl[0]);
      assert Segments(pl)[1..] == Segments(pl[1..]);
      SegmentsRoundTrip(pl[1..]);
      assert pl == [pl[0]] + pl[1..];
    }
  }

  /** The postings text of a list with positions ends with a digit. */
  lemma {:induction false} PostingsTextEnds(pl: seq<BlockPosting>)
    requires pl != [] && Positioned(pl)
    ensures var t := Indexer.PostingsText(pl); t != [] && IsDigit(t[0]) && IsDigit(t[|t| - 1])
  {
    NumbersEnds(pl[0].positions);
    if |pl| > 1 {
      PostingsTextEnds(pl[1..]);
    }
  }

  /** The postings text reads back as the postings. */
  lemma PostingsRoundTrip(pl: seq<BlockPosting>)
    requires pl != [] && Positioned(pl)
    ensures SegmentsOf(Split(Indexer.PostingsText(pl), ';')) == pl
  {
    PostingsTextIsJoin(pl);
    forall i | 0 <= i < |pl| ensures ';' !in Segments(pl)[i] {
      SegmentChars(pl[i]);
    }
    SplitJoin(Segments(pl), ';');
    SegmentsRoundTrip(pl);
  }

  /** A block line neither starts nor ends with a blank, and its word
      ends at the tab. */
  lemma LineTerm(term: string, pl: seq<BlockPosting>)
    requires term != [] && forall j :: 0 <= j < |term| ==> !IsSpace(term[j])
    requires pl != [] && Positioned(pl)
    ensures var line := Indexer.BlockLine(term, pl);
            Trim(line, Blanks) == line && SkipSpace(line, 0) == 0 && WordEnd(line, 0) == |term|
            && line[0..|term|] == term && line[|term|..] == "\t" + Indexer.PostingsText(pl)
  {
    var p := Indexer.PostingsText(pl);
    var line := Indexer.BlockLine(term, pl);
    assert line == term + ("\t" + p);
    PostingsTextEnds(pl);
    WordThenTab(term, p);
  }

  /** A word followed by a tab and text ending in a digit: trimming keeps
      it all, there is nothing to skip, and the word ends at the tab. */
  lemma WordThenTab(term: string, rest: string)
    requires term != [] && forall j :: 0 <= j < |term| ==> !IsSpace(term[j])
    requires rest != [] && IsDigit(rest[|rest| - 1])
    ensures var line := term + ("\t" + rest);
            Trim(line, Blanks) == line && SkipSpace(line, 0) == 0
    ensures var line := term + ("\t" + rest);
            WordEnd(line, 0) == |term| && line[0..|term|] == term && line[|term|..] == "\t" + rest
  {
    NotBlank(rest[|rest| - 1]);
    assert !IsSpace(term[0]);
    TrimKeeps(term + ("\t" + rest), Blanks);
    var line := term + ("\t" + rest);
    var b := |term|;
    forall j | 0 <= j < b ensures !IsSpace(line[j]) {
      assert line[j] == term[j];
    }
    assert WordEnd(line, b) == b;
    WordEndOver(line, 0, b);
  }

  /** After the term, trimming leaves the postings text. */
  lemma LineRest(pl: seq<BlockPosting>)
    requires pl != [] && Positioned(pl)
    ensures Trim("\t" + Indexer.PostingsText(pl), Blanks) == Indexer.PostingsText(pl)
  {
    var p := Indexer.PostingsText(pl);
    var rest := "\t" + p;
    PostingsTextEnds(pl);
    NotBlank(p[0]);
    NotBlank(p[|p| - 1]);
    assert FirstNotIn(rest, Blanks, 0) == 1 by {
      assert FirstNotIn(rest, Blanks, 1) == 1;
    }
    assert rest[1..] == p;
  }

  /** A line of a block file the indexer writes is read back as its term
      and postings, as long as the term is a non-empty word without white
      space and every posting has positions (the indexer writes no other). */
  lemma BlockLineRoundTrip(term: string, pl: seq<BlockPosting>)
    requires term != [] && forall j :: 0 <= j < |term| ==> !IsSpace(term[j])
    requires pl != [] && Positioned(pl)
    ensures LineOf(Indexer.BlockLine(term, pl)) == Some((term, pl))
  {
    LineTerm(term, pl);
    LineRest(pl);
    PostingsRoundTrip(pl);
  }

  lemma {:induction false} WordEndOver(s: string, i: nat, k: nat)
    requires i <= k <= |s| && forall j :: i <= j < k ==> !IsSpace(s[j])
    ensures WordEnd(s, i) == WordEnd(s, k)
    decreases k - i
  {
    if i < k {
      WordEndOver(s, i + 1, k);
    }
  }
}
