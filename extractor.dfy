/** The text handling of extractor.cpp: `trim`, `normalize_whitespace`,
    `sanitize_for_field`, the TSV line `write_tsv_line` writes, the
    " | " join of the sections column, and the choice of the source and of
    the DOI-or-id column. */
module Extractor {
  import opened Common
  import Text
  import CleanerText

  /** The characters `trim` cuts. */
  const Blank: set<char> := {' ', '\t', '\n', '\r'}

  /** `trim`. */
  function Trim(s: string): string {
    Text.Trim(s, Blank)
  }

  /** `trim` cuts exactly the blanks at both ends: what is left is a slice
      of `s` that neither starts nor ends with a blank, and all-blank text
      gives "". */
  lemma TrimSpec(s: string)
    ensures var r := Trim(s);
      (r != [] ==> r[0] !in Blank && r[|r| - 1] !in Blank)
      && exists a, b :: 0 <= a <= b <= |s| && r == s[a..b]
    ensures Trim(s) == [] <==> forall j :: 0 <= j < |s| ==> s[j] in Blank
  {
    var a, b := Text.TrimSlice(s, Blank);
  }

  // ---------------------------------------------------------------------
  // normalize_whitespace

  /** The text with '\r' dropped and every run of white space (as `isspace`
      knows it) written as one space. A space is pushed only when the text
      so far does not end in one, which is the source's `in_space` flag. */
  function Squeezed(s: string): string
    decreases |s|
  {
    if s == [] then []
    else
      var o := Squeezed(s[..|s| - 1]);
      var c := s[|s| - 1];
      if c == '\r' then o
      else if IsSpace(c) then (if o != [] && o[|o| - 1] == ' ' then o else o + [' '])
      else o + [c]
  }

  /** `normalize_whitespace`: squeezed, then trimmed. */
  function Collapsed(s: string): string {
    Trim(Squeezed(s))
  }

  /** The squeezing loop of `normalize_whitespace`, then `trim`. */
  method NormalizeWhitespace(s: string) returns (r: string)
    ensures r == Collapsed(s)
  {
    var out: string := [];
    var inSpace := false;
    for i := 0 to |s|
      invariant out == Squeezed(s[..i])
      invariant inSpace <==> out != [] && out[|out| - 1] == ' '
    {
      var c := s[i];
      assert s[..i + 1][..i] == s[..i];
      if c == '\r' {
        continue;
      }
      if IsSpace(c) {
        if !inSpace {
          out := out + [' '];
          inSpace := true;
        }
      } else {
        out := out + [c];
        inSpace := false;
      }
    }
    assert s[..|s|] == s;
    r := Trim(out);
  }

  /** No '\r', no white space but ' ', and no two spaces in a row. */
  predicate Tidy(r: string) {
    (forall i :: 0 <= i < |r| ==> r[i] != '\r' && (IsSpace(r[i]) ==> r[i] == ' '))
    && forall i :: 1 <= i < |r| ==> !(r[i - 1] == ' ' && r[i] == ' ')
  }

  lemma {:induction false} SqueezedTidy(s: string)
    ensures Tidy(Squeezed(s))
    decreases |s|
  {
    if s != [] {
      SqueezedTidy(s[..|s| - 1]);
    }
  }

  lemma TidySlice(r: string, a: nat, b: nat)
    requires Tidy(r) && a <= b <= |r|
    ensures Tidy(r[a..b])
  {
    var t := r[a..b];
    assert forall i :: 0 <= i < |t| ==> t[i] == r[a + i];
  }

  /** Tidy text is squeezed into itself. */
  lemma {:induction false} SqueezedFixed(r: string)
    requires Tidy(r)
    ensures Squeezed(r) == r
    decreases |r|
  {
    if r != [] {
      var p := r[..|r| - 1];
      TidySlice(r, 0, |r| - 1);
      SqueezedFixed(p);
      assert p + [r[|r| - 1]] == r;
      if |r| >= 2 {
        assert p[|p| - 1] == r[|r| - 2];
      }
    }
  }

  /** The output of `normalize_whitespace`: no '\r', each white-space run
      one space, and no space at either end. */
  lemma CollapsedSpec(s: string)
    ensures var r := Collapsed(s);
      Tidy(r) && (r != [] ==> r[0] != ' ' && r[|r| - 1] != ' ')
  {
    var q := Squeezed(s);
    SqueezedTidy(s);
    var a, b := Text.TrimSlice(q, Blank);
    TidySlice(q, a, b);
  }

  /** `normalize_whitespace` is idempotent. */
  lemma CollapsedIdempotent(s: string)
    ensures Collapsed(Collapsed(s)) == Collapsed(s)
  {
    var r := Collapsed(s);
    CollapsedSpec(s);
    SqueezedFixed(r);
    Text.TrimKeeps(r, Blank);
  }

  // ---------------------------------------------------------------------
  // sanitize_for_field

  /** `sanitize_for_field`: tabs and line breaks become spaces (the loop of
      `CleanerText.BlankControls`), then the text is normalized. A lone
      '\r' thus separates words here, where `normalize_whitespace` alone
      drops it. */
  function Sanitized(s: string): string {
    Collapsed(CleanerText.Blanked(s))
  }

  method SanitizeForField(s: string) returns (r: string)
    ensures r == Sanitized(s)
  {
    var t := CleanerText.BlankControls(s);
    r := NormalizeWhitespace(t);
  }

  /** A sanitized field holds no tab and no line break, and does not start
      or end with a space. */
  lemma SanitizedClean(s: string)
    ensures var r := Sanitized(s);
      '\t' !in r && '\n' !in r && '\r' !in r && (r != [] ==> r[0] != ' ' && r[|r| - 1] != ' ')
  {
    var r := Sanitized(s);
    CollapsedSpec(CleanerText.Blanked(s));
    assert IsSpace('\t') && IsSpace('\n');
  }

  lemma SanitizedIdempotent(s: string)
    ensures Sanitized(Sanitized(s)) == Sanitized(s)
  {
    var r := Sanitized(s);
    SanitizedClean(s);
    CleanerText.BlankedSpec(r);
    CollapsedIdempotent(CleanerText.Blanked(s));
  }

  // ---------------------------------------------------------------------
  // The TSV line

  function SanitizeAll(fs: seq<string>): (rs: seq<string>)
    ensures |rs| == |fs|
  {
    seq(|fs|, i requires 0 <= i < |fs| => Sanitized(fs[i]))
  }

  /** The line `write_tsv_line` writes for docid, title, abstract,
      sections, authors, publication date, DOI or id, and source. */
  function TsvLine(fs: seq<string>): string
    requires |fs| == 8
  {
    Text.Join(SanitizeAll(fs), '\t') + "\n"
  }

  lemma SanitizedFree(fs: seq<string>, c: char)
    requires c == '\t' || c == '\n'
    ensures Text.FreeOf(SanitizeAll(fs), c)
  {
    forall i | 0 <= i < |fs| ensures c !in SanitizeAll(fs)[i] {
      SanitizedClean(fs[i]);
    }
  }

  /** The line ends in its one newline, and its tabs cut it into exactly
      the eight sanitized fields. */
  lemma TsvLineShape(fs: seq<string>)
    requires |fs| == 8
    ensures var line := TsvLine(fs);
      line[|line| - 1] == '\n' && '\n' !in line[..|line| - 1]
      && Text.Split(line[..|line| - 1], '\t') == SanitizeAll(fs)
  {
    var line := TsvLine(fs);
    var body := Text.Join(SanitizeAll(fs), '\t');
    assert line[..|line| - 1] == body;
    SanitizedFree(fs, '\t');
    SanitizedFree(fs, '\n');
    Text.SplitJoin(SanitizeAll(fs), '\t');
    Text.JoinFree(SanitizeAll(fs), '\t', '\n');
  }

  /** The cleaner reads the line back into the fields the extractor
      wrote. */
  lemma TsvRoundTrip(fs: seq<string>)
    requires |fs| == 8
    ensures var line := TsvLine(fs);
      CleanerText.Columns(line[..|line| - 1]) == SanitizeAll(fs)
  {
    var line := TsvLine(fs);
    var rs := SanitizeAll(fs);
    assert line[..|line| - 1] == Text.Join(rs, '\t');
    SanitizedFree(fs, '\t');
    assert Text.FreeOf(rs[..7], '\t') by {
      forall i | 0 <= i < 7 ensures '\t' !in rs[..7][i] {
        assert rs[..7][i] == rs[i];
      }
    }
    CleanerText.ColumnsRoundTrip(rs);
  }

  // ---------------------------------------------------------------------
  // The sections column, the source and the DOI-or-id column

  /** The sections column of a JSON paper: the sanitized sections joined
      with " | ". */
  function SectionsJoined(sections: seq<string>): string {
    Text.JoinWith(SanitizeAll(sections), " | ")
  }

  /** The cleaner's `split_and_trim` gets the sanitized sections back when
      none of them holds " | " with what follows it. */
  lemma SectionsJoinedSplit(sections: seq<string>)
    requires forall i :: 0 <= i < |sections| ==> Sanitized(sections[i]) != []
    requires forall i :: 0 <= i < |sections| ==> CleanerText.Separable(Sanitized(sections[i]), " | ")
    ensures CleanerText.Pieces(SectionsJoined(sections), " | ") == SanitizeAll(sections)
  {
    var rs := SanitizeAll(sections);
    forall p | p in rs ensures CleanerText.Splittable(p, " | ") {
      var i :| 0 <= i < |rs| && rs[i] == p;
      SanitizedClean(sections[i]);
    }
    CleanerText.PiecesJoin(rs, " | ");
  }

  /** "pmc" for a paper id that starts with "PMC", "pdf" otherwise. */
  function SourceOf(paperId: string): (r: string)
    ensures r == "pmc" <==> IsPrefix("PMC", paperId)
    ensures r == "pmc" || r == "pdf"
  {
    if paperId != [] && |paperId| >= 3 && paperId[..3] == "PMC" then "pmc" else "pdf"
  }

  /** The DOI when there is one, the paper id otherwise. */
  function DoiOrId(doi: string, paperId: string): (r: string)
    ensures doi != [] ==> r == doi
    ensures doi == [] ==> r == paperId
  {
    if doi == [] then paperId else doi
  }
}
