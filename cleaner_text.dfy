/** The text handling of cleaner.cpp outside the stemmer and the
    tokenizer: `normalize_nfc` without ICU, the repair of words hyphenated
    across a line break, the blanking of the remaining line breaks and
    tabs, `split_and_trim`, the cut of an extractor TSV line into its eight
    columns, the section name of a " | "-separated part, and the stopword
    file's line rule. */
module CleanerText {
  import opened Common
  import Text
  import Searcher

  // ---------------------------------------------------------------------
  // normalize_nfc (no ICU)

  /** What one character becomes: a carriage return is dropped, a printable
      character is kept, a newline becomes a space, and any other control
      character is dropped. */
  function NormChar(c: char): string {
    if c == '\r' then []
    else if c >= ' ' then [c]
    else if c == '\n' then [' ']
    else []
  }

  /** The normalized text: no control character is left, and the text
      does not grow. */
  function Normalized(s: string): (t: string)
    ensures |t| <= |s|
    ensures forall i :: 0 <= i < |t| ==> t[i] >= ' '
    decreases |s|
  {
    if s == [] then [] else Normalized(s[..|s| - 1]) + NormChar(s[|s| - 1])
  }

  /** `normalize_nfc`: one pass, one character at a time. */
  method NormalizeNfc(s: string) returns (t: string)
    ensures t == Normalized(s)
  {
    t := [];
    for i := 0 to |s|
      invariant t == Normalized(s[..i])
    {
      var c := s[i];
      assert s[..i + 1][..i] == s[..i];
      if c == '\r' {
        continue;
      }
      if c >= ' ' {
        t := t + [c];
      } else if c == '\n' {
        t := t + [' '];
      }
    }
    assert s[..|s|] == s;
  }

  /** Normalization works character by character. */
  lemma {:induction false} NormalizedAppend(a: string, b: string)
    ensures Normalized(a + b) == Normalized(a) + Normalized(b)
    decreases |b|
  {
    if b != [] {
      var b' := b[..|b| - 1];
      assert (a + b)[..|a + b| - 1] == a + b';
      NormalizedAppend(a, b');
    } else {
      assert a + b == a;
    }
  }

  /** Printable text is left as it is. */
  lemma {:induction false} NormalizedPrintable(s: string)
    requires forall i :: 0 <= i < |s| ==> s[i] >= ' '
    ensures Normalized(s) == s
    decreases |s|
  {
    if s != [] {
      var c := s[|s| - 1];
      assert c >= ' ';
      assert NormChar(c) == [c];
      NormalizedPrintable(s[..|s| - 1]);
      assert s[..|s| - 1] + [c] == s;
    }
  }

  /** Normalizing twice is normalizing once. */
  lemma NormalizedIdempotent(s: string)
    ensures Normalized(Normalized(s)) == Normalized(s)
  {
    NormalizedPrintable(Normalized(s));
  }

  /** A newline between two pieces of text becomes one space. */
  lemma NormalizedNewline(a: string, b: string)
    ensures Normalized(a + ['\n'] + b) == Normalized(a) + [' '] + Normalized(b)
  {
    NormalizedAppend(a + ['\n'], b);
    NormalizedAppend(a, ['\n']);
    assert Normalized(['\n']) == [' '] by {
      assert ['\n'][..0] == [];
    }
  }

  // ---------------------------------------------------------------------
  // Hyphenation across line breaks, and remaining breaks and tabs

  predicate IsBreak(c: char) { c == '\n' || c == '\r' }

  /** The first index from `i` on that is not a line break. */
  function SkipBreaks(s: string, i: nat): (k: nat)
    requires i <= |s|
    ensures i <= k <= |s| && (k < |s| ==> !IsBreak(s[k]))
    decreases |s| - i
  {
    if i < |s| && IsBreak(s[i]) then SkipBreaks(s, i + 1) else i
  }

  /** A hyphen right before a line break. */
  predicate HyphenBreak(s: string, i: nat)
    requires i < |s|
  {
    s[i] == '-' && i + 1 < |s| && IsBreak(s[i + 1])
  }

  /** The text from `i` on with every hyphen that precedes a line break
      dropped together with the run of line breaks after it. */
  function Repaired(s: string, i: nat): string
    requires i <= |s|
    decreases |s| - i
  {
    if i == |s| then []
    else if HyphenBreak(s, i) then Repaired(s, SkipBreaks(s, i + 1))
    else [s[i]] + Repaired(s, i + 1)
  }

  /** The hyphenation repair loop of `tokenize_field`. */
  method RepairHyphens(norm: string) returns (tmp: string)
    ensures tmp == Repaired(norm, 0)
  {
    tmp := [];
    var i := 0;
    while i < |norm|
      invariant i <= |norm| && tmp + Repaired(norm, i) == Repaired(norm, 0)
      decreases |norm| - i
    {
      if norm[i] == '-' && i + 1 < |norm| && (norm[i + 1] == '\n' || norm[i + 1] == '\r') {
        assert HyphenBreak(norm, i);
        i := SkipBreakRun(norm, i + 1);
      } else {
        assert Repaired(norm, i) == [norm[i]] + Repaired(norm, i + 1);
        tmp := tmp + [norm[i]];
        i := i + 1;
      }
    }
  }

  /** The inner loop that steps over the line breaks after a hyphen. */
  method SkipBreakRun(norm: string, start: nat) returns (i: nat)
    requires start <= |norm|
    ensures i == SkipBreaks(norm, start)
  {
    i := start;
    while i < |norm| && (norm[i] == '\n' || norm[i] == '\r')
      invariant start <= i <= |norm| && SkipBreaks(norm, i) == SkipBreaks(norm, start)
      decreases |norm| - i
    {
      i := i + 1;
    }
  }

  predicate NoBreaks(s: string) {
    forall i :: 0 <= i < |s| ==> !IsBreak(s[i])
  }

  /** Without line breaks there is nothing to repair. */
  lemma {:induction false} RepairedNoBreaks(s: string, i: nat)
    requires i <= |s| && NoBreaks(s)
    ensures Repaired(s, i) == s[i..]
    decreases |s| - i
  {
    if i < |s| {
      RepairedNoBreaks(s, i + 1);
      assert s[i..] == [s[i]] + s[i + 1..];
    }
  }

  /** A hyphen and a line break at `h` followed by no more breaks: the
      repair drops both and keeps the rest. */
  lemma RepairedAtHyphen(s: string, h: nat)
    requires h + 2 <= |s| && s[h] == '-' && s[h + 1] == '\n' && NoBreaks(s[h + 2..])
    ensures Repaired(s, h) == s[h + 2..]
  {
    assert HyphenBreak(s, h);
    assert SkipBreaks(s, h + 2) == h + 2 by {
      if h + 2 < |s| {
        assert s[h + 2] == s[h + 2..][0];
      }
    }
    RepairedNoBreaksShift(s, h + 2);
  }

  /** A character that does not start a hyphen break is kept. */
  lemma RepairedKeep(s: string, i: nat)
    requires i + 1 < |s| && !IsBreak(s[i + 1])
    ensures Repaired(s, i) == [s[i]] + Repaired(s, i + 1)
  {
  }

  /** Before the first line break the text is kept as it is. */
  lemma {:induction false} RepairedBefore(s: string, i: nat, h: nat)
    requires i <= h < |s| && forall j :: i <= j <= h ==> !IsBreak(s[j])
    ensures Repaired(s, i) == s[i..h] + Repaired(s, h)
    decreases h - i
  {
    if i < h {
      RepairedKeep(s, i);
      RepairedBefore(s, i + 1, h);
      SliceHead(s, i, h, Repaired(s, h));
    }
  }

  lemma {:induction false} RepairedNoBreaksShift(s: string, i: nat)
    requires i <= |s| && NoBreaks(s[i..])
    ensures Repaired(s, i) == s[i..]
    decreases |s| - i
  {
    if i < |s| {
      assert s[i] == s[i..][0];
      var rest := s[i + 1..];
      assert NoBreaks(rest) by {
        forall j | 0 <= j < |rest| ensures !IsBreak(rest[j]) {
          assert rest[j] == s[i..][j + 1];
        }
      }
      RepairedNoBreaksShift(s, i + 1);
      assert s[i..] == [s[i]] + s[i + 1..];
    }
  }

  /** "immuno-\nlogy" becomes "immunology": a word hyphenated across a
      line break is joined again. */
  lemma RepairedJoins(a: string, b: string)
    requires NoBreaks(a) && NoBreaks(b)
    ensures Repaired(a + "-\n" + b, 0) == a + b
  {
    var s := a + "-\n" + b;
    var h := |a|;
    assert s[h + 2..] == b;
    assert s[..h] == a;
    assert forall j :: 0 <= j <= h ==> !IsBreak(s[j]) by {
      forall j | 0 <= j <= h ensures !IsBreak(s[j]) {
        if j < h {
          assert s[j] == a[j];
        }
      }
    }
    RepairedAtHyphen(s, h);
    RepairedBefore(s, 0, h);
  }

  predicate IsControl(c: char) { c == '\n' || c == '\r' || c == '\t' }

  /** Every newline, carriage return and tab turned into a space. */
  function Blanked(s: string): (t: string)
    ensures |t| == |s|
  {
    seq(|s|, i requires 0 <= i < |s| => if IsControl(s[i]) then ' ' else s[i])
  }

  /** The blanking loop of `tokenize_field`, rewriting characters in place. */
  method BlankControls(s: string) returns (t: string)
    ensures t == Blanked(s)
  {
    t := s;
    for i := 0 to |t|
      invariant |t| == |s|
      invariant forall j :: 0 <= j < i ==> t[j] == Blanked(s)[j]
      invariant forall j :: i <= j < |s| ==> t[j] == s[j]
    {
      if t[i] == '\n' || t[i] == '\r' || t[i] == '\t' {
        t := t[i := ' '];
      }
    }
  }

  /** Blanking leaves no line break and no tab, and changes nothing else. */
  lemma BlankedSpec(s: string)
    ensures forall i :: 0 <= i < |s| ==> !IsControl(Blanked(s)[i])
    ensures forall i :: 0 <= i < |s| && !IsControl(s[i]) ==> Blanked(s)[i] == s[i]
    ensures (forall i :: 0 <= i < |s| ==> !IsControl(s[i])) ==> Blanked(s) == s
  {
  }

  /** The text `tokenize_field` cuts into words, before lower-casing. */
  function Prepared(raw: string): string {
    Blanked(Repaired(Normalized(raw), 0))
  }

  /** After normalization there is no line break left, so the repair never
      fires and the blanking changes nothing: the text is the normalized
      text. */
  lemma PreparedIsNormalized(raw: string)
    ensures Prepared(raw) == Normalized(raw)
  {
    var n := Normalized(raw);
    RepairedNoBreaks(n, 0);
    assert n[0..] == n;
    BlankedSpec(n);
  }

  // ---------------------------------------------------------------------
  // split_and_trim

  /** The characters `split_and_trim` trims. */
  const Blank: set<char> := {' ', '\t', '\r', '\n'}

  /** Where the piece from `start` ends: the next separator, or the end. */
  function PieceEnd(s: string, sep: string, start: nat): (pos: nat)
    requires start <= |s|
    ensures start <= pos <= |s|
  {
    match Searcher.FindFrom(s, sep, start)
    case None => |s|
    case Some(p) => p
  }

  /** The pieces `split_and_trim` has collected once it reaches `start`
      with `acc` collected so far: each stretch up to the next separator,
      trimmed, is kept when something is left. */
  function PiecesFrom(s: string, sep: string, start: nat, acc: seq<string>): seq<string>
    requires |sep| > 0
    decreases |s| - start, 1
  {
    if start >= |s| then acc else PiecesUpTo(s, sep, start, PieceEnd(s, sep, start), acc)
  }

  /** The same once the end `pos` of the piece from `start` is known. */
  function PiecesUpTo(s: string, sep: string, start: nat, pos: nat, acc: seq<string>): seq<string>
    requires |sep| > 0 && start < |s| && start <= pos <= |s|
    decreases |s| - start, 0
  {
    var t := Text.Trim(s[start..pos], Blank);
    PiecesFrom(s, sep, pos + |sep|, if t == [] then acc else acc + [t])
  }

  /** The pieces of `s` between separators, trimmed, empty ones dropped. */
  function Pieces(s: string, sep: string): seq<string>
    requires |sep| > 0
  {
    PiecesFrom(s, sep, 0, [])
  }

  /** One turn of the loop of `split_and_trim`: find the separator, trim
      the piece before it, keep the piece when something is left, and move
      past the separator. */
  method SplitAndTrimStep(s: string, sep: string, start: nat, out: seq<string>) returns (next: nat, out': seq<string>)
    requires |sep| > 0 && start < |s|
    ensures start < next && PiecesFrom(s, sep, next, out') == PiecesFrom(s, sep, start, out)
  {
    var found := Searcher.FindFrom(s, sep, start);
    var pos := if found.None? then |s| else found.value;
    var token := Text.Trim(s[start..pos], Blank);
    out' := out;
    if token != [] {
      out' := out + [token];
    }
    next := pos + |sep|;
  }

  /** `split_and_trim`. An empty separator would never move `start`, so the
      source loops for ever on one; it is only ever called with " | ". */
  method SplitAndTrim(s: string, sep: string) returns (out: seq<string>)
    requires |sep| > 0
    ensures out == Pieces(s, sep)
  {
    out := [];
    var start: nat := 0;
    var n := |s|;
    while start < n
      invariant PiecesFrom(s, sep, start, out) == Pieces(s, sep)
      decreases n - start
    {
      start, out := SplitAndTrimStep(s, sep, start, out);
    }
  }

  /** The separator does not occur in `p`. */
  predicate SepFree(p: string, sep: string) {
    forall k :: 0 <= k <= |p| ==> !At(p, k, sep)
  }

  /** A piece is non-empty, starts and ends with a non-blank, and holds no
      separator. */
  predicate GoodPiece(p: string, sep: string) {
    p != [] && p[0] !in Blank && p[|p| - 1] !in Blank && SepFree(p, sep)
  }

  lemma AtSlice(s: string, lo: nat, hi: nat, k: nat, t: string)
    requires lo <= hi <= |s| && At(s[lo..hi], k, t)
    ensures At(s, lo + k, t) && lo + k + |t| <= hi
  {
    forall j | 0 <= j < |t| ensures s[lo + k + j] == t[j] {
      assert s[lo..hi][k + j] == s[lo + k + j];
    }
  }

  /** No separator starts before `PieceEnd`. */
  lemma PieceEndFirst(s: string, sep: string, start: nat)
    requires start <= |s|
    ensures forall k :: start <= k < PieceEnd(s, sep, start) ==> !At(s, k, sep)
  {
    Searcher.FindFromSpec(s, sep, start);
  }

  /** A non-empty stretch before `pos`, where no separator starts, holds
      no separator. */
  lemma StretchSepFree(s: string, sep: string, lo: nat, hi: nat, pos: nat)
    requires lo < hi <= pos <= |s| && forall k :: lo <= k < pos ==> !At(s, k, sep)
    ensures SepFree(s[lo..hi], sep)
  {
    if |sep| == 0 {
      assert At(s, lo, sep);
    }
    forall k | 0 <= k <= hi - lo ensures !At(s[lo..hi], k, sep) {
      if At(s[lo..hi], k, sep) {
        AtSlice(s, lo, hi, k, sep);
      }
    }
  }

  /** A stretch where no separator starts, once trimmed, is empty or good. */
  lemma TrimmedGood(s: string, sep: string, lo: nat, pos: nat)
    requires lo <= pos <= |s| && forall k :: lo <= k < pos ==> !At(s, k, sep)
    ensures var t := Text.Trim(s[lo..pos], Blank); t != [] ==> GoodPiece(t, sep)
  {
    var x := s[lo..pos];
    var t := Text.Trim(x, Blank);
    if t != [] {
      var a, b := Text.TrimSlice(x, Blank);
      SliceOfSlice(s, lo, pos, a, b);
      StretchSepFree(s, sep, lo + a, lo + b, pos);
    }
  }

  /** The piece that starts at `start`, once trimmed, is empty or good. */
  lemma PieceGood(s: string, sep: string, start: nat)
    requires start <= |s|
    ensures var t := Text.Trim(s[start..PieceEnd(s, sep, start)], Blank);
      t != [] ==> GoodPiece(t, sep)
  {
    PieceEndFirst(s, sep, start);
    TrimmedGood(s, sep, start, PieceEnd(s, sep, start));
  }

  lemma {:induction false} PiecesFromShape(s: string, sep: string, start: nat, acc: seq<string>)
    requires |sep| > 0
    ensures forall p :: p in PiecesFrom(s, sep, start, acc) ==> p in acc || GoodPiece(p, sep)
    decreases |s| - start
  {
    if start < |s| {
      var pos := PieceEnd(s, sep, start);
      var t := Text.Trim(s[start..pos], Blank);
      var acc' := if t == [] then acc else acc + [t];
      PieceGood(s, sep, start);
      PiecesFromShape(s, sep, pos + |sep|, acc');
    }
  }

  /** Every piece is non-empty, trimmed and free of the separator. */
  lemma PiecesShape(s: string, sep: string)
    requires |sep| > 0
    ensures forall p :: p in Pieces(s, sep) ==> GoodPiece(p, sep)
  {
    PiecesFromShape(s, sep, 0, []);
  }

  /** `sep` occurs in `p + sep` only at its end. */
  predicate Separable(p: string, sep: string) {
    forall k :: 0 <= k < |p| ==> !At(p + sep, k, sep)
  }

  /** What a joined piece must be to come back out of `split_and_trim`. */
  predicate Splittable(p: string, sep: string) {
    p != [] && p[0] !in Blank && p[|p| - 1] !in Blank && Separable(p, sep)
  }

  lemma AtWithin(s: string, lo: nat, x: string, k: nat, t: string)
    requires lo + |x| <= |s| && s[lo..lo + |x|] == x
    requires lo <= k && k + |t| <= lo + |x| && At(s, k, t)
    ensures At(x, k - lo, t)
  {
    forall j | 0 <= j < |t| ensures x[k - lo + j] == t[j] {
      assert s[lo..lo + |x|][k - lo + j] == s[k + j];
    }
  }

  /** `s[start..]` begins with `p + sep`, and `sep` does not occur earlier
      in it: the piece from `start` ends right after `p`. */
  lemma PieceEndAfter(s: string, sep: string, start: nat, p: string)
    requires |sep| > 0 && start + |p| + |sep| <= |s|
    requires s[start..start + |p| + |sep|] == p + sep && Separable(p, sep)
    ensures PieceEnd(s, sep, start) == start + |p|
  {
    var x := p + sep;
    assert At(s, start + |p|, sep) by {
      forall j | 0 <= j < |sep| ensures s[start + |p| + j] == sep[j] {
        assert s[start..start + |x|][|p| + j] == x[|p| + j];
      }
    }
    Searcher.FindFromSpec(s, sep, start);
    var r := Searcher.FindFrom(s, sep, start);
    if r.Some? && r.value < start + |p| {
      AtWithin(s, start, x, r.value, sep);
    }
  }

  /** No separator in `s[start..]`, which is `p`: the piece runs to the end. */
  lemma PieceEndLast(s: string, sep: string, start: nat, p: string)
    requires |sep| > 0 && start <= |s| && s[start..] == p && Separable(p, sep)
    ensures PieceEnd(s, sep, start) == |s|
  {
    Searcher.FindFromSpec(s, sep, start);
    var r := Searcher.FindFrom(s, sep, start);
    if r.Some? {
      SepNotIn(s, sep, start, p, r.value);
    }
  }

  lemma SepNotIn(s: string, sep: string, start: nat, p: string, k: nat)
    requires start <= k && k + |sep| <= |s| && |sep| > 0
    requires s[start..] == p && Separable(p, sep)
    ensures !At(s, k, sep)
  {
    if At(s, k, sep) {
      forall j | 0 <= j < |sep| ensures (p + sep)[k - start + j] == sep[j] {
        assert p[k - start + j] == s[k + j];
      }
      assert At(p + sep, k - start, sep);
    }
  }

  /** What follows a piece and the separator. */
  lemma RestAfter(s: string, start: nat, p: string, sep: string, rest: string)
    requires start <= |s| && s[start..] == p + sep + rest
    ensures start + |p| + |sep| <= |s| && s[start + |p| + |sep|..] == rest
  {
    assert s[start + |p| + |sep|..] == s[start..][|p| + |sep|..];
  }

  /** A good piece, the separator, then the rest: the piece from `start`
      ends right after the good piece, and trimming leaves it as it is. */
  lemma PieceOf(s: string, sep: string, start: nat, p: string, rest: string)
    requires |sep| > 0 && start <= |s| && Splittable(p, sep)
    requires s[start..] == p + sep + rest
    ensures start < |s| && PieceEnd(s, sep, start) == start + |p|
    ensures Text.Trim(s[start..start + |p|], Blank) == p
  {
    Text.TrimKeeps(p, Blank);
    assert s[start..start + |p| + |sep|] == p + sep by {
      assert s[start..start + |p| + |sep|] == s[start..][..|p| + |sep|];
    }
    PieceEndAfter(s, sep, start, p);
    assert s[start..start + |p|] == p by {
      assert s[start..start + |p|] == s[start..][..|p|];
    }
  }

  /** One turn of the loop that keeps a piece. */
  lemma PiecesFromKeep(s: string, sep: string, start: nat, acc: seq<string>, pos: nat, p: string)
    requires |sep| > 0 && start < |s| && PieceEnd(s, sep, start) == pos
    requires Text.Trim(s[start..pos], Blank) == p && p != []
    ensures PiecesFrom(s, sep, start, acc) == PiecesFrom(s, sep, pos + |sep|, acc + [p])
  {
  }

  lemma PiecesFromKept(s: string, sep: string, start: nat, acc: seq<string>, p: string, rest: string)
    requires |sep| > 0 && start <= |s| && Splittable(p, sep)
    requires s[start..] == p + sep + rest
    ensures PiecesFrom(s, sep, start, acc) == PiecesFrom(s, sep, start + |p| + |sep|, acc + [p])
  {
    PieceOf(s, sep, start, p, rest);
    PiecesFromKeep(s, sep, start, acc, start + |p|, p);
  }

  /** A good last piece: the loop keeps it and stops. */
  lemma PiecesFromLast(s: string, sep: string, start: nat, acc: seq<string>, ps: seq<string>)
    requires |sep| > 0 && start <= |s| && |ps| == 1 && Splittable(ps[0], sep) && s[start..] == ps[0]
    ensures PiecesFrom(s, sep, start, acc) == acc + ps
  {
    var p := ps[0];
    Text.TrimKeeps(p, Blank);
    PieceEndLast(s, sep, start, p);
    assert s[start..|s|] == p;
    PiecesFromKeep(s, sep, start, acc, |s|, p);
    PiecesFromEnd(s, sep, |s| + |sep|, acc + [p], []);
    assert [p] == ps;
  }

  /** Nothing is left from the end of the line on. */
  lemma PiecesFromEnd(s: string, sep: string, start: nat, acc: seq<string>, ps: seq<string>)
    requires |sep| > 0 && start >= |s| && ps == []
    ensures PiecesFrom(s, sep, start, acc) == acc + ps
  {
    assert acc + ps == acc;
  }

  lemma {:induction false} PiecesFromJoin(s: string, sep: string, start: nat, acc: seq<string>, ps: seq<string>)
    requires |sep| > 0 && start <= |s|
    requires forall i :: 0 <= i < |ps| ==> Splittable(ps[i], sep)
    requires s[start..] == Text.JoinWith(ps, sep)
    ensures PiecesFrom(s, sep, start, acc) == acc + ps
    decreases |ps|, 1
  {
    if |ps| > 1 {
      PiecesFromMore(s, sep, start, acc, ps);
    } else if ps == [] {
      PiecesFromEnd(s, sep, start, acc, ps);
    } else {
      PiecesFromLast(s, sep, start, acc, ps);
    }
  }

  /** Two pieces or more: the first is kept, and the rest read on from
      after the separator. */
  lemma {:induction false} PiecesFromMore(s: string, sep: string, start: nat, acc: seq<string>, ps: seq<string>)
    requires |sep| > 0 && start <= |s| && |ps| > 1
    requires forall i :: 0 <= i < |ps| ==> Splittable(ps[i], sep)
    requires s[start..] == Text.JoinWith(ps, sep)
    ensures PiecesFrom(s, sep, start, acc) == acc + ps
    decreases |ps|, 0
  {
    var next := PiecesFromHead(s, sep, start, acc, ps[0], Text.JoinWith(ps[1..], sep));
    PiecesFromJoin(s, sep, next, acc + [ps[0]], ps[1..]);
    AppendHead(acc, ps);
  }

  /** The first piece kept, and where the loop goes on. */
  lemma PiecesFromHead(s: string, sep: string, start: nat, acc: seq<string>, p: string, rest: string) returns (next: nat)
    requires |sep| > 0 && start <= |s| && Splittable(p, sep)
    requires s[start..] == p + sep + rest
    ensures next == start + |p| + |sep| && next <= |s| && s[next..] == rest
    ensures PiecesFrom(s, sep, start, acc) == PiecesFrom(s, sep, next, acc + [p])
  {
    RestAfter(s, start, p, sep, rest);
    PiecesFromKept(s, sep, start, acc, p, rest);
    next := start + |p| + |sep|;
  }


  /** Pieces joined with the separator, as the extractor writes the
      sections column, are split back into themselves: each must be
      non-empty, trimmed, and not make a separator with what follows it. */
  lemma PiecesJoin(ps: seq<string>, sep: string)
    requires |sep| > 0
    requires forall p :: p in ps ==> Splittable(p, sep)
    ensures Pieces(Text.JoinWith(ps, sep), sep) == ps
  {
    var s := Text.JoinWith(ps, sep);
    assert s[0..] == s;
    assert forall i :: 0 <= i < |ps| ==> ps[i] in ps;
    PiecesFromJoin(s, sep, 0, [], ps);
  }

  // ---------------------------------------------------------------------
  // The eight TSV columns, and section names

  /** `n` columns from `start` on: the text up to the next tab, or all the
      rest when there is no tab (every later column then empty); the last
      column takes all that is left. */
  function Cols(line: string, start: nat, n: nat): (cs: seq<string>)
    requires start <= |line| && n >= 1
    ensures |cs| == n
    decreases n
  {
    if n == 1 then [line[start..]]
    else
      match Searcher.FindCharFrom(line, '\t', start)
      case None => [line[start..]] + Cols(line, |line|, n - 1)
      case Some(p) => [line[start..p]] + Cols(line, p + 1, n - 1)
  }

  /** The columns of an extractor TSV line: docid, title, abstract,
      sections, authors, publication date, DOI or id, source. */
  function Columns(line: string): seq<string> {
    Cols(line, 0, 8)
  }

  /** The column loop of the cleaner's TSV reader, which runs it with
      `n == 8`: `n - 1` cuts at a tab, then the rest of the line as the last
      column. The source then pads the row to eight columns, which never
      adds anything since the loop always yields eight. */
  method SplitColumns(line: string, n: nat) returns (cols: seq<string>)
    requires n >= 1
    ensures cols == Cols(line, 0, n)
  {
    cols := [];
    var start: nat := 0;
    for c := 0 to n - 1
      invariant start <= |line| && |cols| == c
      invariant cols + Cols(line, start, n - c) == Cols(line, 0, n)
    {
      var found := Searcher.FindCharFrom(line, '\t', start);
      var piece, next := line[start..], |line|;
      if found.Some? {
        piece, next := line[start..found.value], found.value + 1;
      }
      ColsStep(line, start, n - c, found, piece, next, cols, Cols(line, 0, n));
      cols := cols + [piece];
      start := next;
    }
    cols := cols + [line[start..]];
  }

  /** One turn of the column loop keeps the columns read so far followed
      by those still to read equal to all the columns. */
  lemma ColsStep(line: string, start: nat, m: nat, found: Option<nat>, piece: string, next: nat, cols: seq<string>, all: seq<string>)
    requires start <= |line| && m >= 2 && found == Searcher.FindCharFrom(line, '\t', start)
    requires found.None? ==> piece == line[start..] && next == |line|
    requires found.Some? ==> piece == line[start..found.value] && next == found.value + 1
    requires cols + Cols(line, start, m) == all
    ensures next <= |line| && cols + [piece] + Cols(line, next, m - 1) == all
  {
    ColsCut(line, start, m, found, piece, next);
    ConcatAssoc(cols, [piece], Cols(line, next, m - 1));
  }

  /** The column from `start` when at least one more follows: up to the
      tab that `found` locates, or all the rest when there is none. */
  lemma ColsCut(line: string, start: nat, m: nat, found: Option<nat>, piece: string, next: nat)
    requires start <= |line| && m >= 2 && found == Searcher.FindCharFrom(line, '\t', start)
    requires found.None? ==> piece == line[start..] && next == |line|
    requires found.Some? ==> piece == line[start..found.value] && next == found.value + 1
    ensures next <= |line| && Cols(line, start, m) == [piece] + Cols(line, next, m - 1)
  {
  }

  /** Every column but the last is free of tabs. */
  lemma {:induction false} ColsTabFree(line: string, start: nat, n: nat)
    requires start <= |line| && n >= 1
    ensures forall c :: 0 <= c < n - 1 ==> '\t' !in Cols(line, start, n)[c]
    decreases n
  {
    if n > 1 {
      var f := Searcher.FindCharFrom(line, '\t', start);
      var next := if f.None? then |line| else f.value + 1;
      ColsTabFree(line, next, n - 1);
      var cs := Cols(line, start, n);
      assert '\t' !in cs[0] by {
        var c0 := if f.None? then line[start..] else line[start..f.value];
        assert cs[0] == c0;
        Searcher.FindCharFromSpec(line, '\t', start);
        forall j | 0 <= j < |c0| ensures c0[j] != '\t' {
          assert c0[j] == line[start + j];
        }
      }
      forall c | 1 <= c < n - 1 ensures '\t' !in cs[c] {
        assert cs[c] == Cols(line, next, n - 1)[c - 1];
      }
    }
  }

  /** A tab-free field, a tab, then the rest: the column from `start` is
      that field, and the next starts after the tab. */
  lemma ColsJoinStep(line: string, start: nat, f: string, rest: string)
    requires start <= |line| && '\t' !in f && line[start..] == f + ['\t'] + rest
    ensures Searcher.FindCharFrom(line, '\t', start) == Some(start + |f|)
    ensures line[start..start + |f|] == f && line[start + |f| + 1..] == rest
  {
    var p := start + |f|;
    var x := line[start..];
    Text.FindAfter(f, '\t', rest);
    assert line[p] == '\t' by {
      assert x[|f|] == '\t';
    }
    forall k | start <= k < p ensures line[k] != '\t' {
      assert x[k - start] == f[k - start];
    }
    Searcher.FindCharFromAt(line, '\t', start, p);
    assert line[start..p] == x[..|f|];
    assert line[p + 1..] == x[|f| + 1..];
  }

  /** The fields after the first, but the last, are free of tabs too. */
  lemma FreeOfTail(fs: seq<string>)
    requires |fs| > 1 && Text.FreeOf(fs[..|fs| - 1], '\t')
    ensures '\t' !in fs[0] && Text.FreeOf(fs[1..][..|fs| - 2], '\t')
  {
    assert fs[..|fs| - 1][0] == fs[0];
    var inner := fs[1..][..|fs| - 2];
    forall i | 0 <= i < |inner| ensures '\t' !in inner[i] {
      assert inner[i] == fs[..|fs| - 1][i + 1];
    }
  }

  lemma {:induction false} ColsJoin(line: string, start: nat, fs: seq<string>)
    requires |fs| >= 1 && start <= |line| && Text.FreeOf(fs[..|fs| - 1], '\t')
    requires line[start..] == Text.Join(fs, '\t')
    ensures Cols(line, start, |fs|) == fs
    decreases |fs|
  {
    if |fs| > 1 {
      FreeOfTail(fs);
      var rest := Text.Join(fs[1..], '\t');
      assert line[start..] == fs[0] + ['\t'] + rest;
      ColsJoinStep(line, start, fs[0], rest);
      var next: nat := start + |fs[0]| + 1;
      ColsJoin(line, next, fs[1..]);
      ColsCut(line, start, |fs|, Some(start + |fs[0]|), fs[0], next);
      assert Cols(line, next, |fs| - 1) == fs[1..];
      HeadTail(fs);
    }
  }

  /** The eight fields the extractor writes, tab-separated, come back as
      the eight columns when no field but the last holds a tab. */
  lemma ColumnsRoundTrip(fs: seq<string>)
    requires |fs| == 8 && Text.FreeOf(fs[..7], '\t')
    ensures Columns(Text.Join(fs, '\t')) == fs
  {
    var line := Text.Join(fs, '\t');
    assert line[0..] == line;
    ColsJoin(line, 0, fs);
  }

  /** The name and text of one part of the sections column: a ':' within
      the first 50 characters ends the name; otherwise the part is all
      text, named "body". */
  function SectionOf(part: string): (string, string) {
    var pcol := Text.Find(part, ':');
    if pcol < |part| && pcol < 50 then (part[..pcol], part[pcol + 1..]) else ("body", part)
  }

  /** A part the extractor writes as "name: text" gives its name back when
      the name is shorter than 50 characters and holds no ':'; a longer
      name leaves the whole part to the text, under "body". */
  lemma SectionNamed(name: string, text: string)
    requires ':' !in name
    ensures |name| < 50 ==> SectionOf(name + ":" + text) == (name, text)
    ensures |name| >= 50 ==> SectionOf(name + ":" + text) == ("body", name + ":" + text)
  {
    Text.FindAfter(name, ':', text);
  }

  /** The stoplist used when no stopword file is given. */
  const DefaultStopwords: set<string> := {
    "the", "and", "is", "in", "it", "of", "to", "a", "for", "that", "on", "with",
    "as", "are", "by", "this", "was", "an", "be", "or", "from"}

  /** One line of a stopword file: trimmed; ignored when empty or when it
      starts with '#'; otherwise the word, lower-cased. */
  function StopwordOf(line: string): (r: Option<string>)
    ensures r.Some? ==> r.value != [] && NoUpper(r.value) && r.value[0] != '#'
  {
    var t := Text.Trim(line, Blank);
    if t == [] || t[0] == '#' then None else Some(Lower(t))
  }
}
