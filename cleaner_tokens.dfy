/** `tokenize_field` of cleaner.cpp: the text of one field is normalized,
    repaired, blanked and lower-cased, then cut into words. A word is a run
    of letters and digits, with an apostrophe kept only between two
    letters; every word gets the next position, and a word that is a number
    (when numbers are removed) or a stopword (when stopwords are used) is
    dropped after taking its position. */
module CleanerTokens {
  import opened Common
  import Text
  import CleanerText
  import PorterStemmer

  /** The switches of the cleaner that `tokenize_field` reads. */
  datatype Options = Options(useStopwords: bool, stem: bool, keepOriginal: bool, removeNumbers: bool)

  /** Stopwords on, everything else off. */
  const DefaultOptions := Options(true, false, false, false)

  /** One emitted word: the term (stemmed when asked), the text it was cut
      from (or empty), and its position counting from 1. */
  datatype TokenRec = TokenRec(term: string, orig: string, pos: nat)

  predicate AllDigits(t: string) {
    forall j :: 0 <= j < |t| ==> IsDigit(t[j])
  }

  /** A word the options drop. */
  predicate Dropped(t: string, opt: Options, stop: set<string>) {
    (opt.removeNumbers && AllDigits(t)) || (opt.useStopwords && t in stop)
  }

  /** The record a finished word `t` gives at position `pos`, if any. */
  function Emit(t: string, orig: string, pos: nat, opt: Options, stop: set<string>): seq<TokenRec> {
    if Dropped(t, opt, stop) then []
    else [TokenRec(if opt.stem then PorterStemmer.Stem(t) else t, if opt.keepOriginal then orig else "", pos)]
  }

  /** The character at `i` belongs to a word: a letter or a digit, or an
      apostrophe with a letter on both sides. */
  predicate Kept(w: string, i: nat)
    requires i < |w|
  {
    IsAlnum(w[i]) || (w[i] == '\'' && 0 < i && i + 1 < |w| && IsAlpha(w[i - 1]) && IsAlpha(w[i + 1]))
  }

  /** The records of the scan of the lower-cased text `w` from `i` on, with
      the word `cur` begun, `pos` words finished and `acc` emitted. `orig`
      is the text before lower-casing: a word ended by an apostrophe
      reports its original spelling, any other word its lower-cased one. */
  function Scan(w: string, orig: string, opt: Options, stop: set<string>, i: nat, cur: string, pos: nat, acc: seq<TokenRec>): seq<TokenRec>
    requires |orig| == |w| && |cur| <= i <= |w|
    decreases |w| - i
  {
    if i == |w| then
      if cur == [] then acc else acc + Emit(cur, cur, pos + 1, opt, stop)
    else if Kept(w, i) then Scan(w, orig, opt, stop, i + 1, cur + [w[i]], pos, acc)
    else if cur == [] then Scan(w, orig, opt, stop, i + 1, [], pos, acc)
    else
      var o := if w[i] == '\'' then orig[i - |cur|..i] else cur;
      Scan(w, orig, opt, stop, i + 1, [], pos + 1, acc + Emit(cur, o, pos + 1, opt, stop))
  }

  /** The records `tokenize_field` returns for the field text `raw`. */
  function Tokens(raw: string, opt: Options, stop: set<string>): seq<TokenRec> {
    var text := CleanerText.Prepared(raw);
    Scan(Lower(text), text, opt, stop, 0, [], 0, [])
  }

  // ---------------------------------------------------------------------
  // The loops

  /** The lower-casing loop, rewriting characters in place. */
  method LowerAll(s: string) returns (w: string)
    ensures w == Lower(s)
  {
    w := s;
    for i := 0 to |w|
      invariant |w| == |s|
      invariant forall j :: 0 <= j < i ==> w[j] == ToLower(s[j])
      invariant forall j :: i <= j < |s| ==> w[j] == s[j]
    {
      w := w[i := ToLower(w[i])];
    }
  }

  /** The all-digits test, stopping at the first non-digit. */
  method IsNumber(t: string) returns (b: bool)
    ensures b <==> AllDigits(t)
  {
    b := true;
    for k := 0 to |t|
      invariant b <==> forall j :: 0 <= j < k ==> IsDigit(t[j])
    {
      if !IsDigit(t[k]) {
        b := false;
        break;
      }
    }
  }

  /** The flush of a finished word: filter, stem, record. */
  method Flush(cur: string, orig: string, pos: nat, opt: Options, stop: set<string>, out: seq<TokenRec>) returns (out': seq<TokenRec>)
    ensures out' == out + Emit(cur, orig, pos, opt, stop)
  {
    out' := out;
    var allDigits := IsNumber(cur);
    if opt.removeNumbers && allDigits {
      return;
    }
    if opt.useStopwords && cur in stop {
      return;
    }
    var term := cur;
    if opt.stem {
      term := PorterStemmer.StemWord(term);
    }
    out' := out + [TokenRec(term, if opt.keepOriginal then orig else "", pos)];
  }

  /** One turn of the scanning loop. */
  method ScanStep(w: string, orig: string, opt: Options, stop: set<string>, i: nat, cur: string, pos: nat, out: seq<TokenRec>)
    returns (i': nat, cur': string, pos': nat, out': seq<TokenRec>)
    requires |orig| == |w| && |cur| <= i < |w|
    ensures i < i' && |cur'| <= i' <= |w|
    ensures Scan(w, orig, opt, stop, i', cur', pos', out') == Scan(w, orig, opt, stop, i, cur, pos, out)
  {
    var wc := w[i];
    i', cur', pos', out' := i + 1, cur, pos, out;
    if IsAlnum(wc) {
      cur' := cur + [wc];
    } else if wc == '\'' {
      var keep := false;
      if i > 0 && i + 1 < |w| {
        if IsAlpha(w[i - 1]) && IsAlpha(w[i + 1]) {
          keep := true;
        }
      }
      if keep {
        cur' := cur + [wc];
      } else if cur != [] {
        pos' := pos + 1;
        out' := Flush(cur, orig[i - |cur|..i], pos', opt, stop, out);
        cur' := [];
      }
    } else if cur != [] {
      pos' := pos + 1;
      out' := Flush(cur, cur, pos', opt, stop, out);
      cur' := [];
    }
  }

  /** `tokenize_field`. */
  method TokenizeField(raw: string, opt: Options, stop: set<string>) returns (out: seq<TokenRec>)
    ensures out == Tokens(raw, opt, stop)
  {
    var norm := CleanerText.NormalizeNfc(raw);
    norm := CleanerText.RepairHyphens(norm);
    norm := CleanerText.BlankControls(norm);
    var w := LowerAll(norm);
    out := [];
    var pos: nat := 0;
    var cur: string := [];
    var i: nat := 0;
    while i < |w|
      invariant |cur| <= i <= |w|
      invariant Scan(w, norm, opt, stop, i, cur, pos, out) == Tokens(raw, opt, stop)
      decreases |w| - i
    {
      i, cur, pos, out := ScanStep(w, norm, opt, stop, i, cur, pos, out);
    }
    if cur != [] {
      pos := pos + 1;
      out := Flush(cur, cur, pos, opt, stop, out);
    }
  }

  // ---------------------------------------------------------------------
  // Positions

  predicate Ascending(rs: seq<TokenRec>) {
    forall j, k :: 0 <= j < k < |rs| ==> rs[j].pos < rs[k].pos
  }

  predicate PositionsUpTo(rs: seq<TokenRec>, pos: nat) {
    forall r :: r in rs ==> 1 <= r.pos <= pos
  }

  lemma EmitAfter(acc: seq<TokenRec>, pos: nat, t: string, o: string, opt: Options, stop: set<string>)
    requires Ascending(acc) && PositionsUpTo(acc, pos)
    ensures var acc' := acc + Emit(t, o, pos + 1, opt, stop);
      Ascending(acc') && PositionsUpTo(acc', pos + 1)
  {
    var acc' := acc + Emit(t, o, pos + 1, opt, stop);
    forall j, k | 0 <= j < k < |acc'| ensures acc'[j].pos < acc'[k].pos {
      if k == |acc| {
        assert acc[j] in acc;
      }
    }
  }

  lemma {:induction false} ScanAscending(w: string, orig: string, opt: Options, stop: set<string>, i: nat, cur: string, pos: nat, acc: seq<TokenRec>)
    requires |orig| == |w| && |cur| <= i <= |w|
    requires Ascending(acc) && PositionsUpTo(acc, pos)
    ensures var rs := Scan(w, orig, opt, stop, i, cur, pos, acc);
      Ascending(rs) && forall r :: r in rs ==> 1 <= r.pos
    decreases |w| - i
  {
    if i == |w| {
      if cur != [] {
        EmitAfter(acc, pos, cur, cur, opt, stop);
      }
    } else if Kept(w, i) {
      ScanAscending(w, orig, opt, stop, i + 1, cur + [w[i]], pos, acc);
    } else if cur == [] {
      ScanAscending(w, orig, opt, stop, i + 1, [], pos, acc);
    } else {
      var o := if w[i] == '\'' then orig[i - |cur|..i] else cur;
      EmitAfter(acc, pos, cur, o, opt, stop);
      ScanAscending(w, orig, opt, stop, i + 1, [], pos + 1, acc + Emit(cur, o, pos + 1, opt, stop));
    }
  }

  /** Positions start at 1 and strictly increase. */
  lemma TokensAscending(raw: string, opt: Options, stop: set<string>)
    ensures var rs := Tokens(raw, opt, stop);
      Ascending(rs) && forall r :: r in rs ==> 1 <= r.pos
  {
    var text := CleanerText.Prepared(raw);
    ScanAscending(Lower(text), text, opt, stop, 0, [], 0, []);
  }

  // ---------------------------------------------------------------------
  // What a term is

  /** A word as the scan cuts it: lower-case letters, digits and
      apostrophes, beginning and ending with a letter or a digit. */
  predicate Word(t: string) {
    t != [] && IsAlnum(t[0]) && IsAlnum(t[|t| - 1])
    && forall j :: 0 <= j < |t| ==> IsLower(t[j]) || IsDigit(t[j]) || t[j] == '\''
  }

  /** The record comes from a word the options keep. */
  ghost predicate FromWord(r: TokenRec, opt: Options, stop: set<string>) {
    exists t :: Word(t) && !Dropped(t, opt, stop) && r.term == (if opt.stem then PorterStemmer.Stem(t) else t)
  }

  /** The word begun so far: a letter or digit first, then word characters;
      an apostrophe at its end is followed by a letter. With no word begun,
      the character before is no letter or digit. */
  predicate Begun(w: string, i: nat, cur: string)
    requires i <= |w|
  {
    if cur == [] then 0 < i ==> !IsAlnum(w[i - 1])
    else
      IsAlnum(cur[0])
      && (forall j :: 0 <= j < |cur| ==> IsLower(cur[j]) || IsDigit(cur[j]) || cur[j] == '\'')
      && (cur[|cur| - 1] == '\'' ==> i < |w| && IsAlpha(w[i]))
  }

  /** Every record of `rs` comes from a kept word. */
  ghost predicate AllFromWords(rs: seq<TokenRec>, opt: Options, stop: set<string>) {
    forall r :: r in rs ==> FromWord(r, opt, stop)
  }

  lemma AllFromWordsConcat(a: seq<TokenRec>, b: seq<TokenRec>, opt: Options, stop: set<string>)
    requires AllFromWords(a, opt, stop) && AllFromWords(b, opt, stop)
    ensures AllFromWords(a + b, opt, stop)
  {
  }

  lemma EmitFromWord(t: string, o: string, pos: nat, opt: Options, stop: set<string>)
    requires Word(t)
    ensures AllFromWords(Emit(t, o, pos, opt, stop), opt, stop)
  {
    forall r | r in Emit(t, o, pos, opt, stop) ensures FromWord(r, opt, stop) {
      assert Word(t) && !Dropped(t, opt, stop) && r.term == (if opt.stem then PorterStemmer.Stem(t) else t);
    }
  }

  lemma BegunStep(w: string, i: nat, cur: string)
    requires NoUpper(w) && i < |w| && Begun(w, i, cur) && Kept(w, i)
    ensures Begun(w, i + 1, cur + [w[i]])
  {
    var c := cur + [w[i]];
    assert forall j :: 0 <= j < |cur| ==> c[j] == cur[j];
    assert !IsUpper(w[i]);
  }

  /** A character that is not kept begins no word. */
  lemma BegunNone(w: string, i: nat)
    requires i < |w| && !Kept(w, i)
    ensures Begun(w, i + 1, [])
  {
  }

  /** A character that is not kept ends the word begun, which is then a
      whole word. */
  lemma BegunWord(w: string, i: nat, cur: string)
    requires i < |w| && Begun(w, i, cur) && cur != [] && !Kept(w, i)
    ensures Word(cur)
  {
  }

  /** At the end of the text the word begun is a whole word. */
  lemma BegunLast(w: string, cur: string)
    requires Begun(w, |w|, cur) && cur != []
    ensures Word(cur)
  {
  }

  lemma ScanEnd(w: string, orig: string, opt: Options, stop: set<string>, cur: string, pos: nat, acc: seq<TokenRec>)
    requires |orig| == |w| && |cur| <= |w|
    ensures Scan(w, orig, opt, stop, |w|, cur, pos, acc) == if cur == [] then acc else acc + Emit(cur, cur, pos + 1, opt, stop)
  {
  }

  lemma ScanSkip(w: string, orig: string, opt: Options, stop: set<string>, i: nat, pos: nat, acc: seq<TokenRec>)
    requires |orig| == |w| && i < |w| && !Kept(w, i)
    ensures Scan(w, orig, opt, stop, i, [], pos, acc) == Scan(w, orig, opt, stop, i + 1, [], pos, acc)
  {
  }

  lemma ScanCut(w: string, orig: string, opt: Options, stop: set<string>, i: nat, cur: string, pos: nat, acc: seq<TokenRec>)
    requires |orig| == |w| && |cur| <= i < |w| && !Kept(w, i) && cur != []
    ensures var o := if w[i] == '\'' then orig[i - |cur|..i] else cur;
      Scan(w, orig, opt, stop, i, cur, pos, acc) == Scan(w, orig, opt, stop, i + 1, [], pos + 1, acc + Emit(cur, o, pos + 1, opt, stop))
  {
  }

  lemma {:induction false} ScanWords(w: string, orig: string, opt: Options, stop: set<string>, i: nat, cur: string, pos: nat, acc: seq<TokenRec>)
    requires |orig| == |w| && |cur| <= i <= |w| && NoUpper(w) && Begun(w, i, cur)
    requires AllFromWords(acc, opt, stop)
    ensures AllFromWords(Scan(w, orig, opt, stop, i, cur, pos, acc), opt, stop)
    decreases |w| - i
  {
    if i == |w| {
      ScanEnd(w, orig, opt, stop, cur, pos, acc);
      if cur != [] {
        BegunLast(w, cur);
        EmitFromWord(cur, cur, pos + 1, opt, stop);
        AllFromWordsConcat(acc, Emit(cur, cur, pos + 1, opt, stop), opt, stop);
      }
    } else if Kept(w, i) {
      BegunStep(w, i, cur);
      ScanKept(w, orig, opt, stop, i, cur, pos, acc);
      ScanWords(w, orig, opt, stop, i + 1, cur + [w[i]], pos, acc);
    } else if cur == [] {
      BegunNone(w, i);
      ScanSkip(w, orig, opt, stop, i, pos, acc);
      ScanWords(w, orig, opt, stop, i + 1, [], pos, acc);
    } else {
      var o := if w[i] == '\'' then orig[i - |cur|..i] else cur;
      BegunNone(w, i);
      BegunWord(w, i, cur);
      ScanCut(w, orig, opt, stop, i, cur, pos, acc);
      EmitFromWord(cur, o, pos + 1, opt, stop);
      AllFromWordsConcat(acc, Emit(cur, o, pos + 1, opt, stop), opt, stop);
      ScanWords(w, orig, opt, stop, i + 1, [], pos + 1, acc + Emit(cur, o, pos + 1, opt, stop));
    }
  }

  /** Every term comes from a word that is not dropped: a run of lower-case
      letters and digits, with apostrophes only inside, that is neither a
      removed number nor a stopword; stemmed when stemming is on. */
  lemma TokensAreWords(raw: string, opt: Options, stop: set<string>)
    ensures forall r :: r in Tokens(raw, opt, stop) ==> FromWord(r, opt, stop)
  {
    var text := CleanerText.Prepared(raw);
    ScanWords(Lower(text), text, opt, stop, 0, [], 0, []);
    assert AllFromWords(Tokens(raw, opt, stop), opt, stop);
  }

  // ---------------------------------------------------------------------
  // Words separated by spaces

  /** The records of the words `ws`, numbered after `pos`: each word takes
      its position, and only the words the options keep are recorded. */
  function EmitAll(ws: seq<string>, pos: nat, opt: Options, stop: set<string>): seq<TokenRec>
    decreases |ws|
  {
    if ws == [] then [] else Emit(ws[0], ws[0], pos + 1, opt, stop) + EmitAll(ws[1..], pos + 1, opt, stop)
  }

  /** Lower-case letters and digits, at least one. */
  predicate Plain(t: string) {
    t != [] && forall j :: 0 <= j < |t| ==> IsLower(t[j]) || IsDigit(t[j])
  }

  lemma ScanKept(w: string, orig: string, opt: Options, stop: set<string>, i: nat, cur: string, pos: nat, acc: seq<TokenRec>)
    requires |orig| == |w| && |cur| <= i < |w| && Kept(w, i)
    ensures Scan(w, orig, opt, stop, i, cur, pos, acc) == Scan(w, orig, opt, stop, i + 1, cur + [w[i]], pos, acc)
  {
  }

  /** A space ends the word begun. */
  lemma ScanSpace(w: string, orig: string, opt: Options, stop: set<string>, i: nat, cur: string, pos: nat, acc: seq<TokenRec>)
    requires |orig| == |w| && |cur| <= i < |w| && w[i] == ' ' && cur != []
    ensures Scan(w, orig, opt, stop, i, cur, pos, acc)
      == Scan(w, orig, opt, stop, i + 1, [], pos + 1, acc + Emit(cur, cur, pos + 1, opt, stop))
  {
    assert !Kept(w, i);
  }

  /** The letters and digits of `t` stand in `w` from `i` on. */
  predicate PlainRun(w: string, i: nat, t: string) {
    i + |t| <= |w| && forall j :: 0 <= j < |t| ==> w[i + j] == t[j] && (IsLower(t[j]) || IsDigit(t[j]))
  }

  lemma PlainRunTail(w: string, i: nat, t: string)
    requires PlainRun(w, i, t) && t != []
    ensures w[i] == t[0] && Kept(w, i) && PlainRun(w, i + 1, t[1..])
  {
    assert w[i + 0] == t[0];
    forall j | 0 <= j < |t[1..]| ensures w[i + 1 + j] == t[1..][j] && (IsLower(t[1..][j]) || IsDigit(t[1..][j])) {
      assert t[1..][j] == t[j + 1];
    }
  }

  lemma {:induction false} ScanWord(w: string, orig: string, opt: Options, stop: set<string>, i: nat, cur: string, pos: nat, acc: seq<TokenRec>, t: string)
    requires |orig| == |w| && |cur| <= i && PlainRun(w, i, t)
    ensures Scan(w, orig, opt, stop, i, cur, pos, acc) == Scan(w, orig, opt, stop, i + |t|, cur + t, pos, acc)
    decreases |t|
  {
    if t == [] {
      assert cur + t == cur;
    } else {
      PlainRunTail(w, i, t);
      ScanKept(w, orig, opt, stop, i, cur, pos, acc);
      var next, tail := cur + [t[0]], t[1..];
      ScanWord(w, orig, opt, stop, i + 1, next, pos, acc, tail);
      AppendHead(cur, t);
      assert next + tail == cur + t && i + 1 + |tail| == i + |t|;
    }
  }

  /** The word `t` stands in `w` at `i`. */
  lemma PlainAt(w: string, i: nat, t: string, rest: string)
    requires i <= |w| && w[i..] == t + rest && Plain(t)
    ensures PlainRun(w, i, t)
  {
    forall j | 0 <= j < |t| ensures w[i + j] == t[j] {
      assert w[i..][j] == (t + rest)[j];
    }
  }

  lemma PlainTail(ws: seq<string>)
    requires ws != [] && forall k :: 0 <= k < |ws| ==> Plain(ws[k])
    ensures forall k :: 0 <= k < |ws[1..]| ==> Plain(ws[1..][k])
  {
    forall k | 0 <= k < |ws[1..]| ensures Plain(ws[1..][k]) {
      assert ws[1..][k] == ws[k + 1];
    }
  }

  /** The last word, up to the end of the text. */
  lemma ScanLastWord(w: string, orig: string, opt: Options, stop: set<string>, i: nat, pos: nat, acc: seq<TokenRec>, t: string)
    requires |orig| == |w| && i <= |w| && w[i..] == t && Plain(t)
    ensures Scan(w, orig, opt, stop, i, [], pos, acc) == acc + EmitAll([t], pos, opt, stop)
  {
    assert w[i..] == t + [];
    PlainAt(w, i, t, []);
    ScanWord(w, orig, opt, stop, i, [], pos, acc, t);
    assert [] + t == t && i + |t| == |w|;
    assert EmitAll([t], pos, opt, stop) == Emit(t, t, pos + 1, opt, stop) + EmitAll([], pos + 1, opt, stop);
  }

  /** A word and the space after it. */
  lemma ScanWordSpace(w: string, orig: string, opt: Options, stop: set<string>, i: nat, pos: nat, acc: seq<TokenRec>, t: string, rest: string)
    requires |orig| == |w| && i <= |w| && w[i..] == t + " " + rest && Plain(t)
    ensures Scan(w, orig, opt, stop, i, [], pos, acc)
      == Scan(w, orig, opt, stop, i + |t| + 1, [], pos + 1, acc + Emit(t, t, pos + 1, opt, stop))
    ensures w[i + |t| + 1..] == rest
  {
    assert w[i..] == t + (" " + rest);
    PlainAt(w, i, t, " " + rest);
    ScanWord(w, orig, opt, stop, i, [], pos, acc, t);
    var j := i + |t|;
    assert w[j] == ' ' by {
      assert w[j] == w[i..][|t|];
    }
    assert [] + t == t;
    ScanSpace(w, orig, opt, stop, j, t, pos, acc);
    assert w[j + 1..] == w[i..][|t| + 1..];
  }

  lemma {:induction false} ScanJoin(w: string, orig: string, opt: Options, stop: set<string>, i: nat, pos: nat, acc: seq<TokenRec>, ws: seq<string>)
    requires |orig| == |w| && i <= |w| && w[i..] == Text.JoinWith(ws, " ")
    requires forall k :: 0 <= k < |ws| ==> Plain(ws[k])
    ensures Scan(w, orig, opt, stop, i, [], pos, acc) == acc + EmitAll(ws, pos, opt, stop)
    decreases |ws|
  {
    if ws == [] {
      assert i == |w|;
    } else if |ws| == 1 {
      assert Plain(ws[0]) && ws == [ws[0]];
      ScanLastWord(w, orig, opt, stop, i, pos, acc, ws[0]);
    } else {
      var t := ws[0];
      assert Plain(t);
      var rest := Text.JoinWith(ws[1..], " ");
      assert w[i..] == t + " " + rest;
      ScanWordSpace(w, orig, opt, stop, i, pos, acc, t, rest);
      PlainTail(ws);
      ScanJoin(w, orig, opt, stop, i + |t| + 1, pos + 1, acc + Emit(t, t, pos + 1, opt, stop), ws[1..]);
      EmitAllCons(ws, pos, opt, stop, acc);
    }
  }

  /** The first word is emitted first. */
  lemma EmitAllCons(ws: seq<string>, pos: nat, opt: Options, stop: set<string>, acc: seq<TokenRec>)
    requires ws != []
    ensures acc + Emit(ws[0], ws[0], pos + 1, opt, stop) + EmitAll(ws[1..], pos + 1, opt, stop)
      == acc + EmitAll(ws, pos, opt, stop)
  {
    ConcatAssoc(acc, Emit(ws[0], ws[0], pos + 1, opt, stop), EmitAll(ws[1..], pos + 1, opt, stop));
  }

  predicate SpacedChar(c: char) { IsLower(c) || IsDigit(c) || c == ' ' }

  /** Characters of words joined by spaces. */
  lemma {:induction false} JoinPlainChars(ws: seq<string>)
    requires forall k :: 0 <= k < |ws| ==> Plain(ws[k])
    ensures forall j :: 0 <= j < |Text.JoinWith(ws, " ")| ==> SpacedChar(Text.JoinWith(ws, " ")[j])
    decreases |ws|
  {
    if |ws| > 1 {
      PlainTail(ws);
      JoinPlainChars(ws[1..]);
      assert Plain(ws[0]);
      var rest := Text.JoinWith(ws[1..], " ");
      var s := Text.JoinWith(ws, " ");
      assert s == ws[0] + " " + rest;
      forall j | 0 <= j < |s| ensures SpacedChar(s[j]) {
        if j < |ws[0]| {
          assert s[j] == ws[0][j];
          assert IsLower(ws[0][j]) || IsDigit(ws[0][j]);
        } else if j > |ws[0]| {
          var k := j - |ws[0]| - 1;
          assert s[j] == rest[k];
          assert SpacedChar(rest[k]);
        } else {
          assert s[j] == ' ';
        }
      }
    } else if |ws| == 1 {
      assert Plain(ws[0]);
      forall j | 0 <= j < |ws[0]| ensures SpacedChar(ws[0][j]) {
      }
    }
  }

  /** Text of lower-case letters, digits and spaces comes out of the
      preparation and the lower-casing as it went in. */
  lemma PlainText(s: string)
    requires forall j :: 0 <= j < |s| ==> SpacedChar(s[j])
    ensures CleanerText.Normalized(s) == s && Lower(s) == s
  {
    SpacedPrintable(s);
    CleanerText.NormalizedPrintable(s);
    SpacedLower(s);
  }

  lemma SpacedPrintable(s: string)
    requires forall j :: 0 <= j < |s| ==> SpacedChar(s[j])
    ensures forall j :: 0 <= j < |s| ==> s[j] >= ' '
  {
    forall j | 0 <= j < |s| ensures s[j] >= ' ' {
      assert SpacedChar(s[j]);
    }
  }

  lemma SpacedLower(s: string)
    requires forall j :: 0 <= j < |s| ==> SpacedChar(s[j])
    ensures Lower(s) == s
  {
    forall j | 0 <= j < |s| ensures Lower(s)[j] == s[j] {
      assert !IsUpper(s[j]);
    }
  }

  /** Lower-case words and numbers written with one space between them are
      cut back into those words, each numbered by its place, and filtered
      and stemmed word by word. */
  lemma TokensOfWords(ws: seq<string>, opt: Options, stop: set<string>)
    requires forall k :: 0 <= k < |ws| ==> Plain(ws[k])
    ensures Tokens(Text.JoinWith(ws, " "), opt, stop) == EmitAll(ws, 0, opt, stop)
  {
    var s := Text.JoinWith(ws, " ");
    JoinPlainChars(ws);
    PlainText(s);
    CleanerText.PreparedIsNormalized(s);
    assert s[0..] == s;
    ScanJoin(s, s, opt, stop, 0, 0, [], ws);
  }

  /** With no filter on, every word is recorded, at its own place. */
  lemma {:induction false} EmitAllUnfiltered(ws: seq<string>, pos: nat, opt: Options, stop: set<string>)
    requires !opt.removeNumbers && !opt.useStopwords && !opt.stem
    ensures var rs := EmitAll(ws, pos, opt, stop);
      |rs| == |ws| && forall k :: 0 <= k < |ws| ==> rs[k].term == ws[k] && rs[k].pos == pos + k + 1
    decreases |ws|
  {
    if ws != [] {
      EmitAllUnfiltered(ws[1..], pos + 1, opt, stop);
      var rs := EmitAll(ws, pos, opt, stop);
      forall k | 1 <= k < |ws| ensures rs[k].term == ws[k] && rs[k].pos == pos + k + 1 {
        assert rs[k] == EmitAll(ws[1..], pos + 1, opt, stop)[k - 1];
        assert ws[1..][k - 1] == ws[k];
      }
    }
  }

  /** A stopword is dropped but keeps its place: "the cell" with "the" a
      stopword gives the single record "cell" at position 2. */
  lemma StopwordKeepsPlace(stop: set<string>)
    requires "the" in stop && "cell" !in stop
    ensures Tokens("the cell", DefaultOptions, stop) == [TokenRec("cell", "", 2)]
  {
    var ws := ["the", "cell"];
    assert Plain("the") && Plain("cell");
    assert Text.JoinWith(ws, " ") == "the cell";
    TokensOfWords(ws, DefaultOptions, stop);
    assert ws[1..] == ["cell"];
    assert EmitAll(ws[1..][1..], 2, DefaultOptions, stop) == [];
  }
}
