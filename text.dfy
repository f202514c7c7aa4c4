/** Line and field handling shared by the tools: finding a separator,
    cutting a line into fields at a separator and putting fields back
    together, and trimming a set of blank characters from both ends. */
module Text {
  import opened Common

  /** `s.find(c)`: the first index holding `c`, or `|s|` for `npos`. */
  function Find(s: string, c: char): (k: nat)
    ensures k <= |s| && (k < |s| ==> s[k] == c)
    ensures forall j :: 0 <= j < k ==> s[j] != c
  {
    if s == [] || s[0] == c then 0
    else
      var k := 1 + Find(s[1..], c);
      assert forall j :: 1 <= j < k ==> s[j] == s[1..][j - 1];
      k
  }

  /** The fields of `s` between the separators: one more field than there
      are separators, empty fields included. */
  function Split(s: string, sep: char): (r: seq<string>)
    ensures |r| >= 1
    decreases |s|
  {
    var k := Find(s, sep);
    if k == |s| then [s] else [s[..k]] + Split(s[k + 1..], sep)
  }

  /** The fields joined with the separator between them. */
  function Join(fs: seq<string>, sep: char): string {
    if fs == [] then ""
    else if |fs| == 1 then fs[0]
    else fs[0] + [sep] + Join(fs[1..], sep)
  }

  /** The fields joined with a separator string between them. */
  function JoinWith(fs: seq<string>, sep: string): string {
    if fs == [] then ""
    else if |fs| == 1 then fs[0]
    else fs[0] + sep + JoinWith(fs[1..], sep)
  }

  /** Joining one more field adds the separator and the field. */
  lemma {:induction false} JoinWithSnoc(fs: seq<string>, x: string, sep: string)
    requires fs != []
    ensures JoinWith(fs + [x], sep) == JoinWith(fs, sep) + sep + x
    decreases |fs|
  {
    if |fs| > 1 {
      assert (fs + [x])[1..] == fs[1..] + [x];
      JoinWithSnoc(fs[1..], x, sep);
    } else {
      assert fs + [x] == [fs[0], x];
      assert [fs[0], x][1..] == [x];
    }
  }

  /** Joining one more field adds the separator and the field. */
  lemma {:induction false} JoinSnoc(fs: seq<string>, x: string, sep: char)
    requires fs != []
    ensures Join(fs + [x], sep) == Join(fs, sep) + [sep] + x
    decreases |fs|
  {
    if |fs| > 1 {
      assert (fs + [x])[1..] == fs[1..] + [x];
      JoinSnoc(fs[1..], x, sep);
    } else {
      assert fs + [x] == [fs[0], x];
      assert [fs[0], x][1..] == [x];
    }
  }

  /** Fields free of the separator. */
  predicate FreeOf(fs: seq<string>, sep: char) {
    forall i :: 0 <= i < |fs| ==> sep !in fs[i]
  }

  lemma FindAfter(f: string, sep: char, rest: string)
    requires sep !in f
    ensures Find(f + [sep] + rest, sep) == |f|
    ensures (f + [sep] + rest)[..|f|] == f && (f + [sep] + rest)[|f| + 1..] == rest
  {
    var s := f + [sep] + rest;
    assert s[|f|] == sep;
    assert forall j :: 0 <= j < |f| ==> s[j] == f[j];
  }

  /** Cutting joined fields at the separator gives the fields back, when no
      field holds the separator. */
  lemma {:induction false} SplitJoin(fs: seq<string>, sep: char)
    requires |fs| >= 1 && FreeOf(fs, sep)
    ensures Split(Join(fs, sep), sep) == fs
    decreases |fs|
  {
    if |fs| == 1 {
      assert sep !in fs[0];
    } else {
      var rest := Join(fs[1..], sep);
      assert sep !in fs[0];
      FindAfter(fs[0], sep, rest);
      assert FreeOf(fs[1..], sep) by {
        forall i | 0 <= i < |fs[1..]| ensures sep !in fs[1..][i] {
          assert fs[1..][i] == fs[i + 1];
        }
      }
      SplitJoin(fs[1..], sep);
      SliceCons(fs, 0);
    }
  }

  /** A joined line holds another character only where a field does. */
  lemma {:induction false} JoinFree(fs: seq<string>, sep: char, c: char)
    requires c != sep && FreeOf(fs, c)
    ensures c !in Join(fs, sep)
    decreases |fs|
  {
    if |fs| > 1 {
      assert FreeOf(fs[1..], c) by {
        forall i | 0 <= i < |fs[1..]| ensures c !in fs[1..][i] {
          assert fs[1..][i] == fs[i + 1];
        }
      }
      JoinFree(fs[1..], sep, c);
      assert c !in fs[0];
    }
  }

  /** `s.find_first_not_of(blank, i)`: the first index from `i` on whose
      character is not blank, or `|s|` for `npos`. */
  function FirstNotIn(s: string, blank: set<char>, i: nat): (k: nat)
    requires i <= |s|
    ensures i <= k <= |s| && (k < |s| ==> s[k] !in blank)
    decreases |s| - i
  {
    if i == |s| || s[i] !in blank then i else FirstNotIn(s, blank, i + 1)
  }

  /** Everything `FirstNotIn` skips is blank. */
  lemma {:induction false} FirstNotInSkips(s: string, blank: set<char>, i: nat)
    requires i <= |s|
    ensures forall j :: i <= j < FirstNotIn(s, blank, i) ==> s[j] in blank
    decreases |s| - i
  {
    if i < |s| && s[i] in blank {
      FirstNotInSkips(s, blank, i + 1);
    }
  }

  /** One past `s.find_last_not_of(blank)` below `hi`, when the character
      at `lo` is known not to be blank: the end of `s[..hi]` once blanks are
      cut from its end. */
  function EndNotIn(s: string, blank: set<char>, lo: nat, hi: nat): (e: nat)
    requires lo < hi <= |s| && s[lo] !in blank
    ensures lo < e <= hi && s[e - 1] !in blank
    decreases hi
  {
    if s[hi - 1] !in blank then hi else EndNotIn(s, blank, lo, hi - 1)
  }

  /** Everything `EndNotIn` cuts off is blank. */
  lemma {:induction false} EndNotInSkips(s: string, blank: set<char>, lo: nat, hi: nat)
    requires lo < hi <= |s| && s[lo] !in blank
    ensures forall j :: EndNotIn(s, blank, lo, hi) <= j < hi ==> s[j] in blank
    decreases hi
  {
    if s[hi - 1] in blank {
      EndNotInSkips(s, blank, lo, hi - 1);
    }
  }

  /** `trim`: the slice from the first to the last character outside
      `blank`; empty when there is none. */
  function Trim(s: string, blank: set<char>): (r: string)
    ensures |r| <= |s|
    ensures r != [] ==> r[0] !in blank && r[|r| - 1] !in blank
  {
    var a := FirstNotIn(s, blank, 0);
    if a == |s| then "" else s[a..EndNotIn(s, blank, a, |s|)]
  }

  /** The trimmed text is a slice of `s`, and everything cut off is blank;
      nothing is left when everything is blank. */
  lemma TrimSlice(s: string, blank: set<char>) returns (a: nat, b: nat)
    ensures a <= b <= |s| && Trim(s, blank) == s[a..b]
    ensures forall j :: 0 <= j < a ==> s[j] in blank
    ensures forall j :: b <= j < |s| ==> s[j] in blank
    ensures a == b <==> forall j :: 0 <= j < |s| ==> s[j] in blank
  {
    a := FirstNotIn(s, blank, 0);
    FirstNotInSkips(s, blank, 0);
    if a == |s| {
      b := a;
    } else {
      b := EndNotIn(s, blank, a, |s|);
      EndNotInSkips(s, blank, a, |s|);
    }
  }

  /** Text that neither starts nor ends with a blank is left as it is. */
  lemma TrimKeeps(s: string, blank: set<char>)
    requires s != [] ==> s[0] !in blank && s[|s| - 1] !in blank
    ensures Trim(s, blank) == s
  {
  }

  /** Trimming twice is trimming once. */
  lemma TrimIdempotent(s: string, blank: set<char>)
    ensures Trim(Trim(s, blank), blank) == Trim(s, blank)
  {
    TrimKeeps(Trim(s, blank), blank);
  }

  // ---------------------------------------------------------------------
  // Words as `>>` reads them

  /** `>>` into a string first skips white space... */
  function SkipSpace(s: string, i: nat): (k: nat)
    requires i <= |s|
    ensures i <= k <= |s| && (k < |s| ==> !IsSpace(s[k]))
    ensures forall j :: i <= j < k ==> IsSpace(s[j])
    decreases |s| - i
  {
    if i == |s| || !IsSpace(s[i]) then i else SkipSpace(s, i + 1)
  }

  /** ...then takes characters up to the next white space. */
  function WordEnd(s: string, i: nat): (k: nat)
    requires i <= |s|
    ensures i <= k <= |s| && (k < |s| ==> IsSpace(s[k]))
    ensures forall j :: i <= j < k ==> !IsSpace(s[j])
    decreases |s| - i
  {
    if i == |s| || IsSpace(s[i]) then i else WordEnd(s, i + 1)
  }

  /** The words a `while (in >> word)` loop reads from `s[i..]`. */
  function WordsFrom(s: string, i: nat): (ws: seq<string>)
    requires i <= |s|
    ensures forall k :: 0 <= k < |ws| ==> ws[k] != [] && forall j :: 0 <= j < |ws[k]| ==> !IsSpace(ws[k][j])
    decreases |s| - i
  {
    var a := SkipSpace(s, i);
    if a == |s| then []
    else
      var b := WordEnd(s, a);
      assert forall j :: 0 <= j < b - a ==> s[a..b][j] == s[a + j];
      [s[a..b]] + WordsFrom(s, b)
  }

  function Words(s: string): seq<string> {
    WordsFrom(s, 0)
  }
}
