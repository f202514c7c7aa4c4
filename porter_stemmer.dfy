/** `PorterStemmer` of cleaner.cpp: Porter's suffix-stripping algorithm,
    steps 1a to 5b, over ASCII lower-case words. The steps are specified
    by functions taking the measure as a parameter, so that the measure
    `measure` computes and Porter's own measure can both be plugged in;
    the methods rewrite the word step by step as the C++ does, with
    Porter's measure. */
module PorterStemmer {
  import opened Common

  // ---------------------------------------------------------------------
  // Letters and measures

  predicate VowelLetter(c: char) { c == 'a' || c == 'e' || c == 'i' || c == 'o' || c == 'u' }

  /** `is_cons`: a vowel letter is not a consonant; `y` is one at the
      start of the word and after a vowel, and not after a consonant;
      every other character is one. */
  function IsCons(w: string, i: nat): bool
    requires i < |w|
    decreases i
  {
    if VowelLetter(w[i]) then false
    else if w[i] == 'y' then (if i == 0 then true else !IsCons(w, i - 1))
    else true
  }

  lemma IsConsSpec(w: string, i: nat)
    requires i < |w|
    ensures VowelLetter(w[i]) ==> !IsCons(w, i)
    ensures w[i] == 'y' && i == 0 ==> IsCons(w, i)
    ensures w[i] == 'y' && i > 0 ==> (IsCons(w, i) <==> !IsCons(w, i - 1))
    ensures !VowelLetter(w[i]) && w[i] != 'y' ==> IsCons(w, i)
  {
  }

  /** A run of vowels ends at `j`. */
  predicate RunEnd(w: string, j: nat)
    requires j < |w|
  {
    !IsCons(w, j) && (j + 1 == |w| || IsCons(w, j + 1))
  }

  /** The vowel runs ending before `i`. */
  function RunEnds(w: string, i: nat): nat
    requires i <= |w|
  {
    if i == 0 then 0 else RunEnds(w, i - 1) + (if RunEnd(w, i - 1) then 1 else 0)
  }

  /** What `measure` computes: the number of runs of vowels, a run at the
      end of the word included. */
  function VowelRuns(w: string): nat {
    RunEnds(w, |w|)
  }

  /** A vowel followed by a consonant at `j`. */
  predicate VcAt(w: string, j: nat)
    requires j + 1 < |w|
  {
    !IsCons(w, j) && IsCons(w, j + 1)
  }

  /** The vowel-consonant pairs within the first `i` letters. */
  function VcCount(w: string, i: nat): nat
    requires i <= |w|
  {
    if i < 2 then 0 else VcCount(w, i - 1) + (if VcAt(w, i - 2) then 1 else 0)
  }

  /** Porter's measure `m` of a word `[C](VC)^m[V]`: the number of
      vowel-consonant pairs. */
  function PorterMeasure(w: string): nat {
    VcCount(w, |w|)
  }

  lemma {:induction false} RunEndsVc(w: string, i: nat)
    requires i < |w|
    ensures RunEnds(w, i) == VcCount(w, i + 1)
  {
    if i > 0 {
      RunEndsVc(w, i - 1);
    }
  }

  /** The two measures differ exactly on words ending in a vowel, where
      `measure` counts one more. */
  lemma MeasureRelation(w: string)
    ensures VowelRuns(w) == PorterMeasure(w) + (if w != [] && !IsCons(w, |w| - 1) then 1 else 0)
  {
    if w != [] {
      RunEndsVc(w, |w| - 1);
    }
  }

  /** "tree" is `CV` in Porter's terms, of measure 0; `measure` gives 1. */
  lemma MeasureTree()
    ensures VowelRuns("tree") == 1 && PorterMeasure("tree") == 0
  {
    MeasureRelation("tree");
    assert IsCons("tree", 0) && IsCons("tree", 1) && !IsCons("tree", 2) && !IsCons("tree", 3);
    assert VcCount("tree", 4) == 0;
  }

  lemma {:induction false} ConsonantsAdd(w: string, a: nat, i: nat)
    requires a <= i <= |w| && forall j :: a <= j < i ==> IsCons(w, j)
    ensures RunEnds(w, i) == RunEnds(w, a)
    decreases i - a
  {
    if i > a {
      ConsonantsAdd(w, a, i - 1);
    }
  }

  lemma {:induction false} InnerVowels(w: string, s: nat, k: nat)
    requires s <= k < |w| && forall j :: s <= j <= k ==> !IsCons(w, j)
    ensures RunEnds(w, k) == RunEnds(w, s)
    decreases k - s
  {
    if k > s {
      InnerVowels(w, s, k - 1);
    }
  }

  /** A whole run of vowels adds one. */
  lemma VowelsAdd(w: string, s: nat, i: nat)
    requires s < i <= |w| && forall j :: s <= j < i ==> !IsCons(w, j)
    requires i == |w| || IsCons(w, i)
    ensures RunEnds(w, i) == RunEnds(w, s) + 1
  {
    InnerVowels(w, s, i - 1);
  }

  /** `measure` as written: skip consonants, stop at the end, skip vowels,
      count one. */
  method MeasureAsWritten(w: string) returns (n: nat)
    ensures n == VowelRuns(w)
  {
    n := 0;
    var i := 0;
    while i < |w|
      invariant i <= |w| && n == RunEnds(w, i)
      decreases |w| - i
    {
      ghost var a := i;
      while i < |w| && IsCons(w, i)
        invariant a <= i <= |w| && forall j :: a <= j < i ==> IsCons(w, j)
      {
        i := i + 1;
      }
      ConsonantsAdd(w, a, i);
      if i >= |w| {
        break;
      }
      ghost var s := i;
      while i < |w| && !IsCons(w, i)
        invariant s <= i <= |w| && forall j :: s <= j < i ==> !IsCons(w, j)
      {
        i := i + 1;
      }
      VowelsAdd(w, s, i);
      n := n + 1;
    }
  }

  /** `measure` counting a run of vowels only when a consonant follows it,
      as Porter defines `m`. */
  method Measure(w: string) returns (n: nat)
    ensures n == PorterMeasure(w)
  {
    MeasureRelation(w);
    n := 0;
    var i := 0;
    while i < |w|
      invariant i <= |w| && n == RunEnds(w, i)
      invariant i < |w| || w == []
      decreases |w| - i
    {
      ghost var a := i;
      while i < |w| && IsCons(w, i)
        invariant a <= i <= |w| && forall j :: a <= j < i ==> IsCons(w, j)
      {
        i := i + 1;
      }
      ConsonantsAdd(w, a, i);
      if i >= |w| {
        return;
      }
      ghost var s := i;
      while i < |w| && !IsCons(w, i)
        invariant s <= i <= |w| && forall j :: s <= j < i ==> !IsCons(w, j)
      {
        i := i + 1;
      }
      VowelsAdd(w, s, i);
      if i >= |w| {
        return;
      }
      n := n + 1;
    }
  }

  /** A word containing a vowel. */
  predicate HasVowel(w: string) {
    exists i :: 0 <= i < |w| && !IsCons(w, i)
  }

  /** `contains_vowel`. */
  method ContainsVowel(w: string) returns (found: bool)
    ensures found <==> HasVowel(w)
  {
    for i := 0 to |w|
      invariant forall j :: 0 <= j < i ==> IsCons(w, j)
    {
      if !IsCons(w, i) {
        return true;
      }
    }
    return false;
  }

  /** `ends_with`. */
  predicate EndsWith(w: string, s: string) {
    |w| >= |s| && w[|w| - |s|..] == s
  }

  /** `double_consonant`: the last two letters are the same consonant. */
  predicate DoubleCons(w: string) {
    |w| >= 2 && w[|w| - 1] == w[|w| - 2] && IsCons(w, |w| - 1)
  }

  /** `cvc`: consonant, vowel, consonant at the end, the last not w, x or
      y. */
  predicate Cvc(w: string) {
    |w| >= 3 && IsCons(w, |w| - 1) && !IsCons(w, |w| - 2) && IsCons(w, |w| - 3)
    && w[|w| - 1] != 'w' && w[|w| - 1] != 'x' && w[|w| - 1] != 'y'
  }

  // ---------------------------------------------------------------------
  // The steps, for a measure `m`

  type MeasureFn = string -> nat

  function Step1a(w: string): string {
    if EndsWith(w, "sses") then w[..|w| - 2]
    else if EndsWith(w, "ies") then w[..|w| - 2]
    else if EndsWith(w, "ss") then w
    else if EndsWith(w, "s") then w[..|w| - 1]
    else w
  }

  /** After "ed" or "ing" is removed: "at", "bl" and "iz" get an "e", a
      double consonant other than l, s or z loses one letter, and a short
      `cvc` word of measure 1 gets an "e". */
  function Step1bTail(v: string, m: MeasureFn): string {
    if EndsWith(v, "at") || EndsWith(v, "bl") || EndsWith(v, "iz") then v + "e"
    else if DoubleCons(v) && !(v[|v| - 1] == 'l' || v[|v| - 1] == 's' || v[|v| - 1] == 'z') then v[..|v| - 1]
    else if m(v) == 1 && Cvc(v) then v + "e"
    else v
  }

  function Step1b(w: string, m: MeasureFn): string {
    if EndsWith(w, "eed") then
      (if m(w[..|w| - 3]) > 0 then w[..|w| - 3] + "ee" else w)
    else if (EndsWith(w, "ed") && HasVowel(w[..|w| - 2])) || (EndsWith(w, "ing") && HasVowel(w[..|w| - 3])) then
      Step1bTail(if EndsWith(w, "ed") then w[..|w| - 2] else w[..|w| - 3], m)
    else w
  }

  function Step1c(w: string): string {
    if EndsWith(w, "y") && HasVowel(w[..|w| - 1]) then w[|w| - 1 := 'i'] else w
  }

  const Step2Rules: seq<(string, string)> := [
    ("ational", "ate"), ("tional", "tion"), ("enci", "ence"), ("anci", "ance"),
    ("izer", "ize"), ("abli", "able"), ("alli", "al"), ("entli", "ent"),
    ("eli", "e"), ("ousli", "ous"), ("ization", "ize"), ("ation", "ate"),
    ("ator", "ate"), ("alism", "al"), ("iveness", "ive"), ("fulness", "ful"),
    ("ousness", "ous"), ("aliti", "al"), ("iviti", "ive"), ("biliti", "ble")]

  const Step3Rules: seq<(string, string)> := [
    ("icate", "ic"), ("ative", ""), ("alize", "al"), ("iciti", "ic"),
    ("ical", "ic"), ("ful", ""), ("ness", "")]

  const Step4Suffixes: seq<string> := [
    "al", "ance", "ence", "er", "ic", "able", "ible", "ant", "ement", "ment", "ent",
    "ion", "ou", "ism", "ate", "iti", "ous", "ive", "ize"]

  /** Steps 2 and 3: the first rule, in table order, whose suffix ends the
      word decides; its replacement is made when the rest has a measure
      above 0, and later rules are not tried either way. */
  function FirstRule(rules: seq<(string, string)>, w: string, m: MeasureFn, k: nat): string
    decreases |rules| - k
  {
    if k >= |rules| then w
    else if EndsWith(w, rules[k].0) then
      var stem := w[..|w| - |rules[k].0|];
      if m(stem) > 0 then stem + rules[k].1 else w
    else FirstRule(rules, w, m, k + 1)
  }

  function Step2(w: string, m: MeasureFn): string { FirstRule(Step2Rules, w, m, 0) }

  function Step3(w: string, m: MeasureFn): string { FirstRule(Step3Rules, w, m, 0) }

  /** Step 4: the first listed suffix ending the word decides; it is
      removed when the rest has a measure above 1, "ion" only after s or
      t. */
  function Step4From(w: string, m: MeasureFn, k: nat): string
    decreases |Step4Suffixes| - k
  {
    if k >= |Step4Suffixes| then w
    else if EndsWith(w, Step4Suffixes[k]) then
      var stem := w[..|w| - |Step4Suffixes[k]|];
      if m(stem) > 1 then
        (if Step4Suffixes[k] == "ion" then
           (if |stem| > 0 && (stem[|stem| - 1] == 's' || stem[|stem| - 1] == 't') then stem else w)
         else stem)
      else w
    else Step4From(w, m, k + 1)
  }

  function Step4(w: string, m: MeasureFn): string { Step4From(w, m, 0) }

  function Step5a(w: string, m: MeasureFn): string {
    if EndsWith(w, "e") then
      var stem := w[..|w| - 1];
      if m(stem) > 1 || (m(stem) == 1 && !Cvc(stem)) then stem else w
    else w
  }

  function Step5b(w: string, m: MeasureFn): string {
    if m(w) > 1 && DoubleCons(w) && w[|w| - 1] == 'l' then w[..|w| - 1] else w
  }

  /** `stem` with measure `m`: words of up to two letters are kept, the
      others go through every step in order. */
  function StemWith(s: string, m: MeasureFn): string {
    if |s| <= 2 then s
    else Step5b(Step5a(Step4(Step3(Step2(Step1c(Step1b(Step1a(s), m)), m), m), m), m), m)
  }

  /** The stemmer with Porter's measure. */
  function Stem(s: string): string {
    StemWith(s, PorterMeasure)
  }

  // ---------------------------------------------------------------------
  // The C++ steps, rewriting the word

  method Rewrite1b(w: string) returns (r: string)
    ensures r == Step1b(w, PorterMeasure)
  {
    r := w;
    if EndsWith(r, "eed") {
      var stem := r[..|r| - 3];
      var m := Measure(stem);
      if m > 0 {
        r := stem + "ee";
      }
    } else {
      var edVowel := false;
      if EndsWith(r, "ed") {
        edVowel := ContainsVowel(r[..|r| - 2]);
      }
      var ingVowel := false;
      if !edVowel && EndsWith(r, "ing") {
        ingVowel := ContainsVowel(r[..|r| - 3]);
      }
      if edVowel || ingVowel {
        if EndsWith(r, "ed") {
          r := r[..|r| - 2];
        } else {
          r := r[..|r| - 3];
        }
        if EndsWith(r, "at") || EndsWith(r, "bl") || EndsWith(r, "iz") {
          r := r + "e";
        } else if DoubleCons(r) && !(r[|r| - 1] == 'l' || r[|r| - 1] == 's' || r[|r| - 1] == 'z') {
          r := r[..|r| - 1];
        } else {
          var m := Measure(r);
          if m == 1 && Cvc(r) {
            r := r + "e";
          }
        }
      }
    }
  }

  method Rewrite1c(w: string) returns (r: string)
    ensures r == Step1c(w)
  {
    r := w;
    if EndsWith(r, "y") {
      var vowel := ContainsVowel(r[..|r| - 1]);
      if vowel {
        r := r[|r| - 1 := 'i'];
      }
    }
  }

  /** The rule loop of steps 2 and 3. */
  method RewriteRules(w: string, rules: seq<(string, string)>) returns (r: string)
    ensures r == FirstRule(rules, w, PorterMeasure, 0)
  {
    for k := 0 to |rules|
      invariant FirstRule(rules, w, PorterMeasure, 0) == FirstRule(rules, w, PorterMeasure, k)
    {
      if EndsWith(w, rules[k].0) {
        var stem := w[..|w| - |rules[k].0|];
        var m := Measure(stem);
        if m > 0 {
          return stem + rules[k].1;
        }
        return w;
      }
    }
    return w;
  }

  /** The suffix loop of step 4. */
  method Rewrite4(w: string) returns (r: string)
    ensures r == Step4(w, PorterMeasure)
  {
    for k := 0 to |Step4Suffixes|
      invariant Step4From(w, PorterMeasure, 0) == Step4From(w, PorterMeasure, k)
    {
      var s := Step4Suffixes[k];
      if EndsWith(w, s) {
        var stem := w[..|w| - |s|];
        var m := Measure(stem);
        r := w;
        if m > 1 {
          if s == "ion" {
            if |stem| > 0 && (stem[|stem| - 1] == 's' || stem[|stem| - 1] == 't') {
              r := stem;
            }
          } else {
            r := stem;
          }
        }
        return;
      }
    }
    return w;
  }

  method Rewrite5a(w: string) returns (r: string)
    ensures r == Step5a(w, PorterMeasure)
  {
    r := w;
    if EndsWith(r, "e") {
      var stem := r[..|r| - 1];
      var m := Measure(stem);
      if m > 1 || (m == 1 && !Cvc(stem)) {
        r := stem;
      }
    }
  }

  method Rewrite5b(w: string) returns (r: string)
    ensures r == Step5b(w, PorterMeasure)
  {
    r := w;
    var m := Measure(r);
    if m > 1 && DoubleCons(r) && r[|r| - 1] == 'l' {
      r := r[..|r| - 1];
    }
  }

  /** `stem`: the word rewritten by each step in turn. */
  method StemWord(s: string) returns (w: string)
    ensures w == Stem(s)
  {
    if |s| <= 2 {
      return s;
    }
    w := Step1a(s);
    w := Rewrite1b(w);
    w := Rewrite1c(w);
    w := RewriteRules(w, Step2Rules);
    w := RewriteRules(w, Step3Rules);
    w := Rewrite4(w);
    w := Rewrite5a(w);
    w := Rewrite5b(w);
  }

  // ---------------------------------------------------------------------
  // What the steps promise

  /** A word ending in `a + b` ends in `b`, with `a` just before it. */
  lemma EndsWithTail(w: string, a: string, b: string)
    requires EndsWith(w, a + b)
    ensures EndsWith(w, b) && w[..|w| - |b|] == w[..|w| - |a + b|] + a
  {
    var k := |w| - |a + b|;
    assert w[|w| - |b|..] == w[k..][|a|..];
    assert w[..|w| - |b|] == w[..k] + w[k..][..|a|];
  }

  lemma LastLetter(w: string, s: string)
    requires s != []
    ensures EndsWith(w, s) ==> w[|w| - 1] == s[|s| - 1]
  {
    if EndsWith(w, s) {
      assert w[|w| - 1] == w[|w| - |s|..][|s| - 1];
    }
  }

  /** Step 1a: "sses" becomes "ss", "ies" becomes "i", "ss" stays, and
      any other final "s" goes. */
  lemma Step1aSpec(w: string)
    ensures EndsWith(w, "sses") ==> Step1a(w) == w[..|w| - 4] + "ss"
    ensures EndsWith(w, "ies") ==> Step1a(w) == w[..|w| - 3] + "i"
    ensures EndsWith(w, "ss") ==> Step1a(w) == w
    ensures !EndsWith(w, "sses") && !EndsWith(w, "ies") && !EndsWith(w, "ss") && EndsWith(w, "s")
            ==> Step1a(w) == w[..|w| - 1]
    ensures !EndsWith(w, "s") ==> Step1a(w) == w
  {
    if EndsWith(w, "sses") {
      assert "ss" + "es" == "sses";
      EndsWithTail(w, "ss", "es");
    } else if EndsWith(w, "ies") {
      assert "i" + "es" == "ies";
      EndsWithTail(w, "i", "es");
    } else if EndsWith(w, "ss") {
      assert w[|w| - 2..] == "ss";
    }
    if EndsWith(w, "ss") && (EndsWith(w, "sses") || EndsWith(w, "ies")) {
      EndsWithTail(w, if EndsWith(w, "sses") then "ss" else "i", "es");
      assert false;
    }
  }

  /** A step that keeps a word no longer than it was and, given that an
      empty word has measure 0, never empties a non-empty word. */
  predicate Shrinks(w: string, r: string) {
    |r| <= |w| && (w != [] ==> r != [])
  }

  /** Every replacement is no longer than the suffix it replaces. */
  predicate NoLongerRules(rules: seq<(string, string)>) {
    forall k :: 0 <= k < |rules| ==> |rules[k].1| <= |rules[k].0|
  }

  lemma Step1bShrinks(w: string, m: MeasureFn)
    ensures Shrinks(w, Step1b(w, m))
  {
    if !EndsWith(w, "eed") && ((EndsWith(w, "ed") && HasVowel(w[..|w| - 2])) || (EndsWith(w, "ing") && HasVowel(w[..|w| - 3]))) {
      var v := if EndsWith(w, "ed") then w[..|w| - 2] else w[..|w| - 3];
      LastLetter(w, "ed");
      LastLetter(w, "ing");
      assert HasVowel(v);
      assert v != [];
    }
  }

  lemma {:induction false} FirstRuleShrinks(rules: seq<(string, string)>, w: string, m: MeasureFn, k: nat)
    requires NoLongerRules(rules) && m([]) == 0
    ensures Shrinks(w, FirstRule(rules, w, m, k))
    decreases |rules| - k
  {
    if k < |rules| && !EndsWith(w, rules[k].0) {
      FirstRuleShrinks(rules, w, m, k + 1);
    }
  }

  lemma {:induction false} Step4Shrinks(w: string, m: MeasureFn, k: nat)
    requires m([]) == 0
    ensures Shrinks(w, Step4From(w, m, k))
    decreases |Step4Suffixes| - k
  {
    if k < |Step4Suffixes| && !EndsWith(w, Step4Suffixes[k]) {
      Step4Shrinks(w, m, k + 1);
    }
  }

  /** `stem` keeps words of up to two letters, never makes a word longer,
      and never empties one, for any measure with `m("") == 0` (both
      measures above). */
  lemma StemShrinks(s: string, m: MeasureFn)
    requires m([]) == 0
    ensures |s| <= 2 ==> StemWith(s, m) == s
    ensures |StemWith(s, m)| <= |s|
    ensures s != [] ==> StemWith(s, m) != []
  {
    if |s| > 2 {
      var w1 := Step1a(s);
      Step1aShrinks(s);
      var w2 := Step1b(w1, m);
      Step1bShrinks(w1, m);
      var w3 := Step1c(w2);
      var w5 := Step3(Step2(w3, m), m);
      Step23Shrinks(w3, m);
      var w6 := Step4(w5, m);
      Step4Shrinks(w5, m, 0);
      Step5Shrinks(w6, m);
    }
  }

  lemma Step1aShrinks(s: string)
    requires |s| > 2
    ensures Shrinks(s, Step1a(s))
  {
  }

  lemma Step23Shrinks(w: string, m: MeasureFn)
    requires m([]) == 0
    ensures Shrinks(w, Step3(Step2(w, m), m))
  {
    assert NoLongerRules(Step2Rules);
    assert NoLongerRules(Step3Rules);
    FirstRuleShrinks(Step2Rules, w, m, 0);
    FirstRuleShrinks(Step3Rules, Step2(w, m), m, 0);
  }

  lemma Step5Shrinks(w: string, m: MeasureFn)
    requires m([]) == 0
    ensures Shrinks(w, Step5b(Step5a(w, m), m))
  {
  }

  /** Step 4 removes a listed suffix and nothing else, only when the rest
      has a measure above 1, and "ion" only after s or t. */
  ghost predicate StrippedBy(w: string, r: string, m: MeasureFn, k: nat) {
    k < |Step4Suffixes| && EndsWith(w, Step4Suffixes[k])
    && r == w[..|w| - |Step4Suffixes[k]|] && m(r) > 1
    && (Step4Suffixes[k] == "ion" ==> r != [] && (r[|r| - 1] == 's' || r[|r| - 1] == 't'))
  }

  lemma {:induction false} Step4FromSpec(w: string, m: MeasureFn, k: nat)
    ensures Step4From(w, m, k) == w || exists j :: StrippedBy(w, Step4From(w, m, k), m, j)
    decreases |Step4Suffixes| - k
  {
    if k < |Step4Suffixes| {
      if EndsWith(w, Step4Suffixes[k]) {
        if Step4From(w, m, k) != w {
          assert StrippedBy(w, Step4From(w, m, k), m, k);
        }
      } else {
        Step4FromSpec(w, m, k + 1);
      }
    }
  }

  lemma Step4Spec(w: string, m: MeasureFn)
    ensures Step4(w, m) == w || exists j :: StrippedBy(w, Step4(w, m), m, j)
  {
    Step4FromSpec(w, m, 0);
  }
  /** A word ending in a suffix of two letters or more ends in its last
      two letters. */
  lemma LastTwo(w: string, s: string)
    requires |s| >= 2
    ensures EndsWith(w, s) ==> s[|s| - 1] == w[|w| - 1] && s[|s| - 2] == w[|w| - 2]
  {
    if EndsWith(w, s) {
      assert w[|w| - |s|..][|s| - 1] == w[|w| - 1];
      assert w[|w| - |s|..][|s| - 2] == w[|w| - 2];
    }
  }

  lemma {:induction false} FirstRuleNone(rules: seq<(string, string)>, w: string, m: MeasureFn, k: nat)
    requires forall j :: k <= j < |rules| ==> !EndsWith(w, rules[j].0)
    ensures FirstRule(rules, w, m, k) == w
    decreases |rules| - k
  {
    if k < |rules| {
      FirstRuleNone(rules, w, m, k + 1);
    }
  }

  lemma {:induction false} Step4None(w: string, m: MeasureFn, k: nat)
    requires forall j :: k <= j < |Step4Suffixes| ==> !EndsWith(w, Step4Suffixes[j])
    ensures Step4From(w, m, k) == w
    decreases |Step4Suffixes| - k
  {
    if k < |Step4Suffixes| {
      Step4None(w, m, k + 1);
    }
  }

  lemma TreeStep1(m: MeasureFn)
    ensures Step1c(Step1b(Step1a("tree"), m)) == "tree"
  {
    assert Step1a("tree") == "tree";
    assert Step1b("tree", m) == "tree";
  }

  lemma TreeStep2(m: MeasureFn)
    ensures Step2("tree", m) == "tree"
  {
    forall j | 0 <= j < |Step2Rules| ensures !EndsWith("tree", Step2Rules[j].0) {
      LastTwo("tree", Step2Rules[j].0);
    }
    FirstRuleNone(Step2Rules, "tree", m, 0);
  }

  lemma TreeStep3(m: MeasureFn)
    ensures Step3("tree", m) == "tree"
  {
    forall j | 0 <= j < |Step3Rules| ensures !EndsWith("tree", Step3Rules[j].0) {
      LastTwo("tree", Step3Rules[j].0);
    }
    FirstRuleNone(Step3Rules, "tree", m, 0);
  }

  lemma TreeStep4(m: MeasureFn)
    ensures Step4("tree", m) == "tree"
  {
    forall j | 0 <= j < |Step4Suffixes| ensures !EndsWith("tree", Step4Suffixes[j]) {
      LastTwo("tree", Step4Suffixes[j]);
    }
    Step4None("tree", m, 0);
  }

  /** Whatever the measure, steps 1a to 4 leave "tree" alone. */
  lemma TreeBeforeStep5(m: MeasureFn)
    ensures Step4(Step3(Step2(Step1c(Step1b(Step1a("tree"), m)), m), m), m) == "tree"
  {
    TreeStep1(m);
    TreeStep2(m);
    TreeStep3(m);
    TreeStep4(m);
  }

  /** `stem("tree")` as written: `measure("tre")` counts the final vowel
      run, so step 5a takes the "e" off. */
  lemma StemTreeAsWritten()
    ensures StemWith("tree", VowelRuns) == "tre"
  {
    TreeBeforeStep5(VowelRuns);
    assert IsCons("tre", 0) && IsCons("tre", 1) && !IsCons("tre", 2);
    assert RunEnds("tre", 2) == 0;
    assert VowelRuns("tre") == 1 && !Cvc("tre");
  }

  /** With Porter's measure, "tree" (of measure 0) is kept. */
  lemma StemTree()
    ensures Stem("tree") == "tree"
  {
    TreeBeforeStep5(PorterMeasure);
    MeasureTree();
    assert IsCons("tre", 0) && IsCons("tre", 1) && !IsCons("tre", 2);
    assert "tree"[..3] == "tre";
    assert PorterMeasure("tre") == 0;
  }
}
