/** The per-paper logic of extractor.cpp: `join_authors`,
    `extract_sections` and `parse_text_file`, over values that stand for
    the parsed JSON members and the lines of a text file. */
module ExtractorDocs {
  import opened Common
  import Text
  import Extractor

  // ---------------------------------------------------------------------
  // join_authors

  /** The "middle" member of an author: missing (or of another type), an
      array (only its string elements, in order), or a string. */
  datatype Middle = NoMiddle | MiddleArray(parts: seq<string>) | MiddleString(s: string)

  /** One element of "authors": an object with its members as
      `get_string_member` gives them (a string as itself, a number as its
      decimal text, "" when missing or of another type), a bare string, or
      anything else. `name` and `email` are `None` when they are not
      strings. */
  datatype Author =
    | AuthorObject(first: string, middle: Middle, last: string, name: Option<string>, email: Option<string>)
    | AuthorString(s: string)
    | AuthorOther

  /** The string elements of a "middle" array, each after a space once the
      text so far is non-empty. */
  function MiddleJoined(parts: seq<string>): string
    decreases |parts|
  {
    if parts == [] then []
    else
      var mm := MiddleJoined(parts[..|parts| - 1]);
      (if mm != [] then mm + " " else mm) + parts[|parts| - 1]
  }

  function MiddleOf(m: Middle): string {
    match m
    case NoMiddle => ""
    case MiddleArray(parts) => MiddleJoined(parts)
    case MiddleString(s) => s
  }

  /** `name` with `part` added after a space, when `part` is not empty. */
  function AddPart(name: string, part: string): string {
    if part == [] then name else if name == [] then part else name + " " + part
  }

  /** The name of an author object: first, middle and last, then the "name"
      member, then the "email" member. */
  function ObjectName(first: string, middle: Middle, last: string, name: Option<string>, email: Option<string>): string {
    var n := AddPart(AddPart(AddPart("", first), MiddleOf(middle)), last);
    var n' := if n == [] && name.Some? then name.value else n;
    if n' == [] && email.Some? then email.value else n'
  }

  /** The names `join_authors` collects: every non-empty object name, and
      every string element, even an empty one. */
  function Names(authors: seq<Author>): seq<string>
    decreases |authors|
  {
    if authors == [] then []
    else
      var ns := Names(authors[..|authors| - 1]);
      match authors[|authors| - 1]
      case AuthorObject(f, m, l, n, e) => var x := ObjectName(f, m, l, n, e); if x == [] then ns else ns + [x]
      case AuthorString(s) => ns + [s]
      case AuthorOther => ns
  }

  /** The non-empty strings of `ps`, in order. */
  function NonEmpty(ps: seq<string>): (r: seq<string>)
    ensures forall k :: 0 <= k < |r| ==> r[k] != []
    decreases |ps|
  {
    if ps == [] then [] else (if ps[0] == [] then [] else [ps[0]]) + NonEmpty(ps[1..])
  }

  /** An author object's name is its non-empty first, middle and last
      parts with one space between them; when all three are empty it is
      the "name" member, then the "email" member. */
  lemma ObjectNameParts(first: string, middle: Middle, last: string, name: Option<string>, email: Option<string>)
    ensures var parts := NonEmpty([first, MiddleOf(middle), last]);
      parts != [] ==> ObjectName(first, middle, last, name, email) == Text.JoinWith(parts, " ")
    ensures NonEmpty([first, MiddleOf(middle), last]) == [] && name.Some? && name.value != [] ==>
      ObjectName(first, middle, last, name, email) == name.value
  {
    var m := MiddleOf(middle);
    assert [first, m, last][1..] == [m, last];
    assert [m, last][1..] == [last];
    assert [last][1..] == [];
    var tail := NonEmpty([m, last]);
    assert NonEmpty([last]) == if last == [] then [] else [last];
    assert tail == (if m == [] then [] else [m]) + NonEmpty([last]);
    assert NonEmpty([first, m, last]) == (if first == [] then [] else [first]) + tail;
    var n := AddPart(AddPart(AddPart("", first), m), last);
    if first != [] && m != [] && last != [] {
      assert Text.JoinWith([last], " ") == last;
      assert Text.JoinWith([m, last], " ") == m + " " + last;
      assert Text.JoinWith([first, m, last], " ") == first + " " + (m + " " + last);
      assert n == first + " " + m + " " + last;
    }
  }

  /** Each name is the author's; an author without a name adds none. */
  lemma {:induction false} NamesCount(authors: seq<Author>)
    ensures |Names(authors)| <= |authors|
    ensures (forall k :: 0 <= k < |authors| ==> !authors[k].AuthorString?) ==>
      forall k :: 0 <= k < |Names(authors)| ==> Names(authors)[k] != []
    decreases |authors|
  {
    if authors != [] {
      var p := authors[..|authors| - 1];
      NamesCount(p);
      if forall k :: 0 <= k < |authors| ==> !authors[k].AuthorString? {
        assert forall k :: 0 <= k < |p| ==> !p[k].AuthorString? by {
          forall k | 0 <= k < |p| ensures !p[k].AuthorString? {
            assert p[k] == authors[k];
          }
        }
      }
    }
  }

  /** `join_authors`: the name loop, then the "; " join loop. */
  method JoinAuthors(authors: seq<Author>) returns (out: string)
    ensures out == Text.JoinWith(Names(authors), "; ")
  {
    var names: seq<string> := [];
    for i := 0 to |authors|
      invariant names == Names(authors[..i])
    {
      assert authors[..i + 1][..i] == authors[..i];
      match authors[i]
      case AuthorObject(f, m, l, n, e) =>
        var x := ObjectName(f, m, l, n, e);
        if x != [] {
          names := names + [x];
        }
      case AuthorString(s) =>
        names := names + [s];
      case AuthorOther =>
    }
    assert authors[..|authors|] == authors;
    out := "";
    for i := 0 to |names|
      invariant out == Text.JoinWith(names[..i], "; ")
    {
      if i > 0 {
        Text.JoinWithSnoc(names[..i], names[i], "; ");
      } else {
        assert [names[0]][1..] == [];
      }
      assert names[..i + 1] == names[..i] + [names[i]];
      if i > 0 {
        out := out + "; ";
      }
      out := out + names[i];
    }
    assert names[..|names|] == names;
  }

  // ---------------------------------------------------------------------
  // extract_sections

  /** One element of "body_text": its "section" and "text" members when
      they are strings (`None` otherwise, and both for a non-object). */
  datatype BodyEntry = BodyEntry(section: Option<string>, text: Option<string>)

  /** A missing or blank section name is "Body". */
  function SectionName(e: BodyEntry): string {
    if e.section.Some? && Extractor.Trim(e.section.value) != [] then e.section.value else "Body"
  }

  /** The entry's text, normalized; an entry whose text is then empty is
      skipped. */
  function EntryText(e: BodyEntry): string {
    Extractor.Collapsed(if e.text.Some? then e.text.value else "")
  }

  /** The first index holding a section of this name. */
  function IndexOf(g: seq<(string, string)>, n: string): (r: Option<nat>)
    ensures r.Some? ==> r.value < |g| && g[r.value].0 == n
    ensures r.None? ==> forall k :: 0 <= k < |g| ==> g[k].0 != n
  {
    if g == [] then None
    else if g[0].0 == n then Some(0)
    else match IndexOf(g[1..], n)
      case None => None
      case Some(k) => Some(k + 1)
  }

  /** The list with text `t` added under the name `n`: appended to the
      section of that name, or as a new section at the end. */
  function Add(g: seq<(string, string)>, n: string, t: string): seq<(string, string)> {
    match IndexOf(g, n)
    case None => g + [(n, t)]
    case Some(k) => g[k := (n, g[k].1 + "\n\n" + t)]
  }

  /** The sections in order of first appearance, each with its texts joined
      by a blank line. */
  function Grouped(es: seq<BodyEntry>): seq<(string, string)>
    decreases |es|
  {
    if es == [] then []
    else
      var g := Grouped(es[..|es| - 1]);
      var e := es[|es| - 1];
      if EntryText(e) == [] then g else Add(g, SectionName(e), EntryText(e))
  }

  /** The entries of `extract_sections`: "Name: text", normalized. */
  function SectionsOf(es: seq<BodyEntry>): (r: seq<string>)
    ensures |r| == |Grouped(es)|
  {
    var g := Grouped(es);
    seq(|g|, i requires 0 <= i < |g| => Extractor.Collapsed(g[i].0 + ": " + g[i].1))
  }

  predicate Distinct(g: seq<(string, string)>) {
    forall j, k :: 0 <= j < k < |g| ==> g[j].0 != g[k].0
  }

  /** The map from name to index agrees with the ordered list. */
  predicate Indexed(g: seq<(string, string)>, idx: map<string, nat>) {
    (forall n :: n in idx ==> idx[n] < |g| && g[idx[n]].0 == n)
    && (forall k :: 0 <= k < |g| ==> g[k].0 in idx)
    && Distinct(g)
  }

  lemma IndexedLookup(g: seq<(string, string)>, idx: map<string, nat>, n: string)
    requires Indexed(g, idx)
    ensures IndexOf(g, n) == if n in idx then Some(idx[n]) else None
  {
  }

  /** One entry of the grouping loop: look the name up in the index, then
      append to its section or add a new one. */
  method GroupEntry(ordered: seq<(string, string)>, idx: map<string, nat>, e: BodyEntry)
    returns (ordered': seq<(string, string)>, idx': map<string, nat>)
    requires Indexed(ordered, idx)
    ensures Indexed(ordered', idx')
    ensures ordered' == if EntryText(e) == [] then ordered else Add(ordered, SectionName(e), EntryText(e))
  {
    var section := SectionName(e);
    var text := Extractor.NormalizeWhitespace(if e.text.Some? then e.text.value else "");
    ordered', idx' := ordered, idx;
    if text == [] {
      return;
    }
    IndexedLookup(ordered, idx, section);
    if section !in idx {
      idx' := idx[section := |ordered|];
      ordered' := ordered + [(section, text)];
    } else {
      var k := idx[section];
      ordered' := ordered[k := (section, ordered[k].1 + "\n\n" + text)];
    }
  }

  /** `extract_sections`: the grouping loop over an ordered list and a name
      index, then the output loop. */
  method ExtractSections(es: seq<BodyEntry>) returns (out: seq<string>)
    ensures out == SectionsOf(es)
  {
    var ordered: seq<(string, string)> := [];
    var idx: map<string, nat> := map[];
    for i := 0 to |es|
      invariant ordered == Grouped(es[..i]) && Indexed(ordered, idx)
    {
      assert es[..i + 1][..i] == es[..i];
      ordered, idx := GroupEntry(ordered, idx, es[i]);
    }
    assert es[..|es|] == es;
    out := [];
    for i := 0 to |ordered|
      invariant |out| == i
      invariant forall j :: 0 <= j < i ==> out[j] == SectionsOf(es)[j]
    {
      var combined := ordered[i].0 + ": " + ordered[i].1;
      var c := Extractor.NormalizeWhitespace(combined);
      out := out + [c];
    }
  }

  /** The names of the entries with text, in order. */
  function KeptNames(es: seq<BodyEntry>): seq<string>
    decreases |es|
  {
    if es == [] then []
    else
      var ns := KeptNames(es[..|es| - 1]);
      if EntryText(es[|es| - 1]) == [] then ns else ns + [SectionName(es[|es| - 1])]
  }

  /** Each element at its first appearance. */
  function Dedup(xs: seq<string>): (r: seq<string>)
    ensures forall x :: x in r <==> x in xs
    decreases |xs|
  {
    if xs == [] then []
    else
      var d := Dedup(xs[..|xs| - 1]);
      var x := xs[|xs| - 1];
      assert forall y :: y in xs <==> y in xs[..|xs| - 1] || y == x;
      if x in d then d else d + [x]
  }

  function NamesOf(g: seq<(string, string)>): (r: seq<string>)
    ensures |r| == |g|
  {
    seq(|g|, i requires 0 <= i < |g| => g[i].0)
  }

  /** One entry per distinct section name with text, in order of first
      appearance. */
  lemma {:induction false} GroupedNames(es: seq<BodyEntry>)
    ensures NamesOf(Grouped(es)) == Dedup(KeptNames(es))
    decreases |es|
  {
    if es != [] {
      var p := es[..|es| - 1];
      GroupedNames(p);
      var g := Grouped(p);
      var e := es[|es| - 1];
      if EntryText(e) != [] {
        var n := SectionName(e);
        var ns := KeptNames(p);
        assert KeptNames(es) == ns + [n];
        assert (ns + [n])[..|ns + [n]| - 1] == ns;
        match IndexOf(g, n)
        case None =>
          assert n !in NamesOf(g);
        case Some(k) =>
          assert NamesOf(g)[k] == n;
      }
    }
  }

  lemma AddDistinct(g: seq<(string, string)>, n: string, t: string)
    requires Distinct(g)
    ensures Distinct(Add(g, n, t))
  {
  }

  lemma {:induction false} GroupedDistinct(es: seq<BodyEntry>)
    ensures Distinct(Grouped(es))
    decreases |es|
  {
    if es != [] {
      var p := es[..|es| - 1];
      GroupedDistinct(p);
      var e := es[|es| - 1];
      if EntryText(e) != [] {
        AddDistinct(Grouped(p), SectionName(e), EntryText(e));
      }
    }
  }

  /** The texts of the entries named `n`, in order. */
  function TextsOf(es: seq<BodyEntry>, n: string): seq<string>
    decreases |es|
  {
    if es == [] then []
    else
      var ts := TextsOf(es[..|es| - 1], n);
      var e := es[|es| - 1];
      if EntryText(e) != [] && SectionName(e) == n then ts + [EntryText(e)] else ts
  }

  /** The section texts are the joins of their names' texts, none empty;
      a name without a section has no text. */
  ghost predicate Joined(es: seq<BodyEntry>, g: seq<(string, string)>) {
    (forall k :: 0 <= k < |g| ==> TextsOf(es, g[k].0) != [] && g[k].1 == Text.JoinWith(TextsOf(es, g[k].0), "\n\n"))
    && forall n :: IndexOf(g, n).None? ==> TextsOf(es, n) == []
  }

  /** A name missing from a list with the same names is missing here. */
  lemma NoneBefore(g: seq<(string, string)>, g': seq<(string, string)>, m: string)
    requires |g| <= |g'| && forall k :: 0 <= k < |g| ==> g'[k].0 == g[k].0
    requires IndexOf(g', m).None?
    ensures IndexOf(g, m).None?
  {
  }

  lemma AddNewJoined(es: seq<BodyEntry>, g: seq<(string, string)>, n: string, t: string)
    requires es != [] && Joined(es[..|es| - 1], g) && IndexOf(g, n).None?
    requires EntryText(es[|es| - 1]) == t != [] && SectionName(es[|es| - 1]) == n
    ensures Joined(es, Add(g, n, t))
  {
    var p := es[..|es| - 1];
    var g' := g + [(n, t)];
    assert Add(g, n, t) == g';
    forall k | 0 <= k < |g'| ensures TextsOf(es, g'[k].0) != [] && g'[k].1 == Text.JoinWith(TextsOf(es, g'[k].0), "\n\n") {
      if k == |g| {
        assert TextsOf(p, n) == [];
        assert TextsOf(es, n) == [t];
      } else {
        assert g'[k] == g[k] && g[k].0 != n;
        assert TextsOf(es, g[k].0) == TextsOf(p, g[k].0);
      }
    }
    forall m | IndexOf(g', m).None? ensures TextsOf(es, m) == [] {
      assert g'[|g|].0 == n;
      NoneBefore(g, g', m);
    }
  }

  lemma AddOldJoined(es: seq<BodyEntry>, g: seq<(string, string)>, n: string, t: string, j: nat)
    requires es != [] && Joined(es[..|es| - 1], g) && Distinct(g) && IndexOf(g, n) == Some(j)
    requires EntryText(es[|es| - 1]) == t != [] && SectionName(es[|es| - 1]) == n
    ensures Joined(es, Add(g, n, t))
  {
    var p := es[..|es| - 1];
    var g' := g[j := (n, g[j].1 + "\n\n" + t)];
    assert Add(g, n, t) == g';
    forall k | 0 <= k < |g'| ensures TextsOf(es, g'[k].0) != [] && g'[k].1 == Text.JoinWith(TextsOf(es, g'[k].0), "\n\n") {
      AddOldSection(es, g, n, t, j, k);
    }
    forall m | IndexOf(g', m).None? ensures TextsOf(es, m) == [] {
      NoneBefore(g, g', m);
    }
  }

  /** Section `k` after the text is added to section `j`. */
  lemma AddOldSection(es: seq<BodyEntry>, g: seq<(string, string)>, n: string, t: string, j: nat, k: nat)
    requires es != [] && Joined(es[..|es| - 1], g) && Distinct(g) && IndexOf(g, n) == Some(j)
    requires EntryText(es[|es| - 1]) == t != [] && SectionName(es[|es| - 1]) == n
    requires k < |g|
    ensures var g' := g[j := (n, g[j].1 + "\n\n" + t)];
            TextsOf(es, g'[k].0) != [] && g'[k].1 == Text.JoinWith(TextsOf(es, g'[k].0), "\n\n")
  {
    var p := es[..|es| - 1];
    if k == j {
      var ts := TextsOf(p, n);
      assert TextsOf(es, n) == ts + [t];
      Text.JoinWithSnoc(ts, t, "\n\n");
    } else {
      assert g[k].0 != n;
      assert TextsOf(es, g[k].0) == TextsOf(p, g[k].0);
    }
  }

  lemma SkipJoined(es: seq<BodyEntry>, g: seq<(string, string)>)
    requires es != [] && Joined(es[..|es| - 1], g) && EntryText(es[|es| - 1]) == []
    ensures Joined(es, g)
  {
    var p := es[..|es| - 1];
    assert forall m :: TextsOf(es, m) == TextsOf(p, m);
  }

  /** Every section holds all the texts of its name, in order, joined by
      blank lines; a name with text always has its section. */
  lemma {:induction false} GroupedTexts(es: seq<BodyEntry>)
    ensures Joined(es, Grouped(es))
    decreases |es|
  {
    if es != [] {
      var p := es[..|es| - 1];
      GroupedTexts(p);
      GroupedDistinct(p);
      var g := Grouped(p);
      var e := es[|es| - 1];
      var t := EntryText(e);
      if t == [] {
        SkipJoined(es, g);
      } else {
        match IndexOf(g, SectionName(e))
        case None => AddNewJoined(es, g, SectionName(e), t);
        case Some(j) => AddOldJoined(es, g, SectionName(e), t, j);
      }
    }
  }

  // ---------------------------------------------------------------------
  // parse_text_file

  /** The fields `parse_text_file` fills. */
  datatype TextDoc = TextDoc(
    paperId: string, title: string, abstractText: string, body: string,
    authors: string, pubDate: string, doi: string, source: string)

  /** The parsing state: the document so far and whether lines go to the
      abstract. */
  datatype TextState = TextState(doc: TextDoc, inAbstract: bool)

  predicate StartsWith(t: string, p: string) { IsPrefix(p, t) }

  predicate AbstractLine(t: string) { StartsWith(t, "Abstract:") || StartsWith(t, "ABSTRACT:") }
  predicate BodyLine(t: string) { StartsWith(t, "Body:") || StartsWith(t, "BODY:") || StartsWith(t, "Content:") }

  /** The label of a trimmed line, in the order the source tests them. */
  datatype Label = TitleLabel | AuthorsLabel | DateLabel | DoiLabel | AbstractLabel | BodyLabel | NoLabel

  function LabelOf(t: string): Label {
    if StartsWith(t, "Title:") || StartsWith(t, "TITLE:") then TitleLabel
    else if StartsWith(t, "Authors:") || StartsWith(t, "AUTHORS:") then AuthorsLabel
    else if StartsWith(t, "Date:") || StartsWith(t, "DATE:") || StartsWith(t, "Year:") then DateLabel
    else if StartsWith(t, "DOI:") then DoiLabel
    else if AbstractLine(t) then AbstractLabel
    else if BodyLine(t) then BodyLabel
    else NoLabel
  }

  /** The text after the first ':' of `t`, trimmed. */
  function AfterColon(t: string): string {
    var pos := Text.Find(t, ':');
    if pos < |t| then Extractor.Trim(t[pos + 1..]) else Extractor.Trim([])
  }

  /** One line of the text file. */
  function Step(st: TextState, line: string): TextState {
    var t := Extractor.Trim(line);
    var d := st.doc;
    match LabelOf(t)
    case TitleLabel => st.(doc := d.(title := Extractor.Trim(t[6..])))
    case AuthorsLabel => st.(doc := d.(authors := Extractor.Trim(t[8..])))
    case DateLabel => st.(doc := d.(pubDate := AfterColon(t)))
    case DoiLabel => st.(doc := d.(doi := Extractor.Trim(t[4..])))
    case AbstractLabel =>
      var abs := Extractor.Trim(t[9..]);
      TextState(if abs != [] then d.(abstractText := abs) else d, true)
    case BodyLabel =>
      var content := AfterColon(t);
      TextState(if content != [] then d.(body := d.body + content + "\n") else d, false)
    case NoLabel =>
      if t == [] then st
      else if st.inAbstract then
        st.(doc := d.(abstractText := (if d.abstractText != [] then d.abstractText + " " else d.abstractText) + t))
      else st.(doc := d.(body := d.body + t + "\n"))
  }

  /** The state after the lines of the file. */
  function Parse(start: TextState, lines: seq<string>): TextState
    decreases |lines|
  {
    if lines == [] then start else Step(Parse(start, lines[..|lines| - 1]), lines[|lines| - 1])
  }

  const Empty := TextDoc("", "", "", "", "", "", "", "")

  /** The fallback title: the first line of the body, trimmed, cut to 197
      characters and "..." when longer than 200. */
  function FallbackTitle(body: string): (r: string)
    ensures |r| <= 200
  {
    var first := body[..Text.Find(body, '\n')];
    var t := Extractor.Trim(first);
    if |t| > 200 then t[..197] + "..." else t
  }

  /** `parse_text_file` for a file with stem `stem`, given as its lines, or
      `None` when it cannot be opened. */
  function TextFile(stem: string, file: Option<seq<string>>): TextDoc {
    match file
    case None => Empty
    case Some(lines) =>
      var d := Parse(TextState(Empty.(paperId := stem, source := "text"), false), lines).doc;
      if d.title == [] && d.body != [] then d.(title := FallbackTitle(d.body)) else d
  }

  /** One turn of the line loop of `parse_text_file`. */
  method ParseLine(doc: TextDoc, inAbstract: bool, line: string) returns (doc': TextDoc, inAbstract': bool)
    ensures TextState(doc', inAbstract') == Step(TextState(doc, inAbstract), line)
  {
    doc', inAbstract' := doc, inAbstract;
    var trimmed := Extractor.Trim(line);
    match LabelOf(trimmed)
    case TitleLabel => doc' := doc.(title := Extractor.Trim(trimmed[6..]));
    case AuthorsLabel => doc' := doc.(authors := Extractor.Trim(trimmed[8..]));
    case DateLabel => doc' := doc.(pubDate := AfterColon(trimmed));
    case DoiLabel => doc' := doc.(doi := Extractor.Trim(trimmed[4..]));
    case AbstractLabel =>
      inAbstract' := true;
      var abs := Extractor.Trim(trimmed[9..]);
      if abs != [] {
        doc' := doc.(abstractText := abs);
      }
    case BodyLabel =>
      inAbstract' := false;
      var content := AfterColon(trimmed);
      if content != [] {
        doc' := doc.(body := doc.body + content + "\n");
      }
    case NoLabel =>
      if trimmed != [] {
        if inAbstract {
          if doc.abstractText != [] {
            doc' := doc'.(abstractText := doc'.abstractText + " ");
          }
          doc' := doc'.(abstractText := doc'.abstractText + trimmed);
        } else {
          doc' := doc.(body := doc.body + trimmed + "\n");
        }
      }
  }

  /** The line loop of `parse_text_file`, then the fallback title. */
  method ParseTextFile(stem: string, file: Option<seq<string>>) returns (doc: TextDoc)
    ensures doc == TextFile(stem, file)
  {
    if file.None? {
      return Empty;
    }
    var lines := file.value;
    var start := TextState(Empty.(paperId := stem, source := "text"), false);
    doc := start.doc;
    var inAbstract := false;
    for i := 0 to |lines|
      invariant TextState(doc, inAbstract) == Parse(start, lines[..i])
    {
      assert lines[..i + 1][..i] == lines[..i];
      doc, inAbstract := ParseLine(doc, inAbstract, lines[i]);
    }
    assert lines[..|lines|] == lines;
    if doc.title == [] && doc.body != [] {
      doc := doc.(title := FallbackTitle(doc.body));
    }
  }

  /** The mode the last "Abstract:" or "Body:"/"Content:" line set, if
      any. */
  function LastMode(lines: seq<string>): Option<bool>
    decreases |lines|
  {
    if lines == [] then None
    else
      var t := Extractor.Trim(lines[|lines| - 1]);
      match LabelOf(t)
      case AbstractLabel => Some(true)
      case BodyLabel => Some(false)
      case _ => LastMode(lines[..|lines| - 1])
  }

  /** Lines go to the abstract exactly when the last mode line was an
      "Abstract:" line. */
  lemma {:induction false} ParseMode(start: TextState, lines: seq<string>)
    requires !start.inAbstract
    ensures Parse(start, lines).inAbstract <==> LastMode(lines) == Some(true)
    decreases |lines|
  {
    if lines != [] {
      ParseMode(start, lines[..|lines| - 1]);
    }
  }

  lemma StepKeeps(st: TextState, line: string)
    ensures Step(st, line).doc.paperId == st.doc.paperId && Step(st, line).doc.source == st.doc.source
  {
    var t := Extractor.Trim(line);
    match LabelOf(t)
    case NoLabel =>
    case _ =>
  }

  lemma {:induction false} ParseKeeps(start: TextState, lines: seq<string>)
    ensures var d := Parse(start, lines).doc;
      d.paperId == start.doc.paperId && d.source == start.doc.source
    decreases |lines|
  {
    if lines != [] {
      ParseKeeps(start, lines[..|lines| - 1]);
      StepKeeps(Parse(start, lines[..|lines| - 1]), lines[|lines| - 1]);
    }
  }

  /** The paper id is the file's stem and the source "text", whatever the
      lines say; without a "Title:" line the title comes from the first
      body line and is at most 200 characters. */
  lemma TextFileFields(stem: string, lines: seq<string>)
    ensures var d := TextFile(stem, Some(lines));
      d.paperId == stem && d.source == "text"
      && (Parse(TextState(Empty.(paperId := stem, source := "text"), false), lines).doc.title == [] ==> |d.title| <= 200)
  {
    ParseKeeps(TextState(Empty.(paperId := stem, source := "text"), false), lines);
  }

  /** The row written for a text file: the body as one "Body" section,
      and the DOI or else the paper id. */
  function TextRow(d: TextDoc): seq<string> {
    [d.paperId, d.title, d.abstractText, "Body: " + Extractor.Sanitized(d.body),
     d.authors, d.pubDate, Extractor.DoiOrId(d.doi, d.paperId), d.source]
  }
}
