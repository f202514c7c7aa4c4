/** The in-memory prefix tree of Auto-complete.hpp: terms are inserted
    character by character, and a prefix query walks to the node of the
    prefix, collects every term below it, sorts them by frequency and keeps
    the first few.

    The tree is a value here: a node holds its children in a map keyed by
    character, and the engine's one field, `root`, is reassigned by
    `Insert`. */
module AutocompleteEngine {
  import opened Common
  import Ranking
  import Ordering
  import AutocompleteBuilder

  /** A `TrieNode`: children by character, whether a term ends here, the
      term's frequency, and the term itself. */
  datatype Node = Node(children: map<char, Node>, isEnd: bool, frequency: uint32, term: string)

  /** A freshly made node. */
  const Empty: Node := Node(map[], false, 0, "")

  /** A collected term with its frequency. */
  type Hit = (string, uint32)

  function Freq(h: Hit): real { h.1 as real }

  // ---------------------------------------------------------------------
  // The tree as a map from terms to frequencies

  /** The node reached from `n` by the characters of `s`, if every one of
      them has a child. */
  function Find(n: Node, s: string): Option<Node>
    decreases |s|
  {
    if s == [] then Some(n)
    else if s[0] in n.children then Find(n.children[s[0]], s[1..])
    else None
  }

  /** The frequency of `s` when a term ends at its node. */
  function Lookup(n: Node, s: string): Option<uint32> {
    match Find(n, s)
    case None => None
    case Some(m) => if m.isEnd then Some(m.frequency) else None
  }

  /** The walk of `insert` from `n` along `rest`, making the children that
      are missing, and marking the last node as the end of `term`. */
  function InsertAt(n: Node, rest: string, term: string, f: uint32): Node
    decreases |rest|
  {
    if rest == [] then n.(isEnd := true, term := term, frequency := f)
    else
      var child := if rest[0] in n.children then n.children[rest[0]] else Empty;
      n.(children := n.children[rest[0] := InsertAt(child, rest[1..], term, f)])
  }

  /** `insert`: nothing for the empty term. */
  function Inserted(n: Node, term: string, f: uint32): Node {
    if term == [] then n else InsertAt(n, term, term, f)
  }

  /** Nothing ends anywhere below a fresh node. */
  lemma {:induction false} LookupEmpty(s: string)
    ensures Lookup(Empty, s) == None
  {
    if s != [] {
      assert s[0] !in Empty.children;
    }
  }

  lemma {:induction false} LookupInsertAt(n: Node, rest: string, term: string, f: uint32, s: string)
    ensures Lookup(InsertAt(n, rest, term, f), s) == if s == rest then Some(f) else Lookup(n, s)
    decreases |rest|
  {
    if rest != [] && s != [] {
      var child := if rest[0] in n.children then n.children[rest[0]] else Empty;
      if s[0] == rest[0] {
        LookupInsertAt(child, rest[1..], term, f, s[1..]);
        if rest[0] !in n.children {
          LookupEmpty(s[1..]);
        }
        SameTail(s, rest);
      }
    }
  }

  /** Two strings with the same first character are equal exactly when
      the rest is. */
  lemma SameTail(s: string, t: string)
    requires s != [] && t != [] && s[0] == t[0]
    ensures s == t <==> s[1..] == t[1..]
  {
    assert s == [s[0]] + s[1..] && t == [t[0]] + t[1..];
  }

  /** After inserting `term` with frequency `f`, `term` has frequency `f`
      (the last insertion wins) and every other string is as before;
      inserting the empty term changes nothing. */
  lemma InsertLookup(n: Node, term: string, f: uint32, s: string)
    ensures Lookup(Inserted(n, term, f), s) == if term != [] && s == term then Some(f) else Lookup(n, s)
  {
    if term != [] {
      LookupInsertAt(n, term, term, f, s);
    }
  }

  // ---------------------------------------------------------------------
  // Well-formed trees: each node stores the term of its own path

  /** Below `n`, reached by `path`, every node where a term ends stores
      that path as its term. */
  predicate Wf(n: Node, path: string)
    decreases n
  {
    (n.isEnd ==> n.term == path)
    && forall c :: c in n.children ==> Wf(n.children[c], path + [c])
  }

  lemma WfEmpty(path: string)
    ensures Wf(Empty, path)
  {
  }

  lemma {:induction false} InsertAtWf(n: Node, path: string, rest: string, f: uint32)
    requires Wf(n, path)
    ensures Wf(InsertAt(n, rest, path + rest, f), path)
    decreases |rest|
  {
    if rest == [] {
      assert path + rest == path;
    } else {
      var c := rest[0];
      var child := if c in n.children then n.children[c] else Empty;
      WfEmpty(path + [c]);
      assert path + rest == (path + [c]) + rest[1..] by {
        assert rest == [c] + rest[1..];
      }
      InsertAtWf(child, path + [c], rest[1..], f);
    }
  }

  /** `insert` keeps every node's term equal to its path. */
  lemma InsertWf(n: Node, term: string, f: uint32)
    requires Wf(n, [])
    ensures Wf(Inserted(n, term, f), [])
  {
    if term != [] {
      InsertAtWf(n, [], term, f);
      assert [] + term == term;
    }
  }

  lemma {:induction false} FindWf(n: Node, path: string, s: string)
    requires Wf(n, path) && Find(n, s).Some?
    ensures Wf(Find(n, s).value, path + s)
    decreases |s|
  {
    if s == [] {
      assert path + s == path;
    } else {
      FindWf(n.children[s[0]], path + [s[0]], s[1..]);
      assert (path + [s[0]]) + s[1..] == path + s by {
        assert s == [s[0]] + s[1..];
      }
    }
  }

  // ---------------------------------------------------------------------
  // The terms below a node

  /** The term that ends at `n` itself, if any. */
  function Own(n: Node): set<Hit> {
    if n.isEnd then {(n.term, n.frequency)} else {}
  }

  /** The terms below the children of `n` whose characters are in `cs`. */
  ghost function Below(n: Node, cs: set<char>): set<Hit>
    decreases n, 0
  {
    set c, h | c in cs && c in n.children && h in Entries(n.children[c]) :: h
  }

  /** Every term that ends at `n` or below it, with its frequency. */
  ghost function Entries(n: Node): set<Hit>
    decreases n, 1
  {
    Own(n) + Below(n, n.children.Keys)
  }

  /** Below a well-formed node every term starts with its path. */
  lemma {:induction false} EntriesExtend(n: Node, path: string, h: Hit)
    requires Wf(n, path) && h in Entries(n)
    ensures |path| <= |h.0| && h.0[..|path|] == path
    decreases n
  {
    if h !in Own(n) {
      var c :| c in n.children && h in Entries(n.children[c]);
      EntriesExtend(n.children[c], path + [c], h);
      assert h.0[..|path|] == h.0[..|path| + 1][..|path|];
    }
  }

  /** The terms below child `c` are those whose next character is `c`. */
  lemma ChildEntries(n: Node, path: string, c: char, h: Hit)
    requires Wf(n, path) && c in n.children && h in Entries(n.children[c])
    ensures |path| < |h.0| && h.0[|path|] == c
  {
    EntriesExtend(n.children[c], path + [c], h);
    assert h.0[|path|] == h.0[..|path| + 1][|path|];
  }

  /** The entries below a well-formed node are the strings it maps, each
      with the frequency `Lookup` gives. */
  lemma EntriesLookup(n: Node, path: string, h: Hit)
    requires Wf(n, path)
    ensures h in Entries(n) <==> |path| <= |h.0| && h.0[..|path|] == path && Lookup(n, h.0[|path|..]) == Some(h.1)
  {
    if h in Entries(n) {
      EntryFound(n, path, h);
    }
    if |path| <= |h.0| && h.0[..|path|] == path && Lookup(n, h.0[|path|..]) == Some(h.1) {
      FoundEntry(n, path, h);
    }
  }

  lemma {:induction false} EntryFound(n: Node, path: string, h: Hit)
    requires Wf(n, path) && h in Entries(n)
    ensures |path| <= |h.0| && h.0[..|path|] == path && Lookup(n, h.0[|path|..]) == Some(h.1)
    decreases n
  {
    EntriesExtend(n, path, h);
    if h in Own(n) {
      assert h.0[|path|..] == [];
    } else {
      var c :| c in n.children && h in Entries(n.children[c]);
      ChildEntries(n, path, c, h);
      EntryFound(n.children[c], path + [c], h);
      LookupStep(n, h.0, |path|);
    }
  }

  lemma {:induction false} FoundEntry(n: Node, path: string, h: Hit)
    requires Wf(n, path)
    requires |path| <= |h.0| && h.0[..|path|] == path && Lookup(n, h.0[|path|..]) == Some(h.1)
    ensures h in Entries(n)
    decreases n
  {
    if |h.0| == |path| {
      assert h.0 == path && h.0[|path|..] == [];
      assert h == (n.term, n.frequency);
    } else {
      var c := h.0[|path|];
      LookupStep(n, h.0, |path|);
      assert h.0[..|path| + 1] == path + [c] by {
        assert h.0[..|path| + 1] == h.0[..|path|] + [c];
      }
      FoundEntry(n.children[c], path + [c], h);
      assert h in Below(n, n.children.Keys);
    }
  }

  /** One step of a lookup from position `k` of `t`. */
  lemma LookupStep(n: Node, t: string, k: nat)
    requires k < |t|
    ensures Lookup(n, t[k..]) == if t[k] in n.children then Lookup(n.children[t[k]], t[k + 1..]) else None
  {
    assert t[k..][1..] == t[k + 1..];
  }

  /** The terms of the tree that start with `p`. */
  ghost function Matches(root: Node, p: string): set<Hit> {
    set h | h in Entries(root) && |p| <= |h.0| && h.0[..|p|] == p
  }

  /** The node of a prefix holds exactly the terms that start with it, and
      when the prefix has no node no term starts with it. */
  lemma FindMatches(root: Node, p: string)
    requires Wf(root, [])
    ensures Find(root, p).Some? ==> Entries(Find(root, p).value) == Matches(root, p)
    ensures Find(root, p).None? ==> Matches(root, p) == {}
  {
    forall h | h in Matches(root, p) ensures Find(root, p).Some? {
      EntriesLookup(root, [], h);
      FindAppend(root, p, h.0[|p|..]);
      assert p + h.0[|p|..] == h.0;
    }
    if Find(root, p).Some? {
      var m := Find(root, p).value;
      FindWf(root, [], p);
      assert [] + p == p;
      forall h ensures h in Entries(m) <==> h in Matches(root, p) {
        EntriesLookup(m, p, h);
        EntriesLookup(root, [], h);
        if |p| <= |h.0| && h.0[..|p|] == p {
          FindAppend(root, p, h.0[|p|..]);
          assert p + h.0[|p|..] == h.0;
        }
      }
    }
  }

  /** A walk along `p + s` is a walk along `p`, then along `s`. */
  lemma {:induction false} FindAppend(n: Node, p: string, s: string)
    ensures Find(n, p + s) == match Find(n, p) case None => None case Some(m) => Find(m, s)
    ensures Lookup(n, p + s) == match Find(n, p) case None => None case Some(m) => Lookup(m, s)
    decreases |p|
  {
    if p != [] {
      assert (p + s)[0] == p[0] && (p + s)[1..] == p[1..] + s;
      if p[0] in n.children {
        FindAppend(n.children[p[0]], p[1..], s);
      }
    } else {
      assert p + s == s;
    }
  }

  // ---------------------------------------------------------------------
  // `collect_terms`

  /** `collect_terms`: the node's own term first, then the terms below each
      child, the children taken in whatever order the hash map yields them.
      Each term of the subtree comes out once. */
  method CollectTerms(n: Node, ghost path: string) returns (results: seq<Hit>)
    requires Wf(n, path)
    ensures Ranking.Listed(results, Entries(n))
    decreases n
  {
    results := if n.isEnd then [(n.term, n.frequency)] else [];
    var todo := n.children.Keys;
    ghost var done: set<char> := {};
    while todo != {}
      invariant todo + done == n.children.Keys && todo !! done
      invariant Ranking.Listed(results, Own(n) + Below(n, done))
      decreases todo
    {
      var c :| c in todo;
      var sub := CollectTerms(n.children[c], path + [c]);
      CollectStep(n, path, done, c, results, sub);
      results := results + sub;
      todo := todo - {c};
      done := done + {c};
    }
    assert done == n.children.Keys;
  }

  /** One child more: its terms are new, and differ from one another. */
  lemma CollectStep(n: Node, path: string, done: set<char>, c: char, results: seq<Hit>, sub: seq<Hit>)
    requires Wf(n, path) && c in n.children && c !in done
    requires Ranking.Listed(results, Own(n) + Below(n, done))
    requires Ranking.Listed(sub, Entries(n.children[c]))
    ensures Ranking.Listed(results + sub, Own(n) + Below(n, done + {c}))
  {
    BelowAdd(n, done, c);
    ChildApart(n, path, done, c);
    ListedConcat(results, Own(n) + Below(n, done), sub, Entries(n.children[c]));
  }

  /** The terms below one child more. */
  lemma BelowAdd(n: Node, done: set<char>, c: char)
    requires c in n.children
    ensures Below(n, done + {c}) == Below(n, done) + Entries(n.children[c])
  {
  }

  /** The terms below the children in `done` go on with a character of
      `done` after the path. */
  lemma BelowNext(n: Node, path: string, done: set<char>, h: Hit)
    requires Wf(n, path)
    ensures h in Below(n, done) ==> |path| < |h.0| && h.0[|path|] in done
  {
    if h in Below(n, done) {
      var c :| c in done && c in n.children && h in Entries(n.children[c]);
      ChildEntries(n, path, c, h);
    }
  }

  /** The terms below a child not yet walked are new. */
  lemma ChildApart(n: Node, path: string, done: set<char>, c: char)
    requires Wf(n, path) && c in n.children && c !in done
    ensures (Own(n) + Below(n, done)) !! Entries(n.children[c])
  {
    forall h | h in Entries(n.children[c]) ensures h !in Own(n) && h !in Below(n, done) {
      ChildEntries(n, path, c, h);
      BelowNext(n, path, done, h);
    }
  }

  /** Two listings of disjoint sets, one after the other, list their union. */
  lemma ListedConcat(a: seq<Hit>, sa: set<Hit>, b: seq<Hit>, sb: set<Hit>)
    requires Ranking.Listed(a, sa) && Ranking.Listed(b, sb) && sa !! sb
    ensures Ranking.Listed(a + b, sa + sb)
  {
    var ab := a + b;
    forall i, j | 0 <= i < j < |ab| ensures ab[i] != ab[j] {
      if j < |a| {
        assert ab[i] == a[i] && ab[j] == a[j];
      } else if i >= |a| {
        assert ab[i] == b[i - |a|] && ab[j] == b[j - |a|];
      } else {
        assert ab[i] in sa && ab[j] == b[j - |a|];
      }
    }
  }

  // ---------------------------------------------------------------------
  // `insert` of terms with upper-case letters

  /** `contains` and `suggest` look up lower-cased strings only, and
      `insert` does not lower-case: a term holding an upper-case letter
      changes nothing any lower-cased lookup can see. */
  lemma UpperInsertUnseen(n: Node, term: string, f: uint32, s: string)
    requires !NoUpper(term)
    ensures Lookup(Inserted(n, term, f), Lower(s)) == Lookup(n, Lower(s))
  {
    InsertLookup(n, term, f, Lower(s));
  }

  // ---------------------------------------------------------------------
  // The lexicon lines read by `build_from_lexicon`

  /** A lexicon line read as "word_id term doc_freq term_freq": the term
      and its 64-bit frequency, or `None` when a read fails. */
  function LexiconEntry(line: string): Option<(string, nat)> {
    match AutocompleteBuilder.ExtractNumber(line, U32)
    case None => None
    case Some(r1) =>
      match AutocompleteBuilder.ExtractWord(r1.1)
      case None => None
      case Some(r2) =>
        match AutocompleteBuilder.ExtractNumber(r2.1, U32)
        case None => None
        case Some(r3) =>
          match AutocompleteBuilder.ExtractNumber(r3.1, AutocompleteBuilder.U64)
          case None => None
          case Some(r4) => Some((r2.0, r4.0))
  }

  /** The tree after inserting the entry of every readable line in order;
      the 64-bit frequency is cut to its low 32 bits by the call to
      `insert`. */
  function BuiltFrom(n: Node, lines: seq<string>): Node
    decreases |lines|
  {
    if lines == [] then n
    else
      var last := lines[|lines| - 1];
      var m := BuiltFrom(n, lines[..|lines| - 1]);
      match LexiconEntry(last)
      case None => m
      case Some(e) => Inserted(m, e.0, Low32(e.1))
  }

  /** How many lines were read. */
  function ReadCount(lines: seq<string>): (k: nat)
    ensures k <= |lines|
    decreases |lines|
  {
    if lines == [] then 0
    else ReadCount(lines[..|lines| - 1]) + if LexiconEntry(lines[|lines| - 1]).Some? then 1 else 0
  }

  /** One more line: it inserts its term when it reads, and counts. */
  lemma BuiltStep(n: Node, lines: seq<string>, i: nat)
    requires i < |lines|
    ensures BuiltFrom(n, lines[..i + 1]) ==
      match LexiconEntry(lines[i])
      case None => BuiltFrom(n, lines[..i])
      case Some(e) => Inserted(BuiltFrom(n, lines[..i]), e.0, Low32(e.1))
    ensures ReadCount(lines[..i + 1]) == ReadCount(lines[..i]) + if LexiconEntry(lines[i]).Some? then 1 else 0
  {
    assert lines[..i + 1][..i] == lines[..i];
  }

  /** After a build, a string holds the low 32 bits of the frequency of
      the last line that names it, or what it held before when no line
      does. */
  lemma {:induction false} BuiltLookup(n: Node, lines: seq<string>, s: string)
    ensures Lookup(BuiltFrom(n, lines), s) ==
      match LastFor(lines, s) case None => Lookup(n, s) case Some(f) => Some(Low32(f))
    decreases |lines|
  {
    if lines != [] {
      var init := lines[..|lines| - 1];
      BuiltLookup(n, init, s);
      var e := LexiconEntry(lines[|lines| - 1]);
      if e.Some? {
        InsertLookup(BuiltFrom(n, init), e.value.0, Low32(e.value.1), s);
      }
    }
  }

  /** The frequency of the last readable line whose term is `s`; the
      empty string is never inserted. */
  function LastFor(lines: seq<string>, s: string): Option<nat>
    decreases |lines|
  {
    if lines == [] then None
    else
      var e := LexiconEntry(lines[|lines| - 1]);
      if e.Some? && e.value.0 == s && s != [] then Some(e.value.1) else LastFor(lines[..|lines| - 1], s)
  }

  // ---------------------------------------------------------------------
  // `AutocompleteEngine`

  class Engine {
    var root: Node
    const maxSuggestions: nat

    ghost predicate Valid()
      reads this
    {
      Wf(root, [])
    }

    constructor(maxSugg: nat)
      ensures root == Empty && maxSuggestions == maxSugg && Valid()
    {
      root := Empty;
      maxSuggestions := maxSugg;
    }

    /** `insert`: the walk from the root that makes the missing nodes and
        marks the last one. */
    method Insert(term: string, frequency: uint32)
      requires Valid()
      modifies this
      ensures root == Inserted(old(root), term, frequency) && Valid()
    {
      InsertWf(root, term, frequency);
      root := Inserted(root, term, frequency);
    }

    /** `build_from_lexicon`: nothing when the file cannot be opened;
        otherwise every line that reads as four fields inserts its term
        with its frequency. */
    method BuildFromLexicon(file: Option<seq<string>>) returns (count: nat)
      requires Valid()
      modifies this
      ensures file.None? ==> root == old(root) && count == 0
      ensures file.Some? ==> root == BuiltFrom(old(root), file.value) && count == ReadCount(file.value)
      ensures Valid()
    {
      count := 0;
      if file.None? {
        return;
      }
      var lines := file.value;
      ghost var start := root;
      for i := 0 to |lines|
        invariant root == BuiltFrom(start, lines[..i]) && count == ReadCount(lines[..i]) && Valid()
      {
        BuiltStep(start, lines, i);
        var e := LexiconEntry(lines[i]);
        if e.Some? {
          Insert(e.value.0, Low32(e.value.1));
          count := count + 1;
        }
      }
      assert lines[..|lines|] == lines;
    }

    /** `find_prefix_node`: one child per character, or nothing. */
    method FindPrefixNode(prefix: string) returns (r: Option<Node>)
      ensures r == Find(root, prefix)
    {
      var current := root;
      var i := 0;
      while i < |prefix|
        invariant i <= |prefix| && Find(root, prefix) == Find(current, prefix[i..])
        decreases |prefix| - i
      {
        var c := prefix[i];
        assert prefix[i..][1..] == prefix[i + 1..];
        if c !in current.children {
          return None;
        }
        current := current.children[c];
        i := i + 1;
      }
      assert prefix[i..] == [];
      return Some(current);
    }

    /** `contains`: the term, lower-cased, ends at a node. */
    method Contains(term: string) returns (b: bool)
      ensures b <==> Lookup(root, Lower(term)).Some?
    {
      var lowerTerm := AutocompleteBuilder.LowerAll(term);
      var node := FindPrefixNode(lowerTerm);
      b := node.Some? && node.value.isEnd;
    }

    /** The sorted candidates below the lower-cased prefix. */
    method Candidates(prefix: string) returns (cs: seq<Hit>)
      requires Valid()
      ensures Ranking.NonIncreasing(cs, Freq)
      ensures Ranking.Listed(cs, Matches(root, Lower(prefix)))
    {
      var lowerPrefix := AutocompleteBuilder.LowerAll(prefix);
      FindMatches(root, lowerPrefix);
      var node := FindPrefixNode(lowerPrefix);
      if node.None? {
        return [];
      }
      FindWf(root, [], lowerPrefix);
      assert [] + lowerPrefix == lowerPrefix;
      var found := CollectTerms(node.value, lowerPrefix);
      cs := Ranking.SortByScore(found, Freq);
      RankedListed(cs, found, Matches(root, lowerPrefix));
    }

    /** `suggest_with_freq`: nothing for the empty prefix; otherwise the
        terms that start with the lower-cased prefix, by descending
        frequency, cut to `max_suggestions`. */
    method SuggestWithFreq(prefix: string) returns (r: seq<Hit>)
      requires Valid()
      ensures prefix == [] ==> r == []
      ensures prefix != [] ==> Suggested(r, Matches(root, Lower(prefix)), maxSuggestions)
    {
      if prefix == [] {
        return [];
      }
      var cs := Candidates(prefix);
      r := cs;
      if |r| > maxSuggestions {
        r := r[..maxSuggestions];
      }
      TopSuggested(cs, Matches(root, Lower(prefix)), maxSuggestions);
    }

    /** `suggest`: the terms alone of the same selection. */
    method Suggest(prefix: string) returns (r: seq<string>)
      requires Valid()
      ensures prefix == [] ==> r == []
      ensures prefix != [] ==> exists hs :: Suggested(hs, Matches(root, Lower(prefix)), maxSuggestions) && r == TermsOf(hs)
    {
      if prefix == [] {
        return [];
      }
      var cs := Candidates(prefix);
      var limit := if maxSuggestions < |cs| then maxSuggestions else |cs|;
      r := [];
      for i := 0 to limit
        invariant r == TermsOf(cs[..i])
      {
        assert cs[..i + 1] == cs[..i] + [cs[i]];
        r := r + [cs[i].0];
      }
      TopSuggested(cs, Matches(root, Lower(prefix)), maxSuggestions);
      assert cs[..limit] == Ranking.Top(cs, maxSuggestions);
      assert Suggested(cs[..limit], Matches(root, Lower(prefix)), maxSuggestions) && r == TermsOf(cs[..limit]);
    }
  }

  /** The terms of a list of hits. */
  function TermsOf(hs: seq<Hit>): (ts: seq<string>)
    ensures |ts| == |hs| && forall i :: 0 <= i < |hs| ==> ts[i] == hs[i].0
    decreases |hs|
  {
    if hs == [] then [] else TermsOf(hs[..|hs| - 1]) + [hs[|hs| - 1].0]
  }

  /** What a prefix query returns from the candidates `ms`: exactly `max`
      of them (all of them when there are fewer), each once, by descending frequency; all of them when there
      are no more than `max`; and no candidate left out is more frequent
      than one returned. */
  ghost predicate Suggested(r: seq<Hit>, ms: set<Hit>, max: nat) {
    |r| == (if |ms| < max then |ms| else max)
    && Ranking.NonIncreasing(r, Freq)
    && Ordering.Distinct(r)
    && (forall h :: h in r ==> h in ms)
    && (|ms| <= max ==> forall h :: h in ms ==> h in r)
    && forall h, k :: h in ms && h !in r && k in r ==> k.1 >= h.1
  }

  /** Sorting keeps the elements and their count. */
  lemma RankedListed(r: seq<Hit>, s: seq<Hit>, ms: set<Hit>)
    requires Ranking.Ranked(r, s, Freq) && Ranking.Listed(s, ms)
    ensures Ranking.Listed(r, ms)
  {
    forall h ensures h in r <==> h in s {
      assert h in r <==> h in multiset(r);
      assert h in s <==> h in multiset(s);
    }
    Ordering.DistinctPermutation(s, r);
  }

  /** The first `max` of the sorted candidates are a suggestion. */
  lemma TopSuggested(cs: seq<Hit>, ms: set<Hit>, max: nat)
    requires Ranking.NonIncreasing(cs, Freq) && Ranking.Listed(cs, ms)
    ensures Suggested(Ranking.Top(cs, max), ms, max)
  {
    var r := Ranking.Top(cs, max);
    Ranking.TopSpec(cs, max, Freq);
    Ranking.ListedSize(cs, ms);
    forall h, k | h in ms && h !in r && k in r ensures k.1 >= h.1 {
      var j :| 0 <= j < |cs| && cs[j] == h;
      var i :| 0 <= i < |r| && r[i] == k;
      assert forall x :: 0 <= x < |r| ==> cs[x] in r;
      assert j >= |r|;
    }
    assert forall i, j :: 0 <= i < j < |r| ==> r[i] == cs[i] && r[j] == cs[j];
  }
}
