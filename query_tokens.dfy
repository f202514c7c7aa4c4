/** `tokenize_query` of Query-engine.hpp: a query is cut into the maximal
    runs of letters, digits and apostrophes, lower-cased; every other
    character separates tokens and is dropped. */
module QueryTokens {
  import opened Common
  import Text

  /** A character a token may hold: `isalnum(c) || c == '\''`. */
  predicate QueryChar(c: char) { IsAlnum(c) || c == '\'' }

  /** The maximal runs of token characters of `s`, in order: a token
      character right after another one extends the last run, one after
      anything else starts a new run, and other characters are dropped. */
  function Runs(s: string): (ts: seq<string>)
    ensures s != [] && QueryChar(s[|s| - 1]) ==> ts != []
    decreases |s|
  {
    if s == [] then []
    else
      var p := s[..|s| - 1];
      Push(Runs(p), Joins(p), s[|s| - 1])
  }

  /** A token character next would extend the last run of `p`. */
  predicate Joins(p: string) {
    p != [] && QueryChar(p[|p| - 1])
  }

  /** The runs after one character more. */
  function Push(ts: seq<string>, joins: bool, c: char): seq<string>
    requires joins ==> ts != []
  {
    if !QueryChar(c) then ts
    else if joins then ts[..|ts| - 1] + [ts[|ts| - 1] + [c]]
    else ts + [[c]]
  }

  /** One character more. */
  lemma RunsSnoc(p: string, c: char)
    ensures Runs(p + [c]) == Push(Runs(p), Joins(p), c)
  {
    assert (p + [c])[..|p|] == p;
  }

  /** The tokens of a query. */
  function Tokens(query: string): seq<string> {
    Runs(Lower(query))
  }

  /** The run being built, as a token once it is flushed. */
  function Pending(current: string): seq<string> {
    if current == [] then [] else [current]
  }

  /** The run being built takes one character more, or is left as it is. */
  lemma PushPending(tokens: seq<string>, current: string, c: char)
    ensures Push(tokens + Pending(current), current != [], c)
            == if QueryChar(c) then tokens + [current + [c]] else tokens + Pending(current)
  {
    if QueryChar(c) && current != [] {
      assert (tokens + [current])[..|tokens|] == tokens;
    } else if QueryChar(c) {
      assert current + [c] == [c];
      assert tokens + Pending(current) == tokens;
    }
  }

  /** Lower-casing keeps a character a token character or not. */
  lemma LowerKeepsKind(c: char)
    ensures QueryChar(ToLower(c)) == QueryChar(c)
  {
  }

  /** The query one character longer, lower-cased. */
  lemma LowerSnoc(query: string, i: nat)
    requires i < |query|
    ensures Lower(query[..i + 1]) == Lower(query[..i]) + [ToLower(query[i])]
    ensures 0 < i ==> Lower(query[..i])[i - 1] == ToLower(query[i - 1])
  {
    assert Lower(query[..i + 1]) == Lower(query[..i]) + [ToLower(query[i])];
  }

  /** One turn of the loop of `tokenize_query`. */
  lemma TokenizeStep(query: string, i: nat, tokens: seq<string>, current: string)
    requires i < |query| && Runs(Lower(query[..i])) == tokens + Pending(current)
    requires current != [] <==> i > 0 && QueryChar(query[i - 1])
    ensures QueryChar(query[i]) ==> Runs(Lower(query[..i + 1])) == tokens + Pending(current + [ToLower(query[i])])
    ensures !QueryChar(query[i]) && current != [] ==> Runs(Lower(query[..i + 1])) == tokens + [current] + Pending([])
    ensures !QueryChar(query[i]) && current == [] ==> Runs(Lower(query[..i + 1])) == tokens + Pending(current)
  {
    var c := query[i];
    var p := Lower(query[..i]);
    LowerSnoc(query, i);
    RunsSnoc(p, ToLower(c));
    LowerKeepsKind(c);
    if i > 0 {
      LowerKeepsKind(query[i - 1]);
    }
    assert Joins(p) <==> current != [];
    PushPending(tokens, current, ToLower(c));
    assert tokens + [current] + Pending([]) == tokens + [current];
  }

  /** `tokenize_query`: characters go into `current`, lower-cased, and any
      other character flushes it; a run still open at the end is flushed
      too. */
  method Tokenize(query: string) returns (tokens: seq<string>)
    ensures tokens == Tokens(query)
  {
    tokens := [];
    var current: string := "";
    for i := 0 to |query|
      invariant Runs(Lower(query[..i])) == tokens + Pending(current)
      invariant current != [] <==> i > 0 && QueryChar(query[i - 1])
    {
      var c := query[i];
      TokenizeStep(query, i, tokens, current);
      if IsAlnum(c) || c == '\'' {
        current := current + [ToLower(c)];
      } else if current != [] {
        tokens := tokens + [current];
        current := "";
      }
    }
    assert query[..|query|] == query;
    tokens := tokens + Pending(current);
  }

  // ---------------------------------------------------------------------
  // What the runs are

  /** Tokens that are non-empty, hold only token characters, and take
      each of their characters from `s`. */
  predicate Shaped(ts: seq<string>, s: string) {
    forall t :: t in ts ==> t != [] && forall c :: c in t ==> QueryChar(c) && c in s
  }

  lemma PushShaped(ts: seq<string>, joins: bool, c: char, s: string)
    requires joins ==> ts != []
    requires Shaped(ts, s) && c in s
    ensures Shaped(Push(ts, joins, c), s)
  {
    if QueryChar(c) && joins {
      var last := ts[|ts| - 1];
      assert last in ts;
      assert forall d :: d in last + [c] ==> d in last || d == c;
      assert forall d :: d in last + [c] ==> QueryChar(d) && d in s;
      assert forall t :: t in ts[..|ts| - 1] ==> t in ts;
      var r := Push(ts, joins, c);
      forall t | t in r
        ensures t != [] && forall d :: d in t ==> QueryChar(d) && d in s
      {
        if t in ts[..|ts| - 1] {
          assert t in ts;
        } else {
          assert t == last + [c];
          assert last != [];
          assert forall d :: d in t ==> QueryChar(d) && d in s;
        }
      }
    } else if QueryChar(c) {
      assert forall t :: t in ts + [[c]] ==> t in ts || t == [c];
    }
  }

  lemma ShapedWider(ts: seq<string>, p: string, s: string)
    requires Shaped(ts, p) && forall c :: c in p ==> c in s
    ensures Shaped(ts, s)
  {
  }

  /** Every token is non-empty, holds only token characters, and each of
      its characters comes from `s`. */
  lemma {:induction false} RunsShape(s: string)
    ensures Shaped(Runs(s), s)
    decreases |s|
  {
    if s != [] {
      var p := s[..|s| - 1];
      RunsShape(p);
      RunsSnoc(p, s[|s| - 1]);
      assert p + [s[|s| - 1]] == s;
      ShapedWider(Runs(p), p, s);
      PushShaped(Runs(p), Joins(p), s[|s| - 1], s);
    }
  }

  /** The tokens of a query are in lower case. */
  lemma TokensLower(query: string)
    ensures forall t :: t in Tokens(query) ==> t != [] && NoUpper(t)
    ensures forall t, c :: t in Tokens(query) && c in t ==> QueryChar(c)
  {
    RunsShape(Lower(query));
    forall t | t in Tokens(query) ensures NoUpper(t) {
      forall i | 0 <= i < |t| ensures !IsUpper(t[i]) {
        assert t[i] in t;
        assert t[i] in Lower(query);
      }
    }
  }

  /** All runs put end to end. */
  function Concat(ts: seq<string>): string {
    if ts == [] then [] else Concat(ts[..|ts| - 1]) + ts[|ts| - 1]
  }

  /** The token characters of `s`, in order. */
  function Kept(s: string): string {
    if s == [] then []
    else Kept(s[..|s| - 1]) + (if QueryChar(s[|s| - 1]) then [s[|s| - 1]] else [])
  }

  lemma ConcatPush(ts: seq<string>, joins: bool, c: char)
    requires joins ==> ts != []
    ensures Concat(Push(ts, joins, c)) == Concat(ts) + (if QueryChar(c) then [c] else [])
  {
    if QueryChar(c) {
      var e := Push(ts, joins, c);
      if joins {
        var n := |ts| - 1;
        assert e[..n] == ts[..n];
      } else {
        assert e[..|ts|] == ts;
      }
    }
  }

  /** Nothing is lost or invented: the tokens put end to end are exactly
      the token characters of `s`. */
  lemma {:induction false} RunsConcat(s: string)
    ensures Concat(Runs(s)) == Kept(s)
    decreases |s|
  {
    if s != [] {
      var p := s[..|s| - 1];
      RunsConcat(p);
      ConcatPush(Runs(p), Joins(p), s[|s| - 1]);
    }
  }

  /** A single run of token characters is one token. */
  lemma {:induction false} RunsWord(t: string)
    requires t != [] && forall c :: c in t ==> QueryChar(c)
    ensures Runs(t) == [t]
    decreases |t|
  {
    var p := t[..|t| - 1];
    assert t[|t| - 1] in t;
    assert p + [t[|t| - 1]] == t;
    RunsSnoc(p, t[|t| - 1]);
    if p != [] {
      assert forall c :: c in p ==> c in t;
      assert p[|p| - 1] in t;
      RunsWord(p);
    }
  }

  lemma PushAfter(a: seq<string>, b: seq<string>, joins: bool, c: char)
    requires joins ==> b != []
    ensures Push(a + b, joins, c) == a + Push(b, joins, c)
  {
    if QueryChar(c) && joins {
      assert (a + b)[..|a + b| - 1] == a + b[..|b| - 1];
    }
  }

  /** Text on both sides of a separator splits into the tokens of each. */
  lemma {:induction false} RunsSplit(x: string, sep: char, y: string)
    requires !QueryChar(sep)
    ensures Runs(x + [sep] + y) == Runs(x) + Runs(y)
    decreases |y|
  {
    if y == [] {
      RunsSnoc(x, sep);
      assert x + [sep] + y == x + [sep];
    } else {
      var y' := y[..|y| - 1];
      var c := y[|y| - 1];
      var p := x + [sep] + y';
      assert x + [sep] + y == p + [c];
      assert p[|p| - 1] == if y' == [] then sep else y'[|y'| - 1];
      assert Joins(p) == Joins(y');
      RunsSnoc(p, c);
      RunsSnoc(y', c);
      assert y' + [c] == y;
      RunsSplit(x, sep, y');
      PushAfter(Runs(x), Runs(y'), Joins(y'), c);
    }
  }

  /** Tokens joined by any separator character are tokenized back into
      themselves. */
  lemma {:induction false} RunsJoin(ts: seq<string>, sep: char)
    requires !QueryChar(sep)
    requires forall t :: t in ts ==> t != [] && forall c :: c in t ==> QueryChar(c)
    ensures Runs(Text.Join(ts, sep)) == ts
    decreases |ts|
  {
    if ts != [] {
      assert ts[0] in ts;
      RunsWord(ts[0]);
      if |ts| > 1 {
        assert forall t :: t in ts[1..] ==> t in ts;
        RunsJoin(ts[1..], sep);
        RunsSplit(ts[0], sep, Text.Join(ts[1..], sep));
        assert [ts[0]] + ts[1..] == ts;
      }
    }
  }
}
