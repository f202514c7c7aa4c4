/** What the query programs ask of a decoded postings list: which
    documents it holds, and the first posting of a document in it. */
module PostingLists {
  import opened Common
  import opened Postings

  /** The document numbers of a list, in order. */
  function DocIds(ps: seq<Posting>): (ds: seq<uint32>)
    ensures |ds| == |ps| && forall k :: 0 <= k < |ps| ==> ds[k] == ps[k].docid
  {
    seq(|ps|, k requires 0 <= k < |ps| => ps[k].docid)
  }

  /** The documents a list holds, as an `unordered_set`. */
  function DocSet(ps: seq<Posting>): set<uint32> {
    set k | 0 <= k < |ps| :: ps[k].docid
  }

  /** The documents of a list are those of all but its last posting, and
      the last one's. */
  lemma DocSetFront(ps: seq<Posting>)
    requires ps != []
    ensures DocSet(ps) == DocSet(ps[..|ps| - 1]) + {ps[|ps| - 1].docid}
  {
    var n := |ps| - 1;
    assert forall k :: 0 <= k < n ==> ps[..n][k] == ps[k];
  }

  /** The loop inserting every posting's docid into a set. */
  method DocSetOf(ps: seq<Posting>) returns (s: set<uint32>)
    ensures forall d :: d in s <==> d in DocIds(ps)
    ensures s == DocSet(ps)
  {
    s := {};
    for j := 0 to |ps|
      invariant s == set k | 0 <= k < j :: ps[k].docid
    {
      s := s + {ps[j].docid};
    }
  }

  /** No document twice in one list, as every list the index writes. */
  predicate Distinct(ps: seq<Posting>) {
    forall j, k :: 0 <= j < k < |ps| ==> ps[j].docid != ps[k].docid
  }

  /** The first posting of `d` in a list. */
  function FirstPosting(ps: seq<Posting>, d: uint32): Option<Posting> {
    if ps == [] then None
    else if ps[0].docid == d then Some(ps[0])
    else FirstPosting(ps[1..], d)
  }

  /** There is one exactly when the list holds `d`. */
  lemma {:induction false} FirstPostingFound(ps: seq<Posting>, d: uint32)
    ensures FirstPosting(ps, d).Some? <==> d in DocIds(ps)
  {
    if ps != [] {
      assert DocIds(ps) == [ps[0].docid] + DocIds(ps[1..]);
      FirstPostingFound(ps[1..], d);
    }
  }

  /** It is a posting of `d`, and none before it is. */
  lemma {:induction false} FirstPostingFirst(ps: seq<Posting>, d: uint32)
    requires FirstPosting(ps, d).Some?
    ensures exists k :: 0 <= k < |ps| && ps[k].docid == d && FirstPosting(ps, d).value == ps[k]
                        && forall j :: 0 <= j < k ==> ps[j].docid != d
  {
    if ps[0].docid != d {
      var tail := ps[1..];
      FirstPostingFirst(tail, d);
      var k :| 0 <= k < |tail| && tail[k].docid == d && FirstPosting(tail, d).value == tail[k]
               && forall j :: 0 <= j < k ==> tail[j].docid != d;
      assert forall j :: 0 <= j < k ==> tail[j] == ps[j + 1];
      assert ps[k + 1].docid == d && forall j :: 0 <= j < k + 1 ==> ps[j].docid != d;
    } else {
      assert ps[0].docid == d;
    }
  }

  /** Adding a posting at the end changes the first posting of `d` only
      when there was none. */
  lemma {:induction false} FirstPostingFront(ps: seq<Posting>, d: uint32)
    requires ps != []
    ensures var f := FirstPosting(ps[..|ps| - 1], d);
            FirstPosting(ps, d) == if f.Some? then f else if ps[|ps| - 1].docid == d then Some(ps[|ps| - 1]) else None
  {
    var n := |ps| - 1;
    if n > 0 && ps[0].docid != d {
      FirstPostingFront(ps[1..], d);
      assert ps[1..][..n - 1] == ps[..n][1..];
    }
  }

  /** The documents of a list, as a sequence or as a set. */
  lemma DocSetIds(ps: seq<Posting>, d: uint32)
    ensures d in DocSet(ps) <==> d in DocIds(ps)
  {
    if d in DocIds(ps) {
      var k :| 0 <= k < |ps| && DocIds(ps)[k] == d;
      assert ps[k].docid == d;
    }
  }

  /** The search loop with its `break`: the first posting of `d`. */
  method FindFirst(ps: seq<Posting>, d: uint32) returns (r: Option<Posting>)
    ensures r == FirstPosting(ps, d)
  {
    var j := 0;
    while j < |ps|
      invariant j <= |ps| && FirstPosting(ps, d) == FirstPosting(ps[j..], d)
      decreases |ps| - j
    {
      if ps[j].docid == d {
        return Some(ps[j]);
      }
      assert ps[j..][1..] == ps[j + 1..];
      j := j + 1;
    }
    return None;
  }
}
