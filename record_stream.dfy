/** A run of records read one after another from a byte string, each
    read starting where the one before ended: the shape of every record
    loop in the readers of the index files. */
module RecordStream {
  import opened Common

  /** `n` records from `at` read by `read`, in file order, and where the
      last one ends; `None` as soon as one cannot be read. */
  function ReadMany<T>(read: (seq<byte>, nat) -> Option<(T, nat)>, bs: seq<byte>, at: nat, n: nat): (r: Option<(seq<T>, nat)>)
    ensures r.Some? ==> |r.value.0| == n
    decreases n
  {
    if n == 0 then Some(([], at))
    else
      match ReadMany(read, bs, at, n - 1)
      case None => None
      case Some(front) =>
        match read(bs, front.1)
        case None => None
        case Some(x) => Some((front.0 + [x.0], x.1))
  }

  /** Once a record cannot be read, no longer run can be read either. */
  lemma {:induction false} ManyStopped<T>(read: (seq<byte>, nat) -> Option<(T, nat)>, bs: seq<byte>, at: nat, j: nat, n: nat)
    requires j <= n && ReadMany(read, bs, at, j).None?
    ensures ReadMany(read, bs, at, n).None?
    decreases n - j
  {
    if j < n {
      ManyStopped(read, bs, at, j + 1, n);
    }
  }

  /** `n` records are the first one, then `n - 1` more from where it ends. */
  lemma {:induction false} ManyCons<T>(read: (seq<byte>, nat) -> Option<(T, nat)>, bs: seq<byte>, at: nat, n: nat,
                                       x: T, q: nat, xs: seq<T>, r: nat)
    requires n > 0 && read(bs, at) == Some((x, q)) && ReadMany(read, bs, q, n - 1) == Some((xs, r))
    ensures ReadMany(read, bs, at, n) == Some(([x] + xs, r))
    decreases n
  {
    if n == 1 {
      assert xs == [] && r == q;
      assert [] + [x] == [x] + xs;
    } else {
      var front := ReadMany(read, bs, q, n - 2).value;
      var last := read(bs, front.1).value;
      ManyCons(read, bs, at, n - 1, x, q, front.0, front.1);
      assert [x] + xs == [x] + front.0 + [last.0];
    }
  }
}
