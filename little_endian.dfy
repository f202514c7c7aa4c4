/** Unsigned integers as the engine's binary files hold them: the bytes of
    the value in memory, least significant first, as `ofstream::write` of a
    `uint16_t`, `uint32_t` or `uint64_t` puts them on a little-endian
    machine; and the text of a string as its bytes. */
module LittleEndian {
  import opened Common

  /** 256^w, one past the largest value `w` bytes hold. */
  function Pow256(w: nat): (r: nat)
    ensures r >= 1
  {
    if w == 0 then 1 else 256 * Pow256(w - 1)
  }

  /** The `w` low bytes of `n`, least significant first. */
  function Bytes(n: nat, w: nat): (bs: seq<byte>)
    ensures |bs| == w
  {
    if w == 0 then [] else [n % 256] + Bytes(n / 256, w - 1)
  }

  /** The number `bs` holds, least significant byte first. */
  function Value(bs: seq<byte>): nat {
    if bs == [] then 0 else bs[0] + 256 * Value(bs[1..])
  }

  /** The remainder is the one `x` below `m` with `n == m * a + x`. */
  lemma ModOf(n: nat, m: nat, a: nat, x: nat)
    requires 0 <= x < m && n == m * a + x
    ensures n % m == x
  {
    var q, r := n / m, n % m;
    assert m * q + r == m * a + x;
    if q < a {
      assert m * a >= m * (q + 1) by { MulMono(m, q + 1, a); }
    } else if q > a {
      assert m * q >= m * (a + 1) by { MulMono(m, a + 1, q); }
    }
  }

  lemma MulMono(m: nat, a: nat, b: nat)
    requires a <= b
    ensures m * a <= m * b
  {
  }

  lemma ModSplit(n: nat, p: nat)
    requires p >= 1
    ensures n % (256 * p) == n % 256 + 256 * ((n / 256) % p)
  {
    var q, r := n / 256, n % 256;
    var a, b := q / p, q % p;
    assert n == (256 * p) * a + (256 * b + r) by {
      assert n == 256 * q + r;
      assert q == p * a + b;
    }
    assert 256 * b + r < 256 * p by { MulMono(256, b + 1, p); }
    ModOf(n, 256 * p, a, 256 * b + r);
  }

  /** Reading back `w` written bytes gives the value modulo 256^w: a value
      that fits comes back whole. */
  lemma {:induction false} ValueOfBytes(n: nat, w: nat)
    ensures Value(Bytes(n, w)) == n % Pow256(w)
    decreases w
  {
    if w > 0 {
      var bs := Bytes(n, w);
      assert bs[1..] == Bytes(n / 256, w - 1);
      ValueOfBytes(n / 256, w - 1);
      ModSplit(n, Pow256(w - 1));
    }
  }

  /** Any `w` bytes are the bytes of the value they hold, and that value
      is below 256^w. */
  lemma {:induction false} BytesOfValue(bs: seq<byte>)
    ensures Value(bs) < Pow256(|bs|)
    ensures Bytes(Value(bs), |bs|) == bs
    decreases |bs|
  {
    if bs != [] {
      var t := Value(bs[1..]);
      BytesOfValue(bs[1..]);
      var v := Value(bs);
      assert v == 256 * t + bs[0];
      assert v % 256 == bs[0] && v / 256 == t;
      assert v < Pow256(|bs|) by { MulMono(256, t + 1, Pow256(|bs| - 1)); }
    }
  }

  /** Writing `w` bytes of a value keeps only its value modulo 256^w: the
      value truncated to that width writes the same bytes. */
  lemma BytesMod(n: nat, w: nat)
    ensures Bytes(n % Pow256(w), w) == Bytes(n, w)
  {
    ValueOfBytes(n, w);
    BytesOfValue(Bytes(n, w));
  }

  /** The bytes of a string: each character of the model stands for one
      byte of the C++ string, so its code is kept modulo 256. */
  function CharBytes(s: string): (bs: seq<byte>)
    ensures |bs| == |s|
  {
    seq(|s|, i requires 0 <= i < |s| => s[i] as int % 256)
  }

  /** The string whose characters are these bytes. */
  function BytesChars(bs: seq<byte>): (s: string)
    ensures |s| == |bs|
  {
    seq(|bs|, i requires 0 <= i < |bs| => bs[i] as char)
  }

  predicate ByteChars(s: string) {
    forall i :: 0 <= i < |s| ==> s[i] as int < 256
  }

  /** A string of byte characters comes back from its bytes. */
  lemma CharsRoundTrip(s: string)
    requires ByteChars(s)
    ensures BytesChars(CharBytes(s)) == s
  {
  }

  /** `t` stands in `bs` from `at` on. */
  predicate Holds(bs: seq<byte>, at: nat, t: seq<byte>) {
    at + |t| <= |bs| && bs[at..at + |t|] == t
  }

  /** Two pieces written one after the other stand one after the other. */
  lemma HoldsSplit(bs: seq<byte>, at: nat, a: seq<byte>, b: seq<byte>)
    requires Holds(bs, at, a + b)
    ensures Holds(bs, at, a) && Holds(bs, at + |a|, b)
  {
    assert bs[at..at + |a|] == bs[at..at + |a + b|][..|a|] == (a + b)[..|a|] == a;
    assert bs[at + |a|..at + |a| + |b|] == bs[at..at + |a + b|][|a|..] == (a + b)[|a|..] == b;
  }

  /** Four pieces written one after the other. */
  lemma HoldsFour(bs: seq<byte>, at: nat, a: seq<byte>, b: seq<byte>, c: seq<byte>, d: seq<byte>)
    requires Holds(bs, at, a + b + c + d)
    ensures Holds(bs, at, a) && Holds(bs, at + |a|, b) && Holds(bs, at + |a| + |b|, c)
    ensures Holds(bs, at + |a| + |b| + |c|, d)
  {
    HoldsSplit(bs, at, a + b + c, d);
    HoldsSplit(bs, at, a + b, c);
    HoldsSplit(bs, at, a, b);
  }

  /** The first of four pieces. */
  lemma HoldsFirst(bs: seq<byte>, at: nat, a: seq<byte>, b: seq<byte>, c: seq<byte>, d: seq<byte>)
    requires Holds(bs, at, a + b + c + d)
    ensures Holds(bs, at, a)
  {
    HoldsFour(bs, at, a, b, c, d);
  }

  /** The second of four pieces. */
  lemma HoldsSecond(bs: seq<byte>, at: nat, a: seq<byte>, b: seq<byte>, c: seq<byte>, d: seq<byte>)
    requires Holds(bs, at, a + b + c + d)
    ensures Holds(bs, at + |a|, b)
  {
    HoldsFour(bs, at, a, b, c, d);
  }

  /** The third of four pieces. */
  lemma HoldsThird(bs: seq<byte>, at: nat, a: seq<byte>, b: seq<byte>, c: seq<byte>, d: seq<byte>)
    requires Holds(bs, at, a + b + c + d)
    ensures Holds(bs, at + |a| + |b|, c)
  {
    HoldsFour(bs, at, a, b, c, d);
  }

  /** The last of four pieces. */
  lemma HoldsFourth(bs: seq<byte>, at: nat, a: seq<byte>, b: seq<byte>, c: seq<byte>, d: seq<byte>)
    requires Holds(bs, at, a + b + c + d)
    ensures Holds(bs, at + |a| + |b| + |c|, d)
  {
    HoldsFour(bs, at, a, b, c, d);
  }
}
