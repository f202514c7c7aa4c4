/** barrel.cpp, its variable-byte code: a number is cut into 7-bit groups,
    most significant group first, and every byte except the last carries
    the continuation bit 0x80. This is the opposite convention to module
    VByte, where only the last byte carries 0x80. */
module Barrel {
  import opened Common
  import VByte

  // ---------------------------------------------------------------------
  // Specification of the code

  /** The groups of `m` least significant first, none for 0. */
  function Groups7(m: nat): (c: seq<byte>)
    ensures forall i :: 0 <= i < |c| ==> c[i] < 128
  {
    if m == 0 then [] else [m % 128] + Groups7(m / 128)
  }

  /** The groups the do-while loop of vbEncodeNumber collects: at least one,
      so that 0 gives the single group 0. */
  function Chunks(n: nat): (c: seq<byte>)
    ensures |c| >= 1 && forall i :: 0 <= i < |c| ==> c[i] < 128
  {
    [n % 128] + Groups7(n / 128)
  }

  /** The bytes in front of the last one: the groups of `m`, most
      significant first, each with the continuation bit. */
  function Lead(m: nat): (r: seq<byte>)
    ensures forall i :: 0 <= i < |r| ==> r[i] >= 128
  {
    if m == 0 then [] else Lead(m / 128) + [m % 128 + 128]
  }

  /** The code word of `n`: its high groups with the continuation bit, then
      its lowest group without it. */
  function Code(n: nat): seq<byte> {
    Lead(n / 128) + [n % 128]
  }

  /** The code words of a number stream, one after the other. */
  function CodeAll(ns: seq<uint32>): seq<byte> {
    if ns == [] then [] else Code(ns[0]) + CodeAll(ns[1..])
  }

  // ---------------------------------------------------------------------
  // A decoder for the code, most significant group first

  /** Reading a code word from `off`: the value so far is shifted by 7 bits
      and the next group added, until a byte without 0x80 ends the word.
      The value and the offset after the word; `None` when the data ends
      first. */
  function MsbRead(data: seq<byte>, off: nat, acc: nat): (r: Option<(nat, nat)>)
    ensures r.Some? ==> off < r.value.1 <= |data|
    decreases |data| - off
  {
    if off >= |data| then None
    else if data[off] < 128 then Some((acc * 128 + data[off], off + 1))
    else MsbRead(data, off + 1, acc * 128 + data[off] % 128)
  }

  /** Every code word from `off` to the end of `data`. */
  function MsbReadAll(data: seq<byte>, off: nat): Option<seq<nat>>
    decreases |data| - off
  {
    if off >= |data| then Some([])
    else
      match MsbRead(data, off, 0)
      case None => None
      case Some((v, e)) =>
        match MsbReadAll(data, e)
        case None => None
        case Some(vs) => Some([v] + vs)
  }

  /** The value of groups read most significant first onto `acc`. */
  function Fold(acc: nat, s: seq<byte>): nat
    decreases |s|
  {
    if s == [] then acc else Fold(acc * 128 + s[0] % 128, s[1..])
  }

  // ---------------------------------------------------------------------
  // vbEncodeNumber and vbEncodeList

  function Reverse(s: seq<byte>): (r: seq<byte>)
    ensures |r| == |s|
  {
    if s == [] then [] else Reverse(s[1..]) + [s[0]]
  }

  /** Groups with the continuation bit added. */
  function Continued(s: seq<byte>): (r: seq<byte>)
    requires forall i :: 0 <= i < |s| ==> s[i] < 128
    ensures |r| == |s| && forall i :: 0 <= i < |s| ==> r[i] == s[i] + 128
  {
    seq(|s|, i requires 0 <= i < |s| => s[i] + 128)
  }

  /** Collects the groups of `n` least significant first, marks every one
      but the first with 0x80, and reverses them. */
  method VbEncodeNumber(n: uint32) returns (r: seq<byte>)
    ensures r == Code(n)
  {
    var tmp: seq<byte> := [];
    var x: nat := n;
    tmp := tmp + [x % 128];
    x := x / 128;
    while x > 0
      invariant tmp + Groups7(x) == Chunks(n)
      decreases x
    {
      tmp := tmp + [x % 128];
      x := x / 128;
    }
    assert tmp == Chunks(n);
    tmp := MarkContinued(tmp);
    r := Reverse(tmp);
    CodeIsReversed(n);
  }

  /** Adds the continuation bit to every group but the first, in place. */
  method MarkContinued(c: seq<byte>) returns (t: seq<byte>)
    requires |c| >= 1 && forall k :: 0 <= k < |c| ==> c[k] < 128
    ensures t == [c[0]] + Continued(c[1..])
  {
    t := c;
    for i := 1 to |t|
      invariant |t| == |c| && t[0] == c[0]
      invariant forall k :: 1 <= k < i ==> t[k] == c[k] + 128
      invariant forall k :: i <= k < |t| ==> t[k] == c[k]
    {
      t := t[i := t[i] + 128];
    }
  }

  /** Appends the code word of every number, in order. */
  method VbEncodeList(numbers: seq<uint32>, out: seq<byte>) returns (res: seq<byte>)
    ensures res == out + CodeAll(numbers)
  {
    res := out;
    for i := 0 to |numbers|
      invariant res + CodeAll(numbers[i..]) == out + CodeAll(numbers)
    {
      var bytes := VbEncodeNumber(numbers[i]);
      SliceCons(numbers, i);
      ConcatAssoc(res, bytes, CodeAll(numbers[i + 1..]));
      res := res + bytes;
    }
  }

  // ---------------------------------------------------------------------
  // Properties

  lemma {:induction false} ReverseCons(x: byte, s: seq<byte>)
    ensures Reverse([x] + s) == Reverse(s) + [x]
  {
    assert ([x] + s)[1..] == s;
  }

  /** The leading bytes are the marked groups above the lowest, reversed. */
  lemma {:induction false} LeadIsReversed(m: nat)
    ensures Lead(m) == Reverse(Continued(Groups7(m)))
  {
    if m > 0 {
      LeadIsReversed(m / 128);
      var g := Groups7(m / 128);
      assert Continued(Groups7(m)) == [m % 128 + 128] + Continued(g);
      ReverseCons(m % 128 + 128, Continued(g));
    }
  }

  lemma CodeIsReversed(n: nat)
    ensures Reverse([Chunks(n)[0]] + Continued(Chunks(n)[1..])) == Code(n)
  {
    var c := Chunks(n);
    assert c[0] == n % 128 && c[1..] == Groups7(n / 128);
    LeadIsReversed(n / 128);
    ReverseCons(n % 128, Continued(Groups7(n / 128)));
  }

  /** The number of leading bytes: as many as `m` has groups. */
  lemma {:induction false} LeadLength(m: nat, k: nat)
    requires m < Pow128(k)
    ensures |Lead(m)| <= k
  {
    if m > 0 {
      assert k >= 1;
      assert m / 128 < Pow128(k - 1);
      LeadLength(m / 128, k - 1);
    }
  }

  /** Shape of a code word: 1 to 5 bytes for a `uint32_t`, 0x80 on every
      byte except the last, and 0 is the single byte 0x00. */
  lemma CodeShape(n: nat)
    ensures 1 <= |Code(n)|
    ensures Code(n)[|Code(n)| - 1] < 128
    ensures forall i :: 0 <= i < |Code(n)| - 1 ==> Code(n)[i] >= 128
    ensures n < U32 ==> |Code(n)| <= 5
    ensures n == 0 ==> Code(n) == [0]
  {
    if n < U32 {
      assert Pow128(4) == 0x1000_0000;
      LeadLength(n / 128, 4);
    }
  }

  lemma {:induction false} FoldSnoc(acc: nat, s: seq<byte>, b: byte)
    ensures Fold(acc, s + [b]) == Fold(acc, s) * 128 + b % 128
    decreases |s|
  {
    if s == [] {
      assert [b][1..] == [];
    } else {
      assert (s + [b])[1..] == s[1..] + [b];
      FoldSnoc(acc * 128 + s[0] % 128, s[1..], b);
    }
  }

  /** The leading bytes spell the high groups. */
  lemma {:induction false} FoldLead(m: nat)
    ensures Fold(0, Lead(m)) == m
  {
    if m > 0 {
      FoldLead(m / 128);
      FoldSnoc(0, Lead(m / 128), m % 128 + 128);
    }
  }

  /** The decoder walks over continuation bytes, folding their groups in. */
  lemma {:induction false} ReadOver(data: seq<byte>, off: nat, acc: nat, s: seq<byte>)
    requires off + |s| < |data| && data[off + |s|] < 128
    requires forall j :: 0 <= j < |s| ==> data[off + j] == s[j] && s[j] >= 128
    ensures MsbRead(data, off, acc) == Some((Fold(acc, s) * 128 + data[off + |s|], off + |s| + 1))
    decreases |s|
  {
    if s != [] {
      assert data[off] == s[0];
      ReadOver(data, off + 1, acc * 128 + s[0] % 128, s[1..]);
    }
  }

  /** Decoding, most significant group first, reads back `n` from its code
      word wherever it stands, and stops right after it. */
  lemma CodeRoundTrip(data: seq<byte>, off: nat, n: nat)
    requires off + |Code(n)| <= |data| && data[off..off + |Code(n)|] == Code(n)
    ensures MsbRead(data, off, 0) == Some((n, off + |Code(n)|))
  {
    var l := Lead(n / 128);
    forall j | 0 <= j < |l| ensures data[off + j] == l[j] && l[j] >= 128 {
      assert data[off + j] == Code(n)[j];
    }
    assert data[off + |l|] == Code(n)[|l|];
    ReadOver(data, off, 0, l);
    FoldLead(n / 128);
  }

  lemma {:induction false} CodeAllRoundTrip(data: seq<byte>, off: nat, ns: seq<uint32>)
    requires off <= |data| && data[off..] == CodeAll(ns)
    ensures MsbReadAll(data, off) == Some(ns)
    decreases |ns|
  {
    if ns != [] {
      var c := Code(ns[0]);
      CodeShape(ns[0]);
      assert data[off..off + |c|] == c;
      CodeRoundTrip(data, off, ns[0]);
      assert data[off + |c|..] == CodeAll(ns[1..]);
      CodeAllRoundTrip(data, off + |c|, ns[1..]);
      assert ns == [ns[0]] + ns[1..];
    }
  }

  /** What vbEncodeList appends decodes back to the numbers, in order. */
  lemma ListRoundTrip(ns: seq<uint32>)
    ensures MsbReadAll(CodeAll(ns), 0) == Some(ns)
  {
    CodeAllRoundTrip(CodeAll(ns), 0, ns);
  }

  /** From 128 on the two conventions disagree: barrel.cpp's code word
      starts with a byte carrying 0x80, which a decoder of module VByte
      takes as the whole word, reading a value below 128 instead of `n`. */
  lemma ConventionsDisagree(n: nat)
    requires 128 <= n < U32
    ensures Code(n) != VByte.Encode(n)
    ensures VByte.StopEnd(Code(n), 0, |Code(n)|) == 1
    ensures VByte.Value(Code(n)[..1]) < 128 <= n
  {
    CodeShape(n);
    var c := Code(n);
    assert c[0] >= 128;
    assert VByte.Encode(n)[0] < 128;
    assert c[..1] == [c[0]];
    assert VByte.Value(c[..1]) == (VByte.Value([]) + VByte.Group(c[0]) * Pow128(0)) % U32;
  }
}
