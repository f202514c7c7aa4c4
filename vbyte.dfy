/** The variable-byte integer code shared by the indexer, the servers and the
    searchers: a `uint32_t` is cut into 7-bit groups, least significant group
    first, and the byte carrying the most significant group has its high bit
    (0x80) set as a terminator. This module holds the specification of the
    code; the loops that the individual programs run over it are modelled in
    each program's module and proved against these functions. */
module VByte {
  import opened Common

  /** The payload of a byte: its low 7 bits. */
  function Group(b: byte): nat { b % 128 }

  /** The terminator flag: bit 0x80. */
  predicate IsStop(b: byte) { b >= 128 }

  /** The number a run of groups denotes, least significant group first. */
  function Groups(s: seq<byte>): nat {
    if s == [] then 0 else Group(s[0]) + 128 * Groups(s[1..])
  }

  /** What a decoder loop holds in its `uint32_t result` after reading the
      bytes `s`: each group is OR-ed in at shift 7*i and the register keeps
      only 32 bits. Groups never overlap, so the OR is an addition. */
  function Value(s: seq<byte>): uint32 {
    if s == [] then 0
    else (Value(s[..|s| - 1]) + Group(s[|s| - 1]) * Pow128(|s| - 1)) % U32
  }

  /** The code word of `v`. */
  function Encode(v: nat): seq<byte> {
    if v < 128 then [v + 128] else [v % 128] + Encode(v / 128)
  }

  /** Concatenated code words of a number stream. */
  function EncodeAll(vs: seq<nat>): seq<byte> {
    if vs == [] then [] else Encode(vs[0]) + EncodeAll(vs[1..])
  }

  /** The position just past the terminator of the code word starting at
      `pos`, looking no further than `max`; `max` when no terminator is
      found, and `pos` itself when there is nothing to read. */
  function StopEnd(data: seq<byte>, pos: nat, max: nat): (e: nat)
    requires max <= |data|
    ensures pos <= max ==> pos <= e <= max
    ensures pos < max ==> pos < e
    decreases max - pos
  {
    if pos >= max then pos
    else if IsStop(data[pos]) then pos + 1
    else StopEnd(data, pos + 1, max)
  }

  predicate StopIn(data: seq<byte>, from: nat, to: nat)
    requires to <= |data|
  {
    exists k :: from <= k < to && IsStop(data[k])
  }

  lemma {:induction false} GroupsSnoc(s: seq<byte>, b: byte)
    ensures Groups(s + [b]) == Groups(s) + Group(b) * Pow128(|s|)
  {
    if s == [] {
      assert [b][1..] == [];
    } else {
      var t := s[1..];
      assert (s + [b])[1..] == t + [b];
      GroupsSnoc(t, b);
      var g, p, rest := Group(b), Pow128(|t|), Groups(t);
      assert Groups(t + [b]) == rest + g * p;
      assert Pow128(|s|) == 128 * p;
      Distribute128(rest, g, p);
    }
  }

  lemma Distribute128(x: nat, g: nat, p: nat)
    ensures 128 * (x + g * p) == 128 * x + g * (128 * p)
  {
  }

  /** Truncation to 32 bits is invisible while the number fits. */
  lemma {:induction false} ValueOfFitting(s: seq<byte>)
    requires Groups(s) < U32
    ensures Value(s) == Groups(s)
  {
    if s != [] {
      var init := s[..|s| - 1];
      assert s == init + [s[|s| - 1]];
      GroupsSnoc(init, s[|s| - 1]);
      ValueOfFitting(init);
    }
  }

  /** Shape of a code word: 1 to 5 bytes for a `uint32_t`, the terminator on
      the last byte only, and the groups spell `v`. */
  lemma {:induction false} EncodeShape(v: nat)
    ensures 1 <= |Encode(v)|
    ensures IsStop(Encode(v)[|Encode(v)| - 1])
    ensures forall i :: 0 <= i < |Encode(v)| - 1 ==> !IsStop(Encode(v)[i])
    ensures Groups(Encode(v)) == v
    ensures v < U32 ==> |Encode(v)| <= 5
    ensures v == 0 ==> Encode(v) == [0x80]
  {
    if v >= 128 {
      EncodeShape(v / 128);
      assert Encode(v)[1..] == Encode(v / 128);
    }
    if v < U32 {
      EncodeLength(v, 5);
    }
  }

  lemma {:induction false} EncodeLength(v: nat, k: nat)
    requires 1 <= k && v < Pow128(k)
    ensures |Encode(v)| <= k
  {
    if v >= 128 {
      assert k >= 2;
      assert Pow128(k) == 128 * Pow128(k - 1);
      assert v / 128 < Pow128(k - 1);
      EncodeLength(v / 128, k - 1);
    }
  }

  /** Every decoder of the engine reads back exactly the value of a code
      word and stops right after it, whatever precedes or follows it, as
      long as its bound `max` does not cut the word. */
  lemma {:induction false} DecodeEncoded(data: seq<byte>, off: nat, v: uint32, max: nat)
    requires off + |Encode(v)| <= max <= |data|
    requires data[off..off + |Encode(v)|] == Encode(v)
    ensures StopEnd(data, off, max) == off + |Encode(v)|
    ensures Value(data[off..off + |Encode(v)|]) == v
  {
    EncodeShape(v);
    var e := Encode(v);
    forall k | off <= k < off + |e| - 1 ensures !IsStop(data[k]) {
      assert data[k] == e[k - off];
    }
    assert data[off + |e| - 1] == e[|e| - 1];
    StopEndSkip(data, off, off + |e| - 1, max);
    ValueOfFitting(e);
  }

  /** A scan passes over bytes without a terminator. */
  lemma {:induction false} StopEndSkip(data: seq<byte>, p: nat, q: nat, max: nat)
    requires p <= q <= max <= |data|
    requires forall k :: p <= k < q ==> !IsStop(data[k])
    ensures StopEnd(data, p, max) == StopEnd(data, q, max)
    decreases q - p
  {
    if p < q {
      StopEndSkip(data, p + 1, q, max);
    }
  }

  lemma {:induction false} EncodeAllAppend(a: seq<nat>, b: seq<nat>)
    ensures EncodeAll(a + b) == EncodeAll(a) + EncodeAll(b)
  {
    if a != [] {
      assert (a + b)[1..] == a[1..] + b;
      EncodeAllAppend(a[1..], b);
    } else {
      assert a + b == b;
    }
  }
}
