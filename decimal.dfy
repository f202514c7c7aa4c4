/** Decimal text of numbers: `std::to_string` on the writing side and
    `std::stoul` on the reading side, for the digit strings the engine
    writes into its intermediate text files. */
module Decimal {
  import opened Common

  function DigitChar(d: nat): char
    requires d < 10
  {
    ('0' as int + d) as char
  }

  /** The value of a digit character; 0 for any other character. */
  function DigitOf(c: char): nat {
    if IsDigit(c) then c as int - '0' as int else 0
  }

  predicate AllDigits(s: string) {
    forall i :: 0 <= i < |s| ==> IsDigit(s[i])
  }

  /** `std::to_string` of a non-negative number: no leading zeros. */
  function ToDecimal(n: nat): (s: string)
    ensures |s| >= 1 && AllDigits(s)
    ensures |s| > 1 ==> s[0] != '0'
  {
    if n < 10 then [DigitChar(n)] else ToDecimal(n / 10) + [DigitChar(n % 10)]
  }

  /** `std::to_string` of a signed number. */
  function IntToDecimal(i: int): (s: string)
    ensures |s| >= 1
  {
    if i < 0 then "-" + ToDecimal(-i) else ToDecimal(i)
  }

  /** The end of the run of digits of `s` that starts at `lo`, not going
      past `hi`. */
  function DigitEnd(s: string, lo: nat, hi: nat): (e: nat)
    requires lo <= hi <= |s|
    ensures lo <= e <= hi
    decreases hi - lo
  {
    if lo == hi || !IsDigit(s[lo]) then lo else DigitEnd(s, lo + 1, hi)
  }

  /** The number the characters of `s` from `lo` to `hi` denote as decimal
      digits, most significant first. */
  function ValueIn(s: string, lo: nat, hi: nat): nat
    requires lo <= hi <= |s|
    decreases hi - lo
  {
    if hi == lo then 0 else 10 * ValueIn(s, lo, hi - 1) + DigitOf(s[hi - 1])
  }

  /** One past `unsigned long`, taken to be 64 bits wide. */
  const ULongLimit: nat := 0x1_0000_0000_0000_0000

  /** The first index from `lo` on, below `hi`, that is not white space. */
  function SpaceEnd(s: string, lo: nat, hi: nat): (e: nat)
    requires lo <= hi <= |s|
    ensures lo <= e <= hi && (e < hi ==> !IsSpace(s[e]))
    decreases hi - lo
  {
    if lo == hi || !IsSpace(s[lo]) then lo else SpaceEnd(s, lo + 1, hi)
  }

  /** `std::stoul` of the characters of `s` from `lo` to `hi` (the
      `substr` the engine passes it): leading white space is skipped, then
      an optional sign, then the value of the decimal digits that follow.
      A minus sign negates modulo 2^64, as `strtoul` does. `None` where
      `stoul` throws: no digit after the optional sign, or digits whose
      value is beyond `unsigned long`. */
  function StoulIn(s: string, lo: nat, hi: nat): (r: Option<nat>)
    requires lo <= hi <= |s|
    ensures r.Some? ==> r.value < ULongLimit
  {
    var a := SpaceEnd(s, lo, hi);
    var signed := a < hi && (s[a] == '+' || s[a] == '-');
    var d := if signed then a + 1 else a;
    var e := DigitEnd(s, d, hi);
    var v := ValueIn(s, d, e);
    if e == d || v >= ULongLimit then None
    else if signed && s[a] == '-' && v != 0 then Some(ULongLimit - v)
    else Some(v)
  }

  /** `std::stoul` of a whole string. */
  function Stoul(s: string): Option<nat> {
    StoulIn(s, 0, |s|)
  }

  /** Equal characters have equal values. */
  lemma {:induction false} ValueInSame(s: string, lo: nat, t: string, lo': nat, k: nat)
    requires lo + k <= |s| && lo' + k <= |t|
    requires forall j :: lo <= j < lo + k ==> s[j] == t[j - lo + lo']
    ensures ValueIn(s, lo, lo + k) == ValueIn(t, lo', lo' + k)
  {
    if k > 0 {
      assert s[lo + k - 1] == t[lo' + k - 1];
      ValueInSame(s, lo, t, lo', k - 1);
    }
  }

  /** The digits `to_string` writes denote the number written. */
  lemma {:induction false} DecimalRoundTrip(n: nat)
    ensures ValueIn(ToDecimal(n), 0, |ToDecimal(n)|) == n
  {
    if n >= 10 {
      var s := ToDecimal(n / 10);
      ValueSnoc(s, n % 10);
      DecimalRoundTrip(n / 10);
    }
  }

  /** One digit more multiplies the value by ten and adds the digit. */
  lemma ValueSnoc(s: string, d: nat)
    requires d < 10
    ensures ValueIn(s + [DigitChar(d)], 0, |s| + 1) == 10 * ValueIn(s, 0, |s|) + d
  {
    var t := s + [DigitChar(d)];
    assert forall j :: 0 <= j < |s| ==> t[j] == s[j];
    ValueInSame(t, 0, s, 0, |s|);
  }

  /** A run of `k` digits followed by the bound or a non-digit ends at `lo + k`. */
  lemma {:induction false} DigitEndOf(s: string, lo: nat, hi: nat, k: nat)
    requires lo + k <= hi <= |s|
    requires forall j :: lo <= j < lo + k ==> IsDigit(s[j])
    requires lo + k == hi || !IsDigit(s[lo + k])
    ensures DigitEnd(s, lo, hi) == lo + k
    decreases k
  {
    if k > 0 {
      DigitEndOf(s, lo + 1, hi, k - 1);
    }
  }

  /** `stoul` reads a run of digits that starts at `lo` and is followed by
      the bound or a non-digit as the value of those digits. */
  lemma StoulInDigits(s: string, lo: nat, hi: nat, d: string)
    requires d != [] && AllDigits(d) && ValueIn(d, 0, |d|) < ULongLimit
    requires At(s, lo, d) && lo + |d| <= hi <= |s|
    requires lo + |d| == hi || !IsDigit(s[lo + |d|])
    ensures StoulIn(s, lo, hi) == Some(ValueIn(d, 0, |d|))
  {
    DigitsAt(s, lo, hi, d);
    StoulInUnsigned(s, lo, hi, lo + |d|);
  }

  /** The digits of `d` standing at `lo` in `s` end where `d` ends and
      have the value of `d`. */
  lemma DigitsAt(s: string, lo: nat, hi: nat, d: string)
    requires d != [] && AllDigits(d) && At(s, lo, d) && lo + |d| <= hi <= |s|
    requires lo + |d| == hi || !IsDigit(s[lo + |d|])
    ensures IsDigit(s[lo]) && DigitEnd(s, lo, hi) == lo + |d|
    ensures ValueIn(s, lo, lo + |d|) == ValueIn(d, 0, |d|)
  {
    CharsAt(s, lo, d);
    DigitEndOf(s, lo, hi, |d|);
    ValueInSame(s, lo, d, 0, |d|);
  }

  lemma CharsAt(s: string, lo: nat, d: string)
    requires AllDigits(d) && At(s, lo, d)
    ensures forall j :: lo <= j < lo + |d| ==> s[j] == d[j - lo] && IsDigit(s[j])
  {
    forall j | lo <= j < lo + |d| ensures s[j] == d[j - lo] && IsDigit(s[j]) {
      assert s[lo + (j - lo)] == d[j - lo];
    }
  }

  /** Digits right at `lo` are read unsigned, up to where they end. */
  lemma StoulInUnsigned(s: string, lo: nat, hi: nat, e: nat)
    requires lo < e <= hi <= |s| && IsDigit(s[lo])
    requires DigitEnd(s, lo, hi) == e && ValueIn(s, lo, e) < ULongLimit
    ensures StoulIn(s, lo, hi) == Some(ValueIn(s, lo, e))
  {
    assert SpaceEnd(s, lo, hi) == lo;
  }

  /** `stoul` reads back `to_string(n)` wherever it stands in `s`, as long
      as no digit follows it before `hi`. */
  lemma StoulInDecimal(s: string, lo: nat, hi: nat, n: nat)
    requires n < 0x1_0000_0000_0000_0000
    requires At(s, lo, ToDecimal(n)) && lo + |ToDecimal(n)| <= hi <= |s|
    requires lo + |ToDecimal(n)| == hi || !IsDigit(s[lo + |ToDecimal(n)|])
    ensures StoulIn(s, lo, hi) == Some(n)
  {
    DecimalRoundTrip(n);
    StoulInDigits(s, lo, hi, ToDecimal(n));
  }

  /** `stoul(to_string(n))` is `n`, whatever follows the digits, as long as
      it is not a digit. */
  lemma StoulOfDecimal(n: nat, rest: string)
    requires n < 0x1_0000_0000_0000_0000
    requires rest == [] || !IsDigit(rest[0])
    ensures Stoul(ToDecimal(n) + rest) == Some(n)
  {
    var s := ToDecimal(n) + rest;
    assert forall j :: 0 <= j < |ToDecimal(n)| ==> s[0 + j] == ToDecimal(n)[j];
    StoulInDecimal(s, 0, |s|, n);
  }

  /** A sign is accepted: "+3" reads as 3, and "-5" as 2^64 - 5, whose low
      32 bits are 4294967291; leading blanks are skipped. */
  lemma StoulSigned()
    ensures Stoul("+3") == Some(3)
    ensures Stoul("-5") == Some(ULongLimit - 5) && Low32(ULongLimit - 5) == 4294967291
    ensures Stoul(" 7") == Some(7)
    ensures Stoul("-") == None && Stoul("x1") == None
  {
    assert DigitEnd("+3", 1, 2) == 2;
    assert DigitEnd("-5", 1, 2) == 2;
    assert DigitEnd(" 7", 1, 2) == 2;
  }
}
