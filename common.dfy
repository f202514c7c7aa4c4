/** Shared vocabulary of the search engine: fixed-width integers, bytes,
    an optional value, and the ASCII character classes of <cctype> that the
    engine uses in the "C" locale. */
module Common {

  /** 2^32: the modulus of every `uint32_t` computation. */
  const U32: nat := 0x1_0000_0000

  type byte = x: int | 0 <= x < 256
  type uint16 = x: int | 0 <= x < 0x1_0000
  type uint32 = x: int | 0 <= x < 0x1_0000_0000

  /** A value cast to `uint32_t`: its low 32 bits. */
  function Low32(n: nat): (r: uint32)
    ensures n < U32 ==> r == n
  {
    n % U32
  }

  datatype Option<T> = None | Some(value: T)

  /** `isupper` */
  predicate IsUpper(c: char) { 'A' <= c <= 'Z' }

  /** `islower` */
  predicate IsLower(c: char) { 'a' <= c <= 'z' }

  /** `isdigit` */
  predicate IsDigit(c: char) { '0' <= c <= '9' }

  /** `isalpha` */
  predicate IsAlpha(c: char) { IsUpper(c) || IsLower(c) }

  /** `isalnum` */
  predicate IsAlnum(c: char) { IsAlpha(c) || IsDigit(c) }

  /** `isspace`: space, tab, newline, vertical tab, form feed, carriage return. */
  predicate IsSpace(c: char) {
    c == ' ' || c == '\t' || c == '\n' || c as int == 11 || c as int == 12 || c == '\r'
  }

  /** `tolower` */
  function ToLower(c: char): char {
    if IsUpper(c) then (c as int + 32) as char else c
  }

  /** A string with every ASCII letter in lower case. */
  function Lower(s: string): (r: string)
    ensures |r| == |s| && NoUpper(r)
    ensures forall i :: 0 <= i < |s| && !IsUpper(s[i]) ==> r[i] == s[i]
  {
    seq(|s|, i requires 0 <= i < |s| => ToLower(s[i]))
  }

  predicate NoUpper(s: string) {
    forall i :: 0 <= i < |s| ==> !IsUpper(s[i])
  }

  /** `t` stands in `s` from index `lo` on. */
  predicate At(s: string, lo: nat, t: string) {
    lo + |t| <= |s| && forall j :: 0 <= j < |t| ==> s[lo + j] == t[j]
  }

  predicate IsPrefix<T(==)>(p: seq<T>, s: seq<T>) {
    |p| <= |s| && s[..|p|] == p
  }

  /** Non-negative powers of 128, the weights of the 7-bit groups of VByte. */
  function Pow128(k: nat): (r: nat)
    ensures r >= 1
  {
    if k == 0 then 1 else 128 * Pow128(k - 1)
  }

  /** Concatenation regrouped; kept apart so that callers with large
      contexts do not redo the extensional proof. */
  lemma ConcatAssoc<T>(a: seq<T>, b: seq<T>, c: seq<T>)
    ensures a + (b + c) == a + b + c
  {
  }

  lemma SliceCons<T>(s: seq<T>, i: nat)
    requires i < |s|
    ensures s[i..] == [s[i]] + s[i + 1..]
  {
  }

  /** A slice with more after it, its first element taken off. */
  lemma SliceHead<T>(s: seq<T>, i: nat, h: nat, r: seq<T>)
    requires i < h <= |s|
    ensures s[i..h] + r == [s[i]] + (s[i + 1..h] + r)
  {
    assert s[i..h] == [s[i]] + s[i + 1..h];
  }

  lemma HeadTail<T>(s: seq<T>)
    requires s != []
    ensures [s[0]] + s[1..] == s
  {
  }

  lemma SliceOfSlice<T>(s: seq<T>, lo: nat, hi: nat, a: nat, b: nat)
    requires lo <= hi <= |s| && a <= b <= hi - lo
    ensures s[lo..hi][a..b] == s[lo + a..lo + b]
  {
    forall i | 0 <= i < b - a ensures s[lo..hi][a..b][i] == s[lo + a..lo + b][i] {
      assert s[lo..hi][a..b][i] == s[lo..hi][a + i];
    }
  }

  /** Moving the head of `s` to the end of `acc`. */
  lemma AppendHead<T>(acc: seq<T>, s: seq<T>)
    requires s != []
    ensures acc + [s[0]] + s[1..] == acc + s
  {
    assert s == [s[0]] + s[1..];
  }

  lemma LinkHead<T>(x: seq<T>, y: seq<T>, acc: seq<T>, s: seq<T>)
    requires s != [] && x == y && y == acc + [s[0]] + s[1..]
    ensures x == acc + s
  {
    AppendHead(acc, s);
  }

  lemma ConsTail<T>(x: T, s: seq<T>)
    ensures [x] + s != [] && ([x] + s)[0] == x && ([x] + s)[1..] == s
  {
  }
}
