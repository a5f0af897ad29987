/** Small shared vocabulary: optional values, C++-style integer arithmetic
    and the string helpers the Qt code relies on. */
module Common {

  datatype Option<+T> = None | Some(value: T)

  /** A computation that either yields a value or faults (for instance an
      integer division by zero, which C++ leaves undefined). */
  datatype Result<+T> = Ok(value: T) | Failure(reason: string)

  /** C++ `int / int`: truncates toward zero (Dafny's `/` is Euclidean). */
  function TruncDiv(a: int, b: int): (q: int)
    requires b != 0
    ensures b > 0 && a >= 0 ==> q == a / b
    ensures a >= 0 && b > 0 ==> q >= 0
  {
    if a >= 0 && b > 0 then a / b
    else if a < 0 && b < 0 then (-a) / (-b)
    else if a < 0 then -((-a) / b)
    else -(a / (-b))
  }

  /** `static_cast<int>` of a double: truncation toward zero. */
  function TruncReal(x: real): (n: int)
    ensures x >= 0.0 ==> n as real <= x < n as real + 1.0
    ensures x < 0.0 ==> n as real - 1.0 < x <= n as real
  {
    if x >= 0.0 then x.Floor else -((-x).Floor)
  }

  /** `static_cast<int>(floor(x + 0.5))`: round half up. */
  function Round(x: real): (n: int)
    ensures x - 0.5 < n as real <= x + 0.5
  {
    (x + 0.5).Floor
  }

  /** `static_cast<short>`: wrap into the signed 16-bit range. */
  function ToShort(x: int): (s: int)
    ensures -32768 <= s <= 32767
    ensures (s - x) % 65536 == 0
    ensures -32768 <= x <= 32767 ==> s == x
  {
    (x + 32768) % 65536 - 32768
  }

  function Min(a: int, b: int): (m: int)
    ensures m <= a && m <= b && (m == a || m == b)
  {
    if a <= b then a else b
  }

  function AbsReal(x: real): (r: real)
    ensures r >= 0.0 && (r == x || r == -x)
  {
    if x < 0.0 then -x else x
  }

  /** Number of `true` entries of a bit array (`QBitArray::count(true)`). */
  function CountTrue(bits: seq<bool>): (n: nat)
    ensures n <= |bits|
  {
    if |bits| == 0 then 0
    else CountTrue(bits[..|bits| - 1]) + (if bits[|bits| - 1] then 1 else 0)
  }

  /** `QString::contains(sub)`. */
  predicate ContainsAt(s: string, sub: string, i: nat) {
    i + |sub| <= |s| && s[i..i + |sub|] == sub
  }

  predicate Contains(s: string, sub: string) {
    exists i: nat | i <= |s| :: ContainsAt(s, sub, i)
  }

  /** `QString::remove(sub)` for a non-empty `sub`: deletes every
      occurrence, scanning left to right. */
  function RemoveAll(s: string, sub: string): (r: string)
    requires |sub| > 0
    ensures |r| <= |s|
    decreases |s|
  {
    if |s| < |sub| then s
    else if s[..|sub|] == sub then RemoveAll(s[|sub|..], sub)
    else [s[0]] + RemoveAll(s[1..], sub)
  }

  /** Slicing a prefix again is slicing the original. */
  lemma PrefixOfPrefix<T>(s: seq<T>, m: nat, n: nat)
    requires n <= m <= |s|
    ensures s[..m][..n] == s[..n]
  {
  }

  /** Membership in a non-empty sequence splits at its last element. */
  lemma InSnoc<T>(s: seq<T>, x: T)
    requires |s| > 0
    ensures x in s <==> x in s[..|s| - 1] || s[|s| - 1] == x
  {
    assert s == s[..|s| - 1] + [s[|s| - 1]];
  }
}
