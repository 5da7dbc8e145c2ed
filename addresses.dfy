/** TON account addresses and the integer key the client helpers compare them by.

    An address is a workchain id and a 32-byte account hash. The helpers turn
    the hash into hex and parse it back as a big integer; the result is the
    big-endian unsigned value of the 32 bytes, which is what `HashKey` gives. */
module Addresses {

  newtype Byte = x: int | 0 <= x < 256

  /** Length of an account hash in bytes. */
  const HashLength := 32

  datatype Address = Address(workchain: int, hash: seq<Byte>)

  /** Every address the helpers receive carries a 32-byte hash. */
  predicate WellFormed(a: Address) {
    |a.hash| == HashLength
  }

  function Pow256(n: nat): (r: nat)
    ensures r >= 1
  {
    if n == 0 then 1 else 256 * Pow256(n - 1)
  }

  /** The unsigned big-endian value of a byte string: the first byte is the most significant. */
  function BigEndian(s: seq<Byte>): nat {
    if s == [] then 0 else (s[0] as int) * Pow256(|s| - 1) + BigEndian(s[1..])
  }

  /** The comparison key of an address: the value of its hash alone. */
  function HashKey(a: Address): (k: nat)
    ensures WellFormed(a) ==> k < Pow256(HashLength)
  {
    BigEndianBound(a.hash);
    BigEndian(a.hash)
  }

  /** Byte-wise lexicographic order: the first differing byte decides. */
  predicate LexLess(s: seq<Byte>, t: seq<Byte>) {
    s != [] && t != [] && (s[0] < t[0] || (s[0] == t[0] && LexLess(s[1..], t[1..])))
  }

  lemma MulMonotone(x: int, y: int, p: nat)
    requires x <= y
    ensures x * p <= y * p
  {
  }

  /** In a positional number, a smaller leading digit outweighs any lower digits. */
  lemma LeadingDigitDominates(b: int, c: int, p: nat, x: nat, y: nat)
    requires b < c && x < p
    ensures b * p + x < c * p + y
  {
    MulMonotone(b + 1, c, p);
  }

  /** A string of n bytes has a value below 256^n. */
  lemma {:induction false} BigEndianBound(s: seq<Byte>)
    ensures BigEndian(s) < Pow256(|s|)
  {
    if s != [] {
      BigEndianBound(s[1..]);
      var b, p := s[0] as int, Pow256(|s| - 1);
      assert BigEndian(s) == b * p + BigEndian(s[1..]);
      MulMonotone(b, 255, p);
      assert Pow256(|s|) == 256 * p;
    }
  }

  lemma {:induction false} LexLessGivesSmallerValue(s: seq<Byte>, t: seq<Byte>)
    requires |s| == |t| && LexLess(s, t)
    ensures BigEndian(s) < BigEndian(t)
  {
    if s[0] < t[0] {
      BigEndianBound(s[1..]);
      LeadingDigitDominates(s[0] as int, t[0] as int, Pow256(|s| - 1), BigEndian(s[1..]), BigEndian(t[1..]));
    } else {
      LexLessGivesSmallerValue(s[1..], t[1..]);
    }
  }

  lemma {:induction false} LexTotal(s: seq<Byte>, t: seq<Byte>)
    requires |s| == |t| && s != t
    ensures LexLess(s, t) || LexLess(t, s)
  {
    if s[0] == t[0] {
      assert s == [s[0]] + s[1..] && t == [t[0]] + t[1..];
      LexTotal(s[1..], t[1..]);
    }
  }

  /** For hashes of one length, comparing the parsed integers is comparing the bytes
      lexicographically, and equal integers mean equal bytes. */
  lemma KeyOrderIsByteOrder(s: seq<Byte>, t: seq<Byte>)
    requires |s| == |t|
    ensures BigEndian(s) < BigEndian(t) <==> LexLess(s, t)
    ensures BigEndian(s) == BigEndian(t) <==> s == t
  {
    if s != t {
      LexTotal(s, t);
      if LexLess(s, t) {
        LexLessGivesSmallerValue(s, t);
      } else {
        LexLessGivesSmallerValue(t, s);
      }
    }
  }

  /** Two well-formed addresses have the same key exactly when their hashes agree. */
  lemma HashKeyInjective(a: Address, b: Address)
    requires WellFormed(a) && WellFormed(b)
    ensures HashKey(a) == HashKey(b) <==> a.hash == b.hash
    ensures HashKey(a) < HashKey(b) <==> LexLess(a.hash, b.hash)
  {
    KeyOrderIsByteOrder(a.hash, b.hash);
  }
}
