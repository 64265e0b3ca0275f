/**
  Big-endian packing of the fixed-width fields of the AppleDouble format:
  the `H` (2 bytes), `L` (4 bytes) and `Nx` (N zero bytes) items of the
  format strings in lib/xattr-file.js, written out explicitly, together with
  the readers that invert them.
 */
module Bytes {

  type Byte = b: int | 0 <= b < 0x100

  const TwoTo16: nat := 0x1_0000
  const TwoTo32: nat := 0x1_0000_0000

  /** `Nx`: n zero bytes. */
  function Zeros(n: nat): (r: seq<Byte>)
    ensures |r| == n
    ensures forall i :: 0 <= i < n ==> r[i] == 0
  {
    seq(n, _ => 0)
  }

  /** The unsigned big-endian number held in the two bytes of `s` at `at`. */
  function ReadU16(s: seq<Byte>, at: nat): nat
    requires at + 2 <= |s|
  {
    s[at] as int * 0x100 + s[at + 1]
  }

  /** The unsigned big-endian number held in the four bytes of `s` at `at`. */
  function ReadU32(s: seq<Byte>, at: nat): nat
    requires at + 4 <= |s|
  {
    ReadU16(s, at) * TwoTo16 + ReadU16(s, at + 2)
  }

  /** `H`: a 16-bit unsigned field, most significant byte first. */
  function U16(n: nat): (r: seq<Byte>)
    requires n < TwoTo16
    ensures |r| == 2 && ReadU16(r, 0) == n
  {
    [n / 0x100, n % 0x100]
  }

  /** `L`: a 32-bit unsigned field, most significant byte first. */
  function U32(n: nat): (r: seq<Byte>)
    requires n < TwoTo32
    ensures |r| == 4 && ReadU32(r, 0) == n
  {
    U16(n / TwoTo16) + U16(n % TwoTo16)
  }

  /** `s` holds a copy of `r` starting at offset `at`. */
  predicate HoldsAt(s: seq<Byte>, at: nat, r: seq<Byte>)
  {
    at + |r| <= |s| && s[at..at + |r|] == r
  }

  /** A 16-bit read inside a copy of `r` reads what `r` holds. */
  lemma ReadU16Embedded(s: seq<Byte>, at: nat, r: seq<Byte>, k: nat)
    requires HoldsAt(s, at, r) && k + 2 <= |r|
    ensures ReadU16(s, at + k) == ReadU16(r, k)
  {
    assert s[at + k] == r[k] && s[at + k + 1] == r[k + 1];
  }

  /** A 32-bit read inside a copy of `r` reads what `r` holds. */
  lemma ReadU32Embedded(s: seq<Byte>, at: nat, r: seq<Byte>, k: nat)
    requires HoldsAt(s, at, r) && k + 4 <= |r|
    ensures ReadU32(s, at + k) == ReadU32(r, k)
  {
    ReadU16Embedded(s, at, r, k);
    ReadU16Embedded(s, at, r, k + 2);
  }

  /** A slice inside a copy of `r` is the same slice of `r`. */
  lemma SliceEmbedded(s: seq<Byte>, at: nat, r: seq<Byte>, a: nat, b: nat)
    requires HoldsAt(s, at, r) && a <= b <= |r|
    ensures s[at + a..at + b] == r[a..b]
  {
    forall j | 0 <= j < b - a
      ensures s[at + a..at + b][j] == r[a..b][j]
    {
      assert s[at..at + |r|][a + j] == s[at + a + j];
    }
  }

  /** A copy inside a copy: offsets add up. */
  lemma HoldsAtNested(s: seq<Byte>, at: nat, t: seq<Byte>, k: nat, r: seq<Byte>, p: nat)
    requires HoldsAt(s, at, t) && HoldsAt(t, k, r) && p == at + k
    ensures HoldsAt(s, p, r)
  {
    SliceEmbedded(s, at, t, k, k + |r|);
  }

  /**
    Each part of a concatenation of four is held at the sum of the lengths
    before it (`pb`, `pc`, `pd`).
   */
  lemma HoldsAtParts(a: seq<Byte>, b: seq<Byte>, c: seq<Byte>, d: seq<Byte>, pb: nat, pc: nat, pd: nat)
    requires pb == |a| && pc == pb + |b| && pd == pc + |c|
    ensures HoldsAt(a + b + c + d, 0, a)
    ensures HoldsAt(a + b + c + d, pb, b)
    ensures HoldsAt(a + b + c + d, pc, c)
    ensures HoldsAt(a + b + c + d, pd, d)
  {
    var s := a + b + c + d;
    assert s[0..|a|] == a;
    assert s[pb..pb + |b|] == b;
    assert s[pc..pc + |c|] == c;
    assert s[pd..pd + |d|] == d;
  }
}
