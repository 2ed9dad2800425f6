/** Keccak-f[1600] and the sponge on bits, as sections 3.1, 3.2, 4 and 5.1 of FIPS 202 define them, with the
    original Keccak padding (no SHA-3 suffix). A state is 25 lanes of 64 bits; lane (x, y) is at x + 5 * y. */
module Fips202 {
  import opened Wrappers

  type Word = w: seq<bool> | |w| == 64 witness seq(64, _ => false)
  type Cube = a: seq<Word> | |a| == 25 witness seq(25, _ => seq(64, _ => false))

  function Index(x: int, y: int): (i: nat)
    ensures i < 25
  {
    x % 5 + 5 * (y % 5)
  }

  /** The bit A[x, y, z], with the coordinates taken modulo 5, 5 and 64. */
  function Bit(a: Cube, x: int, y: int, z: int): bool {
    a[Index(x, y)][z % 64]
  }

  // ------------------------------------------------------------------ 3.2.1 theta

  /** C[x, z]: the parity of a column. */
  function ColumnBit(a: Cube, x: int, z: int): bool {
    Bit(a, x, 0, z) != (Bit(a, x, 1, z) != (Bit(a, x, 2, z) != (Bit(a, x, 3, z) != Bit(a, x, 4, z))))
  }

  function ThetaBit(a: Cube, x: int, y: int, z: int): bool {
    Bit(a, x, y, z) != (ColumnBit(a, x - 1, z) != ColumnBit(a, x + 1, z - 1))
  }

  function ThetaWord(a: Cube, i: nat): Word {
    seq(64, z => ThetaBit(a, i % 5, i / 5, z))
  }

  function Theta(a: Cube): Cube {
    seq(25, i requires 0 <= i => ThetaWord(a, i))
  }

  // ------------------------------------------------------------------ 3.2.2 rho

  /** The walk of the rho algorithm: (1, 0), then (y, 2x + 3y mod 5) again and again. */
  function Walk(t: nat): (nat, nat) {
    if t == 0 then (1, 0) else var (x, y) := Walk(t - 1); (y, (2 * x + 3 * y) % 5)
  }

  function WalkIndex(t: nat): (i: nat)
    ensures i < 25
  {
    var (x, y) := Walk(t);
    Index(x, y)
  }

  /** Bit z comes from bit z - d. */
  function Turn(w: Word, d: nat): Word {
    seq(64, z => w[(z - d) % 64])
  }

  function Triangle(t: nat): nat {
    (t + 1) * (t + 2) / 2
  }

  /** The first n steps of the algorithm. */
  function RhoSteps(a: Cube, n: nat): Cube {
    if n == 0 then a
    else
      var i := WalkIndex(n - 1);
      RhoSteps(a, n - 1)[i := Turn(a[i], Triangle(n - 1))]
  }

  function Rho(a: Cube): Cube {
    RhoSteps(a, 24)
  }

  // ------------------------------------------------------------------ 3.2.3 pi

  /** Lane (x, y) comes from lane (x + 3y, x). */
  function PiSource(i: nat): (j: nat)
    ensures j < 25
  {
    Index(i % 5 + 3 * (i / 5), i % 5)
  }

  function Pi(a: Cube): Cube {
    seq(25, i requires 0 <= i => a[PiSource(i)])
  }

  // ------------------------------------------------------------------ 3.2.4 chi

  function ChiBit(a: Cube, x: int, y: int, z: int): bool {
    Bit(a, x, y, z) != (!Bit(a, x + 1, y, z) && Bit(a, x + 2, y, z))
  }

  function ChiWord(a: Cube, i: nat): Word {
    seq(64, z => ChiBit(a, i % 5, i / 5, z))
  }

  function Chi(a: Cube): Cube {
    seq(25, i requires 0 <= i => ChiWord(a, i))
  }

  // ------------------------------------------------------------------ 3.2.5 iota

  /** One round of the loop in algorithm 5, on the eight bits of the register. */
  function Shift(r: seq<bool>): (s: seq<bool>)
    requires |r| == 8
    ensures |s| == 8
  {
    [r[7], r[0], r[1], r[2], r[3] != r[7], r[4] != r[7], r[5] != r[7], r[6]]
  }

  function Register(t: nat): (r: seq<bool>)
    ensures |r| == 8
  {
    if t == 0 then [true, false, false, false, false, false, false, false] else Shift(Register(t - 1))
  }

  /** The bit rc(t), for t below the register's period 255. */
  function Rc(t: nat): bool {
    Register(t)[0]
  }

  /** Bit 2^j - 1 of the round constant is rc(j + 7 * round), and the others are zero. */
  function ConstantBit(round: nat, z: nat): bool {
    var t := 7 * round;
    if z == 0 then Rc(t) else if z == 1 then Rc(t + 1) else if z == 3 then Rc(t + 2)
    else if z == 7 then Rc(t + 3) else if z == 15 then Rc(t + 4) else if z == 31 then Rc(t + 5)
    else z == 63 && Rc(t + 6)
  }

  function IotaWord(w: Word, round: nat): Word {
    seq(64, z requires 0 <= z < 64 => w[z] != ConstantBit(round, z))
  }

  function Iota(a: Cube, round: nat): Cube {
    a[0 := IotaWord(a[0], round)]
  }

  // ------------------------------------------------------------------ the permutation

  function Round(a: Cube, round: nat): Cube {
    Iota(Chi(Pi(Rho(Theta(a)))), round)
  }

  function Rounds(a: Cube, n: nat): Cube {
    if n == 0 then a else Round(Rounds(a, n - 1), n - 1)
  }

  function Permute(a: Cube): Cube {
    Rounds(a, 24)
  }

  // ------------------------------------------------------------------ bit strings and padding

  /** The bits of a byte string, least significant bit of each byte first. */
  function BitsOf(b: seq<bv8>): seq<bool> {
    if b == [] then [] else BitsOf(b[..|b| - 1]) + ByteBits(b[|b| - 1])
  }

  function ByteBits(c: bv8): seq<bool> {
    [c & 1 == 1, c & 2 == 2, c & 4 == 4, c & 8 == 8, c & 16 == 16, c & 32 == 32, c & 64 == 64, c & 128 == 128]
  }

  function ZeroBits(n: nat): (r: seq<bool>)
    ensures |r| == n
  {
    Fill(false, n)
  }

  /** The number of zeros: -m - 2 modulo the rate of 1088 bits. */
  function PadZeros(m: nat): nat {
    (-(m as int) - 2) % 1088
  }

  /** pad10*1 of section 5.1 at this rate, for messages of m bits. */
  function Pad101(m: nat): seq<bool> {
    [true] + ZeroBits(PadZeros(m)) + [true]
  }

  // ------------------------------------------------------------------ 4 the sponge

  /** A block of 1088 bits is combined with the first 17 lanes. */
  function JoinedWord(w: Word, p: seq<bool>, i: nat): Word
    requires |p| == 1088
  {
    if i < 17 then seq(64, z requires 0 <= z < 64 => w[z] != p[64 * i + z]) else w
  }

  function Joined(a: Cube, p: seq<bool>): Cube
    requires |p| == 1088
  {
    seq(25, i requires 0 <= i < 25 => JoinedWord(a[i], p, i))
  }

  function ZeroCube(): Cube {
    seq(25, _ => seq(64, _ => false))
  }

  /** The state after absorbing every whole block. */
  function Absorbed(p: seq<bool>): Cube
    decreases |p|
  {
    if |p| < 1088 then ZeroCube()
    else
      var cut := |p| - 1088;
      Permute(Joined(Absorbed(p[..cut]), p[cut..]))
  }

  /** The first 256 bits of the state. */
  function Squeezed(a: Cube): (r: seq<bool>)
    ensures |r| == 256
  {
    var first: seq<bool> := a[0];
    first + a[1] + a[2] + a[3]
  }

  function Digest(message: seq<bool>): seq<bool> {
    Squeezed(Absorbed(message + Pad101(|message|)))
  }

  /** `digest` is the Keccak-256 digest of `data`. */
  ghost predicate IsKeccak256(data: seq<bv8>, digest: seq<bv8>) {
    BitsOf(digest) == Digest(BitsOf(data))
  }

  /** A byte string is determined by its bits, so there is one digest. */
  lemma {:induction false} BitsDetermine(a: seq<bv8>, b: seq<bv8>)
    requires BitsOf(a) == BitsOf(b)
    ensures a == b
    decreases |a|
  {
    BitsLength(a);
    BitsLength(b);
    if a != [] {
      var x, y := BitsOf(a[..|a| - 1]), BitsOf(b[..|b| - 1]);
      BitsLength(a[..|a| - 1]);
      BitsLength(b[..|b| - 1]);
      assert BitsOf(a) == x + ByteBits(a[|a| - 1]) && BitsOf(b) == y + ByteBits(b[|b| - 1]);
      assert x == (x + ByteBits(a[|a| - 1]))[..|x|] && y == (y + ByteBits(b[|b| - 1]))[..|y|];
      assert ByteBits(a[|a| - 1]) == BitsOf(a)[|x|..] && ByteBits(b[|b| - 1]) == BitsOf(b)[|y|..];
      BitsDetermine(a[..|a| - 1], b[..|b| - 1]);
      ByteBitsDetermine(a[|a| - 1], b[|b| - 1]);
      assert a == a[..|a| - 1] + [a[|a| - 1]] && b == b[..|b| - 1] + [b[|b| - 1]];
    }
  }

  lemma {:induction false} BitsLength(b: seq<bv8>)
    ensures |BitsOf(b)| == 8 * |b|
  {
    if b != [] {
      BitsLength(b[..|b| - 1]);
    }
  }

  lemma ByteBitsDetermine(c: bv8, d: bv8)
    requires ByteBits(c) == ByteBits(d)
    ensures c == d
  {
    var x, y := ByteBits(c), ByteBits(d);
    assert x[0] == y[0] && x[1] == y[1] && x[2] == y[2] && x[3] == y[3];
    assert x[4] == y[4] && x[5] == y[5] && x[6] == y[6] && x[7] == y[7];
  }

  lemma DigestUnique(data: seq<bv8>, d: seq<bv8>, e: seq<bv8>)
    requires IsKeccak256(data, d) && IsKeccak256(data, e)
    ensures d == e
  {
    hide BitsOf, Digest;
    BitsDetermine(d, e);
  }
}
