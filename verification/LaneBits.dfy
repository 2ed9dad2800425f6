/** The bits of a 64-bit lane, and what operations on lanes and bytes do to them. */
module LaneBits {
  import F = Fips202

  type Lane = bv64
  type State = s: seq<Lane> | |s| == 25 witness seq(25, _ => 0)

  // ------------------------------------------------------------------ a lane as 64 bits

  function Rotr(v: Lane): Lane {
    (v >> 1) | (v << 63)
  }

  predicate Low(v: Lane) {
    v & 1 == 1
  }

  /** Bit z modulo 64: the lowest bit after z turns to the right. */
  predicate BitAt(v: Lane, z: nat)
    decreases z
  {
    if z == 0 then Low(v) else BitAt(Rotr(v), z - 1)
  }

  function WordOf(v: Lane): F.Word {
    seq(64, z requires 0 <= z < 64 => BitAt(v, z))
  }

  function CubeOf(a: State): F.Cube {
    seq(25, i requires 0 <= i < 25 => WordOf(a[i]))
  }

  // ------------------------------------------------------------------ exclusive or, and the row step

  function Xor(v: Lane, w: Lane): Lane {
    v ^ w
  }

  function Mix(a: Lane, b: Lane, c: Lane): Lane {
    a ^ (!b & c)
  }

  lemma XorTurn(v: Lane, w: Lane)
    ensures Low(Xor(v, w)) <==> Low(v) != Low(w)
    ensures Rotr(Xor(v, w)) == Xor(Rotr(v), Rotr(w))
  {
  }

  lemma {:induction false} XorBit(v: Lane, w: Lane, z: nat)
    ensures BitAt(Xor(v, w), z) <==> BitAt(v, z) != BitAt(w, z)
    decreases z
  {
    hide Xor, Rotr, Low;
    XorTurn(v, w);
    if z > 0 {
      XorBit(Rotr(v), Rotr(w), z - 1);
    }
  }

  lemma MixTurn(a: Lane, b: Lane, c: Lane)
    ensures Rotr(Mix(a, b, c)) == Mix(Rotr(a), Rotr(b), Rotr(c))
  {
  }

  lemma MixLow(a: Lane, b: Lane, c: Lane)
    ensures Low(Mix(a, b, c)) <==> (Low(a) != (!Low(b) && Low(c)))
  {
  }

  lemma {:induction false} MixBit(a: Lane, b: Lane, c: Lane, z: nat)
    ensures BitAt(Mix(a, b, c), z) <==> (BitAt(a, z) != (!BitAt(b, z) && BitAt(c, z)))
    decreases z
  {
    hide Mix, Rotr, Low;
    MixTurn(a, b, c);
    MixLow(a, b, c);
    if z > 0 {
      MixBit(Rotr(a), Rotr(b), Rotr(c), z - 1);
    }
  }

  // ------------------------------------------------------------------ rotations

  function Rotl(v: Lane, n: bv6): Lane {
    (v << n) | (v >> (64 - (n as bv7)))
  }

  lemma RotlOne(v: Lane)
    ensures Rotr(Rotl(v, 1)) == v && Rotl(v, 0) == v
  {
  }

  lemma Rotl2(v: Lane)
    ensures Rotl(v, 2) == Rotl(Rotl(v, 1), 1)
  {
  }

  lemma Rotl4(v: Lane)
    ensures Rotl(v, 4) == Rotl(Rotl(v, 2), 2)
  {
  }

  lemma Rotl8(v: Lane)
    ensures Rotl(v, 8) == Rotl(Rotl(v, 4), 4)
  {
  }

  lemma Rotl16(v: Lane)
    ensures Rotl(v, 16) == Rotl(Rotl(v, 8), 8)
  {
  }

  lemma Rotl32(v: Lane)
    ensures Rotl(v, 32) == Rotl(Rotl(v, 16), 16)
  {
  }

  lemma Rotl40(v: Lane)
    ensures Rotl(v, 40) == Rotl(Rotl(v, 32), 8)
  {
  }

  lemma Rotl48(v: Lane)
    ensures Rotl(v, 48) == Rotl(Rotl(v, 32), 16)
  {
  }

  lemma Rotl56(v: Lane)
    ensures Rotl(v, 56) == Rotl(Rotl(v, 48), 8)
  {
  }

  lemma Rotl64(v: Lane)
    ensures v == Rotl(Rotl(v, 32), 32)
  {
  }

  lemma Turn1(v: Lane, z: nat)
    ensures BitAt(Rotl(v, 1), z + 1) == BitAt(v, z)
  {
    hide Rotl, Rotr, Low;
    RotlOne(v);
  }

  lemma Turn2(v: Lane, z: nat)
    ensures BitAt(Rotl(v, 2), z + 2) == BitAt(v, z)
  {
    hide Rotl, BitAt;
    Rotl2(v);
    Turn1(v, z);
    Turn1(Rotl(v, 1), z + 1);
  }

  lemma Turn4(v: Lane, z: nat)
    ensures BitAt(Rotl(v, 4), z + 4) == BitAt(v, z)
  {
    hide Rotl, BitAt;
    Rotl4(v);
    Turn2(v, z);
    Turn2(Rotl(v, 2), z + 2);
  }

  lemma Turn8(v: Lane, z: nat)
    ensures BitAt(Rotl(v, 8), z + 8) == BitAt(v, z)
  {
    hide Rotl, BitAt;
    Rotl8(v);
    Turn4(v, z);
    Turn4(Rotl(v, 4), z + 4);
  }

  lemma Turn16(v: Lane, z: nat)
    ensures BitAt(Rotl(v, 16), z + 16) == BitAt(v, z)
  {
    hide Rotl, BitAt;
    Rotl16(v);
    Turn8(v, z);
    Turn8(Rotl(v, 8), z + 8);
  }

  lemma Turn32(v: Lane, z: nat)
    ensures BitAt(Rotl(v, 32), z + 32) == BitAt(v, z)
  {
    hide Rotl, BitAt;
    Rotl32(v);
    Turn16(v, z);
    Turn16(Rotl(v, 16), z + 16);
  }

  lemma Turn40(v: Lane, z: nat)
    ensures BitAt(Rotl(v, 40), z + 40) == BitAt(v, z)
  {
    hide Rotl, BitAt;
    Rotl40(v);
    Turn32(v, z);
    Turn8(Rotl(v, 32), z + 32);
  }

  lemma Turn48(v: Lane, z: nat)
    ensures BitAt(Rotl(v, 48), z + 48) == BitAt(v, z)
  {
    hide Rotl, BitAt;
    Rotl48(v);
    Turn32(v, z);
    Turn16(Rotl(v, 32), z + 32);
  }

  lemma Turn56(v: Lane, z: nat)
    ensures BitAt(Rotl(v, 56), z + 56) == BitAt(v, z)
  {
    hide Rotl, BitAt;
    Rotl56(v);
    Turn48(v, z);
    Turn8(Rotl(v, 48), z + 48);
  }

  lemma Period(v: Lane, z: nat)
    ensures BitAt(v, z + 64) == BitAt(v, z)
  {
    hide Rotl, BitAt;
    Rotl64(v);
    Turn32(v, z);
    Turn32(Rotl(v, 32), z + 32);
  }

  lemma Split56(v: Lane, n: bv6)
    requires n & 56 == 56
    ensures Rotl(v, n) == Rotl(Rotl(v, n ^ 56), 56)
  {
  }

  lemma Split48(v: Lane, n: bv6)
    requires n & 56 == 48
    ensures Rotl(v, n) == Rotl(Rotl(v, n ^ 48), 48)
  {
  }

  lemma Split40(v: Lane, n: bv6)
    requires n & 56 == 40
    ensures Rotl(v, n) == Rotl(Rotl(v, n ^ 40), 40)
  {
  }

  lemma Split32(v: Lane, n: bv6)
    requires n & 56 == 32
    ensures Rotl(v, n) == Rotl(Rotl(v, n ^ 32), 32)
  {
  }

  lemma Split16(v: Lane, n: bv6)
    requires n & 48 == 16
    ensures Rotl(v, n) == Rotl(Rotl(v, n ^ 16), 16)
  {
  }

  lemma Split8(v: Lane, n: bv6)
    requires n & 56 == 8
    ensures Rotl(v, n) == Rotl(Rotl(v, n ^ 8), 8)
  {
  }

  lemma Split4(v: Lane, n: bv6)
    requires n & 60 == 4
    ensures Rotl(v, n) == Rotl(Rotl(v, n ^ 4), 4)
  {
  }

  lemma Split2(v: Lane, n: bv6)
    requires n & 62 == 2
    ensures Rotl(v, n) == Rotl(Rotl(v, n ^ 2), 2)
  {
  }

  /** The part of a rotation that is done last. */
  function High(n: bv6): bv6 {
    if n & 32 == 32 then n & 56 else if n & 16 == 16 then 16 else if n & 8 == 8 then 8
    else if n & 4 == 4 then 4 else if n & 2 == 2 then 2 else n
  }

  lemma HighPart(n: bv6)
    ensures n != 0 ==> n ^ High(n) < n && n as nat == (n ^ High(n)) as nat + High(n) as nat
  {
  }

  lemma RotlHigh(v: Lane, n: bv6)
    ensures Rotl(v, n) == Rotl(Rotl(v, n ^ High(n)), High(n))
  {
    hide Rotl;
    if n & 32 == 32 {
      if n & 56 == 56 { Split56(v, n); }
      else if n & 56 == 48 { Split48(v, n); }
      else if n & 56 == 40 { Split40(v, n); }
      else { Split32(v, n); }
    } else if n & 16 == 16 { Split16(v, n); }
    else if n & 8 == 8 { Split8(v, n); }
    else if n & 4 == 4 { Split4(v, n); }
    else if n & 2 == 2 { Split2(v, n); }
    else { RotlOne(v); }
  }

  lemma HighBit(v: Lane, n: bv6, z: nat)
    ensures BitAt(Rotl(v, High(n)), z + High(n) as nat) == BitAt(v, z)
  {
    hide Rotl, BitAt;
    if n & 32 == 32 {
      if n & 56 == 56 { Turn56(v, z); }
      else if n & 56 == 48 { Turn48(v, z); }
      else if n & 56 == 40 { Turn40(v, z); }
      else { Turn32(v, z); }
    } else if n & 16 == 16 { Turn16(v, z); }
    else if n & 8 == 8 { Turn8(v, z); }
    else if n & 4 == 4 { Turn4(v, z); }
    else if n & 2 == 2 { Turn2(v, z); }
    else if n == 1 { Turn1(v, z); }
    else { RotlOne(v); }
  }

  /** Bit z of a word is bit z + n of the word turned n to the left. */
  lemma {:induction false} RotlBit(v: Lane, n: bv6, z: nat)
    ensures BitAt(Rotl(v, n), z + n as nat) == BitAt(v, z)
    decreases n
  {
    hide Rotl, BitAt, High;
    if n == 0 {
      RotlOne(v);
    } else {
      var m := n ^ High(n);
      HighPart(n);
      RotlHigh(v, n);
      RotlBit(v, m, z);
      HighBit(Rotl(v, m), n, z + m as nat);
    }
  }

  /** A rotation of the word is a turn of its bits. */
  lemma RotlTurns(v: Lane, n: bv6, d: nat)
    requires n as nat == d % 64
    ensures WordOf(Rotl(v, n)) == F.Turn(WordOf(v), d)
  {
    hide Rotl, BitAt;
    forall z | 0 <= z < 64
      ensures WordOf(Rotl(v, n))[z] == F.Turn(WordOf(v), d)[z]
    {
      var y := (z - d) % 64;
      TurnSum(z, d);
      RotlBit(v, n, y);
      Period(Rotl(v, n), z);
    }
  }

  lemma TurnSum(z: nat, d: nat)
    requires z < 64
    ensures (z - d) % 64 + d % 64 == z || (z - d) % 64 + d % 64 == z + 64
  {
  }

  // ------------------------------------------------------------------ lanes as bytes

  /** A lane's bytes, least significant first. */
  function LaneBytes(v: Lane): (r: seq<bv8>)
    ensures |r| == 8
  {
    [(v & 0xff) as bv8, ((v >> 8) & 0xff) as bv8, ((v >> 16) & 0xff) as bv8, ((v >> 24) & 0xff) as bv8,
     ((v >> 32) & 0xff) as bv8, ((v >> 40) & 0xff) as bv8, ((v >> 48) & 0xff) as bv8, ((v >> 56) & 0xff) as bv8]
  }

  /** Eight bytes as a lane, least significant first. */
  function LoadLane(b: seq<bv8>): Lane
    requires |b| == 8
  {
    (b[0] as bv64) | ((b[1] as bv64) << 8) | ((b[2] as bv64) << 16) | ((b[3] as bv64) << 24) | ((b[4] as bv64) << 32)
    | ((b[5] as bv64) << 40) | ((b[6] as bv64) << 48) | ((b[7] as bv64) << 56)
  }

  lemma LoadedBytes(b: seq<bv8>)
    requires |b| == 8
    ensures LaneBytes(LoadLane(b)) == b
  {
  }

  /** The lowest eight bits, by masks. */
  predicate MaskAt(v: Lane, i: nat) {
    match i
    case 0 => v & 1 == 1
    case 1 => v & 2 == 2
    case 2 => v & 4 == 4
    case 3 => v & 8 == 8
    case 4 => v & 16 == 16
    case 5 => v & 32 == 32
    case 6 => v & 64 == 64
    case _ => v & 128 == 128
  }

  lemma MaskTurn(v: Lane, i: nat)
    requires 0 < i < 8
    ensures MaskAt(v, i) == MaskAt(Rotr(v), i - 1)
  {
  }

  lemma MaskOfByte(v: Lane, i: nat)
    requires i < 8
    ensures MaskAt(v, i) == F.ByteBits((v & 0xff) as bv8)[i]
  {
  }

  lemma {:induction false} MaskBit(v: Lane, i: nat)
    requires i < 8
    ensures BitAt(v, i) == MaskAt(v, i)
    decreases i
  {
    if i > 0 {
      hide Rotr, MaskAt;
      MaskTurn(v, i);
      MaskBit(Rotr(v), i - 1);
    }
  }

  lemma FirstByte(v: Lane, i: nat)
    requires i < 8
    ensures BitAt(v, i) == F.ByteBits(LaneBytes(v)[0])[i]
  {
    hide BitAt, MaskAt, F.ByteBits;
    MaskBit(v, i);
    MaskOfByte(v, i);
  }

  lemma NextByte(v: Lane, k: nat)
    requires k < 7
    ensures LaneBytes(v)[k + 1] == LaneBytes(Rotl(v, 56))[k]
  {
    hide Rotl, LaneBytes;
    NextBytes(v);
    assert LaneBytes(v)[1..][k] == LaneBytes(Rotl(v, 56))[..7][k];
  }

  lemma NextBytes(v: Lane)
    ensures LaneBytes(v)[1..] == LaneBytes(Rotl(v, 56))[..7]
  {
  }

  lemma NextBit(v: Lane, z: nat)
    ensures BitAt(v, z + 8) == BitAt(Rotl(v, 56), z)
  {
    hide Rotl, BitAt;
    Turn56(v, z + 8);
    Period(Rotl(v, 56), z);
  }

  /** Bit i of byte k is bit 8k + i of the lane. */
  lemma {:induction false} ByteAt(v: Lane, k: nat, i: nat)
    requires k < 8 && i < 8
    ensures BitAt(v, 8 * k + i) == F.ByteBits(LaneBytes(v)[k])[i]
    decreases k
  {
    hide Rotl, BitAt, LaneBytes, F.ByteBits;
    if k == 0 {
      FirstByte(v, i);
    } else {
      NextBit(v, 8 * (k - 1) + i);
      NextByte(v, k - 1);
      ByteAt(Rotl(v, 56), k - 1, i);
    }
  }

  /** Bit i of byte k is bit 8k + i of the string. */
  lemma {:induction false} BitsAt(b: seq<bv8>, k: nat, i: nat)
    requires k < |b| && i < 8
    ensures |F.BitsOf(b)| == 8 * |b| && F.BitsOf(b)[8 * k + i] == F.ByteBits(b[k])[i]
  {
    hide F.ByteBits;
    var m := |b| - 1;
    F.BitsLength(b);
    F.BitsLength(b[..m]);
    if k < m {
      BitsAt(b[..m], k, i);
    }
  }

  /** A lane's bits are the bits of its bytes. */
  lemma BytesOfWord(v: Lane)
    ensures F.BitsOf(LaneBytes(v)) == WordOf(v)
  {
    hide BitAt, LaneBytes, F.ByteBits, F.BitsOf;
    var b := LaneBytes(v);
    F.BitsLength(b);
    forall z | 0 <= z < 64
      ensures F.BitsOf(b)[z] == WordOf(v)[z]
    {
      ByteAt(v, z / 8, z % 8);
      BitsAt(b, z / 8, z % 8);
    }
  }

  lemma WordOfBytes(b: seq<bv8>)
    requires |b| == 8
    ensures WordOf(LoadLane(b)) == F.BitsOf(b)
  {
    hide WordOf, LoadLane, LaneBytes, F.BitsOf;
    LoadedBytes(b);
    BytesOfWord(LoadLane(b));
  }
}
