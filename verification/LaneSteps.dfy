/** What each step of section 3.2 of FIPS 202 leaves in a lane, as operations on whole lanes. */
module LaneSteps {
  import opened LaneBits
  import F = Fips202

  lemma BitOf(a: State, x: int, y: int, z: int)
    ensures F.Bit(CubeOf(a), x, y, z) == BitAt(a[F.Index(x, y)], z % 64)
  {
    hide BitAt, F.Index;
  }

  lemma WordBit(a: State, i: nat, z: nat)
    requires i < 25 && z < 64
    ensures CubeOf(a)[i][z] == BitAt(a[i], z)
  {
    hide BitAt;
  }

  lemma PartsIndex(i: nat)
    requires i < 25
    ensures F.Index(i % 5, i / 5) == i && i / 5 < 5
  {
  }

  // ------------------------------------------------------------------ theta

  function Parity(p: Lane, q: Lane, r: Lane, s: Lane, t: Lane): Lane {
    Xor(Xor(Xor(Xor(p, q), r), s), t)
  }

  lemma ParityBit(p: Lane, q: Lane, r: Lane, s: Lane, t: Lane, z: nat)
    ensures BitAt(Parity(p, q, r, s, t), z)
            <==> (BitAt(p, z) != (BitAt(q, z) != (BitAt(r, z) != (BitAt(s, z) != BitAt(t, z)))))
  {
    hide Xor, BitAt;
    XorBit(p, q, z);
    XorBit(Xor(p, q), r, z);
    XorBit(Xor(Xor(p, q), r), s, z);
    XorBit(Xor(Xor(Xor(p, q), r), s), t, z);
  }

  function Column(a: State, x: nat): Lane
    requires x < 5
  {
    Parity(a[x], a[x + 5], a[x + 10], a[x + 15], a[x + 20])
  }

  lemma ColumnIndex(x: int)
    ensures var m := x % 5;
            && F.Index(x, 0) == m && F.Index(x, 1) == m + 5 && F.Index(x, 2) == m + 10
            && F.Index(x, 3) == m + 15 && F.Index(x, 4) == m + 20
  {
  }

  lemma ColumnBits(a: State, x: int, z: int)
    ensures BitAt(Column(a, x % 5), z % 64) == F.ColumnBit(CubeOf(a), x, z)
  {
    hide Parity, BitAt, F.Index, F.Bit, CubeOf;
    var m := x % 5;
    ParityBit(a[m], a[m + 5], a[m + 10], a[m + 15], a[m + 20], z % 64);
    ColumnIndex(x);
    BitOf(a, x, 0, z); BitOf(a, x, 1, z); BitOf(a, x, 2, z); BitOf(a, x, 3, z); BitOf(a, x, 4, z);
  }

  function ThetaEffect(a: State, x: nat): Lane
    requires x < 5
  {
    Xor(Column(a, (x + 4) % 5), Rotl(Column(a, (x + 1) % 5), 1))
  }

  function ThetaLane(a: State, i: nat): Lane
    requires i < 25
  {
    Xor(a[i], ThetaEffect(a, i % 5))
  }

  lemma TurnedFrom(v: Lane, y: nat, z: nat)
    requires y + 1 == z || y + 1 == z + 64
    ensures BitAt(Rotl(v, 1), z) == BitAt(v, y)
  {
    hide Rotl, BitAt;
    Turn1(v, y);
    Period(Rotl(v, 1), z);
  }

  lemma TurnedOne(v: Lane, z: nat)
    requires z < 64
    ensures BitAt(Rotl(v, 1), z) == BitAt(v, (z - 1) % 64)
  {
    hide Rotl, BitAt;
    TurnedFrom(v, (z - 1) % 64, z);
  }

  lemma ThetaEffectBit(a: State, x: nat, z: nat)
    requires x < 5 && z < 64
    ensures BitAt(ThetaEffect(a, x), z) == (F.ColumnBit(CubeOf(a), x - 1, z) != F.ColumnBit(CubeOf(a), x + 1, z - 1))
  {
    hide Column, Rotl, Xor, BitAt, F.ColumnBit, CubeOf;
    var c := Column(a, (x + 1) % 5);
    XorBit(Column(a, (x + 4) % 5), Rotl(c, 1), z);
    TurnedOne(c, z);
    ColumnBits(a, x - 1, z);
    ColumnBits(a, x + 1, z - 1);
    assert (x - 1) % 5 == (x + 4) % 5;
  }

  /** Lane by lane, this is theta. */
  lemma ThetaBits(a: State, i: nat, z: nat)
    requires i < 25 && z < 64
    ensures BitAt(ThetaLane(a, i), z) == F.ThetaBit(CubeOf(a), i % 5, i / 5, z)
  {
    hide ThetaEffect, Xor, BitAt, F.ColumnBit, F.Bit, F.Index, CubeOf;
    XorBit(a[i], ThetaEffect(a, i % 5), z);
    ThetaEffectBit(a, i % 5, z);
    BitOf(a, i % 5, i / 5, z);
    PartsIndex(i);
  }

  lemma ThetaWhole(a: State, s: State)
    requires forall i :: 0 <= i < 25 ==> s[i] == ThetaLane(a, i)
    ensures CubeOf(s) == F.Theta(CubeOf(a))
  {
    hide ThetaLane, BitAt, F.ThetaBit;
    forall i, z | 0 <= i < 25 && 0 <= z < 64
      ensures CubeOf(s)[i][z] == F.Theta(CubeOf(a))[i][z]
    {
      ThetaBits(a, i, z);
    }
    SameCube(CubeOf(s), F.Theta(CubeOf(a)));
  }

  lemma SameCube(a: F.Cube, b: F.Cube)
    requires forall i, z :: 0 <= i < 25 && 0 <= z < 64 ==> a[i][z] == b[i][z]
    ensures a == b
  {
    forall i | 0 <= i < 25
      ensures a[i] == b[i]
    {
    }
  }

  // ------------------------------------------------------------------ chi

  function ChiLane(a: State, i: nat): Lane
    requires i < 25
  {
    Mix(a[i], a[F.Index(i + 1, i / 5)], a[F.Index(i + 2, i / 5)])
  }

  lemma ChiIndex(i: nat, d: nat)
    ensures F.Index(i % 5 + d, i / 5) == F.Index(i + d, i / 5)
  {
  }

  /** Lane by lane, this is chi. */
  lemma ChiBits(a: State, i: nat, z: nat)
    requires i < 25 && z < 64
    ensures BitAt(ChiLane(a, i), z) == F.ChiBit(CubeOf(a), i % 5, i / 5, z)
  {
    hide Mix, BitAt, F.Bit, F.Index, CubeOf;
    MixBit(a[i], a[F.Index(i + 1, i / 5)], a[F.Index(i + 2, i / 5)], z);
    PartsIndex(i);
    ChiIndex(i, 1);
    ChiIndex(i, 2);
    BitOf(a, i % 5, i / 5, z); BitOf(a, i % 5 + 1, i / 5, z); BitOf(a, i % 5 + 2, i / 5, z);
  }

  lemma ChiWhole(a: State, s: State)
    requires forall i :: 0 <= i < 25 ==> s[i] == ChiLane(a, i)
    ensures CubeOf(s) == F.Chi(CubeOf(a))
  {
    hide ChiLane, BitAt, F.ChiBit;
    forall i, z | 0 <= i < 25 && 0 <= z < 64
      ensures CubeOf(s)[i][z] == F.Chi(CubeOf(a))[i][z]
    {
      ChiBits(a, i, z);
    }
    SameCube(CubeOf(s), F.Chi(CubeOf(a)));
  }

  // ------------------------------------------------------------------ iota

  lemma IotaWhole(a: State, round: nat, c: Lane)
    requires forall z :: 0 <= z < 64 ==> BitAt(c, z) == F.ConstantBit(round, z)
    ensures CubeOf(a[0 := Xor(a[0], c)]) == F.Iota(CubeOf(a), round)
  {
    hide Xor, BitAt, F.ConstantBit;
    var s: State := a[0 := Xor(a[0], c)];
    forall i, z | 0 <= i < 25 && 0 <= z < 64
      ensures CubeOf(s)[i][z] == F.Iota(CubeOf(a), round)[i][z]
    {
      XorBit(a[0], c, z);
    }
    SameCube(CubeOf(s), F.Iota(CubeOf(a), round));
  }

  // ------------------------------------------------------------------ absorbing a block

  /** Lane i when the block has been combined with the first 17 lanes. */
  function JoinedLane(a: State, block: seq<bv8>, i: nat): Lane
    requires |block| == 136 && i < 25
  {
    if i < 17 then Xor(a[i], LoadLane(block[8 * i..8 * i + 8])) else a[i]
  }

  lemma JoinedBits(a: State, block: seq<bv8>, i: nat, z: nat)
    requires |block| == 136 && i < 17 && z < 64
    ensures |F.BitsOf(block)| == 1088
    ensures BitAt(JoinedLane(a, block, i), z) == (BitAt(a[i], z) != F.BitsOf(block)[64 * i + z])
  {
    hide Xor, LoadLane, BitAt, F.BitsOf, F.ByteBits;
    var b := block[8 * i..8 * i + 8];
    var k, j := z / 8, z % 8;
    XorBit(a[i], LoadLane(b), z);
    WordOfBytes(b);
    BitsAt(b, k, j);
    BitsAt(block, 8 * i + k, j);
    assert WordOf(LoadLane(b))[z] == BitAt(LoadLane(b), z);
    assert b[k] == block[8 * i + k];
  }

  lemma JoinedWhole(a: State, block: seq<bv8>, s: State)
    requires |block| == 136
    requires forall i :: 0 <= i < 25 ==> s[i] == JoinedLane(a, block, i)
    ensures |F.BitsOf(block)| == 1088 && CubeOf(s) == F.Joined(CubeOf(a), F.BitsOf(block))
  {
    hide Xor, LoadLane, BitAt, F.BitsOf;
    F.BitsLength(block);
    var p := F.BitsOf(block);
    forall i, z | 0 <= i < 25 && 0 <= z < 64
      ensures CubeOf(s)[i][z] == F.Joined(CubeOf(a), p)[i][z]
    {
      if i < 17 {
        JoinedBits(a, block, i, z);
      }
    }
    SameCube(CubeOf(s), F.Joined(CubeOf(a), p));
  }
}
