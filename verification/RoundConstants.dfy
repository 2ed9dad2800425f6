/** The table of round constants, read off the feedback shift register of FIPS 202. */
module RoundConstants {
  import opened LaneBits
  import F = Fips202

  const RC: seq<Lane> := [
    0x0000000000000001, 0x0000000000008082, 0x800000000000808a, 0x8000000080008000,
    0x000000000000808b, 0x0000000080000001, 0x8000000080008081, 0x8000000000008009,
    0x000000000000008a, 0x0000000000000088, 0x0000000080008009, 0x000000008000000a,
    0x000000008000808b, 0x800000000000008b, 0x8000000000008089, 0x8000000000008003,
    0x8000000000008002, 0x8000000000000080, 0x000000000000800a, 0x800000008000000a,
    0x8000000080008081, 0x8000000000008080, 0x0000000080000001, 0x8000000080008008]

  /** The feedback register as a byte: bit k of the byte is R[k]. */
  function Shift(r: bv8): bv8 {
    (r << 1) ^ (if r & 0x80 == 0 then 0 else 0x71)
  }

  function Register(t: nat): bv8 {
    if t == 0 then 1 else Shift(Register(t - 1))
  }

  predicate Odd(r: bv8) {
    r & 1 == 1
  }

  /** The bit rc(t), for t below the register's period 255. */
  function Rc(t: nat): bool {
    Odd(Register(t))
  }

  /** The word with these bits at positions 0, 1, 3, 7, 15, 31 and 63. */
  function Combine(b0: bool, b1: bool, b2: bool, b3: bool, b4: bool, b5: bool, b6: bool): Lane {
    (if b0 then 0x1 else 0) | (if b1 then 0x2 else 0) | (if b2 then 0x8 else 0) | (if b3 then 0x80 else 0)
    | (if b4 then 0x8000 else 0) | (if b5 then 0x8000_0000 else 0) | (if b6 then 0x8000_0000_0000_0000 else 0)
  }

  function RoundConstant(round: nat): Lane {
    var t := 7 * round;
    Combine(Rc(t), Rc(t + 1), Rc(t + 2), Rc(t + 3), Rc(t + 4), Rc(t + 5), Rc(t + 6))
  }

  /** The feedback register at the start of every round. */
  const REGISTERS: seq<bv8> := [
    0x01, 0x80, 0xd8, 0x1a, 0xdf, 0x09, 0x35, 0x4f,
    0xca, 0x70, 0x41, 0xec, 0xd5, 0xcd, 0x63, 0xab,
    0xaa, 0x2a, 0xf2, 0xe8, 0x37, 0x3e, 0x0b, 0x44]

  function Shift7(r: bv8): bv8 {
    Shift(Shift(Shift(Shift(Shift(Shift(Shift(r)))))))
  }

  lemma Shift7Values()
    ensures Shift7(0x01) == 0x80 && Shift7(0x80) == 0xd8 && Shift7(0xd8) == 0x1a && Shift7(0x1a) == 0xdf
    ensures Shift7(0xdf) == 0x09 && Shift7(0x09) == 0x35 && Shift7(0x35) == 0x4f && Shift7(0x4f) == 0xca
    ensures Shift7(0xca) == 0x70 && Shift7(0x70) == 0x41 && Shift7(0x41) == 0xec && Shift7(0xec) == 0xd5
    ensures Shift7(0xd5) == 0xcd && Shift7(0xcd) == 0x63 && Shift7(0x63) == 0xab && Shift7(0xab) == 0xaa
    ensures Shift7(0xaa) == 0x2a && Shift7(0x2a) == 0xf2 && Shift7(0xf2) == 0xe8 && Shift7(0xe8) == 0x37
    ensures Shift7(0x37) == 0x3e && Shift7(0x3e) == 0x0b && Shift7(0x0b) == 0x44
  {
  }

  lemma SevenSteps(t: nat)
    ensures Register(t + 7) == Shift7(Register(t))
  {
    hide Shift;
    SixSteps(t);
  }

  lemma RegisterValues()
    ensures Register(0) == 0x01 && Register(7) == 0x80 && Register(14) == 0xd8 && Register(21) == 0x1a
    ensures Register(28) == 0xdf && Register(35) == 0x09 && Register(42) == 0x35 && Register(49) == 0x4f
    ensures Register(56) == 0xca && Register(63) == 0x70 && Register(70) == 0x41 && Register(77) == 0xec
    ensures Register(84) == 0xd5 && Register(91) == 0xcd && Register(98) == 0x63 && Register(105) == 0xab
    ensures Register(112) == 0xaa && Register(119) == 0x2a && Register(126) == 0xf2 && Register(133) == 0xe8
    ensures Register(140) == 0x37 && Register(147) == 0x3e && Register(154) == 0x0b && Register(161) == 0x44
  {
    assert Register(0) == 1;
    hide Shift7, Register, Shift;
    Shift7Values();
    SevenSteps(0); SevenSteps(7); SevenSteps(14); SevenSteps(21); SevenSteps(28); SevenSteps(35);
    SevenSteps(42); SevenSteps(49); SevenSteps(56); SevenSteps(63); SevenSteps(70); SevenSteps(77);
    SevenSteps(84); SevenSteps(91); SevenSteps(98); SevenSteps(105); SevenSteps(112); SevenSteps(119);
    SevenSteps(126); SevenSteps(133); SevenSteps(140); SevenSteps(147); SevenSteps(154);
  }

  lemma RegisterAt(k: nat)
    requires k < 24
    ensures Register(7 * k) == REGISTERS[k]
  {
    hide Register, Shift;
    RegisterValues();
  }

  /** The constant that a round reads off its register. */
  function ConstantOf(r: bv8): Lane {
    var r1 := Shift(r);
    var r2 := Shift(r1);
    var r3 := Shift(r2);
    var r4 := Shift(r3);
    var r5 := Shift(r4);
    var r6 := Shift(r5);
    Combine(Odd(r), Odd(r1), Odd(r2), Odd(r3), Odd(r4), Odd(r5), Odd(r6))
  }

  lemma ConstantValues0()
    ensures ConstantOf(0x01) == 0x0000000000000001 && ConstantOf(0x80) == 0x0000000000008082
    ensures ConstantOf(0xd8) == 0x800000000000808a && ConstantOf(0x1a) == 0x8000000080008000
    ensures ConstantOf(0xdf) == 0x000000000000808b && ConstantOf(0x09) == 0x0000000080000001
  {
  }

  lemma ConstantValues1()
    ensures ConstantOf(0x35) == 0x8000000080008081 && ConstantOf(0x4f) == 0x8000000000008009
    ensures ConstantOf(0xca) == 0x000000000000008a && ConstantOf(0x70) == 0x0000000000000088
    ensures ConstantOf(0x41) == 0x0000000080008009 && ConstantOf(0xec) == 0x000000008000000a
  {
  }

  lemma ConstantValues2()
    ensures ConstantOf(0xd5) == 0x000000008000808b && ConstantOf(0xcd) == 0x800000000000008b
    ensures ConstantOf(0x63) == 0x8000000000008089 && ConstantOf(0xab) == 0x8000000000008003
    ensures ConstantOf(0xaa) == 0x8000000000008002 && ConstantOf(0x2a) == 0x8000000000000080
  {
  }

  lemma ConstantValues3()
    ensures ConstantOf(0xf2) == 0x000000000000800a && ConstantOf(0xe8) == 0x800000008000000a
    ensures ConstantOf(0x37) == 0x8000000080008081 && ConstantOf(0x3e) == 0x8000000000008080
    ensures ConstantOf(0x0b) == 0x0000000080000001 && ConstantOf(0x44) == 0x8000000080008008
  {
  }

  lemma ConstantTable(k: nat)
    requires k < 24
    ensures ConstantOf(REGISTERS[k]) == RC[k]
  {
    hide ConstantOf;
    ConstantValues0(); ConstantValues1(); ConstantValues2(); ConstantValues3();
  }

  lemma SixSteps(t: nat)
    ensures var r := Register(t);
            && Register(t + 1) == Shift(r) && Register(t + 2) == Shift(Shift(r))
              && Register(t + 3) == Shift(Shift(Shift(r)))
            && Register(t + 4) == Shift(Shift(Shift(Shift(r))))
              && Register(t + 5) == Shift(Shift(Shift(Shift(Shift(r)))))
            && Register(t + 6) == Shift(Shift(Shift(Shift(Shift(Shift(r))))))
  {
    hide Shift;
    assert Register(t + 1) == Shift(Register(t)) && Register(t + 2) == Shift(Register(t + 1));
    assert Register(t + 3) == Shift(Register(t + 2)) && Register(t + 4) == Shift(Register(t + 3));
    assert Register(t + 5) == Shift(Register(t + 4)) && Register(t + 6) == Shift(Register(t + 5));
  }

  lemma ConstantFromRegister(round: nat)
    ensures RoundConstant(round) == ConstantOf(Register(7 * round))
  {
    hide Shift, Combine, Odd, Register;
    SixSteps(7 * round);
  }

  lemma ConstantIs(round: nat)
    requires round < 24
    ensures RC[round] == RoundConstant(round)
  {
    hide ConstantOf, RoundConstant;
    ConstantFromRegister(round);
    RegisterAt(round);
    ConstantTable(round);
  }

  lemma ShiftBits(r: bv8)
    ensures F.ByteBits(Shift(r)) == F.Shift(F.ByteBits(r))
  {
  }

  lemma {:induction false} RegisterBits(t: nat)
    ensures F.ByteBits(Register(t)) == F.Register(t)
  {
    if t > 0 {
      hide Shift, F.Shift, F.ByteBits;
      RegisterBits(t - 1);
      ShiftBits(Register(t - 1));
    }
  }

  lemma RcBit(t: nat)
    ensures Rc(t) == F.Rc(t)
  {
    hide Register, F.Register;
    RegisterBits(t);
  }

  /** The bits of a word made by Combine. */
  predicate Combined(b0: bool, b1: bool, b2: bool, b3: bool, b4: bool, b5: bool, b6: bool, z: nat) {
    if z == 0 then b0 else if z == 1 then b1 else if z == 3 then b2
    else if z == 7 then b3 else if z == 15 then b4 else if z == 31 then b5 else z == 63 && b6
  }

  function FirstConstantByte(b0: bool, b1: bool, b2: bool, b3: bool): bv8 {
    (if b0 then 1 else 0) | (if b1 then 2 else 0) | (if b2 then 8 else 0) | (if b3 then 0x80 else 0)
  }

  function TopOrNone(b: bool): bv8 {
    if b then 0x80 else 0
  }

  lemma CombineBytes(b0: bool, b1: bool, b2: bool, b3: bool, b4: bool, b5: bool, b6: bool)
    ensures LaneBytes(Combine(b0, b1, b2, b3, b4, b5, b6))
            == [FirstConstantByte(b0, b1, b2, b3), TopOrNone(b4), 0, TopOrNone(b5), 0, 0, 0, TopOrNone(b6)]
  {
  }

  lemma FirstBit(b0: bool, b1: bool, b2: bool, b3: bool, i: nat)
    requires i < 8
    ensures F.ByteBits(FirstConstantByte(b0, b1, b2, b3))[i]
            == if i == 0 then b0 else if i == 1 then b1 else if i == 3 then b2 else i == 7 && b3
  {
  }

  lemma TopBit(b: bool, i: nat)
    requires i < 8
    ensures F.ByteBits(TopOrNone(b))[i] == (i == 7 && b) && !F.ByteBits(0)[i]
  {
  }

  lemma CombinedAt(b0: bool, b1: bool, b2: bool, b3: bool, b4: bool, b5: bool, b6: bool, k: nat, i: nat)
    requires k < 8 && i < 8
    ensures Combined(b0, b1, b2, b3, b4, b5, b6, 8 * k + i)
            == if k == 0 then if i == 0 then b0 else if i == 1 then b1 else if i == 3 then b2 else i == 7 && b3
               else i == 7 && if k == 1 then b4 else if k == 3 then b5 else k == 7 && b6
  {
  }

  lemma CombineBit(b0: bool, b1: bool, b2: bool, b3: bool, b4: bool, b5: bool, b6: bool, k: nat, i: nat)
    requires k < 8 && i < 8
    ensures BitAt(Combine(b0, b1, b2, b3, b4, b5, b6), 8 * k + i) == Combined(b0, b1, b2, b3, b4, b5, b6, 8 * k + i)
  {
    hide Combine, Combined, FirstConstantByte, TopOrNone, LaneBytes, BitAt, F.ByteBits;
    ByteAt(Combine(b0, b1, b2, b3, b4, b5, b6), k, i);
    CombineBytes(b0, b1, b2, b3, b4, b5, b6);
    CombinedAt(b0, b1, b2, b3, b4, b5, b6, k, i);
    match k
    case 0 => FirstBit(b0, b1, b2, b3, i);
    case 1 => TopBit(b4, i);
    case 3 => TopBit(b5, i);
    case 7 => TopBit(b6, i);
    case _ => TopBit(false, i);
  }

  /** The table of round constants has the bits that the feedback register generates. */
  lemma TableBit(round: nat, z: nat)
    requires round < 24 && z < 64
    ensures BitAt(RC[round], z) == F.ConstantBit(round, z)
  {
    hide BitAt, Combine, Rc, F.Rc, RC;
    var t := 7 * round;
    ConstantIs(round);
    CombineBit(Rc(t), Rc(t + 1), Rc(t + 2), Rc(t + 3), Rc(t + 4), Rc(t + 5), Rc(t + 6), z / 8, z % 8);
    RcBit(t); RcBit(t + 1); RcBit(t + 2); RcBit(t + 3); RcBit(t + 4); RcBit(t + 5); RcBit(t + 6);
  }
}
