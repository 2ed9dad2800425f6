/** The program's Keccak-256: one array of lanes rewritten in place, and byte padding. */
module Keccak {
  import opened Wrappers
  import opened LaneBits
  import opened LaneSteps
  import opened RoundConstants
  import F = Fips202

  const RATE: nat := 136

  const ROTC: seq<bv6> := [1, 3, 6, 10, 15, 21, 28, 36, 45, 55, 2, 14, 27, 41, 56, 8, 25, 43, 62, 18, 39, 61, 20, 44]
  const PILN: seq<nat> := [10, 7, 11, 17, 18, 3, 5, 16, 8, 21, 24, 4, 15, 23, 19, 13, 12, 2, 20, 14, 22, 9, 6, 1]

  // ------------------------------------------------------------------ the rho and pi walk

  /** The lane that step j of the walk moves. */
  function Source(j: nat): (i: nat)
    requires j <= 24
    ensures i < 25
  {
    if j == 0 then 1 else PILN[j - 1]
  }

  /** The step that moves lane i. */
  const STEP: seq<nat> := [
    0, 0, 18, 6, 12, 7, 23, 2, 9, 22, 1, 3, 17,
    16, 20, 13, 8, 4, 5, 15, 19, 10, 21, 14, 11]

  /** The lane after lane s on the walk. */
  function Step(s: nat): nat {
    s / 5 + 5 * ((2 * (s % 5) + 3 * (s / 5)) % 5)
  }

  lemma StepIsIndex(s: nat)
    requires s < 25
    ensures Step(s) == F.Index(s / 5, 2 * (s % 5) + 3 * (s / 5))
  {
  }

  lemma StepIs(x: nat, y: nat, z: nat, q: nat)
    requires x < 5 && y < 5 && z < 5 && 2 * x + 3 * y == 5 * q + z
    ensures Step(x + 5 * y) == y + 5 * z
  {
    hide Step;
    Fifths(x, y);
    Fifths(z, q);
    StepParts(x + 5 * y, x, y);
  }

  lemma Fifths(r: nat, q: nat)
    requires r < 5
    ensures (r + 5 * q) % 5 == r && (r + 5 * q) / 5 == q
  {
  }

  lemma StepParts(s: nat, x: nat, y: nat)
    requires s % 5 == x && s / 5 == y
    ensures Step(s) == y + 5 * ((2 * x + 3 * y) % 5)
  {
  }

  lemma StepValues0()
    ensures Step(1) == 10 && Step(10) == 7 && Step(7) == 11 && Step(11) == 17 && Step(17) == 18 && Step(18) == 3
  {
    hide Step;
    StepIs(1, 0, 2, 0); StepIs(0, 2, 1, 1); StepIs(2, 1, 2, 1);
    StepIs(1, 2, 3, 1); StepIs(2, 3, 3, 2); StepIs(3, 3, 0, 3);
  }

  lemma StepValues1()
    ensures Step(3) == 5 && Step(5) == 16 && Step(16) == 8 && Step(8) == 21 && Step(21) == 24 && Step(24) == 4
  {
    hide Step;
    StepIs(3, 0, 1, 1); StepIs(0, 1, 3, 0); StepIs(1, 3, 1, 2);
    StepIs(3, 1, 4, 1); StepIs(1, 4, 4, 2); StepIs(4, 4, 0, 4);
  }

  lemma StepValues2()
    ensures Step(4) == 15 && Step(15) == 23 && Step(23) == 19 && Step(19) == 13 && Step(13) == 12 && Step(12) == 2
  {
    hide Step;
    StepIs(4, 0, 3, 1); StepIs(0, 3, 4, 1); StepIs(3, 4, 3, 3);
    StepIs(4, 3, 2, 3); StepIs(3, 2, 2, 2); StepIs(2, 2, 0, 2);
  }

  lemma StepValues3()
    ensures Step(2) == 20 && Step(20) == 14 && Step(14) == 22 && Step(22) == 9 && Step(9) == 6 && Step(6) == 1
  {
    hide Step;
    StepIs(2, 0, 4, 0); StepIs(0, 4, 2, 2); StepIs(4, 2, 4, 2);
    StepIs(2, 4, 1, 3); StepIs(4, 1, 1, 2); StepIs(1, 1, 0, 1);
  }

  lemma WalkNext(j: nat)
    requires j < 24
    ensures 1 <= Source(j) < 25 && Source(j + 1) == F.Index(Source(j) / 5, 2 * (Source(j) % 5) + 3 * (Source(j) / 5))
  {
    hide Step, F.Index;
    StepValues0(); StepValues1(); StepValues2(); StepValues3();
    assert 1 <= Source(j) < 25 && Source(j + 1) == Step(Source(j));
    StepIsIndex(Source(j));
  }

  lemma WalkStep(j: nat)
    requires j < 24
    ensures 1 <= Source(j) < 25 && STEP[Source(j)] == j
  {
  }

  function Offset(j: nat): bv6
    requires j < 24
  {
    ROTC[j]
  }

  function Turns(j: nat): nat
    requires j < 24
  {
    Offset(j) as nat
  }

  lemma TurnsValues0()
    ensures Turns(0) == 1 && Turns(1) == 3 && Turns(2) == 6 && Turns(3) == 10
    ensures Turns(4) == 15 && Turns(5) == 21
  {
  }

  lemma TurnsValues1()
    ensures Turns(6) == 28 && Turns(7) == 36 && Turns(8) == 45 && Turns(9) == 55
    ensures Turns(10) == 2 && Turns(11) == 14
  {
  }

  lemma TurnsValues2()
    ensures Turns(12) == 27 && Turns(13) == 41 && Turns(14) == 56 && Turns(15) == 8
    ensures Turns(16) == 25 && Turns(17) == 43 && Turns(18) == 62 && Turns(19) == 18
    ensures Turns(20) == 39 && Turns(21) == 61 && Turns(22) == 20 && Turns(23) == 44
  {
  }

  lemma TriangleValues()
    ensures F.Triangle(0) % 64 == 1 && F.Triangle(1) % 64 == 3 && F.Triangle(2) % 64 == 6
    ensures F.Triangle(3) % 64 == 10 && F.Triangle(4) % 64 == 15 && F.Triangle(5) % 64 == 21
    ensures F.Triangle(6) % 64 == 28 && F.Triangle(7) % 64 == 36 && F.Triangle(8) % 64 == 45
    ensures F.Triangle(9) % 64 == 55 && F.Triangle(10) % 64 == 2 && F.Triangle(11) % 64 == 14
    ensures F.Triangle(12) % 64 == 27 && F.Triangle(13) % 64 == 41 && F.Triangle(14) % 64 == 56
    ensures F.Triangle(15) % 64 == 8 && F.Triangle(16) % 64 == 25 && F.Triangle(17) % 64 == 43
    ensures F.Triangle(18) % 64 == 62 && F.Triangle(19) % 64 == 18 && F.Triangle(20) % 64 == 39
    ensures F.Triangle(21) % 64 == 61 && F.Triangle(22) % 64 == 20 && F.Triangle(23) % 64 == 44
  {
  }

  /** The table of offsets is that of the algorithm. */
  lemma WalkOffset(j: nat)
    requires j < 24
    ensures Turns(j) == F.Triangle(j) % 64
  {
    hide F.Triangle, Turns;
    TurnsValues0(); TurnsValues1(); TurnsValues2();
    TriangleValues();
  }

  lemma IndexParts(x: nat, y: nat)
    ensures F.Index(x, y) % 5 == x % 5 && F.Index(x, y) / 5 == y % 5
  {
  }

  /** One step of the walk, undone by pi's choice of source. */
  lemma StepBack(x: nat, y: nat)
    requires x < 5 && y < 5
    ensures F.PiSource(F.Index(y, 2 * x + 3 * y)) == F.Index(x, y)
  {
    hide F.Index;
    var z := 2 * x + 3 * y;
    IndexParts(y, z);
    BackToX(x, y);
    SourceParts(F.Index(y, z), y % 5, z % 5);
    IndexSame(y + 3 * (z % 5), y, x, y);
  }

  lemma SourceParts(i: nat, x: nat, y: nat)
    requires i < 25 && i % 5 == x && i / 5 == y
    ensures F.PiSource(i) == F.Index(x + 3 * y, x)
  {
    hide F.Index;
  }

  lemma BackToX(x: nat, y: nat)
    requires x < 5 && y < 5
    ensures (y + 3 * ((2 * x + 3 * y) % 5)) % 5 == x % 5
  {
    var q := (2 * x + 3 * y) / 5;
    assert y + 3 * ((2 * x + 3 * y) % 5) == 5 * (x + 2 * y - 3 * q) + x;
  }

  lemma IndexSame(x: nat, y: nat, x': nat, y': nat)
    requires x % 5 == x' % 5 && y % 5 == y' % 5
    ensures F.Index(x, y) == F.Index(x', y')
  {
  }

  lemma WalkTarget(j: nat)
    requires j < 24
    ensures F.PiSource(PILN[j]) == Source(j)
  {
    hide F.PiSource, F.Index;
    WalkNext(j);
    var s := Source(j);
    PartsIndex(s);
    StepBack(s % 5, s / 5);
  }

  lemma WalkStart()
    ensures Source(0) == 1 && F.Walk(0) == (1, 0)
  {
  }

  lemma WalkUnfold(j: nat, x: nat, y: nat)
    requires j > 0 && F.Walk(j - 1) == (x, y)
    ensures F.Walk(j) == (y, (2 * x + 3 * y) % 5)
  {
  }

  /** From a lane of the table the walk goes on to the next. */
  lemma WalkOn(j: nat)
    requires 0 < j < 24 && F.Walk(j - 1) == (Source(j - 1) % 5, Source(j - 1) / 5)
    ensures F.Walk(j) == (Source(j) % 5, Source(j) / 5)
  {
    hide Source, F.Index, F.Walk;
    var x, y := Source(j - 1) % 5, Source(j - 1) / 5;
    WalkUnfold(j, x, y);
    WalkNext(j - 1);
    PartsIndex(Source(j - 1));
    IndexParts(y, 2 * x + 3 * y);
  }

  /** The table follows the walk of the rho algorithm. */
  lemma {:induction false} WalkAt(j: nat)
    requires j < 24
    ensures F.Walk(j) == (Source(j) % 5, Source(j) / 5) && F.WalkIndex(j) == Source(j)
  {
    hide Source, F.Index, F.Walk, F.WalkIndex;
    if j == 0 {
      WalkStart();
    } else {
      WalkAt(j - 1);
      WalkOn(j);
    }
    PartsIndex(Source(j));
    WalkIndexIs(j, Source(j) % 5, Source(j) / 5);
  }

  lemma WalkIndexIs(j: nat, x: nat, y: nat)
    requires F.Walk(j) == (x, y)
    ensures F.WalkIndex(j) == F.Index(x, y)
  {
    hide F.Walk, F.Index;
  }

  /** The step that moves a lane is the one whose source it is. */
  lemma StepSource(i: nat)
    requires 1 <= i < 25
    ensures STEP[i] < 24 && Source(STEP[i]) == i
  {
    var j := STEP[i];
    assert j < 24;
  }

  /** What n steps of rho leave in lane i. */
  function Turned(a: F.Cube, n: nat, i: nat): F.Word
    requires n <= 24 && i < 25
  {
    if i > 0 && STEP[i] < n then F.Turn(a[i], F.Triangle(STEP[i])) else a[i]
  }

  lemma RhoUnfold(a: F.Cube, n: nat)
    ensures var i := F.WalkIndex(n); F.RhoSteps(a, n + 1) == F.RhoSteps(a, n)[i := F.Turn(a[i], F.Triangle(n))]
  {
    hide F.Turn, F.WalkIndex, F.Triangle;
  }

  lemma TurnedNext(a: F.Cube, n: nat, i: nat)
    requires n < 24 && i < 25
    ensures Turned(a, n + 1, i) == if i == Source(n) then F.Turn(a[i], F.Triangle(n)) else Turned(a, n, i)
  {
    hide F.Turn, F.Triangle, Source;
    WalkStep(n);
    if i > 0 {
      StepSource(i);
    }
  }

  /** Every step of rho turns one lane that no other step touches. */
  lemma {:induction false} RhoLane(a: F.Cube, n: nat, i: nat)
    requires n <= 24 && i < 25
    ensures F.RhoSteps(a, n)[i] == Turned(a, n, i)
  {
    if n > 0 {
      hide F.Turn, F.WalkIndex, F.Triangle, Source, F.RhoSteps, Turned, STEP;
      RhoLane(a, n - 1, i);
      RhoUnfold(a, n - 1);
      WalkAt(n - 1);
      TurnedNext(a, n - 1, i);
    }
  }

  /** The step of the chain that fills lane l. */
  function Target(l: nat): nat
    requires 1 <= l < 25
  {
    if STEP[l] == 0 then 23 else STEP[l] - 1
  }

  lemma TargetOf(j: nat)
    requires j < 24
    ensures 1 <= PILN[j] < 25 && Target(PILN[j]) == j && PILN[j] == Source(j + 1)
  {
    if j < 23 {
      WalkStep(j + 1);
    }
  }

  lemma TargetLane(l: nat)
    requires 1 <= l < 25
    ensures Target(l) < 24 && PILN[Target(l)] == l
  {
    StepSource(l);
  }

  /** What the first n steps of the chain leave in lane l. */
  function Moved(a: State, n: nat, l: nat): Lane
    requires n <= 24 && l < 25
  {
    if l > 0 && Target(l) < n then Rotl(a[F.PiSource(l)], Offset(Target(l))) else a[l]
  }

  lemma PiAt(a: F.Cube, l: nat)
    requires l < 25
    ensures F.Pi(a)[l] == a[F.PiSource(l)] && (l == 0 ==> F.PiSource(l) == 0)
  {
  }

  /** After its 24 steps the chain has done rho and then pi. */
  lemma MovedIsPiRho(a: State, l: nat)
    requires l < 25
    ensures WordOf(Moved(a, 24, l)) == F.Pi(F.Rho(CubeOf(a)))[l]
  {
    hide Rotl, F.Turn, F.PiSource, Source, Target, F.RhoSteps, F.Pi, Offset, WordOf, F.Triangle, STEP;
    var i := F.PiSource(l);
    PiAt(F.Rho(CubeOf(a)), l);
    RhoLane(CubeOf(a), 24, i);
    if l > 0 {
      var j := Target(l);
      TargetLane(l);
      WalkTarget(j);
      WalkStep(j);
      OffsetTurns(a[i], j);
    }
  }

  lemma OffsetTurns(v: Lane, j: nat)
    requires j < 24
    ensures WordOf(Rotl(v, Offset(j))) == F.Turn(WordOf(v), F.Triangle(j))
  {
    hide Rotl, WordOf, F.Turn, F.Triangle, Offset;
    WalkOffset(j);
    RotlTurns(v, Offset(j), F.Triangle(j));
  }

  lemma MovedStart(a: State, l: nat)
    requires l < 25
    ensures Moved(a, 0, l) == a[l]
  {
    hide Target;
  }

  lemma MovedStep(a: State, i: nat, l: nat)
    requires i < 24 && l < 25
    ensures PILN[i] == Source(i + 1) && Moved(a, i, PILN[i]) == a[PILN[i]]
    ensures Moved(a, i + 1, l) == if l == PILN[i] then Rotl(a[Source(i)], Offset(i)) else Moved(a, i, l)
  {
    hide Rotl, F.PiSource, Source, Target, Offset;
    TargetOf(i);
    WalkTarget(i);
    if l > 0 {
      TargetLane(l);
    }
  }

  // ------------------------------------------------------------------ the steps in place

  /** Lane l when theta has reached row k of column i. */
  function Swept(a: State, i: nat, k: nat, l: nat): Lane
    requires l < 25
  {
    if l % 5 < i || (l % 5 == i && l < 5 * k + i) then ThetaLane(a, l) else a[l]
  }

  lemma SweptStep(a: State, i: nat, k: nat, l: nat)
    requires i < 5 && k < 5 && l < 25
    ensures Swept(a, i, k, 5 * k + i) == a[5 * k + i]
    ensures Swept(a, i, k + 1, l) == if l == 5 * k + i then ThetaLane(a, l) else Swept(a, i, k, l)
  {
    hide ThetaLane;
  }

  lemma SweptEnds(a: State, i: nat, l: nat)
    requires i < 5 && l < 25
    ensures Swept(a, 0, 0, l) == a[l] && Swept(a, 5, 0, l) == ThetaLane(a, l)
    ensures Swept(a, i, 5, l) == Swept(a, i + 1, 0, l)
  {
    hide ThetaLane;
  }

  lemma ThetaLaneAt(a: State, k: nat, i: nat)
    requires k < 5 && i < 5
    ensures ThetaLane(a, 5 * k + i) == Xor(a[5 * k + i], ThetaEffect(a, i))
  {
    hide ThetaEffect;
    assert (5 * k + i) % 5 == i;
  }

  method Columns(st: array<Lane>) returns (bc: seq<Lane>)
    requires st.Length == 25
    ensures |bc| == 5 && forall x :: 0 <= x < 5 ==> bc[x] == Column(st[..], x)
  {
    hide Parity;
    bc := [0, 0, 0, 0, 0];
    for i := 0 to 5
      invariant |bc| == 5 && forall x :: 0 <= x < i ==> bc[x] == Column(st[..], x)
    {
      bc := bc[i := Parity(st[i], st[i + 5], st[i + 10], st[i + 15], st[i + 20])];
    }
  }

  /** The lanes when theta has reached row k of column i. */
  ghost predicate SweptTo(a: State, s: seq<Lane>, i: nat, k: nat) {
    |s| == 25 && forall l :: 0 <= l < 25 ==> s[l] == Swept(a, i, k, l)
  }

  lemma SweptToNext(a: State, s: seq<Lane>, i: nat, k: nat)
    requires i < 5 && k < 5 && SweptTo(a, s, i, k)
    ensures SweptTo(a, s[5 * k + i := Xor(s[5 * k + i], ThetaEffect(a, i))], i, k + 1)
  {
    hide ThetaEffect, Swept, ThetaLane, Xor;
    SweptStep(a, i, k, 5 * k + i);
    ThetaLaneAt(a, k, i);
    var t := s[5 * k + i := Xor(s[5 * k + i], ThetaEffect(a, i))];
    forall l | 0 <= l < 25 ensures t[l] == Swept(a, i, k + 1, l) { SweptStep(a, i, k, l); }
  }

  lemma SweptToEnds(a: State, s: seq<Lane>, i: nat)
    requires i < 5
    ensures SweptTo(a, a, 0, 0)
    ensures SweptTo(a, s, i, 5) ==> SweptTo(a, s, i + 1, 0)
    ensures SweptTo(a, s, 5, 0) ==> CubeOf(s) == F.Theta(CubeOf(a))
  {
    hide Swept, ThetaLane, CubeOf, F.Theta;
    forall l | 0 <= l < 25
      ensures Swept(a, 0, 0, l) == a[l] && Swept(a, i, 5, l) == Swept(a, i + 1, 0, l)
              && Swept(a, 5, 0, l) == ThetaLane(a, l)
    {
      SweptEnds(a, i, l);
    }
    if SweptTo(a, s, 5, 0) {
      ThetaWhole(a, s);
    }
  }

  method ThetaInPlace(st: array<Lane>)
    requires st.Length == 25
    modifies st
    ensures CubeOf(st[..]) == F.Theta(CubeOf(old(st[..])))
  {
    hide Column, Rotl, Xor, SweptTo, F.Theta, CubeOf;
    ghost var a: State := st[..];
    var bc := Columns(st);
    SweptToEnds(a, a, 0);
    for i := 0 to 5
      invariant SweptTo(a, st[..], i, 0)
    {
      var t := Xor(bc[(i + 4) % 5], Rotl(bc[(i + 1) % 5], 1));
      SweepColumn(st, a, i, t);
      SweptToEnds(a, st[..], i);
    }
    SweptToEnds(a, st[..], 0);
  }

  method XorLane(st: array<Lane>, l: nat, v: Lane)
    requires l < st.Length
    modifies st
    ensures st[..] == old(st[..])[l := Xor(old(st[..])[l], v)]
  {
    hide Xor;
    st[l] := Xor(st[l], v);
  }

  method SweepColumn(st: array<Lane>, ghost a: State, i: nat, t: Lane)
    requires st.Length == 25 && i < 5 && t == ThetaEffect(a, i) && SweptTo(a, st[..], i, 0)
    modifies st
    ensures SweptTo(a, st[..], i, 5)
  {
    hide ThetaEffect, SweptTo, Xor;
    for k := 0 to 5
      invariant SweptTo(a, st[..], i, k)
    {
      var j := 5 * k;
      SweptToNext(a, st[..], i, k);
      XorLane(st, j + i, t);
    }
  }

  method RhoPiInPlace(st: array<Lane>)
    requires st.Length == 25
    modifies st
    ensures CubeOf(st[..]) == F.Pi(F.Rho(CubeOf(old(st[..]))))
  {
    hide Rotl, F.PiSource, Source, Offset, Moved, F.Rho, F.Pi, WordOf;
    ghost var a: State := st[..];
    WalkStart();
    var t := st[1];
    forall l | 0 <= l < 25 ensures st[l] == Moved(a, 0, l) { MovedStart(a, l); }
    for i := 0 to 24
      invariant t == a[Source(i)]
      invariant forall l :: 0 <= l < 25 ==> st[l] == Moved(a, i, l)
    {
      TargetOf(i);
      var j := PILN[i];
      forall l | 0 <= l < 25
        ensures Moved(a, i, j) == a[j] && j == Source(i + 1)
        ensures Moved(a, i + 1, l) == if l == j then Rotl(a[Source(i)], Offset(i)) else Moved(a, i, l)
      {
        MovedStep(a, i, l);
      }
      var b := st[j];
      st[j] := Rotl(t, Offset(i));
      t := b;
    }
    forall l | 0 <= l < 25 ensures WordOf(st[l]) == F.Pi(F.Rho(CubeOf(a)))[l] { MovedIsPiRho(a, l); }
  }

  lemma IndexRow(k: nat, i: nat, d: nat)
    requires k < 5 && i < 5 && d < 5
    ensures F.Index(5 * k + i + d, (5 * k + i) / 5) == 5 * k + (i + d) % 5
  {
    assert (5 * k + i) / 5 == k;
  }

  /** Chi within row k. */
  lemma ChiLaneAt(a: State, k: nat, i: nat)
    requires k < 5 && i < 5
    ensures ChiLane(a, 5 * k + i) == Mix(a[5 * k + i], a[5 * k + (i + 1) % 5], a[5 * k + (i + 2) % 5])
  {
    hide Mix, F.Index;
    IndexRow(k, i, 1);
    IndexRow(k, i, 2);
  }

  method ChiInPlace(st: array<Lane>)
    requires st.Length == 25
    modifies st
    ensures CubeOf(st[..]) == F.Chi(CubeOf(old(st[..])))
  {
    hide Mix, ChiLane, CubeOf, F.Chi;
    ghost var a: State := st[..];
    for k := 0 to 5
      invariant forall l :: 0 <= l < 25 ==> st[l] == if l < 5 * k then ChiLane(a, l) else a[l]
    {
      var j := 5 * k;
      var b := st[j..j + 5];
      assert forall n :: 0 <= n < 5 ==> b[n] == a[j + n];
      for i := 0 to 5
        invariant forall l :: 0 <= l < 25 ==> st[l] == if l < j + i then ChiLane(a, l) else a[l]
      {
        ChiLaneAt(a, k, i);
        st[j + i] := Mix(b[i], b[(i + 1) % 5], b[(i + 2) % 5]);
      }
    }
    ChiWhole(a, st[..]);
  }

  method IotaInPlace(st: array<Lane>, round: nat)
    requires st.Length == 25 && round < 24
    modifies st
    ensures CubeOf(st[..]) == F.Iota(CubeOf(old(st[..])), round)
  {
    hide Xor, BitAt, F.ConstantBit, F.Iota, CubeOf;
    ghost var a: State := st[..];
    XorLane(st, 0, RC[round]);
    forall z | 0 <= z < 64 ensures BitAt(RC[round], z) == F.ConstantBit(round, z) { TableBit(round, z); }
    IotaWhole(a, round, RC[round]);
  }

  /** The 24 rounds, rewriting one array of lanes. */
  method F1600(st: array<Lane>)
    requires st.Length == 25
    modifies st
    ensures CubeOf(st[..]) == F.Permute(CubeOf(old(st[..])))
  {
    hide CubeOf, F.Theta, F.Rho, F.Pi, F.Chi, F.Iota;
    ghost var a := CubeOf(st[..]);
    for r := 0 to 24
      invariant CubeOf(st[..]) == F.Rounds(a, r)
    {
      ThetaInPlace(st);
      RhoPiInPlace(st);
      ChiInPlace(st);
      IotaInPlace(st, r);
    }
  }

  // ------------------------------------------------------------------ padding

  lemma {:induction false} BitsConcat(a: seq<bv8>, b: seq<bv8>)
    ensures F.BitsOf(a + b) == F.BitsOf(a) + F.BitsOf(b)
  {
    if b == [] {
      assert a + b == a;
      assert F.BitsOf(a) + F.BitsOf(b) == F.BitsOf(a);
    } else {
      hide F.BitsOf, F.ByteBits;
      var m := |b| - 1;
      BitsConcat(a, b[..m]);
      assert b == b[..m] + [b[m]] && a + b == a + b[..m] + [b[m]];
      BitsSnoc(b[..m], b[m]);
      BitsSnoc(a + b[..m], b[m]);
      Associative(F.BitsOf(a), F.BitsOf(b[..m]), F.ByteBits(b[m]));
    }
  }

  lemma BitsSnoc(b: seq<bv8>, c: bv8)
    ensures F.BitsOf(b + [c]) == F.BitsOf(b) + F.ByteBits(c)
  {
    hide F.ByteBits;
    assert (b + [c])[..|b|] == b;
  }

  lemma Associative(x: seq<bool>, y: seq<bool>, z: seq<bool>)
    ensures (x + y) + z == x + (y + z)
  {
  }

  lemma OneByte(c: bv8)
    ensures F.BitsOf([c]) == F.ByteBits(c)
  {
    hide F.ByteBits;
    assert [c][..0] == [];
    assert F.BitsOf([c]) == F.BitsOf([]) + F.ByteBits(c);
  }

  lemma ZeroConcat(m: nat, n: nat)
    ensures F.ZeroBits(m) + F.ZeroBits(n) == F.ZeroBits(m + n)
  {
  }

  lemma PadBytes()
    ensures F.ByteBits(0) == F.ZeroBits(8)
    ensures F.ByteBits(0x01) == [true] + F.ZeroBits(7)
    ensures F.ByteBits(0x80) == F.ZeroBits(7) + [true]
    ensures F.ByteBits(0x81) == [true] + F.ZeroBits(6) + [true]
  {
  }

  lemma {:induction false} BitsOfZeros(n: nat)
    ensures F.BitsOf(Fill<bv8>(0, n)) == F.ZeroBits(8 * n)
  {
    hide F.ByteBits;
    if n > 0 {
      BitsOfZeros(n - 1);
      assert Fill<bv8>(0, n)[..n - 1] == Fill<bv8>(0, n - 1);
      PadBytes();
      ZeroConcat(8 * (n - 1), 8);
    }
  }

  /** What follows the message when `zeros` zero bytes were appended. */
  function Tail(zeros: nat): seq<bv8> {
    if zeros == 0 then [0x81] else [0x01] + Fill<bv8>(0, zeros - 1) + [0x80]
  }

  lemma TailBits(zeros: nat)
    ensures F.BitsOf(Tail(zeros)) == [true] + F.ZeroBits(8 * zeros + 6) + [true]
  {
    hide F.ByteBits, F.BitsOf, F.ZeroBits;
    PadBytes();
    if zeros == 0 {
      OneByte(0x81);
    } else {
      var n := zeros - 1;
      BitsConcat([0x01] + Fill<bv8>(0, n), [0x80]);
      BitsConcat([0x01], Fill<bv8>(0, n));
      OneByte(0x01);
      OneByte(0x80);
      BitsOfZeros(n);
      TailShape(7, 8 * n, 7);
    }
  }

  lemma TailShape(a: nat, b: nat, c: nat)
    ensures [true] + F.ZeroBits(a) + F.ZeroBits(b) + (F.ZeroBits(c) + [true]) == [true] + F.ZeroBits(a + b + c) + [true]
  {
  }

  lemma PadCount(n: nat, zeros: nat)
    requires (n + 1 + zeros) % RATE == 0 && zeros < RATE
    ensures F.PadZeros(8 * n) == 8 * zeros + 6
  {
    var k := (n + 1 + zeros) / RATE;
    assert n + 1 + zeros == RATE * k;
    ModUnique(-8 * n - 2, -k, 8 * zeros + 6);
  }

  lemma ModUnique(x: int, k: int, r: nat)
    requires x == 1088 * k + r && r < 1088
    ensures x % 1088 == r
  {
  }

  /** `padded` is the message with pad10*1 appended, as bits. */
  ghost predicate PaddedFrom(data: seq<bv8>, padded: seq<bv8>) {
    F.BitsOf(padded) == F.BitsOf(data) + F.Pad101(8 * |data|)
  }

  /** The byte padding appends the bits of pad10*1. */
  lemma PadIsPad101(data: seq<bv8>, zeros: nat)
    requires (|data| + 1 + zeros) % RATE == 0 && zeros < RATE
    ensures PaddedFrom(data, data + Tail(zeros))
  {
    hide F.BitsOf, Tail, F.PadZeros, F.ZeroBits;
    BitsConcat(data, Tail(zeros));
    TailBits(zeros);
    PadCount(|data|, zeros);
  }

  lemma SetLastBit(data: seq<bv8>, zeros: nat)
    ensures var buf := data + [0x01] + Fill<bv8>(0, zeros);
            buf[|buf| - 1 := buf[|buf| - 1] | 0x80] == data + Tail(zeros)
  {
    var buf := data + [0x01] + Fill<bv8>(0, zeros);
    if zeros > 0 {
      assert Fill<bv8>(0, zeros)[zeros - 1 := 0x80] == Fill<bv8>(0, zeros - 1) + [0x80];
    }
  }

  method Pad(data: seq<bv8>) returns (buf: seq<bv8>)
    ensures PaddedFrom(data, buf) && |buf| % RATE == 0
  {
    hide F.BitsOf, Tail;
    buf := data + [0x01];
    ghost var zeros := 0;
    ghost var all := Gap(|data| + 1);
    while |buf| % RATE != 0
      invariant 0 <= zeros <= all && buf == data + [0x01] + Fill<bv8>(0, zeros)
      decreases all - zeros
    {
      Nearer(|data| + 1, zeros);
      buf := buf + [0];
      zeros := zeros + 1;
    }
    SetLastBit(data, zeros);
    PadIsPad101(data, zeros);
    buf := buf[|buf| - 1 := buf[|buf| - 1] | 0x80];
  }

  lemma Nearer(m: nat, zeros: nat)
    requires (m + zeros) % RATE != 0 && zeros <= Gap(m)
    ensures zeros < Gap(m)
  {
  }

  /** How far m is below the next multiple of the rate. */
  function Gap(m: nat): nat {
    (RATE - m % RATE) % RATE
  }

  // ------------------------------------------------------------------ the sponge

  lemma BitsSlice(buf: seq<bv8>, lo: nat, hi: nat)
    requires lo <= hi <= |buf|
    ensures |F.BitsOf(buf)| == 8 * |buf| && F.BitsOf(buf[lo..hi]) == F.BitsOf(buf)[8 * lo..8 * hi]
  {
    hide F.BitsOf;
    F.BitsLength(buf);
    F.BitsLength(buf[..lo]);
    F.BitsLength(buf[lo..hi]);
    BitsConcat(buf[..lo], buf[lo..hi]);
    BitsConcat(buf[..hi], buf[hi..]);
    assert buf[..hi] == buf[..lo] + buf[lo..hi] && buf == buf[..hi] + buf[hi..];
  }

  lemma AbsorbNext(buf: seq<bv8>, off: nat)
    requires off + RATE <= |buf|
    ensures |F.BitsOf(buf[off..off + RATE])| == 1088
    ensures F.Absorbed(F.BitsOf(buf[..off + RATE]))
            == F.Permute(F.Joined(F.Absorbed(F.BitsOf(buf[..off])), F.BitsOf(buf[off..off + RATE])))
  {
    hide F.Permute, F.Joined, F.BitsOf;
    BitsSlice(buf, 0, off + RATE);
    BitsSlice(buf, 0, off);
    BitsSlice(buf, off, off + RATE);
    AbsorbedNext(F.BitsOf(buf[..off]), F.BitsOf(buf[off..off + RATE]));
    assert buf[..off] == buf[0..off] && buf[..off + RATE] == buf[0..off + RATE];
    assert F.BitsOf(buf[..off + RATE]) == F.BitsOf(buf[..off]) + F.BitsOf(buf[off..off + RATE]);
  }

  lemma AbsorbedNext(p: seq<bool>, q: seq<bool>)
    requires |q| == 1088
    ensures F.Absorbed(p + q) == F.Permute(F.Joined(F.Absorbed(p), q))
  {
    hide F.Permute, F.Joined;
    assert (p + q)[..|p|] == p && (p + q)[|p|..] == q;
  }

  lemma SliceOfSlice(s: seq<bv8>, lo: nat, hi: nat, i: nat, j: nat)
    requires i <= j <= hi - lo && hi <= |s|
    ensures s[lo..hi][i..j] == s[lo + i..lo + j]
  {
    var whole := s[lo..hi];
    assert |whole| == hi - lo;
    forall k | 0 <= k < j - i
      ensures whole[i..j][k] == s[lo + i..lo + j][k]
    {
      assert whole[i..j][k] == whole[i + k] == s[lo + (i + k)];
    }
  }

  /** The state with the first n lanes of the block in. */
  ghost predicate JoinedTo(a: State, block: seq<bv8>, s: seq<Lane>, n: nat)
    requires |block| == RATE
  {
    |s| == 25 && forall l :: 0 <= l < 25 ==> s[l] == if l < n then JoinedLane(a, block, l) else a[l]
  }

  lemma JoinedToNext(a: State, block: seq<bv8>, s: seq<Lane>, n: nat)
    requires |block| == RATE && n < 17 && JoinedTo(a, block, s, n)
    ensures JoinedTo(a, block, s[n := Xor(s[n], LoadLane(block[8 * n..8 * n + 8]))], n + 1)
  {
    hide LoadLane, Xor;
    assert JoinedLane(a, block, n) == Xor(a[n], LoadLane(block[8 * n..8 * n + 8]));
    hide JoinedLane;
  }

  lemma JoinedToEnds(a: State, block: seq<bv8>, s: seq<Lane>)
    requires |block| == RATE
    ensures JoinedTo(a, block, a, 0) && |F.BitsOf(block)| == 1088
    ensures JoinedTo(a, block, s, 17) ==> CubeOf(s) == F.Joined(CubeOf(a), F.BitsOf(block))
  {
    hide LoadLane, Xor, CubeOf, F.Joined, F.BitsOf;
    F.BitsLength(block);
    if JoinedTo(a, block, s, 17) {
      JoinedWhole(a, block, s);
    }
  }

  method AbsorbBlock(st: array<Lane>, buf: seq<bv8>, off: nat)
    requires st.Length == 25 && off + RATE <= |buf|
    modifies st
    ensures |F.BitsOf(buf[off..off + RATE])| == 1088
    ensures CubeOf(st[..]) == F.Permute(F.Joined(CubeOf(old(st[..])), F.BitsOf(buf[off..off + RATE])))
  {
    hide F.Permute, LoadLane, F.Joined, JoinedTo, Xor, CubeOf, F.BitsOf;
    ghost var a: State := st[..];
    ghost var block := buf[off..off + RATE];
    JoinedToEnds(a, block, a);
    for i := 0 to 17
      invariant JoinedTo(a, block, st[..], i)
    {
      SliceOfSlice(buf, off, off + RATE, 8 * i, 8 * i + 8);
      JoinedToNext(a, block, st[..], i);
      XorLane(st, i, LoadLane(buf[off + 8 * i..off + 8 * i + 8]));
    }
    JoinedToEnds(a, block, st[..]);
    F1600(st);
  }

  lemma OutputBits(v0: Lane, v1: Lane, v2: Lane, v3: Lane)
    ensures var w: seq<bool> := WordOf(v0);
            F.BitsOf(LaneBytes(v0) + LaneBytes(v1) + LaneBytes(v2) + LaneBytes(v3))
            == w + WordOf(v1) + WordOf(v2) + WordOf(v3)
  {
    hide LaneBytes, WordOf, F.BitsOf;
    BytesOfWord(v0); BytesOfWord(v1); BytesOfWord(v2); BytesOfWord(v3);
    BitsConcat(LaneBytes(v0), LaneBytes(v1));
    BitsConcat(LaneBytes(v0) + LaneBytes(v1), LaneBytes(v2));
    BitsConcat(LaneBytes(v0) + LaneBytes(v1) + LaneBytes(v2), LaneBytes(v3));
  }

  method Output(st: array<Lane>) returns (out: seq<bv8>)
    requires st.Length == 25
    ensures |out| == 32 && F.BitsOf(out) == F.Squeezed(CubeOf(st[..]))
  {
    hide LaneBytes, WordOf, F.BitsOf;
    out := [];
    for i := 0 to 4
      invariant |out| == 8 * i
      invariant i == 1 ==> out == LaneBytes(st[0])
      invariant i == 2 ==> out == LaneBytes(st[0]) + LaneBytes(st[1])
      invariant i == 3 ==> out == LaneBytes(st[0]) + LaneBytes(st[1]) + LaneBytes(st[2])
      invariant i == 4 ==> out == LaneBytes(st[0]) + LaneBytes(st[1]) + LaneBytes(st[2]) + LaneBytes(st[3])
    {
      out := out + LaneBytes(st[i]);
    }
    OutputBits(st[0], st[1], st[2], st[3]);
  }

  lemma AbsorbNothing()
    ensures F.Absorbed(F.BitsOf([])) == F.ZeroCube()
  {
  }

  lemma {:induction false} ZeroBit(z: nat)
    ensures !BitAt(0, z)
    decreases z
  {
    if z > 0 {
      ZeroBit(z - 1);
    }
  }

  lemma ZeroLanes(a: State)
    requires forall i :: 0 <= i < 25 ==> a[i] == 0
    ensures CubeOf(a) == F.ZeroCube()
  {
    hide BitAt;
    forall i, z | 0 <= i < 25 && 0 <= z < 64
      ensures CubeOf(a)[i][z] == F.ZeroCube()[i][z]
    {
      ZeroBit(z);
    }
    SameCube(CubeOf(a), F.ZeroCube());
  }

  lemma WholeBlock(off: nat, length: nat)
    requires off % RATE == 0 && length % RATE == 0 && off < length
    ensures off + RATE <= length && (off + RATE) % RATE == 0
  {
  }

  /** The program's digest is the Keccak-256 digest, for every byte string. */
  method Sum256(data: seq<bv8>) returns (out: seq<bv8>)
    ensures |out| == 32 && F.IsKeccak256(data, out)
  {
    hide CubeOf, F.BitsOf, F.Pad101, F.Absorbed, F.Squeezed, F.Permute, F.Joined, F.ZeroCube;
    var st := new Lane[25](_ => 0);
    ZeroLanes(st[..]);
    var buf := Pad(data);
    F.BitsLength(data);
    var off := 0;
    AbsorbNothing();
    assert buf[..0] == [];
    while off < |buf|
      invariant off <= |buf| && off % RATE == 0
      invariant CubeOf(st[..]) == F.Absorbed(F.BitsOf(buf[..off]))
    {
      WholeBlock(off, |buf|);
      AbsorbNext(buf, off);
      AbsorbBlock(st, buf, off);
      off := off + RATE;
    }
    assert buf[..off] == buf;
    out := Output(st);
  }
}
