/** Byte strings and big-endian numbers. */
module Bytes {
  import opened Wrappers

  type byte = x: int | 0 <= x < 256

  const U64: nat := 0x1_0000_0000_0000_0000

  type uint64 = x: int | 0 <= x < U64

  type Address = a: seq<byte> | |a| == 20 witness Zeros(20)

  /** A missing address is written as no bytes at all. */
  function ToBytes(to: Option<Address>): seq<byte> {
    match to
    case None => []
    case Some(a) => a
  }

  function Pow256(k: nat): (p: nat)
    ensures 0 < p
  {
    if k == 0 then 1 else 256 * Pow256(k - 1)
  }

  /** All the pieces, one after the other. */
  function Join(pieces: seq<seq<byte>>): seq<byte> {
    if pieces == [] then [] else pieces[0] + Join(pieces[1..])
  }

  lemma {:induction false} JoinAppend(a: seq<seq<byte>>, b: seq<seq<byte>>)
    ensures Join(a + b) == Join(a) + Join(b)
    decreases |a|
  {
    if a == [] {
      assert a + b == b;
    } else {
      JoinAppend(a[1..], b);
      assert (a + b)[1..] == a[1..] + b;
    }
  }

  lemma JoinCons(a: seq<byte>, rest: seq<seq<byte>>)
    ensures Join([a] + rest) == a + Join(rest)
  {
    assert ([a] + rest)[1..] == rest;
  }

  lemma JoinOne(a: seq<byte>)
    ensures Join([a]) == a
  {
    assert Join([]) == [];
  }

  lemma JoinSnoc(a: seq<seq<byte>>, b: seq<byte>)
    ensures Join(a + [b]) == Join(a) + b
  {
    JoinAppend(a, [b]);
    JoinOne(b);
  }

  lemma ConcatAssoc<T>(a: seq<T>, b: seq<T>, c: seq<T>)
    ensures (a + b) + c == a + (b + c)
  {
  }

  lemma ConsConcat<T>(x: T, a: seq<T>, b: seq<T>)
    ensures ([x] + a) + b == [x] + (a + b)
  {
  }

  lemma Shift<T>(a: seq<T>, b: seq<T>)
    requires b != []
    ensures (a + [b[0]]) + b[1..] == a + b
  {
  }

  // ------------------------------------------------------------------ big-endian numbers

  /** The shortest big-endian form: no leading zero byte, and nothing at all for zero. */
  function BigEndian(v: nat): seq<byte> {
    if v == 0 then [] else BigEndian(v / 256) + [v % 256]
  }

  function ValueOf(b: seq<byte>): nat {
    if b == [] then 0 else 256 * ValueOf(b[..|b| - 1]) + b[|b| - 1]
  }

  lemma {:induction false} ValueOfBigEndian(v: nat)
    ensures ValueOf(BigEndian(v)) == v
  {
    if v > 0 {
      ValueOfBigEndian(v / 256);
      assert BigEndian(v)[..|BigEndian(v)| - 1] == BigEndian(v / 256);
    }
  }

  lemma {:induction false} ValueBound(b: seq<byte>)
    ensures ValueOf(b) < Pow256(|b|)
  {
    if b != [] {
      ValueBound(b[..|b| - 1]);
    }
  }

  lemma {:induction false} BigEndianLength(v: nat, k: nat)
    ensures |BigEndian(v)| <= k <==> v < Pow256(k)
    decreases v
  {
    if v > 0 && k > 0 {
      BigEndianLength(v / 256, k - 1);
    }
  }

  lemma {:induction false} NoLeadingZero(v: nat)
    requires 0 < v
    ensures BigEndian(v) != [] && BigEndian(v)[0] != 0
  {
    if v / 256 > 0 {
      NoLeadingZero(v / 256);
    }
  }

  /** The byte strings without a leading zero are exactly the shortest forms. */
  lemma {:induction false} BigEndianOfValue(b: seq<byte>)
    requires b != [] ==> b[0] != 0
    ensures BigEndian(ValueOf(b)) == b
    decreases |b|
  {
    if b != [] {
      var front := b[..|b| - 1];
      BigEndianOfValue(front);
      if front == [] {
        assert b == [b[0]] && ValueOf(b) == b[0];
        assert BigEndian(b[0]) == [b[0]];
      } else {
        PositiveValue(front);
        assert b == front + [b[|b| - 1]];
        BigEndianSnoc(ValueOf(front), b[|b| - 1]);
      }
    }
  }

  lemma BigEndianSnoc(v: nat, c: byte)
    requires 0 < v
    ensures BigEndian(256 * v + c) == BigEndian(v) + [c]
  {
    assert (256 * v + c) / 256 == v && (256 * v + c) % 256 == c;
  }

  lemma {:induction false} PositiveValue(b: seq<byte>)
    requires b != [] && b[0] != 0
    ensures 0 < ValueOf(b)
    decreases |b|
  {
    if |b| > 1 {
      PositiveValue(b[..|b| - 1]);
    }
  }

  /** Leading zero bytes removed. */
  function Strip(b: seq<byte>): (r: seq<byte>)
    ensures |r| <= |b|
    ensures r != [] ==> r[0] != 0
    ensures r == [] <==> forall i :: 0 <= i < |b| ==> b[i] == 0
  {
    if b == [] then [] else if b[0] == 0 then Strip(b[1..]) else b
  }

  function Zeros(n: nat): (r: seq<byte>)
    ensures |r| == n
  {
    Fill(0, n)
  }

  function PadLeft(b: seq<byte>, n: nat): seq<byte>
    requires |b| <= n
  {
    Zeros(n - |b|) + b
  }

  /** Padding undoes stripping. */
  lemma {:induction false} PadStrip(b: seq<byte>)
    ensures PadLeft(Strip(b), |b|) == b
    decreases |b|
  {
    if b != [] && b[0] == 0 {
      PadStrip(b[1..]);
      assert Zeros(|b| - |Strip(b)|) == [0] + Zeros(|b| - 1 - |Strip(b)|);
      assert b == [0] + b[1..];
    }
  }

  lemma {:induction false} ValueOfConcat(a: seq<byte>, b: seq<byte>)
    ensures ValueOf(a + b) == ValueOf(a) * Pow256(|b|) + ValueOf(b)
    decreases |b|
  {
    if b == [] {
      assert a + b == a;
    } else {
      var front := b[..|b| - 1];
      ValueOfConcat(a, front);
      assert (a + b)[..|a + b| - 1] == a + front;
      assert 256 * (ValueOf(a) * Pow256(|front|)) == ValueOf(a) * Pow256(|b|);
    }
  }

  lemma {:induction false} ValueOfStrip(b: seq<byte>)
    ensures ValueOf(Strip(b)) == ValueOf(b)
    decreases |b|
  {
    if b != [] && b[0] == 0 {
      ValueOfStrip(b[1..]);
      ValueOfConcat([0], b[1..]);
      assert [0] + b[1..] == b;
      assert ValueOf([0]) == 256 * ValueOf([]) + 0;
    }
  }
}
