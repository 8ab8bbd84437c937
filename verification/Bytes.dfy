/** Octet sequences: big-endian integers, two's complement, and flattening. */
module Bytes {

  type byte = x: int | 0 <= x < 256

  const TWO_TO_THE_16: nat := 0x1_0000
  const TWO_TO_THE_32: nat := 0x1_0000_0000
  const TWO_TO_THE_64: nat := 0x1_0000_0000_0000_0000

  function Pow256(n: nat): (p: nat)
    ensures p >= 1
    ensures n == 1 ==> p == 256
    ensures n == 2 ==> p == TWO_TO_THE_16
    ensures n == 4 ==> p == TWO_TO_THE_32
    ensures n == 8 ==> p == TWO_TO_THE_64
  {
    if n == 0 then 1
    else if n == 8 then assert Pow256(7) == 256 * 256 * 256 * Pow256(4); 256 * Pow256(n - 1)
    else 256 * Pow256(n - 1)
  }

  /** `v` modulo 256^width, most significant octet first. */
  function ToBigEndian(v: nat, width: nat): (s: seq<byte>)
    ensures |s| == width
  {
    if width == 0 then [] else ToBigEndian(v / 256, width - 1) + [v % 256]
  }

  function FromBigEndian(s: seq<byte>): (v: nat)
    ensures v < Pow256(|s|)
  {
    if s == [] then 0 else FromBigEndian(s[..|s| - 1]) * 256 + s[|s| - 1]
  }

  lemma {:induction false} QuotientFits(v: nat, width: nat)
    requires width > 0 && v < Pow256(width)
    ensures v / 256 < Pow256(width - 1)
  {
    assert Pow256(width) == 256 * Pow256(width - 1);
  }

  lemma {:induction false} LastOctet(s: seq<byte>, last: byte)
    ensures FromBigEndian(s + [last]) == FromBigEndian(s) * 256 + last
  {
    hide Pow256;
    assert (s + [last])[..|s|] == s;
  }

  lemma {:induction false} BigEndianRoundTrip(v: nat, width: nat)
    requires v < Pow256(width)
    ensures FromBigEndian(ToBigEndian(v, width)) == v
  {
    hide Pow256, FromBigEndian;
    if width == 0 {
      NoOctets(v);
    } else {
      QuotientFits(v, width);
      BigEndianRoundTrip(v / 256, width - 1);
      LastOctet(ToBigEndian(v / 256, width - 1), v % 256);
    }
  }

  lemma {:induction false} NoOctets(v: nat)
    requires v < Pow256(0)
    ensures FromBigEndian([]) == v
  {
  }

  /* ----- numbers, octet by octet ----- */

  function Two(a: nat, b: nat): nat {
    a * 0x100 + b
  }

  function Four(a: nat, b: nat, c: nat, d: nat): nat {
    ((a * 0x100 + b) * 0x100 + c) * 0x100 + d
  }

  lemma {:induction false} OneOctet(a: byte)
    ensures FromBigEndian([a]) == a
  {
    hide Pow256;
    NoOctets(0);
    LastOctet([], a);
    assert [] + [a] == [a];
  }

  lemma {:induction false} TwoOctets(a: byte, b: byte)
    ensures FromBigEndian([a, b]) == Two(a, b)
  {
    hide Pow256, FromBigEndian;
    OneOctet(a);
    LastOctet([a], b);
    assert [a] + [b] == [a, b];
  }

  lemma {:induction false} FourOctets(a: byte, b: byte, c: byte, d: byte)
    ensures FromBigEndian([a, b, c, d]) == Four(a, b, c, d)
  {
    hide Pow256, FromBigEndian;
    TwoOctets(a, b);
    LastOctet([a, b], c);
    LastOctet([a, b, c], d);
    assert [a, b] + [c] == [a, b, c] && [a, b, c] + [d] == [a, b, c, d];
  }

  /** The octets of a number. */
  lemma {:induction false} Digits(a: byte, b: byte, c: byte, d: byte)
    ensures var n := Four(a, b, c, d);
            a == n / 0x100 / 0x100 / 0x100 && b == n / 0x100 / 0x100 % 0x100 && c == n / 0x100 % 0x100 && d == n % 0x100
  {
    LowDigit((a * 0x100 + b) * 0x100 + c, d);
    LowDigit(a * 0x100 + b, c);
    LowDigit(a, b);
  }

  lemma {:induction false} LowDigit(n: nat, d: byte)
    ensures (n * 0x100 + d) / 0x100 == n && (n * 0x100 + d) % 0x100 == d
  {
  }

  lemma {:induction false} Number(n: nat)
    ensures n == Four(n / 0x100 / 0x100 / 0x100, n / 0x100 / 0x100 % 0x100, n / 0x100 % 0x100, n % 0x100)
  {
  }

  /** The unsigned image of a signed number on `width` octets. */
  function ToTwosComplement(v: int, width: nat): (u: nat)
    requires 0 <= v + Pow256(width)
  {
    if v < 0 then v + Pow256(width) else v
  }

  function FromTwosComplement(u: nat, width: nat): int
  {
    if 2 * u < Pow256(width) then u else u - Pow256(width)
  }

  /** The octets `x` stand at offset `pos` of `b`. */
  ghost predicate At(b: seq<byte>, pos: nat, x: seq<byte>) {
    pos + |x| <= |b| && forall i :: 0 <= i < |x| ==> b[pos + i] == x[i]
  }

  lemma {:induction false} AtSplit(b: seq<byte>, pos: nat, x: seq<byte>, y: seq<byte>)
    requires At(b, pos, x + y)
    ensures At(b, pos, x) && At(b, pos + |x|, y)
  {
    forall i | 0 <= i < |x| ensures b[pos + i] == x[i] {
      assert (x + y)[i] == x[i];
    }
    forall i | 0 <= i < |y| ensures b[pos + |x| + i] == y[i] {
      assert (x + y)[|x| + i] == y[i];
    }
  }

  function Flatten<T>(ss: seq<seq<T>>): (r: seq<T>)
  {
    if ss == [] then [] else ss[0] + Flatten(ss[1..])
  }

  lemma {:induction false} FlattenFront<T>(ss: seq<seq<T>>)
    requires ss != []
    ensures Flatten(ss) == ss[0] + Flatten(ss[1..])
  {
  }

  lemma {:induction false} FlattenNothing<T>()
    ensures Flatten<T>([]) == []
  {
  }

  lemma {:induction false} FlattenAppend<T>(a: seq<seq<T>>, b: seq<seq<T>>)
    ensures Flatten(a + b) == Flatten(a) + Flatten(b)
  {
    hide Flatten;
    if a == [] {
      FlattenNothing<T>();
      assert a + b == b;
    } else {
      FlattenAppend(a[1..], b);
      FlattenFront(a);
      FlattenFront(a + b);
      assert (a + b)[1..] == a[1..] + b;
      assert a[0] + (Flatten(a[1..]) + Flatten(b)) == (a[0] + Flatten(a[1..])) + Flatten(b);
    }
  }

  lemma {:induction false} FlattenOne<T>(s: seq<T>)
    ensures Flatten([s]) == s
  {
    assert [s][1..] == [];
  }

  lemma {:induction false} FlattenSnoc<T>(ss: seq<seq<T>>, last: seq<T>)
    ensures Flatten(ss + [last]) == Flatten(ss) + last
  {
    FlattenAppend(ss, [last]);
    FlattenOne(last);
  }
}
