/** Bytes, and numbers stored in them. */
module Bytes {

  type Byte = b: nat | b < 256

  /** The bytes of a char array; every C char fits in one. */
  function OfString(s: string): (r: seq<Byte>)
    ensures |r| == |s|
  {
    seq(|s|, i requires 0 <= i < |s| => (s[i] as int) % 256)
  }

  function ToString(b: seq<Byte>): (r: string)
    ensures |r| == |b|
  {
    seq(|b|, i requires 0 <= i < |b| => b[i] as char)
  }

  /** A string of C chars. */
  predicate Narrow(s: string) {
    forall i :: 0 <= i < |s| ==> s[i] as int < 256
  }

  lemma StringTrip(s: string)
    requires Narrow(s)
    ensures ToString(OfString(s)) == s
  {
  }

  /** A uint32_t in memory, little-endian; larger numbers are cut to 32 bits. */
  function Le32(n: nat): (r: seq<Byte>)
    ensures |r| == 4
  {
    [n % 256, n / 256 % 256, n / 0x1_0000 % 256, n / 0x100_0000 % 256]
  }

  function FromLe32(b: seq<Byte>): (n: nat)
    requires |b| == 4
    ensures n < 0x1_0000_0000
  {
    b[0] as nat + 256 * (b[1] as nat) + 0x1_0000 * (b[2] as nat) + 0x100_0000 * (b[3] as nat)
  }

  lemma Le32Trip(n: nat)
    ensures FromLe32(Le32(n)) == n % 0x1_0000_0000
  {
    var q := n / 256;
    var r := n / 0x1_0000;
    assert r == q / 256;
    assert n / 0x100_0000 == r / 256;
    assert n / 0x1_0000_0000 == r / 256 / 256;
  }

  // ---------------------------------------------------------------- numbers in network byte order

  predicate U8(n: nat) { n < 0x100 }
  predicate U16(n: nat) { n < 0x1_0000 }
  predicate U32(n: nat) { n < 0x1_0000_0000 }
  predicate U48(n: nat) { n < 0x1_0000_0000_0000 }

  function Be16(n: nat): (r: seq<Byte>)
    ensures |r| == 2
  {
    [n / 0x100 % 256, n % 256]
  }

  function Be32(n: nat): (r: seq<Byte>)
    ensures |r| == 4
  {
    [n / 0x100_0000 % 256, n / 0x1_0000 % 256, n / 0x100 % 256, n % 256]
  }

  function Be48(n: nat): (r: seq<Byte>)
    ensures |r| == 6
  {
    [n / 0x100_0000_0000 % 256, n / 0x1_0000_0000 % 256, n / 0x100_0000 % 256,
     n / 0x1_0000 % 256, n / 0x100 % 256, n % 256]
  }

  function FromBe(b: seq<Byte>): nat {
    if b == [] then 0 else 256 * FromBe(b[..|b| - 1]) + b[|b| - 1] as nat
  }

  lemma FromBeStep(b: seq<Byte>, x: Byte)
    ensures FromBe(b + [x]) == 256 * FromBe(b) + x as nat
  {
    assert (b + [x])[..|b|] == b;
  }

  lemma Be16Trip(n: nat)
    requires U16(n)
    ensures FromBe(Be16(n)) == n
  {
    FromBeStep([], n / 0x100 % 256);
    FromBeStep([n / 0x100 % 256], n % 256);
    assert Be16(n) == [n / 0x100 % 256] + [n % 256];
    assert [] + [n / 0x100 % 256] == [n / 0x100 % 256];
  }

  lemma Be32Trip(n: nat)
    requires U32(n)
    ensures FromBe(Be32(n)) == n
  {
    var a := n / 0x100;
    var b := n / 0x1_0000;
    assert b == a / 0x100 && n / 0x100_0000 == b / 0x100;
    Be16Trip(b);
    FromBeStep(Be16(b), a % 256);
    FromBeStep(Be16(b) + [a % 256], n % 256);
    assert Be32(n) == Be16(b) + [a % 256] + [n % 256];
  }

  lemma Be48Trip(n: nat)
    requires U48(n)
    ensures FromBe(Be48(n)) == n
  {
    var a := n / 0x100;
    var b := n / 0x1_0000;
    assert b == a / 0x100 && n / 0x100_0000 == b / 0x100;
    assert n / 0x1_0000_0000 == b / 0x1_0000 && n / 0x100_0000_0000 == b / 0x100_0000;
    Be32Trip(b);
    FromBeStep(Be32(b), a % 256);
    FromBeStep(Be32(b) + [a % 256], n % 256);
    assert Be48(n) == Be32(b) + [a % 256] + [n % 256];
  }

  lemma Peel(q: nat, x: Byte)
    ensures (256 * q + x as nat) / 256 == q && (256 * q + x as nat) % 256 == x
  {
  }

  lemma Halves(n: nat)
    ensures n / 0x1_0000 == n / 0x100 / 0x100 && n / 0x100_0000 == n / 0x1_0000 / 0x100
    ensures n / 0x1_0000_0000 == n / 0x1_0000 / 0x1_0000 && n / 0x100_0000_0000 == n / 0x1_0000 / 0x100_0000
  {
  }

  /** The low four octets of a number made of octets, and what is above them. */
  lemma Be32Low(q: nat, o: seq<Byte>)
    requires |o| == 4
    ensures var n := 256 * (256 * (256 * (256 * q + o[0] as nat) + o[1] as nat) + o[2] as nat) + o[3] as nat;
      Be32(n) == o && n / 0x1_0000_0000 == q
  {
    var p1 := 256 * q + o[0] as nat;
    var p2 := 256 * p1 + o[1] as nat;
    var p3 := 256 * p2 + o[2] as nat;
    var n := 256 * p3 + o[3] as nat;
    Peel(q, o[0]);
    Peel(p1, o[1]);
    Peel(p2, o[2]);
    Peel(p3, o[3]);
    Halves(n);
    assert n / 0x1_0000_0000 == n / 0x100_0000 / 0x100;
  }

  lemma FromBe4(x: seq<Byte>, o: seq<Byte>)
    requires |o| == 4
    ensures FromBe(x + o)
         == 256 * (256 * (256 * (256 * FromBe(x) + o[0] as nat) + o[1] as nat) + o[2] as nat) + o[3] as nat
  {
    FromBeStep(x, o[0]);
    FromBeStep(x + [o[0]], o[1]);
    FromBeStep(x + [o[0]] + [o[1]], o[2]);
    FromBeStep(x + [o[0]] + [o[1]] + [o[2]], o[3]);
    assert x + o == x + [o[0]] + [o[1]] + [o[2]] + [o[3]];
  }

  /** Four octets behind others are the low half of the number they make together. */
  lemma Be32Back(x: seq<Byte>, o: seq<Byte>)
    requires |o| == 4
    ensures Be32(FromBe(x + o)) == o && FromBe(x + o) / 0x1_0000_0000 == FromBe(x)
  {
    FromBe4(x, o);
    Be32Low(FromBe(x), o);
  }

  lemma FromBeOne(x: Byte)
    ensures FromBe([x]) == x as nat
  {
    FromBeStep([], x);
    assert [] + [x] == [x];
  }

  lemma Be48Halves(n: nat)
    ensures Be48(n) == Be16(n / 0x1_0000_0000) + Be32(n)
  {
    assert n / 0x100_0000_0000 == n / 0x1_0000_0000 / 0x100;
  }

  lemma Be16Back(o: seq<Byte>)
    requires |o| == 2
    ensures FromBe(o) < 0x1_0000 && Be16(FromBe(o)) == o
  {
    assert o == [o[0]] + [o[1]];
    FromBeOne(o[0]);
    FromBeStep([o[0]], o[1]);
    Peel(o[0] as nat, o[1]);
  }

  /** Network order starts with the highest octet, memory order with the lowest. */
  lemma Orders()
    ensures Be16(0x1234) == [0x12, 0x34] && Be32(0x1234_5678) == [0x12, 0x34, 0x56, 0x78]
    ensures Be48(0x1234_5678_9ABC) == [0x12, 0x34, 0x56, 0x78, 0x9A, 0xBC]
    ensures Le32(0x1234_5678) == [0x78, 0x56, 0x34, 0x12]
  {
  }

  /** Six octets are the network form of the number they make. */
  lemma Be48Back(o: seq<Byte>)
    requires |o| == 6
    ensures U48(FromBe(o)) && Be48(FromBe(o)) == o
  {
    assert o == o[..2] + o[2..];
    Be32Back(o[..2], o[2..]);
    Be16Back(o[..2]);
    Be48Halves(FromBe(o));
  }
}
