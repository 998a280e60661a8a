/**
 * Ethernet and IPv4 addresses between clients and the filesystem: the Eth and IP32 classes of the
 * C++ library, and the eth and ip32 attributes of types.c.
 */
module Addresses {
  import opened Wrappers
  import opened Bytes
  import opened Numerals
  import opened Attributes

  // ---------------------------------------------------------------- lists of octets as text

  /** %02x */
  function Hex2(b: Byte): (s: string)
    ensures |s| == 2 && Digits(s, 16)
  {
    [CharOf(b / 16), CharOf(b % 16)]
  }

  function OctetText(b: Byte, base: nat): (s: string)
    requires IsBase(base)
    ensures s != [] && Digits(s, base)
  {
    if base == 16 then Hex2(b) else Numeral(b, 10)
  }

  function Print(o: seq<Byte>, sep: char, base: nat): string
    requires IsBase(base)
  {
    if o == [] then ""
    else if |o| == 1 then OctetText(o[0], base)
    else OctetText(o[0], base) + [sep] + Print(o[1..], sep, base)
  }

  /** One conversion of a format string: the number read and what is left. */
  type Conversion = string -> Option<(nat, string)>

  function Reading(base: nat, width: nat): Conversion {
    s => Scan(s, base, width)
  }

  /** What a conversion to unsigned char stores: strtoul stops at 2^64 - 1. */
  function Octet(v: nat): (b: Byte)
    ensures v < 256 ==> b == v
    ensures v >= 0x1_0000_0000_0000_0000 ==> b == 0xFF
  {
    (if v < 0x1_0000_0000_0000_0000 then v else 0xFFFF_FFFF_FFFF_FFFF) % 256
  }

  /** n conversions to uint8_t with separators between them; fewer octets when the text stops matching. */
  function ScanList(s: string, n: nat, sep: char, conv: Conversion): (r: (seq<Byte>, string))
    ensures |r.0| <= n
    decreases n
  {
    if n == 0 then ([], s)
    else match conv(s)
      case None => ([], s)
      case Some((v, rest)) =>
        if n == 1 then ([Octet(v)], rest)
        else match Expect(rest, sep)
          case None => ([Octet(v)], rest)
          case Some(more) =>
            var (o, left) := ScanList(more, n - 1, sep, conv);
            ([Octet(v)] + o, left)
  }

  lemma Hex2Number(b: Byte)
    ensures NumberOf(Hex2(b), 16) == b
  {
    var x, y := CharOf(b / 16), CharOf(b % 16);
    Appended([], x, 16);
    Appended([x], y, 16);
    assert [] + [x] == [x] && [x] + [y] == Hex2(b);
  }

  lemma ScanOctet(b: Byte, tail: string, base: nat, width: nat)
    requires IsBase(base) && (if base == 16 then width >= 2 else width > 3)
    requires tail != [] ==> ValueOf(tail[0]) >= base
    ensures Scan(OctetText(b, base) + tail, base, width) == Some((b as nat, tail))
  {
    if base == 16 {
      Hex2Number(b);
      ScanDigits(Hex2(b), tail, 16, width);
    } else {
      OctetDigits(b);
      ScanNumeral(b, tail, 10, width);
    }
  }

  /** The conversion reads any octet printed in the base, whatever non-digit follows. */
  ghost predicate Reads(conv: Conversion, base: nat)
    requires IsBase(base)
  {
    forall b: Byte, tail: string {:trigger conv(OctetText(b, base) + tail)} ::
      (tail != [] ==> ValueOf(tail[0]) >= base) ==> conv(OctetText(b, base) + tail) == Some((b as nat, tail))
  }

  lemma ReadingReads(base: nat, width: nat)
    requires IsBase(base) && (if base == 16 then width >= 2 else width > 3)
    ensures Reads(Reading(base, width), base)
  {
    forall b: Byte, tail: string | tail != [] ==> ValueOf(tail[0]) >= base
      ensures Scan(OctetText(b, base) + tail, base, width) == Some((b as nat, tail))
    {
      ScanOctet(b, tail, base, width);
    }
  }

  lemma ScanLast(b: Byte, tail: string, sep: char, base: nat, conv: Conversion)
    requires IsBase(base) && Reads(conv, base) && (tail != [] ==> ValueOf(tail[0]) >= base)
    ensures ScanList(OctetText(b, base) + tail, 1, sep, conv) == ([b], tail)
  {
    assert conv(OctetText(b, base) + tail) == Some((b as nat, tail));
  }

  lemma ExpectNext(c: char, more: string)
    ensures Expect([c] + more, c) == Some(more)
  {
    assert ([c] + more)[1..] == more;
  }

  /** A conversion that stops at a separator goes on behind it. */
  lemma ScanNext(s: string, b: Byte, more: string, n: nat, sep: char, conv: Conversion, o: seq<Byte>, left: string)
    requires n > 1 && conv(s) == Some((b as nat, [sep] + more)) && ScanList(more, n - 1, sep, conv) == (o, left)
    ensures ScanList(s, n, sep, conv) == ([b] + o, left)
  {
    ExpectNext(sep, more);
  }

  lemma RegroupText(x: string, y: string, z: string, w: string)
    ensures (x + y + z) + w == x + (y + (z + w))
  {
  }

  lemma PrintFirst(o: seq<Byte>, tail: string, sep: char, base: nat)
    requires |o| > 1 && IsBase(base)
    ensures Print(o, sep, base) + tail == OctetText(o[0], base) + ([sep] + (Print(o[1..], sep, base) + tail))
  {
    RegroupText(OctetText(o[0], base), [sep], Print(o[1..], sep, base), tail);
  }

  lemma ScanFirst(o: seq<Byte>, tail: string, sep: char, base: nat, conv: Conversion)
    requires |o| > 1 && IsBase(base) && ValueOf(sep) >= base && Reads(conv, base)
    requires ScanList(Print(o[1..], sep, base) + tail, |o| - 1, sep, conv) == (o[1..], tail)
    ensures ScanList(Print(o, sep, base) + tail, |o|, sep, conv) == (o, tail)
  {
    var more := Print(o[1..], sep, base) + tail;
    PrintFirst(o, tail, sep, base);
    assert conv(OctetText(o[0], base) + ([sep] + more)) == Some((o[0] as nat, [sep] + more));
    ScanNext(Print(o, sep, base) + tail, o[0], more, |o|, sep, conv, o[1..], tail);
    assert o == [o[0]] + o[1..];
  }

  /** What is printed is read back, up to where it ends. */
  lemma {:induction false} ScanPrint(o: seq<Byte>, tail: string, sep: char, base: nat, conv: Conversion)
    requires o != [] && IsBase(base) && ValueOf(sep) >= base && Reads(conv, base)
    requires tail != [] ==> ValueOf(tail[0]) >= base
    ensures ScanList(Print(o, sep, base) + tail, |o|, sep, conv) == (o, tail)
    decreases |o|
  {
    if |o| == 1 {
      ScanLast(o[0], tail, sep, base, conv);
      assert o == [o[0]];
    } else {
      ScanPrint(o[1..], tail, sep, base, conv);
      ScanFirst(o, tail, sep, base, conv);
    }
  }

  // ---------------------------------------------------------------- any groups of digits

  /** The groups with separators between them. */
  function Joined(gs: seq<string>, sep: char): string {
    if gs == [] then "" else if |gs| == 1 then gs[0] else gs[0] + [sep] + Joined(gs[1..], sep)
  }

  /** The octets the groups are stored as. */
  function Octets(gs: seq<string>, base: nat): (o: seq<Byte>)
    ensures |o| == |gs|
  {
    seq(|gs|, i requires 0 <= i < |gs| => Octet(NumberOf(gs[i], base)))
  }

  predicate Groups(gs: seq<string>, base: nat, width: nat) {
    forall i :: 0 <= i < |gs| ==> gs[i] != [] && Digits(gs[i], base) && |gs[i]| <= width
  }

  /** What follows is no digit and no separator with a digit behind it. */
  predicate Stops(tail: string, sep: char, base: nat) {
    && (tail != [] ==> ValueOf(tail[0]) >= base)
    && (|tail| > 1 && tail[0] == sep ==> ValueOf(tail[1]) >= base)
  }

  lemma GroupStop(g: string, tail: string, n: nat, sep: char, base: nat, width: nat)
    requires n > 0 && g != [] && Digits(g, base) && |g| <= width && Stops(tail, sep, base)
    ensures ScanList(g + tail, n, sep, Reading(base, width)).0 == [Octet(NumberOf(g, base))]
  {
    ScanDigits(g, tail, base, width);
    if n > 1 && tail != [] && tail[0] == sep {
      assert Run(tail[1..], base, width) == 0;
      assert ScanList(tail[1..], n - 1, sep, Reading(base, width)).0 == [];
    }
  }

  lemma GroupNext(g: string, rest: string, n: nat, sep: char, base: nat, width: nat)
    requires n > 1 && g != [] && Digits(g, base) && |g| <= width && ValueOf(sep) >= base
    ensures ScanList(g + ([sep] + rest), n, sep, Reading(base, width)).0
         == [Octet(NumberOf(g, base))] + ScanList(rest, n - 1, sep, Reading(base, width)).0
  {
    ScanDigits(g, [sep] + rest, base, width);
    ExpectNext(sep, rest);
  }

  lemma JoinedNext(gs: seq<string>, tail: string, sep: char)
    requires |gs| > 1
    ensures Joined(gs, sep) + tail == gs[0] + ([sep] + (Joined(gs[1..], sep) + tail))
  {
    RegroupText(gs[0], [sep], Joined(gs[1..], sep), tail);
  }

  lemma OctetsNext(gs: seq<string>, base: nat)
    requires gs != []
    ensures Octets(gs, base) == [Octet(NumberOf(gs[0], base))] + Octets(gs[1..], base)
    ensures |gs| == 1 ==> Octets(gs, base) == [Octet(NumberOf(gs[0], base))]
  {
  }

  lemma GroupsRest(gs: seq<string>, base: nat, width: nat)
    requires gs != [] && Groups(gs, base, width)
    ensures Groups(gs[1..], base, width)
  {
  }

  /** Up to n groups of digits, of any length in the field width and either case, are read as their octets. */
  lemma {:induction false} ScanGroups(gs: seq<string>, tail: string, n: nat, sep: char, base: nat, width: nat)
    requires 0 < |gs| <= n && Groups(gs, base, width) && ValueOf(sep) >= base && Stops(tail, sep, base)
    ensures ScanList(Joined(gs, sep) + tail, n, sep, Reading(base, width)).0 == Octets(gs, base)
    decreases |gs|
  {
    var g, s, conv := gs[0], Joined(gs, sep) + tail, Reading(base, width);
    OctetsNext(gs, base);
    if |gs| == 1 {
      GroupStop(g, tail, n, sep, base, width);
      assert s == g + tail;
    } else {
      var rest := Joined(gs[1..], sep) + tail;
      GroupsRest(gs, base, width);
      ScanGroups(gs[1..], tail, n - 1, sep, base, width);
      JoinedNext(gs, tail, sep);
      var t := g + ([sep] + rest);
      GroupNext(g, rest, n, sep, base, width);
      assert s == t;
      assert ScanList(s, n, sep, conv) == ScanList(t, n, sep, conv);
    }
  }

  // ---------------------------------------------------------------- attributes in the filesystem

  function MacText(o: seq<Byte>): string { Print(o, ':', 16) }

  /** sscanf(buf, "%hhx:%hhx:%hhx:%hhx:%hhx:%hhx"), with the given field width in each conversion */
  function ScanMac(buf: string, width: nat): seq<Byte> { ScanList(buf, 6, ':', Reading(16, width)).0 }

  /** Nothing but white space before the end of the C string: sscanf reports the end of input. */
  predicate Blank(buf: string) {
    buf == [] || buf[0] == '\0' || (buf[0] in [' ', '\t', '\n', '\r', '\U{B}', '\U{C}'] && Blank(buf[1..]))
  }

  predicate White(c: char) { c in [' ', '\t', '\n', '\r', '\U{B}', '\U{C}'] }

  /** The C string ends at k and has only white space before. */
  ghost predicate BlankTo(buf: string, k: nat) {
    k <= |buf| && (k < |buf| ==> buf[k] == '\0') && forall i :: 0 <= i < k ==> White(buf[i])
  }

  lemma BlankShift(buf: string, k: nat)
    requires buf != []
    ensures BlankTo(buf, k + 1) <==> White(buf[0]) && BlankTo(buf[1..], k)
  {
    if White(buf[0]) && BlankTo(buf[1..], k) {
      forall i | 0 <= i < k + 1
        ensures White(buf[i])
      {
        if i > 0 { assert White(buf[1..][i - 1]); }
      }
    }
    if BlankTo(buf, k + 1) {
      assert White(buf[0]);
      forall i | 0 <= i < k
        ensures White(buf[1..][i])
      {
        assert White(buf[i + 1]);
      }
    }
  }

  lemma {:induction false} BlankIff(buf: string)
    ensures Blank(buf) <==> exists k: nat :: BlankTo(buf, k)
  {
    if buf == [] || buf[0] == '\0' {
      assert BlankTo(buf, 0);
    } else {
      BlankIff(buf[1..]);
      if Blank(buf) {
        var k: nat :| BlankTo(buf[1..], k);
        BlankShift(buf, k);
      }
      if exists k: nat :: BlankTo(buf, k) {
        var k: nat :| BlankTo(buf, k);
        BlankShift(buf, k - 1);
      }
    }
  }

  function IpText(o: seq<Byte>, mask: Byte): string { Print(o, '.', 10) + "/" + Numeral(mask, 10) }

  /** sscanf(buf, "%hhu.%hhu.%hhu.%hhu/%hhu"): the octets converted, the mask last. */
  function ScanIp(buf: string): seq<Byte> {
    var (o, rest) := ScanList(buf, 4, '.', Reading(10, |buf|));
    if |o| < 4 then o
    else match Expect(rest, '/')
      case None => o
      case Some(more) => o + ScanList(more, 1, '/', Reading(10, |buf|)).0
  }

  lemma MacTrip(o: seq<Byte>, tail: string, width: nat)
    requires |o| == 6 && width >= 2 && (tail == [] || tail == "\n")
    ensures ScanMac(MacText(o) + tail, width) == o
  {
    ReadingReads(16, width);
    ScanPrint(o, tail, ':', 16, Reading(16, width));
  }

  lemma IpParts(s: string, o: seq<Byte>, mask: Byte, more: string)
    requires |o| == 4 && ScanList(s, 4, '.', Reading(10, |s|)) == (o, "/" + more)
    requires Expect("/" + more, '/') == Some(more) && ScanList(more, 1, '/', Reading(10, |s|)).0 == [mask]
    ensures ScanIp(s) == o + [mask]
  {
  }

  lemma PrintNext(o: seq<Byte>, sep: char, base: nat)
    requires o != [] && IsBase(base)
    ensures Print(o, sep, base) == OctetText(o[0], base) + (if |o| == 1 then "" else [sep] + Print(o[1..], sep, base))
  {
  }

  lemma PrintLength(o: seq<Byte>)
    requires |o| == 4
    ensures |Print(o, '.', 10)| > 3
  {
    assert o[1..] == [o[1], o[2], o[3]] && o[1..][1..] == [o[2], o[3]];
    PrintNext(o, '.', 10);
    PrintNext(o[1..], '.', 10);
  }

  lemma IpTrip(o: seq<Byte>, mask: Byte, tail: string)
    requires |o| == 4 && (tail == [] || tail == "\n")
    ensures ScanIp(IpText(o, mask) + tail) == o + [mask]
  {
    var s := IpText(o, mask) + tail;
    var conv := Reading(10, |s|);
    var more := OctetText(mask, 10) + tail;
    PrintLength(o);
    ReadingReads(10, |s|);
    RegroupText(Print(o, '.', 10), "/", Numeral(mask, 10), tail);
    ScanPrint(o, "/" + more, '.', 10, conv);
    ScanLast(mask, tail, '/', 10, conv);
    ExpectNext('/', more);
    IpParts(s, o, mask, more);
  }

  /** Without a mask there are four octets. */
  lemma NoMask(o: seq<Byte>, tail: string)
    requires |o| == 4 && (tail != [] ==> tail[0] != '/' && ValueOf(tail[0]) >= 10)
    ensures ScanIp(Print(o, '.', 10) + tail) == o
  {
    var s := Print(o, '.', 10) + tail;
    PrintLength(o);
    ReadingReads(10, |s|);
    ScanPrint(o, tail, '.', 10, Reading(10, |s|));
  }

  /** An Ethernet address is printed as two digits for each octet, with colons between them. */
  lemma MacPrinted(o: seq<Byte>)
    requires |o| == 6
    ensures MacText(o) ==
      Hex2(o[0]) + ([':'] + (Hex2(o[1]) + ([':'] + (Hex2(o[2]) + ([':'] + (Hex2(o[3]) + ([':'] + (Hex2(o[4]) +
      ([':'] + Hex2(o[5]))))))))))
  {
    var a, b, c, d, e := o[1..], o[2..], o[3..], o[4..], o[5..];
    assert a[1..] == b && b[1..] == c && c[1..] == d && d[1..] == e;
    PrintNext(o, ':', 16);
    PrintNext(a, ':', 16);
    PrintNext(b, ':', 16);
    PrintNext(c, ':', 16);
    PrintNext(d, ':', 16);
  }

  /** An IPv4 address is printed in decimal, with periods between the octets and the mask behind a slash. */
  lemma IpPrinted(o: seq<Byte>, mask: Byte)
    requires |o| == 4
    ensures IpText(o, mask) ==
      Numeral(o[0], 10) + (['.'] + (Numeral(o[1], 10) + (['.'] + (Numeral(o[2], 10) + (['.'] + Numeral(o[3], 10)))))) +
      "/" + Numeral(mask, 10)
  {
    var a, b, c := o[1..], o[2..], o[3..];
    assert a[1..] == b && b[1..] == c;
    PrintNext(o, '.', 10);
    PrintNext(a, '.', 10);
    PrintNext(b, '.', 10);
  }

  /** The digits are the lower-case ones, the higher first. */
  lemma DigitsPrinted()
    ensures Hex2(0) == "00" && Hex2(9) == "09" && Hex2(0x1A) == "1a" && Hex2(0xBF) == "bf" && Hex2(0xFF) == "ff"
    ensures Numeral(0, 10) == "0" && Numeral(10, 10) == "10" && Numeral(8, 10) == "8"
  {
    assert Numeral(10, 10) == Numeral(1, 10) + [CharOf(0)] && Numeral(1, 10) == [CharOf(1)];
    assert CharOf(0) == '0' && CharOf(1) == '1' && CharOf(8) == '8' && CharOf(9) == '9';
    assert CharOf(10) == 'a' && CharOf(11) == 'b' && CharOf(15) == 'f';
  }

  /** The digits of a text may be of either case. */
  lemma DigitValues(c: char)
    ensures '0' <= c <= '9' ==> ValueOf(c) == c as int - '0' as int
    ensures 'a' <= c <= 'f' ==> ValueOf(c) == 10 + c as int - 'a' as int
    ensures 'A' <= c <= 'F' ==> ValueOf(c) == 10 + c as int - 'A' as int
    ensures !('0' <= c <= '9' || 'a' <= c <= 'f' || 'A' <= c <= 'F') ==> ValueOf(c) >= 16
  {
  }

  /** The source's expression for the digits of an octet. */
  function DigitsOf(b: Byte): (n: nat)
    ensures n == |Numeral(b, 10)|
  {
    OctetDigits(b);
    if b < 100 then if b < 10 then 1 else 2 else 3
  }

  lemma MacStored(o: seq<Byte>, n: nat)
    requires |o| == 6 && n == FromBe([o[0]] + [o[1], o[2], o[3], o[4]]) * 256 + o[5] as nat
    ensures n == FromBe(o) && U48(n) && Be48(n) == o
  {
    FromBeStep([o[0]] + [o[1], o[2], o[3], o[4]], o[5]);
    assert o == [o[0]] + [o[1], o[2], o[3], o[4]] + [o[5]];
    Be48Back(o);
  }

  lemma IpTextLength(o: seq<Byte>, m: Byte)
    requires |o| == 4
    ensures |IpText(o, m)| == 4 + DigitsOf(o[0]) + DigitsOf(o[1]) + DigitsOf(o[2]) + DigitsOf(o[3]) + DigitsOf(m)
  {
    assert o[1..] == [o[1], o[2], o[3]] && o[1..][1..] == [o[2], o[3]] && o[1..][1..][1..] == [o[3]];
    assert |Print(o[1..][1..][1..], '.', 10)| == DigitsOf(o[3]);
    assert |Print(o[1..][1..], '.', 10)| == DigitsOf(o[2]) + 1 + DigitsOf(o[3]);
    assert |Print(o[1..], '.', 10)| == DigitsOf(o[1]) + 1 + |Print(o[1..][1..], '.', 10)|;
  }

  lemma IpStored(n: nat, m: Byte, o: seq<Byte>)
    requires |o| == 4 && n == FromBe([m] + o)
    ensures Be32(n) == o && n / 0x1_0000_0000 % 256 == m
    ensures |IpText(Be32(n), n / 0x1_0000_0000 % 256) + "\n"|
         == 5 + DigitsOf(o[0]) + DigitsOf(o[1]) + DigitsOf(o[2]) + DigitsOf(o[3]) + DigitsOf(m)
  {
    Be32Back([m], o);
    FromBeOne(m);
    IpTextLength(o, m);
  }

  /** n |= x; n <<= 8; and so on, for the octets x of a number. */
  method Shifted(a: Byte, b: Byte, c: Byte, d: Byte, e: Byte) returns (n: nat)
    ensures n == FromBe([a] + [b, c, d, e])
  {
    n := a as nat;
    n := n * 256 + b as nat;
    n := n * 256 + c as nat;
    n := n * 256 + d as nat;
    n := n * 256 + e as nat;
    FromBeOne(a);
    FromBe4([a], [b, c, d, e]);
  }

  /** An eth or ip32 entry: the integer of the union, and the file size reported. */
  class Attribute {
    var u64: nat
    var size: nat

    constructor ()
      ensures u64 == 0 && size == 0
    {
      u64, size := 0, 0;
    }

    /** _get_mac */
    function GetMac(): string
      reads this
    {
      MacText(Be48(u64)) + "\n"
    }

    /**
     * _set_mac. hwaddr is what strtoull makes of the text, asked when a single number was scanned, and
     * errno what the library left there.
     */
    method SetMac(buf: string, o: nat, hwaddr: nat, errno: nat) returns (r: Written)
      requires hwaddr < 0x1_0000_0000_0000_0000
      modifies this
      ensures var octets := ScanMac(buf, |buf|);
        if o != 0 then r == Refused(EIO) && u64 == old(u64) && size == old(size)
        else if |octets| == 1 && errno == 0 then r == Took(|buf|) && u64 == hwaddr && size == old(size)
        else if |octets| != 6 then
          && r == Refused(if |octets| == 1 || Blank(buf) then Left(errno) else EINVAL)
          && u64 == old(u64) && size == old(size)
        else r == Took(|buf|) && u64 == FromBe(octets) && U48(u64) && Be48(u64) == octets && size == 18
    {
      if o != 0 {
        return Refused(EIO);
      }
      var octets := ScanMac(buf, |buf|);
      if |octets| == 1 {
        if errno != 0 {
          return Refused(Left(errno));
        }
        u64 := hwaddr;
        return Took(|buf|);
      }
      if |octets| != 6 {
        return Refused(if Blank(buf) then Left(errno) else EINVAL);
      }
      var n := Shifted(octets[0], octets[1], octets[2], octets[3], octets[4]);
      n := n * 256 + octets[5] as nat;
      MacStored(octets, n);
      u64 := n;
      size := 2 * 6 + 5 + 1;
      r := Took(|buf|);
    }

    /** _get_ip32 */
    function GetIp32(): string
      reads this
    {
      IpText(Be32(u64), u64 / 0x1_0000_0000 % 256) + "\n"
    }

    /** _set_ip32: a missing mask means 32. errno is what the library left there. */
    method SetIp32(buf: string, o: nat, errno: nat) returns (r: Written)
      modifies this
      ensures var octets := ScanIp(buf);
        if o != 0 then r == Refused(EIO) && u64 == old(u64) && size == old(size)
        else if |octets| < 4 then
          r == Refused(if Blank(buf) then Left(errno) else EINVAL) && u64 == old(u64) && size == old(size)
        else
          var m: Byte := if |octets| == 4 then 32 else octets[4];
          && r == Took(|buf|) && u64 == FromBe([m] + octets[..4])
          && Be32(u64) == octets[..4] && u64 / 0x1_0000_0000 % 256 == m && size + 1 == |GetIp32()|
    {
      if o != 0 {
        return Refused(EIO);
      }
      var octets := ScanIp(buf);
      if |octets| < 4 {
        return Refused(if Blank(buf) then Left(errno) else EINVAL);
      }
      var m: Byte := if |octets| == 4 then 32 else octets[4];
      var a, b, c, d := octets[0], octets[1], octets[2], octets[3];
      assert octets[..4] == [a, b, c, d];
      var n := Shifted(m, a, b, c, d);
      IpStored(n, m, octets[..4]);
      u64 := n;
      size := 4 + DigitsOf(a) + DigitsOf(b) + DigitsOf(c) + DigitsOf(d) + DigitsOf(m);
      r := Took(|buf|);
    }
  }

  lemma MaskPrinted(address: string)
    ensures address + "/" + Numeral(32, 10) + "\n" == address + "/32\n"
  {
    assert Numeral(32, 10) == Numeral(3, 10) + [CharOf(2)] && Numeral(3, 10) == "3";
    assert "/" + "32" + "\n" == "/32\n";
    assert address + "/" + "32" + "\n" == address + ("/" + "32" + "\n");
  }

  /** An address set without a mask reads back with the mask 32. */
  method Unmasked(o: seq<Byte>) returns (text: string)
    requires |o| == 4
    ensures text == Print(o, '.', 10) + "/32\n"
  {
    var ent := new Attribute();
    NoMask(o, []);
    assert Print(o, '.', 10) + [] == Print(o, '.', 10);
    var r := ent.SetIp32(Print(o, '.', 10), 0, 0);
    text := ent.GetIp32();
    assert o[..4] == o;
    MaskPrinted(Print(o, '.', 10));
  }

  // ---------------------------------------------------------------- the client's classes

  class Eth {
    var a: Byte
    var b: Byte
    var c: Byte
    var d: Byte
    var e: Byte
    var f: Byte

    function Octets(): (o: seq<Byte>)
      reads this
      ensures |o| == 6
    {
      [a, b, c, d, e, f]
    }

    constructor ()
    {
      a, b, c, d, e, f := 0, 0, 0, 0, 0, 0;
    }

    /** _init(const uint8_t[6]) */
    method InitBytes(o: seq<Byte>)
      requires |o| == 6
      modifies this
      ensures Octets() == o
    {
      a, b, c, d, e, f := o[0], o[1], o[2], o[3], o[4], o[5];
    }

    /** _init(const string&): all zero unless six octets are read. */
    method InitText(addr: string)
      modifies this
      ensures Octets() == if |ScanMac(addr, 2)| == 6 then ScanMac(addr, 2) else [0, 0, 0, 0, 0, 0]
    {
      var o := ScanMac(addr, 2);
      if |o| != 6 {
        o := [0, 0, 0, 0, 0, 0];
      }
      InitBytes(o);
    }

    /** operator uint64_t */
    function Number(): nat
      reads this
    {
      FromBe(Octets())
    }

    /** _init(uint64_t): false where the source throws. */
    method InitNumber(addr: nat) returns (ok: bool)
      modifies this
      ensures ok <==> U48(addr)
      ensures Octets() == if ok then Be48(addr) else old(Octets())
      ensures ok ==> Number() == addr
    {
      ok := U48(addr);
      if ok {
        Be48Trip(addr);
        var o := Be48(addr);
        InitBytes(o);
      }
    }

    /** operator string */
    function Text(): string
      reads this
    {
      MacText(Octets())
    }
  }

  /** A client stores a number as an address and reads it back through the filesystem: nothing changes. */
  method EthTrip(addr: nat) returns (back: nat)
    requires U48(addr)
    ensures back == addr
  {
    var eth := new Eth();
    var ok := eth.InitNumber(addr);
    var ent := new Attribute();
    MacPrinted(Be48(addr));
    MacTrip(Be48(addr), [], |MacText(Be48(addr))|);
    assert MacText(Be48(addr)) + [] == MacText(Be48(addr));
    var r := ent.SetMac(eth.Text(), 0, 0, 0);
    assert r.Took?;
    MacTrip(Be48(addr), "\n", 2);
    Be48Trip(addr);
    var read := new Eth();
    read.InitText(ent.GetMac());
    back := read.Number();
  }

  class IP32 {
    var a: Byte
    var b: Byte
    var c: Byte
    var d: Byte
    var m: Byte

    constructor (a: Byte, b: Byte, c: Byte, d: Byte, m: Byte)
      ensures Octets() == [a, b, c, d] && Mask() == m
    {
      this.a, this.b, this.c, this.d, this.m := a, b, c, d, m;
    }

    function Octets(): (o: seq<Byte>)
      reads this
      ensures |o| == 4
    {
      [a, b, c, d]
    }

    function Mask(): Byte
      reads this
    {
      m
    }

    /** _init: all zero unless four octets and a mask are read. */
    method InitText(addr: string)
      modifies this
      ensures Octets() + [Mask()] == if |ScanIp(addr)| == 5 then ScanIp(addr) else [0, 0, 0, 0, 0]
    {
      var o := ScanIp(addr);
      if |o| != 5 {
        o := [0, 0, 0, 0, 0];
      }
      a, b, c, d, m := o[0], o[1], o[2], o[3], o[4];
    }

    /** operator string */
    function Text(): string
      reads this
    {
      IpText(Octets(), m)
    }

    /** address(): the number whose network form is the octets */
    function Address(): (n: nat)
      reads this
      ensures Be32(n) == Octets()
    {
      Be32Back([], Octets());
      assert [] + Octets() == Octets();
      FromBe(Octets())
    }
  }

  /** Octets and mask come back through the filesystem as they were stored. */
  method IpTripThrough(a: Byte, b: Byte, c: Byte, d: Byte, m: Byte) returns (back: IP32)
    ensures back.Octets() == [a, b, c, d] && back.Mask() == m
  {
    var o := [a, b, c, d];
    var ip := new IP32(a, b, c, d, m);
    var ent := new Attribute();
    IpTrip(o, m, []);
    assert IpText(o, m) + [] == IpText(o, m);
    var r := ent.SetIp32(ip.Text(), 0, 0);
    assert r.Took? && (o + [m])[..4] == o;
    IpTrip(o, m, "\n");
    back := new IP32(0, 0, 0, 0, 0);
    back.InitText(ent.GetIp32());
    assert (o + [m])[4] == m && back.Octets() == (back.Octets() + [back.Mask()])[..4];
  }
}
