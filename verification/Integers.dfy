/** Integer attributes (types.c): any decimal text is stored wrapped to its width and shown canonically. */
module Integers {
  import opened Wrappers
  import opened Text
  import opened Numerals
  import opened Attributes

  datatype Width = W8 | W16 | W32 | W64

  datatype Type = Type(width: Width, signed: bool)

  /** Number of values of a width. */
  function Modulus(w: Width): nat {
    match w
    case W8 => 0x100
    case W16 => 0x1_0000
    case W32 => 0x1_0000_0000
    case W64 => 0x1_0000_0000_0000_0000
  }

  predicate InRange(t: Type, n: int) {
    if t.signed then -(Modulus(t.width) / 2) <= n < Modulus(t.width) / 2 else 0 <= n < Modulus(t.width)
  }

  /** %d or %u of the value, and a newline. */
  function DecimalText(n: int): string {
    if n < 0 then "-" + Numeral(-n, 10) else Numeral(n, 10)
  }

  function Shown(n: int): string { DecimalText(n) + "\n" }

  // ---------------------------------------------------------------- sscanf with %d and %u

  datatype Scanned = Scanned(negative: bool, magnitude: nat)

  /** Spaces, an optional sign, digits; None when there is no digit. */
  function ScanInt(s: string): Option<Scanned> {
    if s != [] && IsSpace(s[0]) then ScanInt(s[1..])
    else
      var signed := s != [] && (s[0] == '-' || s[0] == '+');
      match Scan(if signed then s[1..] else s, 10, |s|)
      case None => None
      case Some((n, _)) => Some(Scanned(signed && s[0] == '-', n))
  }

  /** strtoul, stored in a narrower unsigned integer */
  function Unsigned(x: Scanned, w: Width): (n: nat)
    ensures n < Modulus(w)
  {
    var all := Modulus(W64);
    var v: nat := if x.magnitude >= all then all - 1 else if x.negative then (all - x.magnitude) % all else x.magnitude;
    v % Modulus(w)
  }

  /** strtol, stored in a narrower signed integer */
  function Signed(x: Scanned, w: Width): (n: int)
    ensures -(Modulus(w) / 2) <= n < Modulus(w) / 2
  {
    var half := Modulus(W64) / 2;
    var v := if x.negative then if x.magnitude > half then -half else -(x.magnitude as int)
             else if x.magnitude >= half then half - 1 else x.magnitude;
    (v + Modulus(w) / 2) % Modulus(w) - Modulus(w) / 2
  }

  function Converted(x: Scanned, t: Type): (n: int)
    ensures InRange(t, n)
  {
    if t.signed then Signed(x, t.width) else Unsigned(x, t.width)
  }

  /** The number a text spells. */
  function Spelled(x: Scanned): int { if x.negative then -(x.magnitude as int) else x.magnitude }

  /** A number in range is stored as it is. */
  lemma InRangeExact(x: Scanned, t: Type)
    requires InRange(t, Spelled(x))
    ensures Converted(x, t) == Spelled(x)
  {
  }

  /** The widths are those of the C types. */
  lemma Widths(n: int)
    ensures InRange(Type(W8, false), n) <==> 0 <= n <= 255
    ensures InRange(Type(W16, false), n) <==> 0 <= n <= 65535
    ensures InRange(Type(W32, false), n) <==> 0 <= n <= 4294967295
    ensures InRange(Type(W64, false), n) <==> 0 <= n <= 18446744073709551615
    ensures InRange(Type(W8, true), n) <==> -128 <= n <= 127
    ensures InRange(Type(W16, true), n) <==> -32768 <= n <= 32767
    ensures InRange(Type(W32, true), n) <==> -2147483648 <= n <= 2147483647
    ensures InRange(Type(W64, true), n) <==> -9223372036854775808 <= n <= 9223372036854775807
  {
  }

  /** Numbers that agree modulo the width. */
  predicate Congruent(n: int, m: int, w: Width) { (n - m) % Modulus(w) == 0 }

  lemma DropsMultiples(v: int, k: int, m: nat)
    requires m in {0x100, 0x1_0000, 0x1_0000_0000, 0x1_0000_0000_0000_0000} && 0 <= k < m
    ensures ((v + k) % m - k - v) % m == 0
  {
    var q, r := (v + k) / m, (v + k) % m;
    assert v + k == q * m + r;
    if m == 0x100 { assert (r - k - v) == -q * 0x100; }
    else if m == 0x1_0000 { assert (r - k - v) == -q * 0x1_0000; }
    else if m == 0x1_0000_0000 { assert (r - k - v) == -q * 0x1_0000_0000; }
    else { assert (r - k - v) == -q * 0x1_0000_0000_0000_0000; }
  }

  lemma MultipleOf(n: int, k: int, w: Width)
    requires n == k * Modulus(w)
    ensures n % Modulus(w) == 0
  {
  }

  lemma WrapsTwice(v: int, w: Width)
    ensures Congruent(v % Modulus(W64) % Modulus(w), v, w)
  {
    var q, u := v / 0x1_0000_0000_0000_0000, v % 0x1_0000_0000_0000_0000;
    assert v == q * 0x1_0000_0000_0000_0000 + u;
    match w
    case W8 => MultipleOf(u % 0x100 - v, -(u / 0x100) - q * 0x100_0000_0000_0000, w);
    case W16 => MultipleOf(u % 0x1_0000 - v, -(u / 0x1_0000) - q * 0x1_0000_0000_0000, w);
    case W32 => MultipleOf(u % 0x1_0000_0000 - v, -(u / 0x1_0000_0000) - q * 0x1_0000_0000, w);
    case W64 => MultipleOf(u - v, -q, w);
  }

  lemma TwosComplement(x: Scanned)
    requires x.magnitude < 0x1_0000_0000_0000_0000
    ensures Spelled(x) % 0x1_0000_0000_0000_0000
         == if x.negative then (0x1_0000_0000_0000_0000 - x.magnitude) % 0x1_0000_0000_0000_0000 else x.magnitude
  {
  }

  lemma AllOnes(w: Width)
    ensures 0xFFFF_FFFF_FFFF_FFFF % Modulus(w) == Modulus(w) - 1
  {
  }

  /** An unsigned attribute stores the number modulo its width, and for 2^64 and more its largest value. */
  lemma UnsignedWraps(x: Scanned, w: Width)
    ensures if x.magnitude < 0x1_0000_0000_0000_0000 then Congruent(Unsigned(x, w), Spelled(x), w)
            else Unsigned(x, w) == Modulus(w) - 1
  {
    if x.magnitude < 0x1_0000_0000_0000_0000 {
      WrapsTwice(Spelled(x), w);
      TwosComplement(x);
    } else {
      AllOnes(w);
    }
  }

  lemma LargestWraps(w: Width)
    ensures (0x7FFF_FFFF_FFFF_FFFF + Modulus(w) / 2) % Modulus(w) - Modulus(w) / 2
         == if w == W64 then 0x7FFF_FFFF_FFFF_FFFF else -1
  {
  }

  lemma SmallestWraps(w: Width)
    ensures (-0x8000_0000_0000_0000 + Modulus(w) / 2) % Modulus(w) - Modulus(w) / 2
         == if w == W64 then -0x8000_0000_0000_0000 else 0
  {
  }

  /**
   * A signed one stores it modulo its width too; beyond 64 bits it stores the nearest number of 64 bits
   * so.
   */
  lemma SignedWraps(x: Scanned, w: Width)
    ensures var half := 0x8000_0000_0000_0000; var n := Spelled(x);
      if n >= half then Signed(x, w) == (if w == W64 then half - 1 else -1)
      else if n < -half then Signed(x, w) == (if w == W64 then -half else 0)
      else Congruent(Signed(x, w), n, w)
  {
    var half, n := 0x8000_0000_0000_0000, Spelled(x);
    if n >= half {
      LargestWraps(w);
    } else if n < -half {
      SmallestWraps(w);
    } else {
      DropsMultiples(n, Modulus(w) / 2, Modulus(w));
      assert Signed(x, w) == (n + Modulus(w) / 2) % Modulus(w) - Modulus(w) / 2;
    }
  }

  // ---------------------------------------------------------------- canonical text

  function Power(k: nat): (p: nat)
    ensures p > 0 && (k == 1 ==> p == 10)
  {
    if k == 0 then 1 else 10 * Power(k - 1)
  }

  lemma {:induction false} NumeralShort(n: nat, k: nat, bound: nat)
    requires k > 0 && n < bound && bound == Power(k)
    ensures |Numeral(n, 10)| <= k
    decreases k
  {
    if n >= 10 {
      assert k > 1;
      NumeralShort(n / 10, k - 1, Power(k - 1));
    }
  }

  lemma Power20()
    ensures Power(20) > Modulus(W64)
  {
    assert Power(5) == 100000;
    assert Power(10) == 10000000000;
    assert Power(15) == 1000000000000000;
  }

  lemma TextShort(t: Type, n: int)
    requires InRange(t, n)
    ensures |Shown(n)| < 1023
  {
    Power20();
    NumeralShort(if n < 0 then -n else n, 20, Power(20));
  }

  lemma ScanAtMost(m: nat)
    ensures Scan(Numeral(m, 10) + "\n", 10, |Numeral(m, 10) + "\n"|) == Some((m, "\n"))
  {
    ScanNumeral(m, "\n", 10, |Numeral(m, 10) + "\n"|);
  }

  /** The canonical text of a number spells it. */
  lemma TextSpells(n: int)
    ensures ScanInt(Shown(n)) == Some(Scanned(n < 0, if n < 0 then -n else n))
  {
    var m: nat := if n < 0 then -n else n;
    var digits := Numeral(m, 10);
    assert ValueOf(digits[0]) < 10;
    if n < 0 {
      assert Shown(n)[1..] == digits + "\n";
      ScanNumeral(m, "\n", 10, |Shown(n)|);
    } else {
      ScanAtMost(m);
    }
  }

  lemma ScansUnsigned(digits: string, tail: string)
    requires digits != [] && Digits(digits, 10) && (tail != [] ==> ValueOf(tail[0]) >= 10)
    ensures ScanInt(digits + tail) == Some(Scanned(false, NumberOf(digits, 10)))
  {
    assert ValueOf((digits + tail)[0]) < 10;
    ScanDigits(digits, tail, 10, |digits + tail|);
  }

  lemma ScansSign(s: string, n: nat, rest: string)
    requires s != [] && (s[0] == '-' || s[0] == '+') && Scan(s[1..], 10, |s|) == Some((n, rest))
    ensures ScanInt(s) == Some(Scanned(s[0] == '-', n))
  {
  }

  lemma ScansSigned(sign: string, digits: string, tail: string)
    requires sign == "" || sign == "-" || sign == "+"
    requires digits != [] && Digits(digits, 10) && (tail != [] ==> ValueOf(tail[0]) >= 10)
    ensures ScanInt(sign + (digits + tail)) == Some(Scanned(sign == "-", NumberOf(digits, 10)))
  {
    var number := digits + tail;
    if sign == "" {
      ScansUnsigned(digits, tail);
      assert sign + number == number;
    } else {
      var s := sign + number;
      assert s[0] == sign[0] && s[1..] == number;
      ScanDigits(digits, tail, 10, |s|);
      ScansSign(s, NumberOf(digits, 10), tail);
    }
  }

  /** White space, an optional sign and digits, up to what is no digit, are read as their number. */
  lemma {:induction false} ScansNumber(spaces: string, sign: string, digits: string, tail: string)
    requires (forall i :: 0 <= i < |spaces| ==> IsSpace(spaces[i])) && (sign == "" || sign == "-" || sign == "+")
    requires digits != [] && Digits(digits, 10) && (tail != [] ==> ValueOf(tail[0]) >= 10)
    ensures ScanInt(spaces + (sign + (digits + tail))) == Some(Scanned(sign == "-", NumberOf(digits, 10)))
    decreases |spaces|
  {
    var rest := sign + (digits + tail);
    if spaces == [] {
      ScansSigned(sign, digits, tail);
      assert spaces + rest == rest;
    } else {
      assert (spaces + rest)[1..] == spaces[1..] + rest;
      ScansNumber(spaces[1..], sign, digits, tail);
    }
  }

  /** Without a digit there is no number. */
  lemma {:induction false} ScansNothing(spaces: string, sign: string, tail: string)
    requires (forall i :: 0 <= i < |spaces| ==> IsSpace(spaces[i])) && (sign == "" || sign == "-" || sign == "+")
    requires tail != [] ==> ValueOf(tail[0]) >= 10 && !IsSpace(tail[0]) && tail[0] != '-' && tail[0] != '+'
    ensures ScanInt(spaces + (sign + tail)) == None
    decreases |spaces|
  {
    var rest := sign + tail;
    if spaces == [] {
      assert spaces + rest == rest;
      if sign == "" { assert rest == tail; } else { assert rest[1..] == tail; }
    } else {
      assert (spaces + rest)[1..] == spaces[1..] + rest;
      ScansNothing(spaces[1..], sign, tail);
    }
  }

  /** A negative number is shown with a minus sign; numerals have no leading zeros. */
  lemma {:induction false} NoLeadingZero(n: nat)
    requires n > 0
    ensures Numeral(n, 10)[0] != '0'
    decreases n
  {
    if n >= 10 { NoLeadingZero(n / 10); }
  }

  /** For one: 300 and -1 written to unsigned and signed attributes of eight bits. */
  lemma SmallWraps()
    ensures Unsigned(Scanned(false, 300), W8) == 44 && Unsigned(Scanned(true, 1), W8) == 255
    ensures Signed(Scanned(false, 200), W8) == -56 && Signed(Scanned(true, 1), W8) == -1
    ensures Shown(-42) == "-42\n" && Shown(7) == "7\n"
  {
    assert Numeral(42, 10) == Numeral(4, 10) + [CharOf(2)];
    assert Numeral(4, 10) == "4" && Numeral(7, 10) == "7" && [CharOf(2)] == "2";
    assert "-" + ("4" + "2") == "-42";
  }

  // ---------------------------------------------------------------- the entry

  class IntEntry {
    const t: Type
    var value: int
    var size: nat

    predicate Valid()
      reads this
    {
      InRange(t, value)
    }

    constructor (t: Type)
      ensures Valid() && this.t == t && value == 0
    {
      this.t := t;
      value, size := 0, 0;
    }

    /** _get_* */
    function Get(): string
      reads this
    {
      Shown(value)
    }

    /** _set_*: text of 1023 bytes or more does not fit the copy on the stack. */
    method Set(buf: string, o: nat) returns (r: Written)
      requires Valid()
      modifies this
      ensures Valid()
      ensures if |buf| >= 1023 then r == Refused(ENOSPC) && value == old(value) && size == old(size)
              else match ScanInt(buf)
                case None => r == Refused(EINVAL) && value == old(value) && size == old(size)
                case Some(x) =>
                  && r == Took(|buf|) && value == Converted(x, t) && size == |Get()|
                  && (InRange(t, Spelled(x)) ==> Get() == Shown(Spelled(x)))
    {
      if |buf| >= 1023 {
        return Refused(ENOSPC);
      }
      var x := ScanInt(buf);
      if x.None? {
        return Refused(EINVAL);
      }
      if InRange(t, Spelled(x.value)) { InRangeExact(x.value, t); }
      value := Converted(x.value, t);
      size := |Shown(value)|;
      r := Took(|buf|);
    }
  }

  lemma WriteBackExact(t: Type, n: int)
    requires InRange(t, n)
    ensures |Shown(n)| < 1023 && ScanInt(Shown(n)).Some? && Converted(ScanInt(Shown(n)).value, t) == n
  {
    TextShort(t, n);
    TextSpells(n);
    InRangeExact(ScanInt(Shown(n)).value, t);
  }

  /**
   * What an entry shows can be written back: it is accepted whole and shown alike. The size is then that
   * of the text, which a fresh entry does not yet report.
   */
  method WriteBack(e: IntEntry)
    requires e.Valid()
    modifies e
    ensures e.Valid() && e.value == old(e.value) && e.Get() == old(e.Get()) && e.size == |e.Get()|
  {
    WriteBackExact(e.t, e.value);
    var r := e.Set(e.Get(), 0);
  }

  /** Texts of numbers in range show alike exactly when they spell the same number. */
  lemma CanonicalIff(t: Type, x: Scanned, y: Scanned)
    requires InRange(t, Spelled(x)) && InRange(t, Spelled(y))
    ensures Shown(Converted(x, t)) == Shown(Converted(y, t)) <==> Spelled(x) == Spelled(y)
  {
    InRangeExact(x, t);
    InRangeExact(y, t);
    TextSpells(Spelled(x));
    TextSpells(Spelled(y));
  }
}
