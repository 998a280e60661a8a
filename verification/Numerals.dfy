/** Numerals as printf writes them and sscanf reads them, in base 10 and 16. */
module Numerals {
  import opened Wrappers

  predicate IsBase(base: nat) { base == 10 || base == 16 }

  function CharOf(n: nat): (c: char)
    requires n < 16
  {
    if n < 10 then (n + 48) as char else (n + 87) as char
  }

  /** The digit's value; base or more for what is no digit. */
  function ValueOf(c: char): (v: nat) {
    if '0' <= c <= '9' then c as nat - 48
    else if 'a' <= c <= 'f' then c as nat - 87
    else if 'A' <= c <= 'F' then c as nat - 55
    else 16
  }

  predicate Digits(s: string, base: nat) {
    forall i :: 0 <= i < |s| ==> ValueOf(s[i]) < base
  }

  /** Without leading zeros. */
  function Numeral(n: nat, base: nat): (s: string)
    requires IsBase(base)
    ensures s != [] && Digits(s, base)
    decreases n
  {
    if n < base then [CharOf(n)] else Numeral(n / base, base) + [CharOf(n % base)]
  }

  function NumberOf(s: string, base: nat): nat {
    if s == [] then 0 else base * NumberOf(s[..|s| - 1], base) + ValueOf(s[|s| - 1])
  }

  /** How many characters a conversion of at most width takes: leading digits. */
  function Run(s: string, base: nat, width: nat): (k: nat)
    ensures k <= |s| && k <= width && Digits(s[..k], base)
    ensures k < |s| && k < width ==> ValueOf(s[k]) >= base
  {
    if s == [] || width == 0 || ValueOf(s[0]) >= base then 0
    else
      var k := Run(s[1..], base, width - 1);
      assert s[..k + 1] == [s[0]] + s[1..][..k];
      k + 1
  }

  /** %u, %x and the like without sign or space: the number read and what is left. */
  function Scan(s: string, base: nat, width: nat): Option<(nat, string)> {
    var k := Run(s, base, width);
    if k == 0 then None else Some((NumberOf(s[..k], base), s[k..]))
  }

  /** A literal character of the format. */
  function Expect(s: string, c: char): Option<string> {
    if s == [] || s[0] != c then None else Some(s[1..])
  }

  lemma Appended(s: string, c: char, base: nat)
    ensures NumberOf(s + [c], base) == base * NumberOf(s, base) + ValueOf(c)
  {
    assert (s + [c])[..|s|] == s;
  }

  lemma Divided(n: nat, base: nat)
    requires IsBase(base)
    ensures base * (n / base) + n % base == n
  {
    if base == 10 { assert 10 * (n / 10) + n % 10 == n; }
  }

  lemma {:induction false} NumeralTrip(n: nat, base: nat)
    requires IsBase(base)
    ensures NumberOf(Numeral(n, base), base) == n
    decreases n
  {
    if n >= base {
      NumeralTrip(n / base, base);
      Appended(Numeral(n / base, base), CharOf(n % base), base);
      Divided(n, base);
    } else {
      Appended([], CharOf(n), base);
      assert [] + [CharOf(n)] == [CharOf(n)];
    }
  }

  lemma {:induction false} RunOf(s: string, tail: string, base: nat, width: nat)
    requires Digits(s, base) && |s| <= width
    requires |s| < width && tail != [] ==> ValueOf(tail[0]) >= base
    ensures Run(s + tail, base, width) == |s|
  {
    if s != [] {
      assert (s + tail)[1..] == s[1..] + tail;
      RunOf(s[1..], tail, base, width - 1);
    } else {
      assert s + tail == tail;
    }
  }

  /** A run of digits followed by something else is read whole, leaving what follows. */
  lemma ScanDigits(s: string, tail: string, base: nat, width: nat)
    requires s != [] && Digits(s, base) && |s| <= width
    requires |s| < width && tail != [] ==> ValueOf(tail[0]) >= base
    ensures Scan(s + tail, base, width) == Some((NumberOf(s, base), tail))
  {
    RunOf(s, tail, base, width);
    assert (s + tail)[..|s|] == s && (s + tail)[|s|..] == tail;
  }

  lemma ScanNumeral(n: nat, tail: string, base: nat, width: nat)
    requires IsBase(base) && |Numeral(n, base)| < width && (tail != [] ==> ValueOf(tail[0]) >= base)
    ensures Scan(Numeral(n, base) + tail, base, width) == Some((n, tail))
  {
    NumeralTrip(n, base);
    ScanDigits(Numeral(n, base), tail, base, width);
  }

  /** A numeral for an octet has one to three digits. */
  lemma OctetDigits(n: nat)
    requires n < 256
    ensures |Numeral(n, 10)| == if n < 100 then if n < 10 then 1 else 2 else 3
  {
    if n >= 100 { assert n / 10 / 10 < 10; }
  }
}
