/** Integers as text: String(n) for integers, the lenient parseInt(s) used on the
    consent status cookie, and the integer part of the JSON number grammar. */
module Decimal {
  import opened Common

  predicate IsDigit(c: char) { '0' <= c <= '9' }

  function DigitChar(d: nat): (c: char)
    requires d < 10
    ensures IsDigit(c) && RadixDigit(c, 10) == Some(d)
  {
    ('0' as int + d) as char
  }

  /** The value of c as a digit of the given radix (10, or 16 after a "0x" prefix). */
  function RadixDigit(c: char, radix: nat): (r: Option<nat>)
    ensures r.Some? ==> r.value < radix
  {
    if '0' <= c <= '9' && (c as int - '0' as int) < radix then Some(c as int - '0' as int)
    else if radix == 16 && 'a' <= c <= 'f' then Some(c as int - 'a' as int + 10)
    else if radix == 16 && 'A' <= c <= 'F' then Some(c as int - 'A' as int + 10)
    else None
  }

  predicate AllRadixDigits(s: string, radix: nat) {
    forall i :: 0 <= i < |s| ==> RadixDigit(s[i], radix).Some?
  }

  /** The value of a string of radix digits, most significant first. */
  function ValueIn(s: string, radix: nat): nat
    requires AllRadixDigits(s, radix)
    decreases |s|
  {
    if s == [] then 0
    else ValueIn(s[..|s| - 1], radix) * radix + RadixDigit(s[|s| - 1], radix).value
  }

  /** Length of the longest prefix of s made of radix digits. */
  function DigitRun(s: string, radix: nat): (n: nat)
    ensures n <= |s| && AllRadixDigits(s[..n], radix)
    ensures n < |s| ==> RadixDigit(s[n], radix).None?
  {
    if s == [] || RadixDigit(s[0], radix).None? then 0
    else
      var n := 1 + DigitRun(s[1..], radix);
      assert s[..n] == [s[0]] + s[1..][..n - 1];
      n
  }

  /** String(n) for a natural number: its decimal digits, most significant first. */
  function NatToString(n: nat): (r: string)
    decreases n
    ensures |r| >= 1 && AllRadixDigits(r, 10)
  {
    if n < 10 then [DigitChar(n)] else NatToString(n / 10) + [DigitChar(n % 10)]
  }

  /** String(i) for an integer. */
  function IntToString(i: int): (r: string)
    ensures |r| >= 1
  {
    if i < 0 then "-" + NatToString(-i) else NatToString(i)
  }

  /** The digits of n read back give n. */
  lemma {:induction false} NatToStringValue(n: nat)
    ensures ValueIn(NatToString(n), 10) == n
    decreases n
  {
    if n >= 10 {
      NatToStringValue(n / 10);
      var s := NatToString(n);
      assert s[..|s| - 1] == NatToString(n / 10);
    }
  }

  /** A decimal numeral never has a leading zero, unless it is "0". */
  lemma {:induction false} NatToStringLeadingDigit(n: nat)
    ensures NatToString(n)[0] == '0' <==> n == 0
    ensures n == 0 ==> NatToString(n) == "0"
    decreases n
  {
    if n >= 10 {
      NatToStringLeadingDigit(n / 10);
    }
  }

  /** Appending characters that are not digits does not change the run of digits. */
  lemma {:induction false} DigitRunOfDigitsThen(d: string, rest: string, radix: nat)
    requires AllRadixDigits(d, radix)
    requires rest == [] || RadixDigit(rest[0], radix).None?
    ensures DigitRun(d + rest, radix) == |d|
    ensures (d + rest)[..|d|] == d && (d + rest)[|d|..] == rest
    decreases |d|
  {
    if d != [] {
      assert (d + rest)[0] == d[0] && (d + rest)[1..] == d[1..] + rest;
      assert AllRadixDigits(d[1..], radix) by {
        forall i | 0 <= i < |d[1..]| ensures RadixDigit(d[1..][i], radix).Some? { assert d[1..][i] == d[i + 1]; }
      }
      DigitRunOfDigitsThen(d[1..], rest, radix);
    } else {
      assert d + rest == rest;
    }
  }

  /** parseInt(s) with no radix, NaN as None: skip leading white space, read an
      optional sign, a "0x"/"0X" prefix switches to hexadecimal, then read the
      longest run of digits; no digit at all gives NaN. */
  function ParseInt(s: string): (r: Option<int>)
  {
    var t := s[LeadingSpace(s)..];
    var negative := |t| > 0 && t[0] == '-';
    var u := if |t| > 0 && (t[0] == '-' || t[0] == '+') then t[1..] else t;
    var hex := StartsWith(u, "0x") || StartsWith(u, "0X");
    var radix := if hex then 16 else 10;
    var v := if hex then u[2..] else u;
    var n := DigitRun(v, radix);
    if n == 0 then None
    else Some(if negative then -(ValueIn(v[..n], radix) as int) else ValueIn(v[..n], radix))
  }

  /** parseInt on the digits of String(m) with no leading space or sign. */
  lemma ParseIntOfNatDigits(m: nat)
    ensures var d := NatToString(m); var u := d[LeadingSpace(d)..];
      LeadingSpace(d) == 0 && !(|u| > 0 && (u[0] == '-' || u[0] == '+'))
      && !StartsWith(u, "0x") && !StartsWith(u, "0X")
      && DigitRun(u, 10) == |u| && u[..|u|] == u && ValueIn(u, 10) == m
  {
    var d := NatToString(m);
    ReadNatDigits(m, []);
    assert d + [] == d;
    assert !IsJsSpace(d[0]);
    assert d[0..] == d;
    NatToStringNotHex(m);
  }

  /** String(m) never starts with a hexadecimal prefix: its second character is a digit. */
  lemma NatToStringNotHex(m: nat)
    ensures !StartsWith(NatToString(m), "0x") && !StartsWith(NatToString(m), "0X")
  {
    var d := NatToString(m);
    if |d| >= 2 { assert RadixDigit(d[1], 10).Some?; }
  }

  /** parseInt on the digits of String(m). */
  lemma ParseIntOfNat(m: nat)
    ensures ParseInt(NatToString(m)) == Some(m)
  {
    ParseIntOfNatDigits(m);
  }

  /** parseInt on a minus sign followed by the digits of String(m). */
  lemma ParseIntOfNegated(m: nat)
    ensures ParseInt("-" + NatToString(m)) == Some(-(m as int))
  {
    var d := NatToString(m);
    var s := "-" + d;
    ParseIntOfNatDigits(m);
    assert d[0..] == d;
    assert LeadingSpace(s) == 0;
    var t := s[LeadingSpace(s)..];
    assert t == s && |t| > 0 && t[0] == '-';
    assert t[1..] == d;
  }

  /** parseInt(String(i)) == i: a status written to its cookie reads back unchanged. */
  lemma ParseIntOfIntToString(i: int)
    ensures ParseInt(IntToString(i)) == Some(i)
  {
    var s := IntToString(i);
    if i < 0 {
      var m: nat := -i;
      assert s == "-" + NatToString(m);
      ParseIntOfNegated(m);
    } else {
      var m: nat := i;
      assert s == NatToString(m);
      ParseIntOfNat(m);
    }
  }

  /** A text that does not start with white space, a sign or a digit reads as NaN
      (so do the texts "null" and "undefined" that an absent status can leave). */
  lemma ParseIntRejects(s: string)
    requires s == [] || (!IsJsSpace(s[0]) && s[0] != '-' && s[0] != '+' && !IsDigit(s[0]))
    ensures ParseInt(s) == None
  {
    assert LeadingSpace(s) == 0;
    assert s[0..] == s;
    assert !StartsWith(s, "0x") && !StartsWith(s, "0X");
  }

  /** The integer part of a JSON number, -?(0|[1-9][0-9]*), read from the front
      of s; returns the value and the text after it. */
  function ParseJsonInt(s: string): (r: Option<(int, string)>)
    ensures r.Some? ==> |r.value.1| < |s|
  {
    var negative := |s| > 0 && s[0] == '-';
    var u := if negative then s[1..] else s;
    if u == [] || !IsDigit(u[0]) then None
    else if u[0] == '0' then Some((0, u[1..]))
    else
      var n := DigitRun(u, 10);
      var v := ValueIn(u[..n], 10);
      Some((if negative then -(v as int) else v, u[n..]))
  }

  /** The digits of String(m) followed by a non-digit: where the run of
      digits ends and what it is worth. */
  lemma ReadNatDigits(m: nat, rest: string)
    requires rest == [] || !IsDigit(rest[0])
    ensures var d := NatToString(m); var u := d + rest;
      |u| > 0 && IsDigit(u[0]) && (u[0] == '0' <==> m == 0)
      && (m == 0 ==> u[1..] == rest)
      && DigitRun(u, 10) == |d| && u[..|d|] == d && u[|d|..] == rest
      && ValueIn(d, 10) == m
  {
    var d := NatToString(m);
    var u := d + rest;
    NatToStringLeadingDigit(m);
    assert u[0] == d[0];
    assert RadixDigit(d[0], 10).Some?;
    assert rest == [] || RadixDigit(rest[0], 10).None?;
    DigitRunOfDigitsThen(d, rest, 10);
    NatToStringValue(m);
  }

  /** ParseJsonInt on the digits of String(m) followed by a non-digit. */
  lemma ParseJsonIntOfNat(m: nat, rest: string)
    requires rest == [] || !IsDigit(rest[0])
    ensures ParseJsonInt(NatToString(m) + rest) == Some((m, rest))
  {
    ReadNatDigits(m, rest);
  }

  /** ParseJsonInt on a minus sign, the digits of String(m) and a non-digit. */
  lemma ParseJsonIntOfNegated(m: nat, rest: string)
    requires rest == [] || !IsDigit(rest[0])
    ensures ParseJsonInt("-" + (NatToString(m) + rest)) == Some((-(m as int), rest))
  {
    var s := "-" + (NatToString(m) + rest);
    assert s[0] == '-' && s[1..] == NatToString(m) + rest;
    ReadNatDigits(m, rest);
  }

  /** Reading back String(i) followed by a non-digit gives i and what follows. */
  lemma ParseJsonIntOfIntToString(i: int, rest: string)
    requires rest == [] || !IsDigit(rest[0])
    ensures ParseJsonInt(IntToString(i) + rest) == Some((i, rest))
  {
    var s := IntToString(i) + rest;
    if i < 0 {
      var m: nat := -i;
      assert s == "-" + (NatToString(m) + rest);
      ParseJsonIntOfNegated(m, rest);
    } else {
      var m: nat := i;
      assert s == NatToString(m) + rest;
      ParseJsonIntOfNat(m, rest);
    }
  }
}
