/** Printing and parsing numbers as the C++ library does: decimal and two-digit
    hexadecimal output, and `stoul` / `stoi`. */
module Numerals {
  import opened Bytes

  datatype Parsed = Number(value: int) | InvalidArgument | OutOfRange

  function Decimal(n: nat): (s: Text)
    ensures |s| > 0
  {
    if n < 10 then [48 + n] else Decimal(n / 10) + [48 + n % 10]
  }

  function HexDigit(d: nat): byte
    requires d < 16
  {
    if d < 10 then 48 + d else 87 + d
  }

  function Hex2(b: byte): Text {
    [HexDigit(b / 16), HexDigit(b % 16)]
  }

  function DigitValue(c: byte): int {
    if 48 <= c <= 57 then c - 48
    else if 97 <= c <= 122 then c as int - 87
    else if 65 <= c <= 90 then c as int - 55
    else 36
  }

  predicate IsDigit(c: byte, radix: int) {
    DigitValue(c) < radix
  }

  predicate IsSpace(c: byte) {
    c == 32 || 9 <= c <= 13
  }

  predicate AllDigits(s: Text, radix: int) {
    forall c :: c in s ==> IsDigit(c, radix)
  }

  function SkipSpace(s: Text): Text {
    if s != [] && IsSpace(s[0]) then SkipSpace(s[1..]) else s
  }

  function DigitPrefix(s: Text, radix: int): (k: nat)
    ensures k <= |s|
  {
    if s != [] && IsDigit(s[0], radix) then 1 + DigitPrefix(s[1..], radix) else 0
  }

  function Numeral(s: Text, radix: int): int {
    if s == [] then 0 else radix * Numeral(s[..|s| - 1], radix) + DigitValue(s[|s| - 1])
  }

  /** Optional white space, an optional sign, then the longest run of digits;
      anything after it is ignored. The result is the magnitude and its sign. */
  function Scan(s: Text, radix: int): Option<(bool, int)> {
    var t := SkipSpace(s);
    var negative := t != [] && t[0] == 45;
    var u := if t != [] && (t[0] == 45 || t[0] == 43) then t[1..] else t;
    var k := DigitPrefix(u, radix);
    if k == 0 then None else Some((negative, Numeral(u[..k], radix)))
  }

  /** `std::stoul` on a 64-bit `unsigned long`; a minus sign negates modulo 2^64. */
  function Stoul(s: Text, radix: int): Parsed {
    match Scan(s, radix)
    case None => InvalidArgument
    case Some((negative, v)) =>
      if v >= TWO64 then OutOfRange else Number(if negative then (-v) % TWO64 else v)
  }

  /** `std::stoi` on a 32-bit `int`. */
  function Stoi(s: Text): Parsed {
    match Scan(s, 10)
    case None => InvalidArgument
    case Some((negative, m)) =>
      var v := if negative then -m else m;
      if -0x8000_0000 <= v < 0x8000_0000 then Number(v) else OutOfRange
  }

  lemma {:induction false} DecimalDigits(n: nat)
    ensures AllDigits(Decimal(n), 10) && Numeral(Decimal(n), 10) == n
  {
    if n < 10 {
      assert Decimal(n)[..0] == [];
    } else {
      DecimalDigits(n / 10);
      assert Decimal(n)[..|Decimal(n)| - 1] == Decimal(n / 10);
    }
  }

  lemma {:induction false} AllDigitsPrefix(s: Text, radix: int)
    requires AllDigits(s, radix)
    ensures DigitPrefix(s, radix) == |s|
  {
    if s != [] {
      assert s[0] in s;
      AllDigitsPrefix(s[1..], radix);
    }
  }

  lemma ScanDigits(s: Text, radix: int)
    requires s != [] && AllDigits(s, radix) && radix <= 36
    ensures Scan(s, radix) == Some((false, Numeral(s, radix)))
  {
    assert s[0] in s;
    AllDigitsPrefix(s, radix);
    assert s[..|s|] == s;
  }

  /** Reading back a printed number. */
  lemma DecimalRoundTrip(n: nat)
    ensures n < TWO64 ==> Stoul(Decimal(n), 10) == Number(n)
    ensures n < 0x8000_0000 ==> Stoi(Decimal(n)) == Number(n)
  {
    DecimalDigits(n);
    ScanDigits(Decimal(n), 10);
  }

  lemma HexRoundTrip(b: byte)
    ensures Stoul(Hex2(b), 16) == Number(b)
  {
    var s := Hex2(b);
    ScanDigits(s, 16);
    assert s[..1] == [s[0]] && s[..1][..0] == [];
    assert Numeral(s[..1], 16) == b / 16;
  }

  /** Printed as the library prints: most significant digit first, no leading zero. */
  lemma {:induction false} DecimalForm(n: nat)
    ensures n > 0 ==> 49 <= Decimal(n)[0] <= 57
    ensures n == 0 ==> Decimal(n) == [48]
    ensures Decimal(n)[|Decimal(n)| - 1] == 48 + n % 10
  {
    if n >= 10 {
      DecimalForm(n / 10);
    }
  }

  /** The characters that count, and for how much. */
  lemma DigitTable(c: byte)
    ensures IsDigit(c, 10) <==> 48 <= c <= 57
    ensures IsDigit(c, 16) <==> 48 <= c <= 57 || 65 <= c <= 70 || 97 <= c <= 102
    ensures 48 <= c <= 57 ==> DigitValue(c) == c - 48
    ensures 65 <= c <= 70 ==> DigitValue(c) == c - 55
    ensures 97 <= c <= 102 ==> DigitValue(c) == c - 87
  {
  }

  predicate AllSpace(s: Text) {
    forall c :: c in s ==> c == 32 || 9 <= c <= 13
  }

  lemma {:induction false} SkipSpaces(spaces: Text, rest: Text)
    requires AllSpace(spaces) && (rest == [] || !IsSpace(rest[0]))
    ensures SkipSpace(spaces + rest) == rest
  {
    if spaces == [] {
      assert spaces + rest == rest;
    } else {
      assert spaces[0] in spaces;
      assert forall c :: c in spaces[1..] ==> c in spaces;
      SkipSpaces(spaces[1..], rest);
      assert (spaces + rest)[1..] == spaces[1..] + rest;
    }
  }

  lemma {:induction false} LongestDigits(digits: Text, tail: Text, radix: int)
    requires AllDigits(digits, radix) && (tail == [] || !IsDigit(tail[0], radix))
    ensures DigitPrefix(digits + tail, radix) == |digits|
  {
    if digits == [] {
      assert digits + tail == tail;
    } else {
      assert digits[0] in digits;
      LongestDigits(digits[1..], tail, radix);
      assert (digits + tail)[1..] == digits[1..] + tail;
    }
  }

  /** A text taken apart: white space, a sign, digits and a rest, each possibly empty. */
  ghost predicate Parts(spaces: Text, sign: Text, digits: Text, tail: Text, radix: int) {
    && (radix == 10 || radix == 16) && AllSpace(spaces) && AllDigits(digits, radix)
    && (sign == [] || sign == [43] || sign == [45])
    && (tail != [] ==> !IsDigit(tail[0], radix))
    && (sign == [] && digits == [] && tail != [] ==> !IsSpace(tail[0]) && tail[0] != 43 && tail[0] != 45)
  }

  lemma ScanOf(spaces: Text, sign: Text, digits: Text, tail: Text, radix: int)
    requires Parts(spaces, sign, digits, tail, radix)
    ensures Scan(spaces + (sign + (digits + tail)), radix) ==
            if digits == [] then None else Some((sign == [45], Numeral(digits, radix)))
  {
    hide AllDigits, AllSpace, DigitPrefix, SkipSpace, Numeral;
    var u := digits + tail;
    var t := sign + u;
    if digits != [] {
      FirstIsDigit(digits, radix);
    }
    assert sign == [] ==> t == u;
    SkipSpaces(spaces, t);
    assert sign != [] ==> t[1..] == u;
    LongestDigits(digits, tail, radix);
    assert u[..|digits|] == digits;
  }

  lemma FirstIsDigit(digits: Text, radix: int)
    requires digits != [] && AllDigits(digits, radix)
    ensures IsDigit(digits[0], radix)
  {
    assert digits[0] in digits;
  }

  /** What reading makes of any text depends on its sign and digits only. */
  lemma ReadingOf(spaces: Text, sign: Text, digits: Text, tail: Text, radix: int)
    requires Parts(spaces, sign, digits, tail, radix)
    ensures var s, v := spaces + (sign + (digits + tail)), Numeral(digits, radix);
            && Stoul(s, radix) == (if digits == [] then InvalidArgument
                                   else if v >= 0x1_0000_0000_0000_0000 then OutOfRange
                                   else Number(if sign == [45] then (-v) % TWO64 else v))
            && (radix == 10 ==>
                  var w := if sign == [45] then -v else v;
                  Stoi(s) == if digits == [] then InvalidArgument
                             else if -0x8000_0000 <= w <= 0x7FFF_FFFF then Number(w) else OutOfRange)
  {
    hide Scan, Parts, Numeral;
    ScanOf(spaces, sign, digits, tail, radix);
  }

  lemma NumeralGrows(s: Text, c: byte, radix: int)
    ensures Numeral(s + [c], radix) == radix * Numeral(s, radix) + DigitValue(c)
  {
    assert (s + [c])[..|s|] == s;
  }
}
