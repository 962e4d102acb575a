// What a numeric reference stands for: the character of its number, in decimal or in
// hexadecimal, as long as it is one a document carries.
module XmlReferences {
  import opened Wrappers
  import opened XmlPrinter
  import opened XmlGrammar
  import opened XmlRoundTrip

  // The digits of a number, the last worth least; letters in either case, zeros in front.
  ghost predicate WritesDecimal(digits: string, n: nat)
    decreases |digits|
  {
    if digits == "" then n == 0
    else
      var last := digits[|digits| - 1];
      '0' <= last <= '9' && last as int - '0' as int == n % 10 && WritesDecimal(digits[..|digits| - 1], n / 10)
  }

  predicate HexDigit(c: char, d: nat)
    requires d < 16
  {
    c == "0123456789abcdef"[d] || c == "0123456789ABCDEF"[d]
  }

  ghost predicate WritesHex(digits: string, n: nat)
    decreases |digits|
  {
    if digits == "" then n == 0
    else
      var last := digits[|digits| - 1];
      HexDigit(last, n % 16) && WritesHex(digits[..|digits| - 1], n / 16)
  }

  lemma {:induction false} DecimalIs(digits: string, n: nat)
    requires WritesDecimal(digits, n)
    ensures NumberValue(digits, 10) == n && forall i :: 0 <= i < |digits| ==> IsDigit(digits[i])
  {
    if digits != "" {
      DecimalIs(digits[..|digits| - 1], n / 10);
      assert digits == digits[..|digits| - 1] + [digits[|digits| - 1]];
    }
  }

  lemma HexDigitIs(c: char, d: nat)
    requires d < 16 && HexDigit(c, d)
    ensures IsHex(c) && DigitValue(c) == d
  {
  }

  lemma HexSnoc(digits: string)
    requires digits != ""
    ensures NumberValue(digits, 16) == 16 * NumberValue(digits[..|digits| - 1], 16) + DigitValue(digits[|digits| - 1])
  {
  }

  lemma {:induction false} HexIs(digits: string, n: nat)
    requires WritesHex(digits, n)
    ensures NumberValue(digits, 16) == n
  {
    hide IsHex, DigitValue, HexDigit, NumberValue;
    if digits == "" {
      NothingIsZero();
    } else {
      HexIs(digits[..|digits| - 1], n / 16);
      HexDigitIs(digits[|digits| - 1], n % 16);
      HexSnoc(digits);
    }
  }

  lemma NothingIsZero()
    ensures NumberValue("", 16) == 0
  {
  }

  lemma {:induction false} HexDigits(digits: string, n: nat)
    requires WritesHex(digits, n)
    ensures forall i :: 0 <= i < |digits| ==> IsHex(digits[i])
  {
    hide IsHex, DigitValue, HexDigit;
    if digits != "" {
      HexDigits(digits[..|digits| - 1], n / 16);
      HexDigitIs(digits[|digits| - 1], n % 16);
    }
  }

  // The character of a number, if a document carries it.
  function Character(n: nat): Option<char>
  {
    if n <= 0x10_FFFF && IsXmlChar(n) then Some(n as char) else None
  }

  lemma DecimalBody(digits: string, n: nat)
    requires 1 <= |digits| <= 10 && WritesDecimal(digits, n)
    ensures EntityValue("#" + digits) == Character(n) && ';' !in "#" + digits
  {
    hide NumberValue;
    DecimalIs(digits, n);
    assert IsDigit(digits[0]);
    assert ("#" + digits)[1..] == digits;
  }

  lemma HexBody(x: char, digits: string, n: nat)
    requires (x == 'x' || x == 'X') && 1 <= |digits| <= 10 && WritesHex(digits, n)
    ensures EntityValue("#" + ([x] + digits)) == Character(n) && ';' !in "#" + ([x] + digits)
  {
    hide NumberValue, IsXmlChar;
    HexIs(digits, n);
    HexDigits(digits, n);
    assert ("#" + ([x] + digits))[2..] == digits;
  }

  lemma EntityIs(s: string, at: nat, body: string, c: Option<char>)
    requires Starts(s, at, "&" + (body + ";")) && ';' !in body && |body| <= 12 && EntityValue(body) == c
    ensures Is(s, at, '&')
    ensures TakeEntity(s, at) == if c.Some? then Got(c.value, at + |body| + 2) else Refused(Entity)
  {
    hide EntityValue;
    StartsBoth(s, at, "&", body + ";");
    StartsAt(s, at, "&", 0);
    SemicolonAt(s, at + 1, body);
    StartsBoth(s, at + 1, body, ";");
  }

  // A decimal reference of up to ten digits is the character of its number, and is refused
  // if that is none a document carries.
  lemma DecimalReference(s: string, at: nat, digits: string, n: nat)
    requires 1 <= |digits| <= 10 && WritesDecimal(digits, n) && Starts(s, at, "&" + ("#" + digits + ";"))
    ensures Is(s, at, '&')
    ensures TakeEntity(s, at) ==
            if n <= 0x10_FFFF && IsXmlChar(n) then Got(n as char, at + |digits| + 3) else Refused(Entity)
  {
    DecimalBody(digits, n);
    EntityIs(s, at, "#" + digits, Character(n));
  }

  // And so is a hexadecimal one, with either letter and digits in either case.
  lemma HexReference(s: string, at: nat, x: char, digits: string, n: nat)
    requires (x == 'x' || x == 'X') && 1 <= |digits| <= 10 && WritesHex(digits, n)
    requires Starts(s, at, "&" + ("#" + ([x] + digits) + ";"))
    ensures Is(s, at, '&')
    ensures TakeEntity(s, at) ==
            if n <= 0x10_FFFF && IsXmlChar(n) then Got(n as char, at + |digits| + 4) else Refused(Entity)
  {
    HexBody(x, digits, n);
    EntityIs(s, at, "#" + ([x] + digits), Character(n));
  }
}
