/**
 The string functions of the Go standard library the token codec relies on:
 strconv.Itoa, strconv.Atoi, strings.Split and strings.TrimRight, the last two
 for a comma. A string is a sequence of bytes, one `char` a byte.
 */
module Text {
  import opened Wrappers

  /** The letters, and the digits in the order of their values. */
  const UPPER: string := "ABCDEFGHIJKLMNOPQRSTUVWXYZ"
  const LOWER: string := "abcdefghijklmnopqrstuvwxyz"
  const DIGITS: string := "0123456789"

  const MIN_INT64: int := -0x8000_0000_0000_0000
  const MAX_INT64: int := 0x7FFF_FFFF_FFFF_FFFF

  /** The values a Go `int` can hold on a 64-bit platform. */
  predicate IsInt64(n: int) {
    MIN_INT64 <= n <= MAX_INT64
  }

  /** Conversion to a Go `int32`: keeps the low 32 bits, read as two's complement. */
  function ToInt32(n: int): int {
    (n + 0x8000_0000) % 0x1_0000_0000 - 0x8000_0000
  }

  predicate IsDigit(c: char) {
    '0' <= c <= '9'
  }

  predicate AllDigits(s: string) {
    forall k | 0 <= k < |s| :: IsDigit(s[k])
  }

  function DigitChar(d: nat): (c: char)
    requires d < 10
    ensures IsDigit(c) && DigitValue(c) == d
  {
    (d + '0' as int) as char
  }

  function DigitValue(c: char): nat
    requires IsDigit(c)
  {
    c as int - '0' as int
  }

  /** The decimal digits of `n`, most significant first. */
  function Digits(n: nat): (s: string)
    ensures s != "" && AllDigits(s)
  {
    if n < 10 then [DigitChar(n)] else Digits(n / 10) + [DigitChar(n % 10)]
  }

  function DigitsValue(s: string): nat
    requires AllDigits(s)
  {
    if s == "" then 0 else 10 * DigitsValue(s[..|s| - 1]) + DigitValue(s[|s| - 1])
  }

  /** strconv.Itoa */
  function Itoa(n: int): string {
    if n < 0 then "-" + Digits(-n) else Digits(n)
  }

  /** strconv.Atoi: an optional sign, at least one digit, a value of 64 bits. */
  function Atoi(s: string): Option<int> {
    var signed := s != "" && (s[0] == '-' || s[0] == '+');
    var digits := if signed then s[1..] else s;
    if digits == "" || !AllDigits(digits) then None
    else
      var value: int := DigitsValue(digits);
      var n := if signed && s[0] == '-' then -value else value;
      if IsInt64(n) then Some(n) else None
  }

  /** strings.Split(s, ","): always at least one piece, and the empty string has exactly one. */
  function SplitCommas(s: string): (pieces: seq<string>)
    ensures |pieces| > 0
  {
    if s == "" then [""]
    else
      var rest := SplitCommas(s[1..]);
      if s[0] == ',' then [""] + rest else [[s[0]] + rest[0]] + rest[1..]
  }

  /** strings.TrimRight(s, ",") */
  function TrimRightCommas(s: string): string {
    if s != "" && s[|s| - 1] == ',' then TrimRightCommas(s[..|s| - 1]) else s
  }

  lemma {:induction false} DigitsRoundTrip(n: nat)
    ensures DigitsValue(Digits(n)) == n
  {
    if n >= 10 {
      DigitsRoundTrip(n / 10);
      var s := Digits(n);
      assert s[..|s| - 1] == Digits(n / 10);
    } else {
      var s := Digits(n);
      assert s[..0] == "";
    }
  }

  /** Atoi reads back what Itoa wrote, exactly for the numbers of 64 bits. */
  lemma ItoaRoundTrip(n: int)
    ensures Atoi(Itoa(n)) == if IsInt64(n) then Some(n) else None
  {
    DigitsRoundTrip(if n < 0 then -n else n);
    if n < 0 {
      assert Itoa(n)[1..] == Digits(-n);
    } else {
      assert IsDigit(Itoa(n)[0]);
    }
  }

  lemma ItoaInjective(m: int, n: int)
    requires Itoa(m) == Itoa(n)
    ensures m == n
  {
    DigitsRoundTrip(if m < 0 then -m else m);
    DigitsRoundTrip(if n < 0 then -n else n);
    if m < 0 {
      assert Itoa(m)[1..] == Digits(-m);
    } else {
      assert IsDigit(Itoa(m)[0]);
    }
    if n < 0 {
      assert Itoa(n)[1..] == Digits(-n);
    } else {
      assert IsDigit(Itoa(n)[0]);
    }
  }

  /** What Itoa writes is plain ASCII without a comma, and ends in a digit. */
  lemma ItoaShape(n: int)
    ensures Itoa(n) != "" && IsDigit(Itoa(n)[|Itoa(n)| - 1])
    ensures forall k | 0 <= k < |Itoa(n)| :: Itoa(n)[k] == '-' || IsDigit(Itoa(n)[k])
  {
    var d := Digits(if n < 0 then -n else n);
    assert Itoa(n)[|Itoa(n)| - 1] == d[|d| - 1];
  }

  /** Splitting takes off one comma-free piece at a time. */
  lemma {:induction false} SplitPrefix(piece: string, rest: string)
    requires ',' !in piece
    ensures SplitCommas(piece + "," + rest) == [piece] + SplitCommas(rest)
  {
    var s := piece + "," + rest;
    if piece == "" {
      assert s[1..] == rest;
    } else {
      assert s[1..] == piece[1..] + "," + rest;
      SplitPrefix(piece[1..], rest);
      assert [piece[0]] + piece[1..] == piece;
    }
  }

  lemma {:induction false} SplitSingle(piece: string)
    requires ',' !in piece
    ensures SplitCommas(piece) == [piece]
  {
    if piece != "" {
      SplitSingle(piece[1..]);
      assert [piece[0]] + piece[1..] == piece;
    }
  }

  // --------------------------------------------------- what the functions come to

  /** Where the letters and digits stand. */
  lemma Alphabets(k: nat)
    ensures |UPPER| == |LOWER| == 26 && |DIGITS| == 10
    ensures k < 26 ==> UPPER[k] as int == 'A' as int + k && LOWER[k] as int == 'a' as int + k
    ensures k < 10 ==> DIGITS[k] as int == '0' as int + k
  {
  }

  lemma InRange(alphabet: string, first: int, c: char)
    requires forall k | 0 <= k < |alphabet| :: alphabet[k] as int == first + k
    ensures c in alphabet <==> first <= c as int < first + |alphabet|
  {
    var k := c as int - first;
    if 0 <= k < |alphabet| {
      assert alphabet[k] == c;
    }
  }

  lemma InAlphabets(c: char)
    ensures c in UPPER <==> 'A' <= c <= 'Z'
    ensures c in LOWER <==> 'a' <= c <= 'z'
    ensures c in DIGITS <==> '0' <= c <= '9'
  {
    var upper, lower, digits := UPPER, LOWER, DIGITS;
    forall k: nat
      ensures |upper| == |lower| == 26 && |digits| == 10
      ensures k < 26 ==> upper[k] as int == 'A' as int + k && lower[k] as int == 'a' as int + k
      ensures k < 10 ==> digits[k] as int == '0' as int + k
    {
      Alphabets(k);
    }
    InRange(upper, 'A' as int, c);
    InRange(lower, 'a' as int, c);
    InRange(digits, '0' as int, c);
  }

  /** The value kept is the one that fits in 32 bits and differs by a multiple of 2^32. */
  lemma ToInt32Spec(n: int)
    ensures -0x8000_0000 <= ToInt32(n) <= 0x7FFF_FFFF && (n - ToInt32(n)) % 0x1_0000_0000 == 0
    ensures -0x8000_0000 <= n <= 0x7FFF_FFFF ==> ToInt32(n) == n
  {
  }

  /** Decimal notation: a digit is its symbol, a further digit goes to the end, and a sign to the front. */
  lemma ItoaNotation(n: int, d: int)
    requires 0 <= n && 0 <= d < 10
    ensures Itoa(d) == [DIGITS[d]]
    ensures n > 0 ==> Itoa(10 * n + d) == Itoa(n) + [DIGITS[d]]
    ensures n > 0 ==> Itoa(-n) == "-" + Itoa(n)
  {
    DigitSymbol(d);
    assert (10 * n + d) / 10 == n && (10 * n + d) % 10 == d;
  }

  lemma DigitSymbol(d: nat)
    requires d < 10
    ensures DigitChar(d) == DIGITS[d]
  {
  }

  /** The part of the text after its sign, if it has one. */
  function Unsigned(s: string): string {
    if s != "" && (s[0] == '+' || s[0] == '-') then s[1..] else s
  }

  /**
   What Atoi makes of text that Itoa does not write: a plus sign and leading zeros
   change nothing, a minus sign negates, and anything but digits after the sign, or
   nothing at all, is an error. With `ItoaRoundTrip` this fixes Atoi everywhere.
   */
  lemma AtoiReading(digits: string, s: string)
    requires digits != "" && AllDigits(digits)
    ensures Atoi("+" + digits) == Atoi(digits) && Atoi("0" + digits) == Atoi(digits)
    ensures Atoi(digits).Some? ==> Atoi("-" + digits) == Some(-Atoi(digits).value)
    ensures Unsigned(s) == "" || !AllDigits(Unsigned(s)) ==> Atoi(s) == None
  {
    assert ("+" + digits)[1..] == digits && ("-" + digits)[1..] == digits;
    LeadingZero(digits);
    assert IsDigit(digits[0]);
  }

  lemma {:induction false} LeadingZero(digits: string)
    requires AllDigits(digits)
    ensures AllDigits("0" + digits) && DigitsValue("0" + digits) == DigitsValue(digits)
  {
    var s := "0" + digits;
    if digits == "" {
      assert s[..0] == "";
    } else {
      var front := digits[..|digits| - 1];
      assert s[..|s| - 1] == "0" + front;
      LeadingZero(front);
    }
  }

  /** The pieces with a comma between each two. */
  function JoinCommas(pieces: seq<string>): string {
    if pieces == [] then "" else if |pieces| == 1 then pieces[0] else pieces[0] + "," + JoinCommas(pieces[1..])
  }

  /** Splitting is the one way to write the text as pieces without commas, joined by commas. */
  lemma {:induction false} SplitSpec(s: string)
    ensures JoinCommas(SplitCommas(s)) == s
    ensures forall k | 0 <= k < |SplitCommas(s)| :: ',' !in SplitCommas(s)[k]
  {
    if s != "" {
      SplitSpec(s[1..]);
      var rest, pieces := SplitCommas(s[1..]), SplitCommas(s);
      if s[0] == ',' {
        assert pieces[1..] == rest;
        assert s == "" + "," + s[1..];
      } else {
        assert pieces[1..] == rest[1..];
        assert s == [s[0]] + s[1..];
        if |rest| > 1 {
          assert [s[0]] + (rest[0] + "," + JoinCommas(rest[1..])) == [s[0]] + rest[0] + "," + JoinCommas(rest[1..]);
        }
      }
    }
  }

  /** Trimming takes away all the commas at the end and nothing else. */
  lemma {:induction false} TrimSpec(s: string)
    ensures TrimRightCommas(s) <= s
    ensures forall k | |TrimRightCommas(s)| <= k < |s| :: s[k] == ','
    ensures TrimRightCommas(s) != "" ==> TrimRightCommas(s)[|TrimRightCommas(s)| - 1] != ','
  {
    if s != "" && s[|s| - 1] == ',' {
      TrimSpec(s[..|s| - 1]);
    }
  }
}
