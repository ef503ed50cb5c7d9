/**
 The standard base 64 encoding with padding (section 4 of RFC 4648), as Go's
 base64.StdEncoding reads and writes it. Decoding skips line breaks anywhere,
 and does not ask that the unused bits before the padding be zero.
 */
module Base64 {
  import opened Wrappers
  import opened Text

  /** Every element is one byte. */
  predicate IsBytes(s: string) {
    forall k | 0 <= k < |s| :: s[k] as int < 256
  }

  predicate InAlphabet(c: char) {
    'A' <= c <= 'Z' || 'a' <= c <= 'z' || '0' <= c <= '9' || c == '+' || c == '/'
  }

  /** Table 1 of RFC 4648. */
  function SymbolOf(v: nat): (c: char)
    requires v < 64
    ensures InAlphabet(c) && ValueOf(c) == v
  {
    if v < 26 then ('A' as int + v) as char
    else if v < 52 then ('a' as int + v - 26) as char
    else if v < 62 then ('0' as int + v - 52) as char
    else if v == 62 then '+'
    else '/'
  }

  function ValueOf(c: char): (v: nat)
    requires InAlphabet(c)
    ensures v < 64
  {
    if 'A' <= c <= 'Z' then c as int - 'A' as int
    else if 'a' <= c <= 'z' then c as int - 'a' as int + 26
    else if '0' <= c <= '9' then c as int - '0' as int + 52
    else if c == '+' then 62
    else 63
  }

  /** Three bytes as four values of six bits. */
  function Sextets(x: nat, y: nat, z: nat): (v: (nat, nat, nat, nat))
    requires x < 256 && y < 256 && z < 256
    ensures v.0 < 64 && v.1 < 64 && v.2 < 64 && v.3 < 64
    ensures Octets(v.0, v.1, v.2, v.3) == (x, y, z)
    ensures z == 0 ==> v.3 == 0
    ensures y == 0 && z == 0 ==> v.2 == 0
  {
    var v0, v1, v2, v3 := x / 4, x % 4 * 16 + y / 16, y % 16 * 4 + z / 64, z % 64;
    assert v1 / 16 == x % 4 && v1 % 16 == y / 16;
    assert v2 / 4 == y % 16 && v2 % 4 == z / 64;
    (v0, v1, v2, v3)
  }

  /** Four values of six bits as three bytes. */
  function Octets(p: nat, q: nat, r: nat, t: nat): (b: (nat, nat, nat))
    requires p < 64 && q < 64 && r < 64 && t < 64
    ensures b.0 < 256 && b.1 < 256 && b.2 < 256
  {
    (p * 4 + q / 16, q % 16 * 16 + r / 4, r % 4 * 64 + t)
  }

  function Encode(b: string): string
    requires IsBytes(b)
  {
    if b == "" then ""
    else
      var v := Sextets(b[0] as int, if |b| > 1 then b[1] as int else 0, if |b| > 2 then b[2] as int else 0);
      if |b| == 1 then [SymbolOf(v.0), SymbolOf(v.1), '=', '=']
      else if |b| == 2 then [SymbolOf(v.0), SymbolOf(v.1), SymbolOf(v.2), '=']
      else [SymbolOf(v.0), SymbolOf(v.1), SymbolOf(v.2), SymbolOf(v.3)] + Encode(b[3..])
  }

  function StripLineBreaks(s: string): string {
    if s == "" then ""
    else if s[0] == '\r' || s[0] == '\n' then StripLineBreaks(s[1..])
    else [s[0]] + StripLineBreaks(s[1..])
  }

  /** The value of a symbol, where a missing one counts as zero. */
  function ValueOrZero(c: char): (v: nat)
    ensures v < 64
  {
    if InAlphabet(c) then ValueOf(c) else 0
  }

  /** The bytes of one group of four symbols, before the padding takes some away. */
  function GroupBytes(a: char, b: char, c: char, d: char): (bytes: string)
    ensures |bytes| == 3
  {
    var o := Octets(ValueOrZero(a), ValueOrZero(b), ValueOrZero(c), ValueOrZero(d));
    [o.0 as char, o.1 as char, o.2 as char]
  }

  /** Decodes text without line breaks, a group of four symbols at a time. */
  function DecodeGroups(s: string): Option<string> {
    if s == "" then Some("")
    else if |s| < 4 || !InAlphabet(s[0]) || !InAlphabet(s[1]) then None
    else
      var bytes := GroupBytes(s[0], s[1], s[2], s[3]);
      if s[2] == '=' then
        if s[3] == '=' && |s| == 4 then Some(bytes[..1]) else None
      else if !InAlphabet(s[2]) then None
      else if s[3] == '=' then
        if |s| == 4 then Some(bytes[..2]) else None
      else if !InAlphabet(s[3]) then None
      else
        match DecodeGroups(s[4..])
        case None => None
        case Some(rest) => Some(bytes + rest)
  }

  function Decode(s: string): Option<string> {
    DecodeGroups(StripLineBreaks(s))
  }

  lemma GroupRoundTrip(x: char, y: char, z: char)
    requires x as int < 256 && y as int < 256 && z as int < 256
    ensures var v := Sextets(x as int, y as int, z as int);
            GroupBytes(SymbolOf(v.0), SymbolOf(v.1), SymbolOf(v.2), SymbolOf(v.3)) == [x, y, z]
  {
  }

  /** What decoding does with its first group, by the padding found there. */
  lemma DecodeFirstGroup(s: string)
    requires |s| >= 4 && InAlphabet(s[0]) && InAlphabet(s[1])
    ensures |s| == 4 && s[2] == '=' && s[3] == '=' ==> DecodeGroups(s) == Some(GroupBytes(s[0], s[1], s[2], s[3])[..1])
    ensures |s| == 4 && InAlphabet(s[2]) && s[3] == '=' ==>
              DecodeGroups(s) == Some(GroupBytes(s[0], s[1], s[2], s[3])[..2])
    ensures InAlphabet(s[2]) && InAlphabet(s[3]) && DecodeGroups(s[4..]).Some? ==>
              DecodeGroups(s) == Some(GroupBytes(s[0], s[1], s[2], s[3]) + DecodeGroups(s[4..]).value)
  {
  }

  /** Padding symbols count like the symbol of value zero. */
  lemma PaddingIsZero(a: char, b: char, c: char, pad: char)
    requires pad == '='
    ensures GroupBytes(a, b, c, pad) == GroupBytes(a, b, c, SymbolOf(0))
    ensures GroupBytes(a, b, pad, pad) == GroupBytes(a, b, SymbolOf(0), SymbolOf(0))
  {
  }

  /** The first group of an encoding, and what follows it. */
  lemma EncodeFirstGroup(b: string, y: int, z: int, e: string)
    requires IsBytes(b) && b != "" && e == Encode(b)
    requires y == (if |b| > 1 then b[1] as int else 0) && z == (if |b| > 2 then b[2] as int else 0)
    ensures |e| >= 4
    ensures var v := Sextets(b[0] as int, y, z);
            && e[0] == SymbolOf(v.0) && e[1] == SymbolOf(v.1)
            && e[2] == (if |b| > 1 then SymbolOf(v.2) else '=')
            && e[3] == (if |b| > 2 then SymbolOf(v.3) else '=')
    ensures |b| < 3 ==> |e| == 4
    ensures |b| >= 3 ==> IsBytes(b[3..]) && e[4..] == Encode(b[3..])
  {
  }

  /** The bytes of the first group of an encoding are the bytes encoded, followed by zeros. */
  lemma FirstGroupBytes(b: string, y: char, z: char, e: string)
    requires IsBytes(b) && b != "" && e == Encode(b)
    requires y == (if |b| > 1 then b[1] else 0 as char) && z == (if |b| > 2 then b[2] else 0 as char)
    ensures |e| >= 4 && GroupBytes(e[0], e[1], e[2], e[3]) == [b[0], y, z]
  {
    EncodeFirstGroup(b, y as int, z as int, e);
    GroupRoundTrip(b[0], y, z);
    if |b| < 3 {
      PaddingIsZero(e[0], e[1], e[2], e[3]);
    }
  }

  lemma Regrouped(b: string, y: char, z: char)
    requires b != "" && (|b| > 1 ==> y == b[1]) && (|b| > 2 ==> z == b[2])
    ensures if |b| < 3 then [b[0], y, z][..|b|] == b else [b[0], y, z] + b[3..] == b
  {
  }

  /** A group that carries the first bytes of `b`, followed by a decodable rest, decodes to `b`. */
  lemma DecodeOnto(e: string, b: string, y: char, z: char)
    requires b != "" && |e| >= 4 && GroupBytes(e[0], e[1], e[2], e[3]) == [b[0], y, z]
    requires InAlphabet(e[0]) && InAlphabet(e[1])
    requires if |b| == 1 then e[2] == '=' else InAlphabet(e[2]) && y == b[1]
    requires if |b| <= 2 then e[3] == '=' && |e| == 4 else InAlphabet(e[3]) && z == b[2]
    requires |b| >= 3 ==> DecodeGroups(e[4..]) == Some(b[3..])
    ensures DecodeGroups(e) == Some(b)
  {
    DecodeFirstGroup(e);
    Regrouped(b, y, z);
  }

  lemma {:induction false} DecodeEncodeGroups(b: string)
    requires IsBytes(b)
    ensures DecodeGroups(Encode(b)) == Some(b)
  {
    if b != "" {
      var y := if |b| > 1 then b[1] else 0 as char;
      var z := if |b| > 2 then b[2] else 0 as char;
      var e := Encode(b);
      EncodeFirstGroup(b, y as int, z as int, e);
      FirstGroupBytes(b, y, z, e);
      if |b| >= 3 {
        DecodeEncodeGroups(b[3..]);
      }
      DecodeOnto(e, b, y, z);
    }
  }

  lemma {:induction false} StripNothing(s: string)
    requires forall k | 0 <= k < |s| :: s[k] != '\r' && s[k] != '\n'
    ensures StripLineBreaks(s) == s
  {
    if s != "" {
      StripNothing(s[1..]);
    }
  }

  lemma {:induction false} EncodeAlphabet(b: string)
    requires IsBytes(b)
    ensures forall k | 0 <= k < |Encode(b)| :: InAlphabet(Encode(b)[k]) || Encode(b)[k] == '='
  {
    if |b| >= 3 {
      EncodeAlphabet(b[3..]);
      assert Encode(b) == Encode(b)[..4] + Encode(b[3..]);
    }
  }

  /** Decoding undoes encoding, for every string of bytes. */
  lemma DecodeEncode(b: string)
    requires IsBytes(b)
    ensures Decode(Encode(b)) == Some(b)
  {
    EncodeAlphabet(b);
    StripNothing(Encode(b));
    DecodeEncodeGroups(b);
  }

  // -------------------------------------------------------- agreement with the RFC

  /** Table 1 of RFC 4648: the capital letters, the small ones, the digits, and two signs. */
  lemma SymbolTable(v: nat)
    requires v < 64
    ensures |UPPER + LOWER + DIGITS + "+/"| == 64 && SymbolOf(v) == (UPPER + LOWER + DIGITS + "+/")[v]
  {
    Alphabets(if v < 26 then v else if v < 52 then v - 26 else if v < 62 then v - 52 else 0);
  }

  /** The four values hold the 24 bits of the three bytes, most significant first. */
  lemma GroupsOfBits(x: nat, y: nat, z: nat)
    requires x < 256 && y < 256 && z < 256
    ensures var v := Sextets(x, y, z);
            ((v.0 * 64 + v.1) * 64 + v.2) * 64 + v.3 == (x * 256 + y) * 256 + z
  {
  }

  lemma OneGroup()
    ensures Encode("f") == "Zg==" && Encode("fo") == "Zm8=" && Encode("foo") == "Zm9v"
  {
    assert "foo"[3..] == "" && Encode("") == "";
  }

  lemma SecondGroup()
    ensures Encode("b") == "Yg==" && Encode("ba") == "YmE=" && Encode("bar") == "YmFy"
  {
    assert "bar"[3..] == "" && Encode("") == "";
  }

  lemma {:induction false} EncodeConcat(a: string, b: string)
    requires IsBytes(a) && IsBytes(b) && |a| == 3
    ensures IsBytes(a + b) && Encode(a + b) == Encode(a) + Encode(b)
  {
    assert (a + b)[3..] == b && a[3..] == "" && Encode("") == "";
    assert (a + b)[0] == a[0] && (a + b)[1] == a[1] && (a + b)[2] == a[2];
  }

  /** The test vectors of section 10 of RFC 4648. */
  lemma TestVectors()
    ensures Encode("") == "" && Encode("f") == "Zg==" && Encode("fo") == "Zm8=" && Encode("foo") == "Zm9v"
    ensures Encode("foob") == "Zm9vYg==" && Encode("fooba") == "Zm9vYmE=" && Encode("foobar") == "Zm9vYmFy"
  {
    OneGroup();
    SecondGroup();
    EncodeConcat("foo", "b");
    EncodeConcat("foo", "ba");
    EncodeConcat("foo", "bar");
    hide Encode;
    assert "foo" + "b" == "foob" && "foo" + "ba" == "fooba" && "foo" + "bar" == "foobar";
    assert "Zm9v" + "Yg==" == "Zm9vYg==" && "Zm9v" + "YmE=" == "Zm9vYmE=" && "Zm9v" + "YmFy" == "Zm9vYmFy";
    EncodeNothing();
  }

  lemma EncodeNothing()
    ensures Encode("") == ""
  {
  }

  /** All groups are complete, and only the last two symbols can be padding. */
  predicate IsPadded(s: string) {
    && |s| % 4 == 0
    && (forall k | 0 <= k < |s| - 2 :: InAlphabet(s[k]))
    && (|s| >= 2 ==>
          var c, d := s[|s| - 2], s[|s| - 1];
          (InAlphabet(c) && (InAlphabet(d) || d == '=')) || c == d == '=')
  }

  lemma PaddedRest(s: string)
    requires |s| >= 8
    ensures IsPadded(s) <==>
            InAlphabet(s[0]) && InAlphabet(s[1]) && InAlphabet(s[2]) && InAlphabet(s[3]) && IsPadded(s[4..])
  {
    var rest := s[4..];
    assert |s| % 4 == |rest| % 4;
    assert forall k | 0 <= k < |rest| :: rest[k] == s[k + 4];
    assert forall k | 4 <= k < |s| :: s[k] == rest[k - 4];
  }

  lemma {:induction false} DecodesGroupsExactlyWhen(s: string)
    ensures DecodeGroups(s).Some? <==> IsPadded(s)
  {
    if |s| >= 8 {
      hide IsPadded;
      DecodesGroupsExactlyWhen(s[4..]);
      PaddedRest(s);
    } else if |s| > 4 {
      OddTail(s);
    } else if |s| == 4 {
      LastGroup(s);
    }
  }

  lemma LastGroup(s: string)
    requires |s| == 4
    ensures DecodeGroups(s).Some? <==> IsPadded(s)
  {
    hide GroupBytes;
    assert s[4..] == "" && DecodeGroups("") == Some("");
  }

  lemma OddTail(s: string)
    requires 4 < |s| < 8
    ensures DecodeGroups(s).None? && !IsPadded(s)
  {
    hide GroupBytes;
    var rest := s[4..];
    assert 0 < |rest| < 4 && DecodeGroups(rest).None?;
  }

  lemma {:induction false} StripConcat(a: string, b: string)
    ensures StripLineBreaks(a + b) == StripLineBreaks(a) + StripLineBreaks(b)
  {
    if a == "" {
      assert a + b == b;
    } else {
      StripConcat(a[1..], b);
      assert (a + b)[1..] == a[1..] + b;
    }
  }

  /** A line break changes nothing, wherever it stands. */
  lemma LineBreaksIgnored(a: string, b: string)
    ensures Decode(a + "\n" + b) == Decode(a + b) && Decode(a + "\r" + b) == Decode(a + b)
  {
    StripConcat(a, b);
    StripConcat(a + "\n", b);
    StripConcat(a + "\r", b);
    StripConcat(a, "\n");
    StripConcat(a, "\r");
    assert StripLineBreaks("\n") == StripLineBreaks("\r") == "";
    assert StripLineBreaks(a) + "" == StripLineBreaks(a);
  }

  /** Text without line breaks can be decoded if and only if it is complete and properly padded. */
  lemma DecodesExactlyWhen(s: string)
    requires forall k | 0 <= k < |s| :: s[k] != '\r' && s[k] != '\n'
    ensures Decode(s).Some? <==> IsPadded(s)
  {
    StripNothing(s);
    DecodesGroupsExactlyWhen(s);
  }
}
