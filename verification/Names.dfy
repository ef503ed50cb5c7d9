/**
 The name normaliser cleanISCSIName (driver/utils.go): lower-case, then delete
 every character that is not an ASCII letter or digit. A string is a sequence of
 Unicode code points here, as Go's regexp and strings packages read it.
 */
module Names {
  import opened Text

  predicate IsNameChar(c: char) {
    'a' <= c <= 'z' || '0' <= c <= '9'
  }

  predicate IsUpper(c: char) {
    'A' <= c <= 'Z'
  }

  /**
   unicode.ToLower. Of the characters outside ASCII only the Kelvin sign and the
   capital I with a dot have a lower-case form inside it; the form of every other
   one is deleted by the filter whatever it is, so it is left alone here.
   */
  function LowerChar(c: char): char {
    if IsUpper(c) then (c as int - 'A' as int + 'a' as int) as char
    else if c == '\U{212A}' then 'k'
    else if c == '\U{0130}' then 'i'
    else c
  }

  function ToLower(s: string): (t: string)
    ensures |t| == |s|
    ensures forall k | 0 <= k < |s| :: t[k] == LowerChar(s[k])
  {
    seq(|s|, k requires 0 <= k < |s| => LowerChar(s[k]))
  }

  /** Deletes the maximal runs of characters outside [a-z0-9A-Z]. */
  function Filtered(s: string): string {
    if s == "" then ""
    else if IsNameChar(s[0]) || IsUpper(s[0]) then [s[0]] + Filtered(s[1..])
    else Filtered(s[1..])
  }

  function CleanISCSIName(name: string): string {
    Filtered(ToLower(name))
  }

  predicate IsClean(name: string) {
    forall k | 0 <= k < |name| :: IsNameChar(name[k])
  }

  lemma {:induction false} FilteredOfLower(s: string)
    requires forall k | 0 <= k < |s| :: !IsUpper(s[k])
    ensures IsClean(Filtered(s))
  {
    if s != "" {
      FilteredOfLower(s[1..]);
    }
  }

  lemma {:induction false} CleanIsFixed(s: string)
    requires IsClean(s)
    ensures Filtered(s) == s && ToLower(s) == s
  {
    if s != "" {
      CleanIsFixed(s[1..]);
    }
  }

  lemma {:induction false} FilteredConcat(s: string, t: string)
    ensures Filtered(s + t) == Filtered(s) + Filtered(t)
  {
    if s == "" {
      assert s + t == t;
    } else {
      FilteredConcat(s[1..], t);
      assert (s + t)[1..] == s[1..] + t;
    }
  }

  /** The result holds nothing but [a-z0-9]. */
  lemma CleanedIsClean(name: string)
    ensures IsClean(CleanISCSIName(name))
  {
    FilteredOfLower(ToLower(name));
  }

  /**
   The cleaned names are exactly the fixed points, so cleaning twice is cleaning
   once, and a VolumeId that CreateVolume returned is its own cleaned name.
   */
  lemma CleanIdempotent(name: string)
    ensures CleanISCSIName(CleanISCSIName(name)) == CleanISCSIName(name)
    ensures CleanISCSIName(name) == name <==> IsClean(name)
  {
    CleanedIsClean(name);
    CleanIsFixed(CleanISCSIName(name));
    if IsClean(name) {
      CleanIsFixed(name);
    }
  }

  /** Cleaning works on each part of a name alone: what is deleted in between does not matter. */
  lemma CleanConcat(s: string, t: string)
    ensures CleanISCSIName(s + t) == CleanISCSIName(s) + CleanISCSIName(t)
  {
    assert ToLower(s + t) == ToLower(s) + ToLower(t);
    FilteredConcat(ToLower(s), ToLower(t));
  }

  predicate LeavesSomething(c: char) {
    IsNameChar(c) || IsUpper(c) || c == '\U{212A}' || c == '\U{0130}'
  }

  lemma {:induction false} CleanedSingle(c: char)
    ensures CleanISCSIName([c]) == if LeavesSomething(c) then [LowerChar(c)] else ""
  {
    var low := ToLower([c]);
    assert low == [LowerChar(c)] && low[1..] == "" && Filtered("") == "";
    assert (IsNameChar(low[0]) || IsUpper(low[0])) == LeavesSomething(c);
    assert [low[0]] + "" == low;
  }

  /** One of the 62 letters and digits. */
  predicate IsAlphanumeric(c: char) {
    c in UPPER || c in LOWER || c in DIGITS
  }

  lemma AlphanumericTable(c: char)
    ensures IsAlphanumeric(c) <==> IsUpper(c) || IsNameChar(c)
  {
    InAlphabets(c);
  }

  /**
   What every single character cleans to: an upper-case letter to the lower-case one
   at the same place of the alphabet, a lower-case letter or a digit to itself, the
   Kelvin sign to "k", the capital I with a dot to "i", and all others to nothing.
   With `CleanConcat` this fixes cleaning of every string.
   */
  lemma CleanedCharacter(c: char, k: nat)
    ensures k < 26 ==> CleanISCSIName([UPPER[k]]) == [LOWER[k]]
    ensures c in LOWER || c in DIGITS ==> CleanISCSIName([c]) == [c]
    ensures CleanISCSIName("\U{212A}") == "k" && CleanISCSIName("\U{0130}") == "i"
    ensures !IsAlphanumeric(c) && c != '\U{212A}' && c != '\U{0130}' ==> CleanISCSIName([c]) == ""
  {
    Alphabets(k);
    if k < 26 {
      CleanedSingle(UPPER[k]);
    }
    InAlphabets(c);
    CleanedSingle(c);
    CleanedSingle('\U{212A}');
    CleanedSingle('\U{0130}');
  }

  /** The two forms of the letter at this place of the alphabet. */
  ghost predicate AreForms(k: int, c: char, d: char) {
    0 <= k < |UPPER| && k < |LOWER| && ((c == UPPER[k] && d == LOWER[k]) || (c == LOWER[k] && d == UPPER[k]))
  }

  /** The same character, or the two forms of one letter. */
  ghost predicate SameUpToCase(c: char, d: char) {
    c == d || exists k :: AreForms(k, c, d)
  }

  lemma FormsSpec(k: int, c: char, d: char)
    ensures AreForms(k, c, d) <==>
            && 0 <= k < 26
            && ((c as int == 'A' as int + k && d as int == 'a' as int + k)
                || (d as int == 'A' as int + k && c as int == 'a' as int + k))
  {
    Alphabets(if 0 <= k then k else 0);
  }

  lemma SameLowered(c: char, d: char)
    requires IsAlphanumeric(c) && IsAlphanumeric(d)
    ensures LowerChar(c) == LowerChar(d) <==> SameUpToCase(c, d)
  {
    AlphanumericTable(c);
    AlphanumericTable(d);
    hide AreForms, IsAlphanumeric;
    if LowerChar(c) == LowerChar(d) && c != d {
      FormsSpec(LowerChar(c) as int - 'a' as int, c, d);
    } else if SameUpToCase(c, d) && c != d {
      var k :| AreForms(k, c, d);
      FormsSpec(k, c, d);
    }
  }

  lemma {:induction false} CleanedAlphanumeric(name: string)
    requires forall k | 0 <= k < |name| :: IsAlphanumeric(name[k])
    ensures CleanISCSIName(name) == ToLower(name)
  {
    var low := ToLower(name);
    forall k | 0 <= k < |low|
      ensures IsNameChar(low[k])
    {
      AlphanumericTable(name[k]);
    }
    CleanIsFixed(low);
  }

  /**
   Two names of letters and digits collide if and only if they have the same length
   and agree at every place up to case.
   */
  lemma CleanedEqualExactlyWhen(a: string, b: string)
    requires forall k | 0 <= k < |a| :: IsAlphanumeric(a[k])
    requires forall k | 0 <= k < |b| :: IsAlphanumeric(b[k])
    ensures CleanISCSIName(a) == CleanISCSIName(b) <==>
            |a| == |b| && forall k | 0 <= k < |a| :: SameUpToCase(a[k], b[k])
  {
    CleanedAlphanumeric(a);
    CleanedAlphanumeric(b);
    if |a| == |b| {
      forall k | 0 <= k < |a|
        ensures ToLower(a)[k] == ToLower(b)[k] <==> SameUpToCase(a[k], b[k])
      {
        SameLowered(a[k], b[k]);
      }
      if forall k | 0 <= k < |a| :: SameUpToCase(a[k], b[k]) {
        assert ToLower(a) == ToLower(b);
      }
    }
  }

  /** A name cleans to the empty string if and only if no character of it leaves anything. */
  lemma {:induction false} CleanedEmpty(name: string)
    ensures CleanISCSIName(name) == "" <==> forall k | 0 <= k < |name| :: !LeavesSomething(name[k])
  {
    if name == "" {
      assert ToLower(name) == "";
    } else {
      assert name == [name[0]] + name[1..];
      CleanConcat([name[0]], name[1..]);
      CleanedSingle(name[0]);
      CleanedEmpty(name[1..]);
      if forall k | 0 <= k < |name| - 1 :: !LeavesSomething(name[1..][k]) {
        assert forall k | 1 <= k < |name| :: name[k] == name[1..][k - 1];
      }
    }
  }
}
