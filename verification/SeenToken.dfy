/**
 The opaque token of ListVolumes: the indexes already returned, sorted, printed
 in decimal, joined with commas and base 64 encoded (driver/utils.go).
 */
module SeenToken {
  import opened Wrappers
  import opened Text
  import opened Lists
  import Base64

  predicate AllInt64(ints: seq<int>) {
    forall k | 0 <= k < |ints| :: IsInt64(ints[k])
  }

  /** Every index in decimal, each followed by a comma. */
  function Listed(ints: seq<int>): string {
    if ints == [] then "" else Itoa(ints[0]) + "," + Listed(ints[1..])
  }

  /** The same text without the trailing comma. */
  function Joined(ints: seq<int>): string {
    if ints == [] then ""
    else if |ints| == 1 then Itoa(ints[0])
    else Itoa(ints[0]) + "," + Joined(ints[1..])
  }

  /** The numbers the pieces denote, or None as soon as one is not a number. */
  function ParseAll(pieces: seq<string>): Option<set<int>> {
    if pieces == [] then Some({})
    else
      match Atoi(pieces[0])
      case None => None
      case Some(n) =>
        match ParseAll(pieces[1..])
        case None => None
        case Some(rest) => Some({n} + rest)
  }

  function AddTo(found: set<int>, rest: Option<set<int>>): Option<set<int>> {
    match rest
    case None => None
    case Some(more) => Some(found + more)
  }

  lemma {:induction false} JoinedIsAscii(ints: seq<int>)
    ensures forall k | 0 <= k < |Joined(ints)| ::
              Joined(ints)[k] == ',' || Joined(ints)[k] == '-' || IsDigit(Joined(ints)[k])
    ensures ints != [] ==> Joined(ints) != "" && IsDigit(Joined(ints)[|Joined(ints)| - 1])
  {
    if ints != [] {
      ItoaShape(ints[0]);
      if |ints| > 1 {
        JoinedIsAscii(ints[1..]);
        assert Joined(ints)[|Joined(ints)| - 1] == Joined(ints[1..])[|Joined(ints[1..])| - 1];
      }
    }
  }

  lemma {:induction false} ListedIsJoined(ints: seq<int>)
    requires ints != []
    ensures Listed(ints) == Joined(ints) + ","
  {
    if |ints| == 1 {
      assert Listed(ints[1..]) == "";
    } else {
      ListedIsJoined(ints[1..]);
    }
  }

  /** Trimming removes the one comma the loop leaves behind, and no more. */
  lemma TrimListed(ints: seq<int>)
    ensures TrimRightCommas(Listed(ints)) == Joined(ints)
  {
    JoinedIsAscii(ints);
    if ints != [] {
      ListedIsJoined(ints);
      assert (Joined(ints) + ",")[..|Joined(ints)|] == Joined(ints);
      assert TrimRightCommas(Joined(ints)) == Joined(ints);
    }
  }

  function Printed(ints: seq<int>): (pieces: seq<string>)
    ensures |pieces| == |ints|
    ensures forall k | 0 <= k < |ints| :: pieces[k] == Itoa(ints[k])
  {
    seq(|ints|, k requires 0 <= k < |ints| => Itoa(ints[k]))
  }

  lemma {:induction false} SplitJoined(ints: seq<int>)
    requires ints != []
    ensures SplitCommas(Joined(ints)) == Printed(ints)
  {
    ItoaShape(ints[0]);
    if |ints| == 1 {
      SplitSingle(Itoa(ints[0]));
      assert Printed(ints) == [Itoa(ints[0])];
    } else {
      SplitPrefix(Itoa(ints[0]), Joined(ints[1..]));
      SplitJoined(ints[1..]);
      assert Printed(ints) == [Itoa(ints[0])] + Printed(ints[1..]);
    }
  }

  lemma ParseCons(pieces: seq<string>, head: Option<int>)
    requires pieces != [] && Atoi(pieces[0]) == head
    ensures ParseAll(pieces) == if head == None then None else AddTo({head.value}, ParseAll(pieces[1..]))
  {
  }

  lemma ParseNumber(head: int, pieces: seq<string>)
    requires pieces != [] && pieces[0] == Itoa(head)
    ensures ParseAll(pieces) == if IsInt64(head) then AddTo({head}, ParseAll(pieces[1..])) else None
  {
    ItoaRoundTrip(head);
    ParseCons(pieces, if IsInt64(head) then Some(head) else None);
  }

  /** The set of a list, when all its numbers have 64 bits. */
  function Numbers(ints: seq<int>): Option<set<int>> {
    if AllInt64(ints) then Some(Elements(ints)) else None
  }

  lemma NumbersCons(head: int, tail: seq<int>)
    ensures Numbers([head] + tail) == if IsInt64(head) then AddTo({head}, Numbers(tail)) else None
  {
    ElementsOfCons(head, tail);
    var all := [head] + tail;
    if AllInt64(all) {
      assert forall k | 0 <= k < |tail| :: tail[k] == all[k + 1];
    }
  }

  lemma PrintedCons(head: int, tail: seq<int>)
    ensures Printed([head] + tail) == [Itoa(head)] + Printed(tail)
  {
    var whole, parts := Printed([head] + tail), [Itoa(head)] + Printed(tail);
    forall k | 0 <= k < |whole|
      ensures whole[k] == parts[k]
    {
      assert whole[k] == Itoa(([head] + tail)[k]);
    }
  }

  lemma {:induction false} ParsePrinted(ints: seq<int>)
    ensures ParseAll(Printed(ints)) == Numbers(ints)
  {
    if ints == [] {
      assert Elements(ints) == {};
    } else {
      var head, tail := ints[0], ints[1..];
      assert ints == [head] + tail;
      PrintedCons(head, tail);
      ParseNumber(head, [Itoa(head)] + Printed(tail));
      assert ([Itoa(head)] + Printed(tail))[1..] == Printed(tail);
      ParsePrinted(tail);
      NumbersCons(head, tail);
    }
  }

  function TokenOf(ints: seq<int>): string {
    JoinedIsAscii(ints);
    Base64.Encode(Joined(ints))
  }

  function SeenOf(token: string): Option<set<int>> {
    match Base64.Decode(token)
    case None => None
    case Some(text) => ParseAll(SplitCommas(text))
  }

  lemma ListedStep(ints: seq<int>, i: nat, text: string)
    requires i < |ints|
    ensures text + Listed(ints[i..]) == text + (Itoa(ints[i]) + ",") + Listed(ints[i + 1..])
  {
    assert ints[i..][1..] == ints[i + 1..];
    assert Listed(ints[i..]) == Itoa(ints[i]) + "," + Listed(ints[i + 1..]);
  }

  /** seenIndexesToBase64String */
  method SeenIndexesToBase64String(ints: seq<int>) returns (token: string)
    ensures token == TokenOf(ints)
  {
    var result := "";
    for i := 0 to |ints|
      invariant result + Listed(ints[i..]) == Listed(ints)
    {
      ListedStep(ints, i, result);
      result := result + (Itoa(ints[i]) + ",");
    }
    assert result == Listed(ints);
    JoinedIsAscii(ints);
    TrimListed(ints);
    result := TrimRightCommas(result);
    token := Base64.Encode(result);
  }

  lemma ParseStep(pieces: seq<string>, i: nat, found: set<int>)
    requires i < |pieces|
    ensures AddTo(found, ParseAll(pieces[i..])) ==
            match Atoi(pieces[i]) {
              case None => None
              case Some(n) => AddTo(found + {n}, ParseAll(pieces[i + 1..]))
            }
  {
    assert pieces[i..][1..] == pieces[i + 1..];
    match (Atoi(pieces[i]), ParseAll(pieces[i + 1..]))
    case (Some(n), Some(rest)) => assert found + ({n} + rest) == (found + {n}) + rest;
    case _ =>
  }

  /** base64SeenIndexesToMap */
  method Base64SeenIndexesToMap(value: string) returns (seen: Option<set<int>>)
    ensures seen == SeenOf(value)
  {
    var decoded := Base64.Decode(value);
    if decoded.None? {
      return None;
    }
    var pieces := SplitCommas(decoded.value);
    var result: set<int> := {};
    ghost var all := ParseAll(pieces);
    assert pieces[0..] == pieces;
    if all.Some? {
      assert {} + all.value == all.value;
    }
    for i := 0 to |pieces|
      invariant AddTo(result, ParseAll(pieces[i..])) == all
    {
      ParseStep(pieces, i, result);
      var n := Atoi(pieces[i]);
      if n.None? {
        return None;
      }
      result := result + {n.value};
    }
    seen := Some(result);
  }

  /**
   Decoding a token yields exactly the set that was encoded if and only if the
   list is not empty and holds numbers of 64 bits. Order, repetitions and signs
   do not matter.
   */
  lemma TokenRoundTrip(ints: seq<int>)
    ensures SeenOf(TokenOf(ints)) == Some(Elements(ints)) <==> ints != [] && AllInt64(ints)
    ensures ints == [] || !AllInt64(ints) ==> SeenOf(TokenOf(ints)) == None
  {
    JoinedIsAscii(ints);
    TrimListed(ints);
    Base64.DecodeEncode(Joined(ints));
    if ints == [] {
      assert Atoi("") == None;
    } else {
      SplitJoined(ints);
      ParsePrinted(ints);
    }
  }

  /** The token is the empty string, which ends a listing, only for the empty list. */
  lemma TokenEmpty(ints: seq<int>)
    ensures TokenOf(ints) == "" <==> ints == []
  {
    JoinedIsAscii(ints);
    TrimListed(ints);
  }

  /** Different lists have different tokens. */
  lemma TokenInjective(a: seq<int>, b: seq<int>)
    requires TokenOf(a) == TokenOf(b)
    ensures a == b
  {
    TokenEmpty(a);
    TokenEmpty(b);
    if a != [] {
      JoinedIsAscii(a);
      JoinedIsAscii(b);
      TrimListed(a);
      TrimListed(b);
      Base64.DecodeEncode(Joined(a));
      Base64.DecodeEncode(Joined(b));
      SplitJoined(a);
      SplitJoined(b);
      forall k | 0 <= k < |a|
        ensures a[k] == b[k]
      {
        assert Printed(a)[k] == Printed(b)[k];
        ItoaInjective(a[k], b[k]);
      }
    }
  }

  /** The token ListVolumes issues for a set of indexes carries that set back. */
  lemma SetRoundTrip(seen: set<int>)
    requires seen != {} && forall n | n in seen :: IsInt64(n)
    ensures TokenOf(SortedList(seen)) != ""
    ensures SeenOf(TokenOf(SortedList(seen))) == Some(seen)
  {
    var list := SortedList(seen);
    TokenRoundTrip(list);
    TokenEmpty(list);
    assert Elements(list) == seen;
  }

  ghost predicate AllNumbers(pieces: seq<string>) {
    forall k | 0 <= k < |pieces| :: Atoi(pieces[k]).Some?
  }

  ghost predicate AreTheNumbers(numbers: set<int>, pieces: seq<string>) {
    forall n :: n in numbers <==> exists k :: 0 <= k < |pieces| && Atoi(pieces[k]) == Some(n)
  }

  /** The pieces can be read if and only if each is a number, and then exactly these numbers are the set. */
  lemma {:induction false} ParseAllExactly(pieces: seq<string>)
    ensures ParseAll(pieces).Some? <==> AllNumbers(pieces)
    ensures ParseAll(pieces).Some? ==> AreTheNumbers(ParseAll(pieces).value, pieces)
  {
    if pieces != [] {
      var tail := pieces[1..];
      ParseAllExactly(tail);
      assert forall k | 0 < k < |pieces| :: pieces[k] == tail[k - 1];
      assert forall k | 0 <= k < |tail| :: tail[k] == pieces[k + 1];
    }
  }

  /** The token is base 64 of the indexes in decimal, in the order of the list, with a comma between each two. */
  lemma TokenText(ints: seq<int>)
    requires ints != []
    ensures Base64.Decode(TokenOf(ints)).Some?
    ensures SplitCommas(Base64.Decode(TokenOf(ints)).value) == Printed(ints)
  {
    JoinedIsAscii(ints);
    Base64.DecodeEncode(Joined(ints));
    SplitJoined(ints);
  }

  /**
   Any token, also one that was made by hand: it stands for a set if and only if it is
   base 64 of numbers between commas, and then for the set of these numbers.
   */
  lemma SeenOfExactly(token: string)
    ensures SeenOf(token).Some? <==>
            Base64.Decode(token).Some? && AllNumbers(SplitCommas(Base64.Decode(token).value))
    ensures SeenOf(token).Some? ==> AreTheNumbers(SeenOf(token).value, SplitCommas(Base64.Decode(token).value))
  {
    hide AllNumbers, AreTheNumbers;
    if Base64.Decode(token).Some? {
      ParseAllExactly(SplitCommas(Base64.Decode(token).value));
    }
  }
}
