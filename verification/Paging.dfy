/**
 ListVolumes (driver/controller.go): pages over a target list that may change
 between calls, with the indexes already returned carried by the token.
 */
module Paging {
  import opened Wrappers
  import opened Text
  import opened Lists
  import opened Nas
  import opened SeenToken
  import Base64

  /** The state of the loop over the target list: what was chosen, what was seen, and whether it stopped early. */
  datatype Page = Page(chosen: seq<TargetInfo>, seen: set<int>, full: bool)

  /** The loop over the targets still to be looked at. */
  function Scan(targets: seq<TargetInfo>, chosen: seq<TargetInfo>, seen: set<int>, max: int): Page {
    if targets == [] then Page(chosen, seen, false)
    else if targets[0].index in seen then Scan(targets[1..], chosen, seen, max)
    else if ToInt32(|chosen|) >= max then Page(chosen, seen, true)
    else Scan(targets[1..], chosen + [targets[0]], seen + {targets[0].index}, max)
  }

  /** No limit means as many as there are targets. */
  function EffectiveMax(targets: seq<TargetInfo>, maxEntries: int): int {
    if maxEntries == 0 then ToInt32(|targets|) else maxEntries
  }

  function PageOf(targets: seq<TargetInfo>, seen: set<int>, maxEntries: int): Page {
    Scan(targets, [], seen, EffectiveMax(targets, maxEntries))
  }

  function NextToken(page: Page): string {
    if page.full then TokenOf(SortedList(page.seen)) else ""
  }

  /**
   The indexes a token stands for, None being a nil pointer: an unreadable token
   counts as nothing seen, but for the empty token no set is ever made.
   */
  function StartingSet(token: string): Option<set<int>> {
    if token == "" then None
    else
      match SeenOf(token)
      case None => Some({})
      case Some(seen) => Some(seen)
  }

  /** The same with the evident intent for the empty token: nothing was seen yet. */
  function IntendedSet(token: string): set<int> {
    match StartingSet(token)
    case None => {}
    case Some(seen) => seen
  }

  // ------------------------------------------------ one page, described directly

  function Unseen(targets: seq<TargetInfo>, seen: set<int>): seq<TargetInfo> {
    if targets == [] then []
    else if targets[0].index in seen then Unseen(targets[1..], seen)
    else [targets[0]] + Unseen(targets[1..], seen)
  }

  function IndexesOf(targets: seq<TargetInfo>): set<int> {
    set k | 0 <= k < |targets| :: targets[k].index
  }

  ghost predicate DistinctIndexes(targets: seq<TargetInfo>) {
    forall j, k | 0 <= j < k < |targets| :: targets[j].index != targets[k].index
  }

  function Take<T>(s: seq<T>, count: int): seq<T>
    requires count >= 0
  {
    if count < |s| then s[..count] else s
  }

  lemma {:induction false} UnseenSpec(targets: seq<TargetInfo>, seen: set<int>)
    ensures |Unseen(targets, seen)| <= |targets|
    ensures forall k | 0 <= k < |Unseen(targets, seen)| ::
              Unseen(targets, seen)[k] in targets && Unseen(targets, seen)[k].index !in seen
    ensures forall k | 0 <= k < |targets| :: targets[k].index !in seen ==> targets[k] in Unseen(targets, seen)
    ensures DistinctIndexes(targets) ==> DistinctIndexes(Unseen(targets, seen))
  {
    if targets != [] {
      UnseenSpec(targets[1..], seen);
      var rest := Unseen(targets[1..], seen);
      if DistinctIndexes(targets) {
        assert forall k | 0 <= k < |rest| :: rest[k] in targets[1..];
        assert forall k | 1 <= k < |targets| :: targets[k].index != targets[0].index;
      }
    }
  }

  /** Seeing one more index that the rest of the list does not have changes nothing for the rest. */
  lemma {:induction false} UnseenWithout(targets: seq<TargetInfo>, seen: set<int>, index: int)
    requires forall k | 0 <= k < |targets| :: targets[k].index != index
    ensures Unseen(targets, seen + {index}) == Unseen(targets, seen)
  {
    if targets != [] {
      UnseenWithout(targets[1..], seen, index);
    }
  }

  lemma IndexesOfConcat(a: seq<TargetInfo>, b: seq<TargetInfo>)
    ensures IndexesOf(a + b) == IndexesOf(a) + IndexesOf(b)
  {
    assert forall k | 0 <= k < |a| :: (a + b)[k] == a[k];
    assert forall k | 0 <= k < |b| :: (a + b)[|a| + k] == b[k];
  }

  lemma TakeCons(head: TargetInfo, rest: seq<TargetInfo>, room: int)
    requires room > 0
    ensures Take([head] + rest, room) == [head] + Take(rest, room - 1)
    ensures IndexesOf(Take([head] + rest, room)) == {head.index} + IndexesOf(Take(rest, room - 1))
  {
    assert Take([head] + rest, room) == [head] + Take(rest, room - 1);
    IndexesOfConcat([head], Take(rest, room - 1));
    IndexesOfSingle(head);
  }

  lemma IndexesOfSingle(t: TargetInfo)
    ensures IndexesOf([t]) == {t.index}
  {
    assert [t][0].index in IndexesOf([t]);
  }

  /** What the loop is to have done with the unseen targets when `room` entries are left. */
  ghost predicate TakesUnseen(page: Page, chosen: seq<TargetInfo>, seen: set<int>, unseen: seq<TargetInfo>, room: int)
    requires room >= 0
  {
    && page.chosen == chosen + Take(unseen, room)
    && page.seen == seen + IndexesOf(Take(unseen, room))
    && (page.full <==> |unseen| > room)
  }

  lemma TakesOneMore(page: Page, chosen: seq<TargetInfo>, seen: set<int>, head: TargetInfo,
                     rest: seq<TargetInfo>, room: int)
    requires room > 0 && TakesUnseen(page, chosen + [head], seen + {head.index}, rest, room - 1)
    ensures TakesUnseen(page, chosen, seen, [head] + rest, room)
  {
    TakeCons(head, rest, room);
    assert chosen + [head] + Take(rest, room - 1) == chosen + ([head] + Take(rest, room - 1));
    var later := IndexesOf(Take(rest, room - 1));
    assert seen + {head.index} + later == seen + ({head.index} + later);
  }

  lemma TakesNone(page: Page, chosen: seq<TargetInfo>, seen: set<int>, unseen: seq<TargetInfo>, room: int)
    requires room >= 0 && (room == 0 || unseen == []) && page == Page(chosen, seen, unseen != [])
    ensures TakesUnseen(page, chosen, seen, unseen, room)
  {
    assert Take(unseen, room) == [];
    assert IndexesOf([]) == {};
  }

  /**
   What a page is, without the loop: the first `max` targets not seen yet, in the
   order of the list; it is full exactly when more of them are left, and the
   indexes seen afterwards are those seen before and those on the page.
   */
  lemma {:induction false} ScanSpec(targets: seq<TargetInfo>, chosen: seq<TargetInfo>, seen: set<int>, max: int)
    requires DistinctIndexes(targets)
    requires 0 <= max && |chosen| <= max <= 0x7FFF_FFFF
    ensures TakesUnseen(Scan(targets, chosen, seen, max), chosen, seen, Unseen(targets, seen), max - |chosen|)
    decreases |targets|
  {
    var page := Scan(targets, chosen, seen, max);
    if targets == [] {
      TakesNone(page, chosen, seen, [], max - |chosen|);
    } else {
      var head, tail := targets[0], targets[1..];
      if head.index in seen {
        ScanSpec(tail, chosen, seen, max);
      } else if |chosen| < max {
        ScanSpec(tail, chosen + [head], seen + {head.index}, max);
        UnseenWithout(tail, seen, head.index);
        TakesOneMore(page, chosen, seen, head, Unseen(tail, seen), max - |chosen|);
      } else {
        TakesNone(page, chosen, seen, Unseen(targets, seen), 0);
      }
    }
  }

  /** A target list the driver can be given: distinct indexes of 64 bits, a length of 32. */
  ghost predicate ProperList(targets: seq<TargetInfo>) {
    && DistinctIndexes(targets) && |targets| <= 0x7FFF_FFFF
    && forall k | 0 <= k < |targets| :: IsInt64(targets[k].index)
  }

  /** The page as `ScanSpec` describes it, for the limit of the request. */
  lemma PageSpec(targets: seq<TargetInfo>, seen: set<int>, maxEntries: int)
    requires ProperList(targets) && 0 <= maxEntries <= 0x7FFF_FFFF
    ensures var page := PageOf(targets, seen, maxEntries);
            var unseen := Unseen(targets, seen);
            && page.chosen == (if maxEntries == 0 then unseen else Take(unseen, maxEntries))
            && page.seen == seen + IndexesOf(page.chosen)
            && (page.full <==> 0 < maxEntries < |unseen|)
  {
    UnseenSpec(targets, seen);
    var max := EffectiveMax(targets, maxEntries);
    ScanSpec(targets, [], seen, max);
    assert [] + Take(Unseen(targets, seen), max) == Take(Unseen(targets, seen), max);
  }

  ghost predicate AllIndexes64(seen: set<int>) {
    forall n | n in seen :: IsInt64(n)
  }

  /**
   A page that is not the last never encodes an empty set, so its token is not
   empty and reads back as exactly the indexes seen so far.
   */
  lemma TokenCarriesSeen(targets: seq<TargetInfo>, seen: set<int>, maxEntries: int)
    requires ProperList(targets) && 0 <= maxEntries <= 0x7FFF_FFFF && AllIndexes64(seen)
    ensures var page := PageOf(targets, seen, maxEntries);
            && AllIndexes64(page.seen)
            && (NextToken(page) != "" <==> page.full)
            && (page.full ==> page.seen != {} && StartingSet(NextToken(page)) == Some(page.seen))
            && (page.full ==>
                  exists list :: Ascending(list) && Elements(list) == page.seen && NextToken(page) == TokenOf(list))
  {
    PageSpec(targets, seen, maxEntries);
    UnseenSpec(targets, seen);
    var page := PageOf(targets, seen, maxEntries);
    forall n | n in page.seen
      ensures IsInt64(n)
    {
      if n !in seen {
        var k :| 0 <= k < |page.chosen| && page.chosen[k].index == n;
        assert page.chosen[k] in targets;
      }
    }
    if page.full {
      assert page.chosen[0].index in page.seen;
      SetRoundTrip(page.seen);
    }
  }

  lemma {:induction false} NegativeScan(targets: seq<TargetInfo>, seen: set<int>, max: int)
    requires max < 0
    ensures Scan(targets, [], seen, max) == Page([], seen, Unseen(targets, seen) != [])
  {
    if targets != [] && targets[0].index in seen {
      NegativeScan(targets[1..], seen, max);
    }
  }

  /**
   With a negative limit every page is empty and sees nothing more, and it is full
   when targets are left; if nothing was seen before, its token is nevertheless the
   one that says the listing is complete.
   */
  lemma NegativeLimit(targets: seq<TargetInfo>, seen: set<int>, maxEntries: int)
    requires maxEntries < 0
    ensures PageOf(targets, seen, maxEntries) == Page([], seen, Unseen(targets, seen) != [])
    ensures NextToken(PageOf(targets, {}, maxEntries)) == ""
    ensures PageOf(targets, {}, maxEntries).full <==> targets != []
  {
    NegativeScan(targets, seen, maxEntries);
    NegativeScan(targets, {}, maxEntries);
    NothingSeen(targets);
    TokenEmpty(SortedList({}));
  }

  // --------------------------------------------------------------- runs of pages

  /** One call: the target list the NAS shows then, and the limit asked for. */
  datatype Ask = Ask(targets: seq<TargetInfo>, maxEntries: int)

  ghost predicate ProperAsk(ask: Ask) {
    ProperList(ask.targets) && 0 <= ask.maxEntries <= 0x7FFF_FFFF
  }

  ghost predicate ProperAsks(asks: seq<Ask>) {
    forall k | 0 <= k < |asks| :: ProperAsk(asks[k])
  }

  /** The pages of a client that passes each token back until it gets an empty one. */
  function Run(asks: seq<Ask>, token: string): seq<Page> {
    if asks == [] then []
    else
      var page := PageOf(asks[0].targets, IntendedSet(token), asks[0].maxEntries);
      var next := NextToken(page);
      [page] + if next == "" then [] else Run(asks[1..], next)
  }

  /** The same run with the sets themselves in place of the tokens. */
  function SetRun(asks: seq<Ask>, seen: set<int>): seq<Page> {
    if asks == [] then []
    else
      var page := PageOf(asks[0].targets, seen, asks[0].maxEntries);
      [page] + if page.full then SetRun(asks[1..], page.seen) else []
  }

  /** Everything the pages returned, in order. */
  function Returned(pages: seq<Page>): seq<TargetInfo> {
    if pages == [] then [] else pages[0].chosen + Returned(pages[1..])
  }

  lemma {:induction false} ParsedNumbersFit(pieces: seq<string>)
    ensures ParseAll(pieces).Some? ==> AllIndexes64(ParseAll(pieces).value)
  {
    if pieces != [] {
      ParsedNumbersFit(pieces[1..]);
    }
  }

  lemma TokensHold64Bits(token: string)
    ensures AllIndexes64(IntendedSet(token))
  {
    match Base64.Decode(token)
    case None =>
    case Some(text) => ParsedNumbersFit(SplitCommas(text));
  }

  /** Passing the seen set through the token loses nothing over a whole run. */
  lemma {:induction false} TokenRunIsSetRun(asks: seq<Ask>, token: string)
    requires ProperAsks(asks)
    ensures Run(asks, token) == SetRun(asks, IntendedSet(token))
    decreases |asks|
  {
    if asks != [] {
      TokensHold64Bits(token);
      TokenCarriesSeen(asks[0].targets, IntendedSet(token), asks[0].maxEntries);
      var page := PageOf(asks[0].targets, IntendedSet(token), asks[0].maxEntries);
      if page.full {
        TokenRunIsSetRun(asks[1..], NextToken(page));
      }
    }
  }

  lemma {:induction false} SetRunFresh(asks: seq<Ask>, seen: set<int>)
    requires ProperAsks(asks)
    ensures IndexesOf(Returned(SetRun(asks, seen))) !! seen
    ensures DistinctIndexes(Returned(SetRun(asks, seen)))
    decreases |asks|
  {
    if asks != [] {
      var page := PageOf(asks[0].targets, seen, asks[0].maxEntries);
      PageSpec(asks[0].targets, seen, asks[0].maxEntries);
      UnseenSpec(asks[0].targets, seen);
      assert IndexesOf(page.chosen) !! seen && DistinctIndexes(page.chosen);
      var later := if page.full then SetRun(asks[1..], page.seen) else [];
      if page.full {
        SetRunFresh(asks[1..], page.seen);
      }
      assert SetRun(asks, seen)[1..] == later;
      FreshConcat(page.chosen, Returned(later), page.seen);
      IndexesOfConcat(page.chosen, Returned(later));
    }
  }

  lemma FreshConcat(a: seq<TargetInfo>, b: seq<TargetInfo>, seen: set<int>)
    requires DistinctIndexes(a) && DistinctIndexes(b) && IndexesOf(a) <= seen && IndexesOf(b) !! seen
    ensures DistinctIndexes(a + b)
  {
    assert forall k | 0 <= k < |a| :: a[k].index in IndexesOf(a);
    assert forall k | 0 <= k < |b| :: b[k].index in IndexesOf(b);
  }

  ghost predicate PresentInAll(asks: seq<Ask>, count: nat, index: int) {
    count <= |asks| && forall k | 0 <= k < count :: index in IndexesOf(asks[k].targets)
  }

  lemma {:induction false} SetRunComplete(asks: seq<Ask>, seen: set<int>, index: int)
    requires ProperAsks(asks)
    requires var pages := SetRun(asks, seen);
             pages != [] && !pages[|pages| - 1].full && PresentInAll(asks, |pages|, index)
    ensures index in seen || index in IndexesOf(Returned(SetRun(asks, seen)))
    decreases |asks|
  {
    var targets := asks[0].targets;
    var page := PageOf(targets, seen, asks[0].maxEntries);
    PageSpec(targets, seen, asks[0].maxEntries);
    var pages := SetRun(asks, seen);
    if page.full {
      var later := SetRun(asks[1..], page.seen);
      assert pages[1..] == later;
      assert forall k | 0 <= k < |later| :: asks[1..][k] == asks[k + 1];
      SetRunComplete(asks[1..], page.seen, index);
      IndexesOfConcat(page.chosen, Returned(later));
    } else {
      UnseenSpec(targets, seen);
      var k :| 0 <= k < |targets| && targets[k].index == index;
      if index !in seen {
        var j :| 0 <= j < |page.chosen| && page.chosen[j] == targets[k];
        assert page.chosen[j].index in IndexesOf(page.chosen);
      }
      assert pages[1..] == [];
      IndexesOfConcat(page.chosen, []);
    }
  }

  /**
   Over every run of calls that pass each token back, on target lists that may
   change in between, no index is returned twice, and none the first token names.
   */
  lemma NoIndexTwice(asks: seq<Ask>, token: string)
    requires ProperAsks(asks)
    ensures DistinctIndexes(Returned(Run(asks, token)))
    ensures IndexesOf(Returned(Run(asks, token))) !! IntendedSet(token)
  {
    TokenRunIsSetRun(asks, token);
    SetRunFresh(asks, IntendedSet(token));
  }

  /**
   When the run ends with an empty token, every index that was in all the lists
   shown during the run is returned, unless the first token names it; by
   `NoIndexTwice`, exactly once.
   */
  lemma EveryIndexOnce(asks: seq<Ask>, token: string, index: int)
    requires ProperAsks(asks)
    requires var pages := Run(asks, token);
             pages != [] && NextToken(pages[|pages| - 1]) == "" && PresentInAll(asks, |pages|, index)
    ensures var returned := Returned(Run(asks, token));
            index !in IntendedSet(token) <==> exists k :: 0 <= k < |returned| && returned[k].index == index
  {
    TokenRunIsSetRun(asks, token);
    TokensHold64Bits(token);
    LastPageFinal(asks, IntendedSet(token));
    SetRunComplete(asks, IntendedSet(token), index);
    NoIndexTwice(asks, token);
    var returned := Returned(Run(asks, token));
    assert forall k | 0 <= k < |returned| :: returned[k].index in IndexesOf(returned);
  }

  /** In a run, the last page has the empty token exactly when it is not full. */
  lemma {:induction false} LastPageFinal(asks: seq<Ask>, seen: set<int>)
    requires ProperAsks(asks) && AllIndexes64(seen) && asks != []
    ensures var pages := SetRun(asks, seen);
            pages != [] && (NextToken(pages[|pages| - 1]) == "" <==> !pages[|pages| - 1].full)
    decreases |asks|
  {
    TokenCarriesSeen(asks[0].targets, seen, asks[0].maxEntries);
    var page := PageOf(asks[0].targets, seen, asks[0].maxEntries);
    if page.full && asks[1..] != [] {
      LastPageFinal(asks[1..], page.seen);
    }
  }

  /** A token that is not empty and reads back as what was seen. */
  ghost predicate CarriesSeen(page: Page) {
    NextToken(page) != "" && StartingSet(NextToken(page)) == Some(page.seen)
  }

  ghost predicate FullPagesCarry(pages: seq<Page>) {
    forall i | 0 <= i < |pages| :: pages[i].full ==> CarriesSeen(pages[i])
  }

  lemma FullPagesCarryCons(page: Page, later: seq<Page>)
    requires FullPagesCarry(later) && (page.full ==> CarriesSeen(page))
    ensures FullPagesCarry([page] + later)
  {
    var pages := [page] + later;
    assert forall i | 0 < i < |pages| :: pages[i] == later[i - 1];
  }

  /** In every run, each page that is not the last carries a token with all that was seen. */
  lemma {:induction false} FullPagesCarrySeen(asks: seq<Ask>, seen: set<int>)
    requires ProperAsks(asks) && AllIndexes64(seen)
    ensures FullPagesCarry(SetRun(asks, seen))
    decreases |asks|
  {
    if asks != [] {
      var page := PageOf(asks[0].targets, seen, asks[0].maxEntries);
      TokenCarriesSeen(asks[0].targets, seen, asks[0].maxEntries);
      if page.full {
        FullPagesCarrySeen(asks[1..], page.seen);
        FullPagesCarryCons(page, SetRun(asks[1..], page.seen));
      } else {
        SinglePage(asks, seen);
      }
    }
  }

  // ------------------------------------------------------------------ termination

  lemma {:induction false} SetRunTerminates(asks: seq<Ask>, seen: set<int>, k: int, universe: set<int>)
    requires ProperAsks(asks) && 0 < k
    requires forall i | 0 <= i < |asks| :: asks[i].maxEntries == k && IndexesOf(asks[i].targets) <= universe
    ensures asks != [] ==> (|SetRun(asks, seen)| - 1) * k <= |universe - seen|
    ensures |asks| * k > |universe - seen| ==> EndsListing(SetRun(asks, seen))
    decreases |asks|
  {
    if asks != [] {
      var page := PageOf(asks[0].targets, seen, k);
      FullPageGrows(asks[0], seen, universe);
      if page.full {
        var later := SetRun(asks[1..], page.seen);
        SetRunTerminates(asks[1..], page.seen, k, universe);
        OneMorePage([page] + later, later, asks, k);
        assert asks[1..] == [] ==> later == [];
      } else {
        SinglePage(asks, seen);
      }
    }
  }

  ghost predicate EndsListing(pages: seq<Page>) {
    pages != [] && !pages[|pages| - 1].full
  }

  lemma OneMorePage(pages: seq<Page>, later: seq<Page>, asks: seq<Ask>, k: int)
    requires asks != [] && pages != [] && pages[1..] == later
    ensures (|pages| - 1) * k == (|later| - 1) * k + k
    ensures |asks| * k == |asks[1..]| * k + k
    ensures EndsListing(later) ==> EndsListing(pages)
  {
    assert |pages| - 1 == |later|;
    assert |asks| == |asks[1..]| + 1;
    assert later != [] ==> later[|later| - 1] == pages[|pages| - 1];
  }

  lemma FullPageGrows(ask: Ask, seen: set<int>, universe: set<int>)
    requires ProperAsk(ask) && 0 < ask.maxEntries && IndexesOf(ask.targets) <= universe
    ensures var page := PageOf(ask.targets, seen, ask.maxEntries);
            page.full ==> |page.chosen| == ask.maxEntries
                          && |universe - page.seen| == |universe - seen| - ask.maxEntries
  {
    var page := PageOf(ask.targets, seen, ask.maxEntries);
    PageSpec(ask.targets, seen, ask.maxEntries);
    UnseenSpec(ask.targets, seen);
    if page.full {
      SeenGrows(ask.targets, seen, page.chosen, universe);
    }
  }

  lemma SeenGrows(targets: seq<TargetInfo>, seen: set<int>, chosen: seq<TargetInfo>, universe: set<int>)
    requires DistinctIndexes(chosen) && IndexesOf(targets) <= universe
    requires forall i | 0 <= i < |chosen| :: chosen[i] in targets && chosen[i].index !in seen
    ensures |universe - (seen + IndexesOf(chosen))| == |universe - seen| - |chosen|
  {
    forall i | 0 <= i < |chosen|
      ensures chosen[i].index in universe
    {
      var j :| 0 <= j < |targets| && targets[j] == chosen[i];
      assert targets[j].index in IndexesOf(targets);
    }
    CountIndexes(chosen);
    assert IndexesOf(chosen) <= universe - seen;
    assert universe - (seen + IndexesOf(chosen)) == (universe - seen) - IndexesOf(chosen);
  }

  lemma {:induction false} CountIndexes(list: seq<TargetInfo>)
    requires DistinctIndexes(list)
    ensures |IndexesOf(list)| == |list|
  {
    if list == [] {
      assert IndexesOf(list) == {};
    } else {
      var front, last := list[..|list| - 1], list[|list| - 1];
      CountIndexes(front);
      assert list == front + [last];
      IndexesOfConcat(front, [last]);
      IndexesOfSingle(last);
      assert last.index !in IndexesOf(front);
    }
  }

  /**
   When all indexes ever listed lie in a finite set, every page but the last adds
   exactly k indexes of it to those seen, so a client that asks for k entries at a
   time is done after at most |universe| / k + 1 calls.
   */
  lemma PagingTerminates(asks: seq<Ask>, token: string, k: int, universe: set<int>)
    requires ProperAsks(asks) && 0 < k
    requires forall i | 0 <= i < |asks| :: asks[i].maxEntries == k && IndexesOf(asks[i].targets) <= universe
    ensures asks != [] ==> (|Run(asks, token)| - 1) * k <= |universe - IntendedSet(token)|
    ensures |asks| * k > |universe - IntendedSet(token)| ==> EndsListing(Run(asks, token))
  {
    TokenRunIsSetRun(asks, token);
    SetRunTerminates(asks, IntendedSet(token), k, universe);
  }

  // ------------------------------------------------------------ an unchanging list

  /** How many pages of k entries it takes to return n, one of them even for none. */
  function PageCount(n: nat, k: int): (pages: nat)
    requires k > 0
    ensures pages > 0
  {
    if n <= k then 1 else 1 + PageCount(n - k, k)
  }

  /** That is max(1, ceil(n / k)). */
  lemma {:induction false} PageCountIsCeiling(n: nat, k: int)
    requires k > 0
    ensures PageCount(n, k) == if n == 0 then 1 else (n + k - 1) / k
  {
    if n > k {
      PageCountIsCeiling(n - k, k);
      DivideUp(n - 1, k);
      assert n - 1 == (n - k) + k - 1;
    } else if n > 0 {
      DivideUp(n - 1, k);
      SmallQuotient(n - 1, k);
    }
  }

  lemma SmallQuotient(a: int, k: int)
    requires 0 <= a < k
    ensures a / k == 0
  {
  }

  /** Adding the divisor adds one to the quotient. */
  lemma DivideUp(a: int, k: int)
    requires k > 0
    ensures (a + k) / k == a / k + 1
  {
    var q, q' := a / k, (a + k) / k;
    var r, r' := a % k, (a + k) % k;
    assert a == q * k + r && a + k == q' * k + r';
    assert (q' - q - 1) * k == r - r';
    BetweenMultiples(q' - q - 1, k, r - r');
  }

  /** The only multiple of k strictly between -k and k is zero. */
  lemma BetweenMultiples(d: int, k: int, p: int)
    requires d * k == p && -k < p < k
    ensures d == 0
  {
    assert d >= 1 ==> d * k >= k;
    assert d <= -1 ==> d * k <= -k;
  }

  lemma {:induction false} UnseenSuffix(targets: seq<TargetInfo>, m: nat, seen: set<int>)
    requires m <= |targets|
    requires forall k | 0 <= k < m :: targets[k].index in seen
    requires forall k | m <= k < |targets| :: targets[k].index !in seen
    ensures Unseen(targets, seen) == targets[m..]
  {
    if targets != [] {
      UnseenSuffix(targets[1..], if m == 0 then 0 else m - 1, seen);
    }
  }

  ghost predicate EvenPage(page: Page, k: int) {
    page.full && |page.chosen| == k
  }

  /** Every page but the last is full and has k entries. */
  ghost predicate EvenPages(pages: seq<Page>, k: int) {
    EndsListing(pages) && forall i | 0 <= i < |pages| - 1 :: EvenPage(pages[i], k)
  }

  lemma EvenPagesCons(page: Page, later: seq<Page>, k: int)
    requires EvenPage(page, k) && EvenPages(later, k)
    ensures EvenPages([page] + later, k)
    ensures Returned([page] + later) == page.chosen + Returned(later)
  {
    var pages := [page] + later;
    assert pages[1..] == later;
    assert pages[|pages| - 1] == later[|later| - 1];
    forall i | 0 <= i < |pages| - 1
      ensures EvenPage(pages[i], k)
    {
      assert i > 0 ==> pages[i] == later[i - 1];
    }
  }

  lemma SliceSeen(targets: seq<TargetInfo>, m: nat, k: nat)
    requires m + k <= |targets|
    ensures targets[m..][..k] == targets[m..m + k] && targets[m..] == targets[m..m + k] + targets[m + k..]
    ensures IndexesOf(targets[..m]) + IndexesOf(targets[m..m + k]) == IndexesOf(targets[..m + k])
  {
    assert targets[..m + k] == targets[..m] + targets[m..m + k];
    IndexesOfConcat(targets[..m], targets[m..m + k]);
  }

  /** Looking for the unseen twice is looking once with both sets seen. */
  lemma {:induction false} UnseenTwice(targets: seq<TargetInfo>, seen: set<int>, more: set<int>)
    ensures Unseen(targets, seen + more) == Unseen(Unseen(targets, seen), more)
  {
    if targets != [] {
      UnseenTwice(targets[1..], seen, more);
    }
  }

  /** What is unseen of a proper list is a proper list. */
  lemma UnseenProper(targets: seq<TargetInfo>, seen: set<int>)
    requires ProperList(targets)
    ensures ProperList(Unseen(targets, seen))
  {
    UnseenSpec(targets, seen);
  }

  /** One page over a list of which the first m targets that `start` left unseen are seen, too. */
  lemma StaticPage(targets: seq<TargetInfo>, start: set<int>, m: nat, k: int, page: Page)
    requires ProperList(targets) && m <= |Unseen(targets, start)| && 0 < k <= 0x7FFF_FFFF
    requires page == PageOf(targets, start + IndexesOf(Unseen(targets, start)[..m]), k)
    ensures var list := Unseen(targets, start);
            && (page.full <==> |list| - m > k)
            && (page.full ==> && EvenPage(page, k) && page.chosen == list[m..m + k]
                              && page.seen == start + IndexesOf(list[..m + k]))
            && (!page.full ==> page.chosen == list[m..])
  {
    var list := Unseen(targets, start);
    var more := IndexesOf(list[..m]);
    UnseenProper(targets, start);
    PrefixSeen(list, m);
    UnseenTwice(targets, start, more);
    UnseenSuffix(list, m, more);
    PageSpec(targets, start + more, k);
    if |list| - m > k {
      SliceSeen(list, m, k);
      assert start + more + IndexesOf(list[m..m + k]) == start + (more + IndexesOf(list[m..m + k]));
    }
  }

  /** Every call finds this list and asks for k entries. */
  ghost predicate SameAsks(asks: seq<Ask>, targets: seq<TargetInfo>, k: int) {
    forall i | 0 <= i < |asks| :: asks[i] == Ask(targets, k)
  }

  lemma FullPageThen(asks: seq<Ask>, targets: seq<TargetInfo>, seen: set<int>, k: int, page: Page)
    requires asks != [] && SameAsks(asks, targets, k) && page == PageOf(targets, seen, k) && page.full
    ensures SetRun(asks, seen) == [page] + SetRun(asks[1..], page.seen)
    ensures SameAsks(asks[1..], targets, k)
  {
  }

  lemma {:induction false} StaticRun(asks: seq<Ask>, targets: seq<TargetInfo>, start: set<int>, m: nat, k: int)
    requires ProperList(targets) && m <= |Unseen(targets, start)| && 0 < k <= 0x7FFF_FFFF
    requires |asks| >= PageCount(|Unseen(targets, start)| - m, k) && SameAsks(asks, targets, k)
    ensures var list := Unseen(targets, start);
            StaticPages(SetRun(asks, start + IndexesOf(list[..m])), list, m, k)
    decreases |Unseen(targets, start)| - m
  {
    var list := Unseen(targets, start);
    var seen := start + IndexesOf(list[..m]);
    var page := PageOf(targets, seen, k);
    StaticPage(targets, start, m, k, page);
    if page.full {
      FullPageThen(asks, targets, seen, k, page);
      StaticRun(asks[1..], targets, start, m + k, k);
      StaticCons(page, SetRun(asks[1..], page.seen), list, m, k);
    } else {
      SinglePage(asks, seen);
    }
  }

  /** The pages return the rest of the list from m on, in as many even pages as it takes. */
  ghost predicate StaticPages(pages: seq<Page>, targets: seq<TargetInfo>, m: nat, k: int)
    requires m <= |targets| && k > 0
  {
    Returned(pages) == targets[m..] && |pages| == PageCount(|targets| - m, k) && EvenPages(pages, k)
  }

  lemma StaticCons(page: Page, later: seq<Page>, targets: seq<TargetInfo>, m: nat, k: int)
    requires 0 < k < |targets| - m && m <= |targets|
    requires EvenPage(page, k) && page.chosen == targets[m..m + k] && StaticPages(later, targets, m + k, k)
    ensures StaticPages([page] + later, targets, m, k)
  {
    EvenPagesCons(page, later, k);
    SliceSeen(targets, m, k);
  }

  lemma PrefixSeen(targets: seq<TargetInfo>, m: nat)
    requires ProperList(targets) && m <= |targets|
    ensures var seen := IndexesOf(targets[..m]);
            && AllIndexes64(seen)
            && (forall k | 0 <= k < m :: targets[k].index in seen)
            && (forall k | m <= k < |targets| :: targets[k].index !in seen)
  {
    forall k | 0 <= k < m
      ensures targets[k].index in IndexesOf(targets[..m])
    {
      assert targets[..m][k] == targets[k];
    }
  }

  /**
   Over an unchanging list, asking for k entries at a time returns, in order, the
   list without what the first token names, in max(1, ceil(n / k)) pages of which all
   but the last have k entries and a token that is not empty and carries all that was
   seen. A first token that is empty or cannot be read names nothing.
   */
  lemma UnchangingList(targets: seq<TargetInfo>, token: string, k: int, asks: seq<Ask>)
    requires ProperList(targets) && 0 < k <= 0x7FFF_FFFF
    requires |asks| >= PageCount(|Unseen(targets, IntendedSet(token))|, k) && SameAsks(asks, targets, k)
    ensures var pages, list := Run(asks, token), Unseen(targets, IntendedSet(token));
            && Returned(pages) == list
            && (IntendedSet(token) == {} ==> list == targets)
            && |pages| == (if list == [] then 1 else (|list| + k - 1) / k)
            && !pages[|pages| - 1].full
            && forall i | 0 <= i < |pages| - 1 :: |pages[i].chosen| == k && CarriesSeen(pages[i])
  {
    hide SetRun, Unseen, IntendedSet;
    var start := IntendedSet(token);
    PageCountIsCeiling(|Unseen(targets, start)|, k);
    TokenRunIsSetRun(asks, token);
    TokensHold64Bits(token);
    StaticListing(asks, targets, start, k);
    NothingSeen(targets);
  }

  lemma NothingSeen(targets: seq<TargetInfo>)
    ensures Unseen(targets, {}) == targets
  {
    UnseenSuffix(targets, 0, {});
  }

  lemma StaticListing(asks: seq<Ask>, targets: seq<TargetInfo>, start: set<int>, k: int)
    requires ProperList(targets) && AllIndexes64(start) && 0 < k <= 0x7FFF_FFFF
    requires |asks| >= PageCount(|Unseen(targets, start)|, k) && SameAsks(asks, targets, k)
    ensures var pages, list := SetRun(asks, start), Unseen(targets, start);
            && Returned(pages) == list && |pages| == PageCount(|list|, k) && !pages[|pages| - 1].full
            && forall i | 0 <= i < |pages| - 1 :: |pages[i].chosen| == k && CarriesSeen(pages[i])
  {
    var list := Unseen(targets, start);
    assert start + IndexesOf(list[..0]) == start;
    StaticRun(asks, targets, start, 0, k);
    FullPagesCarrySeen(asks, start);
    EvenPagesCarry(SetRun(asks, start), k);
  }

  lemma EvenPagesCarry(pages: seq<Page>, k: int)
    requires EvenPages(pages, k) && FullPagesCarry(pages)
    ensures !pages[|pages| - 1].full
    ensures forall i | 0 <= i < |pages| - 1 :: |pages[i].chosen| == k && CarriesSeen(pages[i])
  {
    forall i | 0 <= i < |pages| - 1
      ensures |pages[i].chosen| == k && CarriesSeen(pages[i])
    {
      assert EvenPage(pages[i], k);
    }
  }

  /** A page that is not full ends the run. */
  lemma SinglePage(asks: seq<Ask>, seen: set<int>)
    requires asks != [] && !PageOf(asks[0].targets, seen, asks[0].maxEntries).full
    ensures var page := PageOf(asks[0].targets, seen, asks[0].maxEntries);
            SetRun(asks, seen) == [page] && Returned(SetRun(asks, seen)) == page.chosen
  {
    var pages := SetRun(asks, seen);
    assert pages[1..] == [];
  }

  /** Without a limit, one page returns all that the first token does not name, and ends the listing. */
  lemma NoLimit(asks: seq<Ask>, token: string)
    requires ProperAsks(asks) && asks != [] && asks[0].maxEntries == 0
    ensures |Run(asks, token)| == 1 && NextToken(Run(asks, token)[0]) == ""
    ensures Returned(Run(asks, token)) == Unseen(asks[0].targets, IntendedSet(token))
    ensures IntendedSet(token) == {} ==> Returned(Run(asks, token)) == asks[0].targets
  {
    TokenRunIsSetRun(asks, token);
    PageSpec(asks[0].targets, IntendedSet(token), 0);
    SinglePage(asks, IntendedSet(token));
    NothingSeen(asks[0].targets);
  }
}
