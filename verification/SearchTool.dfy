/** The search tool: a bounded walk over the pages of one partition. */
module SearchTool {
  import opened Text
  import opened Wrappers
  import opened Documents

  const MAX_RESULTS := 25
  const MAX_PAGE_READS := 5
  const PAGE_ITEM_LIMIT := 100

  /** How the service pages: where the page read as number `page` from item `start` stops, and whether
      it still carries a continuation key when it reaches the end. Pages may be short or empty, and
      an empty page may be followed by a full one. */
  datatype Paging = Paging(stop: (nat, nat) -> nat, dangling: (nat, nat) -> bool)

  function PageEnd(items: seq<Item>, paging: Paging, page: nat, start: nat): (end: nat)
    requires start <= |items|
    ensures start <= end <= |items| && end <= start + PAGE_ITEM_LIMIT
  {
    var wish := paging.stop(page, start);
    var limit := if start + PAGE_ITEM_LIMIT < |items| then start + PAGE_ITEM_LIMIT else |items|;
    if wish < start then start else if wish > limit then limit else wish
  }

  predicate HasMore(items: seq<Item>, paging: Paging, page: nat, start: nat)
    requires start <= |items|
  {
    PageEnd(items, paging, page, start) < |items| || paging.dangling(page, start)
  }

  /** A document as it is returned. */
  datatype Hit = Hit(docId: string, title: string)

  predicate MatchesTitle(lower: Lowering, item: Item, query: string) {
    item.title.Some? && Contains(lower(item.title.value), query)
  }

  /** Every match among the items, in their order. */
  function Matching(lower: Lowering, items: seq<Item>, query: string): seq<Hit> {
    if items == [] then []
    else
      var rest := Matching(lower, items[1..], query);
      if MatchesTitle(lower, items[0], query) then [Hit(items[0].docId, items[0].title.value)] + rest else rest
  }

  /** A document is among the matches exactly when its title, lower-cased, contains the query. */
  lemma {:induction false} MatchingIff(lower: Lowering, items: seq<Item>, query: string, docId: string, title: string)
    ensures Hit(docId, title) in Matching(lower, items, query) <==>
      exists i | 0 <= i < |items| ::
        items[i].docId == docId && items[i].title == Some(title) && Contains(lower(title), query)
    decreases |items|
  {
    hide Contains;
    if items != [] {
      var rest := items[1..];
      MatchingIff(lower, rest, query, docId, title);
      assert forall i | 1 <= i < |items| :: items[i] == rest[i - 1];
      if i :| 0 <= i < |rest| && rest[i].docId == docId && rest[i].title == Some(title)
              && Contains(lower(title), query) {
        assert items[i + 1].docId == docId;
      }
    }
  }

  lemma {:induction false} MatchingSplits(lower: Lowering, a: seq<Item>, b: seq<Item>, query: string)
    ensures Matching(lower, a + b, query) == Matching(lower, a, query) + Matching(lower, b, query)
    decreases |a|
  {
    if a == [] {
      assert a + b == b;
    } else {
      assert (a + b)[1..] == a[1..] + b;
      MatchingSplits(lower, a[1..], b, query);
    }
  }

  lemma MatchingOfPrefix(lower: Lowering, items: seq<Item>, n: nat, query: string)
    requires n <= |items|
    ensures Matching(lower, items[..n], query) <= Matching(lower, items, query)
  {
    assert items == items[..n] + items[n..];
    MatchingSplits(lower, items[..n], items[n..], query);
  }

  lemma MatchingOfOneMore(lower: Lowering, items: seq<Item>, k: nat, query: string)
    requires k < |items|
    ensures Matching(lower, items[..k + 1], query) ==
            Matching(lower, items[..k], query) +
            (if MatchesTitle(lower, items[k], query) then [Hit(items[k].docId, items[k].title.value)] else [])
  {
    assert items[..k + 1] == items[..k] + [items[k]];
    MatchingSplits(lower, items[..k], [items[k]], query);
    assert [items[k]][1..] == [];
  }

  datatype Found = Found(results: seq<Hit>, truncated: bool)

  // ----- what a bounded walk is to find ---------------------------------------------------

  /** Where the reading stands after a number of pages. */
  function ReadTo(items: seq<Item>, paging: Paging, pages: nat): (end: nat)
    ensures end <= |items|
  {
    if pages == 0 then 0 else PageEnd(items, paging, pages - 1, ReadTo(items, paging, pages - 1))
  }

  /** The last of so many pages carries a continuation key. */
  predicate MoreAfter(items: seq<Item>, paging: Paging, pages: nat)
    requires pages > 0
  {
    HasMore(items, paging, pages - 1, ReadTo(items, paging, pages - 1))
  }

  /** The matches among all items of the first pages. */
  function MatchesRead(lower: Lowering, items: seq<Item>, paging: Paging, query: string, pages: nat): seq<Hit> {
    Matching(lower, items[..ReadTo(items, paging, pages)], query)
  }

  predicate Stops(lower: Lowering, items: seq<Item>, paging: Paging, query: string, pages: nat)
    requires pages > 0
  {
    || pages == 5
    || |MatchesRead(lower, items, paging, query, pages)| >= 25
    || !MoreAfter(items, paging, pages)
  }

  /** The walk reads on until the pages are used up, 25 matches are found, or no page is left. */
  predicate IsLastPage(lower: Lowering, items: seq<Item>, paging: Paging, query: string, pages: nat) {
    && 1 <= pages <= 5
    && Stops(lower, items, paging, query, pages)
    && forall k | 1 <= k < pages :: !Stops(lower, items, paging, query, k)
  }

  /** The first 25 matches of the pages read, marked as cut short exactly when a 26th was read or a
      page was left after 25 matches or five pages. */
  predicate IsFoundIn(lower: Lowering, items: seq<Item>, paging: Paging, query: string, pages: nat, f: Found)
    requires pages > 0
  {
    var read := MatchesRead(lower, items, paging, query, pages);
    && f.results == read[..Min(25, |read|)]
    && (f.truncated <==> |read| > 25 || (MoreAfter(items, paging, pages) && (|read| == 25 || pages == 5)))
  }

  // ----- the walk -------------------------------------------------------------------------

  /** The whole walk as a function: page by page from `start`, with `page` pages read before. */
  function Walk(lower: Lowering, items: seq<Item>, paging: Paging, query: string, start: nat, page: nat): Found
    requires start <= |items| && page < MAX_PAGE_READS
    decreases MAX_PAGE_READS - page
  {
    var end := PageEnd(items, paging, page, start);
    var seen := Matching(lower, items[..end], query);
    if |seen| > MAX_RESULTS then Found(seen[..MAX_RESULTS], true)
    else if !HasMore(items, paging, page, start) then Found(seen, false)
    else if |seen| == MAX_RESULTS || page + 1 == MAX_PAGE_READS then Found(seen, true)
    else Walk(lower, items, paging, query, end, page + 1)
  }

  function Search(lower: Lowering, items: seq<Item>, paging: Paging, query: string): Found {
    Walk(lower, items, paging, query, 0, 0)
  }

  /** One match beyond the cap inside the page: the first 25 are already collected. */
  lemma CapWithinPage(lower: Lowering, items: seq<Item>, k: nat, end: nat, query: string)
    requires k < end <= |items| && MatchesTitle(lower, items[k], query)
    requires |Matching(lower, items[..k], query)| == MAX_RESULTS
    ensures |Matching(lower, items[..end], query)| > MAX_RESULTS
    ensures Matching(lower, items[..end], query)[..MAX_RESULTS] == Matching(lower, items[..k], query)
  {
    MatchingOfOneMore(lower, items, k, query);
    assert items[..end][..k + 1] == items[..k + 1];
    MatchingOfPrefix(lower, items[..end], k + 1, query);
  }

  lemma {:induction false} WalkIsFirstMatches(lower: Lowering, items: seq<Item>, paging: Paging, query: string,
      start: nat, page: nat)
    requires start <= |items| && page < MAX_PAGE_READS
    ensures var f := Walk(lower, items, paging, query, start, page);
      && f.results <= Matching(lower, items, query) && |f.results| <= MAX_RESULTS
      && (!f.truncated ==> f.results == Matching(lower, items, query))
    decreases MAX_PAGE_READS - page
  {
    var end := PageEnd(items, paging, page, start);
    MatchingOfPrefix(lower, items, end, query);
    var seen := Matching(lower, items[..end], query);
    if |seen| > MAX_RESULTS {
    } else if !HasMore(items, paging, page, start) {
      assert items[..end] == items;
    } else if |seen| != MAX_RESULTS && page + 1 != MAX_PAGE_READS {
      WalkIsFirstMatches(lower, items, paging, query, end, page + 1);
    }
  }

  lemma {:induction false} WalkFinds(lower: Lowering, items: seq<Item>, paging: Paging, query: string, page: nat,
      pages: nat)
    requires page < pages && IsLastPage(lower, items, paging, query, pages)
    ensures IsFoundIn(lower, items, paging, query, pages,
                Walk(lower, items, paging, query, ReadTo(items, paging, page), page))
    decreases pages - page
  {
    hide Matching, PageEnd, HasMore;
    if page + 1 < pages {
      assert !Stops(lower, items, paging, query, page + 1);
      WalkFinds(lower, items, paging, query, page + 1, pages);
    } else {
      assert Stops(lower, items, paging, query, pages);
    }
  }

  /** A search returns the first 25 matches of the pages it reads, all when there are fewer, and it
      reads on while pages, matches and its own bounds let it. It says that it was cut short exactly
      when it read a 26th match, or left a page unread at 25 matches or five pages. */
  lemma SearchFindsWhatItReads(lower: Lowering, items: seq<Item>, paging: Paging, query: string, pages: nat)
    requires IsLastPage(lower, items, paging, query, pages)
    ensures IsFoundIn(lower, items, paging, query, pages, Search(lower, items, paging, query))
  {
    hide Walk, IsFoundIn, IsLastPage;
    PagesAreCounted(lower, items, paging, query, pages);
    WalkFinds(lower, items, paging, query, 0, pages);
  }

  lemma PagesAreCounted(lower: Lowering, items: seq<Item>, paging: Paging, query: string, pages: nat)
    requires IsLastPage(lower, items, paging, query, pages)
    ensures 0 < pages && ReadTo(items, paging, 0) == 0
  {
    hide Stops;
  }

  /** Every search has a last page, and only one. */
  lemma SomePageIsLast(lower: Lowering, items: seq<Item>, paging: Paging, query: string)
    ensures exists pages: nat :: IsLastPage(lower, items, paging, query, pages)
    ensures forall a: nat, b: nat ::
      IsLastPage(lower, items, paging, query, a) && IsLastPage(lower, items, paging, query, b) ==> a == b
  {
    FifthPageStops(lower, items, paging, query);
    hide Stops;
    if Stops(lower, items, paging, query, 1) {
      assert IsLastPage(lower, items, paging, query, 1);
    } else if Stops(lower, items, paging, query, 2) {
      assert IsLastPage(lower, items, paging, query, 2);
    } else if Stops(lower, items, paging, query, 3) {
      assert IsLastPage(lower, items, paging, query, 3);
    } else if Stops(lower, items, paging, query, 4) {
      assert IsLastPage(lower, items, paging, query, 4);
    } else {
      assert IsLastPage(lower, items, paging, query, 5);
    }
  }

  lemma FifthPageStops(lower: Lowering, items: seq<Item>, paging: Paging, query: string)
    ensures Stops(lower, items, paging, query, 5)
  {
  }

  /** Under every paging the results are the first at most 25 matches of the partition in key order,
      and a search that does not say it was cut short returned every match. */
  lemma SearchReturnsFirstMatches(lower: Lowering, items: seq<Item>, paging: Paging, query: string)
    ensures var f := Search(lower, items, paging, query);
      && f.results <= Matching(lower, items, query) && |f.results| <= MAX_RESULTS
      && (!f.truncated ==> f.results == Matching(lower, items, query))
  {
    WalkIsFirstMatches(lower, items, paging, query, 0, 0);
  }

  /** A service that fills its pages and stops at the end: a partition of at most 500 documents
      with fewer than 25 matches is always searched to completion. */
  lemma {:induction false} FullPagesReachTheEnd(lower: Lowering, items: seq<Item>, paging: Paging, query: string,
      start: nat, page: nat)
    requires start <= |items| && page < MAX_PAGE_READS
    requires forall k: nat, i: nat :: paging.stop(k, i) >= i + PAGE_ITEM_LIMIT && !paging.dangling(k, i)
    requires |items| <= start + PAGE_ITEM_LIMIT * (MAX_PAGE_READS - page)
    requires |Matching(lower, items, query)| < MAX_RESULTS
    ensures Walk(lower, items, paging, query, start, page) == Found(Matching(lower, items, query), false)
    decreases MAX_PAGE_READS - page
  {
    var end := PageEnd(items, paging, page, start);
    MatchingOfPrefix(lower, items, end, query);
    if HasMore(items, paging, page, start) {
      FullPagesReachTheEnd(lower, items, paging, query, end, page + 1);
    } else {
      assert items[..end] == items;
    }
  }

  // ----- the loop -------------------------------------------------------------------------

  method QueryServedPartition(lower: Lowering, items: seq<Item>, paging: Paging, query: string)
    returns (results: seq<Hit>, truncated: bool, ghost pagesRead: nat)
    ensures Found(results, truncated) == Search(lower, items, paging, query)
    ensures IsLastPage(lower, items, paging, query, pagesRead)
    ensures IsFoundIn(lower, items, paging, query, pagesRead, Found(results, truncated))
  {
    hide Search, Matching, Contains, PageEnd, HasMore, ReadTo, MoreAfter, MatchesRead, Stops, IsLastPage, IsFoundIn;
    results := [];
    var start: nat, pages: nat := 0, 0;
    NothingRead(lower, items, paging, query);
    while true
      invariant start <= |items| && pages < MAX_PAGE_READS
      invariant results == Matching(lower, items[..start], query) && |results| <= MAX_RESULTS
      invariant start == ReadTo(items, paging, pages)
      invariant forall k | 1 <= k <= pages :: !Stops(lower, items, paging, query, k)
      decreases MAX_PAGE_READS - pages
    {
      var end := PageEnd(items, paging, pages, start);
      pages, pagesRead := pages + 1, pages + 1;
      OnePage(lower, items, paging, query, pages);
      for k := start to end
        invariant results == Matching(lower, items[..k], query) && |results| <= MAX_RESULTS
      {
        MatchingOfOneMore(lower, items, k, query);
        if MatchesTitle(lower, items[k], query) {
          if |results| >= MAX_RESULTS {
            CapWithinPage(lower, items, k, end, query);
            WalkEnds(lower, items, paging, query, pages, Found(results, true));
            return results, true, pagesRead;
          }
          results := results + [Hit(items[k].docId, items[k].title.value)];
        }
      }
      if !HasMore(items, paging, pages - 1, start) {
        WalkEnds(lower, items, paging, query, pages, Found(results, false));
        return results, false, pagesRead;
      }
      if |results| >= MAX_RESULTS || pages >= MAX_PAGE_READS {
        WalkEnds(lower, items, paging, query, pages, Found(results, true));
        return results, true, pagesRead;
      }
      start := end;
    }
  }

  lemma NothingRead(lower: Lowering, items: seq<Item>, paging: Paging, query: string)
    ensures ReadTo(items, paging, 0) == 0 && Matching(lower, items[..0], query) == []
  {
  }

  lemma OnePage(lower: Lowering, items: seq<Item>, paging: Paging, query: string, pages: nat)
    requires pages > 0
    ensures var start, end := ReadTo(items, paging, pages - 1), ReadTo(items, paging, pages);
      && end == PageEnd(items, paging, pages - 1, start)
      && (MoreAfter(items, paging, pages) <==> HasMore(items, paging, pages - 1, start))
      && MatchesRead(lower, items, paging, query, pages) == Matching(lower, items[..end], query)
    ensures Stops(lower, items, paging, query, pages) <==>
      || pages == MAX_PAGE_READS
      || |MatchesRead(lower, items, paging, query, pages)| >= MAX_RESULTS
      || !MoreAfter(items, paging, pages)
  {
    hide PageEnd, HasMore, Matching;
  }

  /** A walk that stopped where it must, with what it must return, is the search. */
  lemma WalkEnds(lower: Lowering, items: seq<Item>, paging: Paging, query: string, pages: nat, f: Found)
    requires 1 <= pages <= MAX_PAGE_READS && Stops(lower, items, paging, query, pages)
    requires forall k | 1 <= k < pages :: !Stops(lower, items, paging, query, k)
    requires var read := MatchesRead(lower, items, paging, query, pages);
      && f.results == (if |read| > MAX_RESULTS then read[..MAX_RESULTS] else read)
      && f.truncated == (|read| > MAX_RESULTS
          || (MoreAfter(items, paging, pages) && (|read| >= MAX_RESULTS || pages >= MAX_PAGE_READS)))
    ensures IsLastPage(lower, items, paging, query, pages) && IsFoundIn(lower, items, paging, query, pages, f)
    ensures f == Search(lower, items, paging, query)
  {
    hide Search, MatchesRead, MoreAfter, Stops;
    SearchFindsWhatItReads(lower, items, paging, query, pages);
  }
}
