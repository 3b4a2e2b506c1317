/** Windows over a materialised listing, addressed by decimal index tokens. */
module Paging {
  import opened Results
  import Decimal

  datatype Page = Page(maxResults: Option<nat>, pageToken: Option<string>)

  /** The index a token stands for; a missing or unreadable token stands for the start. */
  function StartOf(token: Option<string>): nat {
    if token.None? || Decimal.Parse(token.value).None? then 0 else Decimal.Parse(token.value).value
  }

  /** One page of `items` and the token of the next. */
  function PageOf<T>(items: seq<T>, page: Page): (seq<T>, Option<string>) {
    var start := StartOf(page.pageToken);
    if start >= |items| then ([], None)
    else if page.maxResults.Some? && page.maxResults.value < |items| - start then
      (items[start..start + page.maxResults.value], Some(Decimal.Print(start + page.maxResults.value)))
    else (items[start..], None)
  }

  method Paginate<T>(items: seq<T>, page: Page) returns (rest: seq<T>, next: Option<string>)
    ensures (rest, next) == PageOf(items, page)
  {
    var start := 0;
    if page.pageToken.Some? {
      var parsed := Decimal.Parse(page.pageToken.value);
      if parsed.Some? { start := parsed.value; }
    }
    if start >= |items| { return [], None; }
    rest, next := items[start..], None;
    if page.maxResults.Some? && page.maxResults.value < |rest| {
      var limit := page.maxResults.value;
      assert rest[..limit] == items[start..start + limit];
      rest, next := rest[..limit], Some(Decimal.Print(start + limit));
    }
  }

  /** The pages a caller collects who starts at `token` and follows each next token. */
  function Pages<T>(items: seq<T>, limit: nat, token: Option<string>): seq<seq<T>>
    requires limit >= 1 && |items| <= Decimal.USIZE_MAX
    decreases |items| - StartOf(token)
  {
    var (page, next) := PageOf(items, Page(Some(limit), token));
    if next.None? then [page]
    else
      Decimal.ParseOfPrint(StartOf(token) + limit);
      [page] + Pages(items, limit, next)
  }

  function Flatten<T>(pages: seq<seq<T>>): seq<T> {
    if pages == [] then [] else pages[0] + Flatten(pages[1..])
  }

  /** All pages but the last hold `limit` items. */
  ghost predicate FullButLast<T>(pages: seq<seq<T>>, limit: nat) {
    && pages != [] && |pages[|pages| - 1]| <= limit
    && forall i :: 0 <= i < |pages| - 1 ==> |pages[i]| == limit
  }

  lemma OneMorePage<T>(page: seq<T>, rest: seq<seq<T>>, limit: nat)
    requires |page| == limit && FullButLast(rest, limit)
    ensures FullButLast([page] + rest, limit) && Flatten([page] + rest) == page + Flatten(rest)
  {
    assert ([page] + rest)[1..] == rest;
  }

  lemma LastPageOnly<T>(page: seq<T>, limit: nat)
    requires |page| <= limit
    ensures FullButLast([page], limit) && Flatten([page]) == page
  {
    assert [page][1..] == [];
    assert page + [] == page;
  }

  /** What a page is, and where the next one starts. */
  lemma PageIs<T>(items: seq<T>, limit: nat, token: Option<string>, page: seq<T>, next: Option<string>)
    requires |items| <= Decimal.USIZE_MAX && StartOf(token) <= |items|
    requires (page, next) == PageOf(items, Page(Some(limit), token))
    ensures var start := StartOf(token);
      if next.Some? then
        |page| == limit && StartOf(next) == start + limit <= |items| && page + items[start + limit..] == items[start..]
      else page == items[start..] && |page| <= limit
  {
    var start := StartOf(token);
    if next.Some? { Decimal.ParseOfPrint(start + limit); }
  }

  lemma {:induction false} PagesFrom<T>(items: seq<T>, limit: nat, token: Option<string>)
    requires limit >= 1 && |items| <= Decimal.USIZE_MAX && StartOf(token) <= |items|
    ensures Flatten(Pages(items, limit, token)) == items[StartOf(token)..]
    ensures FullButLast(Pages(items, limit, token), limit)
    decreases |items| - StartOf(token)
  {
    var (page, next) := PageOf(items, Page(Some(limit), token));
    PageIs(items, limit, token, page, next);
    if next.Some? {
      PagesFrom(items, limit, next);
      OneMorePage(page, Pages(items, limit, next), limit);
    } else {
      LastPageOnly(page, limit);
    }
  }

  /** With a limit of at least one, following the tokens from the start ends, gives every item
      exactly once and in order, and fills every page but the last. */
  lemma PagesComplete<T>(items: seq<T>, limit: nat)
    requires limit >= 1 && |items| <= Decimal.USIZE_MAX
    ensures Flatten(Pages(items, limit, None)) == items && FullButLast(Pages(items, limit, None), limit)
  {
    PagesFrom(items, limit, None);
    assert items[0..] == items;
  }

  /** The token a caller holds after following n pages. */
  function TokenAfter<T>(items: seq<T>, limit: nat, n: nat): Option<string> {
    if n == 0 then Some(Decimal.Print(0))
    else
      var before := TokenAfter(items, limit, n - 1);
      if before.None? then None else PageOf(items, Page(Some(limit), before)).1
  }

  /** How many items `n` pages hold. */
  function Passed(limit: nat, n: nat): nat {
    if n == 0 then 0 else Passed(limit, n - 1) + limit
  }

  lemma {:induction false} TokenIs<T>(items: seq<T>, limit: nat, n: nat)
    requires |items| <= Decimal.USIZE_MAX
    requires n == 0 || Passed(limit, n) < |items|
    ensures TokenAfter(items, limit, n) == Some(Decimal.Print(Passed(limit, n)))
  {
    if n > 0 {
      TokenIs(items, limit, n - 1);
      NextToken(items, limit, Passed(limit, n - 1));
    }
  }

  lemma {:induction false} NothingPassed(n: nat)
    ensures Passed(0, n) == 0
  {
    if n > 0 { NothingPassed(n - 1); }
  }

  lemma NextToken<T>(items: seq<T>, limit: nat, start: nat)
    requires start + limit < |items| <= Decimal.USIZE_MAX
    ensures PageOf(items, Page(Some(limit), Some(Decimal.Print(start)))).1 == Some(Decimal.Print(start + limit))
  {
    Decimal.ParseOfPrint(start);
  }

  /** Following the tokens ends exactly when the limit is at least one or there is nothing to list:
      a limit of zero returns the token it was given for ever. */
  lemma PagingEndsIff<T>(items: seq<T>, limit: nat)
    requires |items| <= Decimal.USIZE_MAX
    ensures (exists n :: TokenAfter(items, limit, n).None?) <==> limit >= 1 || items == []
  {
    if limit == 0 && items != [] {
      forall n: nat ensures TokenAfter(items, limit, n).Some? {
        NothingPassed(n);
        TokenIs(items, 0, n);
      }
    } else if items == [] {
      Decimal.ParseOfPrint(0);
      assert TokenAfter(items, limit, 0) == Some(Decimal.Print(0));
      assert TokenAfter(items, limit, 1).None?;
    } else {
      LastPage(items, limit);
    }
  }

  lemma LastPage<T>(items: seq<T>, limit: nat)
    requires limit >= 1 && items != [] && |items| <= Decimal.USIZE_MAX
    ensures exists n :: TokenAfter(items, limit, n).None?
  {
    var n := 0;
    while Passed(limit, n + 1) < |items|
      invariant Passed(limit, n) < |items|
      decreases |items| - Passed(limit, n)
    {
      n := n + 1;
    }
    TokenIs(items, limit, n);
    Decimal.ParseOfPrint(Passed(limit, n));
    assert TokenAfter(items, limit, n + 1).None?;
  }
}
