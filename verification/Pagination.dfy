/** Cursor-based pages over a query result. */
module Pagination {
  import opened Bytes
  import opened Wrappers
  import K = KeyedIndex

  datatype Cursor = Cursor(lastPubkey: Option<Pubkey>, offset: Option<nat>, limit: nat)

  datatype Page = Page(results: seq<Pubkey>, next: Option<Cursor>, totalCount: nat, isLastPage: bool)

  /** Index of the first occurrence. */
  function Position(s: seq<Pubkey>, p: Pubkey): (r: Option<nat>)
    ensures r.None? <==> p !in s
    ensures r.Some? ==> r.value < |s| && s[r.value] == p && p !in s[..r.value]
  {
    if s == [] then None
    else if s[0] == p then Some(0)
    else
      match Position(s[1..], p)
      case None => None
      case Some(i) => Some(i + 1)
  }

  /** `PaginatedResult::new`. */
  function NewPage(results: seq<Pubkey>, limit: nat, total: nat): Page {
    var isLast := |results| < limit;
    var next := if isLast || results == [] then None else Some(Cursor(Some(results[|results| - 1]), None, limit));
    Page(results, next, total, isLast)
  }

  /** Where a page starts: after the last pubkey seen, or at the given offset, or at the beginning. */
  function StartIndex(results: seq<Pubkey>, c: Option<Cursor>): nat {
    if c.None? then 0
    else if c.value.lastPubkey.Some? then
      match Position(results, c.value.lastPubkey.value)
      case None => 0
      case Some(i) => i + 1
    else if c.value.offset.Some? then c.value.offset.value
    else 0
  }

  function LimitOf(defaultLimit: nat, c: Option<Cursor>): nat {
    if c.Some? then c.value.limit else defaultLimit
  }

  /** `PaginationHelper::paginate`. */
  function Paginate(defaultLimit: nat, results: seq<Pubkey>, c: Option<Cursor>): Page {
    var limit := LimitOf(defaultLimit, c);
    var start := StartIndex(results, c);
    var end := if start + limit < |results| then start + limit else |results|;
    NewPage(if start >= |results| then [] else results[start..end], limit, |results|)
  }

  // ---------------------------------------------------------------- one page, in the cursor's own terms

  /** At most `limit` elements from `start` on. */
  function Slice(results: seq<Pubkey>, start: nat, limit: nat): seq<Pubkey> {
    if start >= |results| then []
    else if start + limit < |results| then results[start..start + limit]
    else results[start..]
  }

  /** Every page reports the number of all results, and is the last exactly when it is not full; from a full one
      the walk goes on behind its last account with the same page size. */
  lemma PageReports(defaultLimit: nat, results: seq<Pubkey>, c: Option<Cursor>)
    ensures var page := Paginate(defaultLimit, results, c); var limit := if c.None? then defaultLimit else c.value.limit;
      && page.totalCount == |results|
      && (page.isLastPage <==> |page.results| < limit)
      && (page.next.None? <==> |page.results| < limit || limit == 0)
      && (page.next.Some? ==> page.next.value == Cursor(Some(page.results[|page.results| - 1]), None, limit))
  {
  }

  /** Without a cursor, or with an empty one, the page is cut from the beginning. */
  lemma FirstPage(defaultLimit: nat, results: seq<Pubkey>, limit: nat)
    ensures Paginate(defaultLimit, results, None).results == Slice(results, 0, defaultLimit)
    ensures Paginate(defaultLimit, results, Some(Cursor(None, None, limit))).results == Slice(results, 0, limit)
  {
  }

  /** An offset cursor cuts the page at its offset. */
  lemma OffsetPage(defaultLimit: nat, results: seq<Pubkey>, k: nat, limit: nat)
    ensures Paginate(defaultLimit, results, Some(Cursor(None, Some(k), limit))).results == Slice(results, k, limit)
  {
  }

  /** A pubkey cursor cuts it right behind the account's first occurrence, and at the beginning if there is none;
      it overrides an offset. */
  lemma PubkeyPage(defaultLimit: nat, results: seq<Pubkey>, a: Pubkey, offset: Option<nat>, limit: nat)
    ensures var page := Paginate(defaultLimit, results, Some(Cursor(Some(a), offset, limit))).results;
      && (a !in results ==> page == Slice(results, 0, limit))
      && forall i :: 0 <= i < |results| && results[i] == a && a !in results[..i] ==> page == Slice(results, i + 1, limit)
  {
    var page := Paginate(defaultLimit, results, Some(Cursor(Some(a), offset, limit))).results;
    forall i | 0 <= i < |results| && results[i] == a && a !in results[..i]
      ensures page == Slice(results, i + 1, limit)
    {
      PositionIsFirst(results, i);
    }
  }

  /** At most `fuel` pages, following `next` from cursor `c`. */
  function Chain(defaultLimit: nat, results: seq<Pubkey>, c: Option<Cursor>, fuel: nat): seq<Page>
    decreases fuel
  {
    if fuel == 0 then []
    else
      var p := Paginate(defaultLimit, results, c);
      [p] + if p.next.None? then [] else Chain(defaultLimit, results, p.next, fuel - 1)
  }

  function Concat(pages: seq<Page>): seq<Pubkey> {
    if pages == [] then [] else pages[0].results + Concat(pages[1..])
  }

  /** The chain reached a page without a successor. */
  predicate Ended(pages: seq<Page>) {
    pages != [] && pages[|pages| - 1].next.None?
  }

  lemma DivStep(x: nat, d: nat)
    requires 0 < d <= x
    ensures x / d == (x - d) / d + 1
  {
    var q, r := (x - d) / d, (x - d) % d;
    assert x - d == q * d + r;
    assert x == (q + 1) * d + r by {
      assert (q + 1) * d == q * d + d;
    }
    Quotient(x, d, q + 1, r);
  }

  lemma Quotient(x: nat, d: nat, q: nat, r: nat)
    requires x == q * d + r && r < d
    ensures x / d == q
  {
    var q', r' := x / d, x % d;
    assert x == q' * d + r';
    assert (q' + 1) * d == q' * d + d && (q + 1) * d == q * d + d;
    if q' < q {
      Times(q' + 1, q, d);
    } else if q < q' {
      Times(q + 1, q', d);
    }
  }

  lemma Times(a: nat, b: nat, d: nat)
    requires a <= b
    ensures a * d <= b * d
  {
  }

  /** How many results lie at or after the cursor. */
  function Rest(results: seq<Pubkey>, c: Option<Cursor>): nat {
    var start := StartIndex(results, c);
    if start <= |results| then |results| - start else 0
  }

  /** A full page ends at an account whose first occurrence is there, so the next page starts right after it. */
  lemma FullPage(defaultLimit: nat, results: seq<Pubkey>, c: Option<Cursor>)
    requires K.NoDuplicates(results) && 1 <= LimitOf(defaultLimit, c) <= Rest(results, c)
    ensures var limit := LimitOf(defaultLimit, c); var p := Paginate(defaultLimit, results, c);
      && p.results == results[StartIndex(results, c)..][..limit]
      && p.next.Some? && p.next.value.limit == limit
      && StartIndex(results, p.next) == StartIndex(results, c) + limit
  {
    var limit, start := LimitOf(defaultLimit, c), StartIndex(results, c);
    var p := Paginate(defaultLimit, results, c);
    assert p.results == results[start..start + limit] == results[start..][..limit];
    assert results[start + limit - 1] == p.results[limit - 1] == p.next.value.lastPubkey.value;
  }

  lemma ShortPage(defaultLimit: nat, results: seq<Pubkey>, c: Option<Cursor>)
    requires Rest(results, c) < LimitOf(defaultLimit, c)
    ensures var p := Paginate(defaultLimit, results, c);
      p.next.None? && p.results == results[|results| - Rest(results, c)..]
  {
  }

  lemma ChainStep(defaultLimit: nat, results: seq<Pubkey>, c: Option<Cursor>, fuel: nat)
    requires fuel > 0 && Paginate(defaultLimit, results, c).next.Some?
    ensures var p := Paginate(defaultLimit, results, c);
      var tail := Chain(defaultLimit, results, p.next, fuel - 1);
      && Chain(defaultLimit, results, c, fuel) == [p] + tail
      && Concat([p] + tail) == p.results + Concat(tail)
      && (Ended(tail) ==> Ended([p] + tail))
  {
    var p := Paginate(defaultLimit, results, c);
    hide Paginate;
    var tail := Chain(defaultLimit, results, p.next, fuel - 1);
    assert ([p] + tail)[1..] == tail;
  }

  lemma ChainStop(defaultLimit: nat, results: seq<Pubkey>, c: Option<Cursor>, fuel: nat)
    requires fuel > 0 && Paginate(defaultLimit, results, c).next.None?
    ensures var p := Paginate(defaultLimit, results, c);
      Chain(defaultLimit, results, c, fuel) == [p] && Concat([p]) == p.results && Ended([p])
  {
    OnePage(Paginate(defaultLimit, results, c));
    hide Paginate;
  }

  /**
   From any starting cursor over a duplicate-free list, following `next` visits exactly
   floor(rest / limit) + 1 pages, whose concatenation is the rest of the list.
   */
  lemma {:induction false} VisitsTheRest(defaultLimit: nat, results: seq<Pubkey>, c: Option<Cursor>, fuel: nat)
    requires K.NoDuplicates(results) && LimitOf(defaultLimit, c) >= 1
    requires fuel > Rest(results, c) / LimitOf(defaultLimit, c)
    ensures var pages := Chain(defaultLimit, results, c, fuel);
      && |pages| == Rest(results, c) / LimitOf(defaultLimit, c) + 1 && Ended(pages)
      && Concat(pages) == results[|results| - Rest(results, c)..]
    decreases fuel
  {
    var limit, start, rest := LimitOf(defaultLimit, c), StartIndex(results, c), Rest(results, c);
    var p := Paginate(defaultLimit, results, c);
    hide Paginate, StartIndex, Chain, Concat, Ended, K.NoDuplicates;
    if limit <= rest {
      FullPage(defaultLimit, results, c);
      DivStep(rest, limit);
      ChainStep(defaultLimit, results, c, fuel);
      assert Rest(results, p.next) == rest - limit && LimitOf(defaultLimit, p.next) == limit;
      assert start == |results| - rest;
      hide Rest, LimitOf;
      SplitPage(results, start, limit);
      VisitsTheRest(defaultLimit, results, p.next, fuel - 1);
      assert |results| - (rest - limit) == start + limit;
    } else {
      ShortPage(defaultLimit, results, c);
      Quotient(rest, limit, 0, rest);
      ChainStop(defaultLimit, results, c, fuel);
    }
  }

  lemma SplitPage(results: seq<Pubkey>, start: nat, limit: nat)
    requires start + limit <= |results|
    ensures results[start..] == results[start..][..limit] + results[start + limit..]
  {
  }

  lemma OnePage(p: Page)
    ensures Concat([p]) == p.results
  {
    assert [p][1..] == [];
  }

  /** From the beginning, and with the page size in effect. */
  lemma VisitsEverything(defaultLimit: nat, results: seq<Pubkey>, fuel: nat)
    requires K.NoDuplicates(results) && defaultLimit >= 1 && fuel > |results| / defaultLimit
    ensures var pages := Chain(defaultLimit, results, None, fuel);
      |pages| == |results| / defaultLimit + 1 && Ended(pages) && Concat(pages) == results
  {
    VisitsTheRest(defaultLimit, results, None, fuel);
  }

  /** A walk from an offset delivers everything from there on. */
  lemma VisitsFromOffset(defaultLimit: nat, results: seq<Pubkey>, k: nat, limit: nat, fuel: nat)
    requires K.NoDuplicates(results) && limit >= 1 && fuel > |results| / limit
    ensures var pages := Chain(defaultLimit, results, Some(Cursor(None, Some(k), limit)), fuel);
      && Ended(pages) && Concat(pages) == if k <= |results| then results[k..] else []
  {
    var c := Some(Cursor(None, Some(k), limit));
    Shrinks(Rest(results, c), |results|, limit);
    VisitsTheRest(defaultLimit, results, c, fuel);
  }

  lemma Shrinks(a: nat, b: nat, d: nat)
    requires a <= b && d >= 1
    ensures a / d <= b / d
  {
    var q, p := b / d, a / d;
    assert b < q * d + d && p * d <= a;
    assert (q + 1) * d == q * d + d;
    if q < p {
      Times(q + 1, p, d);
      assert false;
    }
  }

  lemma PagesOfTwins(a: Pubkey)
    ensures var c := Some(Cursor(Some(a), None, 1));
      Paginate(1, [a, a], None).next == c && Paginate(1, [a, a], c).next == c
  {
    var s := [a, a];
    assert Position(s, a) == Some(0);
    assert s[0..1] == [a] && s[1..2] == [a];
  }

  /** A repeated account sends the cursor back: with page size 1 the walk over `[a, a]` never ends. */
  lemma {:induction false} DuplicatesLoop(a: Pubkey, fuel: nat)
    ensures |Chain(1, [a, a], None, fuel)| == fuel
    ensures |Chain(1, [a, a], Some(Cursor(Some(a), None, 1)), fuel)| == fuel
  {
    PagesOfTwins(a);
    hide Paginate;
    if fuel > 0 {
      DuplicatesLoop(a, fuel - 1);
    }
  }

  /** From `start` on, the last element of every full page occurs nowhere earlier in the list. */
  predicate PagesEndAtFirsts(results: seq<Pubkey>, start: nat, limit: nat)
    requires limit >= 1
    decreases |results| - start
  {
    start + limit <= |results| ==>
      results[start + limit - 1] !in results[..start + limit - 1] && PagesEndAtFirsts(results, start + limit, limit)
  }

  lemma {:induction false} PositionIsFirst(s: seq<Pubkey>, k: nat)
    requires k < |s|
    ensures var r := Position(s, s[k]); r.Some? && r.value <= k && (r.value == k <==> s[k] !in s[..k])
  {
    if s[0] != s[k] {
      PositionIsFirst(s[1..], k - 1);
      assert s[..k] == [s[0]] + s[1..][..k - 1];
    } else if k > 0 {
      assert s[..k][0] == s[k];
    }
  }

  /** After a full page the walk never starts further on than right behind it, and exactly there when the page
      ends at a first occurrence. */
  lemma FullPageOfAny(defaultLimit: nat, results: seq<Pubkey>, c: Option<Cursor>)
    requires 1 <= LimitOf(defaultLimit, c) <= Rest(results, c)
    ensures var limit, start := LimitOf(defaultLimit, c), StartIndex(results, c);
      var p := Paginate(defaultLimit, results, c);
      && start + limit <= |results| && p.results == results[start..][..limit] && p.next.Some? && p.next.value.limit == limit
      && StartIndex(results, p.next) <= start + limit
      && (StartIndex(results, p.next) == start + limit <==> results[start + limit - 1] !in results[..start + limit - 1])
  {
    var limit, start := LimitOf(defaultLimit, c), StartIndex(results, c);
    var p := Paginate(defaultLimit, results, c);
    assert p.results == results[start..start + limit] == results[start..][..limit];
    assert p.results[|p.results| - 1] == results[start + limit - 1];
    PositionIsFirst(results, start + limit - 1);
    hide Position;
  }

  lemma EndsWithTail(p: Page, tail: seq<Page>)
    requires tail != []
    ensures Ended([p] + tail) <==> Ended(tail)
  {
  }

  lemma ShortPageDelivers(defaultLimit: nat, results: seq<Pubkey>, c: Option<Cursor>)
    requires Rest(results, c) < LimitOf(defaultLimit, c)
    ensures var p := Paginate(defaultLimit, results, c); p.next.None? && |p.results| == Rest(results, c)
  {
    ShortPage(defaultLimit, results, c);
  }

  /** Behind a full page lies at least what the page did not deliver. */
  lemma RestAfterPage(defaultLimit: nat, results: seq<Pubkey>, c: Option<Cursor>)
    requires 1 <= LimitOf(defaultLimit, c) <= Rest(results, c)
    ensures var p := Paginate(defaultLimit, results, c);
      && p.next.Some? && LimitOf(defaultLimit, p.next) == |p.results| == LimitOf(defaultLimit, c)
      && Rest(results, p.next) + |p.results| >= Rest(results, c)
  {
    FullPageOfAny(defaultLimit, results, c);
    hide StartIndex, Paginate;
  }

  lemma DeliversMore(defaultLimit: nat, results: seq<Pubkey>, c: Option<Cursor>, fuel: nat)
    requires fuel > 0 && Paginate(defaultLimit, results, c).next.Some? && Ended(Chain(defaultLimit, results, c, fuel))
    ensures var p := Paginate(defaultLimit, results, c);
      var tail := Chain(defaultLimit, results, p.next, fuel - 1);
      Ended(tail) && |Concat(Chain(defaultLimit, results, c, fuel))| == |p.results| + |Concat(tail)|
  {
    ChainStep(defaultLimit, results, c, fuel);
    var p := Paginate(defaultLimit, results, c);
    EndedTail(p, Chain(defaultLimit, results, p.next, fuel - 1));
    hide Paginate, Chain, Concat, Ended;
  }

  /** A walk that ends has delivered at least the rest of the list, repetitions included. */
  lemma {:induction false} DeliversTheRest(defaultLimit: nat, results: seq<Pubkey>, c: Option<Cursor>, fuel: nat)
    requires LimitOf(defaultLimit, c) >= 1 && Ended(Chain(defaultLimit, results, c, fuel))
    ensures |Concat(Chain(defaultLimit, results, c, fuel))| >= Rest(results, c)
    decreases fuel
  {
    hide *;
    EndedNeedsFuel(defaultLimit, results, c, fuel);
    if LimitOf(defaultLimit, c) <= Rest(results, c) {
      RestAfterPage(defaultLimit, results, c);
      DeliversMore(defaultLimit, results, c, fuel);
      DeliversTheRest(defaultLimit, results, Paginate(defaultLimit, results, c).next, fuel - 1);
    } else {
      ShortPageDelivers(defaultLimit, results, c);
      ChainStop(defaultLimit, results, c, fuel);
    }
  }

  /** A walk sent back delivers too much, if it ends at all. */
  lemma SentBackDeliversMore(defaultLimit: nat, results: seq<Pubkey>, c: Option<Cursor>, fuel: nat)
    requires fuel > 0 && 1 <= LimitOf(defaultLimit, c) <= Rest(results, c)
    requires Rest(results, Paginate(defaultLimit, results, c).next) + LimitOf(defaultLimit, c) > Rest(results, c)
    requires Ended(Chain(defaultLimit, results, c, fuel))
    ensures |Concat(Chain(defaultLimit, results, c, fuel))| > Rest(results, c)
  {
    hide *;
    RestAfterPage(defaultLimit, results, c);
    DeliversMore(defaultLimit, results, c, fuel);
    DeliversTheRest(defaultLimit, results, Paginate(defaultLimit, results, c).next, fuel - 1);
  }

  /** A full page followed by a walk that starts right behind it. */
  lemma GoesOnBehind(defaultLimit: nat, results: seq<Pubkey>, c: Option<Cursor>, fuel: nat)
    requires fuel > 1 && 1 <= LimitOf(defaultLimit, c) <= Rest(results, c)
    requires StartIndex(results, Paginate(defaultLimit, results, c).next) ==
             StartIndex(results, c) + LimitOf(defaultLimit, c)
    ensures var next, limit := Paginate(defaultLimit, results, c).next, LimitOf(defaultLimit, c);
      var pages, tail := Chain(defaultLimit, results, c, fuel), Chain(defaultLimit, results, next, fuel - 1);
      && (Ended(pages) <==> Ended(tail)) && Rest(results, next) == Rest(results, c) - limit
      && (Concat(pages) == results[|results| - Rest(results, c)..] <==>
            Concat(tail) == results[|results| - Rest(results, next)..])
  {
    var p, limit, start := Paginate(defaultLimit, results, c), LimitOf(defaultLimit, c), StartIndex(results, c);
    FullPageOfAny(defaultLimit, results, c);
    ChainStep(defaultLimit, results, c, fuel);
    ChainContinues(defaultLimit, results, p.next, fuel - 1);
    var tail := Chain(defaultLimit, results, p.next, fuel - 1);
    hide Paginate, StartIndex, Chain, Concat, Ended;
    EndsWithTail(p, tail);
    SplitPage(results, start, limit);
    SameConcat(p.results, Concat(tail), results[start + limit..]);
  }

  lemma SentBackIsImproper(defaultLimit: nat, results: seq<Pubkey>, c: Option<Cursor>, fuel: nat)
    requires fuel > 0 && 1 <= LimitOf(defaultLimit, c) <= Rest(results, c)
    requires Rest(results, Paginate(defaultLimit, results, c).next) + LimitOf(defaultLimit, c) > Rest(results, c)
    ensures !(Ended(Chain(defaultLimit, results, c, fuel)) &&
              Concat(Chain(defaultLimit, results, c, fuel)) == results[|results| - Rest(results, c)..])
  {
    hide Ended, Chain, Concat, StartIndex, Paginate;
    if Ended(Chain(defaultLimit, results, c, fuel)) {
      SentBackDeliversMore(defaultLimit, results, c, fuel);
    }
  }

  lemma ShortWalkIsProper(defaultLimit: nat, results: seq<Pubkey>, c: Option<Cursor>, fuel: nat)
    requires fuel > 0 && Rest(results, c) < LimitOf(defaultLimit, c)
    ensures var pages := Chain(defaultLimit, results, c, fuel);
      && Ended(pages) && Concat(pages) == results[|results| - Rest(results, c)..]
      && PagesEndAtFirsts(results, StartIndex(results, c), LimitOf(defaultLimit, c))
  {
    ShortPage(defaultLimit, results, c);
    ChainStop(defaultLimit, results, c, fuel);
    hide Ended, Chain, Concat, StartIndex, Paginate;
  }

  lemma FuelLeft(rest: nat, limit: nat, fuel: nat)
    requires 1 <= limit <= rest && fuel > rest / limit
    ensures fuel > 1 && fuel - 1 > (rest - limit) / limit
  {
    DivStep(rest, limit);
  }

  lemma FirstsUnfold(results: seq<Pubkey>, start: nat, limit: nat)
    requires limit >= 1 && start + limit <= |results|
    ensures PagesEndAtFirsts(results, start, limit) <==>
      results[start + limit - 1] !in results[..start + limit - 1] && PagesEndAtFirsts(results, start + limit, limit)
  {
  }

  lemma RestBySmallerStart(results: seq<Pubkey>, c: Option<Cursor>, next: Option<Cursor>, limit: nat)
    requires 1 <= limit <= Rest(results, c) && StartIndex(results, next) < StartIndex(results, c) + limit
    ensures Rest(results, next) + limit > Rest(results, c)
  {
    hide StartIndex;
  }

  /** Over any list, with repetitions or without, the walk ends having delivered the rest of it once and in order
      exactly when no full page ends at a repetition of something earlier. */
  lemma {:induction false} VisitsProperlyExactly(defaultLimit: nat, results: seq<Pubkey>, c: Option<Cursor>, fuel: nat)
    requires LimitOf(defaultLimit, c) >= 1 && fuel > Rest(results, c) / LimitOf(defaultLimit, c)
    ensures var pages := Chain(defaultLimit, results, c, fuel);
      Ended(pages) && Concat(pages) == results[|results| - Rest(results, c)..] <==>
      PagesEndAtFirsts(results, StartIndex(results, c), LimitOf(defaultLimit, c))
    decreases fuel
  {
    var next, limit := Paginate(defaultLimit, results, c).next, LimitOf(defaultLimit, c);
    hide *;
    if limit <= Rest(results, c) {
      FullPageOfAny(defaultLimit, results, c);
      RestAfterPage(defaultLimit, results, c);
      FuelLeft(Rest(results, c), limit, fuel);
      FirstsUnfold(results, StartIndex(results, c), limit);
      if StartIndex(results, next) == StartIndex(results, c) + limit {
        GoesOnBehind(defaultLimit, results, c, fuel);
        VisitsProperlyExactly(defaultLimit, results, next, fuel - 1);
      } else {
        RestBySmallerStart(results, c, next, limit);
        SentBackIsImproper(defaultLimit, results, c, fuel);
      }
    } else {
      ShortWalkIsProper(defaultLimit, results, c, fuel);
    }
  }

  lemma ChainContinues(defaultLimit: nat, results: seq<Pubkey>, c: Option<Cursor>, fuel: nat)
    requires fuel > 0
    ensures Chain(defaultLimit, results, c, fuel) != []
  {
    hide Paginate;
  }

  lemma SameConcat(a: seq<Pubkey>, b: seq<Pubkey>, c: seq<Pubkey>)
    ensures a + b == a + c <==> b == c
  {
    assert (a + b)[|a|..] == b && (a + c)[|a|..] == c;
  }

  /** A page size of zero delivers one empty page and stops. */
  lemma ZeroLimitStops(results: seq<Pubkey>, fuel: nat)
    requires fuel > 0
    ensures var pages := Chain(0, results, None, fuel);
      |pages| == 1 && Ended(pages) && (Concat(pages) == results <==> results == [])
  {
    var p := Paginate(0, results, None);
    assert p.results == [] && p.next == None;
    OnePage(p);
  }

  // ---------------------------------------------------------------- when every page evaluates the query anew

  /** The pages of a walk whose `i`-th page is cut from the `i`-th evaluation. */
  function Walk(defaultLimit: nat, lists: seq<seq<Pubkey>>, c: Option<Cursor>): seq<Page> {
    if lists == [] then []
    else
      var p := Paginate(defaultLimit, lists[0], c);
      [p] + if p.next.None? then [] else Walk(defaultLimit, lists[1..], p.next)
  }

  /** `l` lists `s`, in some order. */
  predicate Lists(l: seq<Pubkey>, s: set<Pubkey>) {
    K.NoDuplicates(l) && (forall a <- l :: a in s) && forall a <- s :: a in l
  }

  predicate AllList(lists: seq<seq<Pubkey>>, s: set<Pubkey>) {
    forall l <- lists :: Lists(l, s)
  }

  predicate Covers(pages: seq<Page>, s: set<Pubkey>) {
    forall a <- s :: a in Concat(pages)
  }

  /** Whatever order each evaluation lists `s` in, a walk that ends has shown all of it. */
  ghost predicate EveryWalkCovers(defaultLimit: nat, s: set<Pubkey>) {
    forall lists :: AllList(lists, s) && Ended(Walk(defaultLimit, lists, None)) ==>
      Covers(Walk(defaultLimit, lists, None), s)
  }

  lemma {:induction false} ListSize(l: seq<Pubkey>, s: set<Pubkey>)
    requires Lists(l, s)
    ensures |l| == |s|
  {
    if l == [] {
      assert s == {};
    } else {
      var front, last := l[..|l| - 1], l[|l| - 1];
      assert forall a <- front :: a in l && a != last;
      forall a | a in s - {last} ensures a in front {
        var i :| 0 <= i < |l| && l[i] == a;
        assert front[i] == a;
      }
      ListSize(front, s - {last});
    }
  }

  lemma {:induction false} SomeList(s: set<Pubkey>) returns (l: seq<Pubkey>)
    ensures Lists(l, s)
    decreases |s|
  {
    if s == {} {
      l := [];
    } else {
      var a :| a in s;
      var rest := SomeList(s - {a});
      l := rest + [a];
    }
  }

  /** The element at `limit - 1` moved to the end. */
  function Rotated(l: seq<Pubkey>, limit: nat): seq<Pubkey>
    requires 1 <= limit <= |l|
  {
    l[..limit - 1] + l[limit..] + [l[limit - 1]]
  }

  lemma RotatedLists(l: seq<Pubkey>, limit: nat, s: set<Pubkey>)
    requires 1 <= limit <= |l| && Lists(l, s)
    ensures Lists(Rotated(l, limit), s)
  {
    var r := Rotated(l, limit);
    assert forall i :: 0 <= i < limit - 1 ==> r[i] == l[i];
    assert forall i :: limit - 1 <= i < |l| - 1 ==> r[i] == l[i + 1];
    assert r[|l| - 1] == l[limit - 1];
    forall a | a in s ensures a in r {
      var i :| 0 <= i < |l| && l[i] == a;
      assert a == r[if i < limit - 1 then i else if i == limit - 1 then |l| - 1 else i - 1];
    }
  }

  lemma RotatedEndsWalk(l: seq<Pubkey>, limit: nat)
    requires 1 <= limit < |l| && K.NoDuplicates(l)
    ensures var first := Paginate(limit, l, None); var second := Paginate(limit, Rotated(l, limit), first.next);
      && first.results == l[..limit] && first.next.Some?
      && second.results == [] && second.next.None?
  {
    var first := Paginate(limit, l, None);
    assert first.results == l[..limit];
    var r := Rotated(l, limit);
    assert r[|l| - 1] == l[limit - 1];
    assert forall i :: 0 <= i < |l| - 1 ==> r[i] == l[if i < limit - 1 then i else i + 1];
    assert StartIndex(r, first.next) == |r|;
  }

  /** Any result longer than a page can be listed in another order the second time, and then accounts are missed. */
  lemma UnstableOrderSkips(l: seq<Pubkey>, limit: nat)
    requires 1 <= limit < |l| && K.NoDuplicates(l)
    ensures var pages := Walk(limit, [l, Rotated(l, limit)], None);
      Ended(pages) && Concat(pages) == l[..limit] && l[limit] !in Concat(pages)
  {
    RotatedEndsWalk(l, limit);
    hide Paginate, Rotated;
    var p1 := Paginate(limit, l, None);
    var p2 := Paginate(limit, Rotated(l, limit), p1.next);
    TwoPageWalk(limit, l, Rotated(l, limit));
    OnePage(p2);
    assert [p1, p2][1..] == [p2];
    assert l[..limit] + [] == l[..limit];
  }

  lemma TwoPageWalk(limit: nat, l: seq<Pubkey>, r: seq<Pubkey>)
    ensures var p1 := Paginate(limit, l, None); var p2 := Paginate(limit, r, p1.next);
      p1.next.Some? && p2.next.None? ==> Walk(limit, [l, r], None) == [p1, p2]
  {
    hide Paginate;
    assert [l, r][1..] == [r] && [r][1..] == [];
  }

  lemma SmallResultFitsFirstPage(limit: nat, lists: seq<seq<Pubkey>>, s: set<Pubkey>)
    requires |s| <= limit && AllList(lists, s) && lists != []
    ensures Covers(Walk(limit, lists, None), s)
  {
    ListSize(lists[0], s);
    var p := Paginate(limit, lists[0], None);
    assert p.results == lists[0];
    hide Paginate;
    var pages := Walk(limit, lists, None);
    assert pages[0] == p && Concat(pages) == p.results + Concat(pages[1..]);
  }

  /** Walking re-evaluated results shows everything, whatever the orders, exactly when one page holds it all. */
  lemma WalkCoversExactly(limit: nat, s: set<Pubkey>)
    requires limit >= 1
    ensures EveryWalkCovers(limit, s) <==> |s| <= limit
  {
    if |s| <= limit {
      forall lists | AllList(lists, s) && Ended(Walk(limit, lists, None)) ensures Covers(Walk(limit, lists, None), s) {
        SmallResultFitsFirstPage(limit, lists, s);
      }
    } else {
      var l := SomeList(s);
      ListSize(l, s);
      RotatedLists(l, limit, s);
      UnstableOrderSkips(l, limit);
      var lists := [l, Rotated(l, limit)];
      assert l[limit] in l;
      hide Walk, Rotated, Concat, Ended, Lists, K.NoDuplicates;
      assert AllList(lists, s) && Ended(Walk(limit, lists, None)) && !Covers(Walk(limit, lists, None), s);
    }
  }

  lemma ChainUnfold(limit: nat, l: seq<Pubkey>, c: Option<Cursor>, fuel: nat)
    requires fuel > 0
    ensures var p := Paginate(limit, l, c);
      Chain(limit, l, c, fuel) == [p] + if p.next.None? then [] else Chain(limit, l, p.next, fuel - 1)
  {
  }

  lemma WalkUnfold(limit: nat, lists: seq<seq<Pubkey>>, c: Option<Cursor>)
    requires lists != []
    ensures var p := Paginate(limit, lists[0], c);
      Walk(limit, lists, c) == [p] + if p.next.None? then [] else Walk(limit, lists[1..], p.next)
  {
  }

  lemma NoWalk(limit: nat, l: seq<Pubkey>, c: Option<Cursor>)
    ensures Walk(limit, [], c) == Chain(limit, l, c, 0) == []
  {
  }

  /** A walk over evaluations that all list alike is a walk over one list. */
  lemma {:induction false} WalkOfOneList(limit: nat, lists: seq<seq<Pubkey>>, l: seq<Pubkey>, c: Option<Cursor>)
    requires forall x <- lists :: x == l
    ensures Walk(limit, lists, c) == Chain(limit, l, c, |lists|)
  {
    hide *;
    if lists == [] {
      NoWalk(limit, l, c);
    } else {
      assert lists[0] in lists && forall x <- lists[1..] :: x in lists;
      WalkUnfold(limit, lists, c);
      ChainUnfold(limit, l, c, |lists|);
      WalkOfOneList(limit, lists[1..], l, Paginate(limit, l, c).next);
    }
  }

  lemma EndedTail(p: Page, tail: seq<Page>)
    requires p.next.Some? && Ended([p] + tail)
    ensures Ended(tail)
  {
    assert tail != [] && ([p] + tail)[|tail|] == tail[|tail| - 1];
  }

  lemma EndedNeedsFuel(limit: nat, l: seq<Pubkey>, c: Option<Cursor>, fuel: nat)
    requires Ended(Chain(limit, l, c, fuel))
    ensures fuel > 0
  {
  }

  lemma {:induction false} EndedChainStays(limit: nat, l: seq<Pubkey>, c: Option<Cursor>, fuel: nat, more: nat)
    requires Ended(Chain(limit, l, c, fuel))
    ensures Chain(limit, l, c, fuel + more) == Chain(limit, l, c, fuel)
    decreases fuel
  {
    hide *;
    EndedNeedsFuel(limit, l, c, fuel);
    var p := Paginate(limit, l, c);
    ChainUnfold(limit, l, c, fuel);
    ChainUnfold(limit, l, c, fuel + more);
    if p.next.Some? {
      var rest: nat := fuel - 1;
      EndedTail(p, Chain(limit, l, p.next, rest));
      EndedChainStays(limit, l, p.next, rest, more);
      assert fuel + more - 1 == rest + more;
    }
  }

  /** Such a walk, once ended, has shown the whole list in order; and it ends within floor(n / limit) + 1 pages. */
  lemma StableWalk(limit: nat, lists: seq<seq<Pubkey>>, l: seq<Pubkey>)
    requires limit >= 1 && K.NoDuplicates(l) && forall x <- lists :: x == l
    ensures Ended(Walk(limit, lists, None)) ==> Concat(Walk(limit, lists, None)) == l
    ensures |lists| > |l| / limit ==> Ended(Walk(limit, lists, None)) && |Walk(limit, lists, None)| == |l| / limit + 1
  {
    hide *;
    WalkOfOneList(limit, lists, l, None);
    var n, quotient := |lists|, |l| / limit;
    if n > quotient {
      VisitsEverything(limit, l, n);
    } else if Ended(Walk(limit, lists, None)) {
      EndedChainStays(limit, l, None, n, quotient + 1);
      VisitsEverything(limit, l, n + (quotient + 1));
    }
  }
}
