/**
 * The `while page < pages` loop both collectors share, as a specification.
 *
 * The HTTP layer is an oracle: `replies[i]` is what the job board answers to
 * the request for page `i` (a decoded body, or the status of a 4xx or 5xx
 * response, on which `raise_for_status` aborts the fetch). The oracle is
 * finite: no reply reports more pages than the oracle holds, which bounds the
 * loop. A `view` turns a body into what the loop uses from it: the page count
 * it re-reads and the estimates the page's items append.
 */
module Pagination {
  import opened Wrappers
  import opened Estimator

  datatype Reply<B> = Ok(body: B) | Failed(status: int)

  /** What the loop takes from one page: the reported page count and the page's entries in item order. */
  datatype PageView = PageView(count: int, harvest: seq<real>)

  /** The end of one paginated fetch: every entry collected, or the status that aborted it. */
  datatype Outcome = Done(salaries: seq<real>) | Aborted(status: int)

  /** At least page 0 is answered, and no answer reports more pages than there are answers. */
  predicate Bounded<B>(replies: seq<Reply<B>>, view: B -> PageView) {
    |replies| > 0 &&
    forall i :: 0 <= i < |replies| && replies[i].Ok? ==> view(replies[i].body).count <= |replies|
  }

  /** Entries collected before the rest of a fetch: kept in front of a success, dropped by an abort. */
  function Prepend(entries: seq<real>, rest: Outcome): (o: Outcome)
    ensures o.Done? <==> rest.Done?
    ensures rest.Aborted? ==> o == rest
    ensures rest.Done? ==> |o.salaries| == |entries| + |rest.salaries|
    ensures rest.Done? ==> o.salaries[..|entries|] == entries && o.salaries[|entries|..] == rest.salaries
  {
    match rest
    case Done(salaries) => Done(entries + salaries)
    case Aborted(_) => rest
  }

  lemma PrependPrepend(a: seq<real>, b: seq<real>, rest: Outcome)
    ensures Prepend(a, Prepend(b, rest)) == Prepend(a + b, rest)
  {
    if rest.Done? {
      assert a + (b + rest.salaries) == (a + b) + rest.salaries;
    }
  }

  /**
   * What the loop yields from the moment it requests page `page`: the page's
   * entries followed by the rest, where the loop goes on exactly when the next
   * index is below the count this page reported.
   */
  function Walk<B>(replies: seq<Reply<B>>, view: B -> PageView, page: nat): Outcome
    requires Bounded(replies, view) && page < |replies|
    decreases |replies| - page
  {
    match replies[page]
    case Failed(status) => Aborted(status)
    case Ok(body) =>
      var v := view(body);
      if page + 1 < v.count then Prepend(v.harvest, Walk(replies, view, page + 1))
      else Done(v.harvest)
  }

  /** How many requests the loop makes from page `page` on, counting the one that fails. */
  function Requests<B>(replies: seq<Reply<B>>, view: B -> PageView, page: nat): (n: nat)
    requires Bounded(replies, view) && page < |replies|
    ensures 1 <= n <= |replies| - page
    decreases |replies| - page
  {
    match replies[page]
    case Failed(_) => 1
    case Ok(body) =>
      if page + 1 < view(body).count then 1 + Requests(replies, view, page + 1) else 1
  }

  /**
   * One pass of the loop body over an answered page: its entries join those
   * collected before it, and the loop goes on iff the next index is below the
   * count the page reported.
   */
  lemma WalkStep<B>(replies: seq<Reply<B>>, view: B -> PageView, page: nat, before: seq<real>)
    requires Bounded(replies, view) && page < |replies| && replies[page].Ok?
    ensures var v := view(replies[page].body);
      Prepend(before, Walk(replies, view, page)) ==
        if page + 1 < v.count then Prepend(before + v.harvest, Walk(replies, view, page + 1))
        else Done(before + v.harvest)
    ensures var v := view(replies[page].body);
      Requests(replies, view, page) == if page + 1 < v.count then 1 + Requests(replies, view, page + 1) else 1
  {
    var v := view(replies[page].body);
    if page + 1 < v.count {
      PrependPrepend(before, v.harvest, Walk(replies, view, page + 1));
    }
  }

  /** The page indices `0, 1, ..., n - 1`, in request order. */
  function Indices(n: nat): (r: seq<nat>)
    ensures |r| == n
    ensures forall i :: 0 <= i < n ==> r[i] == i
  {
    if n == 0 then [] else Indices(n - 1) + [n - 1]
  }

  /**
   * The stop rule: the loop goes on past every page but the last one it
   * requests, because each reported a count above the next index; it stops
   * at the first page that failed or whose own count the next index reaches.
   */
  lemma {:induction false} StopsAtFirstExhaustedPage<B>(replies: seq<Reply<B>>, view: B -> PageView, page: nat)
    requires Bounded(replies, view) && page < |replies|
    ensures var n := Requests(replies, view, page);
      && (forall j :: page <= j < page + n - 1 ==>
            replies[j].Ok? && j + 1 < view(replies[j].body).count)
      && (replies[page + n - 1].Failed? ||
          page + n >= view(replies[page + n - 1].body).count)
    decreases |replies| - page
  {
    if replies[page].Ok? && page + 1 < view(replies[page].body).count {
      StopsAtFirstExhaustedPage(replies, view, page + 1);
    }
  }

  /** The entries of pages `lo` to `hi - 1`, in page order and item order within a page. */
  function Gathered<B>(replies: seq<Reply<B>>, view: B -> PageView, lo: nat, hi: nat): seq<real>
    requires lo <= hi <= |replies|
    requires forall j :: lo <= j < hi ==> replies[j].Ok?
    decreases hi - lo
  {
    if lo == hi then [] else view(replies[lo].body).harvest + Gathered(replies, view, lo + 1, hi)
  }

  /**
   * A fetch succeeds exactly when every page it requests is answered, and it
   * then yields the entries of exactly those pages, in order; an aborted fetch
   * carries the status of the last page it requested.
   */
  lemma {:induction false} WalkGathersRequestedPages<B>(replies: seq<Reply<B>>, view: B -> PageView, page: nat)
    requires Bounded(replies, view) && page < |replies|
    ensures var n := Requests(replies, view, page);
      var o := Walk(replies, view, page);
      && (o.Done? <==> forall j :: page <= j < page + n ==> replies[j].Ok?)
      && (o.Aborted? ==> replies[page + n - 1] == Failed(o.status))
      && (o.Done? ==> o.salaries == Gathered(replies, view, page, page + n))
    decreases |replies| - page
  {
    var n := Requests(replies, view, page);
    match replies[page]
    case Failed(_) =>
    case Ok(body) =>
      if page + 1 < view(body).count {
        WalkGathersRequestedPages(replies, view, page + 1);
      }
  }

  /**
   * When every answer reports the same page count `c`, exactly the pages
   * `page .. c - 1` are requested and the fetch succeeds.
   */
  lemma {:induction false} ConstantPageCount<B>(replies: seq<Reply<B>>, view: B -> PageView, c: int, page: nat)
    requires Bounded(replies, view)
    requires forall j :: 0 <= j < |replies| ==> replies[j].Ok? && view(replies[j].body).count == c
    requires page < c
    ensures page < |replies|
    ensures Requests(replies, view, page) == c - page
    ensures Walk(replies, view, page).Done?
    decreases c - page
  {
    assert view(replies[0].body).count == c;
    if page + 1 < c {
      ConstantPageCount(replies, view, c, page + 1);
    }
  }

  /** The items of pages `lo` to `hi - 1`, one page after the other. */
  function AllItems<B, V>(replies: seq<Reply<B>>, items: B -> seq<V>, lo: nat, hi: nat): seq<V>
    requires lo <= hi <= |replies|
    requires forall j :: lo <= j < hi ==> replies[j].Ok?
    decreases hi - lo
  {
    if lo == hi then [] else items(replies[lo].body) + AllItems(replies, items, lo + 1, hi)
  }

  /**
   * When each page's entries are the harvest of its items, the entries of a
   * run of pages are the harvest of all their items in page order, then item
   * order.
   */
  lemma {:induction false} GatheredIsHarvest<B, V>(replies: seq<Reply<B>>, view: B -> PageView, items: B -> seq<V>,
                                                   estimate: V -> Option<real>, lo: nat, hi: nat)
    requires lo <= hi <= |replies|
    requires forall j :: lo <= j < hi ==> replies[j].Ok?
    requires forall j :: lo <= j < hi ==> view(replies[j].body).harvest == Harvest(items(replies[j].body), estimate)
    ensures Gathered(replies, view, lo, hi) == Harvest(AllItems(replies, items, lo, hi), estimate)
    decreases hi - lo
  {
    if lo < hi {
      var first := items(replies[lo].body);
      var rest := AllItems(replies, items, lo + 1, hi);
      assert AllItems(replies, items, lo, hi) == first + rest;
      assert view(replies[lo].body).harvest == Harvest(first, estimate);
      GatheredIsHarvest(replies, view, items, estimate, lo + 1, hi);
      HarvestConcat(first, rest, estimate);
    }
  }
}
