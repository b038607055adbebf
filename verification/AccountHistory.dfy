/**
 The closing lists of a recording: paging an account's deals through windows narrowed at the last
 deal of each page, and the weekly windows its cash flow is asked in. Times are in milliseconds.
 */
module AccountHistory {
  import opened Wrappers

  const MAX_HISTORY_PAGES := 50
  const MAX_CASH_FLOW_WINDOWS := 156
  const CASH_FLOW_WINDOW := 604_800_000

  datatype Deal = Deal(id: nat, time: int)

  datatype Page = Page(deals: seq<Deal>, hasMore: bool)

  /** A window asked for, both ends included. */
  datatype Window = Window(from: int, to: int)
  {
    predicate Has(t: int) {
      from <= t <= to
    }
  }

  /** What the venue answers the `n`-th request; `None` when it refuses or does not answer, which is marked. */
  type Venue = (nat, Window) -> Option<Page>

  /** The window left to ask after a page, narrowed at its last deal; `None` if it cannot be. */
  function NextDealsWindow(page: Page, window: Window): Option<Window> {
    if page.deals == [] then None
    else
      var first, last := page.deals[0].time, page.deals[|page.deals| - 1].time;
      if first == last then None
      else
        var narrowed := if first < last then Window(last, window.to) else Window(window.from, last);
        if narrowed == window then None else Some(narrowed)
  }

  ghost predicate Ascends(deals: seq<Deal>) {
    forall i, j :: 0 <= i < j < |deals| ==> deals[i].time <= deals[j].time
  }

  ghost predicate Descends(deals: seq<Deal>) {
    forall i, j :: 0 <= i < j < |deals| ==> deals[i].time >= deals[j].time
  }

  /**
   A page holds deals of its window; it is a run from the window's oldest deal upwards or from its
   newest downwards, and one that says there is no more holds them all. Deals of the last
   millisecond may be cut.
   */
  ghost predicate HonestPage(all: set<Deal>, window: Window, page: Page) {
    && (forall d :: d in page.deals ==> d in all && window.Has(d.time))
    && (!page.hasMore ==> forall d :: d in all && window.Has(d.time) ==> d in page.deals)
    && (page.deals != [] ==>
          var last := page.deals[|page.deals| - 1].time;
          || (Ascends(page.deals) && forall d :: d in all && window.Has(d.time) && d.time < last ==> d in page.deals)
          || (Descends(page.deals) && forall d :: d in all && window.Has(d.time) && d.time > last ==> d in page.deals))
  }

  ghost predicate Honest(all: set<Deal>, venue: Venue) {
    forall n, w :: venue(n, w).Some? ==> HonestPage(all, w, venue(n, w).value)
  }

  /** Every deal of the window is in the page or still in the next window, which is strictly narrower. */
  lemma NextWindowCovers(all: set<Deal>, window: Window, page: Page)
    requires HonestPage(all, window, page) && NextDealsWindow(page, window).Some?
    ensures var next := NextDealsWindow(page, window).value;
            && window.from <= next.from <= next.to <= window.to
            && next.to - next.from < window.to - window.from
            && forall d :: d in all && window.Has(d.time) ==> d in page.deals || next.Has(d.time)
  {
  }

  /** A window cannot be narrowed at a page: it is empty, of one time, or its last deal at the end kept. */
  ghost predicate CannotNarrow(page: Page, window: Window) {
    page.deals == [] ||
    (var first, last := page.deals[0].time, page.deals[|page.deals| - 1].time;
     first == last || (first < last && last == window.from) || (first > last && last == window.to))
  }

  /** Which window is left: none if it cannot be narrowed, else from or up to the page's last deal. */
  lemma NarrowedExactly(page: Page, window: Window)
    ensures NextDealsWindow(page, window).None? <==> CannotNarrow(page, window)
    ensures !CannotNarrow(page, window) ==>
      var first, last := page.deals[0].time, page.deals[|page.deals| - 1].time;
      NextDealsWindow(page, window) == Some(if first < last then Window(last, window.to) else Window(window.from, last))
  {
  }

  /** The `n`-th page says there is more, and leaves this window to ask for. */
  ghost predicate LeadsTo(venue: Venue, n: nat, window: Window, next: Option<Window>) {
    && venue(n, window).Some? && venue(n, window).value.hasMore
    && NextDealsWindow(venue(n, window).value, window) == next
  }

  /** The deals of the answers to the first windows asked for, in order. */
  ghost function DealsServed(venue: Venue, asked: seq<Window>): seq<Deal> {
    if asked == [] then []
    else
      var n := |asked| - 1;
      DealsServed(venue, asked[..n]) + if venue(n, asked[n]).Some? then venue(n, asked[n]).value.deals else []
  }

  /**
   Reads an account's deals page by page, `asked` being the windows. Unless the end is marked,
   nothing of the account's history is missing; and it is marked only if the last page failed, or
   says there is more and either cannot be narrowed at or is the last that may be asked for.
   */
  method ReadDeals(venue: Venue, registered: int, now: int, ghost all: set<Deal>)
    returns (deals: seq<Deal>, marked: bool, ghost asked: seq<Window>)
    ensures 0 < |asked| <= MAX_HISTORY_PAGES && asked[0] == Window(registered, now)
    ensures deals == DealsServed(venue, asked)
    ensures forall i :: 0 <= i < |asked| - 1 ==> LeadsTo(venue, i, asked[i], Some(asked[i + 1]))
    ensures var n := |asked| - 1; var last := venue(n, asked[n]);
      if marked then last.None? || (last.value.hasMore && (CannotNarrow(last.value, asked[n]) || |asked| == 50))
      else last.Some? && !last.value.hasMore
    ensures Honest(all, venue) ==> forall d :: d in deals ==> d in all
    ensures Honest(all, venue) && !marked ==>
              forall d :: d in all && registered <= d.time <= now ==> d in deals
  {
    var window := Window(registered, now);
    deals, asked := [], [];
    for n := 0 to MAX_HISTORY_PAGES
      invariant |asked| == n && deals == DealsServed(venue, asked)
      invariant n == 0 ==> window == Window(registered, now)
      invariant n > 0 ==> asked[0] == Window(registered, now)
      invariant n > 0 ==> LeadsTo(venue, n - 1, asked[n - 1], Some(window))
      invariant forall i :: 0 <= i < n - 1 ==> LeadsTo(venue, i, asked[i], Some(asked[i + 1]))
      invariant Honest(all, venue) ==> forall d :: d in deals ==> d in all
      invariant Honest(all, venue) ==>
                  forall d :: d in all && registered <= d.time <= now ==> d in deals || window.Has(d.time)
    {
      var page := venue(n, window);
      ghost var before := asked;
      asked := before + [window];
      assert asked[..n] == before;
      if page.None? {
        return deals, true, asked;
      }
      deals := deals + page.value.deals;
      if !page.value.hasMore {
        return deals, false, asked;
      }
      var next := NextDealsWindow(page.value, window);
      NarrowedExactly(page.value, window);
      if next.None? {
        return deals, true, asked;
      }
      if Honest(all, venue) {
        NextWindowCovers(all, window, page.value);
      }
      window := next.value;
    }
    return deals, true, asked;
  }

  // -- Cash flow ----------------------------------------------------------------------------

  /** How many weekly windows reach from a week before the registration to now. */
  function WindowCount(registered: int, now: int): (count: nat)
    ensures count >= 1
    ensures now - (registered - CASH_FLOW_WINDOW) <= count * CASH_FLOW_WINDOW
    ensures count > 1 ==> (count - 1) * CASH_FLOW_WINDOW < now - (registered - CASH_FLOW_WINDOW)
  {
    var needed := -((-(now - (registered - CASH_FLOW_WINDOW))) / CASH_FLOW_WINDOW);
    if needed < 1 then 1 else needed
  }

  /** The `i`-th weekly window from a week before the registration. */
  function Week(registered: int, now: int, i: nat): Window {
    var start := registered - CASH_FLOW_WINDOW;
    var end := start + (i + 1) * CASH_FLOW_WINDOW;
    Window(start + i * CASH_FLOW_WINDOW, if end < now then end else now)
  }

  /** The cash-flow windows to ask, oldest first, and whether any was left out. */
  function CashFlowWindows(registered: int, now: int): (r: (seq<Window>, bool))
    ensures 1 <= |r.0| <= MAX_CASH_FLOW_WINDOWS
    ensures forall i :: 0 <= i < |r.0| ==> r.0[i].to - r.0[i].from <= CASH_FLOW_WINDOW
    ensures r.1 <==> WindowCount(registered, now) > MAX_CASH_FLOW_WINDOWS
    ensures r.0[0] == Week(registered, now, 0)
  {
    var count := WindowCount(registered, now);
    var windows := seq(count, i requires 0 <= i < count => Week(registered, now, i));
    if count <= MAX_CASH_FLOW_WINDOWS then (windows, false)
    else (windows[..1] + windows[count - (MAX_CASH_FLOW_WINDOWS - 1)..], true)
  }

  /** With nothing left out, the windows share their edges and cover every instant. */
  lemma WindowsCover(registered: int, now: int, t: int)
    requires !CashFlowWindows(registered, now).1 && registered - CASH_FLOW_WINDOW <= t <= now
    ensures var windows := CashFlowWindows(registered, now).0;
            && (exists i :: 0 <= i < |windows| && windows[i].Has(t))
            && (forall i :: 0 <= i < |windows| - 1 ==> windows[i].to == windows[i + 1].from)
            && windows[|windows| - 1].to == now
  {
    var windows := CashFlowWindows(registered, now).0;
    var start := registered - CASH_FLOW_WINDOW;
    var i := (t - start) / CASH_FLOW_WINDOW;
    var k := if i < |windows| then i else |windows| - 1;
    assert windows[k] == Week(registered, now, k);
    assert windows[k].Has(t);
  }

  /** With windows left out, the latest 154 weeks are still covered up to now. */
  lemma LatestWindowsCover(registered: int, now: int, t: int)
    requires CashFlowWindows(registered, now).1
    requires now - (MAX_CASH_FLOW_WINDOWS - 2) * CASH_FLOW_WINDOW <= t <= now
    ensures exists i :: 1 <= i < |CashFlowWindows(registered, now).0| && CashFlowWindows(registered, now).0[i].Has(t)
  {
    var windows, count := CashFlowWindows(registered, now).0, WindowCount(registered, now);
    var start := registered - CASH_FLOW_WINDOW;
    var i := (t - start) / CASH_FLOW_WINDOW;
    var k := if i < count then i else count - 1;
    var first := count - (MAX_CASH_FLOW_WINDOWS - 1);
    assert first <= k;
    assert windows[1 + k - first] == Week(registered, now, k);
    assert windows[1 + k - first].Has(t);
  }

  /** An instant is listed when windows include their lower end only, or their upper end only. */
  ghost predicate ListedFromBelow(windows: seq<Window>, t: int) {
    exists i :: 0 <= i < |windows| && windows[i].from <= t < windows[i].to
  }

  ghost predicate ListedFromAbove(windows: seq<Window>, t: int) {
    exists i :: 0 <= i < |windows| && windows[i].from < t <= windows[i].to
  }

  /**
   The windows start a week early so that an operation at the registration itself is listed
   whichever end of a window is inclusive. If the upper end is, it always is. If only the lower
   end is, it is listed exactly when there are no more windows than the cap: over it the second
   window goes, and the first one ends at the registration.
   */
  lemma RegistrationListed(registered: int, now: int)
    requires registered < now
    ensures ListedFromAbove(CashFlowWindows(registered, now).0, registered)
    ensures ListedFromBelow(CashFlowWindows(registered, now).0, registered)
      <==> WindowCount(registered, now) <= MAX_CASH_FLOW_WINDOWS
  {
    var windows, count := CashFlowWindows(registered, now).0, WindowCount(registered, now);
    assert windows[0].from < registered <= windows[0].to;
    assert count > 1;
    if count <= MAX_CASH_FLOW_WINDOWS {
      assert windows[1] == Week(registered, now, 1);
      assert windows[1].from <= registered < windows[1].to;
    } else {
      forall i | 0 <= i < |windows|
        ensures !(windows[i].from <= registered < windows[i].to)
      {
        assert i > 0 ==> windows[i] == Week(registered, now, count - MAX_CASH_FLOW_WINDOWS + i);
      }
    }
  }

  /** An account registered 156 weeks ago: the instant of its registration is in no half-open window. */
  lemma RegistrationMissed()
    ensures !ListedFromBelow(CashFlowWindows(0, 156 * CASH_FLOW_WINDOW).0, 0)
  {
  }
}
