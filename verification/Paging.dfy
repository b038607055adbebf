/**
 Backward paging of historical bars: `_page_trendbars` and `_historical_bars` of the data
 client. The venue is an oracle: a function of the request's number and window, so that every
 sequence of answers, consistent or not, is some value of it.
 */
module Paging {
  import opened Wrappers
  import Sets

  /** A bar as the venue serves it: its open time in seconds, and everything else it says. */
  datatype Bar = Bar(boundary: int, body: int)

  /** What the venue answers the `n`-th request for `[from, to]`; `None` when the request raises. */
  type Venue = (nat, int, int) -> Option<seq<Bar>>

  /** The history settings: a period, the bars of a page, and the longest gap crossed, in seconds. */
  datatype Settings = Settings(period: int, pageSize: int, maxGap: int)
  {
    predicate Valid() {
      period > 0 && pageSize >= 1 && maxGap >= 0
    }
  }

  predicate InRange(boundary: int, start: Option<int>, end: int) {
    boundary < end && (start.Some? ==> start.value <= boundary)
  }

  predicate Ascending(bars: seq<Bar>) {
    forall i, j :: 0 <= i < j < |bars| ==> bars[i].boundary < bars[j].boundary
  }

  /** The open times of a list of bars. */
  function Boundaries(bars: seq<Bar>): set<int> {
    if bars == [] then {} else {bars[0].boundary} + Boundaries(bars[1..])
  }

  function Closed(boundaries: set<int>, period: int, closedSecs: int): set<int> {
    set b | b in boundaries && b + period <= closedSecs
  }

  // -- What is assumed of an honest venue ---------------------------------------------------

  /** The venue's history: each bar under its own open time, at least one period apart. */
  ghost predicate History(history: map<int, Bar>, period: int) {
    && (forall b :: b in history ==> history[b].boundary == b)
    && (forall a, b :: a in history && b in history && a < b ==> a + period <= b)
  }

  /**
   A page is a run of the history ending at the newest bar opening at or before `to`, cut short
   anywhere; it is empty only if the window asked for holds no bar.
   */
  ghost predicate HonestPage(history: map<int, Bar>, from: int, to: int, page: seq<Bar>) {
    && (forall bar :: bar in page ==> bar.boundary in history && history[bar.boundary] == bar && bar.boundary <= to)
    && (forall bar, b :: bar in page && b in history && bar.boundary <= b <= to ==> history[b] in page)
    && (page == [] ==> forall b :: b in history ==> !(from <= b <= to))
  }

  ghost predicate Honest(venue: Venue, history: map<int, Bar>, period: int) {
    && History(history, period)
    && forall n, from, to ::
         venue(n, from, to).Some? ==> HonestPage(history, from, to, venue(n, from, to).value)
  }

  /** An honest venue that counts bars back from `to` without stopping at `from`. */
  ghost predicate CountsBack(venue: Venue, history: map<int, Bar>, period: int) {
    && Honest(venue, history, period)
    && forall n, from, to :: venue(n, from, to) == Some([]) ==> forall b :: b in history ==> b > to
  }

  // -- What an answer may lack --------------------------------------------------------------

  ghost predicate BarFree(history: map<int, Bar>, lo: int, hi: int) {
    forall b :: b in history ==> !(lo < b < hi)
  }

  /** `b` lies below a stretch without a bar longer than the maximum gap. */
  ghost predicate BelowLongGap(history: map<int, Bar>, b: int, end: int, s: Settings) {
    exists lo, hi ::
      b <= lo && hi <= end && hi - (lo + s.period) > s.maxGap && BarFree(history, lo, hi)
  }

  /** Whatever of the history `got` lacks in range is older than everything it holds. */
  ghost predicate NoHole(history: map<int, Bar>, got: set<int>, start: Option<int>, end: int) {
    forall b, g :: b in history && InRange(b, start, end) && b !in got && g in got ==> b < g
  }

  /** Every bar in range that `got` lacks lies below an over-long gap, unless the limit is met. */
  ghost predicate Accounted(history: map<int, Bar>, got: set<int>, start: Option<int>, end: int,
                            limit: Option<int>, closedSecs: int, s: Settings)
  {
    || (limit.Some? && |Closed(got, s.period, closedSecs)| >= limit.value)
    || (forall b :: b in history && InRange(b, start, end) && b !in got ==> BelowLongGap(history, b, end, s))
  }

  /** All bars in range above `bound` have been collected. */
  ghost predicate Covered(history: map<int, Bar>, got: set<int>, start: Option<int>, end: int, bound: int) {
    forall b :: b in history && InRange(b, start, end) && b > bound ==> b in got
  }

  ghost predicate FromHistory(history: map<int, Bar>, bars: map<int, Bar>) {
    forall b :: b in bars ==> b in history && history[b] == bars[b]
  }

  // -- The pieces of one round --------------------------------------------------------------

  /** The bar is the first of its open time among the first `n` of a page. */
  ghost predicate FirstOf(bar: Bar, page: seq<Bar>, n: nat)
    requires n <= |page|
  {
    exists i :: 0 <= i < n && page[i] == bar && forall j :: 0 <= j < i ==> page[j].boundary != bar.boundary
  }

  /** Keeps a page's in-range bars, the first one served under each open time. */
  method Collect(bars: map<int, Bar>, page: seq<Bar>, start: Option<int>, end: int) returns (kept: map<int, Bar>)
    requires forall b :: b in bars ==> bars[b].boundary == b
    ensures forall b :: b in bars ==> b in kept && kept[b] == bars[b]
    ensures forall b :: b in kept ==> kept[b].boundary == b
    ensures forall b :: b in kept && b !in bars ==> FirstOf(kept[b], page, |page|) && InRange(b, start, end)
    ensures forall bar :: bar in page && InRange(bar.boundary, start, end) ==> bar.boundary in kept
  {
    kept := bars;
    for i := 0 to |page|
      invariant forall b :: b in bars ==> b in kept && kept[b] == bars[b]
      invariant forall b :: b in kept ==> kept[b].boundary == b
      invariant forall b :: b in kept && b !in bars ==> FirstOf(kept[b], page, i) && InRange(b, start, end)
      invariant forall j :: 0 <= j < i && InRange(page[j].boundary, start, end) ==> page[j].boundary in kept
    {
      var raw := page[i];
      if InRange(raw.boundary, start, end) && raw.boundary !in kept {
        kept := kept[raw.boundary := raw];
      }
    }
  }

  /** The oldest open time of a page, if it holds a bar. */
  method Oldest(page: seq<Bar>) returns (oldest: Option<int>)
    ensures oldest.None? <==> page == []
    ensures oldest.Some? ==> (exists bar :: bar in page && bar.boundary == oldest.value)
    ensures oldest.Some? ==> forall bar :: bar in page ==> oldest.value <= bar.boundary
  {
    if page == [] {
      return None;
    }
    var least := page[0].boundary;
    for i := 1 to |page|
      invariant exists bar :: bar in page && bar.boundary == least
      invariant forall j :: 0 <= j < i ==> least <= page[j].boundary
    {
      if page[i].boundary < least {
        least := page[i].boundary;
      }
    }
    oldest := Some(least);
  }

  lemma LeastExists(s: set<int>) returns (least: int)
    requires s != {}
    ensures least in s && forall x :: x in s ==> least <= x
  {
    var first := Sets.Member(s);
    least := first;
    var rest := s - {first};
    if rest != {} {
      var other := LeastExists(rest);
      least := Min(first, other);
      assert s == {first} + rest;
    }
  }

  /** The least member of a set. */
  function Least(s: set<int>): (least: int)
    requires s != {}
    ensures least in s && forall x :: x in s ==> least <= x
  {
    assert exists m :: m in s && forall x :: x in s ==> m <= x by {
      var m := LeastExists(s);
    }
    var m :| m in s && forall x :: x in s ==> m <= x;
    m
  }

  /** The bars of `bars` opening at `left`, in ascending order. */
  function Sorted(bars: map<int, Bar>, left: set<int>): (r: seq<Bar>)
    requires left <= bars.Keys && forall b :: b in bars ==> bars[b].boundary == b
    ensures Boundaries(r) == left && Ascending(r)
    ensures forall i :: 0 <= i < |r| ==> r[i].boundary in left && bars[r[i].boundary] == r[i]
    decreases |left|
  {
    if left == {} then
      []
    else
      var least := Least(left);
      [bars[least]] + Sorted(bars, left - {least})
  }

  function Min(a: int, b: int): int { if a < b then a else b }
  function Max(a: int, b: int): int { if a < b then b else a }

  /**
   One honest page leaves nothing in range between the bar it reached and what came before. The
   bar at the page's own end is the delicate one: a page that serves it alone reaches only one
   period further back, where another bar may open.
   */
  lemma PageCovers(history: map<int, Bar>, s: Settings, before: set<int>, after: set<int>, page: seq<Bar>,
                   start: Option<int>, end: int, from: int, to: int, reached: int)
    requires s.Valid() && History(history, s.period) && HonestPage(history, from, to, page)
    requires before <= after && Covered(history, before, start, end, to)
    requires forall bar :: bar in page && InRange(bar.boundary, start, end) ==> bar.boundary in after
    requires page == [] ==> reached == from
    requires page != [] ==> exists bar :: bar in page && reached == Min(bar.boundary, to - s.period)
    ensures Covered(history, after, start, end, reached)
  {
  }

  /** A stop at the gap cut-off leaves out only bars below a bar-free stretch that long. */
  lemma CutOffAccounts(history: map<int, Bar>, s: Settings, got: set<int>, start: Option<int>, end: int,
                       reached: int, historyStart: int)
    requires Covered(history, got, start, end, reached)
    requires forall g :: g in got ==> historyStart <= g
    requires historyStart <= end && historyStart - (reached + s.period) > s.maxGap
    ensures forall b :: b in history && InRange(b, start, end) && b !in got ==> BelowLongGap(history, b, end, s)
  {
    forall b | b in history && InRange(b, start, end) && b !in got
      ensures BelowLongGap(history, b, end, s)
    {
      assert b <= reached;
      assert BarFree(history, reached, historyStart) by {
        forall x | x in history && reached < x < historyStart
          ensures false
        {
          assert InRange(x, start, end);
        }
      }
    }
  }

  /** A page's in-range bars join the others, the ones held first. */
  ghost predicate TakesIn(bars: map<int, Bar>, page: seq<Bar>, kept: map<int, Bar>, start: Option<int>, end: int) {
    && (forall b :: b in bars ==> b in kept && kept[b] == bars[b])
    && (forall b :: b in kept && b !in bars ==> kept[b] in page)
    && (forall bar :: bar in page && InRange(bar.boundary, start, end) ==> bar.boundary in kept)
  }

  /** What every round of the loop keeps of the bars collected so far. */
  ghost predicate Collected(bars: map<int, Bar>, start: Option<int>, end: int, historyStart: int) {
    forall b :: b in bars ==> bars[b].boundary == b && InRange(b, start, end) && historyStart <= b
  }

  /**
   One round: ask for `[from, to]`, keep what is in range, and find how far back the page
   reached: never above the window's own last boundary, so that every page makes progress.
   */
  method Round(page: seq<Bar>, s: Settings, start: Option<int>, end: int, bars: map<int, Bar>,
               from: int, to: int, historyStart: int, ghost history: map<int, Bar>)
    returns (kept: map<int, Bar>, oldest: Option<int>, reached: int, oldestSeen: int)
    requires s.Valid() && to <= historyStart <= end && Collected(bars, start, end, historyStart)
    ensures Collected(kept, start, end, oldestSeen)
    ensures bars.Keys <= kept.Keys && TakesIn(bars, page, kept, start, end)
    ensures oldest.None? <==> page == []
    ensures oldest.None? ==> reached == from && oldestSeen == historyStart && kept == bars
    ensures oldest.Some? ==>
              reached == Min(oldest.value, to - s.period) && oldestSeen == Min(historyStart, oldest.value)
    ensures oldest.Some? && InRange(oldest.value, start, end) ==> oldest.value in kept
    ensures History(history, s.period) && HonestPage(history, from, to, page) && FromHistory(history, bars)
            && Covered(history, bars.Keys, start, end, to) ==>
              && FromHistory(history, kept)
              && Covered(history, kept.Keys, start, end, reached)
              && Covered(history, kept.Keys, start, end, to)
              && NoHole(history, kept.Keys, start, end)
              && (oldest.Some? ==>
                    forall b :: b in history && oldest.value <= b <= to && InRange(b, start, end) ==> b in kept)
  {
    kept := Collect(bars, page, start, end);
    oldest := Oldest(page);
    if oldest.None? {
      reached, oldestSeen := from, historyStart;
      assert forall b :: b in kept ==> b in bars;
      assert kept == bars;
    } else {
      reached, oldestSeen := Min(oldest.value, to - s.period), Min(historyStart, oldest.value);
    }
    if History(history, s.period) && HonestPage(history, from, to, page) && FromHistory(history, bars)
        && Covered(history, bars.Keys, start, end, to) {
      PageCovers(history, s, bars.Keys, kept.Keys, page, start, end, from, to, reached);
    }
  }

  /** A page that reached a request's start leaves nothing of its range out. */
  lemma StartReached(history: map<int, Bar>, s: Settings, got: set<int>, page: seq<Bar>, start: int, end: int,
                     from: int, to: int, oldest: Option<int>, reached: int)
    requires HonestPage(history, from, to, page) && (oldest.None? <==> page == [])
    requires Covered(history, got, Some(start), end, reached) && Covered(history, got, Some(start), end, to)
    requires reached <= start && (oldest.None? ==> reached == from && start <= from)
    requires oldest.Some? ==> oldest.value <= start
    requires oldest.Some? ==>
               forall b :: b in history && oldest.value <= b <= to && InRange(b, Some(start), end) ==> b in got
    ensures forall b :: b in history && InRange(b, Some(start), end) ==> b in got
  {
  }

  /** How many closed bars are still wanted by a request that only a limit bounds. */
  ghost function StillWanted(bars: map<int, Bar>, start: Option<int>, limit: Option<int>, closedSecs: int, s: Settings)
    : nat
  {
    if limit.Some? && start.None? then Max(0, limit.value - |Closed(bars.Keys, s.period, closedSecs)|) else 0
  }

  /** How far the oldest bar served is from being a closed one; no matter once a start bounds the request. */
  ghost function AboveClosed(historyStart: int, start: Option<int>, closedSecs: int, s: Settings): nat {
    if start.None? then Max(0, historyStart + s.period - closedSecs) else 0
  }

  /** How far the window is from the gap cut-off below the oldest bar that can still be served. */
  ghost function BeforeCutOff(to: int, historyStart: int, start: Option<int>, end: int, s: Settings): int {
    to + s.period + s.maxGap - (if start.Some? then Min(start.value, end) else historyStart)
  }

  /** The measure of the loop is less: fewer closed bars wanted, an older bar served, or a window further back. */
  ghost predicate LessLeft(before: map<int, Bar>, after: map<int, Bar>, start: Option<int>, end: int,
                           limit: Option<int>, closedSecs: int, s: Settings, to: int, reached: int,
                           startBefore: int, startAfter: int)
  {
    var wantedBefore := StillWanted(before, start, limit, closedSecs, s);
    var wanted := StillWanted(after, start, limit, closedSecs, s);
    var aboveBefore := AboveClosed(startBefore, start, closedSecs, s);
    var above := AboveClosed(startAfter, start, closedSecs, s);
    || wanted < wantedBefore
    || (wanted == wantedBefore && above < aboveBefore)
    || (&& wanted == wantedBefore && above == aboveBefore
        && BeforeCutOff(reached, startAfter, start, end, s) < BeforeCutOff(to, startBefore, start, end, s))
  }

  /** A round that goes on has made progress, whatever the venue answered. */
  lemma Progress(before: map<int, Bar>, after: map<int, Bar>, start: Option<int>, end: int, limit: Option<int>,
                 closedSecs: int, s: Settings, to: int, reached: int, startBefore: int, startAfter: int)
    requires s.Valid() && before.Keys <= after.Keys && Collected(before, start, end, startBefore)
    requires startAfter <= startBefore <= end && reached < to
    requires start.Some? || limit.Some?
    requires limit.Some? ==> |Closed(after.Keys, s.period, closedSecs)| < limit.value
    requires startAfter < startBefore && start.None? ==> startAfter in after
    ensures LessLeft(before, after, start, end, limit, closedSecs, s, to, reached, startBefore, startAfter)
  {
    var was, now := Closed(before.Keys, s.period, closedSecs), Closed(after.Keys, s.period, closedSecs);
    Sets.SubsetSize(was, now);
    if start.None? && startAfter < startBefore && startAfter + s.period <= closedSecs {
      assert startAfter in now && startAfter !in was;
    }
  }

  /**
   Whether a round was the last one. `honest` and `countsBack` stand for what the page's venue is
   assumed to be; the contract then says what the bars collected so far may lack.
   */
  method Stop(page: seq<Bar>, s: Settings, start: Option<int>, end: int, limit: Option<int>, closedSecs: int,
              bars: map<int, Bar>, from: int, to: int, oldest: Option<int>, reached: int, historyStart: int,
              ghost history: map<int, Bar>, ghost honest: bool, ghost countsBack: bool)
    returns (stop: bool)
    requires s.Valid() && Collected(bars, start, end, historyStart) && historyStart <= end
    requires oldest.None? <==> page == []
    requires oldest.None? ==> reached == from && (start.Some? ==> start.value <= from)
    requires countsBack ==> honest && (page == [] ==> forall b :: b in history ==> b > to)
    requires honest ==>
      && HonestPage(history, from, to, page)
      && Covered(history, bars.Keys, start, end, reached) && Covered(history, bars.Keys, start, end, to)
      && (oldest.Some? ==> forall b :: b in history && oldest.value <= b <= to && InRange(b, start, end) ==> b in bars)
    ensures stop && honest && start.Some? ==> Accounted(history, bars.Keys, start, end, limit, closedSecs, s)
    ensures stop && countsBack && limit.Some? ==> Accounted(history, bars.Keys, start, end, limit, closedSecs, s)
    ensures !stop ==> start.Some? || limit.Some?
    ensures !stop ==> limit.Some? ==> |Closed(bars.Keys, s.period, closedSecs)| < limit.value
    ensures !stop && start.Some? ==> reached > start.value || (oldest.Some? && oldest.value > start.value)
    ensures !stop && start.None? ==> page != []
    ensures !stop ==> historyStart - (reached + s.period) <= s.maxGap
  {
    if start.None? && limit.None? {
      return true;
    }
    if limit.Some? && |Closed(bars.Keys, s.period, closedSecs)| >= limit.value {
      return true;
    }
    if start.Some? {
      if reached <= start.value && (oldest.None? || oldest.value <= start.value) {
        if honest {
          StartReached(history, s, bars.Keys, page, start.value, end, from, to, oldest, reached);
        }
        return true;
      }
    } else if page == [] {
      return true;
    }
    if historyStart - (reached + s.period) > s.maxGap {
      if honest {
        CutOffAccounts(history, s, bars.Keys, start, end, reached, historyStart);
      }
      return true;
    }
    return false;
  }

  /** What holds at the head of the paging loop, and at its end. */
  ghost predicate Paged(bars: map<int, Bar>, to: int, historyStart: int, s: Settings, start: Option<int>, end: int,
                        limit: Option<int>, closedSecs: int, history: map<int, Bar>, honest: bool, countsBack: bool,
                        stop: bool)
  {
    && historyStart <= end && Collected(bars, start, end, historyStart)
    && (!stop ==> to <= historyStart && historyStart - (to + s.period) <= s.maxGap)
    && (start.Some? && !stop ==> Min(start.value, end) <= historyStart)
    && (honest ==> FromHistory(history, bars))
    && (honest ==> if stop then NoHole(history, bars.Keys, start, end) else Covered(history, bars.Keys, start, end, to))
    && (stop && ((honest && start.Some?) || (countsBack && limit.Some?)) ==>
          Accounted(history, bars.Keys, start, end, limit, closedSecs, s))
  }

  /** What the venue is assumed to be, said of one page. */
  ghost predicate Fair(history: map<int, Bar>, from: int, to: int, page: seq<Bar>, s: Settings, honest: bool,
                       countsBack: bool)
  {
    && (honest ==> History(history, s.period) && HonestPage(history, from, to, page))
    && (countsBack ==> honest && (page == [] ==> forall b :: b in history ==> b > to))
  }

  lemma FairPage(venue: Venue, n: nat, from: int, to: int, s: Settings, history: map<int, Bar>)
    requires venue(n, from, to).Some?
    ensures Fair(history, from, to, venue(n, from, to).value, s, Honest(venue, history, s.period),
                 CountsBack(venue, history, s.period))
  {
  }

  /** One turn of the paging loop, with a page: what it keeps, how far it got, and whether it was the last. */
  method Turn(page: seq<Bar>, s: Settings, start: Option<int>, end: int, limit: Option<int>, closedSecs: int,
              bars: map<int, Bar>, from: int, to: int, historyStart: int,
              ghost history: map<int, Bar>, ghost honest: bool, ghost countsBack: bool)
    returns (kept: map<int, Bar>, oldestSeen: int, reached: int, stop: bool)
    requires s.Valid() && Fair(history, from, to, page, s, honest, countsBack)
    requires Paged(bars, to, historyStart, s, start, end, limit, closedSecs, history, honest, countsBack, false)
    requires if start.Some? then start.value <= from && (from == start.value || from < to) else from < to
    ensures Paged(kept, reached, oldestSeen, s, start, end, limit, closedSecs, history, honest, countsBack, stop)
    ensures TakesIn(bars, page, kept, start, end) && (start.None? && limit.None? ==> stop)
    ensures !stop ==> BeforeCutOff(to, historyStart, start, end, s) >= 0
    ensures !stop ==> reached < to
    ensures !stop ==>
              LessLeft(bars, kept, start, end, limit, closedSecs, s, to, reached, historyStart, oldestSeen)
  {
    var oldest;
    kept, oldest, reached, oldestSeen := Round(page, s, start, end, bars, from, to, historyStart, history);
    stop := Stop(page, s, start, end, limit, closedSecs, kept, from, to, oldest, reached, oldestSeen,
                 history, honest, countsBack);
    if !stop {
      Progress(bars, kept, start, end, limit, closedSecs, s, to, reached, historyStart, oldestSeen);
    }
  }

  /** The windows asked for so far were all answered. */
  ghost predicate AllAnswered(venue: Venue, asked: seq<(int, int)>) {
    forall i :: 0 <= i < |asked| ==> venue(i, asked[i].0, asked[i].1).Some?
  }

  /** All but the last of the windows asked for were answered, and the last was not. */
  ghost predicate LastFailed(venue: Venue, asked: seq<(int, int)>) {
    && asked != [] && AllAnswered(venue, asked[..|asked| - 1])
    && venue(|asked| - 1, asked[|asked| - 1].0, asked[|asked| - 1].1).None?
  }

  /** The venue served the bar in answer to one of the windows. */
  ghost predicate Served(venue: Venue, asked: seq<(int, int)>, bar: Bar) {
    exists i :: 0 <= i < |asked| && venue(i, asked[i].0, asked[i].1).Some?
      && bar in venue(i, asked[i].0, asked[i].1).value
  }

  /** The windows go back from the end, each a page long unless the start cuts it. */
  ghost predicate Backwards(asked: seq<(int, int)>, s: Settings, start: Option<int>, end: int) {
    && (asked != [] ==> asked[0].1 == end)
    && (forall i :: 0 <= i < |asked| ==>
          asked[i].0 == if start.Some? then Max(start.value, asked[i].1 - s.pageSize * s.period)
                        else asked[i].1 - s.pageSize * s.period)
    && (forall i :: 0 <= i < |asked| - 1 ==> asked[i + 1].1 < asked[i].1)
  }

  /** The bars collected are those served in the range, from windows all answered. */
  ghost predicate Traced(venue: Venue, s: Settings, start: Option<int>, end: int, asked: seq<(int, int)>,
                         bars: map<int, Bar>)
  {
    && AllAnswered(venue, asked) && Backwards(asked, s, start, end)
    && (forall b :: b in bars ==> Served(venue, asked, bars[b]))
    && (forall bar :: Served(venue, asked, bar) && InRange(bar.boundary, start, end) ==> bar.boundary in bars)
  }

  /** The next window to ask for, whatever comes of it. */
  ghost predicate NextWindow(s: Settings, start: Option<int>, end: int, asked: seq<(int, int)>, window: (int, int)) {
    && (if asked == [] then window.1 == end else window.1 < asked[|asked| - 1].1)
    && s.Valid() && window.0 == WindowFrom(s, start, window.1)
  }

  /** Where the window that ends at `to` begins. */
  function WindowFrom(s: Settings, start: Option<int>, to: int): (from: int)
    requires s.Valid()
    ensures if start.Some? then start.value <= from && (from == start.value || from < to) else from < to
  {
    var from := to - s.pageSize * s.period;
    if start.Some? then Max(start.value, from) else from
  }

  /** A window that ends at `to` goes further back than those asked for. */
  ghost predicate GoesBack(asked: seq<(int, int)>, to: int, end: int) {
    if asked == [] then to == end else to < asked[|asked| - 1].1
  }

  lemma GoesFurtherBack(asked: seq<(int, int)>, window: (int, int), to: int, end: int)
    requires to < window.1
    ensures GoesBack(asked + [window], to, end)
  {
  }

  lemma WindowIsNext(s: Settings, start: Option<int>, end: int, asked: seq<(int, int)>, to: int)
    requires s.Valid() && GoesBack(asked, to, end)
    ensures NextWindow(s, start, end, asked, (WindowFrom(s, start, to), to))
  {
  }

  lemma TracedStep(venue: Venue, s: Settings, start: Option<int>, end: int, asked: seq<(int, int)>, window: (int, int),
                   bars: map<int, Bar>, kept: map<int, Bar>)
    requires Traced(venue, s, start, end, asked, bars) && NextWindow(s, start, end, asked, window)
    requires venue(|asked|, window.0, window.1).Some?
    requires TakesIn(bars, venue(|asked|, window.0, window.1).value, kept, start, end)
    ensures Traced(venue, s, start, end, asked + [window], kept)
  {
    var now := asked + [window];
    assert now[|asked|] == window && forall i :: 0 <= i < |asked| ==> now[i] == asked[i];
    OneMoreServed(venue, asked, window);
    hide Served;
  }

  lemma OneMoreServed(venue: Venue, asked: seq<(int, int)>, window: (int, int))
    requires venue(|asked|, window.0, window.1).Some?
    ensures forall bar ::
      Served(venue, asked + [window], bar) <==>
        (Served(venue, asked, bar) || bar in venue(|asked|, window.0, window.1).value)
  {
    var now := asked + [window];
    assert now[|asked|] == window && forall i :: 0 <= i < |asked| ==> now[i] == asked[i];
    forall bar
      ensures Served(venue, asked, bar) ==> Served(venue, now, bar)
    {
      if Served(venue, asked, bar) {
        var i :| 0 <= i < |asked| && venue(i, asked[i].0, asked[i].1).Some?
          && bar in venue(i, asked[i].0, asked[i].1).value;
        assert now[i] == asked[i];
      }
    }
  }

  lemma TracedFails(venue: Venue, s: Settings, start: Option<int>, end: int, asked: seq<(int, int)>,
                    window: (int, int), bars: map<int, Bar>)
    requires Traced(venue, s, start, end, asked, bars) && NextWindow(s, start, end, asked, window)
    requires venue(|asked|, window.0, window.1).None?
    ensures LastFailed(venue, asked + [window]) && Backwards(asked + [window], s, start, end)
  {
    var now := asked + [window];
    assert now[..|now| - 1] == asked && now[|asked|] == window;
    assert forall i :: 0 <= i < |asked| ==> now[i] == asked[i];
  }

  lemma TracedResult(venue: Venue, s: Settings, start: Option<int>, end: int, asked: seq<(int, int)>,
                     bars: map<int, Bar>, r: seq<Bar>)
    requires Traced(venue, s, start, end, asked, bars) && Boundaries(r) == bars.Keys
    requires forall i :: 0 <= i < |r| ==> r[i].boundary in bars && bars[r[i].boundary] == r[i]
    ensures AllAnswered(venue, asked) && Backwards(asked, s, start, end) && FromVenue(venue, asked, r, start, end)
  {
  }

  /** The bars are those the venue served in the range, one of each open time. */
  ghost predicate FromVenue(venue: Venue, asked: seq<(int, int)>, bars: seq<Bar>, start: Option<int>, end: int) {
    && (forall bar :: bar in bars ==> Served(venue, asked, bar))
    && (forall bar :: Served(venue, asked, bar) && InRange(bar.boundary, start, end) ==>
          bar.boundary in Boundaries(bars))
  }

  /**
   The bars opening in `[start, end)`, paging backwards from the end. It fails exactly if a request
   does; otherwise, whatever the venue, every bar it served in the range is among them. `asked` are
   the windows asked for, in order: one alone with neither a start nor a limit.

   The loop ends for every venue whatsoever: either the closed bars still wanted shrink, or the
   oldest bar served moves down to the closed ones, or the window moves towards the gap cut-off.
   */
  method PageTrendbars(venue: Venue, s: Settings, start: Option<int>, end: int, limit: Option<int>,
                       closedSecs: int, ghost history: map<int, Bar>)
    returns (r: Result<seq<Bar>>, ghost asked: seq<(int, int)>)
    requires s.Valid()
    ensures if r.Failure? then LastFailed(venue, asked) else AllAnswered(venue, asked)
    ensures asked != [] && Backwards(asked, s, start, end) && (start.None? && limit.None? ==> |asked| == 1)
    ensures r.Success? ==> FromVenue(venue, asked, r.value, start, end)
    ensures r.Success? ==> Ascending(r.value)
    ensures r.Success? ==> forall b :: b in Boundaries(r.value) ==> InRange(b, start, end)
    ensures r.Success? && Honest(venue, history, s.period) ==>
              && (forall i :: 0 <= i < |r.value| ==>
                    r.value[i].boundary in history && history[r.value[i].boundary] == r.value[i])
              && NoHole(history, Boundaries(r.value), start, end)
    ensures r.Success? && start.Some? && Honest(venue, history, s.period) ==>
              Accounted(history, Boundaries(r.value), start, end, limit, closedSecs, s)
    ensures r.Success? && limit.Some? && CountsBack(venue, history, s.period) ==>
              Accounted(history, Boundaries(r.value), start, end, limit, closedSecs, s)
  {
    hide *;
    var bars: map<int, Bar> := map[];
    var to, historyStart, n, stop := end, end, 0, false;
    ghost var honest, countsBack := Honest(venue, history, s.period), CountsBack(venue, history, s.period);
    asked := [];
    AtFirst(venue, s, start, end, limit, closedSecs, history, honest, countsBack);
    while !stop
      invariant |asked| == n && Traced(venue, s, start, end, asked, bars)
      invariant !stop ==> GoesBack(asked, to, end)
      invariant start.None? && limit.None? ==> |asked| == if stop then 1 else 0
      invariant asked == [] ==> !stop
      invariant Paged(bars, to, historyStart, s, start, end, limit, closedSecs, history, honest, countsBack, stop)
      decreases !stop,
                StillWanted(bars, start, limit, closedSecs, s),
                AboveClosed(historyStart, start, closedSecs, s),
                BeforeCutOff(to, historyStart, start, end, s)
    {
      var from := WindowFrom(s, start, to);
      assert NextWindow(s, start, end, asked, (from, to)) by { WindowIsNext(s, start, end, asked, to); }
      var answer := venue(n, from, to);
      n := n + 1;
      if answer.None? {
        TracedFails(venue, s, start, end, asked, (from, to), bars);
        return Failure, asked + [(from, to)];
      }
      FairPage(venue, n - 1, from, to, s, history);
      var kept, oldestSeen, reached;
      kept, oldestSeen, reached, stop := Turn(answer.value, s, start, end, limit, closedSecs, bars, from, to,
                                              historyStart, history, honest, countsBack);
      TracedStep(venue, s, start, end, asked, (from, to), bars, kept);
      ghost var windows := asked;
      asked := windows + [(from, to)];
      bars, historyStart := kept, oldestSeen;
      if !stop {
        GoesFurtherBack(windows, (from, to), reached, end);
      }
      to := reached;
    }
    PagedKeys(bars, to, historyStart, s, start, end, limit, closedSecs, history, honest, countsBack, stop);
    r := Success(Sorted(bars, bars.Keys));
    TracedResult(venue, s, start, end, asked, bars, r.value);
    PagedResult(bars, to, historyStart, s, start, end, limit, closedSecs, history, honest, countsBack, r.value);
  }

  lemma AtFirst(venue: Venue, s: Settings, start: Option<int>, end: int, limit: Option<int>, closedSecs: int,
                history: map<int, Bar>, honest: bool, countsBack: bool)
    requires s.Valid()
    ensures GoesBack([], end, end) && Traced(venue, s, start, end, [], map[])
    ensures Paged(map[], end, end, s, start, end, limit, closedSecs, history, honest, countsBack, false)
  {
  }

  lemma PagedKeys(bars: map<int, Bar>, to: int, historyStart: int, s: Settings, start: Option<int>, end: int,
                  limit: Option<int>, closedSecs: int, history: map<int, Bar>, honest: bool, countsBack: bool,
                  stop: bool)
    requires Paged(bars, to, historyStart, s, start, end, limit, closedSecs, history, honest, countsBack, stop)
    ensures forall b :: b in bars ==> bars[b].boundary == b
  {
  }

  lemma PagedResult(bars: map<int, Bar>, to: int, historyStart: int, s: Settings, start: Option<int>, end: int,
                    limit: Option<int>, closedSecs: int, history: map<int, Bar>, honest: bool, countsBack: bool,
                    r: seq<Bar>)
    requires Paged(bars, to, historyStart, s, start, end, limit, closedSecs, history, honest, countsBack, true)
    requires Boundaries(r) == bars.Keys
    requires forall i :: 0 <= i < |r| ==> r[i].boundary in bars && bars[r[i].boundary] == r[i]
    ensures forall b :: b in Boundaries(r) ==> InRange(b, start, end)
    ensures honest ==> NoHole(history, Boundaries(r), start, end)
    ensures honest ==> forall i :: 0 <= i < |r| ==> r[i].boundary in history && history[r[i].boundary] == r[i]
    ensures (honest && start.Some?) || (countsBack && limit.Some?) ==>
              Accounted(history, Boundaries(r), start, end, limit, closedSecs, s)
  {
  }

  // -- A request for bars -------------------------------------------------------------------

  /** The bars closed by `now`, in their order. */
  function ClosedBars(bars: seq<Bar>, period: int, now: int): seq<Bar> {
    if bars == [] then []
    else (if bars[0].boundary + period <= now then [bars[0]] else []) + ClosedBars(bars[1..], period, now)
  }

  /** The last `count` bars, or all of them if fewer. */
  function Newest(bars: seq<Bar>, count: nat): seq<Bar> {
    if |bars| <= count then bars else bars[|bars| - count..]
  }

  lemma {:induction false} BoundariesMember(bars: seq<Bar>, b: int)
    ensures b in Boundaries(bars) <==> exists i :: 0 <= i < |bars| && bars[i].boundary == b
  {
    if bars != [] {
      BoundariesMember(bars[1..], b);
      if b in Boundaries(bars[1..]) {
        var i :| 0 <= i < |bars[1..]| && bars[1..][i].boundary == b;
        assert bars[i + 1].boundary == b;
      }
    }
  }

  lemma {:induction false} BoundariesSize(bars: seq<Bar>)
    requires Ascending(bars)
    ensures |Boundaries(bars)| == |bars|
  {
    if bars != [] {
      BoundariesSize(bars[1..]);
      BoundariesMember(bars[1..], bars[0].boundary);
    }
  }

  lemma {:induction false} ClosedBarsBoundaries(bars: seq<Bar>, period: int, now: int)
    ensures Boundaries(ClosedBars(bars, period, now)) == Closed(Boundaries(bars), period, now)
  {
    if bars != [] {
      var rest := ClosedBars(bars[1..], period, now);
      ClosedBarsBoundaries(bars[1..], period, now);
      assert ([bars[0]] + rest)[1..] == rest;
      assert [] + rest == rest;
    }
  }

  lemma {:induction false} ClosedBarsAmong(bars: seq<Bar>, period: int, now: int)
    ensures forall bar :: bar in ClosedBars(bars, period, now) ==> bar in bars && bar.boundary + period <= now
  {
    if bars != [] {
      ClosedBarsAmong(bars[1..], period, now);
    }
  }

  lemma {:induction false} ClosedBarsAscend(bars: seq<Bar>, period: int, now: int)
    requires Ascending(bars)
    ensures Ascending(ClosedBars(bars, period, now))
  {
    if bars != [] {
      var rest := ClosedBars(bars[1..], period, now);
      ClosedBarsAscend(bars[1..], period, now);
      ClosedBarsAmong(bars[1..], period, now);
      assert forall bar :: bar in bars[1..] ==> bars[0].boundary < bar.boundary;
      assert forall i :: 0 <= i < |rest| ==> rest[i] in rest;
    }
  }

  /** No bar of the range lies below an over-long gap. */
  ghost predicate NoLongGap(history: map<int, Bar>, start: Option<int>, end: int, s: Settings) {
    forall b :: b in history && InRange(b, start, end) ==> !BelowLongGap(history, b, end, s)
  }

  /** A bar a request wants: in its range and closed. */
  ghost predicate Wanted(history: map<int, Bar>, b: int, start: Option<int>, end: int, period: int, now: int) {
    b in history && InRange(b, start, end) && b + period <= now
  }

  ghost predicate OlderThanAll(b: int, bars: seq<Bar>) {
    forall i :: 0 <= i < |bars| ==> b < bars[i].boundary
  }

  /** `bars` are wanted bars of the history, ascending, and any wanted one left out is older than all. */
  ghost predicate NewestWanted(bars: seq<Bar>, history: map<int, Bar>, start: Option<int>, end: int, period: int,
                               now: int)
  {
    && Ascending(bars)
    && (forall i :: 0 <= i < |bars| ==>
          Wanted(history, bars[i].boundary, start, end, period, now) && history[bars[i].boundary] == bars[i])
    && (forall b :: Wanted(history, b, start, end, period, now) && b !in Boundaries(bars) ==> OlderThanAll(b, bars))
  }

  /** Cutting a list of wanted bars to the newest ones leaves out only older ones. */
  lemma NewestIsNewest(bars: seq<Bar>, count: nat, history: map<int, Bar>, start: Option<int>, end: int, period: int,
                       now: int)
    requires NewestWanted(bars, history, start, end, period, now)
    ensures NewestWanted(Newest(bars, count), history, start, end, period, now)
  {
    var kept := Newest(bars, count);
    NewestAmong(bars, count);
    hide Boundaries, Wanted, OlderThanAll, Newest;
    forall b | Wanted(history, b, start, end, period, now) && b !in Boundaries(kept)
      ensures OlderThanAll(b, kept)
    {
      if b in Boundaries(bars) {
        CutLeaves(bars, count, b);
      } else {
        OlderThanNewest(b, bars, count);
      }
    }
  }

  lemma NewestAmong(bars: seq<Bar>, count: nat)
    requires Ascending(bars)
    ensures Ascending(Newest(bars, count)) && forall bar :: bar in Newest(bars, count) ==> bar in bars
  {
  }

  lemma OlderThanNewest(b: int, bars: seq<Bar>, count: nat)
    requires OlderThanAll(b, bars)
    ensures OlderThanAll(b, Newest(bars, count))
  {
  }

  /** What was served, cut to its closed bars, lacks only older ones; the count is the set's. */
  lemma ServedWanted(served: seq<Bar>, history: map<int, Bar>, start: Option<int>, end: int, period: int, now: int)
    requires Ascending(served) && NoHole(history, Boundaries(served), start, end)
    requires forall b :: b in Boundaries(served) ==> InRange(b, start, end)
    requires forall i :: 0 <= i < |served| ==> served[i].boundary in history && history[served[i].boundary] == served[i]
    ensures NewestWanted(ClosedBars(served, period, now), history, start, end, period, now)
    ensures |ClosedBars(served, period, now)| == |Closed(Boundaries(served), period, now)|
  {
    var closed := ClosedBars(served, period, now);
    ClosedBarsAscend(served, period, now);
    ClosedBarsAmong(served, period, now);
    ClosedBarsBoundaries(served, period, now);
    BoundariesSize(closed);
    forall i | 0 <= i < |closed|
      ensures closed[i].boundary in Boundaries(served)
      ensures Wanted(history, closed[i].boundary, start, end, period, now) && history[closed[i].boundary] == closed[i]
    {
      assert closed[i] in served;
      BoundariesMember(served, closed[i].boundary);
    }
  }

  /** Cutting to the newest closed bars leaves out only bars not closed, or older than all if that many are kept. */
  lemma NewestClosed(served: seq<Bar>, cut: nat, period: int, now: int)
    requires Ascending(served)
    ensures var kept := Newest(ClosedBars(served, period, now), cut);
      && Ascending(kept) && (forall bar :: bar in kept ==> bar in served)
      && forall b :: b in Boundaries(served) && b + period <= now ==>
           b in Boundaries(kept) || (|kept| == cut && OlderThanAll(b, kept))
  {
    var closed := ClosedBars(served, period, now);
    var kept := Newest(closed, cut);
    ClosedBarsAscend(served, period, now);
    ClosedBarsAmong(served, period, now);
    ClosedBarsBoundaries(served, period, now);
    hide ClosedBars, Boundaries;
    forall b | b in Boundaries(served) && b + period <= now
      ensures b in Boundaries(kept) || (|kept| == cut && OlderThanAll(b, kept))
    {
      CutLeaves(closed, cut, b);
    }
  }

  lemma CutLeaves(bars: seq<Bar>, cut: nat, b: int)
    requires Ascending(bars) && b in Boundaries(bars)
    ensures var kept := Newest(bars, cut); b in Boundaries(kept) || (|kept| == cut && OlderThanAll(b, kept))
  {
    hide Boundaries;
    var kept := Newest(bars, cut);
    BoundariesMember(bars, b);
    BoundariesMember(kept, b);
    var j :| 0 <= j < |bars| && bars[j].boundary == b;
    var offset := |bars| - |kept|;
    if j >= offset {
      assert kept[j - offset] == bars[j];
    }
  }

  /**
   The bars are bars the venue served, and lack of its closed ones in the range only such as are
   older than all, with as many as the cut allows.
   */
  ghost predicate LacksOnly(venue: Venue, asked: seq<(int, int)>, bars: seq<Bar>, start: Option<int>, end: int,
                            period: int, now: int, cut: Option<int>)
  {
    && (forall bar :: bar in bars ==> Served(venue, asked, bar))
    && forall bar :: Served(venue, asked, bar) && bar.boundary + period <= now && InRange(bar.boundary, start, end) ==>
         bar.boundary in Boundaries(bars) || (cut == Some(|bars|) && OlderThanAll(bar.boundary, bars))
  }

  lemma CutFromVenue(venue: Venue, asked: seq<(int, int)>, served: seq<Bar>, start: Option<int>, end: int,
                     period: int, now: int, cut: Option<int>)
    requires Ascending(served) && FromVenue(venue, asked, served, start, end) && (cut.Some? ==> cut.value >= 0)
    ensures var closed := ClosedBars(served, period, now);
      var kept := Newest(closed, if cut.Some? then cut.value else |closed|);
      Ascending(kept) && LacksOnly(venue, asked, kept, start, end, period, now, cut)
  {
    var closed := ClosedBars(served, period, now);
    NewestClosed(served, if cut.Some? then cut.value else |closed|, period, now);
    ClosedBarsBoundaries(served, period, now);
  }

  /** What an honest venue's bars, cut so, may lack. */
  lemma HonestCut(served: seq<Bar>, history: map<int, Bar>, start: Option<int>, end: int, period: int, now: int,
                  cut: nat)
    requires Ascending(served) && NoHole(history, Boundaries(served), start, end)
    requires forall b :: b in Boundaries(served) ==> InRange(b, start, end)
    requires forall i :: 0 <= i < |served| ==> served[i].boundary in history && history[served[i].boundary] == served[i]
    ensures var closed := ClosedBars(served, period, now);
      && NewestWanted(Newest(closed, cut), history, start, end, period, now)
      && |closed| == |Closed(Boundaries(served), period, now)|
      && Boundaries(closed) == Closed(Boundaries(served), period, now)
  {
    ServedWanted(served, history, start, end, period, now);
    NewestIsNewest(ClosedBars(served, period, now), cut, history, start, end, period, now);
    ClosedBarsBoundaries(served, period, now);
  }

  /**
   `request`'s closed bars, ascending. A request bounded below, or limited against a venue that
   counts back, gets exactly the newest `limit` of the closed bars in its range, or all of them if
   there are fewer or no limit is asked; the forming bar never takes a closed bar's place.
   */
  method HistoricalBars(venue: Venue, s: Settings, start: Option<int>, end: Option<int>, limit: nat, now: int,
                        ghost history: map<int, Bar>)
    returns (r: Result<seq<Bar>>, ghost asked: seq<(int, int)>)
    requires s.Valid()
    ensures if r.Failure? then LastFailed(venue, asked) else AllAnswered(venue, asked)
    ensures r.Success? ==> Ascending(r.value)
    ensures r.Success? ==>
              LacksOnly(venue, asked, r.value, start, if end.None? then now else end.value, s.period, now,
                        if limit > 0 then Some(limit) else if start.None? then Some(s.pageSize) else None)
    ensures r.Success? && limit > 0 ==> |r.value| <= limit
    ensures r.Success? && limit == 0 && start.None? ==> |r.value| <= s.pageSize
    ensures r.Success? && Honest(venue, history, s.period) ==>
              NewestWanted(r.value, history, start, if end.None? then now else end.value, s.period, now)
    ensures var last := if end.None? then now else end.value;
            && r.Success?
            && (|| (start.Some? && Honest(venue, history, s.period))
                || (limit > 0 && CountsBack(venue, history, s.period)))
            && NoLongGap(history, start, last, s) ==>
              forall b :: Wanted(history, b, start, last, s.period, now) && b !in Boundaries(r.value) ==>
                limit > 0 && |r.value| == limit
  {
    var last := if end.None? then now else end.value;
    var served;
    served, asked := PageTrendbars(venue, s, start, last, if limit == 0 then None else Some(limit), now, history);
    if served.Failure? {
      return Failure, asked;
    }
    var closed := ClosedBars(served.value, s.period, now);
    var cut := if limit > 0 then limit else if start.None? then s.pageSize else |closed|;
    hide FromVenue, LacksOnly, AllAnswered, LastFailed, Backwards, NewestWanted, ClosedBars, Boundaries;
    CutFromVenue(venue, asked, served.value, start, last, s.period, now,
                 if limit > 0 then Some(limit) else if start.None? then Some(s.pageSize) else None);
    if Honest(venue, history, s.period) {
      HonestCut(served.value, history, start, last, s.period, now, cut);
    }
    r := Success(Newest(closed, cut));
  }

  /**
   The bars of the inclusive range `[start, end]`, for a backfill. A bar opening after `end` but
   before its period is out can be among them only when no bar opens at `end` itself.
   */
  method FetchBarRange(venue: Venue, s: Settings, start: int, end: int, ghost history: map<int, Bar>)
    returns (r: Result<seq<Bar>>, ghost asked: seq<(int, int)>)
    requires s.Valid()
    ensures if r.Failure? then LastFailed(venue, asked) else AllAnswered(venue, asked)
    ensures r.Success? ==> Ascending(r.value) && forall bar :: bar in r.value ==> Served(venue, asked, bar)
    ensures r.Success? ==> forall bar :: Served(venue, asked, bar) && start <= bar.boundary <= end ==>
              bar.boundary in Boundaries(r.value)
    ensures r.Success? && Honest(venue, history, s.period) && NoLongGap(history, Some(start), end + s.period, s) ==>
              && (forall b :: b in history && start <= b <= end ==> b in Boundaries(r.value))
              && (end in history ==> forall b :: b in Boundaries(r.value) ==> b in history && start <= b <= end)
  {
    r, asked := PageTrendbars(venue, s, Some(start), end + s.period, None, end + s.period, history);
    if r.Success? && Honest(venue, history, s.period) && NoLongGap(history, Some(start), end + s.period, s) {
      forall b | b in Boundaries(r.value)
        ensures b in history
      {
        BoundariesMember(r.value, b);
      }
      assert forall b :: b in history && start <= b <= end ==> InRange(b, Some(start), end + s.period);
    }
  }
}
