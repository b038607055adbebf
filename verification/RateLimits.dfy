/**
 Telling a sliding one-second request limit from one per calendar second: the inference of
 `verify_rate_limits.py`, and the two limiters it has to tell apart. Times are reals, in seconds.
 */
module RateLimits {
  import opened Wrappers
  import Sets

  const WINDOW := 1.0
  const TOLERANCE := 0.05
  const PHASE_GRID := 100

  datatype Outcome = Answered | Refused | Other

  /** One request: when it left, when its answer came, what it was, and the block it announced. */
  datatype Attempt = Attempt(sent: real, answeredAt: real, outcome: Outcome, retryAfter: Option<int>)

  // -- Counting times -----------------------------------------------------------------------

  /** The stretches of time the inference counts in. */
  datatype Region =
    | Closed(lo: real, hi: real)
    | LeftOpen(lo: real, hi: real)
    | Second(phase: real, number: int)
    | SecondUpTo(phase: real, number: int, last: real)
  {
    predicate Has(t: real) {
      match this
      case Closed(lo, hi) => lo <= t <= hi
      case LeftOpen(lo, hi) => lo < t <= hi
      case Second(phase, number) => Window(t, phase) == number
      case SecondUpTo(phase, number, last) => Window(t, phase) == number && t <= last
    }
  }

  /** The number of the second, starting at `phase`, that holds `t`. */
  function Window(t: real, phase: real): int {
    (t - phase).Floor
  }

  function CountIn(times: seq<real>, region: Region): nat {
    if times == [] then 0
    else (if region.Has(times[0]) then 1 else 0) + CountIn(times[1..], region)
  }

  predicate Ordered(times: seq<real>) {
    forall i, j :: 0 <= i < j < |times| ==> times[i] <= times[j]
  }

  function Insert(t: real, times: seq<real>): seq<real> {
    if times == [] || t <= times[0] then [t] + times
    else [times[0]] + Insert(t, times[1..])
  }

  function Sort(times: seq<real>): seq<real> {
    if times == [] then [] else Insert(times[0], Sort(times[1..]))
  }

  lemma {:induction false} InsertOrdered(t: real, times: seq<real>)
    requires Ordered(times)
    ensures Ordered(Insert(t, times)) && |Insert(t, times)| == |times| + 1
    ensures Insert(t, times)[0] == t || (times != [] && Insert(t, times)[0] == times[0] <= t)
  {
    if times != [] && t > times[0] {
      InsertOrdered(t, times[1..]);
      var rest := Insert(t, times[1..]);
      assert times[0] <= rest[0];
      assert forall i :: 0 <= i < |rest| ==> rest[0] <= rest[i];
    }
  }

  lemma {:induction false} InsertCounts(t: real, times: seq<real>, region: Region)
    ensures CountIn(Insert(t, times), region) == CountIn(times, region) + if region.Has(t) then 1 else 0
  {
    var r := Insert(t, times);
    if times == [] || t <= times[0] {
      assert r[1..] == times;
    } else {
      InsertCounts(t, times[1..], region);
      assert r[1..] == Insert(t, times[1..]);
    }
  }

  lemma {:induction false} SortKeeps(times: seq<real>, region: Region)
    ensures Ordered(Sort(times)) && |Sort(times)| == |times|
    ensures CountIn(Sort(times), region) == CountIn(times, region)
  {
    if times != [] {
      SortKeeps(times[1..], region);
      InsertOrdered(times[0], Sort(times[1..]));
      InsertCounts(times[0], Sort(times[1..]), region);
    }
  }

  /** A list counts at least as many as a run of it that lies in the region whole. */
  lemma {:induction false} RunInRegion(times: seq<real>, i: nat, j: nat, region: Region)
    requires i <= j <= |times| && forall k :: i <= k < j ==> region.Has(times[k])
    ensures CountIn(times, region) >= j - i
  {
    if j > 0 {
      RunInRegion(times[1..], if i == 0 then 0 else i - 1, j - 1, region);
    }
  }

  /** In an ordered list, a run of it is counted whole between its own ends. */
  lemma RunCounted(times: seq<real>, i: nat, j: nat)
    requires Ordered(times) && i <= j < |times|
    ensures CountIn(times, Closed(times[i], times[j])) >= j - i + 1
  {
    RunInRegion(times, i, j + 1, Closed(times[i], times[j]));
  }

  /** What an interval holds of an ordered list fits between two of its members in the interval. */
  lemma {:induction false} CountedRun(times: seq<real>, lo: real, hi: real) returns (i: nat, j: nat)
    requires Ordered(times) && CountIn(times, Closed(lo, hi)) > 0
    ensures i <= j < |times| && lo <= times[i] && times[j] <= hi
    ensures CountIn(times, Closed(lo, hi)) <= j - i + 1
  {
    var rest := times[1..];
    if CountIn(rest, Closed(lo, hi)) == 0 {
      i, j := 0, 0;
    } else {
      i, j := CountedRun(rest, lo, hi);
      i, j := if Closed(lo, hi).Has(times[0]) then 0 else i + 1, j + 1;
    }
  }

  /** `best` is the length of the longest run of `ordered` shorter than `span`, `first` to `last`. */
  ghost predicate LongestRun(ordered: seq<real>, span: real, end: nat, best: nat, first: nat, last: nat)
    requires end <= |ordered|
  {
    && (forall i, j :: 0 <= i <= j < end && ordered[j] - ordered[i] < span ==> j - i + 1 <= best)
    && (end == 0 ==> best == 0)
    && (end > 0 ==> first <= last < end && ordered[last] - ordered[first] < span && best == last - first + 1)
  }

  /** The two-pointer scan over the ordered times. */
  method LongestRunShorterThan(ordered: seq<real>, span: real) returns (best: nat, ghost first: nat, ghost last: nat)
    requires span > 0.0 && Ordered(ordered)
    ensures LongestRun(ordered, span, |ordered|, best, first, last)
  {
    best, first, last := 0, 0, 0;
    var start := 0;
    for end := 0 to |ordered|
      invariant 0 <= start <= end
      invariant forall k :: 0 <= k < start ==> ordered[end - 1] - ordered[k] >= span
      invariant LongestRun(ordered, span, end, best, first, last)
    {
      var t := ordered[end];
      while t - ordered[start] >= span
        invariant 0 <= start <= end
        invariant forall k :: 0 <= k < start ==> t - ordered[k] >= span
        decreases end - start
      {
        start := start + 1;
      }
      if end - start + 1 > best {
        best, first, last := end - start + 1, start, end;
      }
    }
  }

  /**
   The most of `times` that fit in any interval shorter than `span`: no shorter interval holds
   more, and one holds as many.
   */
  method MostWithin(times: seq<real>, span: real) returns (best: nat)
    requires span > 0.0
    ensures forall lo, hi :: hi - lo < span ==> CountIn(times, Closed(lo, hi)) <= best
    ensures times != [] ==> exists lo, hi :: hi - lo < span && CountIn(times, Closed(lo, hi)) == best
    ensures times == [] ==> best == 0
  {
    var ordered := Sort(times);
    SortKeeps(times, Closed(0.0, 0.0));
    ghost var first, last;
    best, first, last := LongestRunShorterThan(ordered, span);
    forall lo, hi | hi - lo < span
      ensures CountIn(times, Closed(lo, hi)) <= best
    {
      SortKeeps(times, Closed(lo, hi));
      if CountIn(ordered, Closed(lo, hi)) > 0 {
        var i, j := CountedRun(ordered, lo, hi);
      }
    }
    if times != [] {
      RunCounted(ordered, first, last);
      SortKeeps(times, Closed(ordered[first], ordered[last]));
    }
  }

  // -- The fits -----------------------------------------------------------------------------

  /** When the answered requests were sent. */
  function AnsweredTimes(attempts: seq<Attempt>): seq<real> {
    if attempts == [] then []
    else (if attempts[0].outcome.Answered? then [attempts[0].sent] else []) + AnsweredTimes(attempts[1..])
  }

  /** Whether `refusal` fell inside the block an earlier refusal's `retryAfter` announced. */
  predicate Blocked(refusal: Attempt, attempts: seq<Attempt>) {
    exists q | q in attempts && q.outcome.Refused? ::
      q.sent < refusal.sent && q.retryAfter.Some? &&
      refusal.sent < q.answeredAt + q.retryAfter.value as real + TOLERANCE
  }

  /** The two readings of a limit of one second. */
  datatype Reading = AnySecond | CalendarSecond(phase: real)
  {
    /** Where a refused request's second is looked for: up to the request itself. */
    function SecondOf(r: Attempt): Region {
      match this
      case AnySecond => LeftOpen(r.sent - WINDOW - TOLERANCE, r.sent)
      case CalendarSecond(phase) => SecondUpTo(phase, Window(r.sent, phase), r.sent)
    }
  }

  /** Every refusal outside a block came after a full allowance in its second. */
  predicate RefusalsExplained(attempts: seq<Attempt>, allowance: int, reading: Reading) {
    forall r | r in attempts && r.outcome.Refused? && !Blocked(r, attempts) ::
      CountIn(AnsweredTimes(attempts), reading.SecondOf(r)) >= allowance
  }

  /** What `fits_sliding` says: at most `allowance` answered in any interval shorter than 0.95 s. */
  ghost predicate FitsSliding(attempts: seq<Attempt>, allowance: int) {
    && (forall lo, hi :: hi - lo < WINDOW - TOLERANCE ==> CountIn(AnsweredTimes(attempts), Closed(lo, hi)) <= allowance)
    && RefusalsExplained(attempts, allowance, AnySecond)
  }

  method ComputeFitsSliding(attempts: seq<Attempt>, allowance: nat) returns (fits: bool)
    ensures fits <==> FitsSliding(attempts, allowance)
  {
    var most := MostWithin(AnsweredTimes(attempts), WINDOW - TOLERANCE);
    if most > allowance {
      return false;
    }
    fits := RefusalsExplained(attempts, allowance, AnySecond);
  }

  /** Whether the timeline fits `allowance` per second starting at `phase`, plus blocks. */
  predicate FitsFixed(attempts: seq<Attempt>, allowance: int, phase: real) {
    && (forall t | t in AnsweredTimes(attempts) ::
          CountIn(AnsweredTimes(attempts), Second(phase, Window(t, phase))) <= allowance)
    && RefusalsExplained(attempts, allowance, CalendarSecond(phase))
  }

  datatype Shape = Sliding | Fixed

  function Phase(k: nat): real {
    k as real / PHASE_GRID as real
  }

  /** The streams can be read: something was refused, and nothing ended in another outcome. */
  predicate Readable(streams: seq<seq<Attempt>>) {
    && (forall s | s in streams :: forall a | a in s :: !a.outcome.Other?)
    && (exists s | s in streams :: exists a | a in s :: a.outcome.Refused?)
  }

  ghost predicate AllFitSliding(streams: seq<seq<Attempt>>, allowance: int) {
    forall i :: 0 <= i < |streams| ==> FitsSliding(streams[i], allowance)
  }

  predicate AllFitFixed(streams: seq<seq<Attempt>>, allowance: int, phase: real) {
    forall i :: 0 <= i < |streams| ==> FitsFixed(streams[i], allowance, phase)
  }

  ghost predicate SomePhaseFits(streams: seq<seq<Attempt>>, allowance: int) {
    exists k: nat :: k < PHASE_GRID && AllFitFixed(streams, allowance, Phase(k))
  }

  /** Every request was answered or refused, and one at least was refused. */
  ghost predicate CanBeRead(streams: seq<seq<Attempt>>) {
    && (forall i, j :: 0 <= i < |streams| && 0 <= j < |streams[i]| ==> !streams[i][j].outcome.Other?)
    && (exists i, j :: 0 <= i < |streams| && 0 <= j < |streams[i]| && streams[i][j].outcome.Refused?)
  }

  lemma ReadableExactly(streams: seq<seq<Attempt>>)
    ensures Readable(streams) <==> CanBeRead(streams)
  {
    forall i, j | 0 <= i < |streams| && 0 <= j < |streams[i]|
      ensures streams[i] in streams && streams[i][j] in streams[i]
    {
    }
    if Readable(streams) {
      var s :| s in streams && exists a | a in s :: a.outcome.Refused?;
      var a :| a in s && a.outcome.Refused?;
      var i :| 0 <= i < |streams| && streams[i] == s;
      var j :| 0 <= j < |s| && s[j] == a;
      assert streams[i][j].outcome.Refused?;
    }
  }

  /** The shape exactly one of the two readings leaves, or `None`. */
  method InferWindowShape(streams: seq<seq<Attempt>>, allowance: Option<nat>) returns (shape: Option<Shape>)
    ensures shape.Some? ==> allowance.Some? && CanBeRead(streams)
    ensures shape == Some(Sliding) <==>
              && allowance.Some? && CanBeRead(streams)
              && AllFitSliding(streams, allowance.value) && !SomePhaseFits(streams, allowance.value)
    ensures shape == Some(Fixed) <==>
              && allowance.Some? && CanBeRead(streams)
              && !AllFitSliding(streams, allowance.value) && SomePhaseFits(streams, allowance.value)
  {
    hide Readable, CanBeRead, FitsSliding, FitsFixed;
    ReadableExactly(streams);
    if allowance.None? || !Readable(streams) {
      return None;
    }
    var sliding, i := true, 0;
    while i < |streams|
      invariant 0 <= i <= |streams|
      invariant sliding <==> forall j :: 0 <= j < i ==> FitsSliding(streams[j], allowance.value)
    {
      var fits := ComputeFitsSliding(streams[i], allowance.value);
      sliding := sliding && fits;
      i := i + 1;
    }
    var phases: seq<nat>, k := [], 0;
    while k < PHASE_GRID
      invariant 0 <= k <= PHASE_GRID
      invariant forall p :: p in phases ==> 0 <= p < k && AllFitFixed(streams, allowance.value, Phase(p))
      invariant forall p: nat :: p < k && AllFitFixed(streams, allowance.value, Phase(p)) ==> p in phases
    {
      if AllFitFixed(streams, allowance.value, Phase(k)) {
        phases := phases + [k];
      }
      k := k + 1;
    }
    assert SomePhaseFits(streams, allowance.value) <==> phases != [] by {
      if phases != [] {
        assert phases[0] in phases && AllFitFixed(streams, allowance.value, Phase(phases[0]));
      }
    }
    if sliding && phases == [] {
      return Some(Sliding);
    }
    if phases != [] && !sliding {
      return Some(Fixed);
    }
    return None;
  }

  // -- The limiters -------------------------------------------------------------------------

  /** The answered requests whose send times lie in `region`, by their index. */
  function AnsweredAmong(attempts: seq<Attempt>, region: Region): set<nat> {
    set i: nat | i < |attempts| && attempts[i].outcome.Answered? && region.Has(attempts[i].sent)
  }

  lemma {:induction false} AnsweredCounted(attempts: seq<Attempt>, region: Region)
    ensures CountIn(AnsweredTimes(attempts), region) == |AnsweredAmong(attempts, region)|
  {
    if attempts == [] {
      assert AnsweredAmong(attempts, region) == {};
    } else {
      var n := |attempts| - 1;
      var before, last := attempts[..n], attempts[n];
      AnsweredCounted(before, region);
      AnsweredTimesAppend(before, last);
      assert attempts == before + [last];
      CountOfConcat(AnsweredTimes(before), AnsweredTimes([last]), region);
      AmongOneMore(before, last, region);
    }
  }

  lemma AmongOneMore(before: seq<Attempt>, last: Attempt, region: Region)
    ensures |AnsweredAmong(before + [last], region)|
      == |AnsweredAmong(before, region)| + CountIn(AnsweredTimes([last]), region)
  {
    var counts := last.outcome.Answered? && region.Has(last.sent);
    assert CountIn(AnsweredTimes([last]), region) == if counts then 1 else 0 by {
      assert [last][1..] == [] && [last.sent][1..] == [];
      assert AnsweredTimes([last]) == if last.outcome.Answered? then [last.sent] else [];
    }
    hide CountIn, AnsweredTimes;
    var all, those, n := AnsweredAmong(before + [last], region), AnsweredAmong(before, region), |before|;
    assert (before + [last])[n] == last;
    if counts {
      assert all == those + {n};
    } else {
      assert all == those;
    }
  }

  lemma {:induction false} AnsweredTimesAppend(attempts: seq<Attempt>, last: Attempt)
    ensures AnsweredTimes(attempts + [last]) == AnsweredTimes(attempts) + AnsweredTimes([last])
  {
    if attempts != [] {
      AnsweredTimesAppend(attempts[1..], last);
      assert (attempts + [last])[1..] == attempts[1..] + [last];
    }
  }

  lemma {:induction false} CountOfConcat(a: seq<real>, b: seq<real>, region: Region)
    ensures CountIn(a + b, region) == CountIn(a, region) + CountIn(b, region)
  {
    if a == [] {
      assert a + b == b;
    } else {
      CountOfConcat(a[1..], b, region);
      assert (a + b)[1..] == a[1..] + b;
    }
  }

  /**
   How a stream reaches the limiter: no two requests leave at once, they arrive in the order
   they left, each after it left and before its answer is back, with delays that differ by at
   most the tolerance. `arrival[i]` is when request `i` arrived, on the prober's clock.
   */
  ghost predicate Delivered(attempts: seq<Attempt>, arrival: seq<real>) {
    && |arrival| == |attempts|
    && (forall i, j :: 0 <= i < j < |attempts| ==> attempts[i].sent != attempts[j].sent)
    && (forall i, j :: 0 <= i < |attempts| && 0 <= j < |attempts| && attempts[i].sent < attempts[j].sent ==>
          arrival[i] <= arrival[j])
    && (forall i :: 0 <= i < |attempts| ==> attempts[i].sent <= arrival[i] <= attempts[i].answeredAt)
    && (forall i, j :: 0 <= i < |attempts| && 0 <= j < |attempts| ==>
          (arrival[i] - attempts[i].sent) - (arrival[j] - attempts[j].sent) <= TOLERANCE)
  }

  /** Every request arrives as it is sent: no delay, and clocks that agree. */
  ghost predicate Undelayed(attempts: seq<Attempt>, arrival: seq<real>) {
    |arrival| == |attempts| && forall i :: 0 <= i < |attempts| ==> arrival[i] == attempts[i].sent
  }

  /** The requests answered before request `i` that the limiter counts against it. */
  ghost function Counted(attempts: seq<Attempt>, arrival: seq<real>, reading: Reading, i: nat): set<nat>
    requires i < |attempts| == |arrival|
  {
    set j: nat | j < |attempts| && attempts[j].outcome.Answered? && attempts[j].sent < attempts[i].sent &&
                 SameSecond(reading, arrival[j], arrival[i])
  }

  /** Whether an arrival still counts at a later one. */
  predicate SameSecond(reading: Reading, earlier: real, later: real) {
    match reading
    case AnySecond => later - earlier < WINDOW
    case CalendarSecond(phase) => Window(earlier, phase) == Window(later, phase)
  }

  /** Request `i` arrived in the block that an earlier refusal announced when it was made. */
  ghost predicate InBlock(attempts: seq<Attempt>, arrival: seq<real>, i: nat)
    requires i < |attempts| == |arrival|
  {
    exists q: nat :: q < |attempts| && attempts[q].outcome.Refused? && attempts[q].sent < attempts[i].sent &&
                     attempts[q].retryAfter.Some? && arrival[i] < arrival[q] + attempts[q].retryAfter.value as real
  }

  /** A limiter answers only below the allowance, and refuses only at it or in a block. */
  ghost predicate Limited(attempts: seq<Attempt>, arrival: seq<real>, allowance: nat, reading: Reading)
    requires |arrival| == |attempts|
  {
    forall i: nat :: i < |attempts| ==>
      && (attempts[i].outcome.Answered? ==> |Counted(attempts, arrival, reading, i)| < allowance)
      && (attempts[i].outcome.Refused? ==>
            |Counted(attempts, arrival, reading, i)| >= allowance || InBlock(attempts, arrival, i))
  }

  lemma {:induction false} LatestSent(attempts: seq<Attempt>, members: set<nat>) returns (latest: nat)
    requires members != {} && forall i :: i in members ==> i < |attempts|
    ensures latest in members && forall i :: i in members ==> attempts[i].sent <= attempts[latest].sent
    decreases |members|
  {
    var first :| first in members;
    latest := first;
    var rest := members - {first};
    if rest != {} {
      var other := LatestSent(attempts, rest);
      if attempts[first].sent < attempts[other].sent {
        latest := other;
      }
      assert members == rest + {first};
    }
  }

  /** What a region holds is within the allowance when its answers all count against the latest. */
  lemma RegionWithinAllowance(attempts: seq<Attempt>, arrival: seq<real>, allowance: nat, reading: Reading,
                              region: Region)
    requires Delivered(attempts, arrival) && Limited(attempts, arrival, allowance, reading)
    requires forall i: nat, j: nat | i in AnsweredAmong(attempts, region) && j in AnsweredAmong(attempts, region) ::
               attempts[j].sent < attempts[i].sent ==> SameSecond(reading, arrival[j], arrival[i])
    ensures CountIn(AnsweredTimes(attempts), region) <= allowance
  {
    AnsweredCounted(attempts, region);
    var members := AnsweredAmong(attempts, region);
    if members != {} {
      var latest := LatestSent(attempts, members);
      var counted := Counted(attempts, arrival, reading, latest);
      assert members - {latest} <= counted;
      Sets.SubsetSize(members - {latest}, counted);
      assert |members| == |members - {latest}| + 1;
    }
  }

  /** A refusal outside a block is explained when what counted against it lies in its second. */
  lemma RefusalExplained(attempts: seq<Attempt>, arrival: seq<real>, allowance: nat, reading: Reading, i: nat)
    requires Delivered(attempts, arrival) && Limited(attempts, arrival, allowance, reading)
    requires i < |attempts| && attempts[i].outcome.Refused? && !Blocked(attempts[i], attempts)
    requires forall j :: j in Counted(attempts, arrival, reading, i) ==>
               reading.SecondOf(attempts[i]).Has(attempts[j].sent)
    ensures CountIn(AnsweredTimes(attempts), reading.SecondOf(attempts[i])) >= allowance
  {
    var region := reading.SecondOf(attempts[i]);
    AnsweredCounted(attempts, region);
    assert !InBlock(attempts, arrival, i) by {
      forall q: nat | q < |attempts| && attempts[q].outcome.Refused? && attempts[q].sent < attempts[i].sent &&
                      attempts[q].retryAfter.Some?
        ensures arrival[i] >= arrival[q] + attempts[q].retryAfter.value as real
      {
        assert attempts[q] in attempts;
      }
    }
    Sets.SubsetSize(Counted(attempts, arrival, reading, i), AnsweredAmong(attempts, region));
  }

  /** A trace of a sliding one-second limiter always fits the sliding reading. */
  lemma SlidingTraceFits(attempts: seq<Attempt>, arrival: seq<real>, allowance: nat)
    requires Delivered(attempts, arrival) && Limited(attempts, arrival, allowance, AnySecond)
    ensures FitsSliding(attempts, allowance)
  {
    forall lo, hi | hi - lo < WINDOW - TOLERANCE
      ensures CountIn(AnsweredTimes(attempts), Closed(lo, hi)) <= allowance
    {
      RegionWithinAllowance(attempts, arrival, allowance, AnySecond, Closed(lo, hi));
    }
    forall r | r in attempts && r.outcome.Refused? && !Blocked(r, attempts)
      ensures CountIn(AnsweredTimes(attempts), AnySecond.SecondOf(r)) >= allowance
    {
      var i :| 0 <= i < |attempts| && attempts[i] == r;
      RefusalExplained(attempts, arrival, allowance, AnySecond, i);
    }
  }

  /** A trace of a calendar-second limiter without delay fits the reading at the limiter's phase. */
  lemma CalendarTraceFits(attempts: seq<Attempt>, arrival: seq<real>, allowance: nat, phase: real)
    requires Delivered(attempts, arrival) && Limited(attempts, arrival, allowance, CalendarSecond(phase))
    requires Undelayed(attempts, arrival)
    ensures FitsFixed(attempts, allowance, phase)
  {
    forall t | t in AnsweredTimes(attempts)
      ensures CountIn(AnsweredTimes(attempts), Second(phase, Window(t, phase))) <= allowance
    {
      RegionWithinAllowance(attempts, arrival, allowance, CalendarSecond(phase), Second(phase, Window(t, phase)));
    }
    forall r | r in attempts && r.outcome.Refused? && !Blocked(r, attempts)
      ensures CountIn(AnsweredTimes(attempts), CalendarSecond(phase).SecondOf(r)) >= allowance
    {
      var i :| 0 <= i < |attempts| && attempts[i] == r;
      RefusalExplained(attempts, arrival, allowance, CalendarSecond(phase), i);
    }
  }

  // -- What a fit means ---------------------------------------------------------------------

  /** No two requests leave at once. */
  ghost predicate Distinct(attempts: seq<Attempt>) {
    forall i, j :: 0 <= i < j < |attempts| ==> attempts[i].sent != attempts[j].sent
  }

  /** The requests answered before request `i`, less than `span` seconds before it left. */
  ghost function AnsweredWithin(attempts: seq<Attempt>, span: real, i: nat): set<nat>
    requires i < |attempts|
  {
    set j: nat | j < |attempts| && attempts[j].outcome.Answered? && attempts[j].sent < attempts[i].sent &&
                 attempts[i].sent - attempts[j].sent < span
  }

  /** The requests answered before request `i` in its second, with seconds that start at `phase`. */
  ghost function AnsweredInSecond(attempts: seq<Attempt>, phase: real, i: nat): set<nat>
    requires i < |attempts|
  {
    set j: nat | j < |attempts| && attempts[j].outcome.Answered? && attempts[j].sent < attempts[i].sent &&
                 (attempts[j].sent - phase).Floor == (attempts[i].sent - phase).Floor
  }

  /** An earlier refusal announced a wait that request `i`, give or take the tolerance, did not keep. */
  ghost predicate Announced(attempts: seq<Attempt>, i: nat)
    requires i < |attempts|
  {
    exists q: nat :: q < |attempts| && attempts[q].outcome.Refused? && attempts[q].retryAfter.Some? &&
                     attempts[q].sent < attempts[i].sent &&
                     attempts[i].sent < attempts[q].answeredAt + attempts[q].retryAfter.value as real + 0.05
  }

  /** Where each reading looks for the second of a refused request: the request's own instant included. */
  lemma SecondsExactly(r: Attempt, phase: real, t: real)
    ensures AnySecond.SecondOf(r).Has(t) <==> r.sent - 1.05 < t <= r.sent
    ensures CalendarSecond(phase).SecondOf(r).Has(t) <==> (t - phase).Floor == (r.sent - phase).Floor && t <= r.sent
  {
  }

  lemma BlockedIsAnnounced(attempts: seq<Attempt>, i: nat)
    requires i < |attempts|
    ensures Blocked(attempts[i], attempts) <==> Announced(attempts, i)
  {
    if Announced(attempts, i) {
      var q: nat :| q < |attempts| && attempts[q].outcome.Refused? && attempts[q].retryAfter.Some? &&
                    attempts[q].sent < attempts[i].sent &&
                    attempts[i].sent < attempts[q].answeredAt + attempts[q].retryAfter.value as real + 0.05;
      assert attempts[q] in attempts;
    }
  }

  /** Two sets of answered requests, one of them before a request of the other. */
  lemma OneMore(attempts: seq<Attempt>, region: Region, before: set<nat>, i: nat)
    requires i !in before && before + {i} <= AnsweredAmong(attempts, region)
    ensures CountIn(AnsweredTimes(attempts), region) > |before|
  {
    AnsweredCounted(attempts, region);
    Sets.SubsetSize(before + {i}, AnsweredAmong(attempts, region));
  }

  /** A region holds no more than its latest request and those before it. */
  lemma WithinAllowance(attempts: seq<Attempt>, region: Region, allowance: nat, before: nat -> set<nat>)
    requires Distinct(attempts)
    requires forall i: nat, j: nat | i in AnsweredAmong(attempts, region) && j in AnsweredAmong(attempts, region) ::
               attempts[j].sent < attempts[i].sent ==> j in before(i)
    requires forall i: nat :: i in AnsweredAmong(attempts, region) ==> |before(i)| < allowance
    ensures CountIn(AnsweredTimes(attempts), region) <= allowance
  {
    var members := AnsweredAmong(attempts, region);
    AnsweredCounted(attempts, region);
    if members != {} {
      var latest := LatestSent(attempts, members);
      assert forall i :: i in members - {latest} ==> attempts[i].sent != attempts[latest].sent;
      Sets.SubsetSize(members - {latest}, before(latest));
    }
  }

  lemma {:induction false} AnsweredTime(attempts: seq<Attempt>, t: real) returns (i: nat)
    requires t in AnsweredTimes(attempts)
    ensures i < |attempts| && attempts[i].outcome.Answered? && attempts[i].sent == t
  {
    if attempts[0].outcome.Answered? && attempts[0].sent == t {
      i := 0;
    } else {
      i := AnsweredTime(attempts[1..], t);
      i := i + 1;
    }
  }

  lemma {:induction false} AnsweredAt(attempts: seq<Attempt>, i: nat)
    requires i < |attempts| && attempts[i].outcome.Answered?
    ensures attempts[i].sent in AnsweredTimes(attempts)
  {
    if i > 0 {
      AnsweredAt(attempts[1..], i - 1);
    }
  }

  /** What a limiter per calendar second does with request `i`, reached without delay. */
  ghost predicate OkInSecond(attempts: seq<Attempt>, allowance: nat, phase: real, i: nat)
    requires i < |attempts|
  {
    && (attempts[i].outcome.Answered? ==> |AnsweredInSecond(attempts, phase, i)| < allowance)
    && (attempts[i].outcome.Refused? && !Announced(attempts, i) ==>
          |AnsweredInSecond(attempts, phase, i)| >= allowance)
  }

  lemma RefusalInSecond(attempts: seq<Attempt>, phase: real, i: nat)
    requires Distinct(attempts) && i < |attempts| && attempts[i].outcome.Refused?
    ensures CountIn(AnsweredTimes(attempts), CalendarSecond(phase).SecondOf(attempts[i]))
      == |AnsweredInSecond(attempts, phase, i)|
  {
    var region := CalendarSecond(phase).SecondOf(attempts[i]);
    AnsweredCounted(attempts, region);
    assert AnsweredAmong(attempts, region) == AnsweredInSecond(attempts, phase, i);
  }

  /**
   A timeline with distinct send times fits the fixed reading exactly if a limiter per calendar
   second with that phase, reached without delay, could have answered so: each answer below the
   allowance, and each refusal at it or announced.
   */
  lemma FitsFixedExactly(attempts: seq<Attempt>, allowance: nat, phase: real)
    requires Distinct(attempts)
    ensures FitsFixed(attempts, allowance, phase)
      <==> forall i: nat :: i < |attempts| ==> OkInSecond(attempts, allowance, phase, i)
  {
    if FitsFixed(attempts, allowance, phase) {
      forall i: nat | i < |attempts|
        ensures OkInSecond(attempts, allowance, phase, i)
      {
        FixedFitIsOk(attempts, allowance, phase, i);
      }
    }
    if forall i: nat :: i < |attempts| ==> OkInSecond(attempts, allowance, phase, i) {
      OkFitsFixed(attempts, allowance, phase);
    }
  }

  lemma FixedFitIsOk(attempts: seq<Attempt>, allowance: nat, phase: real, i: nat)
    requires Distinct(attempts) && FitsFixed(attempts, allowance, phase) && i < |attempts|
    ensures OkInSecond(attempts, allowance, phase, i)
  {
    if attempts[i].outcome.Answered? {
      AnsweredAt(attempts, i);
      OneMore(attempts, Second(phase, Window(attempts[i].sent, phase)), AnsweredInSecond(attempts, phase, i), i);
    } else if attempts[i].outcome.Refused? {
      assert attempts[i] in attempts;
      BlockedIsAnnounced(attempts, i);
      RefusalInSecond(attempts, phase, i);
    }
  }

  lemma OkFitsFixed(attempts: seq<Attempt>, allowance: nat, phase: real)
    requires Distinct(attempts) && forall i: nat :: i < |attempts| ==> OkInSecond(attempts, allowance, phase, i)
    ensures FitsFixed(attempts, allowance, phase)
  {
    forall t | t in AnsweredTimes(attempts)
      ensures CountIn(AnsweredTimes(attempts), Second(phase, Window(t, phase))) <= allowance
    {
      hide CountIn, AnsweredTimes;
      var region := Second(phase, Window(t, phase));
      forall i: nat | i in AnsweredAmong(attempts, region)
        ensures |AnsweredInSecond(attempts, phase, i)| < allowance
      {
        assert OkInSecond(attempts, allowance, phase, i);
      }
      WithinAllowance(attempts, region, allowance,
                      (i: nat) => if i < |attempts| then AnsweredInSecond(attempts, phase, i) else {});
    }
    forall r | r in attempts && r.outcome.Refused? && !Blocked(r, attempts)
      ensures CountIn(AnsweredTimes(attempts), CalendarSecond(phase).SecondOf(r)) >= allowance
    {
      var i: nat :| i < |attempts| && attempts[i] == r;
      assert OkInSecond(attempts, allowance, phase, i);
      BlockedIsAnnounced(attempts, i);
      RefusalInSecond(attempts, phase, i);
    }
  }

  /** What a sliding limiter does with request `i`, give or take the tolerance. */
  ghost predicate OkWithin(attempts: seq<Attempt>, allowance: nat, i: nat)
    requires i < |attempts|
  {
    && (attempts[i].outcome.Answered? ==> |AnsweredWithin(attempts, 0.95, i)| < allowance)
    && (attempts[i].outcome.Refused? && !Announced(attempts, i) ==> |AnsweredWithin(attempts, 1.05, i)| >= allowance)
  }

  lemma RefusalWithin(attempts: seq<Attempt>, i: nat)
    requires Distinct(attempts) && i < |attempts| && attempts[i].outcome.Refused?
    ensures CountIn(AnsweredTimes(attempts), AnySecond.SecondOf(attempts[i])) == |AnsweredWithin(attempts, 1.05, i)|
  {
    var region := AnySecond.SecondOf(attempts[i]);
    AnsweredCounted(attempts, region);
    assert AnsweredAmong(attempts, region) == AnsweredWithin(attempts, 1.05, i);
  }

  lemma {:induction false} EarliestSent(attempts: seq<Attempt>, members: set<nat>) returns (earliest: nat)
    requires members != {} && forall i :: i in members ==> i < |attempts|
    ensures earliest in members && forall i :: i in members ==> attempts[earliest].sent <= attempts[i].sent
    decreases |members|
  {
    var first := Sets.Member(members);
    earliest := first;
    var rest := members - {first};
    assert forall i :: i in members ==> i == first || i in rest;
    if rest != {} {
      var other := EarliestSent(attempts, rest);
      if attempts[other].sent < attempts[first].sent {
        earliest := other;
      }
    }
  }

  /**
   A timeline with distinct send times fits the sliding reading exactly if each answer is below the
   allowance over the last 0.95 seconds, and each refusal at it over the last 1.05 or announced.
   */
  lemma FitsSlidingExactly(attempts: seq<Attempt>, allowance: nat)
    requires Distinct(attempts)
    ensures FitsSliding(attempts, allowance)
      <==> forall i: nat :: i < |attempts| ==> OkWithin(attempts, allowance, i)
  {
    if FitsSliding(attempts, allowance) {
      forall i: nat | i < |attempts|
        ensures OkWithin(attempts, allowance, i)
      {
        SlidingFitIsOk(attempts, allowance, i);
      }
    }
    if forall i: nat :: i < |attempts| ==> OkWithin(attempts, allowance, i) {
      OkFitsSliding(attempts, allowance);
    }
  }

  lemma SlidingFitIsOk(attempts: seq<Attempt>, allowance: nat, i: nat)
    requires Distinct(attempts) && FitsSliding(attempts, allowance) && i < |attempts|
    ensures OkWithin(attempts, allowance, i)
  {
    if attempts[i].outcome.Answered? {
      var before := AnsweredWithin(attempts, 0.95, i);
      var earliest := EarliestSent(attempts, before + {i});
      OneMore(attempts, Closed(attempts[earliest].sent, attempts[i].sent), before, i);
    } else if attempts[i].outcome.Refused? {
      assert attempts[i] in attempts;
      BlockedIsAnnounced(attempts, i);
      RefusalWithin(attempts, i);
    }
  }

  lemma OkFitsSliding(attempts: seq<Attempt>, allowance: nat)
    requires Distinct(attempts) && forall i: nat :: i < |attempts| ==> OkWithin(attempts, allowance, i)
    ensures FitsSliding(attempts, allowance)
  {
    forall lo, hi | hi - lo < WINDOW - TOLERANCE
      ensures CountIn(AnsweredTimes(attempts), Closed(lo, hi)) <= allowance
    {
      forall i: nat | i in AnsweredAmong(attempts, Closed(lo, hi))
        ensures |AnsweredWithin(attempts, 0.95, i)| < allowance
      {
        assert OkWithin(attempts, allowance, i);
      }
      WithinAllowance(attempts, Closed(lo, hi), allowance,
                      (i: nat) => if i < |attempts| then AnsweredWithin(attempts, 0.95, i) else {});
    }
    forall r | r in attempts && r.outcome.Refused? && !Blocked(r, attempts)
      ensures CountIn(AnsweredTimes(attempts), AnySecond.SecondOf(r)) >= allowance
    {
      var i: nat :| i < |attempts| && attempts[i] == r;
      assert OkWithin(attempts, allowance, i);
      BlockedIsAnnounced(attempts, i);
      RefusalWithin(attempts, i);
    }
  }

  // -- Two streams that tell ----------------------------------------------------------------

  function Sent(t: real, outcome: Outcome): Attempt {
    Attempt(t, t + 0.01, outcome, None)
  }

  /** Through a sliding limiter of one request: refused just before a second is over, twice. */
  function SlidingStream(): seq<Attempt> {
    [Sent(0.0, Answered), Sent(0.98, Refused), Sent(1.04, Answered), Sent(2.03, Refused)]
  }

  /** Through a limiter of one request per calendar second: answered twice within a tenth of one. */
  function FixedStream(): seq<Attempt> {
    [Sent(0.9, Answered), Sent(1.0, Answered), Sent(1.5, Refused)]
  }

  lemma SlidingStreamFits()
    ensures FitsSliding(SlidingStream(), 1)
  {
    var s := SlidingStream();
    assert AnsweredWithin(s, 0.95, 0) == {} && AnsweredWithin(s, 0.95, 2) == {};
    assert AnsweredWithin(s, 1.05, 1) == {0} && AnsweredWithin(s, 1.05, 3) == {2};
    FitsSlidingExactly(s, 1);
  }

  lemma SlidingStreamFitsNoPhase(k: nat)
    requires k < PHASE_GRID
    ensures !FitsFixed(SlidingStream(), 1, Phase(k))
  {
    hide FitsFixed;
    if k == 0 || k == 99 {
      FitsNoEdge(Phase(k));
    } else {
      FitsNoMiddle(Phase(k));
    }
  }

  lemma FitsNoMiddle(phase: real)
    requires 0.01 <= phase <= 0.98
    ensures !FitsFixed(SlidingStream(), 1, phase)
  {
    hide FitsFixed;
    var s := SlidingStream();
    assert (0.0 - phase).Floor == -1 && (0.98 - phase).Floor == 0;
    assert AnsweredInSecond(s, phase, 1) == {};
    if FitsFixed(s, 1, phase) {
      FixedFitIsOk(s, 1, phase, 1);
    }
  }

  lemma FitsNoEdge(phase: real)
    requires phase == 0.0 || phase == 0.99
    ensures !FitsFixed(SlidingStream(), 1, phase)
  {
    hide FitsFixed;
    var s := SlidingStream();
    assert (0.0 - phase).Floor <= 0 && (1.04 - phase).Floor <= 1 && (2.03 - phase).Floor > (1.04 - phase).Floor;
    assert AnsweredInSecond(s, phase, 3) == {};
    if FitsFixed(s, 1, phase) {
      FixedFitIsOk(s, 1, phase, 3);
    }
  }

  lemma FixedStreamFits()
    ensures FitsFixed(FixedStream(), 1, Phase(0)) && !FitsSliding(FixedStream(), 1)
  {
    var s := FixedStream();
    assert Phase(0) == 0.0;
    assert AnsweredInSecond(s, 0.0, 0) == {} && AnsweredInSecond(s, 0.0, 1) == {} && AnsweredInSecond(s, 0.0, 2) == {1};
    FitsFixedExactly(s, 1, 0.0);
    assert AnsweredWithin(s, 0.95, 1) == {0};
    assert !OkWithin(s, 1, 1);
    FitsSlidingExactly(s, 1);
  }

  lemma ReadableAlone(stream: seq<Attempt>, refusal: nat)
    requires refusal < |stream| && stream[refusal].outcome.Refused?
    requires forall i :: 0 <= i < |stream| ==> !stream[i].outcome.Other?
    ensures CanBeRead([stream])
  {
    assert [stream][0][refusal].outcome.Refused?;
  }

  lemma FitAlone(stream: seq<Attempt>, allowance: nat)
    ensures AllFitSliding([stream], allowance) <==> FitsSliding(stream, allowance)
    ensures SomePhaseFits([stream], allowance) <==>
      exists k: nat :: k < PHASE_GRID && FitsFixed(stream, allowance, Phase(k))
  {
    hide FitsSliding, FitsFixed, Phase;
    var streams := [stream];
    assert streams[0] == stream;
    forall k: nat
      ensures AllFitFixed(streams, allowance, Phase(k)) <==> FitsFixed(stream, allowance, Phase(k))
    {
    }
  }

  method NamesSliding() returns (shape: Option<Shape>)
    ensures shape == Some(Sliding)
  {
    ReadableAlone(SlidingStream(), 1);
    SlidingStreamFits();
    FitAlone(SlidingStream(), 1);
    hide *;
    forall k: nat | k < PHASE_GRID
      ensures !FitsFixed(SlidingStream(), 1, Phase(k))
    {
      SlidingStreamFitsNoPhase(k);
    }
    shape := InferWindowShape([SlidingStream()], Some(1));
  }

  method NamesFixed() returns (shape: Option<Shape>)
    ensures shape == Some(Fixed)
  {
    ReadableAlone(FixedStream(), 2);
    FixedStreamFits();
    FitAlone(FixedStream(), 1);
    hide *;
    shape := InferWindowShape([FixedStream()], Some(1));
  }

  // -- Behind a limiter ---------------------------------------------------------------------

  /** Streams through a sliding limiter are never called fixed. */
  method InferBehindSliding(streams: seq<seq<Attempt>>, allowance: nat, ghost arrivals: seq<seq<real>>)
    returns (shape: Option<Shape>)
    requires |arrivals| == |streams|
    requires forall i :: 0 <= i < |streams| ==>
               Delivered(streams[i], arrivals[i]) && Limited(streams[i], arrivals[i], allowance, AnySecond)
    ensures shape != Some(Fixed)
  {
    shape := InferWindowShape(streams, Some(allowance));
    forall i | 0 <= i < |streams|
      ensures FitsSliding(streams[i], allowance)
    {
      SlidingTraceFits(streams[i], arrivals[i], allowance);
    }
  }

  /** Streams through a calendar-second limiter whose phase is on the grid are never called sliding. */
  method InferBehindCalendar(streams: seq<seq<Attempt>>, allowance: nat, ghost arrivals: seq<seq<real>>, ghost k: nat)
    returns (shape: Option<Shape>)
    requires |arrivals| == |streams| && k < PHASE_GRID
    requires forall i :: 0 <= i < |streams| ==>
               && Delivered(streams[i], arrivals[i])
               && Undelayed(streams[i], arrivals[i])
               && Limited(streams[i], arrivals[i], allowance, CalendarSecond(Phase(k)))
    ensures shape != Some(Sliding)
  {
    shape := InferWindowShape(streams, Some(allowance));
    forall i | 0 <= i < |streams|
      ensures FitsFixed(streams[i], allowance, Phase(k))
    {
      CalendarTraceFits(streams[i], arrivals[i], allowance, Phase(k));
    }
    assert AllFitFixed(streams, allowance, Phase(k));
  }

  // -- The allowance ------------------------------------------------------------------------

  /** What became of a burst of `size` requests sent at once. */
  datatype Burst = Burst(size: nat, answered: nat, refused: nat, other: nat)
  {
    predicate Clean() {
      other == 0 && answered + refused == size
    }
  }

  /** A limit of `allowance` at once explains every burst. */
  predicate Explains(allowance: nat, bursts: seq<Burst>) {
    forall b :: b in bursts ==> b.answered == if b.size <= allowance then b.size else allowance
  }

  /** The first burst of which something was refused. */
  function FirstRefused(bursts: seq<Burst>): (b: Burst)
    requires exists b :: b in bursts && b.refused > 0
    ensures b in bursts && b.refused > 0
  {
    if bursts[0].refused > 0 then bursts[0] else FirstRefused(bursts[1..])
  }

  /** The allowance at once, exactly when one and only one number explains what was refused. */
  function InferAllowance(bursts: seq<Burst>): (r: Option<nat>)
    ensures r.Some? <==>
              && (forall b :: b in bursts ==> b.other == 0 && b.answered + b.refused == b.size)
              && (exists b :: b in bursts && b.refused > 0)
              && exists a: nat :: Explains(a, bursts)
    ensures r.Some? ==> Explains(r.value, bursts) && forall a: nat :: Explains(a, bursts) ==> a == r.value
  {
    if bursts == [] || exists b | b in bursts :: !b.Clean() then None
    else if forall b | b in bursts :: b.refused == 0 then None
    else
      var allowance := FirstRefused(bursts).answered;
      if exists b | b in bursts :: b.refused > 0 && b.answered != allowance then None
      else if exists b | b in bursts :: b.refused == 0 && b.size > allowance then None
      else
        assert Explains(allowance, bursts);
        Some(allowance)
  }
}
