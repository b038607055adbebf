/**
 The account state the execution client keeps: a balance taken only from newer reports, and each
 position's margin taken only from states not older than the one held. Answers and events can be
 applied out of order. A connect forgets the balance's version, and a rebuild of the venue model
 forgets every margin and takes those of its snapshot.
 */
module AccountState {
  import opened Wrappers

  type PositionId = nat

  // -- What one report does -----------------------------------------------------------------

  /** The balance held, and the version it was reported under. */
  datatype Balance = Balance(amount: int, version: int)

  /** A balance the broker reports, or a connect. */
  datatype BalanceReport = Reported(amount: int, version: Option<int>) | Connected

  function TakeBalance(held: Balance, report: BalanceReport): Balance {
    match report
    case Connected => held.(version := -1)
    case Reported(amount, None) => held.(amount := amount)
    case Reported(amount, Some(version)) => if version <= held.version then held else Balance(amount, version)
  }

  function TakeBalances(held: Balance, reports: seq<BalanceReport>): Balance {
    if reports == [] then held
    else TakeBalance(TakeBalances(held, reports[..|reports| - 1]), reports[|reports| - 1])
  }

  /** A margin, with the symbol it is on. */
  datatype Margin = Margin(symbol: nat, amount: int)

  /** The margins of the open positions, and when each position's held state was made. */
  datatype Margins = Margins(held: map<PositionId, Margin>, times: map<PositionId, int>)

  const NO_MARGINS := Margins(map[], map[])

  /** A position as the broker states it; one without an update time counts as made at 0. */
  datatype PositionState = PositionState(position: PositionId, updated: int, open: bool, margin: Margin)

  /** A state, a change of a margin alone, which names no symbol and no time, or a rebuild's snapshot. */
  datatype MarginReport =
    | State(state: PositionState)
    | Changed(position: PositionId, amount: int)
    | Rebuilt(snapshot: seq<PositionState>)

  /** When the held state of a position was made; a position not seen counts as older than any. */
  function HeldSince(margins: Margins, position: PositionId): int {
    if position in margins.times then margins.times[position] else -1
  }

  function TakeState(margins: Margins, s: PositionState): Margins {
    if s.updated < HeldSince(margins, s.position) then margins
    else Margins(if s.open then margins.held[s.position := s.margin] else margins.held - {s.position},
                 margins.times[s.position := s.updated])
  }

  function TakeStates(margins: Margins, states: seq<PositionState>): Margins {
    if states == [] then margins
    else TakeState(TakeStates(margins, states[..|states| - 1]), states[|states| - 1])
  }

  function TakeMargin(margins: Margins, report: MarginReport): Margins {
    match report
    case State(s) => TakeState(margins, s)
    case Changed(position, amount) =>
      if position !in margins.held then margins
      else margins.(held := margins.held[position := margins.held[position].(amount := amount)])
    case Rebuilt(snapshot) => TakeStates(NO_MARGINS, snapshot)
  }

  function TakeMargins(margins: Margins, reports: seq<MarginReport>): Margins {
    if reports == [] then margins
    else TakeMargin(TakeMargins(margins, reports[..|reports| - 1]), reports[|reports| - 1])
  }

  class Account {
    var balance: int
    var balanceVersion: int
    var margins: map<PositionId, Margin>
    var marginTimes: map<PositionId, int>

    function View(): (Balance, Margins)
      reads this
    {
      (Balance(balance, balanceVersion), Margins(margins, marginTimes))
    }

    constructor ()
      ensures View() == (Balance(0, -1), NO_MARGINS)
    {
      balance, balanceVersion, margins, marginTimes := 0, -1, map[], map[];
    }

    method Connect()
      modifies this`balanceVersion
      ensures View().0 == TakeBalance(old(View().0), Connected)
    {
      balanceVersion := -1;
    }

    /** Takes a balance the broker reports; returns whether the balance changed. */
    method SetBalance(amount: int, version: Option<int>) returns (changed: bool)
      modifies this`balance, this`balanceVersion
      ensures View().0 == TakeBalance(old(View().0), Reported(amount, version))
      ensures if version.Some? && version.value <= old(balanceVersion)
              then balance == old(balance) && balanceVersion == old(balanceVersion)
              else balance == amount && balanceVersion == if version.Some? then version.value else old(balanceVersion)
      ensures changed <==> balance != old(balance)
    {
      if version.Some? {
        if version.value <= balanceVersion {
          return false;
        }
        balanceVersion := version.value;
      }
      if amount == balance {
        return false;
      }
      balance := amount;
      return true;
    }

    /** Keeps one position's margin; returns whether the margins changed. */
    method SetMargin(s: PositionState) returns (changed: bool)
      modifies this`margins, this`marginTimes
      ensures View().1 == TakeState(old(View().1), s)
      ensures if s.position in old(marginTimes) && s.updated < old(marginTimes)[s.position]
              then margins == old(margins) && marginTimes == old(marginTimes)
              else s.updated >= -1 ==>
                && marginTimes == old(marginTimes)[s.position := s.updated]
                && margins == if s.open then old(margins)[s.position := s.margin] else old(margins) - {s.position}
      ensures changed <==> margins != old(margins)
    {
      if s.updated < (if s.position in marginTimes then marginTimes[s.position] else -1) {
        return false;
      }
      marginTimes := marginTimes[s.position := s.updated];
      if !s.open {
        changed := s.position in margins;
        margins := margins - {s.position};
        return;
      }
      if s.position in margins && margins[s.position] == s.margin {
        assert margins == margins[s.position := s.margin];
        return false;
      }
      margins := margins[s.position := s.margin];
      return true;
    }

    method MarginChanged(position: PositionId, amount: int)
      modifies this`margins
      ensures View().1 == TakeMargin(old(View().1), Changed(position, amount))
      ensures marginTimes == old(marginTimes) && margins.Keys == old(margins.Keys)
      ensures forall p :: p in margins ==>
                margins[p] == if p == position then old(margins)[p].(amount := amount) else old(margins)[p]
    {
      if position in margins && margins[position].amount != amount {
        margins := margins[position := margins[position].(amount := amount)];
      } else {
        assert position in margins ==> margins == margins[position := margins[position].(amount := amount)];
      }
    }

    /** A rebuilt model stands: the margins are those of its snapshot, whatever was held. */
    method Rebuild(snapshot: seq<PositionState>)
      modifies this`margins, this`marginTimes
      ensures View().1 == TakeMargin(old(View().1), Rebuilt(snapshot))
    {
      margins, marginTimes := map[], map[];
      for i := 0 to |snapshot|
        invariant View().1 == TakeStates(NO_MARGINS, snapshot[..i])
      {
        var _ := SetMargin(snapshot[i]);
        assert snapshot[..i + 1][..i] == snapshot[..i];
      }
      assert snapshot[..|snapshot|] == snapshot;
    }
  }

  // -- Balances out of order ----------------------------------------------------------------

  ghost predicate Versioned(reports: seq<BalanceReport>) {
    forall r :: r in reports && r.Reported? ==> r.version.Some?
  }

  /** The reports since the last connect. */
  function SinceConnect(reports: seq<BalanceReport>): seq<BalanceReport> {
    if reports == [] then []
    else
      var last := reports[|reports| - 1];
      if last.Connected? then [] else SinceConnect(reports[..|reports| - 1]) + [last]
  }

  /** What was held when the client last connected, of no version; what was held before if it did not. */
  function AtConnect(before: Balance, reports: seq<BalanceReport>): Balance {
    if reports == [] then before
    else
      var front := reports[..|reports| - 1];
      if reports[|reports| - 1].Connected? then TakeBalances(before, front).(version := -1)
      else AtConnect(before, front)
  }

  /** `b` is the balance of the greatest version among the reports and the one held before. */
  ghost predicate OfGreatestVersion(b: Balance, before: Balance, reports: seq<BalanceReport>) {
    && (forall r :: r in reports ==> r.Reported? && r.version.Some? && r.version.value <= b.version)
    && before.version <= b.version
    && (b == before || (b.version > before.version && Reported(b.amount, Some(b.version)) in reports))
  }

  /** After any versioned reports the balance is that of the greatest version since the last connect. */
  lemma {:induction false} GreatestVersionHeld(before: Balance, reports: seq<BalanceReport>)
    requires Versioned(reports)
    ensures OfGreatestVersion(TakeBalances(before, reports), AtConnect(before, reports), SinceConnect(reports))
  {
    if reports != [] {
      var n := |reports| - 1;
      assert reports == reports[..n] + [reports[n]];
      GreatestVersionHeld(before, reports[..n]);
    }
  }

  /** Equal versions carry equal amounts. */
  ghost predicate Agreeing(reports: seq<BalanceReport>) {
    forall r, s :: r in reports && s in reports && r.Reported? && s.Reported? && r.version == s.version ==>
      r.amount == s.amount
  }

  lemma {:induction false} WithoutConnect(before: Balance, reports: seq<BalanceReport>)
    requires forall r :: r in reports ==> r.Reported?
    ensures SinceConnect(reports) == reports && AtConnect(before, reports) == before
  {
    if reports != [] {
      var n := |reports| - 1;
      assert reports == reports[..n] + [reports[n]] && reports[n] in reports;
      WithoutConnect(before, reports[..n]);
    }
  }

  /** In whatever order the versioned reports of one connection are applied, the same balance is held. */
  lemma BalancesConfluent(before: Balance, reports: seq<BalanceReport>, reordered: seq<BalanceReport>)
    requires multiset(reports) == multiset(reordered) && Versioned(reports) && Agreeing(reports)
    requires forall r :: r in reports ==> r.Reported?
    ensures TakeBalances(before, reports) == TakeBalances(before, reordered)
  {
    assert forall r :: r in reordered <==> r in multiset(reordered);
    assert forall r :: r in reports <==> r in multiset(reports);
    hide TakeBalances, AtConnect, SinceConnect, OfGreatestVersion, Agreeing;
    WithoutConnect(before, reports);
    WithoutConnect(before, reordered);
    GreatestVersionHeld(before, reports);
    GreatestVersionHeld(before, reordered);
    GreatestIsOne(TakeBalances(before, reports), TakeBalances(before, reordered), before, reports, reordered);
  }

  /** Only one balance is that of the greatest version, where equal versions carry equal amounts. */
  lemma GreatestIsOne(b: Balance, c: Balance, before: Balance, reports: seq<BalanceReport>, others: seq<BalanceReport>)
    requires OfGreatestVersion(b, before, reports) && OfGreatestVersion(c, before, others)
    requires Agreeing(reports) && forall r :: r in reports <==> r in others
    ensures b == c
  {
    if b != before && c != before {
      assert Reported(b.amount, Some(b.version)) in others && Reported(c.amount, Some(c.version)) in reports;
    }
  }

  /** Across a connect an older version is taken: the greatest one counts per connection only. */
  lemma OlderAfterConnect(before: Balance, older: int, newer: int, amounts: (int, int))
    requires before.version < newer && 0 <= older < newer
    ensures TakeBalances(before, [Reported(amounts.0, Some(newer)), Connected, Reported(amounts.1, Some(older))])
      == Balance(amounts.1, older)
  {
    var reports := [Reported(amounts.0, Some(newer)), Connected, Reported(amounts.1, Some(older))];
    assert reports[..2] == [Reported(amounts.0, Some(newer)), Connected];
    assert reports[..2][..1] == [Reported(amounts.0, Some(newer))];
    assert reports[..2][..1][..0] == [];
  }

  // -- Margins out of order -----------------------------------------------------------------

  /** The states that count: those of the last rebuild's snapshot, and those reported since. */
  function Counting(reports: seq<MarginReport>): seq<PositionState> {
    if reports == [] then []
    else
      var before := Counting(reports[..|reports| - 1]);
      match reports[|reports| - 1]
      case State(s) => before + [s]
      case Changed(_, _) => before
      case Rebuilt(snapshot) => snapshot
  }

  /** The last of the newest states of a position. */
  ghost predicate NewestOf(states: seq<PositionState>, position: PositionId, i: int) {
    && 0 <= i < |states| && states[i].position == position
    && (forall k :: 0 <= k < |states| && states[k].position == position ==> states[k].updated <= states[i].updated)
    && (forall k :: i < k < |states| && states[k].position == position ==> states[k].updated < states[i].updated)
  }

  /** States are made at times. */
  ghost predicate Timed(states: seq<PositionState>) {
    forall k :: 0 <= k < |states| ==> states[k].updated >= 0
  }

  /** What is held of a position is state `i`, its newest. */
  ghost predicate Reflects(m: Margins, states: seq<PositionState>, position: PositionId, i: int) {
    && NewestOf(states, position, i) && position in m.times && m.times[position] == states[i].updated
    && (position in m.held <==> states[i].open)
    && (states[i].open ==> m.held[position] == states[i].margin)
  }

  /** After any states, in any order, what is held of a position is its newest state, if there is one. */
  lemma {:induction false} NewestTaken(states: seq<PositionState>, position: PositionId)
    requires Timed(states)
    ensures var m := TakeStates(NO_MARGINS, states);
      if position in m.times then exists i :: Reflects(m, states, position, i)
      else position !in m.held && forall k :: 0 <= k < |states| ==> states[k].position != position
  {
    if states != [] {
      var n := |states| - 1;
      var before := states[..n];
      NewestTaken(before, position);
      NewestStep(before, states[n], position);
      assert before + [states[n]] == states;
    }
  }

  lemma NewestStep(before: seq<PositionState>, s: PositionState, position: PositionId)
    requires Timed(before) && s.updated >= 0
    requires var m := TakeStates(NO_MARGINS, before);
      if position in m.times then exists i :: Reflects(m, before, position, i)
      else position !in m.held && forall k :: 0 <= k < |before| ==> before[k].position != position
    ensures var m := TakeState(TakeStates(NO_MARGINS, before), s);
      if position in m.times then exists i :: Reflects(m, before + [s], position, i)
      else position !in m.held && forall k :: 0 <= k < |before + [s]| ==> (before + [s])[k].position != position
  {
    hide TakeStates;
    var m, states, n := TakeStates(NO_MARGINS, before), before + [s], |before|;
    if s.position == position && s.updated >= HeldSince(m, position) {
      if j :| Reflects(m, before, position, j) {
        assert before[j].updated <= s.updated;
      }
      assert Reflects(TakeState(m, s), states, position, n);
    } else if j :| Reflects(m, before, position, j) {
      assert Reflects(TakeState(m, s), states, position, j);
    }
  }

  lemma NewestUnique(states: seq<PositionState>, position: PositionId, i: nat, j: nat)
    requires NewestOf(states, position, i) && NewestOf(states, position, j)
    ensures i == j
  {
  }

  /** Nothing changed the position's margin alone. */
  ghost predicate Unchanged(reports: seq<MarginReport>, position: PositionId) {
    forall r :: r in reports && r.Changed? ==> r.position != position
  }

  /** A change of a margin alone touches neither times nor which margins are held nor their symbols. */
  ghost predicate Agree(m: Margins, n: Margins, position: PositionId, exactly: bool) {
    && m.times == n.times
    && (position in m.held <==> position in n.held)
    && (position in m.held ==> m.held[position].symbol == n.held[position].symbol)
    && (position in m.held && exactly ==> m.held[position] == n.held[position])
  }

  lemma StateAgrees(m: Margins, n: Margins, s: PositionState, position: PositionId, exactly: bool)
    requires Agree(m, n, position, exactly)
    ensures Agree(TakeState(m, s), TakeState(n, s), position, exactly)
  {
  }

  lemma ChangeAgrees(m: Margins, n: Margins, changed: PositionId, amount: int, position: PositionId, exactly: bool)
    requires Agree(m, n, position, exactly)
    ensures Agree(TakeMargin(m, Changed(changed, amount)), n, position, exactly && changed != position)
  {
  }

  lemma {:induction false} CountingCounts(reports: seq<MarginReport>, position: PositionId)
    ensures Agree(TakeMargins(NO_MARGINS, reports), TakeStates(NO_MARGINS, Counting(reports)), position,
                  Unchanged(reports, position))
  {
    if reports != [] {
      hide TakeState, Agree;
      var k := |reports| - 1;
      var before, last := reports[..k], reports[k];
      var m, n := TakeMargins(NO_MARGINS, before), TakeStates(NO_MARGINS, Counting(before));
      CountingCounts(before, position);
      assert reports == before + [last];
      assert Unchanged(reports, position)
        <==> Unchanged(before, position) && (last.Changed? ==> last.position != position);
      match last
      case State(s) =>
        assert (Counting(before) + [s])[..|Counting(before)|] == Counting(before);
        StateAgrees(m, n, s, position, Unchanged(before, position));
      case Changed(changed, amount) =>
        ChangeAgrees(m, n, changed, amount, position, Unchanged(before, position));
      case Rebuilt(snapshot) =>
        AgreeWithItself(TakeStates(NO_MARGINS, snapshot), position, Unchanged(reports, position));
    }
  }

  lemma AgreeWithItself(m: Margins, position: PositionId, exactly: bool)
    ensures Agree(m, m, position, exactly)
  {
  }

  /**
   After any sequence of states, changes and rebuilds, what is held of a position is its newest
   state among those that count: none if it is closed or there is none, its own margin if it is
   open, but for what a change of the margin alone set since.
   */
  lemma NewestStateHeld(reports: seq<MarginReport>, position: PositionId, i: nat)
    requires Timed(Counting(reports)) && NewestOf(Counting(reports), position, i)
    ensures var m, newest := TakeMargins(NO_MARGINS, reports), Counting(reports)[i];
      && HeldSince(m, position) == newest.updated
      && (position in m.held <==> newest.open)
      && (newest.open ==> m.held[position].symbol == newest.margin.symbol)
      && (newest.open && Unchanged(reports, position) ==> m.held[position] == newest.margin)
  {
    var states := Counting(reports);
    CountingCounts(reports, position);
    NewestTaken(states, position);
    var m := TakeStates(NO_MARGINS, states);
    assert states[i].position == position;
    var j :| Reflects(m, states, position, j);
    NewestUnique(states, position, i, j);
  }

  /** A position has a margin exactly if the newest state of it that counts is open. */
  lemma HeldExactly(reports: seq<MarginReport>, position: PositionId)
    requires Timed(Counting(reports))
    ensures position in TakeMargins(NO_MARGINS, reports).held
      <==> exists i :: NewestOf(Counting(reports), position, i) && Counting(reports)[i].open
  {
    var states := Counting(reports);
    CountingCounts(reports, position);
    NewestTaken(states, position);
    var m := TakeStates(NO_MARGINS, states);
    if i :| NewestOf(states, position, i) && states[i].open {
      NewestStateHeld(reports, position, i);
    }
  }

  predicate NoRebuild(reports: seq<MarginReport>) {
    forall r :: r in reports ==> !r.Rebuilt?
  }

  lemma {:induction false} CountingSince(before: seq<MarginReport>, later: seq<MarginReport>)
    ensures Counting(before + later) == if NoRebuild(later) then Counting(before) + Counting(later) else Counting(later)
  {
    if later == [] {
      assert before + later == before;
    } else {
      var n := |later| - 1;
      CountingSince(before, later[..n]);
      assert (before + later)[..|before| + n] == before + later[..n];
      assert later == later[..n] + [later[n]];
    }
  }

  /** All states of the position that are reported after it closed are older than the close. */
  ghost predicate OlderOnly(states: seq<PositionState>, closed: PositionState) {
    forall k :: 0 <= k < |states| && states[k].position == closed.position ==> states[k].updated < closed.updated
  }

  /**
   A closed position's margin does not come back from what is older than the close, or from a
   margin change, exactly if no rebuild forgot the close since, or of the states that count since
   that rebuild the position's newest is not open.
   */
  lemma ClosedStaysClosedExactly(before: seq<MarginReport>, closed: PositionState, later: seq<MarginReport>)
    requires !closed.open && Timed(Counting(before) + [closed]) && Timed(Counting(later))
    requires forall k :: 0 <= k < |Counting(before)| && Counting(before)[k].position == closed.position ==>
               Counting(before)[k].updated <= closed.updated
    requires OlderOnly(Counting(later), closed)
    ensures closed.position !in TakeMargins(NO_MARGINS, before + [State(closed)] + later).held
      <==> || NoRebuild(later)
           || !exists i :: NewestOf(Counting(later), closed.position, i) && Counting(later)[i].open
  {
    CountingClose(before, closed);
    hide Counting, TakeMargins;
    var first := before + [State(closed)];
    CountingSince(first, later);
    HeldExactly(first + later, closed.position);
    if NoRebuild(later) {
      CloseIsNewest(Counting(before), closed, Counting(later));
    }
  }

  lemma CountingClose(before: seq<MarginReport>, closed: PositionState)
    ensures Counting(before + [State(closed)]) == Counting(before) + [closed]
  {
    assert (before + [State(closed)])[..|before|] == before;
  }

  lemma CloseIsNewest(before: seq<PositionState>, closed: PositionState, later: seq<PositionState>)
    requires OlderOnly(later, closed)
    requires forall k :: 0 <= k < |before| && before[k].position == closed.position ==>
               before[k].updated <= closed.updated
    ensures var states := before + [closed] + later;
      forall i :: NewestOf(states, closed.position, i) ==> states[i] == closed
  {
    var states, n := before + [closed] + later, |before|;
    assert states[n] == closed;
    assert NewestOf(states, closed.position, n) by {
      forall k | n < k < |states| && states[k].position == closed.position ensures states[k].updated < closed.updated {
        assert states[k] == later[k - n - 1];
      }
    }
    forall i | NewestOf(states, closed.position, i) ensures i == n {
      NewestUnique(states, closed.position, i, n);
    }
  }

  /** Closed at a time, forgotten by a rebuild, and back with a late state from before. */
  lemma ClosedComesBack(closed: PositionState, late: PositionState)
    requires !closed.open && late.open && late.position == closed.position && 0 <= late.updated < closed.updated
    ensures closed.position in TakeMargins(NO_MARGINS, [State(closed), Rebuilt([]), State(late)]).held
  {
    var reports := [State(closed), Rebuilt([]), State(late)];
    assert reports[..2] == [State(closed), Rebuilt([])];
    assert reports[..2][..1] == [State(closed)];
  }
}
