# A verified model of the cTrader adapter's protocols

The adapter connects NautilusTrader to a cTrader broker. This project models the parts of it that
keep state across asynchronous steps, page an unreliable venue, infer how the venue limits
requests, or must leave nothing behind in a recorded file, and proves what each of them promises.

| module | what it models |
|---|---|
| `Paging` | the backward paging of historical bars, against a venue given as a function of the request |
| `Outbox` | the order in which reports, activity and order events reach Nautilus |
| `Buffer` | the venue events held while the model of the account is rebuilt |
| `Brackets`, `Amends` | the correcting amends of a bracket, and what an unanswered amend means for the commands it carries |
| `AccountState` | balances by version and margins by update time |
| `Requests` | the answer to a data request, given by its handler or by its task's done-callback |
| `Conversion` | the subscribes of bars that wait for a currency conversion |
| `RateLimits` | the inference of a limiter's allowance and of its window's shape from a probe's timeline |
| `Journal`, `JournalCodec`, `AccountHistory` | the recording journal and its recovery; the paged account history |
| `FirstOrders` | the state machine that places the first orders |
| `Scrub` | the scrubbing of recorded messages |
| `EnvFile` | the update of an environment file and its loading |
| `Wrappers`, `Sets`, `Whitespace` | what the others share |

Code that updates fields is a class. Each of its methods is one step between two awaits, and
`RunAll` in a module takes any sequence of steps, in any order, so what it ensures holds in every
reachable state. Where a property is about the past, a ghost log records what happened, and lemmas
say what the log's invariant means for any two moments of it. What is outside the program is a
parameter: the venue's answers, the order of events, whether a write reaches the disk.

## What is proved

- **Paging** is complete and ends. Against a venue whose pages are newest-first runs cut short
  anywhere, a request with a start gets every bar of its range except those below a bar-free stretch
  longer than the maximum gap; and the loop ends against every venue whatsoever.
- **Outbox.** In every run, what Nautilus was handed followed by what is held is what was submitted,
  in order, and no report overtakes an event that Nautilus still has queued.
- **Buffer.** Between detaches, the events applied followed by those held are those that arrived,
  exactly if no release failed before its last event; after one that did, something is missing for
  good.
- **Brackets.** At most three amends, never two at once; the bracket is always settled while amends
  are answered, and in one round by a broker that sets what it is asked. A bracket that could be
  corrected has a timer or a release coming that settles it, but for three exceptions: a lost amend
  without a timer, a change of the model without a pass, and a failure in the adapter.
- **Requests.** Every exit of the handler answers once, and handler and callback never both answer.
- **Conversion.** No unsubscribe abandons another's subscribe or a later one of its own: whatever is
  still wanted is started, under way, or lost for one of four named causes.
- **Amends.** The outcome is unknown exactly when a send was lost and none was answered, and then no
  command that the amend carried is refused.
- **Account state.** The balance is that of the greatest version since the last connect, and a
  position's margin that of its newest state since the last rebuild, in whatever order they came.
- **Window shape.** A reading fits exactly if each answer and each refusal is what its limiter would
  give; a sliding limiter is never called fixed, and a calendar-second one on the grid never sliding.
  The two-pointer loop finds the exact maximum.
- **Journal.** For every recording, every failed write and every cut of the file, reading gives back
  exactly the whole lines, and a marker exactly if one was torn.
- **Scrubbing.** The messages that scrubbing leaves alone are exactly the clean ones, and what it
  makes is clean; a real identifier is hidden in every message exactly when it is not a value that
  scrubbing itself writes.
- **Env file.** Loading after an update gives the old values overridden by the new ones exactly when
  the values are on one line and have nothing that reading strips.

## Where the code differs from its own text

- `_cash_flow_windows` starts a week before the registration so that an operation at the very
  instant of the registration is listed whichever end of a window the venue includes. Over the cap of
  156 windows it drops the window after the first, and then that instant is listed only if upper
  ends are included: `AccountHistory.RegistrationListed` gives the exact condition and
  `AccountHistory.RegistrationMissed` an instance.
- `update_env_file` refuses a value with a CR or an LF as not being one line, but lets through the
  other characters at which `str.splitlines` breaks, and such a value is not read back:
  `EnvFile.SeparatorSlipsThrough` is an instance, `EnvFile.UpdateLaw` the exact condition.
- The first-orders sequence asks for its second bracket when *a* position of the first entry is
  reported closed, not always the one whose close it asked for: an entry reported to open another
  position meanwhile moves the machine to that one. `FirstOrders.SecondFollowsCloseExactly` gives the
  exact condition, `FirstOrders.OtherCloseSuffices` the runs.
- A lost amend is to be held for a limited time only, by a timer. One lost while other levels were
  asked for gets no timer, and if its levels are then wanted again nothing of the client's own settles
  the bracket: `Brackets.RunAll` says when, `Brackets.Strands` gives the runs.
- The correcting amend of a bracket is to start once its protective order has come. A keep ended by a
  position's deals, a rebuild that stands after the release it joined, a trailing stop the broker moved, an entry found and a leg
  ended by an answer change it without a pass: `Brackets.KeepEndsOverlooked` and
  `Brackets.StandsOverlooked` leave a bracket uncorrected with nothing coming.
- A state older than the one held is to be ignored. A rebuild forgets the times of the states held, so
  a late state brings back the margin of a position closed before it:
  `AccountState.ClosedStaysClosedExactly` gives the exact condition, `AccountState.ClosedComesBack` the
  runs.
- A subscribe waiting for its conversion is to wait until the chain succeeds, it is unsubscribed or
  the client disconnects. An error raised in an attempt of the retry, and an instrument found not
  loaded, end the retry with everyone waiting on it lost: `Conversion.Take` says exactly who is lost,
  `Conversion.RaiseLoses` and `Conversion.UnloadedLoses` give the runs.

## Model

| member | source | states |
|---|---|---|
| `Paging.PageCovers` | src/nautilus_ctrader/data.py:1471-1525 | An honest page leaves no bar in range uncollected above the point it reached, even when it serves only the bar at its own end. |
| `Paging.CutOffAccounts` | src/nautilus_ctrader/data.py:1471-1525 | Stopping at the gap cut-off leaves out only bars below a bar-free stretch longer than the maximum gap. |
| `Paging.StartReached` | src/nautilus_ctrader/data.py:1471-1525 | Stopping at the start leaves out nothing of the range. |
| `Paging.Round` | src/nautilus_ctrader/data.py:1471-1525 | One page: the bars kept stay in range and hole-free, and how far back the page reached. |
| `Paging.Progress` | src/nautilus_ctrader/data.py:1471-1525 | A round that goes on lowers the lexicographic measure: closed bars wanted, oldest bar served, distance to the cut-off; for any page at all. |
| `Paging.Stop` | src/nautilus_ctrader/data.py:1505-1525 | When the loop stops, each missing bar is accounted for; when it goes on, none of the bounds is met. |
| `Paging.PageTrendbars` | src/nautilus_ctrader/data.py:1430-1526 | Ends for every venue; fails exactly if the last page asked for failed; without start and limit asks once, otherwise backwards; the result ascends, is duplicate-free, in range and first served first kept; with an honest venue it has no hole, and with a start (or a limit, for a venue that counts back) what it lacks is below an over-long gap or beyond the limit. |
| `Paging.HistoricalBars` | src/nautilus_ctrader/data.py:1387-1428 | Fails exactly if a page did; otherwise exactly the newest `limit` closed bars of what was served in the range, and with an honest venue of the range itself, or all if fewer; the forming bar never takes a closed one's place. |
| `Paging.FetchBarRange` | src/nautilus_ctrader/data.py:1547-1561 | Fails exactly if a page did; otherwise has every bar of the inclusive range, and none outside it when a bar opens at its end. |
| `Requests.Client.Submit` | src/nautilus_ctrader/data.py:505-538 | A new request is unclaimed while its task has not started; without a task nothing is left behind. |
| `Requests.Client.Begin` | src/nautilus_ctrader/data.py:1332-1364 | A task cancelled before its first step claims and answers nothing; any other claims the request and fails it, suspends or ends. |
| `Requests.Client.Resume` | src/nautilus_ctrader/data.py:1365-1385 | A cancellation is delivered at the await; a handler that ends, however it ends, is finished and has claimed its request. |
| `Requests.Client.Done` | src/nautilus_ctrader/data.py:544-550 | The callback answers exactly the requests nobody claimed. |
| `Requests.RunAll` | src/nautilus_ctrader/data.py:505-550 | In every interleaving each request with a task is answered at most once, and exactly once when its task is over: by the handler if it claimed, else by the callback; a cancelled one is told that the connection closed. |
| `Requests.Client.Claim` | src/nautilus_ctrader/data.py:1338-1360 | The three checks before the await: the request is taken first, and answered once exactly if one of them fails it. |
| `Requests.Client.Conclude` | src/nautilus_ctrader/data.py:1362-1385 | Every exit from the await on answers exactly once: with bars exactly if they were returned, and never with bars and a failure; only bugs and cancellations are raised again. |
| `Conversion.StartedOnlyWanted` | src/nautilus_ctrader/data.py:794-942 | No subscribe is started after its consumer unsubscribed, and one given up as unwanted was withdrawn after it was made. |
| `Conversion.StartedWasMade` | src/nautilus_ctrader/data.py:794-942 | Each venue subscription goes back to a subscribe not withdrawn in between. |
| `Conversion.Client.Subscribe` | src/nautilus_ctrader/data.py:794-845 | Joins the running retry in its consumer's place, or converts the chain itself under a marker of its own. |
| `Conversion.Client.ConversionEnds` | src/nautilus_ctrader/data.py:794-845 | An unwanted subscribe is given up; a wanted one starts, joins the running retry or a new sleeping one if refused, or is lost with the cause; says exactly the retry, the log and what is lost. |
| `Conversion.Client.CompleteOne` | src/nautilus_ctrader/data.py:876-889 | Starts one waiting consumer and leaves the others waiting. |
| `Conversion.Client.InstrumentGone` | src/nautilus_ctrader/data.py:847-858 | The retry ends when its instrument is not loaded any more, and those waiting are lost. |
| `Conversion.Client.AttemptEnds` | src/nautilus_ctrader/data.py:847-874 | Goes on after a refusal with somebody waiting, completes a usable chain, and otherwise is over with everyone waiting lost, and the cause. |
| `Conversion.Client.Unsubscribe` | src/nautilus_ctrader/data.py:891-903 | Takes every marker and place of its consumer away, no place of another consumer, and loses nothing. |
| `Conversion.Client.Restart` | src/nautilus_ctrader/data.py:371-389 | Every subscribe so far is forgotten, those in the middle of an await too. |
| `Conversion.RunAll` | src/nautilus_ctrader/data.py:794-942 | Over every interleaving: only wanted subscribes start; each subscribe not withdrawn since is started, converting, waiting on a running retry or lost, or gave its place to another of its consumer that is; and nothing is lost without a dropped instrument, an error or a disconnect. |
| `Conversion.Take` | src/nautilus_ctrader/data.py:794-942 | Each step adds to the lost subscribes exactly those its state before says: a wanted one whose conversion fails so, or everyone waiting on the retry. |
| `Conversion.RaiseLoses` | src/nautilus_ctrader/data.py:847-874 | For every consumer, a run in which an error in an attempt loses a subscribe that is still wanted. |
| `Conversion.UnloadedLoses` | src/nautilus_ctrader/data.py:847-858 | The same with an instrument found not loaded. |
| `Outbox.NothingOvertaken` | src/nautilus_ctrader/execution.py:1993-2050 | In an ordered log no report or activity is handed over while an earlier event is awaited. |
| `Outbox.Client.CheckUnapplied` | src/nautilus_ctrader/execution.py:1961-1965 | Forgets exactly the events that Nautilus applied or whose order it does not know. |
| `Outbox.FoundedAt` | src/nautilus_ctrader/execution.py:1948-1965 | Wherever a log says that an event was settled, the log before it has that event applied, or its order not known then. |
| `Outbox.Client.SendOrderEvent` | src/nautilus_ctrader/execution.py:1913-1932 | Sent and awaited at once, or deferred behind what is held. |
| `Outbox.Client.HandleRecord` | src/nautilus_ctrader/execution.py:2058-2084 | A record is handed over; a node's own order sends its events. |
| `Outbox.Client.HandleRecords` | src/nautilus_ctrader/execution.py:1993-2010 | All records join the submitted sequence in their order. |
| `Outbox.Client.DeliverReady` | src/nautilus_ctrader/execution.py:2012-2050 | At least one held item is handed over, and none behind an event just sent. |
| `Outbox.Client.DeliverRound` | src/nautilus_ctrader/execution.py:2012-2050 | Awaits exactly while an event is unapplied; otherwise the outbox shrinks. |
| `Outbox.Client.Deliver` | src/nautilus_ctrader/execution.py:2012-2050 | Ends only with the outbox empty, and awaits only while an event is unapplied. |
| `Outbox.Client.Expire` | src/nautilus_ctrader/execution.py:1940-1946 | Gives up on one event and wakes a delivery that waits. |
| `Outbox.Client.Detach` | src/nautilus_ctrader/execution.py:675-723 | Drops only the held records and still sends every deferred own event in order. |
| `Outbox.RunAll` | src/nautilus_ctrader/execution.py:1913-2056 | In every run: handed over plus held equals submitted, and the records submitted are those given; no report overtakes an event before it was settled, given up or detached; an event is settled only once Nautilus has applied it or does not know its order, read off what Nautilus did; a non-empty outbox has a task that will run. |
| `Buffer.Client.Arrive` | src/nautilus_ctrader/execution.py:1855-1900 | An event is applied, or held behind the ones held before it. |
| `Buffer.Client.Hold` | src/nautilus_ctrader/execution.py:1341-1347 | A rebuild that joins another loses none of what is held. |
| `Buffer.Client.Release` | src/nautilus_ctrader/execution.py:1420-1451 | Applies what is held once and in order, up to the event it fails on; something is lost exactly if that is not the last. |
| `Buffer.Client.Reconciled` | src/nautilus_ctrader/execution.py:1365-1369 | The awaited status releases what is held, once; any other changes nothing. |
| `Buffer.Client.Detach` | src/nautilus_ctrader/execution.py:675-723 | What is held is dropped; the model keeps what it was given. |
| `Buffer.RunAttached` | src/nautilus_ctrader/execution.py:1341-1451 | Between detaches, over any interleaving and any failing releases: applied plus held equals arrived exactly if no release was cut, and is shorter for good if one was. |
| `Brackets.WantedIsHeld` | src/nautilus_ctrader/execution.py:3495-3508 | The wanted levels equal the broker's exactly when it holds every live leg at its price and no cancelled one. |
| `Brackets.WantedIsFixpoint` | src/nautilus_ctrader/execution.py:3495-3508 | Once the wanted levels are set, nothing more is wanted. |
| `Brackets.Bracket.Settle` | src/nautilus_ctrader/execution.py:3435-3486 | Ends as closed exactly if the position is known, not open and every leg has ended, and as done exactly if the broker holds what was asked; goes past a position only created; else one amend, a hold while the same levels are unanswered, a refusal after three rounds or a rebuild if the last answer was lost. |
| `Brackets.Bracket.Begin` | src/nautilus_ctrader/execution.py:3510-3521 | What is sent is what is wanted of the position as it is when its turn comes, under a token that no lost or held send has; nothing is sent if it is not open or holds what was asked. |
| `Brackets.Bracket.End` | src/nautilus_ctrader/execution.py:3510-3537 | An answer settles again, a refusal ends the bracket, a lost answer is held. |
| `Brackets.Bracket.HoldEnds` | src/nautilus_ctrader/execution.py:3539-3564 | The timer of an older lost send never releases a newer one. |
| `Brackets.Bracket.RebuildEnds` | src/nautilus_ctrader/execution.py:3596-3670 | A rebuild settles the bracket, stashes it if it kept the position, leaves a timer if it failed, and leaves it pending if it was held off or the client detached. |
| `Brackets.Bracket.Released` | src/nautilus_ctrader/execution.py:1420-1451 | Lets a lost amend be repeated and settles again, only if a buffer is held, the client is attached and applying what was held does not raise; otherwise it changes nothing of the bracket. |
| `Brackets.RunAll` | src/nautilus_ctrader/execution.py:3435-3564 | In every run what is asked for is what the steps last asked; a bracket ends as closed or done only if its last pass saw it so; at most three amends are started and never two tasks are under way; and a bracket that could be corrected and is not has a timer or a release coming, except where the levels wanted are those of a lost amend without a timer, or since the last pass the model changed without one or the adapter failed; without such steps in the run only the first exception is left. |
| `Brackets.Strands` | src/nautilus_ctrader/execution.py:3510-3564 | The first exception: for every view and pair of wishes, a run that leaves a bracket to nothing but a late answer or another rebuild. |
| `Brackets.KeepEndsOverlooked` | src/nautilus_ctrader/execution.py:2575-2582 | The second, for every view and wish: a kept position whose deals show it open ends its keep without a pass, with the lost amend forgotten and its timer spent. |
| `Brackets.StandsOverlooked` | src/nautilus_ctrader/execution.py:1420-1436 | The second, for every view: a rebuild that joined another stands after that one's release, and its own release settles nothing. |
| `Brackets.SettlesWhenAnswered` | src/nautilus_ctrader/execution.py:3435-3537 | While amends are answered and the position can be reached, the bracket always ends, whatever the broker sets and whatever is asked meanwhile. |
| `Brackets.SettlesInOneRound` | src/nautilus_ctrader/execution.py:3435-3537 | A broker that sets exactly what was asked ends it as done after one round. |
| `Amends.SendAmend` | src/nautilus_ctrader/execution.py:3387-3424 | At most three sends, and another only after a lost or retryable one; unknown exactly if one was lost and none answered, answered exactly if one was, refused exactly if the last is a refusal that ends it and none was lost. |
| `Amends.AmendLegs` | src/nautilus_ctrader/execution.py:2769-2850 | A lost and never answered amend refuses no cancel and no live move; an answered one refuses exactly the cancels whose level the model then shows and the moves the answer does not state; a refused one, a position gone or not open and an instrument not loaded refuse everything. |
| `Amends.Guarded` | src/nautilus_ctrader/execution.py:2757-2767 | With the guard that refuses everything on a failure, a lost amend still refuses nothing it carried, and one neither lost nor answered refuses everything. |
| `AccountState.Account.SetBalance` | src/nautilus_ctrader/execution.py:1774-1787 | The balance follows its specification; says exactly whether it changed. |
| `AccountState.Account.SetMargin` | src/nautilus_ctrader/execution.py:1747-1764 | The margins follow their specification; says exactly whether they changed. |
| `AccountState.Account.MarginChanged` | src/nautilus_ctrader/execution.py:1817-1827 | Changes only the amount of a margin already held. |
| `AccountState.GreatestVersionHeld` | src/nautilus_ctrader/execution.py:1774-1787 | After any versioned reports and connects the balance is that of the greatest version since the last connect. |
| `AccountState.BalancesConfluent` | src/nautilus_ctrader/execution.py:1774-1787 | Any reordering of one connection's reports that agree per version gives the same balance. |
| `AccountState.OlderAfterConnect` | src/nautilus_ctrader/execution.py:606-614 | Across a connect an older version is taken. |
| `AccountState.NewestStateHeld` | src/nautilus_ctrader/execution.py:1747-1764 | After any states, margin changes and rebuilds, a position's margin is that of its newest state among the last rebuild's snapshot and the states since, but for a change of the margin alone. |
| `AccountState.Account.Rebuild` | src/nautilus_ctrader/execution.py:1701-1704 | A rebuild forgets every margin and time and takes those of its snapshot. |
| `AccountState.HeldExactly` | src/nautilus_ctrader/execution.py:1747-1764 | A position has a margin exactly if its newest state that counts is open. |
| `AccountState.ClosedStaysClosedExactly` | src/nautilus_ctrader/execution.py:1701-1764 | A closed position stays without a margin against older states and margin changes exactly if no rebuild came since, or the newest of the states since that rebuild is not open. |
| `AccountState.ClosedComesBack` | src/nautilus_ctrader/execution.py:1701-1764 | The runs in which it does not: closed, forgotten by a rebuild, and back with a late state. |
| `RateLimits.MostWithin` | scripts/verify_rate_limits.py:904-913 | The exact maximum over all intervals shorter than the span. |
| `RateLimits.ComputeFitsSliding` | scripts/verify_rate_limits.py:926-942 | Decides the sliding reading over all intervals. |
| `RateLimits.InferWindowShape` | scripts/verify_rate_limits.py:965-993 | Names a shape exactly when its reading alone fits every stream; what fitting means is in the two rows below. |
| `RateLimits.FitsSlidingExactly` | scripts/verify_rate_limits.py:926-942 | The same for the sliding reading, over the last 0.95 seconds for an answer and the last 1.05 for a refusal. |
| `RateLimits.FitsFixedExactly` | scripts/verify_rate_limits.py:945-962 | For distinct times, the fixed reading fits exactly if every answered request has fewer than the allowance answered before it in its calendar second, and every refusal that no retry-after announced at least the allowance. |
| `RateLimits.NamesSliding` | scripts/verify_rate_limits.py:965-993 | A trace that is called sliding. |
| `RateLimits.NamesFixed` | scripts/verify_rate_limits.py:965-993 | A trace that is called fixed. |
| `RateLimits.SlidingTraceFits` | scripts/verify_rate_limits.py:926-942 | Every trace of a sliding limiter with delays within the tolerance fits the sliding reading. |
| `RateLimits.CalendarTraceFits` | scripts/verify_rate_limits.py:945-962 | Every skew-free trace of a calendar-second limiter fits the fixed reading at its phase. |
| `RateLimits.InferBehindSliding` | scripts/verify_rate_limits.py:965-993 | Behind a sliding limiter the shape is never fixed. |
| `RateLimits.InferBehindCalendar` | scripts/verify_rate_limits.py:965-993 | Behind a calendar-second limiter on the grid the shape is never sliding. |
| `RateLimits.InferAllowance` | scripts/verify_rate_limits.py:882-901 | A number exactly when one and only one explains every burst, and then that one. |
| `Journal.ReadJournal` | scripts/record_execution.py:956-989 | The reading loop: header and format, names, entries, and a torn last line; what it reads is in the rows below. |
| `Journal.ReadsExactly` | scripts/record_execution.py:956-989 | A file reads exactly if its first line is a header of format 1 with a money shift and each line after it reads as an entry, a name or, at the end, a torn line. |
| `Journal.ReadCut` | scripts/record_execution.py:956-989 | For every cut of a journal, reading gives the header's data and the names and entries of its whole lines, and one torn marker at the last entry's time exactly if a line was torn; it fails exactly without the whole header. |
| `Journal.Recording.Append` | scripts/record_execution.py:919-939 | The file grows by the items, or by a first part of them and then never again; a failure is marked once. |
| `Journal.Recording.AddName` | scripts/record_execution.py:655-661 | A new proper name is journaled once the header is written; the header carries it before that. |
| `Journal.Recording.Add` | scripts/record_execution.py:663-675 | The entry joins the timeline and the journal, the first one behind the header. |
| `Journal.RunAll` | scripts/record_execution.py:868-953 | Every sequence of additions, failures, closes and removals keeps the file in step with the recording, whose names and entries are those added, and one marker if a write failed. |
| `Journal.NothingRecovered` | scripts/record_execution.py:956-968 | Without the whole header reading fails. |
| `Journal.Recovery` | scripts/record_execution.py:868-989 | From any reachable recording and any cut with the whole header: exactly its first names and entries, those of the whole lines, and behind them one torn marker at the last entry's time exactly if a line was torn. |
| `JournalCodec.CodecExists` | scripts/record_execution.py:842-865 | What the journal theorems assume of JSON can be met, by a codec given in full. |
| `Journal.RoundTrip` | scripts/record_execution.py:868-989 | An uncut journal without a failed write gives back everything journaled. |
| `Journal.RoundTripWhileOpen` | scripts/record_execution.py:842-865 | It gives back the recording itself exactly if only markers are flagged as typed. |
| `AccountHistory.NextWindowCovers` | scripts/record_execution.py:1415-1434 | Each window strictly narrows, and page plus next window hold every deal of the window. |
| `AccountHistory.NarrowedExactly` | scripts/record_execution.py:1415-1434 | Exactly when a window cannot be narrowed, and from which end it is otherwise. |
| `AccountHistory.ReadDeals` | scripts/record_execution.py:1345-1363 | At most fifty windows, each narrowed from the one before by its page; marked exactly if the last page failed, or has more and cannot be narrowed or is the fiftieth; unmarked, every deal since the registration was read. |
| `AccountHistory.CashFlowWindows` | scripts/record_execution.py:1382-1402 | At most 156 windows of at most a week each; says exactly whether some were left out. |
| `AccountHistory.WindowsCover` | scripts/record_execution.py:1382-1402 | With none left out they share edges and cover every instant up to now. |
| `AccountHistory.LatestWindowsCover` | scripts/record_execution.py:1382-1402 | With some left out the latest 154 weeks are covered. |
| `AccountHistory.RegistrationListed` | scripts/record_execution.py:1382-1402 | The registration's own instant is always listed from above, and from below exactly if no more windows are needed than the cap. |
| `AccountHistory.RegistrationMissed` | scripts/record_execution.py:1382-1402 | An account for which it is not listed from below. |
| `FirstOrders.Steps.On` | scripts/first_orders.py:237-265 | Refines the transition function `Next`, about which the lemmas below are. |
| `FirstOrders.RunWithinBudget` | scripts/first_orders.py:213-371 | For every event sequence at most two brackets, one leg cancel, two closes; one `Done`, exactly when finished. |
| `FirstOrders.RunMovesForward` | scripts/first_orders.py:213-371 | The stage never goes back. |
| `FirstOrders.RunEndsFinished` | scripts/first_orders.py:237-258 | Once finished, nothing more is asked for. |
| `FirstOrders.DoneComesLast` | scripts/first_orders.py:369-371 | `Done` is the last action of a finished run and no action of any other. |
| `FirstOrders.ActsOnLatest` | scripts/first_orders.py:275-336 | In every run the machine holds the latest bracket and the position its entry opened last. |
| `FirstOrders.ClosesOnlyOwn` | scripts/first_orders.py:305-367 | A close names only the position that the latest bracket's entry opened last. |
| `FirstOrders.BracketsOnlyInTurn` | scripts/first_orders.py:260-329 | Told from what was asked for and reported: a bracket is asked for exactly at the first quote, and at the close of the latest position once one bracket and one close have been asked for. |
| `FirstOrders.BracketsAsPlanned` | scripts/first_orders.py:260-273 | Each bracket asked for is of its planned quantity, its levels at the planned distance from the last ask. |
| `FirstOrders.CancelsExactly` | scripts/first_orders.py:275-309 | Told from what was asked for and reported: the take-profit is cancelled exactly when both legs of the first bracket are accepted. |
| `FirstOrders.PromptsExactly` | scripts/first_orders.py:275-320 | The changes by hand are prompted for exactly when both legs of the second bracket are accepted. |
| `FirstOrders.ClosesExactly` | scripts/first_orders.py:305-367 | A position is closed exactly when the first take-profit ends cancelled or the changes by hand are over, and it is the latest one. |
| `FirstOrders.EndsExactly` | scripts/first_orders.py:260-371 | The sequence ends exactly on a refusal, an entry that ends, any close but the first, or with nothing to close. |
| `FirstOrders.SecondFollowsCloseExactly` | scripts/first_orders.py:275-329 | For every event sequence: what asks for the second bracket reports closed the position whose close was asked for, exactly if the latest position told is that one or none. |
| `FirstOrders.SecondFollowsClose` | scripts/first_orders.py:275-329 | So it does whenever, since that close, no bracket was submitted and the entry opened no other position. |
| `FirstOrders.OtherCloseSuffices` | scripts/first_orders.py:275-329 | Otherwise it need not: the close of any other position the entry is reported to have opened asks for it too. |
| `Scrub.KeptExactly` | scripts/record_fixtures.py:233-239 | A text is left as it is exactly if each of its digit runs is mapped to itself. |
| `Scrub.RunReplaced` | scripts/record_fixtures.py:233-239 | Each whole digit run becomes its fake or the placeholder, independently of what follows. |
| `Scrub.FakesExactly` | scripts/record_fixtures.py:191-230 | The fakes are for the texts of the identifiers and of nothing else. |
| `Scrub.ScrubbedIsClean` | scripts/record_fixtures.py:270-317 | Whatever the ids, a scrubbed message is clean at every depth. |
| `Scrub.ScrubsExactly` | scripts/record_fixtures.py:270-317 | Scrubbing raises exactly if some field, at any depth, refuses the value put in it. |
| `Scrub.IntsSwept` | scripts/record_fixtures.py:270-317 | In a field of whole numbers exactly the identifiers are replaced, by their fakes. |
| `Scrub.TextsSwept` | scripts/record_fixtures.py:270-317 | A private text is replaced whole, a kept one stays, and any other loses its numbers. |
| `Scrub.UnchangedExactly` | scripts/record_fixtures.py:191-230 | Scrubbing leaves exactly the clean messages as they are. |
| `Scrub.RescrubUnchanged` | scripts/record_fixtures.py:714-731 | Scrubbing a scrubbed message again with the fake ids changes nothing. |
| `Scrub.CleanFieldStays` | scripts/record_fixtures.py:270-317 | A clean field stays in its place whatever is hidden beside it. |
| `Scrub.ScrubbedTextPasses` | scripts/record_fixtures.py:248-261 | The check of free text never raises on a scrubbed message. |
| `Scrub.HiddenExactly` | scripts/record_fixtures.py:270-317 | A real id is hidden in every message exactly if scrubbing does not itself write that number. |
| `EnvFile.KeysAgree` | scripts/get_tokens.py:86-149 | The updater and the loader read the same identifier from every line. |
| `EnvFile.LoadEnv` | scripts/get_tokens.py:95-111 | The loop reads what the lines say, the last one winning. |
| `EnvFile.EntryExactly` | scripts/get_tokens.py:86-111 | Which lines are read, and as what key and value. |
| `EnvFile.ReplaceLines` | scripts/get_tokens.py:117-149 | The loop replaces every line that assigns an updated key. |
| `EnvFile.AppendMissing` | scripts/get_tokens.py:117-149 | The loop appends the keys no line assigned, in their order. |
| `EnvFile.UpdateEnvFile` | scripts/get_tokens.py:117-149 | The updated text, or none for a value with a CR or an LF. |
| `EnvFile.RefusedExactly` | scripts/get_tokens.py:117-149 | It is refused exactly if some value holds a CR or an LF. |
| `EnvFile.UpdateLaw` | scripts/get_tokens.py:86-149 | Loading after an update gives the old map overridden by the updates exactly if the values are on one line and read back as they are. |
| `EnvFile.CleanExactly` | scripts/get_tokens.py:95-111 | A value reads back as it is exactly without outer whitespace and without a pair of quotes. |
| `EnvFile.QuotedReads` | scripts/get_tokens.py:95-111 | Whatever is inside a pair of quotes reads back as it is. |
| `EnvFile.SeparatorSlipsThrough` | scripts/get_tokens.py:117-149 | A value that is let through and not read back. |
| `EnvFile.UpdatedLinesKeep` | scripts/get_tokens.py:117-149 | All other lines stay in order, every duplicate assignment is replaced, and updating lines again changes nothing. |
| `EnvFile.ReplacedAt` | scripts/get_tokens.py:117-149 | Line by line: replaced if it assigns an updated key, otherwise as it was. |
| `EnvFile.UpdateTwice` | scripts/get_tokens.py:117-149 | Repeating an update changes nothing in the file, line endings included. |
| `EnvFile.EndingsKept` | scripts/get_tokens.py:117-149 | A file with CRLF keeps it and one without gets none. |

## Left out

- Sockets, TLS, the scheduling inside asyncio, protobuf classes, logging and the message bus: they are steps and outcomes here.
- `VenueBook`, `OperationsInFlight`, the subscription registry, `BarCloser`, sessions, reconciliation and report building: only what the modelled code reads from them is kept.
- Token flow, discovery, configuration, factories, live probes, command lines and text reports: they would add only facts settled by one branch.
- Paging.PageTrendbars: the maximum gap is a number of whole seconds, the log line for a cut page is not modelled, and a page that fails or cannot be converted fails the request. A limited request without a start is complete only for a venue that counts bars back from the end it is given, which is what the code relies on.
- Requests.RunAll: one task per request; a request given several tasks is not modelled. An answer counts as given when it is handed to the base class, whose own failure in sending it is not modelled. Of the handlers, that of bars is modelled.
- Conversion.RunAll: one instrument, so one retry and one set of markers; the code keeps one of each per instrument. A venue subscription counts as started when it is asked for, whatever the venue answers.
- Outbox.RunAll: a handler of Nautilus that calls back into the client while it is handed an item is not modelled.
- Outbox.Client.HandleRecord: a record counts as handed over when its handler ran; an exception in it is logged and swallowed by the code, which then goes on with the next item as here.
- Brackets.RunAll: one bracket, since the loop treats each by itself; the answers that its ending sends, and those of `_answer_as_held`, are not modelled. A late answer of the broker is a change of the view.
- RateLimits.SlidingTraceFits: times are real numbers, so floating-point rounding at a window's edge is not modelled.
- AccountState.Account.SetMargin: amounts are integers in the account's money digits.
- Journal.Recovery: JSON is a parameter with three assumptions: an object is written on one line, reads back, and no proper first part of it reads; `JournalCodec` shows that they can be met, not that `json` meets them. Times are whole milliseconds. Message serialization is the identity.
- Journal.Recording.Append: a file that exists already is one that cannot be opened, and is left alone.
- Scrub.ScrubbedIsClean: messages are values, so the update in place of the copy that `scrub` makes is not modelled; nor is a `clean_text` other than the default one, nor fields unknown to the schema, which are discarded first.
- EnvFile.UpdateEnvFile: the text transformation only, without the byte order mark, the atomic replacement and the file's mode.
