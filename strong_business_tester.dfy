/** The strong-business screen: two pass/fail predicates over fetched financial
 *  series, the freshness rule that skips a symbol screened less than 365 days
 *  ago, and the per-symbol sequence that ties them to the freshness store.
 *
 *  What the market-data provider would return is passed in as a `Fetch`: the
 *  free-cash-flow values or the debt/equity ratios as a sequence of reals, or
 *  the error the fetch raises. The current time is passed in as a timestamp.
 */
module StrongBusinessTester {
  import opened Database

  /** Microseconds in one day. */
  const MicrosPerDay: int := 86_400_000_000

  /** A symbol screened fewer than this many whole days ago is skipped. */
  const FreshnessDays: int := 365

  /** Default bound every debt/equity ratio must stay strictly below. */
  const DefaultDebtRatioThreshold: real := 2.4

  /** Every annual free-cash-flow value is strictly positive (vacuously so for
   *  an empty series), checked value by value as `all(...)` does. */
  function HasConsecutivePositiveFcf(fcf: seq<real>): (ok: bool)
    ensures ok <==> forall i :: 0 <= i < |fcf| ==> fcf[i] > 0.0
  {
    |fcf| == 0 || (fcf[0] > 0.0 && HasConsecutivePositiveFcf(fcf[1..]))
  }

  /** Every debt/equity ratio is strictly below `threshold` (vacuously so for an
   *  empty series). */
  function HasConsistentlyLowDebtRatios(values: seq<real>, threshold: real): (ok: bool)
    ensures ok <==> forall i :: 0 <= i < |values| ==> values[i] < threshold
  {
    |values| == 0 || (values[0] < threshold && HasConsistentlyLowDebtRatios(values[1..], threshold))
  }

  /** The balance-sheet test: the quarterly debt/equity ratios are all below
   *  the default threshold. */
  function HasStrongBalanceSheet(ratios: seq<real>): (ok: bool)
    ensures ok <==> forall i :: 0 <= i < |ratios| ==> ratios[i] < 2.4
  {
    HasConsistentlyLowDebtRatios(ratios, DefaultDebtRatioThreshold)
  }

  /** Whole days from `testedAt` to `now`, rounded down as `timedelta.days`
   *  does (negative when `testedAt` lies in the future). */
  function ElapsedDays(now: Timestamp, testedAt: Timestamp): (days: int)
    ensures days * MicrosPerDay <= now - testedAt < (days + 1) * MicrosPerDay
  {
    (now - testedAt) / MicrosPerDay
  }

  /** The freshness rule applied to the rows a read returned: there is a first
   *  row, and fewer than 365 whole days have passed since its timestamp. */
  function Processed(rows: seq<Row>, now: Timestamp): bool
  {
    |rows| > 0 && ElapsedDays(now, rows[0].testedAt) < FreshnessDays
  }

  /** `symbol` has a row in `m` whose timestamp is fewer than 365 whole days
   *  before `now`. */
  predicate IsFresh(m: map<string, Timestamp>, symbol: string, now: Timestamp)
  {
    symbol in m && ElapsedDays(now, m[symbol]) < FreshnessDays
  }

  /** The freshness rule in ticks: fewer than 365 whole days have passed exactly
   *  when fewer than 365 days' worth of microseconds have. */
  lemma FreshWithinWindow(m: map<string, Timestamp>, symbol: string, now: Timestamp)
    ensures IsFresh(m, symbol, now) <==> symbol in m && now - m[symbol] < FreshnessDays * MicrosPerDay
  {
  }

  /** Reads the row of `symbol` and applies the freshness rule to the first row
   *  returned. For a non-empty symbol that is the symbol's own row. An empty
   *  symbol reads the whole table, so the answer then comes from whichever row
   *  the scan returns first. */
  method HasProcessed(db: DatabaseManager, symbol: string, now: Timestamp) returns (processed: bool)
    requires db.hasTable
    ensures symbol != "" ==> processed == IsFresh(db.stocks, symbol, now)
    ensures symbol == "" ==> (processed ==> exists k :: IsFresh(db.stocks, k, now))
    ensures symbol == "" && db.stocks == map[] ==> !processed
  {
    var rows := db.ReadData(symbol);
    processed := Processed(rows, now);
    if symbol == "" && processed {
      assert IsFresh(db.stocks, rows[0].symbol, now);
    }
  }

  /** What one market-data fetch gives: the series, or an error raised while
   *  fetching or reshaping it (an error string in place of the table, a
   *  missing column). */
  datatype Fetch = Fetched(values: seq<real>) | FetchError

  /** Where the screen of one symbol stops. */
  datatype Verdict =
    | AlreadyProcessed   // screened within the freshness window: skipped
    | FetchFailed        // a fetch raised; the screen is aborted
    | NoPositiveFcf      // some annual free cash flow is not positive
    | WeakBalanceSheet   // some debt/equity ratio is at or above the threshold
    | StrongBusiness     // passed every test

  /** The checks in their order, each consulted (and its series fetched) only
   *  when every earlier one passed. */
  function Evaluate(processed: bool, fcf: Fetch, ratios: Fetch): Verdict
  {
    if processed then AlreadyProcessed
    else if fcf.FetchError? then FetchFailed
    else if !HasConsecutivePositiveFcf(fcf.values) then NoPositiveFcf
    else if ratios.FetchError? then FetchFailed
    else if !HasStrongBalanceSheet(ratios.values) then WeakBalanceSheet
    else StrongBusiness
  }

  /** How a call of the screen ends: it returns a boolean, or the fetch's error
   *  propagates out of it. */
  datatype Outcome = Returns(strong: bool) | Raises

  /** The outcome a verdict produces: an aborted screen raises, every other
   *  one returns whether the business is strong. */
  function OutcomeOf(v: Verdict): (o: Outcome)
    ensures o == Raises <==> v == FetchFailed
    ensures o == Returns(true) <==> v == StrongBusiness
  {
    if v == FetchFailed then Raises else Returns(v == StrongBusiness)
  }

  /** The store after a screen with verdict `v`: untouched when the symbol was
   *  skipped, otherwise with the symbol inserted at `now` before the checks,
   *  so also when a later fetch raised. */
  function StoreAfter(m: map<string, Timestamp>, symbol: string, now: Timestamp, v: Verdict): map<string, Timestamp>
  {
    if v == AlreadyProcessed then m else Inserted(m, symbol, now)
  }

  /** A symbol not screened recently is strong exactly when all its free cash
   *  flows are positive and all its debt/equity ratios are below 2.4. */
  lemma StrongIffBothChecksPass(fcf: seq<real>, ratios: seq<real>)
    ensures Evaluate(false, Fetched(fcf), Fetched(ratios)) == StrongBusiness <==>
              (forall i :: 0 <= i < |fcf| ==> fcf[i] > 0.0) &&
              (forall i :: 0 <= i < |ratios| ==> ratios[i] < 2.4)
  {
  }

  /** A failing free-cash-flow check decides the outcome: the balance sheet is
   *  never consulted, so not even a balance-sheet fetch that would raise
   *  matters. */
  lemma FcfFailureSkipsBalanceSheet(fcf: seq<real>, ratios: Fetch, other: Fetch)
    requires exists i :: 0 <= i < |fcf| && fcf[i] <= 0.0
    ensures Evaluate(false, Fetched(fcf), ratios) == NoPositiveFcf
    ensures Evaluate(false, Fetched(fcf), ratios) == Evaluate(false, Fetched(fcf), other)
  {
  }

  /** A symbol screened recently is skipped and the store is left as it was. */
  lemma FreshSymbolSkipped(m: map<string, Timestamp>, symbol: string, now: Timestamp, fcf: Fetch, ratios: Fetch)
    requires IsFresh(m, symbol, now)
    ensures Evaluate(IsFresh(m, symbol, now), fcf, ratios) == AlreadyProcessed
    ensures StoreAfter(m, symbol, now, Evaluate(IsFresh(m, symbol, now), fcf, ratios)) == m
  {
  }

  /** Whatever the verdict, the store holds the symbol afterwards, and no other
   *  row changes. */
  lemma ScreenRecordsSymbol(m: map<string, Timestamp>, symbol: string, now: Timestamp, fcf: Fetch, ratios: Fetch)
    ensures var after := StoreAfter(m, symbol, now, Evaluate(IsFresh(m, symbol, now), fcf, ratios));
      && symbol in after
      && after.Keys == m.Keys + {symbol}
      && forall k :: k in m ==> after[k] == m[k]
  {
  }

  /** A symbol screened for the first time is skipped, store untouched, by any
   *  screen in the following 365 days. */
  lemma FirstScreenOpensWindow(m: map<string, Timestamp>, symbol: string, now: Timestamp, later: Timestamp,
                               fcf: Fetch, ratios: Fetch, fcf': Fetch, ratios': Fetch)
    requires symbol !in m
    requires now <= later < now + FreshnessDays * MicrosPerDay
    ensures var m1 := StoreAfter(m, symbol, now, Evaluate(IsFresh(m, symbol, now), fcf, ratios));
      && Evaluate(IsFresh(m1, symbol, later), fcf', ratios') == AlreadyProcessed
      && StoreAfter(m1, symbol, later, Evaluate(IsFresh(m1, symbol, later), fcf', ratios')) == m1
  {
  }

  /** A screen that raises still leaves the symbol recorded, since the insert
   *  comes before the fetches: a symbol seen for the first time is then
   *  skipped by every screen of the next 365 days, without ever having been
   *  judged. */
  lemma AbortedScreenStillRecordsSymbol(m: map<string, Timestamp>, symbol: string, now: Timestamp, later: Timestamp,
                                        fcf: Fetch, ratios: Fetch, fcf': Fetch, ratios': Fetch)
    requires symbol !in m
    requires OutcomeOf(Evaluate(false, fcf, ratios)) == Raises
    requires now <= later < now + FreshnessDays * MicrosPerDay
    ensures var m1 := StoreAfter(m, symbol, now, Evaluate(IsFresh(m, symbol, now), fcf, ratios));
      && symbol in m1 && m1[symbol] == now
      && OutcomeOf(Evaluate(IsFresh(m1, symbol, later), fcf', ratios')) == Returns(false)
  {
  }

  /** As written: a symbol whose row is older than the window is screened again,
   *  but the insert that should record the new screen hits the primary key and
   *  is dropped, so the old timestamp stays and every later run screens the
   *  symbol again. */
  lemma StaleEntryNeverRearmed(m: map<string, Timestamp>, symbol: string, now: Timestamp, fcf: Fetch, ratios: Fetch)
    requires symbol in m && !IsFresh(m, symbol, now)
    ensures Evaluate(IsFresh(m, symbol, now), fcf, ratios) != AlreadyProcessed
    ensures StoreAfter(m, symbol, now, Evaluate(IsFresh(m, symbol, now), fcf, ratios)) == m
  {
  }

  /** The same at concrete values: AAPL screened at time 0 and again 400 days
   *  later; the second run leaves the stale row, so a third run at the same
   *  moment is not skipped either. */
  lemma StaleEntryExample()
    ensures var m := map["AAPL" := 0];
      var now := 400 * MicrosPerDay;
      var v := Evaluate(IsFresh(m, "AAPL", now), Fetched([1.0]), Fetched([1.0]));
      && v == StrongBusiness
      && StoreAfter(m, "AAPL", now, v) == m
      && !IsFresh(StoreAfter(m, "AAPL", now, v), "AAPL", now)
  {
  }

  /** Corrected store update: a screen that is not skipped records `now` for the
   *  symbol whether or not it had a row (insert, then update). */
  function StoreAfterUpsert(m: map<string, Timestamp>, symbol: string, now: Timestamp, v: Verdict): (r: map<string, Timestamp>)
    ensures v != AlreadyProcessed ==> r.Keys == m.Keys + {symbol} && r[symbol] == now
    ensures v == AlreadyProcessed ==> r == m
    ensures forall k :: k in m && k != symbol ==> r[k] == m[k]
  {
    if v == AlreadyProcessed then m else Updated(Inserted(m, symbol, now), symbol, now)
  }

  /** With the corrected update, every screen that is not skipped opens a new
   *  365-day window, also for a symbol whose row had gone stale. */
  lemma RescreenRearmsWindow(m: map<string, Timestamp>, symbol: string, now: Timestamp, later: Timestamp,
                             fcf: Fetch, ratios: Fetch, fcf': Fetch, ratios': Fetch)
    requires !IsFresh(m, symbol, now)
    requires now <= later < now + FreshnessDays * MicrosPerDay
    ensures var m1 := StoreAfterUpsert(m, symbol, now, Evaluate(IsFresh(m, symbol, now), fcf, ratios));
      && Evaluate(IsFresh(m1, symbol, later), fcf', ratios') == AlreadyProcessed
      && StoreAfterUpsert(m1, symbol, later, Evaluate(IsFresh(m1, symbol, later), fcf', ratios')) == m1
  {
  }

  /** Screens one symbol: skip it if it was screened recently; otherwise record
   *  it in the store first, then fetch and run the free-cash-flow check and,
   *  only if that passes, fetch and run the balance-sheet check. A fetch that
   *  raises ends the screen with the symbol already recorded. */
  method TestStrongBusiness(db: DatabaseManager, symbol: string, now: Timestamp, fcf: Fetch, ratios: Fetch)
    returns (outcome: Outcome)
    requires db.hasTable
    modifies db
    ensures db.hasTable
    ensures symbol != "" ==>
      var v := Evaluate(IsFresh(old(db.stocks), symbol, now), fcf, ratios);
      outcome == OutcomeOf(v) && db.stocks == StoreAfter(old(db.stocks), symbol, now, v)
    ensures symbol == "" ==>
      || (outcome == Returns(false) && db.stocks == old(db.stocks))
      || (outcome == OutcomeOf(Evaluate(false, fcf, ratios)) && db.stocks == Inserted(old(db.stocks), symbol, now))
  {
    var processed := HasProcessed(db, symbol, now);
    if processed {
      return Returns(false);
    }
    db.InsertData(symbol, now);
    if fcf.FetchError? {
      return Raises;
    }
    if !HasConsecutivePositiveFcf(fcf.values) {
      return Returns(false);
    }
    if ratios.FetchError? {
      return Raises;
    }
    if !HasStrongBalanceSheet(ratios.values) {
      return Returns(false);
    }
    return Returns(true);
  }

  /** The screen with the corrected store update: a symbol that is not skipped
   *  gets `now` as its timestamp, inserted or updated. */
  method TestStrongBusinessUpserting(db: DatabaseManager, symbol: string, now: Timestamp, fcf: Fetch, ratios: Fetch)
    returns (outcome: Outcome)
    requires db.hasTable
    modifies db
    ensures db.hasTable
    ensures symbol != "" ==>
      var v := Evaluate(IsFresh(old(db.stocks), symbol, now), fcf, ratios);
      outcome == OutcomeOf(v) && db.stocks == StoreAfterUpsert(old(db.stocks), symbol, now, v)
    ensures symbol == "" ==>
      || (outcome == Returns(false) && db.stocks == old(db.stocks))
      || (outcome == OutcomeOf(Evaluate(false, fcf, ratios))
          && db.stocks == Updated(Inserted(old(db.stocks), symbol, now), symbol, now))
  {
    var processed := HasProcessed(db, symbol, now);
    if processed {
      return Returns(false);
    }
    db.InsertData(symbol, now);
    db.UpdateData(symbol, now);
    if fcf.FetchError? {
      return Raises;
    }
    if !HasConsecutivePositiveFcf(fcf.values) {
      return Returns(false);
    }
    if ratios.FetchError? {
      return Raises;
    }
    if !HasStrongBalanceSheet(ratios.values) {
      return Returns(false);
    }
    return Returns(true);
  }
}
