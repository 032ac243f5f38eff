/**
 * The snapshot record the server hands out and the transitions of the
 * module-level pair (`ftse_data`, `last_update_time`) it keeps: a successful
 * scrape replaces the whole record, a failed one either stamps its message on
 * a recent record or installs a fixed default, and a read decides whether a
 * background refresh is due. The clock, the network and the page are inputs:
 * every transition happens at one `Instant` and a scrape is a `FetchOutcome`.
 */
module Snapshots {
  import opened Wrappers
  import opened MarketHours
  import opened Quantizer
  import opened FieldExtractor
  import opened DerivedValues

  /** A valid Taipei wall-clock reading. */
  type TaipeiClock = t: TimeOfDay | t.Valid() witness TimeOfDay(0, 0, 0, 0)

  /**
   * One reading of the clock: `time.time()` in seconds, the Taipei weekday and
   * time of day of the same moment, and its `'%Y-%m-%d %H:%M:%S'` rendering,
   * which the model treats as an opaque string.
   */
  datatype Instant = Instant(epoch: real, weekday: Weekday, clock: TaipeiClock, display: string)

  /** `is_market_hours()` evaluated at this instant. */
  function MarketOpenAt(at: Instant): bool {
    IsMarketHours(at.weekday, at.clock)
  }

  const Code: string := "TWN"
  const Name: string := "富時台指"
  /** The source named by a successful scrape. */
  const LiveSource: string := "HiStock網站"
  /** The source named by the fallback record. */
  const DefaultSource: string := "預設數據"

  const DefaultPrice: real := 1637.5
  const DefaultChange: real := -68.3
  const DefaultPercent: real := -4.0

  /** How long, in seconds, a record may still be served after a failed scrape. */
  const ValidityWindow: real := 300.0

  /** The dictionary held in `ftse_data`; `error` is `None` when the key is absent. */
  datatype Snapshot = Snapshot(
    code: string,
    name: string,
    price: real,
    change: real,
    changePercent: real,
    timestamp: real,
    taipeiTime: string,
    source: string,
    txPrice: int,
    txChange: int,
    error: Option<string>,
    isMarketHours: bool)

  /** The record as written at instant `at`, with the clock-derived fields taken from `at`. */
  function Record(price: real, change: real, changePercent: real, source: string,
                  txPrice: int, txChange: int, error: Option<string>, at: Instant): Snapshot
  {
    Snapshot(Code, Name, price, change, changePercent, at.epoch, at.display, source,
             txPrice, txChange, error, MarketOpenAt(at))
  }

  /** The fallback record `handle_data_error` installs, carrying the failure's message. */
  function DefaultRecord(message: string, at: Instant): (d: Snapshot)
    ensures d.price == 1637.5 && d.change == -68.3 && d.changePercent == -4.0
    ensures d.txPrice == 20110 && d.txChange == -7446
    ensures d.source == DefaultSource && d.error == Some(message)
    ensures d.timestamp == at.epoch && d.isMarketHours == MarketOpenAt(at)
  {
    DefaultTxValues();
    Record(DefaultPrice, DefaultChange, DefaultPercent, DefaultSource,
           TxPrice(DefaultPrice), TxChange(DefaultPrice), Some(message), at)
  }

  /** The module-level pair: `ftse_data` (or `None`) and `last_update_time`. */
  datatype Store = Store(data: Option<Snapshot>, lastUpdateTime: real)

  /** The values the module starts with: no data, and a last update at epoch 0. */
  const Initial: Store := Store(None, 0.0)

  /**
   * What every record the server writes satisfies: its fixed code and name, a
   * quarter-point price with the futures values computed from it, an error
   * on every record that did not come from a successful scrape, and a
   * timestamp equal to `last_update_time` (the reuse path changes neither).
   */
  predicate Valid(s: Store) {
    s.data.Some? ==>
      && s.data.value.code == Code
      && s.data.value.name == Name
      && IsQuarter(s.data.value.price)
      && s.data.value.txPrice == TxPrice(s.data.value.price)
      && s.data.value.txChange == TxChange(s.data.value.price)
      && s.data.value.timestamp == s.lastUpdateTime
      && (s.data.value.source == LiveSource || s.data.value.source == DefaultSource)
      && (s.data.value.source == DefaultSource ==> s.data.value.price == DefaultPrice)
      && (s.data.value.error.None? ==> s.data.value.source == LiveSource)
  }

  /** `update_ftse_data`: a fresh record without an `error` key, stamped with `at`. */
  function Updated(s: Store, price: real, change: real, changePercent: real, source: string,
                   txPrice: int, txChange: int, at: Instant): (u: Store)
    ensures u.data.Some? && u.data.value.error.None?
    ensures u.data.value.timestamp == u.lastUpdateTime == at.epoch
    ensures u.data.value.price == price && u.data.value.change == change
    ensures u.data.value.changePercent == changePercent && u.data.value.source == source
    ensures u.data.value.txPrice == txPrice && u.data.value.txChange == txChange
  {
    Store(Some(Record(price, change, changePercent, source, txPrice, txChange, None, at)), at.epoch)
  }

  /** The result of a transition: the new store and the function's boolean return value. */
  datatype Step = Step(store: Store, ok: bool)

  /** Whether `handle_data_error` at `at` serves the existing record again. */
  predicate Reusable(s: Store, at: Instant) {
    s.data.Some? && at.epoch - s.lastUpdateTime < ValidityWindow
  }

  /**
   * `handle_data_error`: a record younger than the window keeps everything
   * but its `error`, which becomes the message, and the call returns true;
   * otherwise the default record replaces it and the call returns false.
   */
  function AfterError(s: Store, message: string, at: Instant): (r: Step)
    ensures r.store.data.Some?
    ensures r.ok <==> Reusable(s, at)
    ensures r.store.data.value.error == Some(message)
  {
    if Reusable(s, at) then
      Step(Store(Some(s.data.value.(error := Some(message))), s.lastUpdateTime), true)
    else
      Step(Store(Some(DefaultRecord(message, at)), at.epoch), false)
  }

  /** What one scrape produced, as far as the code that handles its exceptions can tell. */
  datatype FetchOutcome =
    | RequestFailed(detail: string)       // a `requests.RequestException`
    | Page(info: Option<PriceInfo>)       // the page was fetched; its price region, if found
    | ValueFailed(detail: string)         // a `ValueError` outside the field blocks
    | Unexpected(detail: string)          // any other exception

  /** The quote a scrape yields, or the message `handle_data_error` receives. */
  function Scrape(o: FetchOutcome): (r: Result<Quote, string>)
    ensures r.Ok? ==> o.Page? && IsQuarter(r.value.price)
    ensures o.Page? ==> r == ExtractQuote(o.info)
  {
    match o
    case RequestFailed(d) => Err("網絡錯誤: " + d)
    case Page(info) => ExtractQuote(info)
    case ValueFailed(d) => Err("數據格式錯誤: " + d)
    case Unexpected(d) => Err("系統錯誤: " + d)
  }

  /**
   * `get_ftse_data_from_histock`: a successful scrape writes the quantised
   * price (the "adjusted" price is the price itself) with its futures values
   * and returns true; a failed one is handed to `handle_data_error`.
   */
  function AfterFetch(s: Store, o: FetchOutcome, at: Instant): (r: Step)
    ensures r.store.data.Some?
    ensures r.ok <==> Scrape(o).Ok? || Reusable(s, at)
  {
    match Scrape(o)
    case Ok(q) =>
      Step(Updated(s, q.price, q.change, q.changePercent, LiveSource,
                   TxPrice(q.price), TxChange(q.price), at), true)
    case Err(m) => AfterError(s, m, at)
  }

  /** How old, in seconds, the record may be before a read asks for a refresh. */
  function RefreshInterval(marketOpen: bool): real {
    if marketOpen then 20.0 else 300.0
  }

  /** A read at `at` asks for a refresh: the last update is strictly older than the interval. */
  predicate RefreshDue(s: Store, at: Instant) {
    at.epoch - s.lastUpdateTime > RefreshInterval(MarketOpenAt(at))
  }

  /** What `get_ftse_data` returns, whether it starts a background refresh, and the store after it. */
  datatype ReadResult = ReadResult(snapshot: Snapshot, spawnRefresh: bool, store: Store)

  /**
   * `get_ftse_data`: with a record present it is returned as is and a
   * background refresh is requested when one is due; with none, a blocking
   * scrape (outcome `blocking`) runs first and the record it leaves is returned.
   */
  function Read(s: Store, at: Instant, blocking: FetchOutcome): (r: ReadResult)
    ensures r.store.data == Some(r.snapshot)
    ensures s.data.Some? ==> r.store == s
    ensures r.spawnRefresh ==> s.data.Some? && RefreshDue(s, at)
  {
    if s.data.Some? then
      ReadResult(s.data.value, RefreshDue(s, at), s)
    else
      var t := AfterFetch(s, blocking, at).store;
      ReadResult(t.data.value, false, t)
  }

  // ---------------------------------------------------------------------
  // Properties of the transitions
  // ---------------------------------------------------------------------

  lemma InitialValid()
    ensures Valid(Initial) && Initial.data.None?
  {
  }

  /** Writing a quantised live quote with its own futures values keeps the store valid. */
  lemma UpdatedKeepsValid(s: Store, price: real, change: real, changePercent: real, at: Instant)
    requires IsQuarter(price)
    ensures Valid(Updated(s, price, change, changePercent, LiveSource, TxPrice(price), TxChange(price), at))
  {
  }

  /** The fallback record is itself a valid record. */
  lemma DefaultRecordValid(message: string, at: Instant)
    ensures Valid(Store(Some(DefaultRecord(message, at)), at.epoch))
  {
    assert 4.0 * DefaultPrice == 6550.0;
    QuarterOf(6550);
  }

  /** `handle_data_error` keeps the store valid. */
  lemma AfterErrorKeepsValid(s: Store, message: string, at: Instant)
    requires Valid(s)
    ensures Valid(AfterError(s, message, at).store)
  {
    if !Reusable(s, at) {
      DefaultRecordValid(message, at);
    }
  }

  /** `get_ftse_data_from_histock` keeps the store valid, whatever the scrape produced. */
  lemma AfterFetchKeepsValid(s: Store, o: FetchOutcome, at: Instant)
    requires Valid(s)
    ensures Valid(AfterFetch(s, o, at).store)
  {
    match Scrape(o)
    case Ok(q) =>
      ExtractQuoteQuantised(o);
      UpdatedKeepsValid(s, q.price, q.change, q.changePercent, at);
    case Err(m) =>
      AfterErrorKeepsValid(s, m, at);
  }

  /** A quote from a scrape always carries a quarter-point price. */
  lemma ExtractQuoteQuantised(o: FetchOutcome)
    requires Scrape(o).Ok?
    ensures o.Page? && IsQuarter(Scrape(o).value.price)
  {
  }

  /**
   * On a successful scrape the whole record is replaced: the quote's three
   * numbers, the live source, futures values computed from the same price,
   * no error, and `timestamp == last_update_time == now`.
   */
  lemma SuccessfulFetchWritesRecord(s: Store, o: FetchOutcome, at: Instant, q: Quote)
    requires Scrape(o) == Ok(q)
    ensures var r := AfterFetch(s, o, at);
      && r.ok
      && r.store.data == Some(Record(q.price, q.change, q.changePercent, LiveSource,
                                     TxPrice(q.price), TxChange(q.price), None, at))
      && r.store.lastUpdateTime == at.epoch
      && r.store.data.value.timestamp == at.epoch
      && r.store.data.value.txChange == r.store.data.value.txPrice - BaseTx
  {
  }

  /**
   * A page whose three fields are all found and parse stores exactly their
   * values: the quantised price, the sign-corrected change and percentage,
   * and futures values from that same price.
   */
  lemma ScrapedFieldsStored(s: Store, p: Element, c: Element, q: Element, at: Instant)
    requires PriceValue(p).Some? && ChangeValue(c).Some? && PercentValue(q).Some?
    ensures var r := AfterFetch(s, Page(Some(PriceInfo(Found(p), Found(c), Found(q)))), at);
      && r.ok
      && r.store.lastUpdateTime == at.epoch
      && r.store.data.Some?
      && r.store.data.value == Record(PriceValue(p).value, ChangeValue(c).value, PercentValue(q).value,
                                      LiveSource, TxPrice(PriceValue(p).value),
                                      TxChange(PriceValue(p).value), None, at)
  {
    var o := Page(Some(PriceInfo(Found(p), Found(c), Found(q))));
    var quote := Quote(PriceValue(p).value, ChangeValue(c).value, PercentValue(q).value);
    assert Scrape(o).Ok? && Scrape(o).value.price == quote.price && Scrape(o).value.change == quote.change
        && Scrape(o).value.changePercent == quote.changePercent by {
      ExtractFoundFields(p, c, q);
    }
  }

  /**
   * A failed scrape writes nothing of its own: the store moves exactly as
   * `handle_data_error` moves it with the failure's message.
   */
  lemma FailedFetchWritesNoFields(s: Store, o: FetchOutcome, at: Instant)
    requires Scrape(o).Err?
    ensures AfterFetch(s, o, at) == AfterError(s, Scrape(o).error, at)
  {
  }

  /** The message each kind of failure leaves in the record's `error`. */
  lemma FailureMessages(s: Store, o: FetchOutcome, at: Instant)
    ensures o.RequestFailed? ==> AfterFetch(s, o, at).store.data.value.error == Some("網絡錯誤: " + o.detail)
    ensures o.ValueFailed? ==> AfterFetch(s, o, at).store.data.value.error == Some("數據格式錯誤: " + o.detail)
    ensures o.Unexpected? ==> AfterFetch(s, o, at).store.data.value.error == Some("系統錯誤: " + o.detail)
    ensures o.Page? && ExtractQuote(o.info).Err? ==>
      AfterFetch(s, o, at).store.data.value.error == Some(ExtractQuote(o.info).error)
  {
  }

  /**
   * Within the window a failure changes nothing but `error`: every other
   * field and `last_update_time` keep their values.
   */
  lemma ErrorWithinWindowStampsOnly(s: Store, message: string, at: Instant)
    requires s.data.Some? && at.epoch - s.lastUpdateTime < ValidityWindow
    ensures var r := AfterError(s, message, at);
      && r.ok
      && r.store.lastUpdateTime == s.lastUpdateTime
      && r.store.data.value.(error := s.data.value.error) == s.data.value
  {
  }

  /**
   * With no record, or one at least 300 seconds past `last_update_time`, a
   * failure installs the fixed default record, stamped now, and returns false.
   */
  lemma ErrorAfterWindowInstallsDefault(s: Store, message: string, at: Instant)
    requires s.data.None? || at.epoch - s.lastUpdateTime >= ValidityWindow
    ensures var r := AfterError(s, message, at);
      && !r.ok
      && r.store.lastUpdateTime == at.epoch
      && var d := r.store.data.value;
      && d.price == 1637.5 && d.change == -68.3 && d.changePercent == -4.0
      && d.source == DefaultSource
      && d.txPrice == 20110 && d.txChange == -7446
      && d.error == Some(message)
      && d.timestamp == at.epoch
  {
    DefaultTxValues();
  }

  /** A failure reported at some instant. */
  datatype Failure = Failure(message: string, at: Instant)

  /** `handle_data_error` applied to each failure in turn. */
  function AfterErrors(s: Store, fs: seq<Failure>): Store
    decreases |fs|
  {
    if fs == [] then s
    else AfterErrors(AfterError(s, fs[0].message, fs[0].at).store, fs[1..])
  }

  /**
   * However many failures follow it, a record is served on, unchanged but
   * for its `error`, while each failure comes less than 300 seconds after the
   * last successful update: the reuse path does not move `last_update_time`,
   * so failures do not extend the window.
   */
  lemma {:induction false} FailuresWithinWindowKeepRecord(s: Store, fs: seq<Failure>)
    requires s.data.Some?
    requires forall i :: 0 <= i < |fs| ==> fs[i].at.epoch - s.lastUpdateTime < ValidityWindow
    ensures var t := AfterErrors(s, fs);
      && t.lastUpdateTime == s.lastUpdateTime
      && t.data.Some?
      && t.data.value.(error := s.data.value.error) == s.data.value
      && (fs != [] ==> t.data.value.error == Some(fs[|fs| - 1].message))
    decreases |fs|
  {
    if fs != [] {
      var s' := AfterError(s, fs[0].message, fs[0].at).store;
      ErrorWithinWindowStampsOnly(s, fs[0].message, fs[0].at);
      assert forall i :: 0 <= i < |fs[1..]| ==> fs[1..][i] == fs[i + 1];
      FailuresWithinWindowKeepRecord(s', fs[1..]);
      if |fs| > 1 {
        assert fs[1..][|fs[1..]| - 1] == fs[|fs| - 1];
      }
    }
  }

  /**
   * Once 300 seconds have passed since the last successful update, the next
   * failure installs the default record, however many failures were served
   * the old record in between.
   */
  lemma FailuresDoNotExtendWindow(s: Store, fs: seq<Failure>, last: Failure)
    requires s.data.Some?
    requires forall i :: 0 <= i < |fs| ==> fs[i].at.epoch - s.lastUpdateTime < ValidityWindow
    requires last.at.epoch - s.lastUpdateTime >= ValidityWindow
    ensures var r := AfterError(AfterErrors(s, fs), last.message, last.at);
      && !r.ok
      && r.store.data == Some(DefaultRecord(last.message, last.at))
  {
    FailuresWithinWindowKeepRecord(s, fs);
  }

  /**
   * A read with a record present returns that record and leaves the store
   * alone; it asks for a refresh exactly when more than 20 seconds (market
   * open) or 300 seconds (market closed) have passed since the last update.
   */
  lemma ReadWithRecord(s: Store, at: Instant, blocking: FetchOutcome)
    requires s.data.Some?
    ensures var r := Read(s, at, blocking);
      && r.snapshot == s.data.value
      && r.store == s
      && (r.spawnRefresh <==>
            || (MarketOpenAt(at) && at.epoch - s.lastUpdateTime > 20.0)
            || (!MarketOpenAt(at) && at.epoch - s.lastUpdateTime > 300.0))
  {
  }

  /** A read with no record runs the blocking scrape and returns the record it leaves, never nothing. */
  lemma ReadWithoutRecord(s: Store, at: Instant, blocking: FetchOutcome)
    requires s.data.None?
    ensures var r := Read(s, at, blocking);
      && r.store == AfterFetch(s, blocking, at).store
      && r.store.data == Some(r.snapshot)
      && !r.spawnRefresh
  {
  }

  /** The refresh intervals are strict: exactly 20 (or 300) seconds is not yet due. */
  lemma RefreshDueAtBoundaries(s: Store, open: Instant, closed: Instant)
    requires MarketOpenAt(open) && !MarketOpenAt(closed)
    ensures open.epoch == s.lastUpdateTime + 20.0 ==> !RefreshDue(s, open)
    ensures open.epoch == s.lastUpdateTime + 20.5 ==> RefreshDue(s, open)
    ensures closed.epoch == s.lastUpdateTime + 300.0 ==> !RefreshDue(s, closed)
    ensures closed.epoch == s.lastUpdateTime + 300.5 ==> RefreshDue(s, closed)
  {
  }
}
