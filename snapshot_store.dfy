/**
 * The server's cached snapshot as an object: the module-level variables
 * `ftse_data` and `last_update_time` become the fields of one store, and
 * `update_ftse_data`, `handle_data_error`, `get_ftse_data_from_histock` and
 * `get_ftse_data` become its methods. Each method is specified by the
 * transition of the `Snapshots` module it performs; the lock is left out and
 * every call runs to completion before the next begins.
 */
module SnapshotStore {
  import opened Wrappers
  import opened FieldExtractor
  import opened DerivedValues
  import opened Snapshots

  class FtseStore {
    /** `ftse_data`: the record served to readers, `None` before the first scrape. */
    var data: Option<Snapshot>
    /** `last_update_time`: when a record was last written in full. */
    var lastUpdateTime: real

    /** The fields as a value of the pure model. */
    function State(): Store
      reads this
    {
      Store(data, lastUpdateTime)
    }

    /** The module's initial values: no record, last update at 0. */
    constructor()
      ensures State() == Initial
      ensures Valid(State())
    {
      data := None;
      lastUpdateTime := 0.0;
    }

    /** `update_ftse_data`: replaces the whole record and moves `last_update_time` to now. */
    method UpdateFtseData(price: real, change: real, changePercent: real, source: string,
                          txPrice: int, txChange: int, at: Instant)
      modifies this
      ensures State() == Updated(old(State()), price, change, changePercent, source, txPrice, txChange, at)
      ensures data.Some? && data.value.error.None?
      ensures data.value.timestamp == lastUpdateTime == at.epoch
    {
      var currentTime := at.epoch;
      data := Some(Record(price, change, changePercent, source, txPrice, txChange, None, at));
      lastUpdateTime := currentTime;
    }

    /**
     * `handle_data_error`: within the window the existing record gets the
     * message as its `error` in place and the result is true; otherwise the
     * default record is installed and the result is false.
     */
    method HandleDataError(message: string, at: Instant) returns (ok: bool)
      modifies this
      ensures Step(State(), ok) == AfterError(old(State()), message, at)
      ensures Valid(old(State())) ==> Valid(State())
      ensures data.Some? && data.value.error == Some(message)
    {
      if Valid(State()) {
        AfterErrorKeepsValid(State(), message, at);
      }
      if data.Some? && at.epoch - lastUpdateTime < ValidityWindow {
        data := Some(data.value.(error := Some(message)));
        return true;
      }
      data := Some(DefaultRecord(message, at));
      lastUpdateTime := at.epoch;
      return false;
    }

    /**
     * `get_ftse_data_from_histock` given what the scrape produced: the record
     * is rewritten from a complete quote, or the failure's message goes to
     * `HandleDataError`.
     */
    method GetFtseDataFromHistock(outcome: FetchOutcome, at: Instant) returns (ok: bool)
      modifies this
      ensures Step(State(), ok) == AfterFetch(old(State()), outcome, at)
      ensures Valid(old(State())) ==> Valid(State())
      ensures data.Some?
    {
      if Valid(State()) {
        AfterFetchKeepsValid(State(), outcome, at);
      }
      match Scrape(outcome)
      case Ok(quote) =>
        var adjustedPrice := quote.price;
        var txPrice := TxPrice(adjustedPrice);
        var txChange := TxChange(adjustedPrice);
        UpdateFtseData(adjustedPrice, quote.change, quote.changePercent, LiveSource, txPrice, txChange, at);
        ok := true;
      case Err(message) =>
        ok := HandleDataError(message, at);
    }

    /**
     * `get_ftse_data`: returns the current record and whether a background
     * refresh should be started; with no record, runs the scrape whose outcome
     * is `blocking` first and returns what it leaves.
     */
    method GetFtseData(at: Instant, blocking: FetchOutcome) returns (snapshot: Snapshot, spawnRefresh: bool)
      modifies this
      ensures ReadResult(snapshot, spawnRefresh, State()) == Read(old(State()), at, blocking)
      ensures Valid(old(State())) ==> Valid(State())
      ensures data == Some(snapshot)
    {
      if data.Some? {
        var updateInterval := RefreshInterval(MarketOpenAt(at));
        spawnRefresh := at.epoch - lastUpdateTime > updateInterval;
        snapshot := data.value;
        return;
      }
      var _ := GetFtseDataFromHistock(blocking, at);
      snapshot := data.value;
      spawnRefresh := false;
    }
  }
}
