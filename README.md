# FTSE Taiwan index snapshot server — a Dafny model

The server scrapes the FTSE Taiwan index (code `TWN`, 富時台指) from a web
page and caches one snapshot record. It also derives a TAIEX futures price
and change from the index price, and serves the record over HTTP. This
project models the logic at the centre of `ftse_data_server_new.py` and
proves properties about it:

- **Quarter-point quantiser** (`round_to_quarter`), in module `Quantizer`.
  It is an exact case split on the fractional part. Prices are modelled as
  `real`, and Python's `int()` as truncation toward zero.
- **Trading-hours classifier** (`is_market_hours`), in module `MarketHours`.
  It is a function of a weekday (Monday is 0) and a wall-clock time down to
  the microsecond.
- **Field extraction and sign correction** inside
  `get_ftse_data_from_histock`, in module `FieldExtractor`. The three fields
  are price, change and change percentage. Each is read from the text and
  class list of a located `<span>`. The Python string and number builtins
  these rules use live in module `PyText`:
  - `str.strip()` with Python's whitespace set
  - chains of `str.replace(c, '')`
  - `str.startswith`
  - the decimal subset of `float()`
- **Derived futures values** (`calculate_tx_price`, `calculate_tx_change`),
  in module `DerivedValues`. They use exact arithmetic with round-half-even
  rounding to a whole number.
- **Snapshot store and its refresh/fall-back state machine**
  (`update_ftse_data`, `handle_data_error`, `get_ftse_data`, and the
  exception handling of `get_ftse_data_from_histock`). They appear twice:
  - as pure transitions on a `Store` value, in module `Snapshots`, where
    the properties are proved;
  - as the class `SnapshotStore.FtseStore`. Its fields `data` and
    `lastUpdateTime` stand for the module-level `ftse_data` and
    `last_update_time`. Each of its methods is specified by the transition
    it performs.

Every operation takes its clock reading as an `Instant` parameter. An
`Instant` holds epoch seconds, the Taipei weekday and time of day, and the
display string. The outcome of the HTTP request and the HTML lookups is also
a parameter (`FetchOutcome`).

The model follows the code as written on these points:

- The reuse path of `handle_data_error` changes only `error`. It leaves
  `last_update_time` and `timestamp` unchanged. As a result, a record's
  `timestamp` always equals `last_update_time` (`Snapshots.Valid`), and
  failures never extend the 300-second window.
- The validity window is measured from `last_update_time`.
- The three fields are read in order, and the first failure aborts the
  scrape, so nothing is written.
- The "adjusted" price is the price itself: the 0.05 reduction announced in
  a comment is not applied.
- The down-direction class is `clr-gr`, looked for as the first class of the
  element.
- For the percentage, the test for a `▼` in the raw text can never fire on
  a value that parsed. A `▼` left in the text makes `float()` fail, so
  only the class decides the sign.
- For the change, the minus-sign test looks at the stripped text, not at
  the number. So `▼-5.2` is negated a second time and reads as `5.2`
  (`FieldExtractor.ChangeGlyphBeforeMinus`).

## Model

| member | source | states |
|---|---|---|
| Quantizer.Trunc | ftse_data_server_new.py:57 | `int(x)` truncates toward zero: for x ≥ 0 the result is the largest whole number not above x; for x < 0, the smallest not below x |
| Quantizer.RoundToQuarter | ftse_data_server_new.py:53-76 | the result is a multiple of 0.25; for a non-negative value it lies in (value − 0.125, value + 0.125]; for a negative value it equals `int(value)`, because the fractional part is never ≥ 0.125 |
| Quantizer.QuarterWindowUnique | ftse_data_server_new.py:61-74 | for a non-negative value, the result is the only quarter point in (value − 0.125, value + 0.125] |
| Quantizer.RoundToQuarterNearest | ftse_data_server_new.py:61-74 | for a non-negative value, no quarter point is closer to the value than the result |
| Quantizer.RoundToQuarterIdempotent | ftse_data_server_new.py:53-76 | quantising a non-negative value twice gives the same as quantising it once |
| Quantizer.RoundToQuarterExamples | ftse_data_server_new.py:61-74 | the thresholds at work: .12 → .0, .13 → .25, .125 → .25, .625 → .75, .875 and .99 carry to the next whole number, −5.9 → −5 |
| MarketHours.IsMarketHours | ftse_data_server_new.py:39-51 | open exactly when the weekday is before Saturday and 08:45:00.000000 ≤ time ≤ 13:45:00.000000, both ends included, comparing hour, minute, second and microsecond in order |
| MarketHours.TradingWindowBoundaries | ftse_data_server_new.py:44-51 | 08:45:00 and 13:45:00 are open; 08:44:59.999999, 13:45:00.000001 and 13:45:01 are closed; Saturday and Sunday are closed |
| PyText.Strip | ftse_data_server_new.py:112 | `strip()` leaves no whitespace at either end and keeps a leading non-space character in first place |
| PyText.StripMember | ftse_data_server_new.py:112 | stripping drops only whitespace: every character of the result comes from the input, and every non-space character of the input survives |
| PyText.Remove | ftse_data_server_new.py:112 | `replace(c, '')` never lengthens the text and keeps a first character that is not removed |
| PyText.RemoveMember | ftse_data_server_new.py:125 | a character is in the result exactly when it is in the input and is not one of the removed characters |
| PyText.ParseUnsigned | ftse_data_server_new.py:112 | an accepted unsigned literal is non-empty, holds only digits and points, and has a non-negative value |
| PyText.ParseFloat | ftse_data_server_new.py:112 | an accepted text whose stripped form starts with `-` has a value ≤ 0; any other accepted text has a value ≥ 0 |
| PyText.ParseFloatChars | ftse_data_server_new.py:139 | `float()` accepts only texts made of whitespace, signs, digits and points |
| PyText.ParseFloatNoMinus | ftse_data_server_new.py:139 | a text without a minus sign never reads as a negative number |
| PyText.ParseFloatLeadingMinus | ftse_data_server_new.py:125 | a text that starts with `-` never reads as a positive number |
| PyText.ParseFloatIntText | ftse_data_server_new.py:112 | round trip: `float(str(k)) == k` for every integer k |
| PyText.ParseUnsignedExamples | ftse_data_server_new.py:112 | "5.2", ".5" and "5." are accepted with their values; "." and "1.2.3" are rejected |
| FieldExtractor.PriceValue | ftse_data_server_new.py:112-114 | the price parses exactly when its stripped, comma-free text does; the result is a quarter point within 0.125 of a non-negative parsed value |
| FieldExtractor.ChangeNegated | ftse_data_server_new.py:127 | the change is negated when its stripped text has no leading `-` and either holds a `▼` or has first class `clr-gr`; its effect is proved in `ChangeDirection` and `ChangeKeepsExplicitMinus` |
| FieldExtractor.ChangeValue | ftse_data_server_new.py:123-128 | the change parses exactly when its stripped text, with `▼`, `▲` and `,` removed, does |
| FieldExtractor.PercentNegated | ftse_data_server_new.py:141 | the percentage is negated when `percent_text` has no leading `-` and the raw text holds a `▼` or the first class is `clr-gr`; `PercentSignRule` proves only the class can decide it on a value that parsed |
| FieldExtractor.PercentValue | ftse_data_server_new.py:137-142 | the percentage parses exactly when its stripped text, with `%` removed, does |
| FieldExtractor.ReadField | ftse_data_server_new.py:107-144 | a field yields a value exactly when both spans are found and the text parses, and that value is the field's sign-corrected number; a missing marked span gives "無法找到X元素", and a missing outer span or an unparsable text gives "無法解析X" |
| FieldExtractor.ExtractQuote | ftse_data_server_new.py:102-144 | a quote comes out exactly when the price region and all three fields are read; its price is a quarter point; a missing region gives "無法找到價格資訊區域"; the quote holds exactly the three values the fields read; a price failure is reported before any later field is looked at, and a change or percentage failure after good earlier fields reports that field's own message |
| FieldExtractor.ExtractFoundFields | ftse_data_server_new.py:107-144 | a region whose three elements are found and parse yields a quote holding the corrected price, change and percentage |
| FieldExtractor.ChangeKeepsExplicitMinus | ftse_data_server_new.py:126-128 | a change whose stripped text starts with `-` is never negated again, and it reads as ≤ 0 |
| FieldExtractor.ChangeDirection | ftse_data_server_new.py:125-128 | for a change written without a minus sign, a `▼` or first class `clr-gr` makes it ≤ 0, and otherwise it is ≥ 0 |
| FieldExtractor.ChangeTrailingDownGlyph | ftse_data_server_new.py:125-128 | `"u▼"` reads as −u, whatever the classes |
| FieldExtractor.ChangeMinusWithDownMarkers | ftse_data_server_new.py:126-128 | `"-u▼"` with class `clr-gr` stays −u: no double negation |
| FieldExtractor.ChangeGlyphBeforeMinus | ftse_data_server_new.py:125-128 | `"▼-u"` reads as +u, because the minus test looks at the text's first character, which is the glyph |
| FieldExtractor.PercentRejectsChar | ftse_data_server_new.py:137-139 | a percent text holding any character other than whitespace, sign, digit, point or `%` fails to parse |
| FieldExtractor.PercentRejectsMarkers | ftse_data_server_new.py:137-144 | a percent text containing `▼`, `▲` or `,` fails to parse, so the field reports "無法解析漲跌百分比" |
| FieldExtractor.PercentSignRule | ftse_data_server_new.py:139-142 | for a percentage that parsed, negation happens exactly when the text has no leading `-` and the first class is `clr-gr` (the `▼` test is dead) |
| FieldExtractor.PercentDirection | ftse_data_server_new.py:139-142 | for a percentage without a minus sign, first class `clr-gr` makes it ≤ 0, and any other class ≥ 0 |
| FieldExtractor.PercentDownClass | ftse_data_server_new.py:137-142 | `"u%"` with first class `clr-gr` reads as −u |
| DerivedValues.RoundHalfEven | ftse_data_server_new.py:177 | `round(x, 0)` is within 0.5 of x, and a tie goes to the even whole number |
| DerivedValues.RoundHalfEvenTies | ftse_data_server_new.py:177 | 0.5 → 0, 1.5 → 2, 2.5 → 2, −0.5 → 0, −1.5 → −2, −2.5 → −2 |
| DerivedValues.TxPrice | ftse_data_server_new.py:170-180 | the futures price is a whole number within 0.5 of price × 12.28065515714918 |
| DerivedValues.TxChange | ftse_data_server_new.py:185-194 | the futures change is exactly the futures price minus 27556: the second rounding changes nothing |
| DerivedValues.TxPriceMonotone | ftse_data_server_new.py:170-194 | a higher index price never gives a lower futures price or change |
| DerivedValues.DefaultTxValues | ftse_data_server_new.py:238-252 | the fallback price 1637.5 gives futures price 20110 and change −7446 |
| Snapshots.Updated | ftse_data_server_new.py:199-220 | `update_ftse_data`: a record with the given price, change, percentage, source and futures values and no error, with `timestamp == last_update_time == now` |
| Snapshots.DefaultRecord | ftse_data_server_new.py:238-256 | the fallback record: price 1637.5, change −68.3, percentage −4.0, futures values 20110 and −7446, source "預設數據", the message as `error`, stamped now |
| Snapshots.Reusable | ftse_data_server_new.py:232 | `handle_data_error` reuses the record when one exists and `now - last_update_time < 300`; its effect is proved in `ErrorWithinWindowStampsOnly` and `FailuresDoNotExtendWindow` |
| Snapshots.AfterError | ftse_data_server_new.py:227-257 | after `handle_data_error` a record is present and carries the message as its error; the result is true exactly when a record existed and less than 300 s had passed since `last_update_time` |
| Snapshots.Scrape | ftse_data_server_new.py:157-168 | a fetched page gives what `ExtractQuote` gives, so only a page can give a quote and its price is a quarter point; the exception messages are stated in `FailureMessages` |
| Snapshots.AfterFetch | ftse_data_server_new.py:81-168 | after a scrape a record is present; the result is true exactly when the scrape produced a quote or the old record was reusable |
| Snapshots.InitialValid | ftse_data_server_new.py:26-27 | the store starts with no record and satisfies the invariant |
| Snapshots.UpdatedKeepsValid | ftse_data_server_new.py:199-220 | writing a quarter-point live quote with its own futures values gives a valid store |
| Snapshots.AfterErrorKeepsValid | ftse_data_server_new.py:227-257 | `handle_data_error` preserves the invariant |
| Snapshots.AfterFetchKeepsValid | ftse_data_server_new.py:81-168 | a scrape preserves the invariant whatever it produced: fixed code and name, quarter-point price, futures values computed from that price, an error on every non-live record, `timestamp == last_update_time` |
| Snapshots.SuccessfulFetchWritesRecord | ftse_data_server_new.py:146-155 | a successful scrape returns true and writes the whole record: the quote, source "HiStock網站", futures values from the same price, no error, and `timestamp == last_update_time == now` |
| Snapshots.ScrapedFieldsStored | ftse_data_server_new.py:107-155 | a page whose three elements are found and parse leaves a record holding their corrected values, source "HiStock網站", the futures values of that price, no error, and `last_update_time == now` |
| Snapshots.FailedFetchWritesNoFields | ftse_data_server_new.py:157-168 | a failed scrape writes no field of its own: the store moves exactly as `handle_data_error` moves it |
| Snapshots.FailureMessages | ftse_data_server_new.py:157-168 | the recorded error is "網絡錯誤: " + detail for a request failure, "數據格式錯誤: " + detail for a ValueError, "系統錯誤: " + detail for any other exception, and the field's own message otherwise |
| Snapshots.ErrorWithinWindowStampsOnly | ftse_data_server_new.py:231-235 | with a record less than 300 s past `last_update_time`, only `error` changes, `last_update_time` is kept, and the result is true |
| Snapshots.ErrorAfterWindowInstallsDefault | ftse_data_server_new.py:237-257 | with no record, or one 300 s or more past `last_update_time`, the store holds price 1637.5, change −68.3, percent −4.0, source "預設數據", futures 20110 and −7446, the message, and `timestamp == last_update_time == now`; the result is false |
| Snapshots.FailuresWithinWindowKeepRecord | ftse_data_server_new.py:231-235 | any run of failures less than 300 s after the last update keeps the record unchanged except for its error, which is the last message, and keeps `last_update_time` |
| Snapshots.FailuresDoNotExtendWindow | ftse_data_server_new.py:231-257 | after such a run, the first failure 300 s or more past the last successful update installs the default record |
| Snapshots.RefreshDue | ftse_data_server_new.py:266-267 | a refresh is due when the record is strictly older than 20 s in market hours or 300 s outside them; `RefreshDueAtBoundaries` proves the exact boundaries are not yet due |
| Snapshots.Read | ftse_data_server_new.py:259-276 | `get_ftse_data`: the result is the record the store holds afterwards; a present record leaves the store unchanged; a refresh is requested only for a present record on which it is due |
| Snapshots.ReadWithRecord | ftse_data_server_new.py:263-270 | with a record present, the read returns it and leaves the store alone; a refresh is requested exactly when more than 20 s (market open) or 300 s (closed) have passed since `last_update_time` |
| Snapshots.ReadWithoutRecord | ftse_data_server_new.py:272-276 | with no record, the read runs the blocking scrape, requests no background refresh, and returns the record the scrape leaves, which always exists |
| Snapshots.RefreshDueAtBoundaries | ftse_data_server_new.py:266-267 | the intervals are strict: exactly 20 s (or 300 s) is not yet due, and 20.5 s (or 300.5 s) is |
| SnapshotStore.FtseStore.constructor | ftse_data_server_new.py:26-27 | the store starts with no record and `last_update_time` 0 |
| SnapshotStore.FtseStore.UpdateFtseData | ftse_data_server_new.py:199-220 | the new state is `Snapshots.Updated` of the old: a fresh record without an error, and `timestamp == last_update_time == now` |
| SnapshotStore.FtseStore.HandleDataError | ftse_data_server_new.py:227-257 | the new state and the result are `Snapshots.AfterError` of the old state; the in-place stamping keeps the invariant |
| SnapshotStore.FtseStore.GetFtseDataFromHistock | ftse_data_server_new.py:81-168 | the new state and the result are `Snapshots.AfterFetch` of the old state; the invariant is kept and a record is present afterwards |
| SnapshotStore.FtseStore.GetFtseData | ftse_data_server_new.py:259-276 | the returned record, the refresh request and the new state are `Snapshots.Read` of the old state; the returned record is the stored one |

## Left out

- The HTTP request, its headers and cache-busting URL, and `raise_for_status` (ftse_data_server_new.py:87-98) are not modelled. Their effect is the `FetchOutcome` parameter: a request failure, an unexpected exception, a `ValueError` outside the field blocks, or a fetched page.
- The BeautifulSoup parse and the `find` calls are not modelled. Each field is a `Lookup` given as input: no outer span, no marked inner span, or the inner span's text and class list.
- PyText.ParseFloat: accepts only the decimal subset of `float()`: whitespace, an optional sign, digits with at most one point. Exponents, `inf`, `nan`, underscores and non-ASCII digits are not modelled, so the model rejects such texts where Python would accept them. Parsed values are exact decimals, whereas `float()` rounds to the nearest double; price, change and percentage are stored as those exact reals.
- Quantizer.RoundToQuarter: works on exact reals rather than IEEE doubles. The exception fall-back that returns the value unchanged (ftse_data_server_new.py:77-79) only fires on non-finite floats, which the model does not have.
- DerivedValues.TxPrice: the product and the rounding are exact. Python's double product can differ in its last bit, so a product within one unit in the last place of a .5 tie might round the other way. Results are whole numbers (`int`), where Python returns floats with zero fraction.
- Snapshots.AfterError: uses one clock reading per call. The source reads `time.time()` separately for `timestamp` and for `last_update_time` (ftse_data_server_new.py:248, 256), and `update_ftse_data` and `is_market_hours` read the clock again. The model's `timestamp == last_update_time` is therefore exact where the source's differs by the time between two reads.
- SnapshotStore.FtseStore.GetFtseData: returns the record by value. In the source the caller receives the same dictionary object as `ftse_data`, so a later in-place `error` stamp is visible through it; that aliasing is not modelled. The background refresh thread is reported as a request (`spawnRefresh`) and not run. The blocking scrape for an empty store happens at the same instant as the read.
- The lock `ftse_lock` and concurrency are not modelled: the spawned refresh thread, the unlocked gap between the two critical sections of `handle_data_error` (ftse_data_server_new.py:235-241), and the background loop `run_background_update` (ftse_data_server_new.py:303-316). Every operation runs to completion before the next starts.
- Time-zone conversion (`get_taipei_time`, pytz) is not modelled. The formatted `taipei_time` string is an opaque part of the `Instant`.
- The Flask route `api_get_ftse_data` and its force-refresh test (ftse_data_server_new.py:278-301) are not modelled. They are HTTP plumbing around `get_ftse_data`.
- Logging, CORS, the start-up code and the module `test_app.py` are not modelled. `test_app.py` holds only health-check endpoints.
