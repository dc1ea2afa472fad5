# Gold, bitcoin and USD/VND price dashboard — a Dafny model of its decision logic

The system is a small dashboard. A FastAPI backend fetches the gold
price, the bitcoin price and the USD-to-VND exchange rate from third-party
providers and stores them in two tables: `exchangerate` and `assetprice`.
A React page charts the stored series and shows the latest values. Its
"Refresh Prices" button asks the backend to fetch again, then locks itself
for a ten-second countdown.

This project models the three pieces of that system that make decisions:

- **Exchange-rate service** (`ExchangeRatesService`). It normalises the
  provider's date and finds the latest stored rate. It appends the fetched
  rate unless the latest row already has the fetched time.
- **Asset-price service** (`AssetsService`). It selects rows by asset. The
  gold and bitcoin refreshes first test for a repeat, then raise 404 when
  no rate is stored. Otherwise they append a row priced in VND with the
  latest rate.
- **Dashboard** (`PriceCharts`, `RefreshCooldown`). It shapes a series into
  chart labels and values, flips between USD and VND, and writes the
  latest-price text. The refresh button is a state machine over
  `(isButtonDisabled, countdown)`.

`Common` holds the shared types: optional values, the raised errors and
Python's `==` across value kinds. `Models` holds the two row types and the
session, whose tables are sequences of rows in insertion order. Each
service function that writes is a method that changes the `Session`. It is
proved against a pure update rule (`RefreshRates`, `RefreshAsset`), and
lemmas state that rule's properties. The button is a class,
`RefreshButton`, whose handlers are proved against the pure `Click` and
`Tick` functions.

Foreign library calls are function-typed parameters:

- `datetime.strptime` with the service's format string, giving `None`
  when the text does not match;
- `datetime.fromtimestamp`, giving `None` for an epoch outside the
  platform's range;
- `Date.toLocaleString` and `Number.toLocaleString`.

A `datetime` is a count of microseconds since `datetime.min` (`Timestamp`), and `datetime.max` is `MaxDatetime`. Fetched responses
arrive as parameters: the status code, the price, the time field and the
rate.

## Model

| member | source | states |
|---|---|---|
| `Common.PyEquals` | app/services/assets_service.py:27-31 | Python `==` holds only between equal values of one kind; a `datetime` never equals an `int` or a `str` |
| `ExchangeRatesService.NormalizeDate` | app/services/exchange_rates_service.py:19-20 | a 10-character date gets " 00:00:00" appended (19 characters, original as prefix); any other length is unchanged |
| `ExchangeRatesService.NormalizeDateIdempotent` | app/services/exchange_rates_service.py:19-20 | normalising a normalised date changes nothing |
| `ExchangeRatesService.GetExchangeRates` | app/services/exchange_rates_service.py:42-46 | every stored rate is returned, in table order |
| `ExchangeRatesService.GetCurrentExchangeRate` | app/services/exchange_rates_service.py:49-53 | none iff the table is empty; otherwise a stored row whose `recorded_at` is at least every stored `recorded_at` |
| `ExchangeRatesService.LatestAfterAppend` | app/services/exchange_rates_service.py:49-53 | after appending a row, the latest time is the later of the old latest time and the new row's time |
| `ExchangeRatesService.RefreshRates` | app/services/exchange_rates_service.py:24-34 | the table is kept and the latest row returned iff the latest row has the fetched time; otherwise exactly the fetched rate is appended and nothing is returned; either way a row with the fetched time is stored afterwards |
| `ExchangeRatesService.RefreshTwiceWithNewestRate` | app/services/exchange_rates_service.py:24-34 | refreshing twice with a rate no older than any stored one stores it once |
| `ExchangeRatesService.RefreshWithOlderRateAppendsAgain` | app/services/exchange_rates_service.py:24-34 | a fetched rate older than the latest stored one is not recognised by the next identical refresh, which takes the insert path again; the table's key (`recorded_at`) then rejects that insert at commit |
| `ExchangeRatesService.CreateExchangeRate` | app/services/exchange_rates_service.py:8-39 | a non-200 status raises that status and keeps the table; an unparsable date raises `ValueError` and keeps the table; otherwise the result and the new table are those of `RefreshRates`; the asset table is untouched |
| `AssetsService.GetAssetPrices` | app/services/assets_service.py:107-111 | a row is returned iff it is stored and has the asked `asset_id` |
| `AssetsService.GetAssetPricesAppend` | app/services/assets_service.py:107-111 | selecting by asset distributes over concatenation, so table order is preserved |
| `AssetsService.GetFirstAssetPrice` | app/services/assets_service.py:114-118 | none iff no row has that id; otherwise the first element of `GetAssetPrices` |
| `AssetsService.InsertPriced` | app/services/assets_service.py:35-50 | with no stored rate, a 404 "No exchange rate found" and the table kept; otherwise exactly one row appended, priced with a latest rate |
| `AssetsService.RefreshAsset` | app/services/assets_service.py:26-50 | a repeat returns the first stored row and keeps the table; otherwise, with no stored rate it raises 404 "No exchange rate found" and keeps the table; otherwise it appends exactly one row with the asset id, the fetched time and price, `vnd_price = price * usd_to_vnd` of a latest rate and that rate's time |
| `AssetsService.RefreshTouchesOnlyItsAsset` | app/services/assets_service.py:42-50 | a refresh leaves every other asset's rows as they were, and its own rows either unchanged or extended by one row with the fetched time and price |
| `AssetsService.RawComparisonNeverRepeats` | app/services/assets_service.py:27-32 | with the raw epoch number or raw string on the right of the time test, and a stored rate, every refresh takes the insert path (which the table's key rejects at commit when the row's key is already stored) |
| `AssetsService.RepeatedFetchAsWrittenAppendsTwice` | app/services/assets_service.py:26-50 | two refreshes with the same time and price, starting with no row of the asset and with a newer rate stored between them, leave two rows of the asset with equal time and price and different keys |
| `AssetsService.FirstRowRuleKeepsTableIff` | app/services/assets_service.py:26-32 | with the parsed `datetime` compared against the first row, a refresh keeps the table iff no rate is stored or the asset's first row has the fetched time and price |
| `AssetsService.FirstRowRuleAppendsAfterOlderRow` | app/services/assets_service.py:114-118 | with an older row of the asset stored, two refreshes with the same time and price both insert even with the parsed `datetime` compared, leaving three rows |
| `AssetsService.RefreshAssetIntended` | app/services/assets_service.py:26-50 | the rule as intended: a repeat of the asset's most recent row returns it and keeps the table; anything else takes the insert path |
| `AssetsService.RepeatedFetchIntendedIsIdempotent` | app/services/assets_service.py:26-50 | with the intended rule, from any table and with any rates stored in between, a refresh repeating one that stored or found a row keeps the table and returns that row; a refresh adds at most one row of its asset |
| `AssetsService.CreateGoldPrice` | app/services/assets_service.py:13-55 | a non-200 status raises that status and keeps the table; an epoch `fromtimestamp` cannot convert raises before any table is read and keeps the table; otherwise the result and the new table are those of `RefreshAsset` for asset 1 at `fromtimestamp(timestamp)`, compared with the raw epoch number; rates untouched |
| `AssetsService.CreateBitcoinPrice` | app/services/assets_service.py:58-104 | a non-200 status raises that status; an unparsable `last_updated` raises `ValueError`; a parsed time within 7 hours of `datetime.max` raises `OverflowError` at the shift; all three keep the table; otherwise `RefreshAsset` for asset 2 at the parsed time plus 7 hours, compared with the raw string |
| `PriceCharts.PricePoint.Get` | frontend/src/interfaces.ts:1-12 | each of the five asset-price fields and the two exchange-rate fields by name, and `undefined` for every other key the dashboard reads (any key outside the record's field names, inherited `Object.prototype` members aside) |
| `PriceCharts.RemoveFirstCommaAt` | frontend/src/App.tsx:69 | the label loses exactly the character at the first comma's position, and a string without a comma is unchanged |
| `PriceCharts.RemoveFirstCommaKeepsTheRest` | frontend/src/App.tsx:69 | exactly one comma is removed when there is one; every other character, later commas included, is kept |
| `PriceCharts.Labels` | frontend/src/App.tsx:58-70 | one label per point, in input order, each the formatted date with its first comma removed |
| `PriceCharts.Values` | frontend/src/App.tsx:71 | one value per point, in input order, each exactly the point's `valueKey` field |
| `PriceCharts.ProcessData` | frontend/src/App.tsx:53-73 | absent data gives absent labels and values; otherwise both have the input's length and hold the point-wise label and value |
| `PriceCharts.CreateChartData` | frontend/src/App.tsx:35-51 | exactly one dataset, carrying the given title, data and colour, with `fill = false` and tension 0.2 |
| `PriceCharts.OrEmpty` | frontend/src/App.tsx:223-224 | an absent array becomes empty; a present one, even empty, is kept |
| `PriceCharts.PanelChartAligned` | frontend/src/App.tsx:220-228 | a panel's chart has one dataset, with as many values as labels and as many labels as fetched points; missing or empty data gives an empty chart |
| `PriceCharts.Toggle` | frontend/src/App.tsx:385-386 | the switch always selects the other price type |
| `PriceCharts.ToggleInvolution` | frontend/src/App.tsx:385-386 | switching twice restores the original price type |
| `PriceCharts.SwitchCaption` | frontend/src/App.tsx:389 | the switch button names the type that a click selects |
| `PriceCharts.AssetChartFollowsPriceType` | frontend/src/App.tsx:119-128 | the gold and bitcoin charts show, point by point, the price in the selected currency; switching changes the values and not the labels |
| `PriceCharts.Suffix` | frontend/src/App.tsx:166 | the unit is "USD" iff the type is `usd_price` |
| `PriceCharts.LatestField` | frontend/src/App.tsx:178 | `undefined` while the latest record is absent, else the record's field |
| `PriceCharts.LatestPriceText` | frontend/src/App.tsx:165-167 | "N/A" iff the price is `null`; a number shows formatted with the unit; `undefined` shows as "undefined" with the unit |
| `PriceCharts.LatestPriceWhileLoading` | frontend/src/App.tsx:165-167 | while the latest record is loading, the panel shows "undefined USD" or "undefined VND", not "N/A" |
| `PriceCharts.LatestPriceTextIntended` | frontend/src/App.tsx:165-167 | with a loose null test, "N/A" iff the price is `null` or `undefined` |
| `PriceCharts.LatestPriceIntendedWhileLoading` | frontend/src/App.tsx:165-167 | with the loose test a loading panel shows "N/A"; a loaded asset panel's text is unchanged |
| `RefreshCooldown.Click` | frontend/src/App.tsx:355-362 | a click on the enabled button disables it with countdown 10; a disabled button ignores clicks |
| `RefreshCooldown.Tick` | frontend/src/App.tsx:139-148 | a tick at 1 gives 0 and re-enables; any other tick while disabled subtracts exactly 1; no tick affects an enabled button |
| `RefreshCooldown.StepPreservesInv` | frontend/src/App.tsx:135-151 | each event keeps `disabled <=> 1 <= countdown <= 10`, with countdown 0 when enabled |
| `RefreshCooldown.RunPreservesInv` | frontend/src/App.tsx:135-151 | every run of events from a valid state keeps that invariant |
| `RefreshCooldown.CountdownAfterTicks` | frontend/src/App.tsx:140-147 | from countdown `n`, `k` ticks leave `n - k` while `k < n`, and enabled at 0 from then on |
| `RefreshCooldown.IdleIgnoresTicks` | frontend/src/App.tsx:142-150 | an enabled button stays enabled at 0 under any number of ticks |
| `RefreshCooldown.ClickThenTicks` | frontend/src/App.tsx:135-151 | after a click, the button stays disabled for nine ticks and is enabled at 0 by exactly the tenth |
| `RefreshCooldown.ClickDuringCountdownIgnored` | frontend/src/App.tsx:355-362 | a second click during the countdown changes nothing: still disabled after nine ticks, enabled after ten from the first click, one refresh posted |
| `RefreshCooldown.DispatchesBoundedByTicks` | frontend/src/App.tsx:355-362 | ten times the refreshes posted, plus the initial countdown, is at most the ticks received plus the final countdown |
| `RefreshCooldown.SecondRefreshNeedsTenTicks` | frontend/src/App.tsx:355-362 | after a click that posts a refresh, the events that follow post another only once at least ten of them have been ticks |
| `RefreshCooldown.RefreshButton.constructor` | frontend/src/App.tsx:79-80 | the button starts enabled with countdown 0 |
| `RefreshCooldown.RefreshButton.OnClick` | frontend/src/App.tsx:357-361 | the new state is `Click` of the old one; both refreshes are posted iff the button was enabled |
| `RefreshCooldown.RefreshButton.OnTick` | frontend/src/App.tsx:139-148 | the new state is `Tick` of the old one; the interval is cleared iff the tick found the button disabled at 1 |

## Findings

| source | as written | input that shows it | evidently intended | confidence | as-written member | corrected member |
|---|---|---|---|---|---|---|
| frontend/src/App.tsx:165-167 | `price !== null` is true for `undefined`, so the template prints "undefined" | the latest gold record still loading (`latestGoldPrice` undefined) shows "undefined USD" | show "N/A" for a missing price, `null` or `undefined` | high; not executed | `PriceCharts.LatestPriceWhileLoading` | `PriceCharts.LatestPriceIntendedWhileLoading` |
| app/services/assets_service.py:27-32 | the stored `datetime` is compared with the raw epoch `timestamp`, which Python's `==` never equates | no gold row yet; two gold refreshes with the same response, a newer exchange rate stored between them: two gold rows with equal time and price (their keys differ in the rate time) | compare with the parsed `price_recorded_at` | high; not executed | `AssetsService.RepeatedFetchAsWrittenAppendsTwice` | `AssetsService.RepeatedFetchIntendedIsIdempotent` |
| app/services/assets_service.py:76-81 | the stored `datetime` is compared with the raw `last_updated` string, which Python's `==` never equates | no bitcoin row yet; two bitcoin refreshes with the same response, a newer exchange rate stored between them: two bitcoin rows with equal time and price | compare with the parsed and shifted `price_recorded_at` | high; not executed | `AssetsService.RepeatedFetchAsWrittenAppendsTwice` | `AssetsService.RepeatedFetchIntendedIsIdempotent` |
| app/services/assets_service.py:114-118 | the repeat test reads the asset's first row, a query with no `ORDER BY`, which in insertion order is the oldest row | a gold row at an earlier time stored; two gold refreshes with the same response, a newer rate stored between them: both insert even if the time comparison is fixed | compare with the asset's most recent row | medium (SQL leaves the row order open); not executed | `AssetsService.FirstRowRuleAppendsAfterOlderRow` | `AssetsService.RepeatedFetchIntendedIsIdempotent` |

`CreateGoldPrice`, `CreateBitcoinPrice` and `LatestPriceText` model the
code as written, because that is what runs. `RefreshAssetIntended` is the
corrected rule: it compares the parsed `datetime` and the price with the
asset's most recent row and shares its insert path (`InsertPriced`) with
`RefreshAsset`. `LatestPriceTextIntended` is the corrected panel text.

One more detail of the code as written: the exchange-rate panel passes
`priceType="usd_price"` (frontend/src/App.tsx:297). So a VND-per-USD rate
is written with the unit "USD".

## Left out

- Outbound HTTP to the three providers is not modelled, nor are the API keys (app/config.py) or the provider URL built from today's date. The status code and the fields read from a response are parameters. A response missing a field (for example a `None` date reaching `len`) is not modelled.
- `datetime.strptime`, `datetime.fromtimestamp`, `Date.toLocaleString` and `Number.toLocaleString` are parameters. They come from library code, and their formats are not modelled.
- CreateGoldPrice: the `OverflowError`, `OSError` or `ValueError` that `datetime.fromtimestamp` raises on an out-of-range epoch are one `ValueError` in the model; which of the three is raised is not modelled.
- PricePoint.Get: a key naming a member inherited from `Object.prototype` ("constructor", "toString", "__proto__", ...) returns that member in JavaScript; the model returns `undefined` for it. No call site in frontend/src/App.tsx passes such a key.
- SQL sessions, `commit` and transactions are not modelled; each table is a sequence, and add-and-commit appends to it.
- The primary keys of app/models.py are not enforced. Where the model appends a row whose key (`recorded_at`, or asset id, price time and rate time) is already stored, the real commit raises a database error that nothing catches, so the request ends with status 500; that failure is not modelled. The witnesses under "## Findings" insert rows whose keys differ.
- Query results without `ORDER BY` come back in insertion order in this model. SQL leaves that order open.
- GetCurrentExchangeRate: among rows sharing the latest time, the model returns the first in table order. Its contract does not say which one, because the source's query leaves it open.
- `vnd_price` uses `real` multiplication. Floating-point rounding is not modelled.
- Python truthiness of a previous row is modelled as its presence. A SQLModel row defines no `__bool__`, so a present row is always truthy.
- React rendering is not modelled. Neither are the date pickers and their wall-clock defaults, the loading spinners, or the countdown caption on the button.
- Interval timing is not modelled; ticks are discrete events.
- RefreshCooldown.Click: the click and the effect's `setCountdown(10)` are one step. The intermediate render, with the button disabled and the countdown still 0, is not modelled.
- Tearing down the page mid-countdown, when the effect cleanup clears the interval, is not modelled.
- The outcome of the two refresh requests a click posts is not modelled. The countdown starts whatever they return.
- The react-query hooks of frontend/src/api.ts (cache, invalidation, loading flags) are not part of this model. The page imports hooks that file does not export, so any cache model would be invented. A series is present or absent.
- The HTTP routers (app/routers) and the bootstrapping in app/main.py and frontend/src/main.tsx are not part of this model.
