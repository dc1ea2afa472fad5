/** The asset-price service (app/services/assets_service.py): querying the
    price table by asset and appending the gold or bitcoin price fetched
    from a provider, priced in VND with the latest exchange rate. */
module AssetsService {
  import opened Common
  import opened Models
  import opened ExchangeRatesService

  /** `get_asset_prices`: the rows of asset `assetId`, in table order. */
  function GetAssetPrices(prices: seq<AssetPrice>, assetId: int): (r: seq<AssetPrice>)
    ensures forall x :: x in r <==> x in prices && x.assetId == assetId
    ensures |r| <= |prices|
  {
    if |prices| == 0 then []
    else if prices[0].assetId == assetId then [prices[0]] + GetAssetPrices(prices[1..], assetId)
    else GetAssetPrices(prices[1..], assetId)
  }

  /** Selecting by asset distributes over concatenation, so the selection
      keeps the rows in the order the table has them. */
  lemma {:induction false} GetAssetPricesAppend(a: seq<AssetPrice>, b: seq<AssetPrice>, assetId: int)
    ensures GetAssetPrices(a + b, assetId) == GetAssetPrices(a, assetId) + GetAssetPrices(b, assetId)
  {
    if |a| == 0 {
      assert a + b == b;
    } else {
      assert (a + b)[1..] == a[1..] + b;
      GetAssetPricesAppend(a[1..], b, assetId);
    }
  }

  /** `get_first_asset_price`: the first row of asset `assetId`, or none. */
  function GetFirstAssetPrice(prices: seq<AssetPrice>, assetId: int): (r: Option<AssetPrice>)
    ensures r.None? <==> forall x :: x in prices ==> x.assetId != assetId
    ensures r.None? <==> GetAssetPrices(prices, assetId) == []
    ensures r.Some? ==> GetAssetPrices(prices, assetId) != [] && r.value == GetAssetPrices(prices, assetId)[0]
  {
    if |prices| == 0 then None
    else if prices[0].assetId == assetId then Some(prices[0])
    else GetFirstAssetPrice(prices[1..], assetId)
  }

  /** The early-return test of both create functions: a previous row exists
      and both its `price_recorded_at` and its `usd_price` `==` what was
      fetched. `compared` is the value the code puts on the right of the
      time comparison. */
  predicate IsRepeat(prev: Option<AssetPrice>, compared: PyValue, price: real)
  {
    prev.Some? && PyEquals(PyDateTime(prev.value.priceRecordedAt), compared) && prev.value.usdPrice == price
  }

  /** The row inserted for a fetched price, priced with `rate`. */
  function PricedRow(assetId: int, recordedAt: Timestamp, price: real, rate: ExchangeRate): (row: AssetPrice)
    ensures row.assetId == assetId && row.priceRecordedAt == recordedAt && row.usdPrice == price
    ensures row.exchangeRateRecordedAt == rate.recordedAt && row.vndPrice == price * rate.usdToVnd
  {
    AssetPrice(assetId, recordedAt, rate.recordedAt, price, price * rate.usdToVnd)
  }

  /** The result of refreshing one asset: what the create function returns
      or raises, and the price table afterwards. */
  datatype AssetRefresh = AssetRefresh(out: Outcome<Option<AssetPrice>>, table: seq<AssetPrice>)

  /** The insert path of both create functions: raise 404 when no exchange
      rate is stored, otherwise append one row priced with the latest rate. */
  function InsertPriced(
    prices: seq<AssetPrice>, rates: seq<ExchangeRate>, assetId: int,
    recordedAt: Timestamp, price: real): (u: AssetRefresh)
    ensures |rates| == 0 ==>
      u.out == Raised(HttpError(HTTP_404_NOT_FOUND, "No exchange rate found")) && u.table == prices
    ensures |rates| > 0 ==>
      u.out == Returned(None) &&
      exists rate :: rate in rates && (forall x :: x in rates ==> x.recordedAt <= rate.recordedAt) &&
        u.table == prices + [PricedRow(assetId, recordedAt, price, rate)]
  {
    match GetCurrentExchangeRate(rates)
    case None => AssetRefresh(Raised(HttpError(HTTP_404_NOT_FOUND, "No exchange rate found")), prices)
    case Some(rate) => AssetRefresh(Returned(None), prices + [PricedRow(assetId, recordedAt, price, rate)])
  }

  /** The update rule applied to a successfully fetched price of asset
      `assetId` recorded at `recordedAt`: return the first stored row of
      that asset when it is a repeat, otherwise take the insert path. */
  function RefreshAsset(
    prices: seq<AssetPrice>, rates: seq<ExchangeRate>, assetId: int,
    recordedAt: Timestamp, compared: PyValue, price: real): (u: AssetRefresh)
    ensures IsRepeat(GetFirstAssetPrice(prices, assetId), compared, price) ==>
      u.out == Returned(GetFirstAssetPrice(prices, assetId)) && u.table == prices
    ensures !IsRepeat(GetFirstAssetPrice(prices, assetId), compared, price) && |rates| == 0 ==>
      u.out == Raised(HttpError(HTTP_404_NOT_FOUND, "No exchange rate found")) && u.table == prices
    ensures !IsRepeat(GetFirstAssetPrice(prices, assetId), compared, price) && |rates| > 0 ==>
      u.out == Returned(None) &&
      exists rate :: rate in rates && (forall x :: x in rates ==> x.recordedAt <= rate.recordedAt) &&
        u.table == prices + [PricedRow(assetId, recordedAt, price, rate)]
  {
    var prev := GetFirstAssetPrice(prices, assetId);
    if IsRepeat(prev, compared, price) then AssetRefresh(Returned(prev), prices)
    else InsertPriced(prices, rates, assetId, recordedAt, price)
  }

  /** A refresh that is not a repeat, with a rate stored, appends the row
      priced with the latest rate. */
  lemma RefreshInserts(
    prices: seq<AssetPrice>, rates: seq<ExchangeRate>, assetId: int,
    recordedAt: Timestamp, compared: PyValue, price: real)
    requires !IsRepeat(GetFirstAssetPrice(prices, assetId), compared, price)
    requires |rates| > 0
    ensures RefreshAsset(prices, rates, assetId, recordedAt, compared, price).table ==
      prices + [PricedRow(assetId, recordedAt, price, GetCurrentExchangeRate(rates).value)]
  {
  }

  /** A refresh of one asset changes at most that asset's rows, and only by
      appending one row recorded at the fetched time with the fetched price. */
  lemma {:induction false} RefreshTouchesOnlyItsAsset(
    prices: seq<AssetPrice>, rates: seq<ExchangeRate>, assetId: int,
    recordedAt: Timestamp, compared: PyValue, price: real, other: int)
    requires other != assetId
    ensures var u := RefreshAsset(prices, rates, assetId, recordedAt, compared, price);
      GetAssetPrices(u.table, other) == GetAssetPrices(prices, other) &&
      (GetAssetPrices(u.table, assetId) == GetAssetPrices(prices, assetId) ||
       exists row: AssetPrice :: row.assetId == assetId && row.priceRecordedAt == recordedAt && row.usdPrice == price &&
         GetAssetPrices(u.table, assetId) == GetAssetPrices(prices, assetId) + [row])
  {
    var u := RefreshAsset(prices, rates, assetId, recordedAt, compared, price);
    if u.table != prices {
      var rate :| rate in rates && (forall x :: x in rates ==> x.recordedAt <= rate.recordedAt) &&
        u.table == prices + [PricedRow(assetId, recordedAt, price, rate)];
      var row := PricedRow(assetId, recordedAt, price, rate);
      GetAssetPricesAppend(prices, [row], other);
      GetAssetPricesAppend(prices, [row], assetId);
      assert GetAssetPrices([row], assetId) == [row];
    }
  }

  /** As written, the time test compares the stored `datetime` with the
      provider's raw epoch number (gold) or raw `last_updated` string
      (bitcoin); Python's `==` between those kinds is false, so the early
      return is never taken and, with a rate stored, every refresh takes the
      insert path. (Where the new row's key is already stored, the real
      table then rejects it at commit.) */
  lemma RawComparisonNeverRepeats(
    prices: seq<AssetPrice>, rates: seq<ExchangeRate>, assetId: int,
    recordedAt: Timestamp, compared: PyValue, price: real)
    requires compared.PyInt? || compared.PyStr?
    requires |rates| > 0
    ensures var u := RefreshAsset(prices, rates, assetId, recordedAt, compared, price);
      u.out == Returned(None) && |u.table| == |prices| + 1
  {
  }

  /** Two refreshes of an asset that fetch the same price and time, on a
      table with no row of that asset yet, with a newer exchange rate stored
      between them: as written both insert. The two rows have the same time
      and price but differ in `exchange_rate_recorded_at`, so their keys
      differ and the real table stores both: one observation, two rows. */
  lemma {:induction false} RepeatedFetchAsWrittenAppendsTwice(
    prices: seq<AssetPrice>, rates: seq<ExchangeRate>, newer: ExchangeRate,
    assetId: int, recordedAt: Timestamp, compared: PyValue, price: real)
    requires compared.PyInt? || compared.PyStr?
    requires GetFirstAssetPrice(prices, assetId).None?
    requires |rates| > 0
    requires forall x :: x in rates ==> x.recordedAt < newer.recordedAt
    ensures var once := RefreshAsset(prices, rates, assetId, recordedAt, compared, price).table;
      var twice := RefreshAsset(once, rates + [newer], assetId, recordedAt, compared, price).table;
      var rows := GetAssetPrices(twice, assetId);
      |rows| == 2 &&
      rows[0].priceRecordedAt == rows[1].priceRecordedAt == recordedAt &&
      rows[0].usdPrice == rows[1].usdPrice == price &&
      rows[0].exchangeRateRecordedAt != rows[1].exchangeRateRecordedAt
  {
    var rates2 := rates + [newer];
    LatestAfterAppend(rates, newer);
    var row1 := PricedRow(assetId, recordedAt, price, GetCurrentExchangeRate(rates).value);
    var row2 := PricedRow(assetId, recordedAt, price, GetCurrentExchangeRate(rates2).value);
    RefreshInserts(prices, rates, assetId, recordedAt, compared, price);
    RefreshInserts(prices + [row1], rates2, assetId, recordedAt, compared, price);
    AppendTwoRows(prices, row1, row2, assetId);
  }

  /** Two rows of an asset appended to a table with none of its rows are
      then its only rows, in that order. */
  lemma AppendTwoRows(prices: seq<AssetPrice>, row1: AssetPrice, row2: AssetPrice, assetId: int)
    requires GetFirstAssetPrice(prices, assetId).None?
    requires row1.assetId == assetId && row2.assetId == assetId
    ensures GetAssetPrices(prices + [row1] + [row2], assetId) == [row1, row2]
  {
    GetAssetPricesAppend(prices, [row1], assetId);
    GetAssetPricesAppend(prices + [row1], [row2], assetId);
    assert GetAssetPrices([row1], assetId) == [row1];
    assert GetAssetPrices([row2], assetId) == [row2];
  }

  /** With the parsed `datetime` compared but still against the first row,
      a refresh keeps the table exactly when no rate is stored or the
      asset's first row has the fetched time and price. */
  lemma FirstRowRuleKeepsTableIff(
    prices: seq<AssetPrice>, rates: seq<ExchangeRate>, assetId: int,
    recordedAt: Timestamp, price: real)
    ensures RefreshAsset(prices, rates, assetId, recordedAt, PyDateTime(recordedAt), price).table == prices <==>
      |rates| == 0 ||
      (GetFirstAssetPrice(prices, assetId).Some? &&
       GetFirstAssetPrice(prices, assetId).value.priceRecordedAt == recordedAt &&
       GetFirstAssetPrice(prices, assetId).value.usdPrice == price)
  {
    var u := RefreshAsset(prices, rates, assetId, recordedAt, PyDateTime(recordedAt), price);
    if !IsRepeat(GetFirstAssetPrice(prices, assetId), PyDateTime(recordedAt), price) && |rates| > 0 {
      assert |u.table| == |prices| + 1;
    }
  }

  /** The first-row comparison repeats only the asset's oldest observation:
      with an older row of the asset stored, two refreshes with the same
      time and price (a newer rate stored between them) both insert, even
      with the parsed `datetime` compared. */
  lemma {:induction false} FirstRowRuleAppendsAfterOlderRow(
    older: AssetPrice, rates: seq<ExchangeRate>, newer: ExchangeRate,
    recordedAt: Timestamp, price: real)
    requires older.priceRecordedAt < recordedAt
    requires |rates| > 0
    requires forall x :: x in rates ==> x.recordedAt < newer.recordedAt
    ensures var once := RefreshAsset([older], rates, older.assetId, recordedAt, PyDateTime(recordedAt), price).table;
      var twice := RefreshAsset(once, rates + [newer], older.assetId, recordedAt, PyDateTime(recordedAt), price).table;
      |GetAssetPrices(twice, older.assetId)| == 3
  {
    var id := older.assetId;
    var rates2 := rates + [newer];
    var row1 := PricedRow(id, recordedAt, price, GetCurrentExchangeRate(rates).value);
    var row2 := PricedRow(id, recordedAt, price, GetCurrentExchangeRate(rates2).value);
    assert GetFirstAssetPrice([older], id) == Some(older);
    RefreshInserts([older], rates, id, recordedAt, PyDateTime(recordedAt), price);
    var once := [older] + [row1];
    assert once[0] == older;
    assert GetFirstAssetPrice(once, id) == Some(older);
    RefreshInserts(once, rates2, id, recordedAt, PyDateTime(recordedAt), price);
    GetAssetPricesAppend([older], [row1], id);
    GetAssetPricesAppend(once, [row2], id);
    assert GetAssetPrices([older], id) == [older];
    assert GetAssetPrices([row1], id) == [row1];
    assert GetAssetPrices([row2], id) == [row2];
  }

  /** The asset's most recently inserted row: the last of its rows in table
      order, or none. */
  function LastAssetPrice(prices: seq<AssetPrice>, assetId: int): Option<AssetPrice>
  {
    var rows := GetAssetPrices(prices, assetId);
    if |rows| == 0 then None else Some(rows[|rows| - 1])
  }

  /** The update rule as evidently intended: the fetched time, parsed, and
      the fetched price are compared with the asset's most recent row. */
  function RefreshAssetIntended(
    prices: seq<AssetPrice>, rates: seq<ExchangeRate>, assetId: int,
    recordedAt: Timestamp, price: real): (u: AssetRefresh)
    ensures IsRepeat(LastAssetPrice(prices, assetId), PyDateTime(recordedAt), price) ==>
      u.out == Returned(LastAssetPrice(prices, assetId)) && u.table == prices
    ensures !IsRepeat(LastAssetPrice(prices, assetId), PyDateTime(recordedAt), price) ==>
      u == InsertPriced(prices, rates, assetId, recordedAt, price)
  {
    var prev := LastAssetPrice(prices, assetId);
    if IsRepeat(prev, PyDateTime(recordedAt), price) then AssetRefresh(Returned(prev), prices)
    else InsertPriced(prices, rates, assetId, recordedAt, price)
  }

  /** With the intended rule, from any table, a refresh that repeats the
      observation of one that stored or found a row keeps the table,
      whatever exchange rates are stored by then; a refresh adds at most
      one row of its asset. */
  lemma {:induction false} RepeatedFetchIntendedIsIdempotent(
    prices: seq<AssetPrice>, rates: seq<ExchangeRate>, later: seq<ExchangeRate>,
    assetId: int, recordedAt: Timestamp, price: real)
    requires |rates| > 0
    ensures var once := RefreshAssetIntended(prices, rates, assetId, recordedAt, price);
      var twice := RefreshAssetIntended(once.table, later, assetId, recordedAt, price);
      twice.table == once.table &&
      twice.out == Returned(LastAssetPrice(once.table, assetId)) &&
      |GetAssetPrices(once.table, assetId)| <= |GetAssetPrices(prices, assetId)| + 1
  {
    var once := RefreshAssetIntended(prices, rates, assetId, recordedAt, price);
    if once.table != prices {
      var rate :| rate in rates && (forall x :: x in rates ==> x.recordedAt <= rate.recordedAt) &&
        once.table == prices + [PricedRow(assetId, recordedAt, price, rate)];
      var row := PricedRow(assetId, recordedAt, price, rate);
      GetAssetPricesAppend(prices, [row], assetId);
      assert GetAssetPrices([row], assetId) == [row];
      assert LastAssetPrice(once.table, assetId) == Some(row);
    }
  }

  /** `create_gold_price`, with the provider's response given as its status
      code, its `price` and its epoch `timestamp`, and `fromTimestamp`
      standing for `datetime.fromtimestamp` (local time; none when the epoch
      is outside the platform's range, where Python raises `OverflowError`,
      `OSError` or `ValueError`, all modelled as `ValueError`). */
  method CreateGoldPrice(
    session: Session, status: int, price: real, timestamp: int,
    fromTimestamp: int -> Option<Timestamp>)
    returns (out: Outcome<Option<AssetPrice>>)
    modifies session
    ensures session.exchangeRates == old(session.exchangeRates)
    ensures status != HTTP_200_OK ==>
      out == Raised(HttpError(status, "Failed to fetch gold price")) &&
      session.assetPrices == old(session.assetPrices)
    ensures status == HTTP_200_OK && fromTimestamp(timestamp).None? ==>
      out == Raised(ValueError) && session.assetPrices == old(session.assetPrices)
    ensures status == HTTP_200_OK && fromTimestamp(timestamp).Some? ==>
      var u := RefreshAsset(old(session.assetPrices), old(session.exchangeRates), GoldId,
                            fromTimestamp(timestamp).value, PyInt(timestamp), price);
      out == u.out && session.assetPrices == u.table
  {
    if status == HTTP_200_OK {
      var converted := fromTimestamp(timestamp);
      if converted.None? {
        return Raised(ValueError);
      }
      var priceRecordedAt := converted.value;
      var prevGoldPrice := GetFirstAssetPrice(session.assetPrices, GoldId);
      if IsRepeat(prevGoldPrice, PyInt(timestamp), price) {
        return Returned(prevGoldPrice);
      }
      var currExchangeRate := GetCurrentExchangeRate(session.exchangeRates);
      if currExchangeRate.None? {
        return Raised(HttpError(HTTP_404_NOT_FOUND, "No exchange rate found"));
      }
      var goldPrice := AssetPrice(
        GoldId, priceRecordedAt, currExchangeRate.value.recordedAt,
        price, price * currExchangeRate.value.usdToVnd);
      assert goldPrice == PricedRow(GoldId, priceRecordedAt, price, currExchangeRate.value);
      session.assetPrices := session.assetPrices + [goldPrice];
      out := Returned(None);
    } else {
      out := Raised(HttpError(status, "Failed to fetch gold price"));
    }
  }

  /** `create_bitcoin_price`, with the provider's response given as its
      status code, its `price` and its `last_updated` string, and
      `strptime` standing for `datetime.strptime(_, "%Y-%m-%dT%H:%M:%S.%fZ")`
      (none when the string does not match). The parsed UTC time is
      shifted by seven hours to Vietnam time; a shift past `datetime.max`
      raises `OverflowError`. */
  method CreateBitcoinPrice(
    session: Session, status: int, price: real, lastUpdated: string,
    strptime: string -> Option<Timestamp>)
    returns (out: Outcome<Option<AssetPrice>>)
    modifies session
    ensures session.exchangeRates == old(session.exchangeRates)
    ensures status != HTTP_200_OK ==>
      out == Raised(HttpError(status, "Failed to fetch Bitcoin price")) &&
      session.assetPrices == old(session.assetPrices)
    ensures status == HTTP_200_OK && strptime(lastUpdated).None? ==>
      out == Raised(ValueError) && session.assetPrices == old(session.assetPrices)
    ensures status == HTTP_200_OK && strptime(lastUpdated).Some? &&
            strptime(lastUpdated).value + 7 * MicrosPerHour > MaxDatetime ==>
      out == Raised(OverflowError) && session.assetPrices == old(session.assetPrices)
    ensures status == HTTP_200_OK && strptime(lastUpdated).Some? &&
            strptime(lastUpdated).value + 7 * MicrosPerHour <= MaxDatetime ==>
      var u := RefreshAsset(old(session.assetPrices), old(session.exchangeRates), BitcoinId,
                            strptime(lastUpdated).value + 7 * MicrosPerHour, PyStr(lastUpdated), price);
      out == u.out && session.assetPrices == u.table
  {
    if status == HTTP_200_OK {
      var parsed := strptime(lastUpdated);
      if parsed.None? {
        return Raised(ValueError);
      }
      var priceRecordedAt := parsed.value;
      if priceRecordedAt + 7 * MicrosPerHour > MaxDatetime {
        return Raised(OverflowError);
      }
      priceRecordedAt := priceRecordedAt + 7 * MicrosPerHour;
      var prevBitcoinPrice := GetFirstAssetPrice(session.assetPrices, BitcoinId);
      if IsRepeat(prevBitcoinPrice, PyStr(lastUpdated), price) {
        return Returned(prevBitcoinPrice);
      }
      var currExchangeRate := GetCurrentExchangeRate(session.exchangeRates);
      if currExchangeRate.None? {
        return Raised(HttpError(HTTP_404_NOT_FOUND, "No exchange rate found"));
      }
      var bitcoinPrice := AssetPrice(
        BitcoinId, priceRecordedAt, currExchangeRate.value.recordedAt,
        price, price * currExchangeRate.value.usdToVnd);
      assert bitcoinPrice == PricedRow(BitcoinId, priceRecordedAt, price, currExchangeRate.value);
      session.assetPrices := session.assetPrices + [bitcoinPrice];
      out := Returned(None);
    } else {
      out := Raised(HttpError(status, "Failed to fetch Bitcoin price"));
    }
  }
}
