/** The exchange-rate service (app/services/exchange_rates_service.py):
    querying the rate table and appending the rate fetched from the
    currency provider unless it is the one already latest. */
module ExchangeRatesService {
  import opened Common
  import opened Models

  const DayOnlyLength := 10
  const MidnightSuffix := " 00:00:00"

  /** Brings a `YYYY-MM-DD` date to the `YYYY-MM-DD HH:MM:SS` form by
      appending midnight; a string of any other length is kept as it is. */
  function NormalizeDate(date: string): (r: string)
    ensures |date| == DayOnlyLength ==> |r| == 19 && r[..DayOnlyLength] == date && r[DayOnlyLength..] == MidnightSuffix
    ensures |date| != DayOnlyLength ==> r == date
  {
    if |date| == DayOnlyLength then date + MidnightSuffix else date
  }

  lemma NormalizeDateIdempotent(date: string)
    ensures NormalizeDate(NormalizeDate(date)) == NormalizeDate(date)
  {
  }

  /** `get_exchange_rates`: every stored rate, in table order. */
  function GetExchangeRates(rates: seq<ExchangeRate>): (r: seq<ExchangeRate>)
    ensures |r| == |rates| && forall i :: 0 <= i < |r| ==> r[i] == rates[i]
  {
    rates
  }

  /** `get_current_exchange_rate`: the row ordered first by `recorded_at`
      descending (among rows sharing the latest time, the first in table
      order), or none when the table is empty. */
  function GetCurrentExchangeRate(rates: seq<ExchangeRate>): (r: Option<ExchangeRate>)
    ensures r.None? <==> |rates| == 0
    ensures r.Some? ==> r.value in rates
    ensures r.Some? ==> forall x :: x in rates ==> x.recordedAt <= r.value.recordedAt
  {
    if |rates| == 0 then None
    else
      match GetCurrentExchangeRate(rates[1..])
      case None => Some(rates[0])
      case Some(rest) => if rest.recordedAt > rates[0].recordedAt then Some(rest) else Some(rates[0])
  }

  /** The latest time after an append is the later of the old latest time
      and the appended row's time. */
  lemma LatestAfterAppend(rates: seq<ExchangeRate>, x: ExchangeRate)
    ensures GetCurrentExchangeRate(rates + [x]).Some?
    ensures GetCurrentExchangeRate(rates + [x]).value.recordedAt ==
      match GetCurrentExchangeRate(rates)
      case None => x.recordedAt
      case Some(c) => if c.recordedAt < x.recordedAt then x.recordedAt else c.recordedAt
  {
  }

  /** The result of refreshing the rate table: what `create_exchange_rate`
      returns (the latest row, or nothing after an insert) and the table
      afterwards. */
  datatype RateRefresh = RateRefresh(returned: Option<ExchangeRate>, table: seq<ExchangeRate>)

  /** The update rule applied to a successfully fetched and parsed rate:
      keep the table when its latest row already has the fetched time,
      otherwise append the fetched rate. */
  function RefreshRates(rates: seq<ExchangeRate>, recordedAt: Timestamp, usdToVnd: real): (u: RateRefresh)
    ensures u.returned.Some? <==> u.table == rates
    ensures u.returned.Some? <==>
      GetCurrentExchangeRate(rates).Some? && GetCurrentExchangeRate(rates).value.recordedAt == recordedAt
    ensures u.returned.Some? ==> u.returned == GetCurrentExchangeRate(rates)
    ensures u.returned.None? ==> u.table == rates + [ExchangeRate(recordedAt, usdToVnd)]
    ensures exists x :: x in u.table && x.recordedAt == recordedAt
  {
    var current := GetCurrentExchangeRate(rates);
    if current.Some? && current.value.recordedAt == recordedAt then
      RateRefresh(current, rates)
    else
      var appended := rates + [ExchangeRate(recordedAt, usdToVnd)];
      assert appended[|rates|] in appended;
      RateRefresh(None, appended)
  }

  /** Refreshing twice with a rate that is at least as late as every stored
      one stores it once: the second refresh finds it latest and keeps the
      table. */
  lemma RefreshTwiceWithNewestRate(rates: seq<ExchangeRate>, recordedAt: Timestamp, usdToVnd: real)
    requires forall x :: x in rates ==> x.recordedAt <= recordedAt
    ensures RefreshRates(RefreshRates(rates, recordedAt, usdToVnd).table, recordedAt, usdToVnd).table ==
            RefreshRates(rates, recordedAt, usdToVnd).table
  {
  }

  /** A rate older than the latest stored one is not recognised by the next
      refresh that fetches it, since only the latest row is compared: the
      rule appends it again. `recorded_at` is the real table's key, so there
      that second insert is rejected at commit and the refresh fails. */
  lemma RefreshWithOlderRateAppendsAgain(rates: seq<ExchangeRate>, recordedAt: Timestamp, usdToVnd: real)
    requires exists x :: x in rates && recordedAt < x.recordedAt
    ensures var once := RefreshRates(rates, recordedAt, usdToVnd).table;
            RefreshRates(once, recordedAt, usdToVnd).table == once + [ExchangeRate(recordedAt, usdToVnd)]
  {
  }

  /** `create_exchange_rate`, with the provider's response given as its
      status code, its `date` string and its USD-to-VND rate, and
      `strptime` standing for `datetime.strptime(_, "%Y-%m-%d %H:%M:%S")`
      (none when the string does not match). */
  method CreateExchangeRate(
    session: Session, status: int, date: string, usdToVnd: real,
    strptime: string -> Option<Timestamp>)
    returns (out: Outcome<Option<ExchangeRate>>)
    modifies session
    ensures session.assetPrices == old(session.assetPrices)
    ensures status != HTTP_200_OK ==>
      out == Raised(HttpError(status, "Failed to fetch exchange rate")) &&
      session.exchangeRates == old(session.exchangeRates)
    ensures status == HTTP_200_OK && strptime(NormalizeDate(date)).None? ==>
      out == Raised(ValueError) && session.exchangeRates == old(session.exchangeRates)
    ensures status == HTTP_200_OK && strptime(NormalizeDate(date)).Some? ==>
      var u := RefreshRates(old(session.exchangeRates), strptime(NormalizeDate(date)).value, usdToVnd);
      out == Returned(u.returned) && session.exchangeRates == u.table
  {
    if status == HTTP_200_OK {
      var d := date;
      if |d| == DayOnlyLength {
        d := d + MidnightSuffix;
      }
      var parsed := strptime(d);
      if parsed.None? {
        return Raised(ValueError);
      }
      var recordedAt := parsed.value;
      var current := GetCurrentExchangeRate(session.exchangeRates);
      if current.Some? && current.value.recordedAt == recordedAt {
        return Returned(current);
      }
      session.exchangeRates := session.exchangeRates + [ExchangeRate(recordedAt, usdToVnd)];
      out := Returned(None);
    } else {
      out := Raised(HttpError(status, "Failed to fetch exchange rate"));
    }
  }
}
