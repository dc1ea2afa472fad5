/** The data-shaping half of the dashboard (frontend/src/App.tsx): turning
    a fetched price series into the labels and values of a line chart, the
    USD/VND switch, and the text of a latest-price panel. Rendering itself
    is the chart library's business and is not modelled. */
module PriceCharts {
  import opened Common

  /** A JavaScript value as the dashboard reads it out of a JSON record. */
  datatype JsValue = Num(n: real) | Str(s: string) | Null | Undefined

  /** The field names of the two record kinds. */
  const AssetPriceFields: set<string> :=
    {"asset_id", "price_recorded_at", "exchange_rate_recorded_at", "usd_price", "vnd_price"}
  const ExchangeRateFields: set<string> := {"recorded_at", "usd_to_vnd"}

  /** A record of a fetched series (frontend/src/interfaces.ts): an asset
      price or an exchange rate. */
  datatype PricePoint =
    | AssetPricePoint(assetId: real, priceRecordedAt: string, exchangeRateRecordedAt: string,
                      usdPrice: real, vndPrice: real)
    | ExchangeRatePoint(recordedAt: string, usdToVnd: real)
  {
    /** `(point as Record<string, any>)[key]`: the field named `key`, or
        `undefined` when the record has no such field. Members inherited
        from `Object.prototype` ("constructor", "toString", ...) are not
        modelled; the dashboard reads only field names. */
    function Get(key: string): (v: JsValue)
      ensures AssetPricePoint? && key == "asset_id" ==> v == Num(assetId)
      ensures AssetPricePoint? && key == "price_recorded_at" ==> v == Str(priceRecordedAt)
      ensures AssetPricePoint? && key == "exchange_rate_recorded_at" ==> v == Str(exchangeRateRecordedAt)
      ensures AssetPricePoint? && key == "usd_price" ==> v == Num(usdPrice)
      ensures AssetPricePoint? && key == "vnd_price" ==> v == Num(vndPrice)
      ensures AssetPricePoint? && key !in AssetPriceFields ==> v == Undefined
      ensures ExchangeRatePoint? && key == "recorded_at" ==> v == Str(recordedAt)
      ensures ExchangeRatePoint? && key == "usd_to_vnd" ==> v == Num(usdToVnd)
      ensures ExchangeRatePoint? && key !in ExchangeRateFields ==> v == Undefined
    {
      match this
      case AssetPricePoint(id, at, rateAt, usd, vnd) =>
        if key == "asset_id" then Num(id)
        else if key == "price_recorded_at" then Str(at)
        else if key == "exchange_rate_recorded_at" then Str(rateAt)
        else if key == "usd_price" then Num(usd)
        else if key == "vnd_price" then Num(vnd)
        else Undefined
      case ExchangeRatePoint(at, rate) =>
        if key == "recorded_at" then Str(at)
        else if key == "usd_to_vnd" then Num(rate)
        else Undefined
    }
  }

  // ---------------------------------------------------------------------
  // processData

  /** The position of the first `c` in `s`, or `|s|` when there is none. */
  function IndexOf(s: string, c: char): (k: nat)
    ensures k <= |s|
    ensures k < |s| ==> s[k] == c
    ensures forall j :: 0 <= j < k ==> s[j] != c
  {
    if |s| == 0 then 0
    else if s[0] == c then 0
    else 1 + IndexOf(s[1..], c)
  }

  /** `.replace(",", "")`: the string with its first comma removed. */
  function RemoveFirstComma(s: string): string
  {
    if |s| == 0 then s
    else if s[0] == ',' then s[1..]
    else [s[0]] + RemoveFirstComma(s[1..])
  }

  /** Removing the first comma cuts out the character at the first comma's
      position and nothing else; a string without a comma is kept. */
  lemma {:induction false} RemoveFirstCommaAt(s: string)
    ensures IndexOf(s, ',') < |s| ==>
      RemoveFirstComma(s) == s[..IndexOf(s, ',')] + s[IndexOf(s, ',') + 1..]
    ensures IndexOf(s, ',') == |s| ==> RemoveFirstComma(s) == s
  {
    if |s| > 0 && s[0] != ',' {
      var k := IndexOf(s, ',');
      var t := s[1..];
      RemoveFirstCommaAt(t);
      assert k == 1 + IndexOf(t, ',');
      if k < |s| {
        assert s[..k] == [s[0]] + t[..k - 1];
        assert s[k + 1..] == t[k..];
      } else {
        assert s == [s[0]] + t;
      }
    }
  }

  /** Exactly one comma goes, when there is one, and every other character,
      later commas included, is kept. */
  lemma {:induction false} RemoveFirstCommaKeepsTheRest(s: string)
    ensures multiset(RemoveFirstComma(s)) == multiset(s) - multiset{','}
    ensures ',' in s ==> |RemoveFirstComma(s)| == |s| - 1
    ensures ',' !in s ==> RemoveFirstComma(s) == s
  {
    RemoveFirstCommaAt(s);
    var k := IndexOf(s, ',');
    if k < |s| {
      var before, after := s[..k], s[k + 1..];
      assert s == before + [','] + after;
      assert multiset(s) == multiset(before) + multiset{','} + multiset(after);
      assert multiset(RemoveFirstComma(s)) == multiset(before) + multiset(after);
    } else {
      assert ',' !in s;
      assert multiset(s)[','] == 0;
    }
  }

  /** The chart label of one point: the date under `dateKey`, formatted by
      `format` (standing for `new Date(_).toLocaleString("en-GB", …)`),
      with its first comma removed. */
  function Label(p: PricePoint, dateKey: string, format: JsValue -> string): string
  {
    RemoveFirstComma(format(p.Get(dateKey)))
  }

  /** The first `map` of `processData`: one label per point, in order. */
  function Labels(points: seq<PricePoint>, dateKey: string, format: JsValue -> string): (r: seq<string>)
    ensures |r| == |points|
    ensures forall i :: 0 <= i < |points| ==> r[i] == Label(points[i], dateKey, format)
  {
    if |points| == 0 then []
    else [Label(points[0], dateKey, format)] + Labels(points[1..], dateKey, format)
  }

  /** The second `map` of `processData`: the field `valueKey` of every
      point, untransformed and in order. */
  function Values(points: seq<PricePoint>, valueKey: string): (r: seq<JsValue>)
    ensures |r| == |points|
    ensures forall i :: 0 <= i < |points| ==> r[i] == points[i].Get(valueKey)
  {
    if |points| == 0 then []
    else [points[0].Get(valueKey)] + Values(points[1..], valueKey)
  }

  /** What `processData` returns; `None` stands for `undefined`. */
  datatype Series = Series(labels: Option<seq<string>>, values: Option<seq<JsValue>>)

  /** `processData`: both maps over `data`, which is `undefined` (`None`)
      while its query has no data, and then so are both results. */
  function ProcessData(data: Option<seq<PricePoint>>, dateKey: string, valueKey: string,
                       format: JsValue -> string): (r: Series)
    ensures r.labels.None? <==> data.None?
    ensures r.values.None? <==> data.None?
    ensures data.Some? ==> |r.labels.value| == |data.value| && |r.values.value| == |data.value|
    ensures data.Some? ==> forall i :: 0 <= i < |data.value| ==>
      r.labels.value[i] == Label(data.value[i], dateKey, format) &&
      r.values.value[i] == data.value[i].Get(valueKey)
  {
    match data
    case None => Series(None, None)
    case Some(points) => Series(Some(Labels(points, dateKey, format)), Some(Values(points, valueKey)))
  }

  // ---------------------------------------------------------------------
  // createChartData and the chart of one panel

  /** One Chart.js dataset; `title` is its `label` (a word Dafny reserves). */
  datatype Dataset = Dataset(title: string, data: seq<JsValue>, fill: bool, borderColor: string, tension: real)

  datatype ChartData = ChartData(labels: seq<string>, datasets: seq<Dataset>)

  /** `createChartData`: a chart with exactly one dataset, which carries the
      given title, data and colour, is not filled and has tension 0.2. */
  function CreateChartData(labels: seq<string>, data: seq<JsValue>, title: string, color: string): (c: ChartData)
    ensures c.labels == labels && |c.datasets| == 1
    ensures c.datasets[0].title == title && c.datasets[0].data == data && c.datasets[0].borderColor == color
    ensures !c.datasets[0].fill && c.datasets[0].tension == 0.2
  {
    ChartData(labels, [Dataset(title, data, false, color, 0.2)])
  }

  /** `x || []` on an array that may be `undefined`: an array, even an
      empty one, is truthy and is kept. */
  function OrEmpty<T>(x: Option<seq<T>>): (r: seq<T>)
    ensures x.Some? ==> r == x.value
    ensures x.None? ==> r == []
  {
    match x
    case Some(s) => s
    case None => []
  }

  /** The `<Line>` chart of one panel: the processed series, falling back to
      empty sequences, wrapped by `createChartData`. */
  function PanelChart(data: Option<seq<PricePoint>>, dateKey: string, valueKey: string,
                      title: string, color: string, format: JsValue -> string): ChartData
  {
    var series := ProcessData(data, dateKey, valueKey, format);
    CreateChartData(OrEmpty(series.labels), OrEmpty(series.values), title, color)
  }

  /** A panel's chart always has one dataset with one value per label and
      one label per fetched point; a series that is missing or empty gives
      an empty chart. */
  lemma PanelChartAligned(data: Option<seq<PricePoint>>, dateKey: string, valueKey: string,
                          title: string, color: string, format: JsValue -> string)
    ensures var c := PanelChart(data, dateKey, valueKey, title, color, format);
      |c.datasets| == 1 &&
      |c.labels| == |c.datasets[0].data| == (if data.Some? then |data.value| else 0) &&
      (data.None? || data.value == [] ==> c.labels == [] && c.datasets[0].data == [])
  {
  }

  // ---------------------------------------------------------------------
  // The USD/VND switch

  datatype PriceType = UsdPrice | VndPrice

  /** The field of an asset price that the dashboard shows. */
  function Key(t: PriceType): string
  {
    match t
    case UsdPrice => "usd_price"
    case VndPrice => "vnd_price"
  }

  /** The switch button's click: the other price type. */
  function Toggle(t: PriceType): (r: PriceType)
    ensures r != t
  {
    if t == UsdPrice then VndPrice else UsdPrice
  }

  lemma ToggleInvolution(t: PriceType)
    ensures Toggle(Toggle(t)) == t
  {
  }

  /** The name of a price type as the switch button writes it. */
  function TypeName(t: PriceType): string
  {
    match t
    case UsdPrice => "USD Price"
    case VndPrice => "VND Price"
  }

  /** The switch button reads "Switch to" the type that a click selects. */
  function SwitchCaption(t: PriceType): (r: string)
    ensures r == "Switch to " + TypeName(Toggle(t))
  {
    "Switch to " + (if t == UsdPrice then "VND Price" else "USD Price")
  }

  /** The gold and bitcoin charts show, point by point, the price in the
      currency currently selected, and switching the type changes nothing
      but those values. */
  lemma {:induction false} AssetChartFollowsPriceType(points: seq<PricePoint>, t: PriceType,
                                                      title: string, color: string, format: JsValue -> string)
    requires forall i :: 0 <= i < |points| ==> points[i].AssetPricePoint?
    ensures var c := PanelChart(Some(points), "price_recorded_at", Key(t), title, color, format);
      var d := PanelChart(Some(points), "price_recorded_at", Key(Toggle(t)), title, color, format);
      c.labels == d.labels &&
      forall i :: 0 <= i < |points| ==>
        c.datasets[0].data[i] == Num(if t == UsdPrice then points[i].usdPrice else points[i].vndPrice) &&
        d.datasets[0].data[i] == Num(if t == UsdPrice then points[i].vndPrice else points[i].usdPrice)
  {
  }

  // ---------------------------------------------------------------------
  // The latest-price panel

  /** The unit written after a latest price. */
  function Suffix(t: PriceType): (r: string)
    ensures r == "USD" <==> t == UsdPrice
  {
    if t == UsdPrice then "USD" else "VND"
  }

  /** `latestGoldPrice?.[priceType]`: `undefined` while the latest record
      has not arrived, otherwise the record's field. */
  function LatestField(latest: Option<PricePoint>, key: string): (v: JsValue)
    ensures latest.None? ==> v == Undefined
    ensures latest.Some? ==> v == latest.value.Get(key)
  {
    match latest
    case None => Undefined
    case Some(p) => p.Get(key)
  }

  /** The panel text as written: `price !== null` holds for every value but
      `null`, so only `null` shows "N/A", and an `undefined` price goes
      through the template and shows as "undefined". `formatNumber` stands
      for `toLocaleString` with two fraction digits. */
  function LatestPriceText(price: JsValue, t: PriceType, formatNumber: real -> string): (r: string)
    ensures r == "N/A" <==> price == Null
    ensures price.Num? ==> r == formatNumber(price.n) + " " + Suffix(t)
    ensures price == Undefined ==> r == "undefined " + Suffix(t)
  {
    match price
    case Null => "N/A"
    case Undefined => "undefined " + Suffix(t)
    case Str(s) => s + " " + Suffix(t)
    case Num(x) => formatNumber(x) + " " + Suffix(t)
  }

  /** While the latest record is still loading the panel shows
      "undefined USD" (or "undefined VND") rather than "N/A". */
  lemma LatestPriceWhileLoading(t: PriceType, formatNumber: real -> string)
    ensures LatestPriceText(LatestField(None, Key(t)), t, formatNumber) != "N/A"
    ensures LatestPriceText(LatestField(None, Key(t)), t, formatNumber) ==
      (if t == UsdPrice then "undefined USD" else "undefined VND")
  {
  }

  /** The panel text as evidently intended: a price that is absent, `null`
      or `undefined` (`price == null` in JavaScript), shows "N/A". */
  function LatestPriceTextIntended(price: JsValue, t: PriceType, formatNumber: real -> string): (r: string)
    ensures r == "N/A" <==> price == Null || price == Undefined
    ensures price.Num? ==> r == formatNumber(price.n) + " " + Suffix(t)
  {
    match price
    case Null => "N/A"
    case Undefined => "N/A"
    case Str(s) => s + " " + Suffix(t)
    case Num(x) => formatNumber(x) + " " + Suffix(t)
  }

  /** With the intended test a loading panel shows "N/A", and a loaded
      asset panel shows the same text as the code as written. */
  lemma LatestPriceIntendedWhileLoading(latest: Option<PricePoint>, t: PriceType, formatNumber: real -> string)
    ensures latest.None? ==> LatestPriceTextIntended(LatestField(latest, Key(t)), t, formatNumber) == "N/A"
    ensures latest.Some? && latest.value.AssetPricePoint? ==>
      LatestPriceTextIntended(LatestField(latest, Key(t)), t, formatNumber) ==
      LatestPriceText(LatestField(latest, Key(t)), t, formatNumber)
  {
  }
}
