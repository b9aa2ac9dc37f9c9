/**
 * The selection rules of the token detail page: the short form of a
 * contract address, the price rows (which source supplies each currency and
 * which rows are shown), the market metrics, the supply cells and whether
 * the contract card is shown. Formatting itself is opaque.
 */
module TokenDetails {
  import opened Types
  import opened JsString

  // ---------------------------------------------------------------------
  // Addresses

  /** The ellipsis between the head and the tail of a long address. */
  const Ellipsis: char := '\U{2026}'

  /** `shortenAddress`: `''` for `''`; the trimmed address when it has at most
      12 characters; otherwise its first 6 and last 4 characters around an
      ellipsis. */
  function ShortenAddress(address: string): (r: string)
    ensures address == [] ==> r == []
    ensures address != [] && |Trim(address)| <= 12 ==> r == Trim(address)
    ensures address != [] && |Trim(address)| > 12 ==>
      |r| == 11 && r[..6] == Trim(address)[..6] && r[6] == Ellipsis
      && r[7..] == Trim(address)[|Trim(address)| - 4..]
  {
    if address == [] then []
    else
      var trimmed := Trim(address);
      if |trimmed| <= 12 then trimmed
      else
        var r := trimmed[..6] + [Ellipsis] + trimmed[|trimmed| - 4..];
        assert r[7..] == trimmed[|trimmed| - 4..];
        r
  }

  /** A short form is never longer than 12 characters, and shortening it
      again changes nothing. */
  lemma ShortenAddressIdempotent(address: string)
    ensures |ShortenAddress(address)| <= 12
    ensures ShortenAddress(ShortenAddress(address)) == ShortenAddress(address)
  {
    var r := ShortenAddress(address);
    if r != [] {
      var t := Trim(address);
      if |t| > 12 {
        assert r[0] == t[0] && r[10] == t[|t| - 1];
      }
      TrimOfTrimmed(r);
    }
  }

  // ---------------------------------------------------------------------
  // Price rows

  /** `getValue`: the amount for `c` of the first present source whose amount
      is a finite number, if any. */
  function GetValue(sources: seq<Option<TokenPrice>>, c: Currency): (r: Option<real>)
    ensures r.None? <==> forall i :: 0 <= i < |sources| ==> !HasFinite(sources[i], c)
  {
    if sources == [] then None
    else if HasFinite(sources[0], c) then Some(sources[0].value.Amount(c).value)
    else GetValue(sources[1..], c)
  }

  predicate HasFinite(source: Option<TokenPrice>, c: Currency) {
    source.Some? && source.value.Amount(c).Finite?
  }

  /** Precedence: the first source with a finite amount supplies the value,
      whatever the later sources hold. */
  lemma {:induction false} GetValueFirst(sources: seq<Option<TokenPrice>>, c: Currency, i: nat)
    requires i < |sources| && HasFinite(sources[i], c)
    requires forall j :: 0 <= j < i ==> !HasFinite(sources[j], c)
    ensures GetValue(sources, c) == Some(sources[i].value.Amount(c).value)
  {
    if i > 0 {
      GetValueFirst(sources[1..], c, i - 1);
    }
  }

  /** The rows in the order the page lists them. */
  const RowOrder: seq<Currency> := [Usd, Cop, Eur, Gbp, Brl, Jpy, Cny, Btc]

  function Rank(c: Currency): (k: nat)
    ensures k < |RowOrder| && RowOrder[k] == c
  {
    match c
    case Usd => 0
    case Cop => 1
    case Eur => 2
    case Gbp => 3
    case Brl => 4
    case Jpy => 5
    case Cny => 6
    case Btc => 7
  }

  /** The two places a price can come from: the oracle answer held by the
      page, then the token's configured `priceData`. */
  function Sources(priceData: Option<TokenPrice>, token: Token): (s: seq<Option<TokenPrice>>)
    ensures |s| == 2 && s[0] == priceData && s[1] == token.priceData
  {
    [priceData, token.priceData]
  }

  /** The amount a row would show: the first finite source amount; for USD
      alone, `token.price` when no source has one. */
  function RowAmount(priceData: Option<TokenPrice>, token: Token, c: Currency): (n: Num)
    ensures HasFinite(priceData, c) ==> n == priceData.value.Amount(c)
    ensures !HasFinite(priceData, c) && HasFinite(token.priceData, c) ==> n == token.priceData.value.Amount(c)
    ensures !HasFinite(priceData, c) && !HasFinite(token.priceData, c) ==>
      n == (if c == Usd then token.price else NonFinite)
  {
    var sources := Sources(priceData, token);
    assert HasFinite(priceData, c) ==> GetValue(sources, c) == Some(priceData.value.Amount(c).value) by {
      if HasFinite(priceData, c) { GetValueFirst(sources, c, 0); }
    }
    assert !HasFinite(priceData, c) && HasFinite(token.priceData, c) ==>
      GetValue(sources, c) == Some(token.priceData.value.Amount(c).value) by {
      if !HasFinite(priceData, c) && HasFinite(token.priceData, c) { GetValueFirst(sources, c, 1); }
    }
    match GetValue(sources, c)
    case Some(v) => Finite(v)
    case None => if c == Usd then token.price else NonFinite
  }

  datatype PriceRow = PriceRow(key: Currency, caption: string, value: string)

  function Label(c: Currency): string {
    match c
    case Usd => "USD"
    case Cop => "COP"
    case Eur => "EUR"
    case Gbp => "GBP"
    case Brl => "BRL"
    case Jpy => "JPY"
    case Cny => "CNY"
    case Btc => "BTC"
  }

  /** The formatter each row uses, with the options its call site passes. */
  function FormatAmount(f: Formatters, c: Currency, amount: real): (s: string)
    ensures c == Btc ==> s == f.crypto(amount, 0, 8)
    ensures c != Btc ==> exists lo: nat, hi: nat :: lo <= hi && s == f.currency(c, amount, lo, hi)
  {
    match c
    case Usd => f.currency(Usd, amount, 2, 4)
    case Cop => f.currency(Cop, amount, 0, 2)
    case Eur => f.currency(Eur, amount, 2, 4)
    case Gbp => f.currency(Gbp, amount, 2, 4)
    case Brl => f.currency(Brl, amount, 2, 4)
    case Jpy => f.currency(Jpy, amount, 0, 0)
    case Cny => f.currency(Cny, amount, 2, 4)
    case Btc => f.crypto(amount, 0, 8)
  }

  /** The row for `c` when its amount is finite. */
  predicate IsRowFor(row: PriceRow, priceData: Option<TokenPrice>, token: Token, f: Formatters) {
    var n := RowAmount(priceData, token, row.key);
    n.Finite? && row == PriceRow(row.key, Label(row.key), FormatAmount(f, row.key, n.value))
  }

  function Keys(rows: seq<PriceRow>): (ks: seq<Currency>)
    ensures |ks| == |rows| && forall i :: 0 <= i < |rows| ==> ks[i] == rows[i].key
  {
    if rows == [] then [] else [rows[0].key] + Keys(rows[1..])
  }

  /** The row of a currency whose amount is finite. */
  function RowFor(priceData: Option<TokenPrice>, token: Token, f: Formatters, c: Currency): (row: PriceRow)
    requires RowAmount(priceData, token, c).Finite?
    ensures row.key == c && IsRowFor(row, priceData, token, f)
  {
    PriceRow(c, Label(c), FormatAmount(f, c, RowAmount(priceData, token, c).value))
  }

  /** The `flatMap` callback of `buildPriceRows` for one currency: its row
      when its amount is finite, nothing otherwise. */
  function EntryRows(priceData: Option<TokenPrice>, token: Token, f: Formatters, c: Currency): (rows: seq<PriceRow>)
    ensures |rows| <= 1
    ensures rows != [] <==> RowAmount(priceData, token, c).Finite?
  {
    if RowAmount(priceData, token, c).Finite? then [RowFor(priceData, token, f, c)] else []
  }

  /** The rows for `RowOrder[k..]`: the `flatMap` over the remaining
      entries (see `RowsFromIsMap`). */
  function RowsFrom(priceData: Option<TokenPrice>, token: Token, f: Formatters, k: nat): (rows: seq<PriceRow>)
    requires k <= |RowOrder|
    decreases |RowOrder| - k
    ensures |rows| <= |RowOrder| - k
    ensures forall i :: 0 <= i < |rows| ==> IsRowFor(rows[i], priceData, token, f)
  {
    if k == |RowOrder| then []
    else EntryRows(priceData, token, f, RowOrder[k]) + RowsFrom(priceData, token, f, k + 1)
  }

  /** The positions `m` in `[k, n)` that satisfy `shown`, ascending. */
  function ShownFrom(shown: nat -> bool, k: nat, n: nat): (ms: seq<nat>)
    requires k <= n
    decreases n - k
    ensures |ms| <= n - k
  {
    if k == n then []
    else if shown(k) then [k] + ShownFrom(shown, k + 1, n)
    else ShownFrom(shown, k + 1, n)
  }

  /** Every position `ShownFrom` lists lies in `[k, n)` and satisfies `shown`. */
  lemma {:induction false} ShownFromAt(shown: nat -> bool, k: nat, n: nat, i: nat)
    requires k <= n && i < |ShownFrom(shown, k, n)|
    decreases n - k
    ensures k <= ShownFrom(shown, k, n)[i] < n
    ensures shown(ShownFrom(shown, k, n)[i])
  {
    var rest := ShownFrom(shown, k + 1, n);
    var ms := ShownFrom(shown, k, n);
    if shown(k) {
      assert ms == [k] + rest;
      if i > 0 {
        var i' := i - 1;
        ShownFromAt(shown, k + 1, n, i');
        assert ms[i] == rest[i'];
      }
    } else {
      assert ms == rest;
      ShownFromAt(shown, k + 1, n, i);
    }
  }

  /** `ShownFrom` is strictly ascending. */
  lemma {:induction false} ShownFromOrdered(shown: nat -> bool, k: nat, n: nat, i: nat, j: nat)
    requires k <= n && i < j < |ShownFrom(shown, k, n)|
    decreases n - k
    ensures ShownFrom(shown, k, n)[i] < ShownFrom(shown, k, n)[j]
  {
    var rest := ShownFrom(shown, k + 1, n);
    var ms := ShownFrom(shown, k, n);
    if shown(k) {
      assert ms == [k] + rest;
      var j' := j - 1;
      assert ms[j] == rest[j'];
      if i == 0 {
        ShownFromAt(shown, k + 1, n, j');
      } else {
        var i' := i - 1;
        ShownFromOrdered(shown, k + 1, n, i', j');
        assert ms[i] == rest[i'];
      }
    } else {
      assert ms == rest;
      ShownFromOrdered(shown, k + 1, n, i, j);
    }
  }

  /** A position in `[k, n)` is listed exactly when it satisfies `shown`. */
  lemma {:induction false} ShownFromHas(shown: nat -> bool, k: nat, n: nat, m: nat)
    requires k <= m < n
    decreases n - k
    ensures m in ShownFrom(shown, k, n) <==> shown(m)
  {
    var rest := ShownFrom(shown, k + 1, n);
    var ms := ShownFrom(shown, k, n);
    if shown(k) {
      assert ms == [k] + rest;
    } else {
      assert ms == rest;
    }
    if m == k {
      if k in rest {
        var i :| 0 <= i < |rest| && rest[i] == k;
        ShownFromAt(shown, k + 1, n, i);
      }
    } else {
      ShownFromHas(shown, k + 1, n, m);
    }
  }

  /** Whether the row at a position of `RowOrder` is shown. */
  function Shown(priceData: Option<TokenPrice>, token: Token): (shown: nat -> bool)
    ensures forall m: nat :: shown(m) <==> m < |RowOrder| && RowAmount(priceData, token, RowOrder[m]).Finite?
  {
    (m: nat) => m < |RowOrder| && RowAmount(priceData, token, RowOrder[m]).Finite?
  }

  /** The rows at a list of positions whose amounts are finite. */
  function RowsOf(priceData: Option<TokenPrice>, token: Token, f: Formatters, ms: seq<nat>): (rows: seq<PriceRow>)
    requires forall i :: 0 <= i < |ms| ==>
      ms[i] < |RowOrder| && RowAmount(priceData, token, RowOrder[ms[i]]).Finite?
    ensures |rows| == |ms|
    ensures forall i :: 0 <= i < |ms| ==> rows[i] == RowFor(priceData, token, f, RowOrder[ms[i]])
  {
    if ms == [] then [] else [RowFor(priceData, token, f, RowOrder[ms[0]])] + RowsOf(priceData, token, f, ms[1..])
  }

  /** The `flatMap` is a filter followed by a map: the rows are those of the
      shown positions. */
  lemma {:induction false} RowsFromIsMap(priceData: Option<TokenPrice>, token: Token, f: Formatters, k: nat)
    requires k <= |RowOrder|
    decreases |RowOrder| - k
    ensures forall i :: 0 <= i < |ShownFrom(Shown(priceData, token), k, |RowOrder|)| ==>
      var m := ShownFrom(Shown(priceData, token), k, |RowOrder|)[i];
      m < |RowOrder| && RowAmount(priceData, token, RowOrder[m]).Finite?
    ensures RowsFrom(priceData, token, f, k) ==
      RowsOf(priceData, token, f, ShownFrom(Shown(priceData, token), k, |RowOrder|))
  {
    var shown := Shown(priceData, token);
    var ms := ShownFrom(shown, k, |RowOrder|);
    forall i | 0 <= i < |ms| ensures ms[i] < |RowOrder| && RowAmount(priceData, token, RowOrder[ms[i]]).Finite? {
      ShownFromAt(shown, k, |RowOrder|, i);
    }
    if k < |RowOrder| {
      RowsFromIsMap(priceData, token, f, k + 1);
      RowsFromStep(priceData, token, f, k, ms, ShownFrom(shown, k + 1, |RowOrder|));
    }
  }

  /** One step of `RowsFromIsMap`: the entry at `k` adds its row in front
      exactly when position `k` is shown. */
  lemma RowsFromStep(priceData: Option<TokenPrice>, token: Token, f: Formatters, k: nat, ms: seq<nat>, rest: seq<nat>)
    requires k < |RowOrder|
    requires ms == ShownFrom(Shown(priceData, token), k, |RowOrder|)
    requires forall i :: 0 <= i < |ms| ==>
      ms[i] < |RowOrder| && RowAmount(priceData, token, RowOrder[ms[i]]).Finite?
    requires rest == ShownFrom(Shown(priceData, token), k + 1, |RowOrder|)
    requires forall i :: 0 <= i < |rest| ==>
      rest[i] < |RowOrder| && RowAmount(priceData, token, RowOrder[rest[i]]).Finite?
    requires RowsFrom(priceData, token, f, k + 1) == RowsOf(priceData, token, f, rest)
    ensures RowsFrom(priceData, token, f, k) == RowsOf(priceData, token, f, ms)
  {
    var shown := Shown(priceData, token);
    var c := RowOrder[k];
    var tail := RowsFrom(priceData, token, f, k + 1);
    if shown(k) {
      assert ms == [k] + rest;
      assert ms[1..] == rest;
      assert RowsFrom(priceData, token, f, k) == [RowFor(priceData, token, f, c)] + tail;
    } else {
      assert ms == rest;
      assert RowsFrom(priceData, token, f, k) == [] + tail;
    }
  }

  /** `Rank` undoes the indexing of `RowOrder`. */
  lemma RankOfRowOrder(k: nat)
    requires k < |RowOrder|
    ensures Rank(RowOrder[k]) == k
  {
    if k == 0 { assert RowOrder[0] == Usd; }
    else if k == 1 { assert RowOrder[1] == Cop; }
    else if k == 2 { assert RowOrder[2] == Eur; }
    else if k == 3 { assert RowOrder[3] == Gbp; }
    else if k == 4 { assert RowOrder[4] == Brl; }
    else if k == 5 { assert RowOrder[5] == Jpy; }
    else if k == 6 { assert RowOrder[6] == Cny; }
    else { assert RowOrder[7] == Btc; }
  }

  /** Row `i` of the `flatMap` is the row of the `i`-th shown position. */
  lemma RowsFromKeys(priceData: Option<TokenPrice>, token: Token, f: Formatters)
    ensures var rows := RowsFrom(priceData, token, f, 0);
      var ms := ShownFrom(Shown(priceData, token), 0, |RowOrder|);
      |rows| == |ms| &&
      forall i :: 0 <= i < |rows| ==>
        ms[i] < |RowOrder| && rows[i].key == RowOrder[ms[i]] && IsRowFor(rows[i], priceData, token, f)
  {
    RowsFromIsMap(priceData, token, f, 0);
  }

  /** Rows keyed by ascending positions of `RowOrder` follow `RowOrder`. */
  lemma KeysFollowRowOrder(keys: seq<Currency>, ms: seq<nat>)
    requires |keys| == |ms|
    requires forall i :: 0 <= i < |ms| ==> ms[i] < |RowOrder| && keys[i] == RowOrder[ms[i]]
    requires forall i, j :: 0 <= i < j < |ms| ==> ms[i] < ms[j]
    ensures forall i, j :: 0 <= i < j < |keys| ==> Rank(keys[i]) < Rank(keys[j])
  {
    forall i | 0 <= i < |keys| ensures Rank(keys[i]) == ms[i] {
      RankOfRowOrder(ms[i]);
    }
  }

  /** Rows keyed by positions of `RowOrder` list exactly the currencies at
      those positions. */
  lemma KeysAtPositions(keys: seq<Currency>, ms: seq<nat>, c: Currency)
    requires |keys| == |ms|
    requires forall i :: 0 <= i < |ms| ==> ms[i] < |RowOrder| && keys[i] == RowOrder[ms[i]]
    ensures c in keys <==> Rank(c) in ms
  {
    if c in keys {
      var i :| 0 <= i < |keys| && keys[i] == c;
      RankOfRowOrder(ms[i]);
    }
    if Rank(c) in ms {
      var i :| 0 <= i < |ms| && ms[i] == Rank(c);
      assert keys[i] == c;
    }
  }

  /** `buildPriceRows` */
  function BuildPriceRows(priceData: Option<TokenPrice>, token: Token, f: Formatters): (rows: seq<PriceRow>)
    ensures |rows| <= 8
    ensures forall i :: 0 <= i < |rows| ==> IsRowFor(rows[i], priceData, token, f)
    ensures forall i, j :: 0 <= i < j < |rows| ==> Rank(rows[i].key) < Rank(rows[j].key)
    ensures forall c :: c in Keys(rows) <==> RowAmount(priceData, token, c).Finite?
  {
    var shown := Shown(priceData, token);
    var ms := ShownFrom(shown, 0, |RowOrder|);
    var rows := RowsFrom(priceData, token, f, 0);
    RowsFromKeys(priceData, token, f);
    var keys := Keys(rows);
    forall i, j | 0 <= i < j < |ms| ensures ms[i] < ms[j] {
      ShownFromOrdered(shown, 0, |RowOrder|, i, j);
    }
    KeysFollowRowOrder(keys, ms);
    forall c ensures c in keys <==> RowAmount(priceData, token, c).Finite? {
      KeysAtPositions(keys, ms, c);
      ShownFromHas(shown, 0, |RowOrder|, Rank(c));
    }
    rows
  }

  /** Each currency has at most one row. */
  lemma PriceRowKeysDistinct(priceData: Option<TokenPrice>, token: Token, f: Formatters)
    ensures forall i, j :: 0 <= i < j < |BuildPriceRows(priceData, token, f)| ==>
      BuildPriceRows(priceData, token, f)[i].key != BuildPriceRows(priceData, token, f)[j].key
  {
  }

  /** The USD row is always there when the token's own price is a finite
      number, whatever the sources hold. */
  /** A finite `token.price` makes the USD amount finite, whatever the
      sources hold. */
  lemma UsdAmountFinite(priceData: Option<TokenPrice>, token: Token)
    requires token.price.Finite?
    ensures RowAmount(priceData, token, Usd).Finite?
  {
  }

  lemma UsdRowWithFinitePrice(priceData: Option<TokenPrice>, token: Token, f: Formatters)
    requires token.price.Finite?
    ensures |BuildPriceRows(priceData, token, f)| >= 1
    ensures BuildPriceRows(priceData, token, f)[0].key == Usd
  {
    var rows := BuildPriceRows(priceData, token, f);
    UsdAmountFinite(priceData, token);
    var keys := Keys(rows);
    assert Usd in keys;
    var j :| 0 <= j < |keys| && keys[j] == Usd;
    assert Rank(rows[0].key) <= Rank(rows[j].key) == 0;
    assert rows[0].key == RowOrder[0] == Usd;
  }

  // ---------------------------------------------------------------------
  // Market metrics

  datatype MetricKey = MarketCap | Volume24h | Change24h | LastUpdated

  datatype Metric = Metric(key: MetricKey, value: string)

  /** The change cell: its sign, then the formatted magnitude. */
  function ChangeValue(change: Num, f: Formatters): (r: string)
    ensures change.NonFinite? ==> r == Dash
    ensures change.Finite? ==> |r| >= 1 && r[1..] == f.percentage(Abs(change.value))
    ensures |r| >= 1 && (r[0] == '+' <==> change.Finite? && change.value >= 0.0)
    ensures |r| >= 1 && (r[0] == '-' <==> change.Finite? && change.value < 0.0)
  {
    if change.Finite? then
      var formatted := f.percentage(Abs(change.value));
      (if change.value >= 0.0 then "+" else "-") + formatted
    else Dash
  }

  function Abs(x: real): (r: real)
    ensures r >= 0.0 && (r == x || r == -x)
  {
    if x >= 0.0 then x else -x
  }

  /** `buildMarketMetrics`: four metrics in a fixed order; a value that is
      not a finite number is shown as a dash. */
  function BuildMarketMetrics(token: Token, lastUpdatedLabel: string, f: Formatters): (ms: seq<Metric>)
    ensures |ms| == 4
    ensures ms[0].key == MarketCap && ms[1].key == Volume24h
    ensures ms[2].key == Change24h && ms[3].key == LastUpdated
    ensures ms[0].value == (if token.marketCap.Finite? then f.currency(Usd, token.marketCap.value, 0, 0) else Dash)
    ensures ms[1].value == (if token.volume24h.Finite? then f.currency(Usd, token.volume24h.value, 2, 2) else Dash)
    ensures ms[2].value == ChangeValue(token.change24h, f)
    ensures ms[3].value == lastUpdatedLabel
  {
    var volumeValue := if token.volume24h.Finite? then f.currency(Usd, token.volume24h.value, 2, 2) else Dash;
    var marketCapValue := if token.marketCap.Finite? then f.currency(Usd, token.marketCap.value, 0, 0) else Dash;
    [Metric(MarketCap, marketCapValue), Metric(Volume24h, volumeValue),
     Metric(Change24h, ChangeValue(token.change24h, f)), Metric(LastUpdated, lastUpdatedLabel)]
  }

  // ---------------------------------------------------------------------
  // Supplies and the contract card

  /** `formatSupplyValue`: a dash for a missing supply. */
  function FormatSupplyValue(value: Option<Num>, f: Formatters): (r: string)
    ensures value.None? ==> r == Dash
    ensures value.Some? ==> r == f.compact(value.value)
  {
    if value.None? then Dash else f.compact(value.value)
  }

  /** `priceData ?? token.priceData ?? null` */
  function DerivedPriceData(priceData: Option<TokenPrice>, token: Token): (d: Option<TokenPrice>)
    ensures priceData.Some? ==> d == priceData
    ensures priceData.None? ==> d == token.priceData
  {
    if priceData.Some? then priceData else token.priceData
  }

  /** `Boolean(priceData?.status)`: the badge shows the oracle as online. */
  predicate HasOracleData(priceData: Option<TokenPrice>) {
    priceData.Some? && priceData.value.status
  }

  /** The contract card is shown for every non-native token, and for the
      native one only when a price record with a wallet is at hand. */
  predicate ShouldRenderContractCard(priceData: Option<TokenPrice>, token: Token) {
    var derived := DerivedPriceData(priceData, token);
    !token.isNative || (derived.Some? && derived.value.wallet != [])
  }

  /** For the native token the card depends only on the wallet of the record
      in use: the oracle's when there is one, else the configured one. */
  lemma ContractCardForNative(priceData: Option<TokenPrice>, token: Token)
    requires token.isNative
    ensures ShouldRenderContractCard(priceData, token) <==>
      (priceData.Some? && priceData.value.wallet != [])
      || (priceData.None? && token.priceData.Some? && token.priceData.value.wallet != [])
  {
  }
}
