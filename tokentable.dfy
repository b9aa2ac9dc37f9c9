/**
 * The token table of the home view: the price cell of each row (which
 * amounts are shown and the placeholder when none is), the supply cells,
 * and the empty state. Formatting itself is opaque.
 */
module TokenTable {
  import opened Types
  import TokenDetails

  // ---------------------------------------------------------------------
  // The price cell

  /** The entries a price cell can list: three taken from the token's
      `priceData`, or the token's own `price` when it has none. */
  datatype EntryKey = UsdEntry | CopEntry | BtcEntry | UsdFallback

  datatype PriceEntry = PriceEntry(key: EntryKey, amount: Num)

  /** The candidate entries, in the order they are listed. */
  function PriceEntries(token: Token): (es: seq<PriceEntry>)
    ensures token.priceData.Some? ==>
      es == [PriceEntry(UsdEntry, token.priceData.value.usd),
             PriceEntry(CopEntry, token.priceData.value.cop),
             PriceEntry(BtcEntry, token.priceData.value.btc)]
    ensures token.priceData.None? ==> es == [PriceEntry(UsdFallback, token.price)]
  {
    match token.priceData
    case Some(p) => [PriceEntry(UsdEntry, p.usd), PriceEntry(CopEntry, p.cop), PriceEntry(BtcEntry, p.btc)]
    case None => [PriceEntry(UsdFallback, token.price)]
  }

  /** The currency an entry is quoted in. */
  function CurrencyOf(k: EntryKey): Currency {
    match k
    case UsdEntry => Usd
    case CopEntry => Cop
    case BtcEntry => Btc
    case UsdFallback => Usd
  }

  /** One shown amount, or the dash shown when no amount is finite. */
  datatype PriceItem = Item(key: EntryKey, text: string) | Placeholder

  /** The item of a finite entry, formatted with the options its entry
      passes. */
  function ItemOf(e: PriceEntry, f: Formatters): (it: PriceItem)
    requires e.amount.Finite?
    ensures it.Item? && it.key == e.key
  {
    var amount := e.amount.value;
    match e.key
    case UsdEntry => Item(UsdEntry, f.currency(Usd, amount, 2, 4))
    case CopEntry => Item(CopEntry, f.currency(Cop, amount, 0, 2))
    case BtcEntry => Item(BtcEntry, f.crypto(amount, 0, 8))
    case UsdFallback => Item(UsdFallback, f.currency(Usd, amount, 2, 4))
  }

  /** The table and the detail page format an amount of the same currency
      alike. */
  lemma ItemMatchesDetailRow(e: PriceEntry, f: Formatters)
    requires e.amount.Finite?
    ensures ItemOf(e, f).text == TokenDetails.FormatAmount(f, CurrencyOf(e.key), e.amount.value)
  {
  }

  /** `priceEntries.filter(({ value }) => Number.isFinite(value))` */
  function KeepFinite(es: seq<PriceEntry>): (r: seq<PriceEntry>)
    ensures |r| <= |es|
    ensures forall e :: e in r <==> e in es && e.amount.Finite?
  {
    if es == [] then []
    else if es[0].amount.Finite? then [es[0]] + KeepFinite(es[1..])
    else KeepFinite(es[1..])
  }

  /** Filtering keeps the order: filtering a concatenation is concatenating
      the filtered parts. */
  lemma {:induction false} KeepFiniteAppend(a: seq<PriceEntry>, b: seq<PriceEntry>)
    ensures KeepFinite(a + b) == KeepFinite(a) + KeepFinite(b)
  {
    if a != [] {
      assert (a + b)[0] == a[0];
      assert (a + b)[1..] == a[1..] + b;
      KeepFiniteAppend(a[1..], b);
      if a[0].amount.Finite? {
        assert KeepFinite(a + b) == [a[0]] + (KeepFinite(a[1..]) + KeepFinite(b));
        assert KeepFinite(a) + KeepFinite(b) == [a[0]] + KeepFinite(a[1..]) + KeepFinite(b);
      }
    } else {
      assert a + b == b;
    }
  }

  function Items(es: seq<PriceEntry>, f: Formatters): (r: seq<PriceItem>)
    requires forall e :: e in es ==> e.amount.Finite?
    ensures |r| == |es|
    ensures forall i :: 0 <= i < |es| ==> r[i] == ItemOf(es[i], f)
  {
    if es == [] then [] else [ItemOf(es[0], f)] + Items(es[1..], f)
  }

  /** `renderPrice`: the finite entries, formatted, in order; a single dash
      when there is none. */
  function RenderPrice(token: Token, f: Formatters): (r: seq<PriceItem>)
    ensures |r| >= 1
    ensures r == [Placeholder] <==> forall e :: e in PriceEntries(token) ==> e.amount.NonFinite?
    ensures forall e :: e in PriceEntries(token) && e.amount.Finite? ==> ItemOf(e, f) in r
    ensures forall it :: it in r && it.Item? ==>
      exists e :: e in PriceEntries(token) && e.amount.Finite? && it == ItemOf(e, f)
    ensures r != [Placeholder] ==> r == Items(KeepFinite(PriceEntries(token)), f)
  {
    var kept := KeepFinite(PriceEntries(token));
    var items := Items(kept, f);
    if items == [] then [Placeholder]
    else
      assert items[0] in items;
      forall e | e in PriceEntries(token) && e.amount.Finite? ensures ItemOf(e, f) in items {
        var i :| 0 <= i < |kept| && kept[i] == e;
        assert items[i] == ItemOf(e, f);
      }
      forall it | it in items && it.Item?
        ensures exists e :: e in PriceEntries(token) && e.amount.Finite? && it == ItemOf(e, f)
      {
        var i :| 0 <= i < |items| && items[i] == it;
        assert kept[i] in kept;
      }
      items
  }

  /** A token with a price record lists, in order, those of its USD, COP and
      BTC amounts that are finite. */
  lemma RenderPriceWithRecord(token: Token, f: Formatters)
    requires token.priceData.Some?
    requires token.priceData.value.usd.Finite? && token.priceData.value.cop.Finite?
    requires token.priceData.value.btc.Finite?
    ensures RenderPrice(token, f) ==
      [Item(UsdEntry, f.currency(Usd, token.priceData.value.usd.value, 2, 4)),
       Item(CopEntry, f.currency(Cop, token.priceData.value.cop.value, 0, 2)),
       Item(BtcEntry, f.crypto(token.priceData.value.btc.value, 0, 8))]
  {
    var es := PriceEntries(token);
    assert KeepFinite(es[2..]) == es[2..];
    assert KeepFinite(es[1..]) == es[1..];
    assert KeepFinite(es) == es;
  }

  /** A token without a price record shows its own price, and never an
      amount from a record. */
  lemma RenderPriceWithoutRecord(token: Token, f: Formatters)
    requires token.priceData.None?
    ensures token.price.Finite? ==>
      RenderPrice(token, f) == [Item(UsdFallback, f.currency(Usd, token.price.value, 2, 4))]
    ensures token.price.NonFinite? ==> RenderPrice(token, f) == [Placeholder]
  {
  }

  // ---------------------------------------------------------------------
  // Supplies and rows

  /** `formatSupply`: a dash for a missing supply. */
  function FormatSupply(value: Option<Num>, f: Formatters): (r: string)
    ensures value.None? ==> r == Dash
    ensures value.Some? ==> r == f.compact(value.value)
  {
    match value
    case None => Dash
    case Some(v) => f.compact(v)
  }

  /** The table and the detail page show a supply alike. */
  lemma FormatSupplyAgrees(value: Option<Num>, f: Formatters)
    ensures FormatSupply(value, f) == TokenDetails.FormatSupplyValue(value, f)
  {
  }

  datatype Row = Row(
    symbol: string, name: string, nativeBadge: bool, price: seq<PriceItem>,
    marketCap: string, totalSupply: string, circulatingSupply: string, website: string)

  /** The cells of one row. */
  function RowOf(token: Token, f: Formatters): (row: Row)
    ensures row.symbol == token.symbol && row.name == token.name
    ensures row.nativeBadge <==> token.isNative
    ensures row.price == RenderPrice(token, f)
    ensures row.marketCap == f.compact(token.marketCap)
    ensures row.totalSupply == TokenDetails.FormatSupplyValue(token.totalSupply, f)
    ensures row.circulatingSupply == TokenDetails.FormatSupplyValue(token.circulatingSupply, f)
  {
    FormatSupplyAgrees(token.totalSupply, f);
    FormatSupplyAgrees(token.circulatingSupply, f);
    Row(token.symbol, token.name, token.isNative, RenderPrice(token, f),
        f.compact(token.marketCap), FormatSupply(token.totalSupply, f),
        FormatSupply(token.circulatingSupply, f), token.website)
  }

  datatype Table = EmptyState | Rows(rows: seq<Row>)

  function RowsOf(tokens: seq<Token>, f: Formatters): (rows: seq<Row>)
    ensures |rows| == |tokens|
    ensures forall i :: 0 <= i < |tokens| ==> rows[i] == RowOf(tokens[i], f)
  {
    if tokens == [] then [] else [RowOf(tokens[0], f)] + RowsOf(tokens[1..], f)
  }

  /** `TokenTable`: the empty state exactly when there is no token;
      otherwise one row per token, in the order given. */
  function RenderTable(tokens: seq<Token>, f: Formatters): (t: Table)
    ensures t.EmptyState? <==> tokens == []
    ensures t.Rows? ==> t.rows == RowsOf(tokens, f)
    ensures t.Rows? ==> |t.rows| == |tokens|
    ensures t.Rows? ==> forall i :: 0 <= i < |tokens| ==>
      t.rows[i].symbol == tokens[i].symbol && t.rows[i].price == RenderPrice(tokens[i], f)
  {
    if tokens == [] then EmptyState else Rows(RowsOf(tokens, f))
  }
}
