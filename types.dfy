/**
 * The records the dashboard passes around: a token as configured and
 * normalised, and the oracle's price record.
 */
module Types {

  datatype Option<T> = None | Some(value: T)

  /** `s ?? ''` */
  function OrEmpty(s: Option<string>): (r: string)
    ensures s.Some? ==> r == s.value
    ensures s.None? ==> r == []
  {
    if s.Some? then s.value else []
  }

  /** A JavaScript value in a place where the code expects a number.
      `Number.isFinite` holds of `Finite` only; NaN, the infinities,
      `undefined` and any non-number all collapse into `NonFinite`. */
  datatype Num = Finite(value: real) | NonFinite

  /** The eight currencies the oracle quotes. */
  datatype Currency = Usd | Cop | Eur | Gbp | Brl | Jpy | Cny | Btc

  /** The oracle's answer for one token (or the `priceData` of a configured
      token): one amount per currency, the oracle wallet (`''` when absent)
      and the status flag. */
  datatype TokenPrice = TokenPrice(
    cop: Num, usd: Num, gbp: Num, cny: Num, jpy: Num, eur: Num, brl: Num, btc: Num,
    wallet: string, status: bool)
  {
    function Amount(c: Currency): Num {
      match c
      case Usd => usd
      case Cop => cop
      case Eur => eur
      case Gbp => gbp
      case Brl => brl
      case Jpy => jpy
      case Cny => cny
      case Btc => btc
    }
  }

  /** A token after normalisation: `symbol`, `name` and `priceId` are always
      strings and `isNative` is always set. The three supplies are optional
      (`null` or `undefined` is `None`). */
  datatype Token = Token(
    symbol: string, name: string, address: string, logo: string, website: string,
    description: string,
    price: Num, marketCap: Num, volume24h: Num, change24h: Num,
    totalSupply: Option<Num>, maxSupply: Option<Num>, circulatingSupply: Option<Num>,
    isNative: bool, priceId: string, priceData: Option<TokenPrice>)

  /** The placeholder shown for a missing value. */
  const Dash: string := "\U{2014}"

  /** The number formatters, opaque: each gets the amount and the options
      its call site passes (currency code, minimum and maximum fraction
      digits); the locale is fixed for one rendering. */
  datatype Formatters = Formatters(
    currency: (Currency, real, nat, nat) -> string,
    crypto: (real, nat, nat) -> string,
    percentage: real -> string,
    compact: Num -> string)
}
