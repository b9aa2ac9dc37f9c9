/**
 * The token list the dashboard is configured with: normalisation of each
 * configured record (symbol, name, price id, native flag) and the order the
 * list is shown in.
 */
module Tokens {
  import opened Types
  import opened JsString

  // ---------------------------------------------------------------------
  // Price ids

  /** `name.replace(/\s+/g, '').toUpperCase()` */
  function DerivePriceId(name: string): (r: string)
    ensures |r| <= |name|
    ensures forall i :: 0 <= i < |r| ==> !IsWhitespace(r[i])
    ensures forall i :: 0 <= i < |r| ==> !('a' <= r[i] <= 'z')
    ensures r == ToUpper(RemoveWhitespace(name))
  {
    ToUpper(RemoveWhitespace(name))
  }

  /** A single character: whitespace derives nothing, anything else its
      upper-case form. */
  lemma DerivePriceIdChar(c: char)
    ensures IsWhitespace(c) ==> DerivePriceId([c]) == []
    ensures !IsWhitespace(c) ==> DerivePriceId([c]) == [UpperChar(c)]
  {
    RemoveWhitespaceChar(c);
  }

  /** Deriving works piece by piece, so the id is the name's non-whitespace
      characters, each upper-cased, in their order. */
  lemma DerivePriceIdAppend(a: string, b: string)
    ensures DerivePriceId(a + b) == DerivePriceId(a) + DerivePriceId(b)
  {
    RemoveWhitespaceAppend(a, b);
    ToUpperAppend(RemoveWhitespace(a), RemoveWhitespace(b));
  }

  /** Deriving twice is deriving once: a derived id is its own derived id. */
  lemma DerivePriceIdIdempotent(name: string)
    ensures DerivePriceId(DerivePriceId(name)) == DerivePriceId(name)
  {
    var id := DerivePriceId(name);
    RemoveWhitespaceOfClean(id);
    ToUpperIdempotent(RemoveWhitespace(name));
  }

  /** A name with no visible character derives the empty id, and only such a
      name does. */
  lemma {:induction false} DerivePriceIdEmptyIff(name: string)
    ensures DerivePriceId(name) == [] <==> AllWhitespace(name)
  {
    if !AllWhitespace(name) {
      var i :| 0 <= i < |name| && !IsWhitespace(name[i]);
      assert name[i] in name;
    } else {
      RemoveWhitespaceOfBlank(name);
    }
  }

  /** The id used to look a token up on the oracle: the configured `priceId`
      trimmed when it has a visible character, otherwise the derived one. */
  function PriceIdOf(configured: Option<string>, name: string): (r: string)
    ensures configured.Some? && !AllWhitespace(configured.value) ==> r == Trim(configured.value)
    ensures configured.None? || AllWhitespace(configured.value) ==> r == DerivePriceId(name)
  {
    TrimEmptyIff(if configured.Some? then configured.value else []);
    if configured.Some? && configured.value != [] && |Trim(configured.value)| > 0
    then Trim(configured.value)
    else DerivePriceId(name)
  }

  /** The price id is blank exactly when neither the configured id nor the
      name has a visible character. */
  lemma PriceIdBlankIff(configured: Option<string>, name: string)
    ensures PriceIdOf(configured, name) == []
      <==> (configured.None? || AllWhitespace(configured.value)) && AllWhitespace(name)
  {
    if configured.Some? { TrimEmptyIff(configured.value); }
    DerivePriceIdEmptyIff(name);
  }

  // ---------------------------------------------------------------------
  // Normalisation

  /** One record of the parsed configuration: every field may be missing;
      `isNative` (if present) is overwritten and so not kept. */
  datatype TokenConfig = TokenConfig(
    symbol: Option<string>, name: Option<string>, address: string, logo: string,
    website: string, description: string,
    price: Num, marketCap: Num, volume24h: Num, change24h: Num,
    totalSupply: Option<Num>, maxSupply: Option<Num>, circulatingSupply: Option<Num>,
    priceId: Option<string>, priceData: Option<TokenPrice>)

  /** The symbol `SCOL`, in any letter case, marks the chain's own coin. */
  predicate IsNativeSymbol(symbol: string): (native: bool)
    ensures native ==> |symbol| == 4
    ensures symbol == "SCOL" || symbol == "scol" || symbol == "Scol" ==> native
    ensures symbol == "SCOL2" || symbol == "" ==> !native
  {
    ToUpper(symbol) == "SCOL"
  }

  lemma IsNativeSymbolIff(symbol: string)
    ensures IsNativeSymbol(symbol) <==>
      |symbol| == 4 && UpperChar(symbol[0]) == 'S' && UpperChar(symbol[1]) == 'C'
      && UpperChar(symbol[2]) == 'O' && UpperChar(symbol[3]) == 'L'
  {
    if |symbol| == 4 && UpperChar(symbol[0]) == 'S' && UpperChar(symbol[1]) == 'C'
      && UpperChar(symbol[2]) == 'O' && UpperChar(symbol[3]) == 'L' {
      assert ToUpper(symbol) == "SCOL";
    }
  }

  /** The record `safeParseTokens` makes of one configured entry. */
  function Normalise(c: TokenConfig): (t: Token)
    ensures t.symbol == OrEmpty(c.symbol) && t.name == OrEmpty(c.name)
    ensures t.priceId == PriceIdOf(c.priceId, OrEmpty(c.name))
    ensures t.isNative <==> IsNativeSymbol(OrEmpty(c.symbol))
    ensures t.address == c.address && t.marketCap == c.marketCap && t.price == c.price
    ensures t.priceData == c.priceData
    ensures t.logo == c.logo && t.website == c.website && t.description == c.description
    ensures t.volume24h == c.volume24h && t.change24h == c.change24h
    ensures t.totalSupply == c.totalSupply && t.maxSupply == c.maxSupply
    ensures t.circulatingSupply == c.circulatingSupply
  {
    var symbol := OrEmpty(c.symbol);
    var name := OrEmpty(c.name);
    Token(symbol, name, c.address, c.logo, c.website, c.description,
          c.price, c.marketCap, c.volume24h, c.change24h,
          c.totalSupply, c.maxSupply, c.circulatingSupply,
          IsNativeSymbol(symbol), PriceIdOf(c.priceId, name), c.priceData)
  }

  function NormaliseAll(cs: seq<TokenConfig>): (ts: seq<Token>)
    ensures |ts| == |cs| && forall i :: 0 <= i < |cs| ==> ts[i] == Normalise(cs[i])
  {
    if cs == [] then [] else [Normalise(cs[0])] + NormaliseAll(cs[1..])
  }

  /** What `JSON.parse` makes of the configuration text (parsing itself is
      not modelled): a syntax error or a value that is not an array, or an
      array of entries, where `None` is an entry that is `null`. Both failure
      kinds throw inside the `try`. */
  datatype Parsed = Unparsable | Entries(entries: seq<Option<TokenConfig>>)

  predicate AllPresent(entries: seq<Option<TokenConfig>>) {
    forall i :: 0 <= i < |entries| ==> entries[i].Some?
  }

  function Present(entries: seq<Option<TokenConfig>>): (cs: seq<TokenConfig>)
    requires AllPresent(entries)
    ensures |cs| == |entries| && forall i :: 0 <= i < |cs| ==> Some(cs[i]) == entries[i]
  {
    if entries == [] then [] else [entries[0].value] + Present(entries[1..])
  }

  /** `safeParseTokens`: no configuration text (missing or `''`) or any
      error while parsing or normalising gives the empty list; otherwise each
      entry normalised, in order. */
  function SafeParseTokens(raw: Option<string>, parsed: Parsed): (ts: seq<Token>)
    ensures raw.None? || raw.value == [] || parsed.Unparsable? ==> ts == []
    ensures raw.Some? && raw.value != [] && parsed.Entries? && !AllPresent(parsed.entries) ==> ts == []
    ensures raw.Some? && raw.value != [] && parsed.Entries? && AllPresent(parsed.entries) ==>
      |ts| == |parsed.entries| &&
      forall i :: 0 <= i < |ts| ==> ts[i] == Normalise(parsed.entries[i].value)
  {
    if raw.None? || raw.value == [] then []
    else match parsed
      case Unparsable => []
      case Entries(entries) =>
        if !AllPresent(entries) then []
        else NormaliseAll(Present(entries))
  }

  // ---------------------------------------------------------------------
  // Ordering

  /** Whether market cap `x` may be listed before `y`: larger first, a value
      that is not a finite number after every finite one. */
  predicate CapFirst(x: Num, y: Num): (first: bool)
    ensures x.Finite? && y.Finite? ==> (first <==> x.value >= y.value)
    ensures x.NonFinite? && y.Finite? ==> !first
    ensures y.NonFinite? ==> first
  {
    y.NonFinite? || (x.Finite? && x.value >= y.value)
  }

  /** `a` may be listed before `b`: native tokens first, then by market cap. */
  predicate Precedes(a: Token, b: Token): (first: bool)
    ensures a.isNative && !b.isNative ==> first
    ensures !a.isNative && b.isNative ==> !first
    ensures a.isNative == b.isNative ==> (first <==> CapFirst(a.marketCap, b.marketCap))
  {
    (a.isNative && !b.isNative) || (a.isNative == b.isNative && CapFirst(a.marketCap, b.marketCap))
  }

  lemma PrecedesTotal(a: Token, b: Token)
    ensures Precedes(a, b) || Precedes(b, a)
  {
  }

  lemma PrecedesTransitive(a: Token, b: Token, c: Token)
    requires Precedes(a, b) && Precedes(b, c)
    ensures Precedes(a, c)
  {
  }

  predicate Sorted(s: seq<Token>) {
    forall i, j :: 0 <= i < j < |s| ==> Precedes(s[i], s[j])
  }

  /** Places `x` in a sorted list before the first token it may precede. */
  function Insert(x: Token, s: seq<Token>): (r: seq<Token>)
    requires Sorted(s)
    ensures multiset(r) == multiset(s) + multiset{x}
    ensures Sorted(r)
  {
    if s == [] then [x]
    else if Precedes(x, s[0]) then
      forall j | 0 <= j < |s| ensures Precedes(x, s[j]) {
        if j > 0 { PrecedesTransitive(x, s[0], s[j]); }
      }
      [x] + s
    else
      var rest := Insert(x, s[1..]);
      assert s == [s[0]] + s[1..];
      forall y | y in rest ensures Precedes(s[0], y) {
        assert y in multiset(rest);
        if y != x { assert y in s[1..]; }
      }
      [s[0]] + rest
  }

  /** `[...list].sort(comparator)`: a sorted permutation of the list. */
  function SortTokens(list: seq<Token>): (r: seq<Token>)
    ensures multiset(r) == multiset(list)
    ensures Sorted(r)
  {
    if list == [] then []
    else
      assert list == [list[0]] + list[1..];
      Insert(list[0], SortTokens(list[1..]))
  }

  /** Every native token precedes every other one. */
  lemma NativesFirst(list: seq<Token>, i: int, j: int)
    requires 0 <= i < j < |SortTokens(list)|
    requires SortTokens(list)[j].isNative
    ensures SortTokens(list)[i].isNative
  {
  }

  /** Among tokens of equal nativeness, finite market caps do not increase. */
  lemma MarketCapNonIncreasing(list: seq<Token>, i: int, j: int)
    requires 0 <= i < j < |SortTokens(list)|
    requires SortTokens(list)[i].isNative == SortTokens(list)[j].isNative
    requires SortTokens(list)[j].marketCap.Finite?
    ensures SortTokens(list)[i].marketCap.Finite?
    ensures SortTokens(list)[i].marketCap.value >= SortTokens(list)[j].marketCap.value
  {
  }

  /** `getConfiguredTokens`: the normalised configuration, sorted. */
  function GetConfiguredTokens(raw: Option<string>, parsed: Parsed): (ts: seq<Token>)
    ensures multiset(ts) == multiset(SafeParseTokens(raw, parsed)) && Sorted(ts)
  {
    SortTokens(SafeParseTokens(raw, parsed))
  }
}
