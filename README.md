# ScolMarkets core, modelled in Dafny

ScolMarkets is a market dashboard for the tokens of the Scol blockchain.
It lists configured tokens and shows a detail page for each one. Prices
come from an on-chain oracle contract, which it reads with a JSON-RPC
`eth_call`. This project models the logic that sits under the React
presentation:

- **`PriceClient`** (`priceclient.dfy`): the hand-written Solidity ABI codec
  of the oracle call.
  - `precios(string)` calldata: the selector, an offset word, a length word
    and the UTF-8 bytes right-padded to whole 32-byte words.
  - The decoder of the static ten-word answer: eight amounts with two
    implied decimals, an address right-aligned in its word, and a bool
    where any nonzero word is true.
  - The checks `fetchOnChainPrice` makes before any network traffic.
  - To state round trips, the model adds the decoder's inverse (the answer
    as the oracle writes it) and the contract-side reading of the calldata.
- **`Tokens`** (`tokens.dfy`): normalisation of each configured token record
  (symbol, name, price id, native flag) and the order of the list.
- **`Environment`** (`environment.dfy`): the oracle contract address and the
  RPC endpoint list. The list is the single URL, the comma-separated URLs
  and the defaults, each kept at its first occurrence.
- **`TokenDetails`** and **`TokenTable`**: the selection rules of the
  detail page and of the table. These cover which price source wins, which
  rows and entries are shown and in which order, the market metrics, the
  supply cells, the short address and the contract card. Number formatting
  is opaque: `Types.Formatters` holds the formatters as functions, and they
  receive the options each call site passes.
- **`TokensData`**: the hooks.
  - `useTokenList`.
  - The case-insensitive symbol lookup.
  - The state machine of `useTokenDetails` over `priceData`, `isLoading`,
    `errorKey` and `lastUpdated`, with the per-run `cancelled` flag.
    - The state is a class whose methods perform the effect's updates.
    - Each method is proved against a pure transition function (`Begin`,
      `Deliver`).
    - The hook's promises are lemmas about those functions.
- **`JsString`**, **`Hex`** and **`Types`** hold the JavaScript string
  operations the code relies on, hexadecimal digit strings and the shared
  records.
  - The string operations are `trim`, `/\s/`, ASCII case mapping and
    `split`.
  - Hex digit strings are the target of `toString(16)` and the input of
    `BigInt('0x…')`.

A JavaScript number in a place where a number is expected is
`Num = Finite(real) | NonFinite`. `Number.isFinite` holds exactly of
`Finite`.

## Model

| member | source | states |
|---|---|---|
| Types.OrEmpty | src/config/tokens.ts:26-27 | `s ?? ''`: the string when present, `''` when missing |
| JsString.IsWhitespace | src/config/tokens.ts:5 | the set `\s` and `trim` share: space, tab, line feed and carriage return are in it; letters, digits and the comma are not |
| JsString.Trim | src/config/environment.ts:13-14 | the result is no longer than the input, and it neither starts nor ends with whitespace |
| JsString.TrimStartSlice | src/config/environment.ts:13-14 | what survives the leading cut is a suffix of the input, and everything cut off is whitespace |
| JsString.TrimEndSlice | src/config/environment.ts:13-14 | what survives the trailing cut is a prefix of the input, and everything cut off is whitespace |
| JsString.TrimIsSlice | src/config/environment.ts:13-14 | the trimmed string is a contiguous slice of the input, and everything cut off on either side is whitespace |
| JsString.TrimEmptyIff | src/config/tokens.ts:29 | `s.trim()` is empty exactly when every character of `s` is whitespace |
| JsString.TrimIdempotent | src/config/tokens.ts:29-30 | trimming twice is trimming once |
| JsString.TrimOfTrimmed | src/pages/TokenDetails.tsx:28 | a string without whitespace at either edge is its own trim |
| JsString.ToUpper | src/config/tokens.ts:5 | `toUpperCase`: same length, each character mapped by the ASCII upper-case map |
| JsString.ToUpperIdempotent | src/config/tokens.ts:5 | upper-casing twice is upper-casing once |
| JsString.ToUpperAppend | src/config/tokens.ts:5 | upper-casing works piece by piece |
| JsString.ToLower | src/hooks/useTokensData.ts:42-43 | `toLowerCase`: same length, each character mapped by the ASCII lower-case map |
| JsString.ToLowerHasNoUpper | src/services/priceClient.ts:67 | a lower-cased string has no upper-case letter |
| JsString.ToLowerOfLower | src/services/priceClient.ts:67 | lower-casing a string without upper-case letters changes nothing |
| JsString.RemoveWhitespace | src/config/tokens.ts:5 | `replace(/\s+/g, '')`: no whitespace is left, every other character of the input survives, and nothing new appears (order and count: `RemoveWhitespaceAppend`) |
| JsString.RemoveWhitespaceChar | src/config/tokens.ts:5 | one character is dropped exactly when it is whitespace |
| JsString.RemoveWhitespaceAppend | src/config/tokens.ts:5 | removal works piece by piece, so the kept characters stay in their order with their count |
| JsString.RemoveWhitespaceOfClean | src/config/tokens.ts:5 | a string without whitespace is unchanged |
| JsString.RemoveWhitespaceOfBlank | src/config/tokens.ts:5 | an all-whitespace string becomes empty |
| JsString.Split | src/config/environment.ts:21 | `split(',')`: at least one piece, and no piece contains the separator |
| JsString.JoinSplit | src/config/environment.ts:21 | joining the pieces with the separator gives back the input |
| Hex.ToHex | src/services/priceClient.ts:16 | `n.toString(16)`: at least one lower-case hex digit, its value is `n`, and there is no leading zero unless `n` is 0 |
| Hex.ToHexLength | src/services/priceClient.ts:16 | a number below 16^k is written with at most k digits |
| Hex.HexValue | src/services/priceClient.ts:35 | the value `BigInt` reads from hex digits: 0 for no digits; the last digit is the value modulo 16 |
| Hex.HexValueBound | src/services/priceClient.ts:35 | k digits denote a value below 16^k |
| Hex.HexValueZeroIff | src/services/priceClient.ts:68 | a digit string denotes 0 exactly when every digit is `'0'` |
| Hex.HexValueLeadingZeros | src/services/priceClient.ts:12 | leading `'0'`s do not change the value |
| PriceClient.PadHex | src/services/priceClient.ts:12 | `padStart(size, '0')`: exactly `size` characters for a shorter input, the input unchanged otherwise, the input always a suffix, and only `'0'`s in front |
| PriceClient.PadHexValue | src/services/priceClient.ts:12 | left padding keeps the hex value and keeps the digits lower-case |
| PriceClient.PadEnd | src/services/priceClient.ts:18 | `padEnd(size, '0')`: the input is a prefix and only `'0'`s follow, up to `size` |
| PriceClient.PaddedWord | src/services/priceClient.ts:16 | a count that fits in `size` digits is written with exactly `size` lower-case digits worth the count |
| PriceClient.ArrayLengthFitsWord | src/services/priceClient.ts:15-16 | any JavaScript array length (below 2^32) fits in 8 hex digits, so the length word never overflows |
| PriceClient.ByteHex | src/services/priceClient.ts:18 | each byte becomes exactly two lower-case digits whose value is the byte |
| PriceClient.ByteHexIsPadded | src/services/priceClient.ts:18 | the two digits are `toString(16)` of the byte padded to two characters with `'0'`, and they denote the byte |
| PriceClient.BytesHex | src/services/priceClient.ts:18 | the joined digits are lower-case hex, two per byte |
| PriceClient.BytesHexAt | src/services/priceClient.ts:18 | byte i is written by characters 2i and 2i+1 |
| PriceClient.PaddedLength | src/services/priceClient.ts:17 | `ceil(n/32)*32`: the least multiple of 32 that is not below n |
| PriceClient.EncodeStringArgument | src/services/priceClient.ts:4-21 | calldata starts with the selector `0x1002aa9d` |
| PriceClient.DataSection | src/services/priceClient.ts:17-18 | the data section is the bytes' digits followed by `'0'`s up to whole words |
| PriceClient.EncodeLayout | src/services/priceClient.ts:4-21 | total length 10 + 128 + 64·ceil(n/32); the selector; an offset word worth 32; a length word worth the byte count n; then the data section |
| PriceClient.ReadBytesHex | src/services/priceClient.ts:18 | reading the first 2n data digits back gives the original bytes |
| PriceClient.DecodeStringArgument | src/services/priceClient.ts:14-21 | the contract-side reading of the calldata only succeeds on text that starts with the selector and holds a whole head |
| PriceClient.EncodeDecodeStringArgument | src/services/priceClient.ts:14-21 | round trip: the calldata read back gives exactly the argument's bytes |
| PriceClient.Utf8Char | src/services/priceClient.ts:15 | one to four bytes per code point, one exactly for ASCII |
| PriceClient.Utf8Encode | src/services/priceClient.ts:15 | `TextEncoder.encode`: between one and four bytes per character |
| PriceClient.FormatWithDecimals | src/services/priceClient.ts:24-27 | `whole·100 + fraction = v` and `0 ≤ fraction < 100` |
| PriceClient.AmountNumberExact | src/services/priceClient.ts:28 | whole plus fraction/100 is exactly v/100 |
| PriceClient.AmountNumber | src/services/priceClient.ts:28 | the number lies between the whole part and the next integer, below the latter when the fraction is below the divisor |
| PriceClient.HexToBigInt | src/services/priceClient.ts:31-36 | 0 for `''`; otherwise the base-16 value of the digits, and an error exactly when a character is not a hex digit |
| PriceClient.Body | src/services/priceClient.ts:43 | the answer is `0x` followed by the body when it starts with `0x`; otherwise the body is the answer itself |
| PriceClient.Word | src/services/priceClient.ts:49-55 | word `i` is the 64 characters of the body from position 64·i |
| PriceClient.WordsAreHex | src/services/priceClient.ts:59-68 | holds exactly when `hexToBigInt` accepts all eight amount words and the status word |
| PriceClient.SliceLast | src/services/priceClient.ts:56 | `slice(-k)`: a suffix of the input, of length k or the whole input when shorter |
| PriceClient.Hundredths | src/services/priceClient.ts:24-28 | a finite number that is one hundredth of the count |
| PriceClient.DecodeAmount | src/services/priceClient.ts:59-66 | an amount word is read as its value in hundredths |
| PriceClient.DecodeWallet | src/services/priceClient.ts:54-67 | 42 characters, `0x` then the last 40 characters of the word with ASCII letters lower-cased, so no upper-case ASCII letter (non-ASCII letters: see Left out) |
| PriceClient.DecodeStatus | src/services/priceClient.ts:55-68 | true exactly when the word has a nonzero digit |
| PriceClient.DecodePriceResult | src/services/priceClient.ts:38-70 | `null` exactly when the body after an optional `0x` is shorter than 640 characters, counted as code points (so also for `''` and `'0x'`); a throw exactly when a long enough body has an amount or status word that is not hex; a record otherwise |
| PriceClient.DecodeFieldPlacement | src/services/priceClient.ts:49-68 | amount i is read from word i in the order cop, usd, gbp, cny, jpy, eur, brl, btc; the wallet from word 8; the status from word 9; characters after word 9 are ignored |
| PriceClient.AmountWordValue | src/services/priceClient.ts:59-66 | an amount written as a word decodes to its hundredths, and the word is all `'0'`s exactly for 0 |
| PriceClient.PriceWords | src/services/priceClient.ts:49-56 | the ten words of an answer: eight amount words, the wallet behind 24 `'0'`s, the status word |
| PriceClient.EncodePriceResult | src/services/priceClient.ts:43 | the answer is `0x` followed by the ten words |
| PriceClient.EncodedWords | src/services/priceClient.ts:49-55 | each word of an answer is read back from its slot |
| PriceClient.DecodeEncodedPrice | src/services/priceClient.ts:38-70 | round trip: decoding the oracle's answer gives every amount as hundredths, the wallet behind `0x` and the status |
| PriceClient.FetchGuard | src/services/priceClient.ts:72-82 | a missing contract address or RPC URL throws; otherwise a blank name returns `null` without a request; otherwise the request's calldata is the encoding of the trimmed name's UTF-8 bytes, and it reads back as those bytes |
| Tokens.DerivePriceId | src/config/tokens.ts:5 | the name with its whitespace removed, then upper-cased: no longer than the name, no whitespace and no lower-case letter |
| Tokens.DerivePriceIdChar | src/config/tokens.ts:5 | a whitespace character derives nothing, any other character its upper-case form |
| Tokens.DerivePriceIdAppend | src/config/tokens.ts:5 | deriving works piece by piece, so the id is the name's non-whitespace characters upper-cased, in their order |
| Tokens.DerivePriceIdIdempotent | src/config/tokens.ts:5 | deriving twice is deriving once |
| Tokens.DerivePriceIdEmptyIff | src/config/tokens.ts:5 | the derived id is empty exactly when the name is blank |
| Tokens.PriceIdOf | src/config/tokens.ts:28-31 | the trimmed configured id when it is not blank, the id derived from the name otherwise |
| Tokens.PriceIdBlankIff | src/config/tokens.ts:28-31 | the price id is empty exactly when both the configured id and the name are blank |
| Tokens.IsNativeSymbol | src/config/tokens.ts:38 | native symbols have four characters; `SCOL` in upper, lower or mixed case is native; `SCOL2` and `''` are not |
| Tokens.IsNativeSymbolIff | src/config/tokens.ts:38 | native exactly when the symbol is `SCOL` in any letter case |
| Tokens.Normalise | src/config/tokens.ts:25-39 | a missing symbol or name becomes `''`; the price id by `PriceIdOf`; native by the symbol; the other fields are kept |
| Tokens.NormaliseAll | src/config/tokens.ts:25 | `map`: one normalised record per entry, in order |
| Tokens.SafeParseTokens | src/config/tokens.ts:18-46 | missing or empty configuration text, unparsable text, or an entry that makes normalisation throw give `[]`; otherwise each entry normalised, in order |
| Tokens.CapFirst | src/config/tokens.ts:15 | between finite market caps, the larger or equal one goes first; a finite cap goes before a non-finite one |
| Tokens.Precedes | src/config/tokens.ts:12-15 | a native token goes before a non-native one and never after; tokens of equal nativeness are ordered by market cap |
| Tokens.PrecedesTotal | src/config/tokens.ts:12-15 | any two tokens can be ordered |
| Tokens.PrecedesTransitive | src/config/tokens.ts:12-15 | the order is transitive |
| Tokens.Insert | src/config/tokens.ts:12-15 | inserting into a sorted list keeps it sorted and adds exactly the element |
| Tokens.SortTokens | src/config/tokens.ts:11-16 | a permutation of the input, sorted natives first then by market cap |
| Tokens.NativesFirst | src/config/tokens.ts:13-14 | every native token precedes every non-native one |
| Tokens.MarketCapNonIncreasing | src/config/tokens.ts:15 | among tokens of equal nativeness, finite market caps do not increase |
| Tokens.GetConfiguredTokens | src/config/tokens.ts:48 | a sorted permutation of the normalised configuration |
| Environment.PriceContractAddress | src/config/environment.ts:3 | the trimmed variable, `''` when missing; empty exactly when missing or blank |
| Environment.IndexOf | src/config/environment.ts:25 | `indexOf`: -1 exactly when absent, otherwise the first position holding the value |
| Environment.FirstOccurrences | src/config/environment.ts:25 | the values of a prefix, each once, the first element first |
| Environment.FirstOccurrencesOrder | src/config/environment.ts:25 | the kept values appear in the order of their first occurrences |
| Environment.Unique | src/config/environment.ts:25 | the same set of values as the input, none twice, the input's first element first |
| Environment.UniqueOrder | src/config/environment.ts:25 | kept values keep the relative order of their first occurrences |
| Environment.TrimmedPieces | src/config/environment.ts:21 | at most one piece per part; each piece is non-empty and trimmed (order: `TrimmedPiecesAppend`) |
| Environment.TrimmedPiecesOne | src/config/environment.ts:21 | one part gives its trim when that is not blank, nothing otherwise |
| Environment.TrimmedPiecesAppend | src/config/environment.ts:21 | the pieces of consecutive parts are consecutive, so the pieces keep the order of the comma list |
| Environment.TrimmedPiecesComplete | src/config/environment.ts:21 | no non-blank piece is dropped |
| Environment.TrimmedPiecesSound | src/config/environment.ts:21 | every kept piece is the trim of some part |
| Environment.SinglePart | src/config/environment.ts:16-18 | only non-empty URLs; the single URL itself when it is not empty |
| Environment.MultiPart | src/config/environment.ts:14-22 | none for an empty comma list; otherwise the non-empty trimmed pieces of its comma split |
| Environment.EnvUrls | src/config/environment.ts:12-22 | only non-empty URLs; the trimmed single URL when not blank, followed by the comma pieces in their order |
| Environment.UniqueHead | src/config/environment.ts:24-25 | de-duplication keeps the first environment URL first, whatever follows it |
| Environment.ParseConfiguredRpcUrls | src/config/environment.ts:11-28 | the de-duplicated environment URLs followed by the defaults; no duplicates; every default present |
| Environment.SingleUrlFirst | src/config/environment.ts:13-31 | a non-blank single URL, trimmed, is the endpoint in use |
| Environment.FirstPieceWithoutSingleUrl | src/config/environment.ts:13-31 | without a single URL, the first non-blank comma piece is the endpoint in use |
| Environment.UniqueOfAppend | src/config/environment.ts:24-25 | every default survives de-duplication, and only values of the two parts appear |
| Environment.EndpointsWellFormed | src/config/environment.ts:24-25 | every default endpoint is present and no endpoint is empty |
| Environment.RpcUrl | src/config/environment.ts:31 | `rpcUrls[0] ?? ''` |
| Environment.RpcUrlNeverEmpty | src/config/environment.ts:24-31 | the endpoint in use is never `''` |
| TokenDetails.ShortenAddress | src/pages/TokenDetails.tsx:23-34 | `''` for `''`; the trimmed address when it has at most 12 characters; otherwise 11 characters: its first 6, an ellipsis, its last 4 |
| TokenDetails.ShortenAddressIdempotent | src/pages/TokenDetails.tsx:23-34 | a short form has at most 12 characters and is its own short form |
| TokenDetails.GetValue | src/pages/TokenDetails.tsx:43-56 | no value exactly when no present source has a finite amount |
| TokenDetails.GetValueFirst | src/pages/TokenDetails.tsx:43-56 | the first present source with a finite amount supplies the value |
| TokenDetails.Sources | src/pages/TokenDetails.tsx:41 | two sources: the fetched price first, then the configured `priceData` |
| TokenDetails.RowAmount | src/pages/TokenDetails.tsx:41-62 | the oracle's finite amount, else the configured record's, else `token.price` for USD alone |
| TokenDetails.Rank | src/pages/TokenDetails.tsx:58-147 | the place of a currency among the entries: its position in usd, cop, eur, gbp, brl, jpy, cny, btc |
| TokenDetails.RankOfRowOrder | src/pages/TokenDetails.tsx:58-147 | the currency at each position of the entry list has that position as its place, so no currency has two entries |
| TokenDetails.RowFor | src/pages/TokenDetails.tsx:155-161 | the row of a currency with a finite amount: keyed by that currency, its label, and its amount formatted with the options of its entry |
| TokenDetails.FormatAmount | src/pages/TokenDetails.tsx:63-145 | BTC goes through the crypto formatter with 0 to 8 fraction digits; every other currency goes through the currency formatter in its own currency, with a minimum no larger than the maximum |
| TokenDetails.EntryRows | src/pages/TokenDetails.tsx:149-162 | the `flatMap` callback gives at most one row, and one exactly when the entry's amount is finite |
| TokenDetails.RowsFrom | src/pages/TokenDetails.tsx:149-162 | at most one row per remaining entry, and every row is the row of its currency, with a finite amount |
| TokenDetails.ShownFrom | src/pages/TokenDetails.tsx:149-153 | the positions kept by the filter part of the `flatMap`: at most one per remaining entry |
| TokenDetails.ShownFromAt | src/pages/TokenDetails.tsx:149-153 | each kept position is one of the remaining entries and passes the test |
| TokenDetails.ShownFromOrdered | src/pages/TokenDetails.tsx:149 | the kept positions are strictly ascending: the `flatMap` keeps the entries' order |
| TokenDetails.ShownFromHas | src/pages/TokenDetails.tsx:149-153 | a remaining entry is kept exactly when it passes the test |
| TokenDetails.Shown | src/pages/TokenDetails.tsx:150-151 | the test of the `flatMap`: an entry is kept exactly when its amount is finite |
| TokenDetails.RowsOf | src/pages/TokenDetails.tsx:155-161 | one row per kept position, in order, each the row of the entry at that position |
| TokenDetails.RowsFromIsMap | src/pages/TokenDetails.tsx:149-162 | the `flatMap` equals filtering the entries by a finite amount and then mapping each kept entry to its row |
| TokenDetails.RowsFromStep | src/pages/TokenDetails.tsx:149-162 | the entry at a position adds its row in front of the later rows exactly when that position is shown |
| TokenDetails.RowsFromKeys | src/pages/TokenDetails.tsx:149-162 | row i of the `flatMap` is keyed by the currency at the i-th kept position and is that currency's row |
| TokenDetails.KeysFollowRowOrder | src/pages/TokenDetails.tsx:58-149 | rows taken at ascending positions of the entry list are in the entries' order |
| TokenDetails.KeysAtPositions | src/pages/TokenDetails.tsx:58-149 | a currency has a row exactly when its position in the entry list was kept |
| TokenDetails.BuildPriceRows | src/pages/TokenDetails.tsx:40-163 | at most 8 rows in the fixed order usd, cop, eur, gbp, brl, jpy, cny, btc; a row exactly for each currency whose amount is finite; each row formatted with its call site's options |
| TokenDetails.PriceRowKeysDistinct | src/pages/TokenDetails.tsx:58-162 | each currency appears at most once |
| TokenDetails.UsdAmountFinite | src/pages/TokenDetails.tsx:62 | a finite `token.price` makes the USD amount finite, whatever the sources hold |
| TokenDetails.UsdRowWithFinitePrice | src/pages/TokenDetails.tsx:58-162 | a token with a finite price always shows the USD row, first |
| TokenDetails.ChangeValue | src/pages/TokenDetails.tsx:182-187 | `'—'` when not finite; otherwise `'+'` exactly when the change is at least 0, `'-'` otherwise, then the formatted magnitude |
| TokenDetails.BuildMarketMetrics | src/pages/TokenDetails.tsx:165-195 | exactly four metrics keyed marketCap, volume24h, change24h, lastUpdated; a value that is not finite is shown as `'—'` |
| TokenDetails.FormatSupplyValue | src/pages/TokenDetails.tsx:20-21 | `'—'` for a missing supply, the compact form otherwise |
| TokenDetails.DerivedPriceData | src/pages/TokenDetails.tsx:298 | `priceData ?? token.priceData` |
| TokenDetails.ContractCardForNative | src/pages/TokenDetails.tsx:298-331 | for the native token the card is shown exactly when the record in use has a non-empty wallet |
| TokenTable.PriceEntries | src/components/TokenTable.tsx:75-123 | usd, cop, btc from the price record when there is one; only `token.price` under `usd-fallback` otherwise |
| TokenTable.ItemMatchesDetailRow | src/components/TokenTable.tsx:79-107 | an entry is formatted as the detail page formats the same currency |
| TokenTable.ItemOf | src/components/TokenTable.tsx:75-123 | a finite entry gives an item under its own key |
| TokenTable.Items | src/components/TokenTable.tsx:127-131 | one item per entry, in the entries' order |
| TokenTable.KeepFinite | src/components/TokenTable.tsx:125-126 | exactly the finite entries are kept |
| TokenTable.KeepFiniteAppend | src/components/TokenTable.tsx:125-126 | the filter keeps the order of the entries |
| TokenTable.RenderPrice | src/components/TokenTable.tsx:74-142 | a single `'—'` placeholder exactly when no entry is finite; otherwise the items of the finite entries, in the entries' order |
| TokenTable.RenderPriceWithRecord | src/components/TokenTable.tsx:75-131 | with all three amounts finite, the items are usd, cop, btc in that order |
| TokenTable.RowsOf | src/components/TokenTable.tsx:158-217 | one row per token, in the tokens' order |
| TokenTable.RenderPriceWithoutRecord | src/components/TokenTable.tsx:111-139 | without a record, the token's own price or the placeholder |
| TokenTable.FormatSupply | src/components/TokenTable.tsx:38-39 | `'—'` for a missing supply, the compact form otherwise |
| TokenTable.FormatSupplyAgrees | src/components/TokenTable.tsx:38-39 | the table and the detail page show a supply alike |
| TokenTable.RowOf | src/components/TokenTable.tsx:160-186 | the row's symbol, name, badge, price cell, market cap and supplies come from its token |
| TokenTable.RenderTable | src/components/TokenTable.tsx:41-158 | the empty state exactly when there is no token; otherwise the rows are `RowsOf`: row i is token i's row, one per token in input order |
| TokensData.UseTokenList | src/hooks/useTokensData.ts:24-33 | the configured tokens sorted, not loading, no error, no time |
| TokensData.FindIndex | src/hooks/useTokensData.ts:43 | `find`: the first matching position, or none |
| TokensData.FindToken | src/hooks/useTokensData.ts:37-44 | none for a missing or empty symbol; otherwise a token whose lower-cased symbol matches, and none only when no token matches |
| TokensData.FindTokenFirst | src/hooks/useTokensData.ts:43 | the earliest match wins |
| TokensData.FindTokenIgnoresCase | src/hooks/useTokensData.ts:42-43 | the letter case of the requested symbol does not matter |
| TokensData.OutcomeOf | src/services/priceClient.ts:117 | a decoded `null` resolves to `null`, a decoder throw rejects, a record resolves to itself |
| TokensData.Succeeded | src/hooks/useTokensData.ts:87 | true exactly for a resolved call carrying a price record whose status flag is set |
| TokensData.LookupKey | src/hooks/useTokensData.ts:70 | the key is `Trim(token.priceId)`: empty exactly when the id is blank |
| TokensData.LookupKeyOfNormalised | src/hooks/useTokensData.ts:70 | for a normalised token the trim changes nothing: the key is its price id |
| TokensData.LookupKeyBlankIff | src/hooks/useTokensData.ts:70-74 | a configured token is never fetched exactly when both its configured id and its name are blank |
| TokensData.Begin | src/hooks/useTokensData.ts:51-79 | reset to the configured price with no time; a refresh starts exactly for a token with address, RPC URL and non-blank key, and then the page is loading; a missing-config error exactly when the configuration is missing and the token has no configured price |
| TokensData.Deliver | src/hooks/useTokensData.ts:83-101 | a cancelled refresh changes nothing; otherwise loading ends, a result with status true replaces the price and stamps the time, and any other outcome keeps the price and sets the error only without a configured price |
| TokensData.StartedRefreshCalls | src/hooks/useTokensData.ts:62-82 | a started refresh passes the fetch guards and sends its (already trimmed) key |
| TokensData.SettledRefresh | src/hooks/useTokensData.ts:78-101 | after one uncancelled refresh: not loading; time stamped exactly on success; the new price on success and the configured one otherwise; an error exactly on failure without a configured price |
| TokensData.BeginErrorSound | src/hooks/useTokensData.ts:51-68 | after the reset, an error is shown only for a token without a configured price |
| TokensData.DeliverErrorSound | src/hooks/useTokensData.ts:87-96 | a settling refresh, current or cancelled, keeps that invariant |
| TokensData.FailureKeepsConfiguredPrice | src/hooks/useTokensData.ts:90-96 | a failed or rejected answer never replaces a configured price nor shows an error |
| TokensData.TokenDetailsHook.constructor | src/hooks/useTokensData.ts:46-49 | initial state: the token's configured price, not loading, no error, no time |
| TokensData.TokenDetailsHook.RunEffect | src/hooks/useTokensData.ts:51-104 | the new state is `Begin`'s, and a fresh uncancelled refresh for the token and its key is returned exactly when `Begin` starts one |
| TokensData.TokenDetailsHook.Settle | src/hooks/useTokensData.ts:83-101 | the new state is `Deliver` of the old state |
| TokensData.Refresh.constructor | src/hooks/useTokensData.ts:76-78 | a refresh starts for its token and lookup key, not cancelled |
| TokensData.Refresh.Cancel | src/hooks/useTokensData.ts:106-108 | the cleanup sets `cancelled` |
| TokensData.LateResultIgnored | src/hooks/useTokensData.ts:83-108 | a result that arrives after the cleanup leaves the page's state unchanged |

## Left out

- Network I/O of `fetchOnChainPrice` is outside the model: the POST, the JSON-RPC body, HTTP status and RPC error handling, and the `requestId` counter. Its outcome is a parameter (`TokensData.Outcome`), so the model assumes the calls settle one at a time.
- Time is not read: `new Date()` is the `now` parameter of `Settle`.
- PriceClient.Hundredths: decoded amounts are the exact rational v/100. The floating-point `Number(whole) + Number(fraction) / 100` and its rounding are not modelled.
- PriceClient.EncodeLayout and PriceClient.EncodeDecodeStringArgument: both require the byte count to have at most 64 hex digits. `ArrayLengthFitsWord` shows that every JavaScript array length meets this.
- PriceClient.Utf8Encode: a Dafny string holds Unicode scalar values. The replacement of lone surrogates by U+FFFD in `TextEncoder` is therefore not modelled.
- PriceClient.HexToBigInt: after the `'0x'` prefix, `BigInt` also accepts trailing whitespace behind at least one digit, which is not modelled. A word holding whitespace is treated as rejected; the words come from hex text.
- JsString.ToUpper and JsString.ToLower map only ASCII letters. JavaScript's full Unicode case mapping, including changes of length, is not modelled.
- JsString.Trim and the other string members count characters as code points, while JavaScript counts UTF-16 code units. This matters for text holding characters outside the Basic Multilingual Plane, in two places:
  - `TokenDetails.ShortenAddress`: its length test and its slices.
  - `PriceClient.DecodePriceResult`: see the next line.
- PriceClient.DecodePriceResult: the 640-character length test and the 64-character word slices count code points, not UTF-16 code units. A body that holds a character outside the Basic Multilingual Plane can therefore decode differently. For example, 638 `'a'`s followed by U+1F600 is `null` in the model, while JavaScript counts 640 units and `BigInt` throws on word 9. The model's promises hold for bodies of ASCII characters, which is what the hex text of an `eth_call` answer is made of.
- PriceClient.DecodeWallet: the wallet is lower-cased with the ASCII case map. A non-ASCII letter in word 8 can change in content and length under JavaScript's `toLowerCase` but not in the model. For example, U+0130 becomes two code units in JavaScript, so the JavaScript wallet has 43 units where the model's has 42.
- Tokens.SortTokens: the source comparator never returns 0, so it is inconsistent on ties and when a market cap is not a number. When a market cap is not a number, the order the program produces depends on the sort algorithm of the JavaScript engine and is not defined by the program. The model sorts by a total preorder: natives first, then finite market caps descending, non-finite ones last. That placement, and what `Tokens.MarketCapNonIncreasing` states about it, is the model's choice, not the program's behaviour. The relative order of ties is not pinned down. A market cap of +Infinity (`1e400` in the JSON text) is a number on which the comparator is consistent, so the program places it first among the non-native tokens; the model folds it into its non-finite values and places it last.
- Tokens.SafeParseTokens: `JSON.parse` is not modelled; its outcome is the `parsed` parameter.
  - Only a `null` entry is modelled as making normalisation throw.
  - Non-string `symbol`, `name` or `priceId` values are not modelled.
  - Where the parsed fields are held as datatype fields, non-numeric values collapse into `NonFinite`.
- The environment variables (`import.meta.env`) are parameters.
- Number and date formatting (`Intl.NumberFormat`, `Intl.DateTimeFormat`) is opaque (`Types.Formatters`). Two mismatches in the source fall outside the model:
  - `src/utils/format.ts` does not export the `formatCrypto` that both pages import.
  - Its `formatCurrency` ignores the options object the pages pass.

  The model records the options each call site passes.
- React rendering and lifecycle are not modelled: JSX, the memo and effect scheduling, the translated labels, the `document.title` effect and the table's animation flag.
- Real concurrency of the asynchronous refresh is not modelled. Only the two orderings are modelled: a result before the cleanup and a result after it.
- `src/App.tsx`, `src/pages/HomeView.tsx` (wallet calls) and `src/i18n.ts` are not part of this model.
- `src/types/price.ts` is not part of this model. `Types.TokenPrice` follows the fields the decoder builds.
- TokensData.LookupKey: normalisation always sets `priceId`. The `?? token.name` fallback of the hook can therefore never be taken, and it is not modelled.
- TokenDetails.HasOracleData and TokenDetails.ShouldRenderContractCard are predicates without a contract of their own. `ContractCardForNative` states the card rule.
