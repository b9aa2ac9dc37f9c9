/**
 * The data hooks behind the pages: the configured token list, the lookup of
 * one token by symbol, and the state of the detail page while the oracle is
 * asked for the token's price. The page's state is an object whose fields
 * the effect and its asynchronous refresh update; each update is proved
 * against a pure transition function, and the promises of the hook are
 * proved about those functions.
 */
module TokensData {
  import opened Types
  import opened JsString
  import Tokens
  import PriceClient

  // ---------------------------------------------------------------------
  // The token list

  datatype TokenListResult = TokenListResult(
    tokens: seq<Token>, isLoading: bool, errorKey: Option<ErrorKey>, lastUpdated: Option<nat>)

  /** `useTokenList`: the configured tokens, never loading, no error. */
  function UseTokenList(raw: Option<string>, parsed: Tokens.Parsed): (r: TokenListResult)
    ensures Tokens.Sorted(r.tokens)
    ensures multiset(r.tokens) == multiset(Tokens.SafeParseTokens(raw, parsed))
    ensures !r.isLoading && r.errorKey.None? && r.lastUpdated.None?
  {
    TokenListResult(Tokens.GetConfiguredTokens(raw, parsed), false, None, None)
  }

  // ---------------------------------------------------------------------
  // Looking a token up by symbol

  /** The position of the first token whose lower-cased symbol is
      `normalized`, or -1. */
  function FindIndex(tokens: seq<Token>, normalized: string): (k: int)
    ensures -1 <= k < |tokens|
    ensures k >= 0 ==> ToLower(tokens[k].symbol) == normalized
    ensures forall j :: 0 <= j < |tokens| && (k == -1 || j < k) ==> ToLower(tokens[j].symbol) != normalized
  {
    if tokens == [] then -1
    else if ToLower(tokens[0].symbol) == normalized then 0
    else
      var k := FindIndex(tokens[1..], normalized);
      if k == -1 then -1 else k + 1
  }

  /** The token `useTokenDetails` shows: none for a missing or empty symbol;
      otherwise the first token whose symbol matches, ignoring letter case. */
  function FindToken(tokens: seq<Token>, symbol: Option<string>): (r: Option<Token>)
    ensures symbol.None? || symbol.value == [] ==> r.None?
    ensures r.Some? ==> r.value in tokens && ToLower(r.value.symbol) == ToLower(symbol.value)
    ensures r.None? && symbol.Some? && symbol.value != [] ==>
      forall t :: t in tokens ==> ToLower(t.symbol) != ToLower(symbol.value)
  {
    if symbol.None? || symbol.value == [] then None
    else
      var k := FindIndex(tokens, ToLower(symbol.value));
      if k == -1 then None else Some(tokens[k])
  }

  /** A match earlier in the list wins. */
  lemma FindTokenFirst(tokens: seq<Token>, symbol: string, i: nat)
    requires symbol != [] && i < |tokens| && ToLower(tokens[i].symbol) == ToLower(symbol)
    requires forall j :: 0 <= j < i ==> ToLower(tokens[j].symbol) != ToLower(symbol)
    ensures FindToken(tokens, Some(symbol)) == Some(tokens[i])
  {
  }

  /** The letter case of the requested symbol does not matter. */
  lemma FindTokenIgnoresCase(tokens: seq<Token>, symbol: string)
    ensures FindToken(tokens, Some(ToLower(symbol))) == FindToken(tokens, Some(symbol))
  {
    ToLowerOfLower(ToLower(symbol));
  }

  // ---------------------------------------------------------------------
  // The detail page's state

  /** `'status.missingConfig'` and `'status.error'` */
  datatype ErrorKey = StatusMissingConfig | StatusError

  /** The four values the hook returns besides the token; `lastUpdated` is
      the time a price arrived, as a timestamp. */
  datatype HookState = HookState(
    priceData: Option<TokenPrice>, isLoading: bool, errorKey: Option<ErrorKey>, lastUpdated: Option<nat>)

  /** How `fetchOnChainPrice` settles: with a value (`null` is `None`) or by
      throwing. */
  datatype Outcome = Resolved(data: Option<TokenPrice>) | Rejected

  /** The settlement of a call whose answer the client decoded: no price is
      `null`, a malformed answer throws. */
  function OutcomeOf(d: PriceClient.Decoded): (o: Outcome)
    ensures o.Rejected? <==> d.Throws?
    ensures d.Price? ==> o == Resolved(Some(d.price))
    ensures d.NoPrice? ==> o == Resolved(None)
  {
    match d
    case NoPrice => Resolved(None)
    case Throws => Rejected
    case Price(p) => Resolved(Some(p))
  }

  /** Only a price record with its status flag set is taken. */
  predicate Succeeded(o: Outcome): (ok: bool)
    ensures ok <==> exists p :: o == Resolved(Some(p)) && p.status
  {
    o.Resolved? && o.data.Some? && o.data.value.status
  }

  /** `(token.priceId ?? token.name).trim()`: a normalised token always has
      a `priceId`, so the name is never used here. */
  function LookupKey(token: Token): (k: string)
    ensures |k| <= |token.priceId|
    ensures k == [] <==> AllWhitespace(token.priceId)
    ensures k == Trim(token.priceId)
  {
    TrimEmptyIff(token.priceId);
    Trim(token.priceId)
  }

  /** The price id of a normalised token is already trimmed, so the key the
      hook sends is that price id unchanged. */
  lemma LookupKeyOfNormalised(c: Tokens.TokenConfig)
    ensures LookupKey(Tokens.Normalise(c)) == Tokens.Normalise(c).priceId
  {
    var id := Tokens.Normalise(c).priceId;
    if c.priceId.Some? && !AllWhitespace(c.priceId.value) {
      TrimIdempotent(c.priceId.value);
    } else {
      var d := Tokens.DerivePriceId(OrEmpty(c.name));
      assert id == d;
      if d != [] {
        TrimOfTrimmed(d);
      }
    }
  }

  /** A configured token is never looked up exactly when neither its
      configured price id nor its name has a visible character. */
  lemma LookupKeyBlankIff(c: Tokens.TokenConfig)
    ensures LookupKey(Tokens.Normalise(c)) == [] <==>
      (c.priceId.None? || AllWhitespace(c.priceId.value)) && AllWhitespace(OrEmpty(c.name))
  {
    var id := Tokens.Normalise(c).priceId;
    Tokens.PriceIdBlankIff(c.priceId, OrEmpty(c.name));
    if id != [] {
      assert !IsWhitespace(id[0]);
    }
  }

  /** What the effect leaves behind: the state, and the key of the refresh
      it starts, if it starts one. */
  datatype Effect = Effect(state: HookState, lookup: Option<string>)

  /** The synchronous part of the effect run when the token changes: it
      clears the state, then starts a refresh only for a token when both the
      contract address and the RPC URL are configured and the lookup key is
      not blank. The refresh marks the state loading before its first
      `await`. */
  function Begin(token: Option<Token>, contractAddress: string, rpcUrl: string): (e: Effect)
    ensures e.state.priceData == (if token.Some? then token.value.priceData else None)
    ensures e.state.lastUpdated.None?
    ensures e.lookup.Some? <==>
      token.Some? && contractAddress != [] && rpcUrl != [] && !AllWhitespace(token.value.priceId)
    ensures e.lookup.Some? ==> e.lookup.value == LookupKey(token.value)
    ensures e.state.isLoading <==> e.lookup.Some?
    ensures e.state.errorKey.Some? <==>
      token.Some? && (contractAddress == [] || rpcUrl == []) && token.value.priceData.None?
    ensures e.state.errorKey.Some? ==> e.state.errorKey.value == StatusMissingConfig
  {
    var cleared := HookState(if token.Some? then token.value.priceData else None, false, None, None);
    if token.None? then Effect(cleared, None)
    else if contractAddress == [] || rpcUrl == [] then
      Effect(cleared.(errorKey := if token.value.priceData.None? then Some(StatusMissingConfig) else None), None)
    else if LookupKey(token.value) == [] then Effect(cleared, None)
    else Effect(cleared.(isLoading := true), Some(LookupKey(token.value)))
  }

  /** The asynchronous part: how a settled refresh for `token` changes the
      state. A cancelled refresh changes nothing; otherwise loading ends, a
      successful answer replaces the price and stamps the time, and any other
      outcome sets the error only when the token has no configured price. */
  function Deliver(s: HookState, token: Token, cancelled: bool, outcome: Outcome, now: nat): (r: HookState)
    ensures cancelled ==> r == s
    ensures !cancelled ==> !r.isLoading
    ensures !cancelled && Succeeded(outcome) ==>
      r.priceData == outcome.data && r.lastUpdated == Some(now) && r.errorKey == s.errorKey
    ensures !Succeeded(outcome) ==> r.priceData == s.priceData && r.lastUpdated == s.lastUpdated
    ensures !cancelled && !Succeeded(outcome) && token.priceData.None? ==> r.errorKey == Some(StatusError)
    ensures token.priceData.Some? ==> r.errorKey == s.errorKey
  {
    if cancelled then s
    else if Succeeded(outcome) then s.(priceData := outcome.data, lastUpdated := Some(now), isLoading := false)
    else if token.priceData.None? then s.(errorKey := Some(StatusError), isLoading := false)
    else s.(isLoading := false)
  }

  /** One refresh of the detail page: the refresh is started with the
      token's trimmed price id, and the call it makes passes the guards of
      `fetchOnChainPrice` and sends that key. */
  lemma StartedRefreshCalls(token: Token, contractAddress: string, rpcUrl: string)
    requires Begin(Some(token), contractAddress, rpcUrl).lookup.Some?
    ensures PriceClient.FetchGuard(contractAddress, rpcUrl, Begin(Some(token), contractAddress, rpcUrl).lookup.value).Call?
    ensures Trim(Begin(Some(token), contractAddress, rpcUrl).lookup.value) == Begin(Some(token), contractAddress, rpcUrl).lookup.value
  {
    var key := LookupKey(token);
    TrimIdempotent(token.priceId);
    TrimEmptyIff(key);
  }

  /** What a page shows once its refresh has settled: loading has ended; the
      time is stamped exactly when the answer succeeded, and then its price is
      shown; otherwise the configured price stays and the error is shown
      exactly when there is no configured price. */
  lemma {:induction false} SettledRefresh(token: Token, contractAddress: string, rpcUrl: string,
                                          outcome: Outcome, now: nat)
    requires Begin(Some(token), contractAddress, rpcUrl).lookup.Some?
    ensures !Deliver(Begin(Some(token), contractAddress, rpcUrl).state, token, false, outcome, now).isLoading
    ensures Deliver(Begin(Some(token), contractAddress, rpcUrl).state, token, false, outcome, now).lastUpdated.Some?
      <==> Succeeded(outcome)
    ensures Succeeded(outcome) ==>
      Deliver(Begin(Some(token), contractAddress, rpcUrl).state, token, false, outcome, now).priceData == outcome.data
    ensures !Succeeded(outcome) ==>
      Deliver(Begin(Some(token), contractAddress, rpcUrl).state, token, false, outcome, now).priceData == token.priceData
    ensures Deliver(Begin(Some(token), contractAddress, rpcUrl).state, token, false, outcome, now).errorKey.Some?
      <==> !Succeeded(outcome) && token.priceData.None?
  {
    var s := Begin(Some(token), contractAddress, rpcUrl).state;
    assert s.errorKey.None? && s.lastUpdated.None?;
  }

  /** An error is only ever shown for a token without a configured price. */
  predicate ErrorSound(s: HookState, token: Option<Token>) {
    s.errorKey.Some? ==> token.Some? && token.value.priceData.None?
  }

  lemma BeginErrorSound(token: Option<Token>, contractAddress: string, rpcUrl: string)
    ensures ErrorSound(Begin(token, contractAddress, rpcUrl).state, token)
  {
  }

  /** A settling refresh keeps the invariant, whether it belongs to the
      current token or was cancelled when the token changed. */
  lemma DeliverErrorSound(s: HookState, current: Option<Token>, run: Token, cancelled: bool,
                          outcome: Outcome, now: nat)
    requires ErrorSound(s, current)
    requires cancelled || current == Some(run)
    ensures ErrorSound(Deliver(s, run, cancelled, outcome, now), current)
  {
  }

  /** A configured price is never replaced by a failed or rejected answer. */
  lemma FailureKeepsConfiguredPrice(token: Token, contractAddress: string, rpcUrl: string,
                                    outcome: Outcome, now: nat, cancelled: bool)
    requires token.priceData.Some? && !Succeeded(outcome)
    ensures Deliver(Begin(Some(token), contractAddress, rpcUrl).state, token, cancelled, outcome, now).priceData
      == token.priceData
    ensures Deliver(Begin(Some(token), contractAddress, rpcUrl).state, token, cancelled, outcome, now).errorKey.None?
  {
  }

  /** One run of `refresh`: the token it was started for, the key it asks
      for, and the `cancelled` flag the effect's cleanup sets. */
  class Refresh {
    const token: Token
    const lookupKey: string
    var cancelled: bool

    constructor(token: Token, lookupKey: string)
      ensures this.token == token && this.lookupKey == lookupKey && !cancelled
    {
      this.token := token;
      this.lookupKey := lookupKey;
      cancelled := false;
    }

    /** The effect's cleanup: `cancelled = true`. */
    method Cancel()
      modifies this
      ensures cancelled
    {
      cancelled := true;
    }
  }

  /** The state `useTokenDetails` keeps for one page. */
  class TokenDetailsHook {
    var priceData: Option<TokenPrice>
    var isLoading: bool
    var errorKey: Option<ErrorKey>
    var lastUpdated: Option<nat>

    function State(): HookState
      reads this
    {
      HookState(priceData, isLoading, errorKey, lastUpdated)
    }

    /** The initial state: the token's configured price, nothing else. */
    constructor(token: Option<Token>)
      ensures State() == HookState(if token.Some? then token.value.priceData else None, false, None, None)
    {
      priceData := if token.Some? then token.value.priceData else None;
      isLoading := false;
      errorKey := None;
      lastUpdated := None;
    }

    /** The effect run for `token`: resets the state and, when a lookup is
        possible, starts a refresh and marks the page loading. */
    method RunEffect(token: Option<Token>, contractAddress: string, rpcUrl: string)
      returns (run: Option<Refresh>)
      modifies this
      ensures State() == Begin(token, contractAddress, rpcUrl).state
      ensures run.Some? <==> Begin(token, contractAddress, rpcUrl).lookup.Some?
      ensures run.Some? ==> fresh(run.value) && !run.value.cancelled && token.Some?
      ensures run.Some? && token.Some? ==> run.value.token == token.value
      ensures run.Some? ==> run.value.lookupKey == Begin(token, contractAddress, rpcUrl).lookup.value
    {
      priceData := if token.Some? then token.value.priceData else None;
      lastUpdated := None;
      errorKey := None;
      isLoading := false;
      if token.None? {
        return None;
      }
      if contractAddress == [] || rpcUrl == [] {
        if token.value.priceData.None? {
          errorKey := Some(StatusMissingConfig);
        }
        isLoading := false;
        return None;
      }
      var lookupKey := LookupKey(token.value);
      if lookupKey == [] {
        isLoading := false;
        return None;
      }
      var r := new Refresh(token.value, lookupKey);
      isLoading := true;
      run := Some(r);
    }

    /** The rest of `refresh` once `fetchOnChainPrice` has settled. */
    method Settle(run: Refresh, outcome: Outcome, now: nat)
      modifies this
      ensures State() == Deliver(old(State()), run.token, run.cancelled, outcome, now)
    {
      match outcome {
        case Resolved(data) =>
          if !run.cancelled {
            if data.Some? && data.value.status {
              priceData := data;
              lastUpdated := Some(now);
            } else if run.token.priceData.None? {
              errorKey := Some(StatusError);
            }
          }
        case Rejected =>
          if !run.cancelled && run.token.priceData.None? {
            errorKey := Some(StatusError);
          }
      }
      if !run.cancelled {
        isLoading := false;
      }
    }
  }

  /** A refresh that settles after its token changed leaves the new page's
      state alone. */
  method LateResultIgnored(hook: TokenDetailsHook, run: Refresh, outcome: Outcome, now: nat)
    modifies hook, run
    ensures hook.State() == old(hook.State())
  {
    run.Cancel();
    hook.Settle(run, outcome, now);
  }
}
