/**
 * Deployment settings read from the environment: the oracle contract address
 * and the list of JSON-RPC endpoints, the first of which is used.
 */
module Environment {
  import opened Types
  import opened JsString

  /** The public endpoints that are always tried after the configured ones. */
  const DefaultRpcUrls: seq<string> :=
    ["https://mainnet-rpc.scolcoin.com", "https://mainrpc.scolcoin.com", "https://seed.scolcoin.com"]

  /** `(VITE_PRICE_CONTRACT_ADDRESS ?? '').trim()` */
  function PriceContractAddress(env: Option<string>): (r: string)
    ensures env.None? ==> r == []
    ensures env.Some? ==> r == Trim(env.value)
    ensures r == [] <==> env.None? || AllWhitespace(env.value)
  {
    TrimEmptyIff(OrEmpty(env));
    Trim(OrEmpty(env))
  }

  // ---------------------------------------------------------------------
  // First occurrences

  /** `xs.indexOf(x)`: the first position holding `x`, or -1. */
  function IndexOf(xs: seq<string>, x: string): (k: int)
    ensures -1 <= k < |xs|
    ensures k == -1 <==> x !in xs
    ensures k >= 0 ==> xs[k] == x && x !in xs[..k]
  {
    if xs == [] then -1
    else if xs[0] == x then 0
    else
      var k := IndexOf(xs[1..], x);
      if k == -1 then -1
      else
        assert xs[..k + 1] == [xs[0]] + xs[1..][..k];
        k + 1
  }

  predicate NoDuplicates(xs: seq<string>) {
    forall i, j :: 0 <= i < j < |xs| ==> xs[i] != xs[j]
  }

  /** The first `n` elements of `xs`, each kept when it is the first
      occurrence of its value in the whole of `xs`: exactly the values of the
      prefix, none twice, the first element first. */
  function FirstOccurrences(xs: seq<string>, n: nat): (r: seq<string>)
    requires n <= |xs|
    ensures forall x :: x in r <==> x in xs[..n]
    ensures NoDuplicates(r)
    ensures n > 0 ==> r != [] && r[0] == xs[0]
  {
    if n == 0 then []
    else
      var prev := FirstOccurrences(xs, n - 1);
      var x := xs[n - 1];
      assert xs[..n] == xs[..n - 1] + [x];
      if IndexOf(xs, x) == n - 1 then
        assert x !in prev;
        var r := prev + [x];
        assert forall i :: 0 <= i < |prev| ==> r[i] == prev[i];
        r
      else
        assert x in xs[..n - 1] by {
          var k := IndexOf(xs, x);
          assert xs[..n - 1][k] == x;
        }
        prev
  }

  /** The kept elements appear in the order of their first occurrences. */
  lemma {:induction false} FirstOccurrencesOrder(xs: seq<string>, n: nat)
    requires n <= |xs|
    ensures forall k :: 0 <= k < |FirstOccurrences(xs, n)| ==>
      0 <= IndexOf(xs, FirstOccurrences(xs, n)[k]) < n
    ensures forall i, j :: 0 <= i < j < |FirstOccurrences(xs, n)| ==>
      IndexOf(xs, FirstOccurrences(xs, n)[i]) < IndexOf(xs, FirstOccurrences(xs, n)[j])
  {
    if n > 0 {
      FirstOccurrencesOrder(xs, n - 1);
      var prev := FirstOccurrences(xs, n - 1);
      var x := xs[n - 1];
      if IndexOf(xs, x) == n - 1 {
        var r := prev + [x];
        assert FirstOccurrences(xs, n) == r;
        assert forall k :: 0 <= k < |prev| ==> r[k] == prev[k];
      } else {
        assert FirstOccurrences(xs, n) == prev;
      }
    }
  }

  /** `combined.filter((value, index) => combined.indexOf(value) === index)` */
  function Unique(xs: seq<string>): (r: seq<string>)
    ensures forall x :: x in r <==> x in xs
    ensures NoDuplicates(r)
    ensures xs != [] ==> r != [] && r[0] == xs[0]
  {
    assert xs[..|xs|] == xs;
    FirstOccurrences(xs, |xs|)
  }

  /** Each value is kept at its first occurrence: kept values keep the
      relative order of their first occurrences in the input. */
  lemma UniqueOrder(xs: seq<string>)
    ensures forall i, j :: 0 <= i < j < |Unique(xs)| ==>
      IndexOf(xs, Unique(xs)[i]) < IndexOf(xs, Unique(xs)[j])
  {
    FirstOccurrencesOrder(xs, |xs|);
    assert xs[..|xs|] == xs;
  }

  // ---------------------------------------------------------------------
  // The endpoint list

  /** The non-empty trimmed pieces of a comma-separated list, in order. */
  function TrimmedPieces(parts: seq<string>): (r: seq<string>)
    ensures |r| <= |parts|
    ensures forall x :: x in r ==> x != [] && Trim(x) == x
  {
    if parts == [] then []
    else
      var rest := TrimmedPieces(parts[1..]);
      TrimIdempotent(parts[0]);
      if Trim(parts[0]) != [] then [Trim(parts[0])] + rest else rest
  }

  /** No non-blank piece is dropped ... */
  lemma {:induction false} TrimmedPiecesComplete(parts: seq<string>)
    ensures forall p :: p in parts && Trim(p) != [] ==> Trim(p) in TrimmedPieces(parts)
  {
    if parts != [] {
      TrimmedPiecesComplete(parts[1..]);
      assert forall p :: p in parts ==> p == parts[0] || p in parts[1..];
    }
  }

  /** ... and nothing but trimmed pieces is kept. */
  lemma {:induction false} TrimmedPiecesSound(parts: seq<string>)
    ensures forall x :: x in TrimmedPieces(parts) ==> exists p :: p in parts && Trim(p) == x
  {
    if parts != [] {
      TrimmedPiecesSound(parts[1..]);
      forall x | x in TrimmedPieces(parts) ensures exists p :: p in parts && Trim(p) == x {
        if x != Trim(parts[0]) {
          assert x in TrimmedPieces(parts[1..]);
          var p :| p in parts[1..] && Trim(p) == x;
          assert p in parts;
        }
      }
    }
  }

  /** One part gives its trim when that is not blank, nothing otherwise. */
  lemma TrimmedPiecesOne(p: string)
    ensures Trim(p) != [] ==> TrimmedPieces([p]) == [Trim(p)]
    ensures Trim(p) == [] ==> TrimmedPieces([p]) == []
  {
    assert [p][1..] == [];
  }

  /** The pieces of consecutive parts are consecutive: the pieces keep the
      order of the comma list. */
  lemma {:induction false} TrimmedPiecesAppend(a: seq<string>, b: seq<string>)
    ensures TrimmedPieces(a + b) == TrimmedPieces(a) + TrimmedPieces(b)
  {
    if a == [] {
      assert a + b == b;
    } else {
      assert (a + b)[0] == a[0];
      assert (a + b)[1..] == a[1..] + b;
      TrimmedPiecesAppend(a[1..], b);
    }
  }

  /** The single URL as a list: itself when not empty. */
  function SinglePart(singleUrl: string): (r: seq<string>)
    ensures forall x :: x in r ==> x != []
    ensures singleUrl != [] ==> r == [singleUrl]
  {
    if singleUrl != [] then [singleUrl] else []
  }

  /** The non-empty trimmed pieces of the comma list, none when it is empty. */
  function MultiPart(multiUrl: string): (r: seq<string>)
    ensures forall x :: x in r ==> x != []
    ensures multiUrl != [] ==> r == TrimmedPieces(Split(multiUrl, ','))
    ensures multiUrl == [] ==> r == []
  {
    if multiUrl != [] then TrimmedPieces(Split(multiUrl, ',')) else []
  }

  /** The URLs the environment supplies: the trimmed single URL when not
      blank, then the non-empty trimmed pieces of the trimmed comma list. */
  function EnvUrls(singleEnv: Option<string>, multiEnv: Option<string>): (r: seq<string>)
    ensures forall x :: x in r ==> x != []
    ensures Trim(OrEmpty(singleEnv)) != [] ==> r != [] && r[0] == Trim(OrEmpty(singleEnv))
    ensures r == SinglePart(Trim(OrEmpty(singleEnv))) + MultiPart(Trim(OrEmpty(multiEnv)))
  {
    SinglePart(Trim(OrEmpty(singleEnv))) + MultiPart(Trim(OrEmpty(multiEnv)))
  }

  /** `parseConfiguredRpcUrls`, with the two environment values as
      parameters: the environment's URLs then the defaults, each value kept
      at its first occurrence only. */
  method ParseConfiguredRpcUrls(singleEnv: Option<string>, multiEnv: Option<string>)
    returns (unique: seq<string>)
    ensures unique == Unique(EnvUrls(singleEnv, multiEnv) + DefaultRpcUrls)
    ensures NoDuplicates(unique)
    ensures forall d :: d in DefaultRpcUrls ==> d in unique
  {
    var envUrls: seq<string> := [];
    var singleUrl := Trim(OrEmpty(singleEnv));
    var multiUrl := Trim(OrEmpty(multiEnv));
    if singleUrl != [] {
      envUrls := envUrls + [singleUrl];
    }
    assert envUrls == SinglePart(singleUrl);
    if multiUrl != [] {
      envUrls := envUrls + TrimmedPieces(Split(multiUrl, ','));
    } else {
      assert envUrls == envUrls + MultiPart(multiUrl);
    }
    assert envUrls == SinglePart(singleUrl) + MultiPart(multiUrl);
    var combined := envUrls + DefaultRpcUrls;
    unique := Unique(combined);
    UniqueOfAppend(envUrls, DefaultRpcUrls);
  }

  /** A non-blank single URL is the endpoint in use. */
  lemma SingleUrlFirst(singleUrl: string, multiEnv: Option<string>)
    requires Trim(singleUrl) != []
    ensures RpcUrl(Unique(EnvUrls(Some(singleUrl), multiEnv) + DefaultRpcUrls)) == Trim(singleUrl)
  {
    var env := EnvUrls(Some(singleUrl), multiEnv);
    assert env != [] && env[0] == Trim(singleUrl);
    UniqueHead(env, DefaultRpcUrls);
  }

  /** Without a single URL, the first non-blank piece of the comma list is
      the endpoint in use. */
  lemma FirstPieceWithoutSingleUrl(singleEnv: Option<string>, multiEnv: Option<string>)
    requires Trim(OrEmpty(singleEnv)) == []
    requires MultiPart(Trim(OrEmpty(multiEnv))) != []
    ensures RpcUrl(Unique(EnvUrls(singleEnv, multiEnv) + DefaultRpcUrls)) ==
      MultiPart(Trim(OrEmpty(multiEnv)))[0]
  {
    var env := EnvUrls(singleEnv, multiEnv);
    assert env == MultiPart(Trim(OrEmpty(multiEnv)));
    UniqueHead(env, DefaultRpcUrls);
  }

  lemma DefaultsNonEmpty()
    ensures forall d :: d in DefaultRpcUrls ==> d != []
  {
  }

  /** Every value of either part survives de-duplication, and nothing else
      appears. */
  lemma UniqueOfAppend(env: seq<string>, defaults: seq<string>)
    ensures forall d :: d in defaults ==> d in Unique(env + defaults)
    ensures forall x :: x in Unique(env + defaults) ==> x in env || x in defaults
  {
  }

  /** The first element of the first part stays first. */
  lemma UniqueHead(env: seq<string>, defaults: seq<string>)
    requires env != []
    ensures Unique(env + defaults) != [] && Unique(env + defaults)[0] == env[0]
  {
    assert (env + defaults)[0] == env[0];
  }

  /** Every default endpoint is in the list and every endpoint is non-empty. */
  lemma {:induction false} EndpointsWellFormed(singleEnv: Option<string>, multiEnv: Option<string>)
    ensures forall d :: d in DefaultRpcUrls ==> d in Unique(EnvUrls(singleEnv, multiEnv) + DefaultRpcUrls)
    ensures forall x :: x in Unique(EnvUrls(singleEnv, multiEnv) + DefaultRpcUrls) ==> x != []
  {
    DefaultsNonEmpty();
    UniqueOfAppend(EnvUrls(singleEnv, multiEnv), DefaultRpcUrls);
  }

  /** `rpcUrls[0] ?? ''` */
  function RpcUrl(rpcUrls: seq<string>): (r: string)
    ensures rpcUrls != [] ==> r == rpcUrls[0]
    ensures rpcUrls == [] ==> r == []
  {
    if rpcUrls != [] then rpcUrls[0] else []
  }

  /** The endpoint in use is never empty: the defaults keep the list from
      being empty, so the `''` fallback is never taken. */
  lemma RpcUrlNeverEmpty(singleEnv: Option<string>, multiEnv: Option<string>)
    ensures RpcUrl(Unique(EnvUrls(singleEnv, multiEnv) + DefaultRpcUrls)) != []
  {
    var endpoints := Unique(EnvUrls(singleEnv, multiEnv) + DefaultRpcUrls);
    EndpointsWellFormed(singleEnv, multiEnv);
    assert DefaultRpcUrls[0] in endpoints;
    assert endpoints[0] in endpoints;
  }
}
