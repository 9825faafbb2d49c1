/**
 * The symbol resolver: the fixed ticker table and `get_coin_id`, which looks a
 * ticker up case-insensitively and falls back to the lower-cased input, taken
 * as an identifier the price service may know natively.
 */
module CoinIds {
  import opened Ascii

  /** The twenty tickers the tool knows, each with its CoinGecko identifier. */
  const CoinMapping: map<string, string> := map[
    "ETH" := "ethereum",
    "BTC" := "bitcoin",
    "USDC" := "usd-coin",
    "USDT" := "tether",
    "BNB" := "binancecoin",
    "SOL" := "solana",
    "XRP" := "ripple",
    "ADA" := "cardano",
    "DOGE" := "dogecoin",
    "DOT" := "polkadot",
    "MATIC" := "matic-network",
    "AVAX" := "avalanche-2",
    "LINK" := "chainlink",
    "UNI" := "uniswap",
    "ATOM" := "cosmos",
    "ETC" := "ethereum-classic",
    "LTC" := "litecoin",
    "BCH" := "bitcoin-cash",
    "XLM" := "stellar",
    "ALGO" := "algorand"
  ]

  /** Every ticker has at most five characters, every identifier at least six. */
  lemma TableLengths()
    ensures forall k | k in CoinMapping :: |k| <= 5
    ensures forall k | k in CoinMapping :: 6 <= |CoinMapping[k]|
  {
    KeyLengths();
    IdentifierLengths();
  }

  lemma KeyLengths()
    ensures forall k | k in CoinMapping :: |k| <= 5
  {
  }

  lemma IdentifierLengths()
    ensures forall k | k in CoinMapping :: 6 <= |CoinMapping[k]|
  {
  }

  /**
   * The identifiers of the table as a set. Checking a property of twenty
   * literal strings is much cheaper for the verifier on this set than
   * through lookups in the map, so the lemma below goes through it.
   */
  const CoinIdentifiers: set<string> := {
    "ethereum", "bitcoin", "usd-coin", "tether", "binancecoin",
    "solana", "ripple", "cardano", "dogecoin", "polkadot",
    "matic-network", "avalanche-2", "chainlink", "uniswap", "cosmos",
    "ethereum-classic", "litecoin", "bitcoin-cash", "stellar", "algorand"
  }

  /** No identifier of the table holds an upper-case letter. */
  lemma TableIdentifiersLowerCase()
    ensures forall k | k in CoinMapping :: IsLowerCase(CoinMapping[k])
  {
    assert forall k | k in CoinMapping :: CoinMapping[k] in CoinIdentifiers;
    FirstHalfLowerCase();
    SecondHalfLowerCase();
  }

  lemma FirstHalfLowerCase()
    ensures forall v | v in {"ethereum", "bitcoin", "usd-coin", "tether", "binancecoin",
                             "solana", "ripple", "cardano", "dogecoin", "polkadot"} :: IsLowerCase(v)
  {
  }

  lemma SecondHalfLowerCase()
    ensures forall v | v in {"matic-network", "avalanche-2", "chainlink", "uniswap", "cosmos",
                             "ethereum-classic", "litecoin", "bitcoin-cash", "stellar", "algorand"} :: IsLowerCase(v)
  {
  }

  /** `get_coin_id`: the table entry of the upper-cased name, else the name lower-cased. */
  function GetCoinId(coinName: string): (id: string)
    ensures |id| == 0 <==> |coinName| == 0
    ensures IsLowerCase(id)
  {
    var key := Upper(coinName);
    if key in CoinMapping then
      TableEntry(key);
      CoinMapping[key]
    else
      Lower(coinName)
  }

  lemma TableEntry(key: string)
    requires key in CoinMapping
    ensures 6 <= |CoinMapping[key]| && IsLowerCase(CoinMapping[key])
  {
    TableLengths();
    TableIdentifiersLowerCase();
  }

  /**
   * The test `convert_currency` applies to a source currency before taking the
   * crypto-to-crypto path: a ticker of the table, or one of its identifiers.
   */
  predicate IsKnownCrypto(code: string) {
    Upper(code) in CoinMapping || Lower(code) in CoinMapping.Values
  }

  /** Names that differ only in letter case resolve to the same identifier. */
  lemma CaseInsensitive(s: string, t: string)
    requires Upper(s) == Upper(t)
    ensures GetCoinId(s) == GetCoinId(t)
  {
    LowerOfUpper(s);
    LowerOfUpper(t);
  }

  /** An identifier resolves to itself: resolving twice is resolving once. */
  lemma Idempotent(coinName: string)
    ensures GetCoinId(GetCoinId(coinName)) == GetCoinId(coinName)
  {
    var id := GetCoinId(coinName);
    TableLengths();
    if Upper(coinName) in CoinMapping {
      assert |Upper(id)| >= 6;
    } else {
      UpperOfLower(coinName);
      LowerLowerCase(id);
    }
    NoUpperLowerIdentity(id);
  }

  lemma LowerLowerCase(s: string)
    ensures Lower(Lower(s)) == Lower(s)
  {
  }

  lemma NoUpperLowerIdentity(s: string)
    requires IsLowerCase(s)
    ensures Lower(s) == s
  {
  }

  /**
   * The source test of `convert_currency` accepts exactly the names that
   * resolve to an identifier of the table.
   */
  lemma KnownCryptoResolvesIntoTable(code: string)
    ensures IsKnownCrypto(code) <==> GetCoinId(code) in CoinMapping.Values
  {
    TableLengths();
    if Lower(code) in CoinMapping.Values && Upper(code) !in CoinMapping {
      assert GetCoinId(code) == Lower(code);
    }
  }

  /** Only a non-empty name can be a known crypto currency. */
  lemma KnownCryptoNonEmpty(code: string)
    requires IsKnownCrypto(code)
    ensures 0 < |code|
  {
    KnownCryptoResolvesIntoTable(code);
    var k :| k in CoinMapping && CoinMapping[k] == GetCoinId(code);
    TableLengths();
  }
}
