/**
 * `convert_currency`: the rate path is chosen from the source currency, JPY
 * first, then USD, then any known crypto currency; the quantity of the target
 * coin is rendered by `format_crypto_amount` under the target name as typed.
 */
module Conversion {
  import opened Wrappers
  import opened Ascii
  import opened CoinIds
  import opened Formatting
  import opened Outcomes

  /** The two fiat paths once the target's identifier is known: divide by its quoted price. */
  function FiatToCoin(amount: real, toCoin: string, price: Option<real>): (o: Outcome)
    ensures o.Printed? <==> price.Some? && price.value != 0.0
    ensures o == Failed(PriceUnavailable(toCoin)) <==> price.None?
    ensures o == Failed(ZeroDivision) <==> price == Some(0.0)
    ensures o.Printed? ==> |o.lines| == 1 && o.lines[0] == FormatCryptoAmount(o.lines[0].value, toCoin)
    ensures o.Printed? ==> o.lines[0].value * price.value == amount
  {
    match price
    case None => Failed(PriceUnavailable(toCoin))
    case Some(p) =>
      if p == 0.0 then Failed(ZeroDivision)
      else
        assert (amount / p) * p == amount;
        Printed([FormatCryptoAmount(amount / p, toCoin)])
  }

  /** The USD price the service quotes for a coin name, once resolved. */
  function UsdQuote(prices: Prices, coinName: string): Option<real> {
    prices(GetCoinId(coinName)).usd
  }

  /** The JPY price the service quotes for a coin name, once resolved. */
  function JpyQuote(prices: Prices, coinName: string): Option<real> {
    prices(GetCoinId(coinName)).jpy
  }

  /**
   * The crypto-to-crypto path, given the USD quotes of both coins: value the
   * amount in USD, then divide by the target's USD price.
   */
  function CryptoToCoin(amount: real, fromCurrency: string, toCoin: string, fromUsd: Option<real>, toUsd: Option<real>): (o: Outcome)
    ensures o == Failed(UnsupportedCrypto) <==> fromCurrency == "" || toCoin == ""
    ensures o == Failed(CryptoPriceUnavailable) <==>
      fromCurrency != "" && toCoin != "" && (fromUsd.None? || toUsd.None?)
    ensures o == Failed(ZeroDivision) <==>
      fromCurrency != "" && toCoin != "" && fromUsd.Some? && toUsd == Some(0.0)
    ensures o.Printed? <==> fromCurrency != "" && toCoin != "" && fromUsd.Some? && toUsd.Some? && toUsd.value != 0.0
    ensures o.Printed? ==> |o.lines| == 1 && o.lines[0] == FormatCryptoAmount(o.lines[0].value, toCoin)
    ensures o.Printed? ==> o.lines[0].value * toUsd.value == amount * fromUsd.value
  {
    if |GetCoinId(fromCurrency)| == 0 || |GetCoinId(toCoin)| == 0 then Failed(UnsupportedCrypto)
    else if fromUsd.None? || toUsd.None? then Failed(CryptoPriceUnavailable)
    else if toUsd.value == 0.0 then Failed(ZeroDivision)
    else
      var quantity := amount * fromUsd.value / toUsd.value;
      assert quantity * toUsd.value == amount * fromUsd.value;
      Printed([FormatCryptoAmount(quantity, toCoin)])
  }

  /** `convert_currency(amount, from_currency, to_coin)` against one snapshot of prices. */
  function ConvertCurrency(amount: real, fromCurrency: string, toCoin: string, prices: Prices): (o: Outcome)
    ensures o.Printed? || !(o.error.Usage? || o.error.TooManyArguments? || o.error.InvalidAmount?)
    ensures o.Printed? ==> |o.lines| == 1 && o.lines[0].suffix == toCoin && !o.lines[0].grouped
    ensures o == Failed(UnsupportedCurrency(fromCurrency)) <==>
      fromCurrency != "JPY" && fromCurrency != "USD" && !IsKnownCrypto(fromCurrency)
  {
    if fromCurrency == "JPY" then
      var coinId := GetCoinId(toCoin);
      if |coinId| == 0 then Failed(UnsupportedCoin(toCoin))
      else FiatToCoin(amount, toCoin, JpyQuote(prices, toCoin))
    else if fromCurrency == "USD" then
      var coinId := GetCoinId(toCoin);
      if |coinId| == 0 then Failed(UnsupportedCoin(toCoin))
      else FiatToCoin(amount, toCoin, UsdQuote(prices, toCoin))
    else if IsKnownCrypto(fromCurrency) then
      CryptoToCoin(amount, fromCurrency, toCoin, UsdQuote(prices, fromCurrency), UsdQuote(prices, toCoin))
    else
      Failed(UnsupportedCurrency(fromCurrency))
  }

  /**
   * The JPY path: the "unsupported" check fires only for an empty target name;
   * otherwise the outcome depends on the target's JPY price alone, and the
   * printed quantity is worth the amount at that price.
   */
  lemma JpyConversion(amount: real, toCoin: string, prices: Prices)
    ensures var o := ConvertCurrency(amount, "JPY", toCoin, prices);
      && (o == Failed(UnsupportedCoin(toCoin)) <==> toCoin == "")
      && (o == Failed(PriceUnavailable(toCoin)) <==> toCoin != "" && JpyQuote(prices, toCoin).None?)
      && (o == Failed(ZeroDivision) <==> toCoin != "" && JpyQuote(prices, toCoin) == Some(0.0))
      && (o.Printed? <==> toCoin != "" && JpyQuote(prices, toCoin).Some? && JpyQuote(prices, toCoin).value != 0.0)
      && (o.Printed? ==>
            |o.lines| == 1 && o.lines[0] == FormatCryptoAmount(o.lines[0].value, toCoin) &&
            o.lines[0].value * JpyQuote(prices, toCoin).value == amount)
  {
  }

  /** The USD path: as the JPY path, with the target's USD price. */
  lemma UsdConversion(amount: real, toCoin: string, prices: Prices)
    ensures var o := ConvertCurrency(amount, "USD", toCoin, prices);
      && (o == Failed(UnsupportedCoin(toCoin)) <==> toCoin == "")
      && (o == Failed(PriceUnavailable(toCoin)) <==> toCoin != "" && UsdQuote(prices, toCoin).None?)
      && (o == Failed(ZeroDivision) <==> toCoin != "" && UsdQuote(prices, toCoin) == Some(0.0))
      && (o.Printed? <==> toCoin != "" && UsdQuote(prices, toCoin).Some? && UsdQuote(prices, toCoin).value != 0.0)
      && (o.Printed? ==>
            |o.lines| == 1 && o.lines[0] == FormatCryptoAmount(o.lines[0].value, toCoin) &&
            o.lines[0].value * UsdQuote(prices, toCoin).value == amount)
  {
  }

  /**
   * The crypto path, taken by any other known crypto currency: it needs both
   * USD prices, and the printed quantity is worth as many dollars as the amount.
   */
  lemma CryptoConversion(amount: real, fromCurrency: string, toCoin: string, prices: Prices)
    requires fromCurrency != "JPY" && fromCurrency != "USD" && IsKnownCrypto(fromCurrency)
    ensures var o := ConvertCurrency(amount, fromCurrency, toCoin, prices);
      && o == CryptoToCoin(amount, fromCurrency, toCoin, UsdQuote(prices, fromCurrency), UsdQuote(prices, toCoin))
      && (o == Failed(UnsupportedCrypto) <==> toCoin == "")
      && (o == Failed(CryptoPriceUnavailable) <==>
            toCoin != "" && (UsdQuote(prices, fromCurrency).None? || UsdQuote(prices, toCoin).None?))
      && (o.Printed? <==>
            toCoin != "" && UsdQuote(prices, fromCurrency).Some? &&
            UsdQuote(prices, toCoin).Some? && UsdQuote(prices, toCoin).value != 0.0)
  {
    KnownCryptoNonEmpty(fromCurrency);
  }

  /** The JPY path reads the target's JPY quote and nothing else of the snapshot. */
  lemma JpyReadsTargetJpy(amount: real, toCoin: string, p1: Prices, p2: Prices)
    requires JpyQuote(p1, toCoin) == JpyQuote(p2, toCoin)
    ensures ConvertCurrency(amount, "JPY", toCoin, p1) == ConvertCurrency(amount, "JPY", toCoin, p2)
  {
  }

  /** The USD path reads the target's USD quote and nothing else of the snapshot. */
  lemma UsdReadsTargetUsd(amount: real, toCoin: string, p1: Prices, p2: Prices)
    requires UsdQuote(p1, toCoin) == UsdQuote(p2, toCoin)
    ensures ConvertCurrency(amount, "USD", toCoin, p1) == ConvertCurrency(amount, "USD", toCoin, p2)
  {
  }

  /** Every other source reads at most the two USD quotes. */
  lemma OthersReadUsdQuotes(amount: real, fromCurrency: string, toCoin: string, p1: Prices, p2: Prices)
    requires fromCurrency != "JPY" && fromCurrency != "USD"
    requires UsdQuote(p1, fromCurrency) == UsdQuote(p2, fromCurrency)
    requires UsdQuote(p1, toCoin) == UsdQuote(p2, toCoin)
    ensures ConvertCurrency(amount, fromCurrency, toCoin, p1) == ConvertCurrency(amount, fromCurrency, toCoin, p2)
  {
  }

  /** `USDC` is not fiat here: it is looked up as a coin and takes the crypto path. */
  lemma UsdcTakesCryptoPath(amount: real, toCoin: string, prices: Prices)
    ensures ConvertCurrency(amount, "USDC", toCoin, prices) == CryptoToCoin(amount, "USDC", toCoin, UsdQuote(prices, "USDC"), UsdQuote(prices, toCoin))
  {
    assert Upper("USDC") == "USDC";
  }

  /** A coin identifier typed as the source currency is accepted too. */
  lemma IdentifierTakesCryptoPath(amount: real, toCoin: string, prices: Prices)
    ensures ConvertCurrency(amount, "ETHEREUM", toCoin, prices) == CryptoToCoin(amount, "ETHEREUM", toCoin, UsdQuote(prices, "ETHEREUM"), UsdQuote(prices, toCoin))
  {
    assert Lower("ETHEREUM") == "ethereum";
    assert "ethereum" == CoinMapping["ETH"];
  }

  /**
   * Converting a coin into itself, in whatever letter case, prints the amount
   * unchanged once its USD price is known and non-zero.
   */
  lemma SelfConversion(amount: real, fromCurrency: string, toCoin: string, prices: Prices)
    requires fromCurrency != "JPY" && fromCurrency != "USD" && IsKnownCrypto(fromCurrency)
    requires Upper(toCoin) == Upper(fromCurrency)
    requires UsdQuote(prices, fromCurrency).Some? && UsdQuote(prices, fromCurrency).value != 0.0
    ensures ConvertCurrency(amount, fromCurrency, toCoin, prices) == Printed([FormatCryptoAmount(amount, toCoin)])
  {
    CaseInsensitive(toCoin, fromCurrency);
    KnownCryptoNonEmpty(fromCurrency);
    var p := UsdQuote(prices, fromCurrency).value;
    var o := ConvertCurrency(amount, fromCurrency, toCoin, prices);
    CryptoConversion(amount, fromCurrency, toCoin, prices);
    Cancel(o.lines[0].value, amount, p);
  }

  lemma Cancel(x: real, y: real, p: real)
    requires p != 0.0 && x * p == y * p
    ensures x == y
  {
    assert (x - y) * p == 0.0;
  }
}
