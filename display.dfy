/**
 * `show_price`: resolve the coin, fetch its quote once, and print its USD
 * price labelled `USDC` and then its JPY price.
 */
module Display {
  import opened Wrappers
  import opened Ascii
  import opened CoinIds
  import opened Formatting
  import opened Outcomes

  function ShowPrice(coinName: string, prices: Prices): (o: Outcome)
    ensures o.Printed? || o.error.UnsupportedCoin? || o.error.PriceUnavailable?
    ensures o == Failed(UnsupportedCoin(coinName)) <==> coinName == ""
    ensures o == Failed(PriceUnavailable(coinName)) <==>
      coinName != "" && (prices(GetCoinId(coinName)).usd.None? || prices(GetCoinId(coinName)).jpy.None?)
    ensures o.Printed? <==> coinName != "" && prices(GetCoinId(coinName)).usd.Some? && prices(GetCoinId(coinName)).jpy.Some?
    ensures o.Printed? ==> o.lines == [
      Fixed(prices(GetCoinId(coinName)).usd.value, 2, true, "USDC"),
      Fixed(prices(GetCoinId(coinName)).jpy.value, 2, true, "JPY")]
  {
    var coinId := GetCoinId(coinName);
    if |coinId| == 0 then Failed(UnsupportedCoin(coinName))
    else
      var quote := prices(coinId);
      if quote.usd.None? || quote.jpy.None? then Failed(PriceUnavailable(coinName))
      else Printed([FormatPrice(quote.usd.value, "USDC"), FormatPrice(quote.jpy.value, "JPY")])
  }

  /** The report reads only the coin's own quote. */
  lemma ShowPriceReadsOneQuote(coinName: string, p1: Prices, p2: Prices)
    requires p1(GetCoinId(coinName)) == p2(GetCoinId(coinName))
    ensures ShowPrice(coinName, p1) == ShowPrice(coinName, p2)
  {
  }

  /** A report printed for one spelling of a coin is printed for every other letter case. */
  lemma ShowPriceCaseInsensitive(s: string, t: string, prices: Prices)
    requires Upper(s) == Upper(t)
    ensures ShowPrice(s, prices).Printed? ==> ShowPrice(t, prices) == ShowPrice(s, prices)
  {
    CaseInsensitive(s, t);
    assert |Upper(s)| == |s| && |Upper(t)| == |t|;
  }
}
