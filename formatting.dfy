/**
 * The two renderers. A rendering is described by the number it shows, how many
 * decimals it shows, whether the integer part is grouped in thousands, and the
 * text appended after it; the digits themselves are not modelled.
 */
module Formatting {

  /** `f"{value:,.Nf}{suffix}"` when grouped, `f"{value:.Nf}{suffix}"` otherwise. */
  datatype Rendering = Fixed(value: real, decimals: nat, grouped: bool, suffix: string)

  /** 10^n as a real: the factor that turns the shown decimals into whole units. */
  function Scale(n: nat): (r: real)
    ensures 1.0 <= r
  {
    if n == 0 then 1.0 else 10.0 * Scale(n - 1)
  }

  /**
   * `format_price`: the `USDC` and `JPY` branches and the fallback all render
   * two grouped decimals followed by the currency.
   */
  function FormatPrice(price: real, currency: string): (r: Rendering)
    ensures r == Fixed(price, 2, true, currency)
  {
    if currency == "USDC" then Fixed(price, 2, true, "USDC")
    else if currency == "JPY" then Fixed(price, 2, true, "JPY")
    else Fixed(price, 2, true, currency)
  }

  /**
   * `format_crypto_amount`: eight decimals below 0.0001, six below one, two
   * otherwise; ungrouped, followed by the coin name as given.
   */
  function FormatCryptoAmount(amount: real, coinName: string): (r: Rendering)
    ensures r.value == amount && !r.grouped && r.suffix == coinName
    ensures r.decimals == 8 <==> amount < 0.0001
    ensures r.decimals == 6 <==> 0.0001 <= amount < 1.0
    ensures r.decimals == 2 <==> 1.0 <= amount
  {
    if amount < 0.0001 then Fixed(amount, 8, false, coinName)
    else if amount < 1.0 then Fixed(amount, 6, false, coinName)
    else Fixed(amount, 2, false, coinName)
  }

  /** A smaller amount never gets fewer decimals. */
  lemma PrecisionAntitone(a: real, b: real, coinName: string)
    requires a <= b
    ensures FormatCryptoAmount(b, coinName).decimals <= FormatCryptoAmount(a, coinName).decimals
  {
  }

  /**
   * From 0.0001 upwards the chosen precision shows at least three significant
   * digits: the amount is at least 100 units of its last decimal place.
   */
  lemma SignificantDigits(amount: real, coinName: string)
    requires 0.0001 <= amount
    ensures 100.0 <= amount * Scale(FormatCryptoAmount(amount, coinName).decimals)
  {
    var d := FormatCryptoAmount(amount, coinName).decimals;
    if amount < 1.0 {
      assert Scale(d) == 1000000.0 by {
        assert Scale(6) == 10.0 * Scale(5);
        assert Scale(5) == 10.0 * Scale(4);
        assert Scale(4) == 10.0 * Scale(3);
      }
    } else {
      assert Scale(d) == 100.0 by {
        assert Scale(2) == 10.0 * Scale(1);
      }
    }
  }
}
