/**
 * The price service and what a run ends in. `get_price` is an oracle from a
 * CoinGecko identifier to its USD and JPY quotes; a run either prints lines on
 * standard output or stops with one of the tool's errors.
 */
module Outcomes {
  import opened Wrappers
  import opened Formatting

  /**
   * What `get_price` returns for one identifier: either price may be missing.
   * An unknown identifier and a failed request both give two missing prices.
   */
  datatype Quote = Quote(usd: Option<real>, jpy: Option<real>)

  /** One snapshot of the price service: every lookup of an identifier sees the same quote. */
  type Prices = string -> Quote

  /** The ways a run stops: a message on standard error and exit status 1. */
  datatype Error =
    | Usage                                // no argument: the usage text
    | TooManyArguments                     // more than two arguments
    | InvalidAmount(arg: string)           // the amount argument does not parse
    | UnsupportedCoin(coinName: string)    // the resolver gave an empty identifier
    | PriceUnavailable(coinName: string)   // a needed price of that coin is missing
    | UnsupportedCrypto                    // crypto path: one of the two identifiers is empty
    | CryptoPriceUnavailable               // crypto path: one of the two USD prices is missing
    | UnsupportedCurrency(currency: string) // the source currency is neither fiat nor a known coin
    | ZeroDivision                         // a quoted price of zero: the uncaught ZeroDivisionError

  datatype Outcome = Printed(lines: seq<Rendering>) | Failed(error: Error)
}
