# coingecko.py in Dafny

A model of the deterministic core of `coingecko.py`, a command-line tool that
quotes crypto prices from CoinGecko and converts amounts. `coingecko.py ETH`
prints the coin's USD and JPY prices. `coingecko.py 100JPY ETH` converts an
amount of one currency into a coin.

The model covers these parts of the tool:

- **the symbol resolver**: the twenty-entry `COIN_MAPPING` table and `get_coin_id`;
- **the amount parser**: `parse_amount_and_currency`, with the regular expression
  `^([\d,]+\.?\d*)([A-Z]+)$` written out as a hand recogniser, plus `str.replace`
  and `float()`;
- **the two renderers**: `format_price` and `format_crypto_amount`;
- **the price report**: `show_price`;
- **the conversion**: `convert_currency`;
- **the dispatch on argument count**: `main`.

Everything is pure: functions over values, with lemmas about them. The network
call `get_price` stands as an oracle, `Prices`: a function from a CoinGecko
identifier to a `Quote` of two optional prices. `Prices` is one snapshot of
the service, so every lookup of the same identifier sees the same quote.

A run does not print or exit. It returns an `Outcome`: either `Printed(lines)`,
holding what goes to standard output, or `Failed(error)`, holding the reason
for the message on standard error and exit status 1. Each printed line is a
`Rendering`: the number, how many decimals it shows, whether it groups
thousands, and the suffix. The digits themselves are not modelled. Amounts are
exact decimals (mantissa and scale), and prices are reals.

Modules, leaf first:

- `Wrappers`: `Option`.
- `Ascii`: ASCII `str.upper` and `str.lower`.
- `CoinIds`: table and resolver.
- `Formatting`: renderers.
- `AmountParser`: the parser and its grammar.
- `Outcomes`: the oracle and the outcomes.
- `Display`: `show_price`.
- `Conversion`: `convert_currency`.
- `Cli`: `main` as `Run(argv, prices)`.

Three behaviours of the code that the model keeps as they are:

- `format_price` always renders `,.2f` followed by the currency, whatever the currency.
- A target coin with no price data is a "price unavailable" error. The
  "unsupported" checks fire only when the resolver returns an empty identifier.
- Division by a zero price raises Python's `ZeroDivisionError`, which the tool
  does not catch.

## Model

| member | source | states |
|---|---|---|
| CoinIds.GetCoinId | coingecko.py:37-40 | the table entry of the upper-cased name, else the name lower-cased; the identifier is empty exactly when the name is empty, and never holds an upper-case letter |
| CoinIds.CaseInsensitive | coingecko.py:37-40 | names that differ only in letter case resolve to the same identifier |
| CoinIds.Idempotent | coingecko.py:37-40 | resolving an identifier again gives the same identifier |
| CoinIds.TableLengths | coingecko.py:13-34 | every ticker has at most five characters and every identifier at least six |
| CoinIds.TableIdentifiersLowerCase | coingecko.py:13-34 | no identifier of the table holds an upper-case letter |
| CoinIds.KnownCryptoResolvesIntoTable | coingecko.py:162-164 | the source-currency test "upper-cased is a key or lower-cased is a value" holds exactly when the name resolves to an identifier of the table |
| CoinIds.KnownCryptoNonEmpty | coingecko.py:162-168 | a name passing that test is non-empty, so the "unsupported" check after it cannot fire for the source |
| Ascii.Upper | coingecko.py:39 | upper-casing keeps the length and leaves no lower-case letter |
| Ascii.Lower | coingecko.py:40 | lower-casing keeps the length and leaves no upper-case letter |
| Ascii.LowerOfUpper | coingecko.py:39-40 | lower-casing forgets whether the text was upper-cased first |
| Formatting.FormatPrice | coingecko.py:71-80 | all three branches render the price with two grouped decimals followed by the currency as given |
| Formatting.FormatCryptoAmount | coingecko.py:83-91 | eight decimals exactly below 0.0001, six exactly from 0.0001 up to 1, two exactly from 1; ungrouped, with the coin name as given |
| Formatting.PrecisionAntitone | coingecko.py:86-91 | a smaller amount never gets fewer decimals |
| Formatting.SignificantDigits | coingecko.py:86-91 | from 0.0001 upwards the chosen precision shows the amount as at least 100 units of its last decimal |
| AmountParser.CodeStart | coingecko.py:97 | the returned position starts the longest trailing run of letters A-Z, the `([A-Z]+)$` group |
| AmountParser.IntRunLength | coingecko.py:97 | the returned length is that of the longest leading run of digits and commas, the `[\d,]+` part |
| AmountParser.MatchGroups | coingecko.py:97-100 | a match splits the text into a numeric group of the expression's shape followed by a non-empty group of letters A-Z |
| AmountParser.StripCommas | coingecko.py:99 | the result holds no comma and is no longer than the input |
| AmountParser.StripCommasAppend | coingecko.py:99 | removing commas distributes over concatenation |
| AmountParser.StripCommasHasDigit | coingecko.py:99 | removing commas removes no digit |
| AmountParser.DigitsValue | coingecko.py:102 | a numeral of k digits denotes a number below 10^k |
| AmountParser.DigitsValueAppend | coingecko.py:102 | appending digits to a numeral shifts its value by the power of ten of their count, positional notation |
| AmountParser.DecimalValue | coingecko.py:102 | the amount read from digits, a point and fraction digits is the whole part plus the fraction over ten to the number of fraction digits |
| AmountParser.FloatOf | coingecko.py:101-105 | `float()` of digits with at most one point fails exactly when the text holds no digit, as for `""` and `"."` |
| AmountParser.ParseAmountAndCurrency | coingecko.py:94-106 | a parsed currency is a non-empty run of letters A-Z and a parsed amount is never negative |
| AmountParser.ParseUpper | coingecko.py:97-106 | a parsed currency is a non-empty run of letters A-Z |
| AmountParser.MatchComplete | coingecko.py:97 | whenever the expression matches at some split, the recogniser finds the same two groups |
| AmountParser.MatchSound | coingecko.py:97 | whatever the recogniser accepts matches the expression |
| AmountParser.Normalize | coingecko.py:97 | every match can be read with the integer run reaching the point or the end of the number |
| AmountParser.ParseGrammar | coingecko.py:97-103 | every text of the grammar whose number holds a digit parses, to the integer digits without commas followed by the fraction digits, scaled by the fraction's length, with the letters as currency |
| AmountParser.ParseSound | coingecko.py:97-106 | every successful parse comes from a match whose number holds a digit |
| AmountParser.ParseSucceedsIff | coingecko.py:94-106 | the parse succeeds exactly when the upper-cased argument matches the expression and its number holds a digit, in both directions |
| AmountParser.ParseResult | coingecko.py:97-103 | on success the currency is the trailing letter group of the upper-cased argument and the amount is the integer run without commas plus the fraction digits over ten to their number |
| AmountParser.ParseValueAt | coingecko.py:97-103 | the same value, for a given match of the expression |
| AmountParser.CommaInsertion | coingecko.py:97-99 | a comma inserted anywhere in the leading run of digits and commas leaves a successful parse unchanged |
| AmountParser.UpperCharClass | coingecko.py:97 | upper-casing keeps whether a character is a digit, a comma, a point or a letter |
| AmountParser.ParsedShape | coingecko.py:94-106 | every argument that parses ends in a letter, holds a digit, starts with a digit or comma, uses only digits, commas, points and letters, has only digits and letters after a point, and only letters after a letter |
| AmountParser.RejectsWithoutDigit | coingecko.py:101-105 | on ASCII text, an argument with no digit, such as `"USD"`, `",USD"` or `",.USD"`, is rejected |
| AmountParser.RejectsWithoutCurrency | coingecko.py:97-98 | on ASCII text, an argument not ending in a letter, such as `"100"`, is rejected |
| AmountParser.RejectsSecondPoint | coingecko.py:97-98 | an argument with two points, such as `"1.2.3USD"`, is rejected |
| AmountParser.RejectsCommaAfterPoint | coingecko.py:97-98 | a comma after the point, such as in `"1.000,5USD"`, is rejected |
| AmountParser.RejectsBadStart | coingecko.py:97-98 | on ASCII text, an argument not starting with a digit or comma, such as `".5USD"` or `"-5USD"`, is rejected |
| AmountParser.RejectsOtherCharacter | coingecko.py:97-98 | on ASCII text, any character other than a digit, comma, point or letter is rejected |
| AmountParser.RejectsLetterInsideNumber | coingecko.py:97-98 | a non-letter after a letter, such as in `"1E5USD"` or `"USD100"`, is rejected |
| AmountParser.ParseWholeAmount | coingecko.py:94-103 | digits followed by letters of either case parse to the number the digits denote and the letters upper-cased, as in `100jpy` |
| AmountParser.ExampleWithCommaAndPoint | coingecko.py:94-103 | `"1,200.50usd"` parses to the amount 1200.5, as the decimal 120050 scaled by two places, and the currency `USD` |
| Display.ShowPrice | coingecko.py:109-124 | an empty name is "unsupported"; a missing USD or JPY price is "price unavailable", with no output; otherwise exactly two lines, the USD price labelled `USDC` first and then the JPY price, each with two grouped decimals |
| Display.ShowPriceReadsOneQuote | coingecko.py:111-116 | the report depends on the coin's own quote and nothing else of the price service |
| Display.ShowPriceCaseInsensitive | coingecko.py:109-124 | a report printed for one spelling of a coin is printed, identically, for any other letter case |
| Conversion.FiatToCoin | coingecko.py:136-143 | a missing price is "price unavailable", a zero price is the division error, otherwise one line whose quantity times the price is the amount |
| Conversion.CryptoToCoin | coingecko.py:163-179 | empty identifiers are "unsupported", a missing USD price is "price unavailable", a zero target price is the division error, otherwise one line whose quantity times the target's USD price is the amount times the source's |
| Conversion.ConvertCurrency | coingecko.py:127-183 | the source currency is "unsupported" exactly when it is neither `JPY`, nor `USD`, nor a known crypto currency; a printed outcome is one ungrouped line with the target name as typed |
| Conversion.JpyConversion | coingecko.py:130-143 | JPY path: "unsupported" exactly for an empty target, "price unavailable" exactly without the target's JPY price, printed exactly when that price is known and non-zero, the quantity being the amount over it |
| Conversion.UsdConversion | coingecko.py:146-159 | USD path: the same, with the target's USD price |
| Conversion.CryptoConversion | coingecko.py:162-179 | crypto path: it needs both USD prices and is printed exactly when both are known and the target's is non-zero |
| Conversion.JpyReadsTargetJpy | coingecko.py:136 | the JPY path reads the target's JPY price and nothing else of the price service |
| Conversion.UsdReadsTargetUsd | coingecko.py:152 | the USD path reads the target's USD price and nothing else |
| Conversion.OthersReadUsdQuotes | coingecko.py:162-183 | every other source reads at most the source's and the target's USD prices |
| Conversion.UsdcTakesCryptoPath | coingecko.py:146-162 | `USDC` is not the USD path: it takes the crypto path |
| Conversion.IdentifierTakesCryptoPath | coingecko.py:162 | a raw identifier such as `ETHEREUM` is accepted as a source and takes the crypto path |
| Conversion.SelfConversion | coingecko.py:162-179 | under one price snapshot, converting a coin into itself, in any letter case, prints the amount unchanged once its USD price is known and non-zero |
| Cli.Run | coingecko.py:186-219 | fewer than two words give the usage error and more than three give "too many arguments", each exactly |
| Cli.ArgumentCountDispatch | coingecko.py:199-215 | two words give the price report; three give the conversion of the parsed amount; the invalid-amount error arises exactly from three words whose amount does not parse, and then does not depend on the price service |
| Cli.WholeAmountRun | coingecko.py:205-215 | `<digits><CODE> <coin>` converts exactly the number the digits denote, from `CODE`, into the coin |

## Left out

- `get_price` is an oracle. This leaves out its HTTP request, the JSON decoding, the ten-second timeout and the error text it prints when a request fails. Both prices are missing when the service fails or does not know the identifier.
- A run reads the oracle as one snapshot. Two requests for the same identifier within one run always agree. In particular, they agree when converting a coin into itself.
- Messages on standard error and `sys.exit(1)` become `Failed` constructors. Their Japanese texts are not modelled.
- The digits of `f"{x:,.2f}"` and `f"{x:.8f}"` are not modelled. A `Rendering` records only the value, the decimals, the grouping and the suffix.
- Floating point is not modelled: no IEEE rounding in `float()` or in the divisions, and no infinities. `float()` is read exactly as a decimal on the texts the expression admits.
- A zero price becomes `Failed(ZeroDivision)`, Python's uncaught `ZeroDivisionError`. Its traceback and exit status are not modelled.
- Case mapping and `\d` are ASCII only. Python's Unicode upper-casing, which can change a string's length, and Unicode digits are not modelled.
- The regular expression's `$` also matches before one trailing newline. The model accepts no such newline.
- `main` becomes `Run(argv, prices)`, with the program name as `argv[0]`. The `if __name__ == '__main__'` guard is not modelled.
