/**
 * `main`: the number of command-line words decides between the usage text,
 * the price report, a conversion and the "too many arguments" error.
 * `argv` holds the program name first, as `sys.argv` does.
 */
module Cli {
  import opened Wrappers
  import opened Ascii
  import opened Formatting
  import opened AmountParser
  import opened Outcomes
  import opened Conversion
  import opened Display

  function Run(argv: seq<string>, prices: Prices): (o: Outcome)
    ensures o == Failed(Usage) <==> |argv| < 2
    ensures o == Failed(TooManyArguments) <==> 3 < |argv|
  {
    if |argv| < 2 then Failed(Usage)
    else if |argv| == 2 then ShowPrice(argv[1], prices)
    else if |argv| == 3 then
      match ParseAmountAndCurrency(argv[1])
      case Invalid => Failed(InvalidAmount(argv[1]))
      case Parsed(amount, fromCurrency) => ConvertCurrency(Value(amount), fromCurrency, argv[2], prices)
    else Failed(TooManyArguments)
  }

  /**
   * One argument is a report, two are a conversion of the parsed amount, and
   * an amount that does not parse stops the run before any price is looked up.
   */
  lemma ArgumentCountDispatch(argv: seq<string>, prices: Prices, other: Prices)
    ensures |argv| == 2 ==> Run(argv, prices) == ShowPrice(argv[1], prices)
    ensures |argv| == 3 && ParseAmountAndCurrency(argv[1]).Parsed? ==>
      var r := ParseAmountAndCurrency(argv[1]);
      Run(argv, prices) == ConvertCurrency(Value(r.amount), r.currency, argv[2], prices)
    ensures (Run(argv, prices).Failed? && Run(argv, prices).error.InvalidAmount?) <==>
      |argv| == 3 && ParseAmountAndCurrency(argv[1]) == Invalid
    ensures |argv| == 3 && ParseAmountAndCurrency(argv[1]) == Invalid ==> Run(argv, other) == Run(argv, prices)
  {
  }

  /**
   * `coingecko.py <digits><CODE> <coin>`, a whole amount typed in capitals,
   * converts exactly that number of units of `CODE` into the coin.
   */
  lemma WholeAmountRun(argv: seq<string>, digits: string, code: string, prices: Prices)
    requires |argv| == 3 && argv[1] == digits + code
    requires 0 < |digits| && AllDigits(digits) && 0 < |code| && AllUpperLetters(code)
    ensures Run(argv, prices) == ConvertCurrency(DigitsValue(digits) as real, code, argv[2], prices)
  {
    var amount := Decimal(DigitsValue(digits), 0);
    ParseWholeAmount(digits, code);
    UpperIdentity(code);
    ArgumentCountDispatch(argv, prices, prices);
    WholeValue(amount);
  }

  lemma WholeValue(d: Decimal)
    requires d.scale == 0
    ensures Value(d) == d.mantissa as real
  {
  }
}
