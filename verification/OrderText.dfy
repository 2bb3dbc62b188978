/**
 How many decimals an order's quantity and price are written with. Amounts are counted in
 millionths, the last place that is printed of a step.
 */
module OrderText {
  import opened Decimals
  import opened Enums
  import opened Text
  import opened Wrappers

  const PLACES: nat := 6

  // ---------------------------------------------------------------- numbers as texts

  /** x units of the p-th decimal place. */
  function Fixed(x: nat, p: nat): string
  {
    Digits(High(x, p)) + if p == 0 then "" else "." + LastDigits(x, p)
  }

  /** Rounded to p decimals. */
  function Round(amount: nat, p: nat): nat
    requires p <= PLACES
  {
    High(amount + Pow10(PLACES - p) / 2, PLACES - p)
  }

  function FormatDouble(p: nat, amount: nat): string
    requires p <= PLACES
  {
    Fixed(Round(amount, p), p)
  }

  function ToString(amount: nat): string
  {
    Fixed(amount, PLACES)
  }

  /** What the decimal type prints without an exponent. */
  predicate Positional(amount: nat)
  {
    amount == 0 || amount >= 100
  }

  /** The text of the decimal type: no final zeros, and an exponent below a ten thousandth. */
  function DecimalText(amount: nat): string
  {
    if Positional(amount) then
      var fraction := Strip(LastDigits(amount, PLACES));
      Digits(High(amount, PLACES)) + if fraction == "" then "" else "." + fraction
    else if amount < 10 then [Digit(amount)] + "e-06"
    else if amount % 10 == 0 then [Digit(amount / 10)] + "e-05"
    else [Digit(amount / 10)] + "." + [Digit(amount % 10)] + "e-05"
  }

  /** The amount a text without exponent denotes, in millionths. */
  function Parse(text: string): nat
  {
    var parts := Split(text, '.');
    if |parts| == 2 && |parts[1]| <= PLACES then
      Value(parts[0]) * Pow10(PLACES) + Value(parts[1]) * Pow10(PLACES - |parts[1]|)
    else
      Value(parts[0]) * Pow10(PLACES)
  }

  // ---------------------------------------------------------------- the precision of a step

  function Precision(step: nat): nat
  {
    var parts := Split(DecimalText(step), '.');
    if |parts| == 2 then |parts[1]| else 0
  }

  lemma SplitDecimal(whole: string, fraction: string)
    requires '.' !in whole && '.' !in fraction
    ensures Split(whole, '.') == [whole]
    ensures Split(whole + "." + fraction, '.') == [whole, fraction]
  {
    hide Split;
    SplitPlain(whole, '.');
    SplitPlain(fraction, '.');
    SplitFirst(whole, '.', fraction);
  }

  lemma PrecisionOfPositional(step: nat)
    requires Positional(step)
    ensures Precision(step) == Kept(step, PLACES)
  {
    hide Split, Digits, LastDigits, Strip, High;
    var whole, fraction := Digits(High(step, PLACES)), Strip(LastDigits(step, PLACES));
    SplitDecimal(whole, fraction);
    assert whole + "" == whole;
    assert DecimalText(step) == if fraction == "" then whole else whole + "." + fraction;
  }

  /** Below a ten thousandth the exponent is counted as decimals, or there is no point at all. */
  lemma PrecisionOfScientific(step: nat)
    requires !Positional(step)
    ensures Precision(step) == if step % 10 == 0 || step < 10 then 0 else 5
  {
    hide Split;
    if step < 10 {
      SplitDecimal(DecimalText(step), "");
    } else if step % 10 == 0 {
      SplitDecimal(DecimalText(step), "");
    } else {
      var fraction := [Digit(step % 10)] + "e-05";
      SplitDecimal([Digit(step / 10)], fraction);
      assert DecimalText(step) == [Digit(step / 10)] + "." + fraction;
    }
  }

  /**
   A step of at least a ten thousandth gets the least number of decimals in which it can be
   written: the least p for which the places after the p-th all are zero.
   */
  lemma PrecisionIsLeast(step: nat, p: nat)
    requires Positional(step) && p <= PLACES
    ensures EndsInZeros(step, PLACES - p) <==> Precision(step) <= p
    ensures Precision(step) <= PLACES
  {
    hide Precision, Kept, EndsInZeros;
    PrecisionOfPositional(step);
    KeptIsLeast(step, PLACES, p);
  }

  // ---------------------------------------------------------------- reading back

  lemma FixedReadsBack(x: nat, p: nat)
    requires p <= PLACES
    ensures Parse(Fixed(x, p)) == x * Pow10(PLACES - p)
  {
    hide Digits, LastDigits, Value, Pow10, Split, High, Low;
    var whole, fraction := Digits(High(x, p)), LastDigits(x, p);
    SplitDecimal(whole, fraction);
    DigitsValue(High(x, p));
    LastDigitsValue(x, p);
    PowProduct(p, PLACES - p);
    HighLow(x, p);
    if p == 0 {
      assert whole + "" == whole;
      LowNothing(x);
    } else {
      assert whole + ("." + fraction) == whole + "." + fraction;
      Distribute(High(x, p), Pow10(p), Low(x, p), Pow10(PLACES - p));
    }
  }

  lemma Distribute(q: nat, d: nat, r: nat, e: nat)
    ensures (q * d + r) * e == q * (d * e) + r * e
  {
  }

  /** From a ten thousandth up the text of the decimal type denotes the amount. */
  lemma PositionalDenotes(amount: nat)
    requires Positional(amount)
    ensures Parse(DecimalText(amount)) == amount
  {
    hide Digits, LastDigits, Value, Pow10, Split, High, Low, Strip;
    var whole, all := Digits(High(amount, PLACES)), LastDigits(amount, PLACES);
    var fraction := Strip(all);
    SplitDecimal(whole, fraction);
    DigitsValue(High(amount, PLACES));
    LastDigitsValue(amount, PLACES);
    StripValue(all);
    HighLow(amount, PLACES);
    if fraction == "" {
      assert whole + "" == whole;
      NoValue();
    } else {
      assert whole + ("." + fraction) == whole + "." + fraction;
    }
  }

  lemma NoValue()
    ensures Value("") == 0
  {
  }

  /** Below it the text is a digit, or two with a point between them, and an exponent that makes them the amount. */
  lemma ScientificDenotes(amount: nat)
    requires !Positional(amount)
    ensures var text := DecimalText(amount);
            if amount < 10 then text == [text[0]] + "e-06" && DigitValue(text[0]) == amount
            else if amount % 10 == 0 then text == [text[0]] + "e-05" && 10 * DigitValue(text[0]) == amount
            else text == [text[0]] + "." + [text[2]] + "e-05" && 10 * DigitValue(text[0]) + DigitValue(text[2]) == amount
  {
  }

  /** An amount printed with p decimals reads back as the same amount. */
  predicate Exact(p: nat, amount: nat)
    requires p <= PLACES
  {
    Parse(FormatDouble(p, amount)) == amount
  }

  /** Printing with p decimals is exact when no place after the p-th is used. */
  lemma ExactExactlyWhenPlacesSuffice(p: nat, amount: nat)
    requires p <= PLACES
    ensures Exact(p, amount) <==> EndsInZeros(amount, PLACES - p)
  {
    hide Parse, Fixed, Pow10, High, Low;
    var n, x := PLACES - p, Round(amount, p);
    FixedReadsBack(x, p);
    if EndsInZeros(amount, n) {
      HighLow(amount, n);
      HighLowUnique(amount + Pow10(n) / 2, n, High(amount, n), Pow10(n) / 2);
    }
    if amount == x * Pow10(n) {
      HighLowUnique(amount, n, x, 0);
    }
  }

  /**
   What is printed has exactly p digits after its point, no point for none, and nothing but
   digits otherwise; a zero leads only when it stands alone before the point.
   */
  lemma PrintedHasPlaces(p: nat, amount: nat)
    requires p <= PLACES
    ensures var parts := Split(FormatDouble(p, amount), '.');
            && |parts| == (if p == 0 then 1 else 2)
            && (p > 0 ==> |parts[1]| == p && AllDigits(parts[1]))
            && parts[0] != "" && AllDigits(parts[0]) && (parts[0][0] == '0' ==> |parts[0]| == 1)
  {
    hide Split, Digits, LastDigits, High, Pow10, AllDigits;
    var x := Round(amount, p);
    var whole, fraction := Digits(High(x, p)), LastDigits(x, p);
    SplitDecimal(whole, fraction);
    DigitsAreDigits(High(x, p));
    LastDigitsAreDigits(x, p);
    assert whole + "" == whole;
    assert whole + ("." + fraction) == whole + "." + fraction;
  }

  /** What is printed is never further from the amount than half a unit of the last place. */
  lemma PrintedIsNearest(p: nat, amount: nat)
    requires p <= PLACES
    ensures var printed, unit := Parse(FormatDouble(p, amount)), Pow10(PLACES - p);
            2 * printed <= 2 * amount + unit && 2 * amount <= 2 * printed + unit
  {
    hide Parse, Fixed, Pow10, High, Low;
    FixedReadsBack(Round(amount, p), p);
    HighLow(amount + Pow10(PLACES - p) / 2, PLACES - p);
  }

  predicate ExactMultiple(p: nat, step: nat, m: nat)
    requires p <= PLACES
  {
    Exact(p, m * step)
  }

  /** For every multiple of a step to print exactly, p decimals must be enough for the step. */
  lemma MultiplesExactlyWhen(step: nat, p: nat)
    requires p <= PLACES
    ensures (forall m: nat :: ExactMultiple(p, step, m)) <==> EndsInZeros(step, PLACES - p)
  {
    hide Exact, EndsInZeros;
    if EndsInZeros(step, PLACES - p) {
      forall m: nat ensures ExactMultiple(p, step, m) {
        MultipleEndsInZeros(m, step, PLACES - p);
        ExactExactlyWhenPlacesSuffice(p, m * step);
      }
    } else {
      ExactExactlyWhenPlacesSuffice(p, 1 * step);
      assert !ExactMultiple(p, step, 1);
    }
  }

  /** The precision of a step is enough for all its multiples, and no lower one is. */
  lemma PrecisionIsEnough(step: nat, p: nat)
    requires Positional(step) && p <= PLACES
    ensures (forall m: nat :: ExactMultiple(p, step, m)) <==> Precision(step) <= p
  {
    hide EndsInZeros, Precision, ExactMultiple;
    PrecisionIsLeast(step, p);
    MultiplesExactlyWhen(step, p);
  }

  /**
   The precision the client computes prints every multiple of the step exactly when the step
   is zero or at least a ten thousandth. Below that it is always too small.
   */
  lemma PrecisionWorksExactlyWhen(step: nat)
    ensures Precision(step) <= PLACES
    ensures (forall m: nat :: ExactMultiple(Precision(step), step, m)) <==> Positional(step)
  {
    hide EndsInZeros, Precision, ExactMultiple;
    if Positional(step) {
      PrecisionIsLeast(step, PLACES);
      PrecisionIsEnough(step, Precision(step));
    } else {
      PrecisionOfScientific(step);
      SmallStep(step);
      MultiplesExactlyWhen(step, Precision(step));
    }
  }

  lemma SmallStep(step: nat)
    requires !Positional(step)
    ensures !EndsInZeros(step, 6)
    ensures step % 10 != 0 ==> !EndsInZeros(step, 1)
  {
  }

  // ---------------------------------------------------------------- an order

  method PrecisionOf(step: nat) returns (precision: nat)
    ensures precision == Precision(step) <= PLACES
  {
    var parts := Split(DecimalText(step), '.');
    precision := 0;
    if |parts| == 2 {
      precision := |parts[1]|;
    }
    PrecisionWorksExactlyWhen(step);
  }

  /** An amount printed as its step asks. */
  function Written(step: nat, amount: nat): string
  {
    PrecisionWorksExactlyWhen(step);
    FormatDouble(Precision(step), amount)
  }

  /** A multiple of a printable step denotes the amount that was meant. */
  lemma WrittenDenotes(step: nat, m: nat)
    requires Positional(step)
    ensures Parse(Written(step, m * step)) == m * step
  {
    hide Parse, FormatDouble, Precision, Positional;
    PrecisionWorksExactlyWhen(step);
    assert ExactMultiple(Precision(step), step, m);
  }

  /** The request for an order; a field that is left out is None. */
  datatype OrderJson = OrderJson(
    category: Category, side: Side, symbol: string, orderType: OrderType, timeInForce: TimeInForce,
    reduceOnly: bool, closeOnTrigger: bool, positionIdx: int, orderLinkId: Option<string>,
    takeProfit: Option<real>, stopLoss: Option<real>, tpTriggerBy: Option<TriggerPriceType>,
    slTriggerBy: Option<TriggerPriceType>, qty: string, price: Option<string>)

  class Order {
    var category: Category
    var symbol: string
    var side: Side
    var orderType: OrderType
    var qty: nat
    var price: nat
    var timeInForce: TimeInForce
    var positionIdx: int
    var orderLinkId: string
    var takeProfit: real
    var stopLoss: real
    var tpTriggerBy: TriggerPriceType
    var slTriggerBy: TriggerPriceType
    var reduceOnly: bool
    var closeOnTrigger: bool
    var priceStep: nat
    var qtyStep: nat

    constructor ()
      ensures category == Linear && symbol == "" && side == Buy && orderType == Market && qty == 0 && price == 0
      ensures timeInForce == GTC && positionIdx == 0 && orderLinkId == "" && takeProfit == 0.0 && stopLoss == 0.0
      ensures tpTriggerBy == LastPrice && slTriggerBy == LastPrice && !reduceOnly && !closeOnTrigger
      ensures priceStep == 1000 && qtyStep == 1000
    {
      category, symbol, side, orderType, qty, price := Linear, "", Buy, Market, 0, 0;
      timeInForce, positionIdx, orderLinkId, takeProfit, stopLoss := GTC, 0, "", 0.0, 0.0;
      tpTriggerBy, slTriggerBy, reduceOnly, closeOnTrigger := LastPrice, LastPrice, false, false;
      priceStep, qtyStep := 1000, 1000;
    }

    /** The fields that are copied, and those that are left out when they say nothing. */
    ghost predicate Copied(json: OrderJson)
      reads this
    {
      && json.category == category && json.side == side && json.symbol == symbol && json.orderType == orderType
      && json.timeInForce == timeInForce && json.reduceOnly == reduceOnly && json.closeOnTrigger == closeOnTrigger
      && json.positionIdx == positionIdx
      && json.orderLinkId == (if orderLinkId == "" then None else Some(orderLinkId))
      && json.takeProfit == (if takeProfit == 0.0 then None else Some(takeProfit))
      && json.stopLoss == (if stopLoss == 0.0 then None else Some(stopLoss))
      && json.tpTriggerBy == (if tpTriggerBy == LastPrice then Some(LastPrice) else None)
      && json.slTriggerBy == (if slTriggerBy == LastPrice then Some(LastPrice) else None)
    }

    /** The whole request: amounts are printed as their own steps ask; a market order has no price. */
    ghost predicate IsRequest(json: OrderJson)
      reads this
    {
      && Copied(json)
      && json.qty == Written(qtyStep, qty)
      && json.price == if orderType == Limit then Some(Written(priceStep, price)) else None
    }

    method CopyFields() returns (json: OrderJson)
      ensures Copied(json) && json.price == None
    {
      var link, profit, loss := None, None, None;
      if orderLinkId != "" {
        link := Some(orderLinkId);
      }
      if takeProfit != 0.0 {
        profit := Some(takeProfit);
      }
      if stopLoss != 0.0 {
        loss := Some(stopLoss);
      }
      var tpBy, slBy := None, None;
      if tpTriggerBy == LastPrice {
        tpBy := Some(tpTriggerBy);
      }
      if slTriggerBy == LastPrice {
        slBy := Some(slTriggerBy);
      }
      json := OrderJson(category, side, symbol, orderType, timeInForce, reduceOnly, closeOnTrigger, positionIdx,
                        link, profit, loss, tpBy, slBy, "", None);
    }

    method ToJson() returns (json: OrderJson)
      ensures IsRequest(json)
    {
      hide FormatDouble, ToString;
      json := CopyFields();
      if orderType == Limit {
        json := json.(price := Some(ToString(price)));
      }
      var precision := PrecisionOf(qtyStep);
      json := json.(qty := FormatDouble(precision, qty));
      precision := PrecisionOf(priceStep);
      if orderType == Limit {
        json := json.(price := Some(FormatDouble(precision, price)));
      }
    }
  }
}
