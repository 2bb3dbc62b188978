/** The names of candle intervals against their lengths. */
module Intervals {
  import opened Decimals
  import opened Enums

  lemma ValueOfMore(s: string, c: char)
    ensures Value(s + [c]) == 10 * Value(s) + DigitValue(c)
  {
    assert (s + [c])[..|s|] == s;
  }

  lemma ValueOfThree(a: char, b: char, c: char)
    ensures Value([a]) == DigitValue(a)
    ensures Value([a, b]) == 10 * DigitValue(a) + DigitValue(b)
    ensures Value([a, b, c]) == 100 * DigitValue(a) + 10 * DigitValue(b) + DigitValue(c)
  {
    hide DigitValue;
    ValueOfMore("", a);
    assert "" + [a] == [a];
    ValueOfMore([a], b);
    assert [a] + [b] == [a, b];
    ValueOfMore([a, b], c);
    assert [a, b] + [c] == [a, b, c];
  }

  /** Numbers name minutes. */
  lemma MinutesAreNamed(interval: CandleInterval)
    requires interval !in {ID, IW, IM}
    ensures NumberOfMs(interval) == 60000 * Value(Name(interval))
  {
    hide Value;
    var name := Name(interval);
    var a := name[0];
    var b := if |name| > 1 then name[1] else a;
    var c := if |name| > 2 then name[2] else a;
    ValueOfThree(a, b, c);
    assert name == [a] || name == [a, b] || name == [a, b, c];
  }

  /** Letters name a day of 24 hours, a week of seven days and a month of thirty. */
  lemma LettersAreNamed()
    ensures Name(ID) == "D" && NumberOfMs(ID) == 24 * NumberOfMs(I60)
    ensures Name(IW) == "W" && NumberOfMs(IW) == 7 * NumberOfMs(ID)
    ensures Name(IM) == "M" && NumberOfMs(IM) == 30 * NumberOfMs(ID)
  {
  }
}
