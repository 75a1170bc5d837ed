/**
 * `parseMetricValue` (src/app/page.tsx:19-27) on concrete inputs, each an
 * instance of one of the general lemmas of `MetricValues`.
 */
module MetricExamples {
  import opened Decimal
  import opened Market
  import opened MetricValues

  /** A currency sign and a thousands separator are ignored. */
  lemma DollarAmountExample()
    ensures ParseMetricValue(Text("$12,345")) == 12345.0
  {
    DollarAmountShape();
    CurrencyAndSeparatorIgnored("12", "345");
    DigitsValueOf12345();
  }

  lemma DollarAmountShape()
    ensures "$12,345" == "$" + "12" + "," + "345"
    ensures "12" + "345" == "12345"
    ensures AllDigits("12") && AllDigits("345")
  {
  }

  /** Thousands separators inside a decimal amount are ignored. */
  lemma GroupedDecimalExample()
    ensures ParseMetricValue(Text("12,345.50")) == 12345.5
  {
    GroupedDecimalShape();
    GroupedDecimalText("12", "345", "50");
    DigitsValueOf12345();
    assert DigitsValue("50") == 50 by {
      assert "50"[..1] == "5";
      assert "5"[..0] == "";
    }
    assert Shift(50.0, 2) == 0.5;
  }

  lemma GroupedDecimalShape()
    ensures "12,345.50" == "12" + "," + "345" + "." + "50"
    ensures "12" + "345" == "12345"
    ensures AllDigits("12") && AllDigits("345") && AllDigits("50")
  {
  }

  /** A negative amount is clamped to 0. */
  lemma NegativeExample()
    ensures ParseMetricValue(Text("-5")) == 0.0
  {
    assert "-5" == "-" + "5";
    NegativeTextIsZero("5");
  }

  /** A second point ends the number. */
  lemma SecondPointExample()
    ensures ParseMetricValue(Text("1.2.3")) == 1.2
  {
    assert "1.2.3" == "1" + "." + "2" + "." + "3";
    SecondPointEndsNumber("1", "2", "3");
    assert DigitsValue("1") == 1 by {
      assert "1"[..0] == "";
    }
    assert DigitsValue("2") == 2 by {
      assert "2"[..0] == "";
    }
    assert Shift(2.0, 1) == 0.2;
  }

  /** A minus sign after the digits ends the number. */
  lemma InnerMinusExample()
    ensures ParseMetricValue(Text("1-2")) == 1.0
  {
    assert "1-2" == "1" + "-" + "2";
    InnerMinusEndsNumber("1", "2");
    assert DigitsValue("1") == 1 by {
      assert "1"[..0] == "";
    }
  }

  /** Text with nothing to parse reads as 0. */
  lemma EmptyTextExample()
    ensures ParseMetricValue(Text("")) == 0.0
  {
    DigitFreeTextIsZero("");
  }

  lemma LettersExample()
    ensures ParseMetricValue(Text("abc")) == 0.0
  {
    DigitFreeTextIsZero("abc");
  }

  lemma LoneMinusExample()
    ensures ParseMetricValue(Text("-")) == 0.0
  {
    DigitFreeTextIsZero("-");
  }

  lemma LonePointExample()
    ensures ParseMetricValue(Text(".")) == 0.0
  {
    DigitFreeTextIsZero(".");
  }

  lemma DigitsValueOf12345()
    ensures DigitsValue("12345") == 12345
  {
    assert "12345"[..4] == "1234";
    assert "1234"[..3] == "123";
    assert "123"[..2] == "12";
    assert "12"[..1] == "1";
    assert "1"[..0] == "";
  }
}
