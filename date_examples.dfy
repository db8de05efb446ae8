/** Worked dates, as instances of the general lemmas: the two of the
    library's documentation and one that shows the year losing its leading
    zero. The arithmetic
    on the literals is worked out in small lemmas of its own. */
module DateExamples {
  import opened Wrappers
  import opened Decimal
  import opened EraDate

  /** 令和5年4月1日 parses to 2023-04-01: 2018 + 5 = 2023, and month and day
      are zero-padded. */
  lemma ParseReiwaFive(e: string, n: string, m: string, d: string)
    requires e == "令和" && n == "5" && m == "4" && d == "1"
    ensures ParseJapaneseEraDate(e + n + "年" + m + "月" + d + "日") == Text("2023-04-01")
  {
    ReiwaFiveYear();
    IsoOfAprilFirst();
    ParseEra(e, 2018, n, m, d);
  }

  /** 2023-04-01 in the era format is 令和5年4月1日. */
  lemma FormatReiwaFive(y: string, m: string, d: string)
    requires y == "2023" && m == "04" && d == "01"
    ensures FormatSpec(y + "-" + m + "-" + d, "era") == Text("令和5年4月1日")
  {
    Year2023();
    EraStyleAprilFirst();
    ParseIso(y, '-', m, '-', d);
    FormatOfDate(y + "-" + m + "-" + d, "era", y, m, d);
  }

  lemma Year2023()
    ensures NatToString(2023) == "2023" && DigitsValue("2023") == 2023
  {
    assert NatToString(2023) == "2023";
    ValueOfNatToString(2023);
  }

  lemma ReiwaFiveYear()
    ensures NatToString(GregorianYear(2018, "5")) == "2023"
  {
    assert DigitsValue("5") == 5;
    Year2023();
  }

  lemma IsoOfAprilFirst()
    ensures IsoOf("2023", "4", "1") == "2023-04-01"
  {
    assert Padded("4") == "04";
    assert Padded("1") == "01";
  }

  lemma MonthDayAprilFirst()
    ensures MonthDay("04", "01") == "4月1日"
  {
    LeadingZeroIgnored("4");
    LeadingZeroIgnored("1");
  }

  lemma EraStyleAprilFirst()
    ensures EraStyle("2023", "04", "01") == "令和5年4月1日"
  {
    Year2023();
    MonthDayAprilFirst();
    assert FirstEra(2023, 0) == Some(0);
  }

  /** 0999/1/2 parses to 999-01-02: the ISO-like branch passes the year
      through `Number`. */
  lemma ParseIsoDropsLeadingZero(y: string, m: string, d: string)
    requires y == "0999" && m == "1" && d == "2"
    ensures ParseJapaneseEraDate(y + "/" + m + "/" + d) == Text("999-01-02")
  {
    Year0999();
    IsoOfJanuarySecond();
    ParseIso(y, '/', m, '/', d);
  }

  lemma Year0999()
    ensures NatToString(DigitsValue("0999")) == "999"
  {
    assert NatToString(999) == "999";
    ValueOfNatToString(999);
    LeadingZeroIgnored("999");
    assert "0" + "999" == "0999";
  }

  lemma IsoOfJanuarySecond()
    ensures IsoOf("999", "1", "2") == "999-01-02"
  {
    assert Padded("1") == "01";
    assert Padded("2") == "02";
  }
}
