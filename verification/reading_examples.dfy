/**
 * Worked readings of values the scraper meets on real pages, each derived
 * from the general lemmas about the patterns and the normalisations.
 */
module ReadingExamples {
  import opened Wrappers
  import opened Text
  import opened Patterns
  import opened Normalizer

  /** The value of a three-digit run, digit by digit. */
  lemma ThreeDigits(d: string)
    requires |d| == 3 && AllDigits(d)
    ensures DigitsValue(d) == 100 * DigitValue(d[0]) + 10 * DigitValue(d[1]) + DigitValue(d[2])
  {
    var d2 := d[..2];
    var d1 := d[..1];
    assert d2[..1] == d1 && d2[1] == d[1] && d1[..0] == [];
    assert DigitsValue(d1) == DigitValue(d[0]);
    assert DigitsValue(d2) == 10 * DigitValue(d[0]) + DigitValue(d[1]);
  }

  /** A height given in centimetres. */
  lemma CentimetreExample()
    ensures LengthCm("183 cm") == Some(183)
  {
    assert "183 cm" == "183" + " cm" + "";
    ThreeDigits("183");
    CentimetreReading("183", "");
  }

  /** A height given in metres is converted to centimetres. */
  lemma MetreExample()
    ensures LengthCm("1.85 m") == Some(185)
  {
    assert "1.85 m" == "1" + "." + "85" + " m";
    assert "1" + "85" == "185";
    ThreeDigits("185");
    assert Pow10(2) == 100;
    MetreReading("1", "85");
  }

  /** A career from 1985 to 2004 spans the eras "80s", "90s" and "00s". */
  lemma ErasExample()
    ensures Eras(Decade(1985), Decade(2004)) == ["80s", "90s", "00s"]
  {
    assert Decade(1985) == 1980 && Decade(2004) == 2000;
    ErasFirst(1980, 2000);
    ErasFirst(1990, 2000);
    ErasFirst(2000, 2000);
    DecadeLabelDigits(1980);
    DecadeLabelDigits(1990);
    DecadeLabelDigits(2000);
  }

  /** "Orthodox[1]" reads as the Orthodox stance. */
  lemma StanceExample()
    ensures ParseStance("Orthodox[1]") == Some("Orthodox")
  {
    FootnoteExample();
    BareWordText("Orthodox", "Orthodox");
    BareWordAt("Orthodox", "Orthodox");
    StanceOfBareWord("Orthodox", "Orthodox");
  }
}
