/** The concrete cases the repository's tests exercise, worked out on the model. */
module Examples {
  import opened Results
  import opened Symbols
  import opened Encoding
  import opened Decoding
  import opened RoundTrip

  /** The numerals of the unit digits the examples need. */
  lemma UnitDigits()
    ensures EncodeDigit(0, 0) == Ok("") && EncodeDigit(1, 0) == Ok("I")
    ensures EncodeDigit(4, 0) == Ok("IV") && EncodeDigit(5, 0) == Ok("V")
  {
    assert Pow10(0) == 1;
    assert Repeat('I', 0) == "" && Repeat('I', 1) == "I";
  }

  /** The numerals of the tens digits the examples need. */
  lemma TensDigits()
    ensures EncodeDigit(0, 1) == Ok("") && EncodeDigit(1, 1) == Ok("X")
    ensures EncodeDigit(5, 1) == Ok("L") && EncodeDigit(9, 1) == Ok("XC")
  {
    assert Pow10(1) == 10;
    assert Repeat('X', 0) == "" && Repeat('X', 1) == "X";
  }

  /** The numerals of the hundreds digits the examples need. */
  lemma HundredsDigits()
    ensures EncodeDigit(0, 2) == Ok("") && EncodeDigit(1, 2) == Ok("C")
    ensures EncodeDigit(5, 2) == Ok("D") && EncodeDigit(9, 2) == Ok("CM")
  {
    assert Pow10(2) == 100;
    assert Repeat('C', 0) == "" && Repeat('C', 1) == "C";
  }

  /** The numeral of the thousands digit 1. */
  lemma ThousandsDigit()
    ensures EncodeDigit(1, 3) == Ok("M")
  {
    assert Pow10(3) == 1000;
    assert Repeat('M', 1) == "M";
  }

  /** For a non-negative input the pairs are those of its decimal digits. */
  lemma DigitPowersOf(n: int, ds: seq<int>, ps: seq<(int, nat)>)
    requires n >= 0 && DecimalDigits(n) == ds && PowersOf(ds) == ps
    ensures DigitPowers(n) == Ok(ps)
  {
  }

  /** The decimal pairs of 1000. */
  lemma Pairs1000()
    ensures DigitPowers(1000) == Ok([(1, 3), (0, 2), (0, 1), (0, 0)])
  {
    assert DecimalDigits(10) == [1, 0] && DecimalDigits(100) == [1, 0, 0];
    assert DecimalDigits(1000) == [1, 0, 0, 0];
    DigitPowersOf(1000, [1, 0, 0, 0], [(1, 3), (0, 2), (0, 1), (0, 0)]);
  }

  /** The decimal pairs of 1954. */
  lemma Pairs1954()
    ensures DigitPowers(1954) == Ok([(1, 3), (9, 2), (5, 1), (4, 0)])
  {
    assert DecimalDigits(19) == [1, 9] && DecimalDigits(195) == [1, 9, 5];
    assert DecimalDigits(1954) == [1, 9, 5, 4];
    DigitPowersOf(1954, [1, 9, 5, 4], [(1, 3), (9, 2), (5, 1), (4, 0)]);
  }

  /** The decimal pairs of 1990. */
  lemma Pairs1990()
    ensures DigitPowers(1990) == Ok([(1, 3), (9, 2), (9, 1), (0, 0)])
  {
    assert DecimalDigits(19) == [1, 9] && DecimalDigits(199) == [1, 9, 9];
    assert DecimalDigits(1990) == [1, 9, 9, 0];
    DigitPowersOf(1990, [1, 9, 9, 0], [(1, 3), (9, 2), (9, 1), (0, 0)]);
  }

  /** Encoding a non-negative number whose pairs and their numerals are known. */
  lemma EncodeFromParts(n: int, ps: seq<(int, nat)>, parts: seq<string>)
    requires DigitPowers(n) == Ok(ps) && |parts| == |ps|
    requires forall i :: 0 <= i < |ps| ==> EncodeDigit(ps[i].0, ps[i].1) == Ok(parts[i])
    ensures Encode(n) == Ok(Join(parts))
  {
    EncodeAllJoins(ps, parts);
  }

  /** A leading numeral followed by the empty numerals of zero digits joins
      to the leading numeral alone. */
  lemma JoinTrailingEmpty(head: string)
    ensures Join([head]) == head && Join([head, ""]) == head
    ensures Join([head, "", ""]) == head && Join([head, "", "", ""]) == head
  {
    assert Join([""]) == "" && Join(["", ""]) == "" && Join(["", "", ""]) == "";
    assert [head, ""][1..] == [""] && [head, "", ""][1..] == ["", ""];
    assert [head, "", "", ""][1..] == ["", "", ""];
  }

  /** The tests' encoding examples that are single letters: each value of the
      table encodes to its own letter. */
  lemma EncodeTableValues()
    ensures Encode(1) == Ok("I") && Encode(5) == Ok("V") && Encode(10) == Ok("X")
    ensures Encode(50) == Ok("L") && Encode(100) == Ok("C") && Encode(500) == Ok("D")
    ensures Encode(1000) == Ok("M")
  {
    EncodeI(); EncodeV(); EncodeX(); EncodeL(); EncodeC(); EncodeD(); EncodeM();
  }

  /** 1 is `I`. */
  lemma EncodeI()
    ensures Encode(1) == Ok("I")
  {
    DigitPowersOf(1, [1], [(1, 0)]);
    UnitDigits();
    EncodeFromParts(1, [(1, 0)], ["I"]);
    assert Join(["I"]) == "I";
  }

  /** 5 is `V`. */
  lemma EncodeV()
    ensures Encode(5) == Ok("V")
  {
    DigitPowersOf(5, [5], [(5, 0)]);
    UnitDigits();
    EncodeFromParts(5, [(5, 0)], ["V"]);
    assert Join(["V"]) == "V";
  }

  /** 10 is `X`: the tens digit gives `X`, the zero units nothing. */
  lemma EncodeX()
    ensures Encode(10) == Ok("X")
  {
    assert DecimalDigits(10) == [1, 0];
    DigitPowersOf(10, [1, 0], [(1, 1), (0, 0)]);
    UnitDigits();
    TensDigits();
    EncodeFromParts(10, [(1, 1), (0, 0)], ["X", ""]);
    JoinTrailingEmpty("X");
  }

  /** 50 is `L`. */
  lemma EncodeL()
    ensures Encode(50) == Ok("L")
  {
    assert DecimalDigits(50) == [5, 0];
    DigitPowersOf(50, [5, 0], [(5, 1), (0, 0)]);
    UnitDigits();
    TensDigits();
    EncodeFromParts(50, [(5, 1), (0, 0)], ["L", ""]);
    JoinTrailingEmpty("L");
  }

  /** 100 is `C`. */
  lemma EncodeC()
    ensures Encode(100) == Ok("C")
  {
    assert DecimalDigits(10) == [1, 0] && DecimalDigits(100) == [1, 0, 0];
    DigitPowersOf(100, [1, 0, 0], [(1, 2), (0, 1), (0, 0)]);
    UnitDigits();
    TensDigits();
    HundredsDigits();
    EncodeFromParts(100, [(1, 2), (0, 1), (0, 0)], ["C", "", ""]);
    JoinTrailingEmpty("C");
  }

  /** 500 is `D`. */
  lemma EncodeD()
    ensures Encode(500) == Ok("D")
  {
    assert DecimalDigits(50) == [5, 0] && DecimalDigits(500) == [5, 0, 0];
    DigitPowersOf(500, [5, 0, 0], [(5, 2), (0, 1), (0, 0)]);
    UnitDigits();
    TensDigits();
    HundredsDigits();
    EncodeFromParts(500, [(5, 2), (0, 1), (0, 0)], ["D", "", ""]);
    JoinTrailingEmpty("D");
  }

  /** 1000 is `M`. */
  lemma EncodeM()
    ensures Encode(1000) == Ok("M")
  {
    Pairs1000();
    UnitDigits();
    TensDigits();
    HundredsDigits();
    ThousandsDigit();
    EncodeFromParts(1000, [(1, 3), (0, 2), (0, 1), (0, 0)], ["M", "", "", ""]);
    JoinTrailingEmpty("M");
  }

  /** The tests' two years: 1954 is `MCMLIV` and 1990 is `MCMXC`. */
  lemma EncodeYears()
    ensures Encode(1954) == Ok("MCMLIV") && Encode(1990) == Ok("MCMXC")
  {
    Encode1954();
    Encode1990();
  }

  /** 1954 is `M`, `CM`, `L`, `IV`. */
  lemma Encode1954()
    ensures Encode(1954) == Ok("MCMLIV")
  {
    Pairs1954();
    UnitDigits();
    TensDigits();
    HundredsDigits();
    ThousandsDigit();
    EncodeFromParts(1954, [(1, 3), (9, 2), (5, 1), (4, 0)], ["M", "CM", "L", "IV"]);
    assert Join(["IV"]) == "IV";
    assert Join(["L", "IV"]) == "LIV";
    assert Join(["CM", "L", "IV"]) == "CMLIV";
    assert Join(["M", "CM", "L", "IV"]) == "MCMLIV";
  }

  /** 1990 is `M`, `CM`, `XC` and nothing for the zero units. */
  lemma Encode1990()
    ensures Encode(1990) == Ok("MCMXC")
  {
    Pairs1990();
    UnitDigits();
    TensDigits();
    HundredsDigits();
    ThousandsDigit();
    EncodeFromParts(1990, [(1, 3), (9, 2), (9, 1), (0, 0)], ["M", "CM", "XC", ""]);
    assert Join([""]) == "";
    assert Join(["XC", ""]) == "XC";
    assert Join(["CM", "XC", ""]) == "CMXC";
    assert Join(["M", "CM", "XC", ""]) == "MCMXC";
  }

  /** Zero has the single digit 0, whose numeral is empty. */
  lemma EncodeZero()
    ensures Encode(0) == Ok("")
  {
    DigitPowersOf(0, [0], [(0, 0)]);
    UnitDigits();
    EncodeFromParts(0, [(0, 0)], [""]);
    assert Join([""]) == "";
  }

  /** The failures the tests provoke: -1 stops at its sign with `ValueError`;
      and although the tests take 1000, one past their range 1..999, to be
      unsupported, it encodes to `M`; the first number that fails with
      `KeyError` is 4000. */
  lemma EncodeFailures()
    ensures Encode(-1) == Err(ValueError)
    ensures Encode(1000) == Ok("M")
    ensures Encode(3999).Ok? && Encode(4000) == Err(KeyError)
  {
    EncodeOutOfRange(-1);
    EncodeM();
    EncodeSucceedsIff(3999);
    EncodeOutOfRange(4000);
  }

  /** The tests' decoding examples: each letter alone decodes to its value. */
  lemma DecodeTableValues()
    ensures Decode("I") == Ok(1) && Decode("V") == Ok(5) && Decode("X") == Ok(10) && Decode("L") == Ok(50)
    ensures Decode("C") == Ok(100) && Decode("D") == Ok(500) && Decode("M") == Ok(1000)
  {
    var letters := "IVXLCDM";
    var values := [1, 5, 10, 50, 100, 500, 1000];
    forall i | 0 <= i < 7
      ensures Decode([letters[i]]) == Ok(values[i])
    {
      StepSingle([letters[i]], values[i]);
      DecodeCons([letters[i]], values[i], 1, 0);
    }
    assert [letters[0]] == "I" && [letters[1]] == "V" && [letters[2]] == "X" && [letters[3]] == "L";
    assert [letters[4]] == "C" && [letters[5]] == "D" && [letters[6]] == "M";
  }

  /** `MCMLIV` decodes to 1954, one scan step at a time: `M`, the pair `CM`,
      `L`, the pair `IV`. */
  lemma Decode1954()
    ensures Decode("MCMLIV") == Ok(1954)
  {
    var s := "MCMLIV";
    StepPair(s[4..], 1, 5);
    DecodeCons(s[4..], 4, 2, 0);
    StepSingle(s[3..], 50);
    DecodeCons(s[3..], 50, 1, 4);
    StepPair(s[1..], 100, 1000);
    DecodeCons(s[1..], 900, 2, 54);
    StepSingle(s, 1000);
    DecodeCons(s, 1000, 1, 954);
  }

  /** `MCMXC` decodes to 1990: `M`, the pair `CM`, the pair `XC`. */
  lemma Decode1990()
    ensures Decode("MCMXC") == Ok(1990)
  {
    var s := "MCMXC";
    StepPair(s[3..], 10, 100);
    DecodeCons(s[3..], 90, 2, 0);
    StepPair(s[1..], 100, 1000);
    DecodeCons(s[1..], 900, 2, 90);
    StepSingle(s, 1000);
    DecodeCons(s, 1000, 1, 990);
  }

  /** The decoder accepts what the encoder never produces: `IIII` is 4, and the
      empty string is 0. */
  lemma DecodePermissive()
    ensures Decode("IIII") == Ok(4) && Decode("") == Ok(0)
  {
    DecodeRepeat('I', 4);
    assert Repeat('I', 4) == "IIII";
  }

  /** The tests' illegal strings fail with `KeyError`: a lower-case letter, a
      digit after a valid pair, a symbol after a valid pair. */
  lemma DecodeIllegal()
    ensures Decode("a") == Err(KeyError) && Decode("IV9") == Err(KeyError) && Decode("CM<") == Err(KeyError)
  {
    DecodeFailsIff("a");
    assert "a"[0] !in Letters;
    DecodeFailsIff("IV9");
    assert "IV9"[2] !in Letters;
    DecodeFailsIff("CM<");
    assert "CM<"[2] !in Letters;
  }
}
