/** How the encoder and the decoder fit together: decoding what `roman_encode`
    produces gives back the number, for every number it accepts. */
module RoundTrip {
  import opened Results
  import opened Symbols
  import opened Encoding
  import opened Decoding

  /** The letter found for a tier has that tier's value: `LookupsInverse` for
      one value. The per-digit proofs call this instance rather than the
      quantified lemma, which keeps their proof search small. */
  lemma TierLetter(value: nat)
    requires Letter(value).Ok?
    ensures Letter(value).value in Letters && Value(Letter(value).value) == Ok(value)
  {
    LookupsInverse();
  }

  /** A run of one letter decodes to the letter's value times the run's length:
      equal neighbours never form a subtractive pair. */
  lemma {:induction false} DecodeRepeat(letter: char, count: nat)
    requires letter in Letters
    ensures Decode(Repeat(letter, count)) == Ok(count * Value(letter).value)
  {
    if count > 0 {
      var s := Repeat(letter, count);
      var v := Value(letter).value;
      DecodeRepeat(letter, count - 1);
      assert s[0] == letter && s[1..] == Repeat(letter, count - 1);
      assert 1 < |s| ==> s[1] == letter;
      StepSingle(s, v);
      DecodeCons(s, v, 1, (count - 1) * v);
      assert count * v == v + (count - 1) * v;
    }
  }

  /** Dropping a prefix of a string of letters leaves a string of letters. */
  lemma LettersDrop(s: string, k: nat)
    requires AllLetters(s) && k <= |s|
    ensures AllLetters(s[k..])
  {
    assert forall i :: 0 <= i < |s| - k ==> s[k..][i] == s[i + k];
  }

  /** A step over letters never fails. */
  lemma StepLetters(s: string)
    requires |s| > 0 && AllLetters(s)
    ensures Step(s).Ok?
  {
    assert s[0] in Letters;
    if |s| > 1 {
      assert s[1] in Letters;
    }
  }

  /** A string of letters always decodes. */
  lemma DecodeLetters(s: string)
    requires AllLetters(s)
    ensures Decode(s).Ok?
  {
    DecodeFailsIff(s);
  }

  /** Decoding a concatenation adds the two totals when no subtractive pair can
      straddle the seam, that is when the first letter after it is worth no more
      than the last letter before it. */
  lemma {:induction false} DecodeConcat(a: string, b: string)
    requires AllLetters(a) && AllLetters(b)
    requires |a| > 0 && |b| > 0 ==> Value(b[0]).value <= Value(a[|a| - 1]).value
    ensures Decode(a).Ok? && Decode(b).Ok?
    ensures Decode(a + b) == Ok(Decode(a).value + Decode(b).value)
    decreases |a|, 1
  {
    if |a| == 0 {
      DecodeLetters(b);
      assert a + b == b;
    } else if |b| == 0 {
      DecodeLetters(a);
      assert a + b == a;
    } else if |a| == 1 {
      DecodeLetters(b);
      DecodeSingle(a[0]);
      assert a == [a[0]];
      var ab, v := a + b, Value(a[0]).value;
      assert ab[0] == a[0] && ab[1] == b[0] && ab[1..] == b;
      StepSingle(ab, v);
      DecodeCons(ab, v, 1, Decode(b).value);
    } else {
      DecodeConcatStep(a, b);
    }
  }

  /** The case of `DecodeConcat` where `a` has at least two letters: the first
      step of the scan stays inside `a`, and the rest follows by recursion. */
  lemma {:induction false} DecodeConcatStep(a: string, b: string)
    requires AllLetters(a) && AllLetters(b) && |a| >= 2 && |b| > 0
    requires Value(b[0]).value <= Value(a[|a| - 1]).value
    ensures Decode(a).Ok? && Decode(b).Ok?
    ensures Decode(a + b) == Ok(Decode(a).value + Decode(b).value)
    decreases |a|, 0
  {
    StepLetters(a);
    var amount, used := Step(a).value.0, Step(a).value.1;
    var rest := a[used..];
    LettersDrop(a, used);
    if |rest| > 0 {
      assert rest[|rest| - 1] == a[|a| - 1];
    }
    DecodeConcat(rest, b);
    StepThenConcat(a, b, amount, used, Decode(rest).value, Decode(b).value);
  }

  /** When the first step of `a` stays inside `a` and the rest of `a` decodes
      next to `b` as it does alone, both `a` and `a + b` decode through that
      step. */
  lemma StepThenConcat(a: string, b: string, amount: nat, used: nat, dr: nat, db: nat)
    requires |a| >= 2 && Step(a) == Ok((amount, used))
    requires Decode(a[used..]) == Ok(dr) && Decode(a[used..] + b) == Ok(dr + db)
    ensures Decode(a) == Ok(amount + dr) && Decode(a + b) == Ok(amount + dr + db)
  {
    DecodeCons(a, amount, used, dr);
    DecodeAppendStep(a, b, amount, used, dr + db);
  }

  /** A single letter decodes to its value. */
  lemma DecodeSingle(letter: char)
    requires letter in Letters
    ensures Decode([letter]) == Ok(Value(letter).value)
  {
    var v := Value(letter).value;
    assert [letter][0] == letter && [letter][1..] == [];
    StepSingle([letter], v);
    DecodeCons([letter], v, 1, 0);
  }

  /** A letter followed by a letter worth more is one subtractive pair. */
  lemma DecodePair(low: char, high: char)
    requires low in Letters && high in Letters
    requires Value(low).value < Value(high).value
    ensures Decode([low, high]) == Ok(Value(high).value - Value(low).value)
  {
    var s, lo, hi := [low, high], Value(low).value, Value(high).value;
    assert s[0] == low && s[1] == high && s[2..] == [];
    StepPair(s, lo, hi);
    DecodeCons(s, hi - lo, 2, 0);
  }

  /** `s`, the numeral of `digit` at `power`, uses only the seven letters, decodes
      to `digit * 10**power`, starts with a letter worth at most `5 * 10**power`
      and ends with one worth at least `10**power`. */
  predicate DigitNumeral(digit: int, power: nat, s: string)
  {
    && AllLetters(s)
    && Decode(s) == Ok(digit * Pow10(power))
    && (|s| > 0 ==> Value(s[0]).value <= 5 * Pow10(power) && Pow10(power) <= Value(s[|s| - 1]).value)
  }

  /** Digits 0 to 3: the current letter repeated. */
  lemma RepeatedDigitRoundTrip(digit: int, power: nat)
    requires 0 <= digit < 4 && EncodeDigit(digit, power).Ok?
    ensures DigitNumeral(digit, power, EncodeDigit(digit, power).value)
  {
    var unit := Pow10(power);
    TierLetter(unit);
    var current := Letter(unit).value;
    assert EncodeDigit(digit, power).value == Repeat(current, digit);
    DecodeRepeat(current, digit);
  }

  /** Digit 4: the current letter, then the middle one. */
  lemma FourRoundTrip(power: nat)
    requires EncodeDigit(4, power).Ok?
    ensures DigitNumeral(4, power, EncodeDigit(4, power).value)
  {
    var unit := Pow10(power);
    TierLetter(unit);
    TierLetter(unit * 5);
    var current, middle := Letter(unit).value, Letter(unit * 5).value;
    assert EncodeDigit(4, power).value == [current, middle];
    DecodePair(current, middle);
  }

  /** Digit 5: the middle letter alone. */
  lemma FiveRoundTrip(power: nat)
    requires EncodeDigit(5, power).Ok?
    ensures DigitNumeral(5, power, EncodeDigit(5, power).value)
  {
    var unit := Pow10(power);
    TierLetter(unit * 5);
    var middle := Letter(unit * 5).value;
    assert EncodeDigit(5, power).value == [middle];
    DecodeSingle(middle);
  }

  /** `digit` units are five units and `digit - 5` more. */
  lemma SplitUnits(digit: int, unit: nat)
    ensures digit * unit == 5 * unit + (digit - 5) * unit
  {
  }

  /** A letter followed by a run of a letter worth no more decodes to the sum
      of their values. */
  lemma DecodeLeadAndRun(lead: char, letter: char, count: nat)
    requires lead in Letters && letter in Letters
    requires Value(letter).value <= Value(lead).value
    ensures Decode([lead] + Repeat(letter, count)) == Ok(Value(lead).value + count * Value(letter).value)
  {
    DecodeRepeat(letter, count);
    DecodeSingle(lead);
    DecodeConcat([lead], Repeat(letter, count));
  }

  /** Digits 6 to 8: the middle letter, then the current one repeated. */
  lemma SixToEightRoundTrip(digit: int, power: nat)
    requires 6 <= digit < 9 && EncodeDigit(digit, power).Ok?
    ensures DigitNumeral(digit, power, EncodeDigit(digit, power).value)
  {
    var unit := Pow10(power);
    EncodeDigitSucceedsIff(digit, power);
    TierLookup(power);
    TierLetter(unit);
    TierLetter(unit * 5);
    var middle, current := Letter(unit * 5).value, Letter(unit).value;
    var s := [middle] + Repeat(current, digit - 5);
    assert EncodeDigit(digit, power) == Ok(s);
    DecodeLeadAndRun(middle, current, digit - 5);
    SplitUnits(digit, unit);
    assert s[0] == middle && s[|s| - 1] == current;
  }

  /** Digit 9: the current letter, then the next one. */
  lemma NineRoundTrip(power: nat)
    requires EncodeDigit(9, power).Ok?
    ensures DigitNumeral(9, power, EncodeDigit(9, power).value)
  {
    var unit := Pow10(power);
    TierLetter(unit);
    TierLetter(unit * 10);
    var current, next := Letter(unit).value, Letter(unit * 10).value;
    assert EncodeDigit(9, power).value == [current, next];
    DecodePair(current, next);
  }

  /** The numeral of one digit decodes to `digit * 10**power`; it starts with a
      letter worth at most `5 * 10**power` and ends with one worth at least
      `10**power`, which is what keeps neighbouring digits apart. */
  lemma DigitRoundTrip(digit: int, power: nat)
    requires 0 <= digit <= 9
    requires EncodeDigit(digit, power).Ok?
    ensures DigitNumeral(digit, power, EncodeDigit(digit, power).value)
  {
    if digit < 4 {
      RepeatedDigitRoundTrip(digit, power);
    } else if digit == 4 {
      FourRoundTrip(power);
    } else if digit == 5 {
      FiveRoundTrip(power);
    } else if digit < 9 {
      SixToEightRoundTrip(digit, power);
    } else {
      NineRoundTrip(power);
    }
  }

  /** A successful `EncodeAll` is the first digit's numeral followed by the rest's.
      This is one unfolding of `EncodeAll`; the round trip calls it so that its
      own proof need not unfold the definition, which keeps proof search small. */
  lemma EncodeAllCons(ps: seq<(int, nat)>)
    requires |ps| > 0 && EncodeAll(ps).Ok?
    ensures EncodeDigit(ps[0].0, ps[0].1).Ok? && EncodeAll(ps[1..]).Ok?
    ensures EncodeAll(ps).value == EncodeDigit(ps[0].0, ps[0].1).value + EncodeAll(ps[1..]).value
  {
  }

  /** `s`, the numeral of the run of pairs `ps`, uses only the seven letters,
      decodes to the value of the pairs, and starts with a letter worth at most
      five units of the leading pair's power. */
  predicate RunNumeral(ps: seq<(int, nat)>, s: string)
  {
    && AllLetters(s)
    && Decode(s) == Ok(PairsValue(ps))
    && (|ps| > 0 && |s| > 0 ==> Value(s[0]).value <= 5 * Pow10(ps[0].1))
  }

  /** The first letter of a leading digit's numeral followed by the run after
      it is worth at most five units of the leading digit's power. */
  lemma JoinFirstLetter(ps: seq<(int, nat)>, head: string, tail: string)
    requires |ps| > 0 && DigitNumeral(ps[0].0, ps[0].1, head)
    requires |ps| > 1 ==> ps[0].1 == ps[1].1 + 1
    requires RunNumeral(ps[1..], tail)
    requires |ps| == 1 ==> tail == []
    ensures |head + tail| > 0 ==> Value((head + tail)[0]).value <= 5 * Pow10(ps[0].1)
  {
    if |head| > 0 {
      assert (head + tail)[0] == head[0];
    } else if |tail| > 0 {
      assert (head + tail)[0] == tail[0];
      assert ps[1..][0].1 == ps[0].1 - 1;
      Pow10Monotone(ps[0].1 - 1, ps[0].1);
    }
  }

  /** The numeral of a leading digit followed by the numeral of the run after
      it is the numeral of the whole run: no subtractive pair forms at the seam,
      because the run after it starts below the leading digit's power. */
  lemma JoinNumerals(ps: seq<(int, nat)>, head: string, tail: string)
    requires |ps| > 0 && DigitNumeral(ps[0].0, ps[0].1, head)
    requires |ps| > 1 ==> ps[0].1 == ps[1].1 + 1
    requires RunNumeral(ps[1..], tail)
    requires |ps| == 1 ==> tail == []
    ensures RunNumeral(ps, head + tail)
  {
    JoinSeam(ps, head, tail);
    var dh, dt := ps[0].0 * Pow10(ps[0].1), PairsValue(ps[1..]);
    DecodeJoin(head, tail, dh, dt);
    JoinFirstLetter(ps, head, tail);
    LettersConcat(head, tail);
    PairsValueCons(ps);
    RunNumeralOf(ps, head + tail, dh + dt);
  }

  /** The value of a run of pairs is the leading pair's `digit * 10**power`
      plus the value of the rest: one unfolding of `PairsValue`, kept as a lemma
      so that `JoinNumerals` states it for abstract arguments and its proof
      search stays small. */
  lemma PairsValueCons(ps: seq<(int, nat)>)
    requires |ps| > 0
    ensures PairsValue(ps) == ps[0].0 * Pow10(ps[0].1) + PairsValue(ps[1..])
  {
  }

  /** The three parts of `RunNumeral`, gathered: the definition itself, kept as
      a lemma so that `JoinNumerals` closes with one call on abstract arguments
      instead of unfolding `Decode` on a concatenation, which keeps proof
      search small. */
  lemma RunNumeralOf(ps: seq<(int, nat)>, s: string, total: int)
    requires AllLetters(s) && Decode(s) == Ok(total) && total == PairsValue(ps)
    requires |ps| > 0 && |s| > 0 ==> Value(s[0]).value <= 5 * Pow10(ps[0].1)
    ensures RunNumeral(ps, s)
  {
  }

  /** At the seam between a leading digit's numeral and the run after it, the
      first letter of the run is worth less than the last letter of the digit:
      at most five units of the next lower power against at least one unit of
      the digit's own. */
  lemma JoinSeam(ps: seq<(int, nat)>, head: string, tail: string)
    requires |ps| > 0 && DigitNumeral(ps[0].0, ps[0].1, head)
    requires |ps| > 1 ==> ps[0].1 == ps[1].1 + 1
    requires RunNumeral(ps[1..], tail)
    requires |ps| == 1 ==> tail == []
    ensures |head| > 0 && |tail| > 0 ==> Value(tail[0]).value <= Value(head[|head| - 1]).value
  {
    if |head| > 0 && |tail| > 0 {
      assert ps[1..][0].1 == ps[0].1 - 1;
      assert Pow10(ps[0].1) == 10 * Pow10(ps[0].1 - 1);
    }
  }

  /** `DecodeConcat` with the two totals known. */
  lemma DecodeJoin(a: string, b: string, da: nat, db: nat)
    requires AllLetters(a) && AllLetters(b)
    requires |a| > 0 && |b| > 0 ==> Value(b[0]).value <= Value(a[|a| - 1]).value
    requires Decode(a) == Ok(da) && Decode(b) == Ok(db)
    ensures Decode(a + b) == Ok(da + db)
  {
    DecodeConcat(a, b);
  }

  /** Two strings of letters make a string of letters. */
  lemma LettersConcat(a: string, b: string)
    requires AllLetters(a) && AllLetters(b)
    ensures AllLetters(a + b)
  {
    assert forall i :: |a| <= i < |a + b| ==> (a + b)[i] == b[i - |a|];
  }

  /** Decoding the concatenated numerals of a run of (digit, power) pairs with
      consecutive descending powers gives the sum of `digit * 10**power`. */
  lemma {:induction false} EncodeAllRoundTrip(ps: seq<(int, nat)>)
    requires forall i :: 0 <= i < |ps| ==> 0 <= ps[i].0 <= 9
    requires forall i :: 0 < i < |ps| ==> ps[i - 1].1 == ps[i].1 + 1
    requires EncodeAll(ps).Ok?
    ensures RunNumeral(ps, EncodeAll(ps).value)
  {
    if |ps| == 0 {
      assert EncodeAll(ps).value == [];
    } else {
      EncodeAllCons(ps);
      var head := EncodeDigit(ps[0].0, ps[0].1).value;
      var tail := EncodeAll(ps[1..]).value;
      EncodeAllRoundTrip(ps[1..]);
      DigitRoundTrip(ps[0].0, ps[0].1);
      if |ps| == 1 {
        assert tail == [];
      }
      JoinNumerals(ps, head, tail);
    }
  }

  /** The round trip: every number `roman_encode` accepts, which is exactly
      0..3999, decodes back to itself. */
  lemma RoundTrip(n: int)
    ensures 0 <= n <= 3999 ==> Encode(n).Ok?
    ensures Encode(n).Ok? ==> Decode(Encode(n).value) == Ok(n)
  {
    EncodeSucceedsIff(n);
    if Encode(n).Ok? {
      var ps := DigitPowers(n).value;
      assert Encode(n) == EncodeAll(ps);
      EncodeAllRoundTrip(ps);
    }
  }
}
