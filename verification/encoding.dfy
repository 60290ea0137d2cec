/** The encoder: `_encode_roman_digit`, `_iter_digit_power` and `roman_encode`. */
module Encoding {
  import opened Results
  import opened Symbols

  /** `10**p` for a non-negative power. */
  function Pow10(p: nat): (r: nat)
    ensures r >= 1
  {
    if p == 0 then 1 else 10 * Pow10(p - 1)
  }

  /** A higher power of ten is at least as large. */
  lemma {:induction false} Pow10Monotone(a: nat, b: nat)
    requires a <= b
    ensures Pow10(a) <= Pow10(b)
  {
    if a < b {
      Pow10Monotone(a, b - 1);
    }
  }

  /** Python's `letter * count`. */
  function Repeat(letter: char, count: nat): (r: string)
    ensures |r| == count
    ensures forall i :: 0 <= i < |r| ==> r[i] == letter
  {
    if count == 0 then [] else [letter] + Repeat(letter, count - 1)
  }

  /** `_encode_roman_digit(digit, power)`: the numeral for `digit * 10**power`,
      built from the current tier `10**power`, the middle tier `5 * 10**power`
      and the next tier `10**(power + 1)`. Each tier is looked up only on the
      branch that uses it, so a missing tier fails only where it is needed. */
  function EncodeDigit(digit: int, power: nat): (r: Result<string>)
    ensures r == Err(ValueError) <==> !(0 <= digit <= 9)
    ensures r.Ok? ==> |r.value| <= 4
    ensures r.Ok? && digit == 0 ==> r.value == []
    ensures r.Ok? ==> forall i :: 0 <= i < |r.value| ==>
                r.value[i] in Letters && Value(r.value[i]).value in {Pow10(power), 5 * Pow10(power), 10 * Pow10(power)}
  {
    LookupsInverse();
    var unit := Pow10(power);
    if 0 <= digit < 4 then
      var current :- Letter(unit);
      Ok(Repeat(current, digit))
    else if digit == 4 then
      var current :- Letter(unit);
      var middle :- Letter(unit * 5);
      Ok([current, middle])
    else if digit == 5 then
      var middle :- Letter(unit * 5);
      Ok([middle])
    else if 6 <= digit < 9 then
      var middle :- Letter(unit * 5);
      var current :- Letter(unit);
      Ok([middle] + Repeat(current, digit - 5))
    else if digit == 9 then
      var current :- Letter(unit);
      var next :- Letter(unit * 10);
      Ok([current, next])
    else
      Err(ValueError)
  }

  /** Which tiers are tabulated: `10**power` up to power 3, the two higher tiers up to power 2. */
  lemma TierLookup(power: nat)
    ensures Letter(Pow10(power)).Ok? <==> power <= 3
    ensures Letter(Pow10(power) * 5).Ok? <==> power <= 2
    ensures Letter(Pow10(power) * 10).Ok? <==> power <= 2
  {
    if power >= 3 {
      assert Pow10(3) == 1000;
      Pow10Monotone(3, power);
      if power >= 4 {
        assert Pow10(4) == 10000;
        Pow10Monotone(4, power);
      }
    } else if power == 2 {
      assert Pow10(2) == 100;
    } else if power == 1 {
      assert Pow10(1) == 10;
    }
  }

  /** A digit in 0..9 encodes exactly when every tier its branch needs is in the
      table: always below the thousands, and at the thousands only for 0..3. */
  lemma EncodeDigitSucceedsIff(digit: int, power: nat)
    ensures EncodeDigit(digit, power).Ok? <==> 0 <= digit <= 9 && (power <= 2 || (power == 3 && digit <= 3))
    ensures 0 <= digit <= 9 && EncodeDigit(digit, power).Err? ==> EncodeDigit(digit, power).error == KeyError
  {
    TierLookup(power);
  }

  /** The decimal digits of `n`, most significant first, as `str(n)` spells them. */
  function DecimalDigits(n: nat): (ds: seq<int>)
    ensures 1 <= |ds|
    ensures forall i :: 0 <= i < |ds| ==> 0 <= ds[i] <= 9
    ensures |ds| > 1 ==> ds[0] != 0
    ensures DigitsValue(ds) == n
    decreases n
  {
    if n < 10 then [n]
    else
      var front := DecimalDigits(n / 10);
      DigitsValueAppend(front, n % 10);
      front + [n % 10]
  }

  /** The number a digit string denotes, most significant digit first. */
  function DigitsValue(ds: seq<int>): int
  {
    if |ds| == 0 then 0 else ds[0] * Pow10(|ds| - 1) + DigitsValue(ds[1..])
  }

  /** Appending a digit multiplies the value by ten and adds the digit. */
  lemma {:induction false} DigitsValueAppend(ds: seq<int>, d: int)
    ensures DigitsValue(ds + [d]) == 10 * DigitsValue(ds) + d
  {
    if |ds| > 0 {
      assert (ds + [d])[1..] == ds[1..] + [d];
      DigitsValueAppend(ds[1..], d);
      var p := Pow10(|ds| - 1);
      assert Pow10(|ds|) == 10 * p;
      assert ds[0] * (10 * p) == 10 * (ds[0] * p);
    }
  }

  /** A string of decimal digits denotes a number below `10**length`. */
  lemma {:induction false} DigitsValueBound(ds: seq<int>)
    requires forall i :: 0 <= i < |ds| ==> 0 <= ds[i] <= 9
    ensures 0 <= DigitsValue(ds) < Pow10(|ds|)
  {
    if |ds| > 0 {
      DigitsValueBound(ds[1..]);
      var p := Pow10(|ds| - 1);
      MulDigitBound(ds[0], p);
    }
  }

  /** A digit times a power of ten is at most nine times that power. */
  lemma {:induction false} MulDigitBound(d: int, p: nat)
    requires 0 <= d <= 9
    ensures 0 <= d * p <= 9 * p
  {
    if d > 0 {
      MulDigitBound(d - 1, p);
      assert d * p == (d - 1) * p + p;
    }
  }

  /** Pairs each digit with its power, `len - index - 1`, as `_iter_digit_power` does. */
  function PowersOf(ds: seq<int>): seq<(int, nat)>
  {
    seq(|ds|, i requires 0 <= i < |ds| => (ds[i], |ds| - i - 1))
  }

  /** The sum of `digit * 10**power` over the pairs. */
  function PairsValue(ps: seq<(int, nat)>): int
  {
    if |ps| == 0 then 0 else ps[0].0 * Pow10(ps[0].1) + PairsValue(ps[1..])
  }

  /** The pairs of a digit string add up to the number it denotes. */
  lemma {:induction false} PowersOfValue(ds: seq<int>)
    ensures PairsValue(PowersOf(ds)) == DigitsValue(ds)
  {
    if |ds| > 0 {
      assert PowersOf(ds)[1..] == PowersOf(ds[1..]);
      PowersOfValue(ds[1..]);
    }
  }

  /** `_iter_digit_power(n)`: the (digit, power) pairs of `n`, most significant
      first. A negative `n` fails on its sign character with `ValueError`. */
  function DigitPowers(n: int): (r: Result<seq<(int, nat)>>)
    ensures r.Err? <==> n < 0
    ensures r.Err? ==> r.error == ValueError
    ensures r.Ok? ==> 1 <= |r.value| && r.value[0].1 == |r.value| - 1 && r.value[|r.value| - 1].1 == 0
    ensures r.Ok? ==> forall i :: 0 <= i < |r.value| ==> 0 <= r.value[i].0 <= 9
    ensures r.Ok? ==> forall i :: 0 < i < |r.value| ==> r.value[i - 1].1 == r.value[i].1 + 1
    ensures r.Ok? && |r.value| > 1 ==> r.value[0].0 != 0
    ensures r.Ok? ==> PairsValue(r.value) == n
  {
    if n < 0 then Err(ValueError)
    else
      var ds := DecimalDigits(n);
      PowersOfValue(ds);
      Ok(PowersOf(ds))
  }

  /** Encodes every pair in order and concatenates the substrings, as the list
      comprehension and `"".join` of `roman_encode` do; `EncodeAllOutcome`
      states what it returns. */
  function EncodeAll(ps: seq<(int, nat)>): Result<string>
  {
    if |ps| == 0 then Ok([])
    else
      var head :- EncodeDigit(ps[0].0, ps[0].1);
      var tail :- EncodeAll(ps[1..]);
      Ok(head + tail)
  }

  /** `EncodeAll` succeeds exactly when every pair encodes; otherwise the
      first pair that fails decides the error; a success is made of the seven
      letters only. */
  lemma {:induction false} EncodeAllOutcome(ps: seq<(int, nat)>)
    ensures EncodeAll(ps).Ok? <==> forall i :: 0 <= i < |ps| ==> EncodeDigit(ps[i].0, ps[i].1).Ok?
    ensures EncodeAll(ps).Err? ==>
              exists i :: 0 <= i < |ps| && EncodeDigit(ps[i].0, ps[i].1) == Err(EncodeAll(ps).error)
                          && forall j :: 0 <= j < i ==> EncodeDigit(ps[j].0, ps[j].1).Ok?
    ensures EncodeAll(ps).Ok? ==> AllLetters(EncodeAll(ps).value)
  {
    if |ps| > 0 {
      EncodeAllOutcome(ps[1..]);
      assert forall i :: 1 <= i < |ps| ==> ps[i] == ps[1..][i - 1];
      if EncodeDigit(ps[0].0, ps[0].1).Ok? && EncodeAll(ps[1..]).Err? {
        var i :| 0 <= i < |ps[1..]| && EncodeDigit(ps[1..][i].0, ps[1..][i].1) == Err(EncodeAll(ps[1..]).error)
                 && forall j :: 0 <= j < i ==> EncodeDigit(ps[1..][j].0, ps[1..][j].1).Ok?;
        assert EncodeDigit(ps[i + 1].0, ps[i + 1].1) == Err(EncodeAll(ps).error);
      }
    }
  }

  /** Python's `"".join(parts)`. */
  function Join(parts: seq<string>): string
  {
    if |parts| == 0 then [] else parts[0] + Join(parts[1..])
  }

  /** When every pair encodes, `EncodeAll` is the join of the pairs' numerals,
      in order. */
  lemma {:induction false} EncodeAllJoins(ps: seq<(int, nat)>, parts: seq<string>)
    requires |parts| == |ps|
    requires forall i :: 0 <= i < |ps| ==> EncodeDigit(ps[i].0, ps[i].1) == Ok(parts[i])
    ensures EncodeAll(ps) == Ok(Join(parts))
  {
    if |ps| > 0 {
      EncodeAllJoins(ps[1..], parts[1..]);
    }
  }

  /** `roman_encode(n)`. */
  function Encode(n: int): (r: Result<string>)
    ensures r == Err(ValueError) <==> n < 0
    ensures r.Ok? ==> AllLetters(r.value)
  {
    var ps :- DigitPowers(n);
    EncodeAllOutcome(ps);
    EncodeAll(ps)
  }

  /** A decimal digit string without a leading zero denotes at most 3999 exactly
      when it has at most three digits, or four with a leading digit up to 3. */
  lemma DigitsAtMost3999(ds: seq<int>)
    requires 1 <= |ds|
    requires forall i :: 0 <= i < |ds| ==> 0 <= ds[i] <= 9
    requires |ds| > 1 ==> ds[0] != 0
    ensures DigitsValue(ds) <= 3999 <==> |ds| <= 3 || (|ds| == 4 && ds[0] <= 3)
  {
    var k := |ds|;
    var p := Pow10(k - 1);
    var rest := DigitsValue(ds[1..]);
    assert DigitsValue(ds) == ds[0] * p + rest;
    DigitsValueBound(ds[1..]);
    MulDigitBound(ds[0], p);
    assert Pow10(3) == 1000 && Pow10(4) == 10000;
    if k <= 3 {
      Pow10Monotone(k, 3);
      DigitsValueBound(ds);
    } else if k == 4 {
      assert ds[0] * p == ds[0] * 1000;
    } else {
      Pow10Monotone(4, k - 1);
      MulDigitBound(ds[0] - 1, p);
      assert ds[0] * p == (ds[0] - 1) * p + p;
    }
  }

  /** The pairs of a digit string all encode exactly when the leading pair does,
      that is when there are at most three digits, or four with a leading digit up to 3. */
  lemma EncodeAllDigitsSucceedsIff(ds: seq<int>)
    requires 1 <= |ds|
    requires forall i :: 0 <= i < |ds| ==> 0 <= ds[i] <= 9
    ensures EncodeAll(PowersOf(ds)).Ok? <==> |ds| <= 3 || (|ds| == 4 && ds[0] <= 3)
  {
    var ps := PowersOf(ds);
    var k := |ds|;
    EncodeAllOutcome(ps);
    forall i | 0 <= i < k
      ensures EncodeDigit(ps[i].0, ps[i].1).Ok? <==> (k - i - 1 <= 2 || (k - i - 1 == 3 && ds[i] <= 3))
    {
      assert ps[i] == (ds[i], k - i - 1);
      EncodeDigitSucceedsIff(ps[i].0, ps[i].1);
    }
  }

  /** The decimal pairs of a natural number all encode exactly when it is at most 3999. */
  lemma DecimalDigitsEncodable(n: nat)
    ensures EncodeAll(PowersOf(DecimalDigits(n))).Ok? <==> n <= 3999
  {
    var ds := DecimalDigits(n);
    DigitsAtMost3999(ds);
    EncodeAllDigitsSucceedsIff(ds);
  }

  /** For a non-negative input, `roman_encode` encodes the pairs of its decimal digits. */
  lemma EncodeNonNegative(n: int)
    requires n >= 0
    ensures Encode(n) == EncodeAll(PowersOf(DecimalDigits(n)))
  {
    assert DigitPowers(n) == Ok(PowersOf(DecimalDigits(n)));
  }

  /** `roman_encode` succeeds exactly on 0..3999. */
  lemma EncodeSucceedsIff(n: int)
    ensures Encode(n).Ok? <==> 0 <= n <= 3999
  {
    if n >= 0 {
      EncodeNonNegative(n);
      DecimalDigitsEncodable(n);
    }
  }

  /** Outside 0..3999 the two failures are told apart: a negative input stops at
      its sign character with `ValueError`, while from 4000 on the leading digit
      needs a tier the table does not hold and fails with `KeyError`. */
  lemma EncodeOutOfRange(n: int)
    ensures n < 0 ==> Encode(n) == Err(ValueError)
    ensures n >= 4000 ==> Encode(n) == Err(KeyError)
  {
    if n >= 4000 {
      EncodeSucceedsIff(n);
      var r := Encode(n);
      assert r.Err? && r != Err(ValueError);
      assert r.error != ValueError;
      assert r == Err(KeyError);
    }
  }
}
