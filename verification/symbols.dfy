/** The bidirectional symbol table shared by the encoder and the decoder
    (`ROMAN_TO_DIGITS`, `DIGITS_TO_ROMAN` and the `reversed_pairs` helper). */
module Symbols {
  import opened Results

  /** The seven canonical Roman letters. */
  const Letters: set<char> := {'I', 'V', 'X', 'L', 'C', 'D', 'M'}

  /** Every character of the string is one of the seven letters. */
  predicate AllLetters(s: string)
  {
    forall i :: 0 <= i < |s| ==> s[i] in Letters
  }

  /** The values the seven letters stand for. */
  const Values: set<nat> := {1, 5, 10, 50, 100, 500, 1000}

  /** `reversed_pairs`: every pair with its two components swapped, in the same order. */
  function ReversedPairs<A, B>(pairs: seq<(A, B)>): (r: seq<(B, A)>)
    ensures |r| == |pairs|
    ensures forall i :: 0 <= i < |pairs| ==> r[i].0 == pairs[i].1 && r[i].1 == pairs[i].0
  {
    if |pairs| == 0 then []
    else [(pairs[0].1, pairs[0].0)] + ReversedPairs(pairs[1..])
  }

  /** Python's `dict(pairs)`, inserting the pairs in order into an empty dictionary. */
  function DictOf<K, V>(pairs: seq<(K, V)>): map<K, V>
  {
    if |pairs| == 0 then map[]
    else DictOf(pairs[..|pairs| - 1])[pairs[|pairs| - 1].0 := pairs[|pairs| - 1].1]
  }

  /** The keys of `dict(pairs)` are the first components, and when a key occurs
      more than once the last pair with that key wins. */
  lemma {:induction false} DictOfLastWins<K, V>(pairs: seq<(K, V)>)
    ensures DictOf(pairs).Keys == set i | 0 <= i < |pairs| :: pairs[i].0
    ensures forall i :: 0 <= i < |pairs| && (forall j :: i < j < |pairs| ==> pairs[j].0 != pairs[i].0)
                        ==> DictOf(pairs)[pairs[i].0] == pairs[i].1
  {
    if |pairs| > 0 {
      var front := pairs[..|pairs| - 1];
      DictOfLastWins(front);
      assert forall i :: 0 <= i < |front| ==> front[i] == pairs[i];
    }
  }

  /** The entries of the `ROMAN_TO_DIGITS` literal, in insertion order. */
  const RomanPairs: seq<(char, nat)> :=
    [('I', 1), ('V', 5), ('X', 10), ('L', 50), ('C', 100), ('D', 500), ('M', 1000)]

  /** `ROMAN_TO_DIGITS`: letter to value; `RomanTableContents` shows it is the
      dictionary of `RomanPairs`. */
  const RomanToDigits: map<char, nat> :=
    map['I' := 1, 'V' := 5, 'X' := 10, 'L' := 50, 'C' := 100, 'D' := 500, 'M' := 1000]

  /** `DIGITS_TO_ROMAN`: value to letter; `DigitsTableContents` shows it is what
      `dict(reversed_pairs(ROMAN_TO_DIGITS.items()))` builds. */
  const DigitsToRoman: map<nat, char> :=
    map[1 := 'I', 5 := 'V', 10 := 'X', 50 := 'L', 100 := 'C', 500 := 'D', 1000 := 'M']

  /** Building a dictionary from one more pair updates the smaller dictionary. */
  lemma DictOfSnoc<K, V>(pairs: seq<(K, V)>, k: nat)
    requires k < |pairs|
    ensures DictOf(pairs[..k + 1]) == DictOf(pairs[..k])[pairs[k].0 := pairs[k].1]
  {
    assert pairs[..k + 1][..k] == pairs[..k];
  }

  /** `ROMAN_TO_DIGITS` is the dictionary of its literal's items, in order. */
  lemma RomanTableContents()
    ensures DictOf(RomanPairs) == RomanToDigits
  {
    var p := RomanPairs;
    assert p[..0] == [] && p[..7] == p;
    DictOfSnoc(p, 0); DictOfSnoc(p, 1); DictOfSnoc(p, 2); DictOfSnoc(p, 3);
    DictOfSnoc(p, 4); DictOfSnoc(p, 5); DictOfSnoc(p, 6);
  }

  /** `DIGITS_TO_ROMAN` is the dictionary of the reversed items of
      `ROMAN_TO_DIGITS`, as `dict(reversed_pairs(ROMAN_TO_DIGITS.items()))`
      builds it. */
  lemma DigitsTableContents()
    ensures DictOf(ReversedPairs(RomanPairs)) == DigitsToRoman
  {
    var q := ReversedPairs(RomanPairs);
    assert q == [(1, 'I'), (5, 'V'), (10, 'X'), (50, 'L'), (100, 'C'), (500, 'D'), (1000, 'M')];
    assert q[..0] == [] && q[..7] == q;
    DictOfSnoc(q, 0); DictOfSnoc(q, 1); DictOfSnoc(q, 2); DictOfSnoc(q, 3);
    DictOfSnoc(q, 4); DictOfSnoc(q, 5); DictOfSnoc(q, 6);
  }

  /** With distinct keys, every pair is found in the dictionary, and every key
      of the dictionary comes from some pair. */
  lemma DictOfDistinct<K, V>(pairs: seq<(K, V)>, i: nat)
    requires forall a, b :: 0 <= a < b < |pairs| ==> pairs[a].0 != pairs[b].0
    requires i < |pairs|
    ensures pairs[i].0 in DictOf(pairs) && DictOf(pairs)[pairs[i].0] == pairs[i].1
  {
    DictOfLastWins(pairs);
    assert forall j :: i < j < |pairs| ==> pairs[j].0 != pairs[i].0;
  }

  /** When neither component repeats, the dictionary of the reversed pairs is
      the inverse of the dictionary of the pairs. */
  lemma DictOfReversedInverts<K, V>(pairs: seq<(K, V)>)
    requires forall i, j :: 0 <= i < j < |pairs| ==> pairs[i].0 != pairs[j].0 && pairs[i].1 != pairs[j].1
    ensures forall k :: k in DictOf(pairs) ==>
              DictOf(pairs)[k] in DictOf(ReversedPairs(pairs)) && DictOf(ReversedPairs(pairs))[DictOf(pairs)[k]] == k
    ensures forall v :: v in DictOf(ReversedPairs(pairs)) ==>
              DictOf(ReversedPairs(pairs))[v] in DictOf(pairs) && DictOf(pairs)[DictOf(ReversedPairs(pairs))[v]] == v
  {
    var rev := ReversedPairs(pairs);
    assert forall i, j :: 0 <= i < j < |rev| ==> rev[i].0 != rev[j].0;
    forall k | k in DictOf(pairs)
      ensures DictOf(pairs)[k] in DictOf(rev) && DictOf(rev)[DictOf(pairs)[k]] == k
    {
      DictOfLastWins(pairs);
      var i :| 0 <= i < |pairs| && pairs[i].0 == k;
      DictOfDistinct(pairs, i);
      DictOfDistinct(rev, i);
    }
    forall v | v in DictOf(rev)
      ensures DictOf(rev)[v] in DictOf(pairs) && DictOf(pairs)[DictOf(rev)[v]] == v
    {
      DictOfLastWins(rev);
      var i :| 0 <= i < |rev| && rev[i].0 == v;
      DictOfDistinct(pairs, i);
      DictOfDistinct(rev, i);
    }
  }

  /** `DIGITS_TO_ROMAN` is the exact inverse of `ROMAN_TO_DIGITS`: seven entries
      forming a bijection between the letters and the values. */
  lemma TableIsBijection()
    ensures RomanToDigits.Keys == Letters && DigitsToRoman.Keys == Values
    ensures forall c :: c in RomanToDigits ==> RomanToDigits[c] in DigitsToRoman && DigitsToRoman[RomanToDigits[c]] == c
    ensures forall v :: v in DigitsToRoman ==> DigitsToRoman[v] in RomanToDigits && RomanToDigits[DigitsToRoman[v]] == v
  {
    RomanTableContents();
    DigitsTableContents();
    RomanPairsDistinct();
    DictOfReversedInverts(RomanPairs);
  }

  /** No letter and no value occurs twice in the literal table. */
  lemma RomanPairsDistinct()
    ensures forall i, j :: 0 <= i < j < |RomanPairs| ==>
              RomanPairs[i].0 != RomanPairs[j].0 && RomanPairs[i].1 != RomanPairs[j].1
  {
  }

  /** Swapping the components twice gives back the original pairs. */
  lemma {:induction false} ReversedPairsInvolution<A, B>(pairs: seq<(A, B)>)
    ensures ReversedPairs(ReversedPairs(pairs)) == pairs
  {
    if |pairs| > 0 {
      ReversedPairsInvolution(pairs[1..]);
      assert ReversedPairs(pairs)[1..] == ReversedPairs(pairs[1..]);
    }
  }

  /** `DIGITS_TO_ROMAN[value]`: the letter for a value, or `KeyError`. */
  function Letter(value: nat): (r: Result<char>)
    ensures r.Ok? <==> value in Values
    ensures r.Ok? ==> r.value in Letters
    ensures r.Err? ==> r.error == KeyError
  {
    if value in DigitsToRoman then Ok(DigitsToRoman[value]) else Err(KeyError)
  }

  /** `ROMAN_TO_DIGITS[letter]`: the value of a letter, or `KeyError`. */
  function Value(letter: char): (r: Result<nat>)
    ensures r.Ok? <==> letter in Letters
    ensures r.Ok? ==> 1 <= r.value <= 1000
    ensures r.Err? ==> r.error == KeyError
  {
    if letter in RomanToDigits then Ok(RomanToDigits[letter]) else Err(KeyError)
  }

  /** The two lookups undo each other: a letter found for a value has that
      value, and a value found for a letter has that letter. */
  lemma LookupsInverse()
    ensures forall v: nat :: Letter(v).Ok? ==> Value(Letter(v).value) == Ok(v)
    ensures forall c: char :: Value(c).Ok? ==> Letter(Value(c).value) == Ok(c)
  {
    TableIsBijection();
  }
}
