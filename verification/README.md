# Roman numeral codec, modelled in Dafny

A model of `roman_utils.py`, a small codec between non-negative integers and
Roman numerals, and of what its tests in `test_roman.py` promise about it.

- `Results` (`results.dfy`): the two Python exceptions the code can raise,
  `ValueError` and `KeyError`, and a `Result` type that carries either a value
  or one of them.
- `Symbols` (`symbols.dfy`): the table `ROMAN_TO_DIGITS`, the helper
  `reversed_pairs` and the inverse table `DIGITS_TO_ROMAN`. Python's
  `dict(pairs)` is modelled as `DictOf`, which inserts the pairs in order so
  that the last pair with a key wins. The two tables are written as map
  literals, and two lemmas show that they are what the dictionary
  constructions build. `Letter` and `Value` model the lookups
  `DIGITS_TO_ROMAN[value]` and `ROMAN_TO_DIGITS[letter]`; a missing key is
  `KeyError`.
- `Encoding` (`encoding.dfy`): `_encode_roman_digit` (`EncodeDigit`), with
  each tier looked up only on the branch that uses it, as the source's lazy
  lambdas do. `Pow10` is the `10**power` it computes for a tier (line 27 of
  `roman_utils.py`), and `Repeat` is the string repetition `letter * count`.
  `_iter_digit_power` is `DigitPowers`: the decimal digits are computed by
  division by ten, and a negative number fails with `ValueError`, which is
  where `int('-')` stops the source. The list comprehension is `EncodeAll`,
  which stops at the first pair that fails.
  `''.join` is `Join`, and `roman_encode` is `Encode`.
- `Decoding` (`decoding.dfy`): `roman_decode` is stated twice. `Decode` is a
  recursive specification: one step of the scan, then the rest.
  `DecodeScan` is the source's `while` loop over an index, and it is proved
  equal to `Decode` on every string. The `if` in its body that picks a pair
  or a single letter is the method `Advance`.
- `RoundTrip` (`roundtrip.dfy`): decoding the numeral of every number the
  encoder accepts gives the number back. The encoder accepts exactly
  0..3999.
- `Examples` (`examples.dfy`): the concrete cases in `test_roman.py`,
  worked out on the model.

The code raises only two exception classes. A negative input and a digit
outside 0..9 give `ValueError`; a missing tier and an unknown letter give
`KeyError`. A negative input is not rejected by an up-front check: it fails
when the sign character is parsed as a digit. The model keeps both
behaviours.

## Model

| member | source | states |
|---|---|---|
| `Symbols.ReversedPairs` | roman_utils.py:10 | the result has as many pairs as the input, and each pair is the input's pair at the same position with its two components swapped |
| `Symbols.ReversedPairsInvolution` | roman_utils.py:10 | reversing the pairs twice gives back the original list |
| `Symbols.DictOfLastWins` | roman_utils.py:13-23 | the keys of `dict(pairs)` are exactly the first components; a key's entry is the second component of the last pair with that key |
| `Symbols.RomanTableContents` | roman_utils.py:13-21 | the dictionary built from the seven literal entries, in order, maps I, V, X, L, C, D, M to 1, 5, 10, 50, 100, 500, 1000 and nothing else |
| `Symbols.DigitsTableContents` | roman_utils.py:23 | `dict(reversed_pairs(ROMAN_TO_DIGITS.items()))` maps 1, 5, 10, 50, 100, 500, 1000 back to the seven letters and nothing else |
| `Symbols.DictOfReversedInverts` | roman_utils.py:10-23 | when neither component repeats, the dictionary of the reversed pairs is the inverse of the dictionary of the pairs, in both directions |
| `Symbols.TableIsBijection` | roman_utils.py:13-23 | the letter table has exactly the seven letters as keys, the value table has exactly the seven values, and each table undoes the other |
| `Symbols.Letter` | roman_utils.py:28-30 | a value lookup succeeds exactly on the seven values and then gives one of the seven letters; otherwise it raises `KeyError` |
| `Symbols.Value` | roman_utils.py:70-72 | a letter lookup succeeds exactly on the seven letters and then gives a value in 1..1000; any other character raises `KeyError` |
| `Symbols.LookupsInverse` | roman_utils.py:23 | the letter found for a value has that value, and the value found for a letter has that letter |
| `Encoding.Repeat` | roman_utils.py:33 | `letter * count` has length `count`, and every character is `letter` |
| `Encoding.EncodeDigit` | roman_utils.py:26-43 | `ValueError` exactly for a digit outside 0..9, whatever the power. A success has at most four letters, is empty for digit 0, and uses only letters worth `10**power`, `5 * 10**power` or `10**(power + 1)` |
| `Encoding.TierLookup` | roman_utils.py:27-30 | the current tier is in the table exactly for powers up to 3; the middle and next tiers only up to power 2 |
| `Encoding.EncodeDigitSucceedsIff` | roman_utils.py:28-43 | a digit encodes exactly when it is in 0..9 and every tier its branch looks up is tabulated: any digit below the thousands, only 0..3 at the thousands. The power-4 digit 0 fails too. For digits in 0..9 the failure is `KeyError` |
| `Encoding.DecimalDigits` | roman_utils.py:47-48 | the digits of `str(n)`: at least one, each in 0..9, no leading zero unless the number is 0, and together they denote `n` |
| `Encoding.PowersOfValue` | roman_utils.py:48-50 | pairing each digit with `len - index - 1` keeps the value: the sum of `digit * 10**power` equals the number the digits denote |
| `Encoding.DigitPowers` | roman_utils.py:46-50 | `ValueError` exactly for a negative number. Otherwise the pairs have digits in 0..9, powers descending by one from `count - 1` to 0, no leading zero digit, and `digit * 10**power` sums to `n` |
| `Encoding.EncodeAllOutcome` | roman_utils.py:57-59 | the comprehension succeeds exactly when every pair encodes. On failure, the error is that of the first failing pair, and every pair before it encodes. A success uses only the seven letters |
| `Encoding.EncodeAllJoins` | roman_utils.py:57-59 | when every pair encodes, the result is the join of the pairs' numerals, in order |
| `Encoding.Encode` | roman_utils.py:53-59 | `ValueError` exactly for a negative input; a success uses only the seven letters |
| `Encoding.EncodeSucceedsIff` | roman_utils.py:53-59 | `roman_encode(n)` succeeds exactly for 0 <= n <= 3999 |
| `Encoding.EncodeOutOfRange` | roman_utils.py:26-59 | a negative input fails with `ValueError`; every input from 4000 on fails with `KeyError` |
| `Decoding.Step` | roman_utils.py:69-80 | one iteration adds between 1 and 1000 and consumes one or two letters, never more than remain |
| `Decoding.StepPair` | roman_utils.py:71-76 | a letter followed by one worth more is consumed as a pair, adding the difference |
| `Decoding.StepSingle` | roman_utils.py:71-80 | a letter with no lookahead, or with one worth no more, is consumed alone, adding its value |
| `Decoding.DecodeFailsIff` | roman_utils.py:69-72 | decoding fails exactly when some character is not one of the seven letters, including a character that is only ever read as a lookahead; the failure is `KeyError` |
| `Decoding.DecodeBounds` | roman_utils.py:66-81 | a decoded total is at most 1000 per letter, and it is 0 exactly for the empty string |
| `Decoding.Advance` | roman_utils.py:74-80 | once both lookups succeed, a lookahead worth more than the current letter moves the index by two and adds the difference, otherwise the index moves by one and the current value is added; the index never passes the end, and the pass keeps the scan's invariant: the final result is the running total plus the decoding of the letters not yet read |
| `Decoding.DecodeScan` | roman_utils.py:62-81 | the `while` loop returns what the recursive specification `Decode` returns, for every string, a failing lookup included |
| `RoundTrip.DecodeRepeat` | roman_utils.py:74-80 | a run of one letter decodes to the run's length times the letter's value, because equal neighbours never form a pair |
| `RoundTrip.DecodeConcat` | roman_utils.py:66-81 | two strings of letters decode, and their concatenation decodes to the sum, when the first letter after the seam is worth no more than the last letter before it |
| `RoundTrip.DigitRoundTrip` | roman_utils.py:26-43 | the numeral of a digit decodes to `digit * 10**power`. It starts with a letter worth at most `5 * 10**power` and ends with one worth at least `10**power` |
| `RoundTrip.EncodeAllRoundTrip` | roman_utils.py:57-59 | the joined numerals of pairs with consecutive descending powers use only the seven letters and decode to the sum of `digit * 10**power` |
| `RoundTrip.RoundTrip` | roman_utils.py:53-81 | every n in 0..3999 encodes, and whatever encodes decodes back to the number it came from |
| `Examples.EncodeTableValues` | test_roman.py:15-25 | 1, 5, 10, 50, 100, 500 and 1000 encode to I, V, X, L, C, D and M |
| `Examples.EncodeYears` | test_roman.py:15-25 | 1954 encodes to MCMLIV and 1990 to MCMXC |
| `Examples.EncodeZero` | roman_utils.py:32-33 | 0 encodes to the empty string |
| `Examples.EncodeFailures` | test_roman.py:37-50 | -1 fails with `ValueError`. 1000, which the tests treat as unsupported, encodes to M. 3999 encodes, and 4000 fails with `KeyError` |
| `Examples.DecodeTableValues` | test_roman.py:28-34 | each of the seven letters alone decodes to its value |
| `Examples.Decode1954` | test_roman.py:28-34 | MCMLIV decodes to 1954 |
| `Examples.Decode1990` | test_roman.py:28-34 | MCMXC decodes to 1990 |
| `Examples.DecodePermissive` | roman_utils.py:66-81 | the non-canonical IIII decodes to 4, and the empty string decodes to 0 |
| `Examples.DecodeIllegal` | test_roman.py:53-59 | `a`, `IV9` and `CM<` each fail with `KeyError` |

## Left out

- Powers are natural numbers. `_encode_roman_digit` is only ever called with
  the non-negative powers that `_iter_digit_power` yields. A negative power
  would give a float `10**power`, and the model does not cover it.
- EncodeOutOfRange, Encode, DigitPowers: `EncodeOutOfRange` states
  `KeyError` for every input from 4000 on, and `Encode` and `DigitPowers`
  state `ValueError` exactly for a negative input. Python 3.11 and later
  raise `ValueError` from `str()` first for integers of more than 4300
  digits, whatever their sign. That interpreter limit is runtime configuration, not
  logic of the codec.
- Dynamic typing: the model does not cover arguments that are bools, floats
  or non-strings.
- Exception message text: only the exception class is modelled.
- Python runtime mechanics are modelled by their results, not their
  mechanics: `str`/`int` on digits become arithmetic on naturals,
  `map`/`enumerate` and generator laziness become a sequence of pairs, and
  `''.join` becomes `Join`. The order in which the lazy pipeline raises is
  kept: a negative input fails before any digit is encoded, and otherwise
  the first pair that fails decides the error.
- The pytest scaffolding (parametrisation, assertion messages, `try`/`except`)
  is used only as a source of examples. Its `try`/`except` tests pass even
  when nothing is raised.
