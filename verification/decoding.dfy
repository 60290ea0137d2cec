/** The decoder, `roman_decode`: a left-to-right scan with one letter of lookahead. */
module Decoding {
  import opened Results
  import opened Symbols

  /** One iteration of the scan at the start of `t`: the amount it adds to the
      total and the number of letters it consumes. When the next letter is worth
      more than the current one the pair adds their difference and both are
      consumed; otherwise the current letter's value is added alone. A character
      outside the table fails with `KeyError`, whether it is the current letter
      or the lookahead. */
  function Step(t: string): (r: Result<(nat, nat)>)
    requires |t| > 0
    ensures r.Ok? ==> 1 <= r.value.0 <= 1000 && 1 <= r.value.1 <= |t| && r.value.1 <= 2
  {
    match Value(t[0])
    case Err(e) => Err(e)
    case Ok(current) =>
      match (if 1 < |t| then Value(t[1]) else Ok(0))
      case Err(e) => Err(e)
      case Ok(next) => if next > current then Ok((next - current, 2)) else Ok((current, 1))
  }

  /** Adds a running total to a decoded value, leaving a failure as it is. */
  function AddTotal(total: nat, r: Result<nat>): Result<nat>
  {
    match r
    case Ok(v) => Ok(total + v)
    case Err(e) => Err(e)
  }

  /** What `roman_decode(s)` returns, stated recursively: one step of the scan,
      then the rest of the string. */
  function Decode(s: string): Result<nat>
    decreases |s|
  {
    if |s| == 0 then Ok(0)
    else
      match Step(s)
      case Err(e) => Err(e)
      case Ok((amount, used)) => AddTotal(amount, Decode(s[used..]))
  }

  /** Decoding fails, always with `KeyError`, exactly when some character of the
      string is not one of the seven letters, including a bad character that is
      only ever read as the lookahead of a pair. */
  lemma {:induction false} DecodeFailsIff(s: string)
    ensures Decode(s).Err? <==> exists i :: 0 <= i < |s| && s[i] !in Letters
    ensures Decode(s).Err? ==> Decode(s).error == KeyError
    decreases |s|
  {
    if |s| > 0 {
      DecodeFailsIff(s[1..]);
      assert forall i :: 1 <= i < |s| ==> s[i] == s[1..][i - 1];
      if |s| > 1 {
        DecodeFailsIff(s[2..]);
        assert forall i :: 2 <= i < |s| ==> s[i] == s[2..][i - 2];
      }
    }
  }

  /** Every step adds between 1 and 1000 per letter it consumes, so a decoded
      total is positive for a non-empty string and at most 1000 per letter. */
  lemma {:induction false} DecodeBounds(s: string)
    ensures Decode(s).Ok? ==> Decode(s).value <= 1000 * |s|
    ensures Decode(s).Ok? ==> (Decode(s).value == 0 <==> |s| == 0)
    decreases |s|
  {
    if |s| > 0 {
      DecodeBounds(s[1..]);
      if |s| > 1 {
        DecodeBounds(s[2..]);
      }
    }
  }

  /** Adding two running totals one after the other adds their sum. */
  lemma AddTotalTwice(a: nat, b: nat, r: Result<nat>)
    ensures AddTotal(a, AddTotal(b, r)) == AddTotal(a + b, r)
  {
  }

  /** A letter followed by one worth more is read as a subtractive pair. */
  lemma StepPair(t: string, current: nat, next: nat)
    requires |t| > 1 && Value(t[0]) == Ok(current) && Value(t[1]) == Ok(next) && next > current
    ensures Step(t) == Ok((next - current, 2))
  {
  }

  /** A letter followed by nothing, or by one worth no more, is read alone. */
  lemma StepSingle(t: string, current: nat)
    requires |t| > 0 && Value(t[0]) == Ok(current)
    requires 1 < |t| ==> Value(t[1]).Ok? && Value(t[1]).value <= current
    ensures Step(t) == Ok((current, 1))
  {
  }

  /** Decoding a string whose first step is known: that step's amount is added
      to the decoding of what the step leaves, or the rest's failure is passed
      on. This is the one unfolding of `Decode` the proofs use; stating it for
      a known step keeps them from unfolding the lookups inside `Step`. */
  lemma DecodeStep(t: string, amount: nat, used: nat)
    requires |t| > 0 && Step(t) == Ok((amount, used))
    ensures Decode(t) == AddTotal(amount, Decode(t[used..]))
  {
  }

  /** A first step and a decoded rest make a decoded whole: `DecodeStep` for
      a rest that is known to decode, which is the form the round trip and
      the worked examples chain, one step after another. */
  lemma DecodeCons(t: string, amount: nat, used: nat, rest: nat)
    requires |t| > 0 && Step(t) == Ok((amount, used))
    requires Decode(t[used..]) == Ok(rest)
    ensures Decode(t) == Ok(amount + rest)
  {
    DecodeStep(t, amount, used);
  }

  /** When the first step of `a` stays inside `a`, decoding `a + b` takes that
      same step and continues with the rest of `a` followed by `b`. */
  lemma DecodeAppendStep(a: string, b: string, amount: nat, used: nat, rest: nat)
    requires |a| >= 2 && Step(a) == Ok((amount, used))
    requires Decode(a[used..] + b) == Ok(rest)
    ensures Decode(a + b) == Ok(amount + rest)
  {
    var ab := a + b;
    assert ab[0] == a[0] && ab[1] == a[1];
    assert ab[used..] == a[used..] + b;
    DecodeCons(ab, amount, used, rest);
  }

  /** An iteration of the loop below at `index` whose current letter or
      lookahead is not in the table: the whole decode fails with `KeyError`. */
  lemma ScanFails(s: string, integer: nat, index: nat)
    requires index < |s| && Decode(s) == AddTotal(integer, Decode(s[index..]))
    requires Value(s[index]).Err? || (index + 1 < |s| && Value(s[index + 1]).Err?)
    ensures Decode(s) == Err(KeyError)
  {
    var rest := s[index..];
    assert rest[0] == s[index];
    assert 1 < |rest| ==> rest[1] == s[index + 1];
    assert Step(rest) == Err(KeyError);
  }

  /** An iteration that reads a subtractive pair: the running total grows by
      the difference and the scan moves past both letters. */
  lemma ScanPair(s: string, integer: nat, index: nat, current: nat, next: nat)
    requires index + 1 < |s| && Decode(s) == AddTotal(integer, Decode(s[index..]))
    requires Value(s[index]) == Ok(current) && Value(s[index + 1]) == Ok(next) && next > current
    ensures Decode(s) == AddTotal(integer + (next - current), Decode(s[index + 2..]))
  {
    var rest := s[index..];
    assert rest[0] == s[index] && rest[1] == s[index + 1];
    StepPair(rest, current, next);
    assert rest[2..] == s[index + 2..];
    DecodeStep(rest, next - current, 2);
    AddTotalTwice(integer, next - current, Decode(rest[2..]));
  }

  /** An iteration that reads one letter alone, because there is no lookahead
      or it is worth no more: the running total grows by the letter's value
      and the scan moves past that letter. */
  lemma ScanSingle(s: string, integer: nat, index: nat, current: nat)
    requires index < |s| && Decode(s) == AddTotal(integer, Decode(s[index..]))
    requires Value(s[index]) == Ok(current)
    requires index + 1 < |s| ==> Value(s[index + 1]).Ok? && Value(s[index + 1]).value <= current
    ensures Decode(s) == AddTotal(integer + current, Decode(s[index + 1..]))
  {
    var rest := s[index..];
    assert rest[0] == s[index];
    assert 1 < |rest| ==> rest[1] == s[index + 1];
    assert rest[1..] == s[index + 1..];
    StepSingle(rest, current);
    DecodeStep(rest, current, 1);
    AddTotalTwice(integer, current, Decode(rest[1..]));
  }

  /** The `if` in the body of the `while` loop of `roman_decode`, once both
      lookups have succeeded: a lookahead worth more than the current letter
      forms a pair, which adds the difference and moves the index by two (the
      source bumps it once inside the branch and once at the end of the
      body); otherwise the current value is added and the index moves by one. */
  method Advance(s: string, integer: nat, index: nat, current: nat, next: nat)
    returns (integer': nat, index': nat)
    requires index < |s| && Decode(s) == AddTotal(integer, Decode(s[index..]))
    requires Value(s[index]) == Ok(current)
    requires if index + 1 < |s| then Value(s[index + 1]) == Ok(next) else next == 0
    ensures index < index' <= |s|
    ensures index' == if next > current then index + 2 else index + 1
    ensures integer' == if next > current then integer + (next - current) else integer + current
    ensures Decode(s) == AddTotal(integer', Decode(s[index'..]))
  {
    if next > current {
      ScanPair(s, integer, index, current, next);
      integer', index' := integer + (next - current), index + 2;
    } else {
      ScanSingle(s, integer, index, current);
      integer', index' := integer + current, index + 1;
    }
  }

  /** `roman_decode(s)` as the source writes it: a `while` loop over an index
      that looks up the current letter and the lookahead, stops with
      `KeyError` when either lookup fails, and otherwise takes the step
      `Advance` states. */
  method DecodeScan(s: string) returns (r: Result<nat>)
    ensures r == Decode(s)
  {
    var integer: nat := 0;
    var index := 0;
    while index < |s|
      invariant 0 <= index <= |s|
      invariant Decode(s) == AddTotal(integer, Decode(s[index..]))
      decreases |s| - index
    {
      var current := Value(s[index]);
      var next := if index + 1 < |s| then Value(s[index + 1]) else Ok(0);
      if current.Err? || next.Err? {
        ScanFails(s, integer, index);
        return Err(KeyError);
      }
      integer, index := Advance(s, integer, index, current.value, next.value);
    }
    return Ok(integer);
  }
}
