/**
 * The answer check of `suggest_alternative` in scraper.py: the prompt repeats
 * while the answer is not all digits or names a number above the count of
 * alternatives. Console input is supplied as a sequence of answer lines.
 */
module Prompt {

  import opened Wrappers

  predicate AllDigits(s: string) {
    forall i :: 0 <= i < |s| ==> '0' <= s[i] <= '9'
  }

  /** `str.isdigit()` for ASCII input: non-empty and digits only. */
  predicate IsDigits(s: string) {
    |s| > 0 && AllDigits(s)
  }

  /** `int(s)` for a string of decimal digits (leading zeros allowed). */
  function DigitsValue(s: string): nat
    requires AllDigits(s)
  {
    if s == [] then 0
    else 10 * DigitsValue(s[..|s| - 1]) + (s[|s| - 1] as int - '0' as int)
  }

  /** The answer ends the re-prompt loop: `answer.isdigit() and int(answer) <= count`. */
  predicate Accepted(answer: string, count: nat) {
    IsDigits(answer) && DigitsValue(answer) <= count
  }

  /** The decimal numeral of `k`, as an operator would type it. */
  function Decimal(k: nat): (r: string)
    ensures IsDigits(r)
  {
    if k < 10 then [('0' as int + k) as char]
    else Decimal(k / 10) + [('0' as int + k % 10) as char]
  }

  lemma {:induction false} DecimalRoundTrip(k: nat)
    ensures DigitsValue(Decimal(k)) == k
  {
    if k >= 10 {
      DecimalRoundTrip(k / 10);
      var d := Decimal(k);
      assert d[..|d| - 1] == Decimal(k / 10);
    }
  }

  /**
   * The accepted choices are exactly 0 through `count`: an accepted answer
   * never names more, and each of those numbers typed plainly is accepted
   * and read back as itself.
   */
  lemma AcceptedChoicesAreZeroToCount(count: nat)
    ensures forall a :: Accepted(a, count) ==> 0 <= DigitsValue(a) <= count
    ensures forall k :: 0 <= k <= count ==> Accepted(Decimal(k), count) && DigitsValue(Decimal(k)) == k
  {
    forall k | 0 <= k <= count
      ensures Accepted(Decimal(k), count) && DigitsValue(Decimal(k)) == k
    {
      DecimalRoundTrip(k);
    }
  }

  /**
   * The position of the answer that ends the loop, when the loop has read
   * up to `from`; None when every later answer is rejected, that is, when
   * the input ends while the prompt is still waiting.
   */
  function FirstAccepted(answers: seq<string>, count: nat, from: nat): (r: Option<nat>)
    decreases |answers| - from
    ensures r.Some? ==> from <= r.value < |answers| && Accepted(answers[r.value], count)
    ensures r.Some? ==> forall j :: from <= j < r.value ==> !Accepted(answers[j], count)
    ensures r.None? <==> forall j :: from <= j < |answers| ==> !Accepted(answers[j], count)
  {
    if from >= |answers| then None
    else if Accepted(answers[from], count) then Some(from)
    else FirstAccepted(answers, count, from + 1)
  }
}
