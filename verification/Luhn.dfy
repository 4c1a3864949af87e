/** The Luhn check on card numbers (app/detectors/pii.py; Annex B of ISO/IEC 7812-1). */
module Luhn {

  /** A digit string as its digit values. */
  ghost predicate IsDigits(s: seq<nat>) {
    forall i :: 0 <= i < |s| ==> s[i] < 10
  }

  /** A doubled digit, reduced to its digit sum. */
  function Doubled(d: nat): nat {
    if 2 * d > 9 then 2 * d - 9 else 2 * d
  }

  /** What the digit at position `i` of a number of length `n` adds: every second one from the right is doubled. */
  function Weight(d: nat, i: nat, n: nat): nat {
    if i % 2 == n % 2 then Doubled(d) else d
  }

  function Sum(s: seq<nat>, n: nat): nat {
    if s == [] then 0 else Sum(s[..|s| - 1], n) + Weight(s[|s| - 1], |s| - 1, n)
  }

  predicate Valid(s: seq<nat>) {
    Sum(s, |s|) % 10 == 0
  }

  /** The check as the standard words it: from the right, every second digit is doubled, beginning with the one
      before the check digit, and the digits of all the products are added up. */
  function FromTheRight(s: seq<nat>, double: bool): nat {
    if s == [] then 0
    else
      var d := s[|s| - 1];
      (if double then 2 * d / 10 + 2 * d % 10 else d) + FromTheRight(s[..|s| - 1], !double)
  }

  /** The digits of the product are its tens and its units. */
  lemma ProductDigits(d: nat)
    requires d < 10
    ensures Doubled(d) == 2 * d / 10 + 2 * d % 10
  {
  }

  /** Counted from the right, the positions that share the parity of the length are every second one. */
  lemma FromRight(i: nat, n: nat)
    requires i < n
    ensures i % 2 == n % 2 <==> (n - (i + 1)) % 2 == 1
    ensures (n - i) % 2 == 1 <==> (n - (i + 1)) % 2 != 1
  {
  }

  lemma {:induction false} SumFromTheRight(s: seq<nat>, n: nat)
    requires IsDigits(s) && |s| <= n
    ensures Sum(s, n) == FromTheRight(s, (n - |s|) % 2 == 1)
  {
    hide Doubled;
    if s != [] {
      var before, d := s[..|s| - 1], s[|s| - 1];
      SumFromTheRight(before, n);
      FromRight(|s| - 1, n);
      ProductDigits(d);
      var double := (n - |s|) % 2 == 1;
      assert Sum(s, n) == Sum(before, n) + if double then 2 * d / 10 + 2 * d % 10 else d;
      assert FromTheRight(before, !double) == Sum(before, n);
    }
  }

  /** The parity of the positions gives the same sum, so the same verdict. */
  lemma ValidIsLuhn(s: seq<nat>)
    requires IsDigits(s)
    ensures Valid(s) <==> FromTheRight(s, false) % 10 == 0
  {
    SumFromTheRight(s, |s|);
  }

  method LuhnValid(digits: seq<nat>) returns (valid: bool)
    requires IsDigits(digits)
    ensures valid == Valid(digits) == (FromTheRight(digits, false) % 10 == 0)
  {
    var total := 0;
    var parity := |digits| % 2;
    for i := 0 to |digits|
      invariant total == Sum(digits[..i], |digits|)
    {
      assert digits[..i + 1][..i] == digits[..i];
      var d := digits[i];
      if i % 2 == parity {
        d := d * 2;
        if d > 9 {
          d := d - 9;
        }
      }
      total := total + d;
    }
    assert digits[..|digits|] == digits;
    valid := total % 10 == 0;
    ValidIsLuhn(digits);
  }

  /** Changing one digit changes the sum by the difference of the two weights. */
  lemma {:induction false} SumAfterChange(s: seq<nat>, k: nat, d: nat, n: nat)
    requires k < |s|
    ensures Sum(s[k := d], n) + Weight(s[k], k, n) == Sum(s, n) + Weight(d, k, n)
  {
    var t := s[k := d];
    if k < |s| - 1 {
      assert t[..|s| - 1] == s[..|s| - 1][k := d];
      SumAfterChange(s[..|s| - 1], k, d, n);
    } else {
      assert t[..|s| - 1] == s[..|s| - 1];
    }
  }

  lemma WeightsDiffer(a: nat, b: nat, k: nat, n: nat)
    requires a < 10 && b < 10
    ensures Weight(a, k, n) < 10 && Weight(b, k, n) < 10
    ensures Weight(a, k, n) == Weight(b, k, n) <==> a == b
  {
  }

  lemma SameResidue(x: nat, y: nat, a: nat, b: nat)
    requires x + a == y + b && a < 10 && b < 10 && y % 10 == 0
    ensures x % 10 == 0 <==> a == b
  {
  }

  /** A valid number stays valid under a change of one digit only if nothing changed. */
  lemma SingleChangeDetected(s: seq<nat>, k: nat, d: nat)
    requires IsDigits(s) && k < |s| && d < 10 && Valid(s)
    ensures Valid(s[k := d]) <==> d == s[k]
  {
    SumAfterChange(s, k, d, |s|);
    WeightsDiffer(s[k], d, k, |s|);
    SameResidue(Sum(s[k := d], |s|), Sum(s, |s|), Weight(s[k], k, |s|), Weight(d, k, |s|));
  }

  function Swapped(s: seq<nat>, k: nat): seq<nat>
    requires k + 1 < |s|
  {
    s[k := s[k + 1]][k + 1 := s[k]]
  }

  /** Swapping two adjacent digits of a valid number goes unnoticed exactly when they are equal, or 0 and 9. */
  lemma AdjacentSwapDetected(s: seq<nat>, k: nat)
    requires IsDigits(s) && k + 1 < |s| && Valid(s)
    ensures Valid(Swapped(s, k)) <==> s[k] == s[k + 1] || (s[k] == 0 && s[k + 1] == 9) || (s[k] == 9 && s[k + 1] == 0)
  {
    var n, a, b := |s|, s[k], s[k + 1];
    hide Sum, Weight;
    var mid := s[k := b];
    SumAfterChange(s, k, b, n);
    SumAfterChange(mid, k + 1, a, n);
    var before := Weight(a, k, n) + Weight(b, k + 1, n);
    var after := Weight(b, k, n) + Weight(a, k + 1, n);
    ShiftedResidue(Sum(Swapped(s, k), n), Sum(s, n), before, after);
    SwapResidue(a, b, k, n);
  }

  lemma ShiftedResidue(x: nat, y: nat, before: nat, after: nat)
    requires x + before == y + after && y % 10 == 0
    ensures x % 10 == 0 <==> (after - before) % 10 == 0
  {
    assert x == y + (after - before);
  }

  lemma SwapResidue(a: nat, b: nat, k: nat, n: nat)
    requires a < 10 && b < 10
    ensures var before, after := Weight(a, k, n) + Weight(b, k + 1, n), Weight(b, k, n) + Weight(a, k + 1, n);
            (after - before) % 10 == 0 <==> a == b || (a == 0 && b == 9) || (a == 9 && b == 0)
  {
    assert k % 2 != (k + 1) % 2;
  }
}
