/**
 The modulo-11 check-digit algorithm shared by the CNPJ (company) and CPF
 (person) validators of the Brazilian Receita Federal.

 Both validators parse the identifier into digits, reject the wrong length
 and degenerate input (fewer than two distinct digit values), then take the
 payload without its last two digits and grow it in a loop: each round
 appends the check digit derived from the weighted sum of the digits so far.
 The identifier is accepted when the grown array equals the input.

 The two source functions differ only in their constants and their weight
 rule, so they are modelled here as one algorithm parameterised by `Scheme`.
 */
module Checksum {

  /** A decimal digit, as `parseInt` yields it for one of the characters '0'..'9'. */
  type Digit = d: int | 0 <= d <= 9

  /** The two identifier schemes and the constants each source function declares. */
  datatype Scheme = Cnpj | Cpf {

    /** CNPJ_SIZE (14) or CPF_SIZE (11): the full length, check digits included. */
    function Size(): nat {
      if Cnpj? then 14 else 11
    }

    /** MOD (11) for CNPJ; the CPF validator reduces by CPF_SIZE itself. */
    function Modulus(): nat {
      if Cnpj? then 11 else Size()
    }

    /**
     The weight of the digit at index `i` of a payload of length `len`.
     CNPJ: `len - 7 - i`, plus 8 when that is below 2; CPF: `len + 1 - i`.
     Every digit that is actually in the payload gets a weight of at least 2.
     */
    function Weight(len: nat, i: nat): (w: int)
      ensures i < len ==> w >= 2
    {
      match this
      case Cnpj => if len - 7 - i < 2 then len - 7 - i + 8 else len - 7 - i
      case Cpf => len + 1 - i
    }
  }

  /**
   The check digit derived from a weighted sum: 0 when the sum leaves a
   remainder below 2, otherwise the amount that completes the sum to a
   multiple of the modulus. (The CNPJ code writes the literal 11 where the
   CPF code writes CPF_SIZE; both equal the scheme's modulus.)
   */
  function CheckDigit(s: Scheme, sum: nat): (d: Digit)
    ensures sum % 11 < 2 ==> d == 0
    ensures sum % 11 >= 2 ==> d != 0 && (sum + d) % 11 == 0
  {
    var r := sum % s.Modulus();
    if r < 2 then 0 else s.Modulus() - r
  }

  /**
   The accumulator of the `reduce` over `src` after its first `k` elements:
   each digit times the weight of its index, weights taken for the length
   of the whole array `src`.
   */
  function PartialSum(s: Scheme, src: seq<Digit>, k: nat): (p: nat)
    requires k <= |src|
    ensures p == 0 <==> forall i :: 0 <= i < k ==> src[i] == 0
  {
    if k == 0 then 0
    else PartialSum(s, src, k - 1) + src[k - 1] * s.Weight(|src|, k - 1)
  }

  /**
   The weighted sum SUM of the current payload. Every weight is positive,
   so the sum is zero exactly when every digit is.
   */
  function WeightedSum(s: Scheme, src: seq<Digit>): (sum: nat)
    ensures sum == 0 <==> forall i :: 0 <= i < |src| ==> src[i] == 0
  {
    PartialSum(s, src, |src|)
  }

  /** The digit one round of the loop pushes onto `valid`. */
  function NextCheckDigit(s: Scheme, valid: seq<Digit>): (d: Digit)
    ensures WeightedSum(s, valid) % 11 < 2 ==> d == 0
    ensures WeightedSum(s, valid) % 11 >= 2 ==> d != 0 && (WeightedSum(s, valid) + d) % 11 == 0
  {
    CheckDigit(s, WeightedSum(s, valid))
  }

  /**
   What the loop builds from `valid`: append check digits until the length
   reaches the scheme's size. The prefix is left as it was.
   */
  function Extend(s: Scheme, valid: seq<Digit>): (r: seq<Digit>)
    ensures |valid| <= s.Size() ==> |r| == s.Size()
    ensures |valid| <= |r| && r[..|valid|] == valid
    decreases s.Size() - |valid|
  {
    if |valid| >= s.Size() then valid
    else Extend(s, valid + [NextCheckDigit(s, valid)])
  }

  /**
   The first index of `x` in `xs`, or -1 when it does not occur
   (`Array.prototype.indexOf`).
   */
  function IndexOf(xs: seq<Digit>, x: Digit): (i: int)
    ensures -1 <= i < |xs|
    ensures 0 <= i ==> xs[i] == x && x !in xs[..i]
    ensures i == -1 ==> x !in xs
  {
    if |xs| == 0 then -1
    else if xs[0] == x then 0
    else
      var j := IndexOf(xs[1..], x);
      if j == -1 then -1
      else
        assert xs[..j + 1] == [xs[0]] + xs[1..][..j];
        j + 1
  }

  /**
   The `filter` that keeps the elements among the first `k` of `xs` whose
   first occurrence is their own index.
   */
  function FirstOccurrences(xs: seq<Digit>, k: nat): (r: seq<Digit>)
    requires k <= |xs|
    ensures forall i, j :: 0 <= i < j < |r| ==> r[i] != r[j]
    ensures forall x :: x in r <==> x in xs[..k]
  {
    if k == 0 then []
    else FirstOccurrences(xs, k - 1) + (if IndexOf(xs, xs[k - 1]) == k - 1 then [xs[k - 1]] else [])
  }

  /** The distinct values of `xs`, in order of first occurrence. */
  function Distinct(xs: seq<Digit>): (r: seq<Digit>)
    ensures forall i, j :: 0 <= i < j < |r| ==> r[i] != r[j]
    ensures forall x :: x in r <==> x in xs
  {
    assert xs[..|xs|] == xs;
    FirstOccurrences(xs, |xs|)
  }

  /** Every digit equals the first one: a degenerate identifier such as 00000000000. */
  predicate AllSame(xs: seq<Digit>) {
    forall i :: 0 <= i < |xs| ==> xs[i] == xs[0]
  }

  /**
   The verdict of the validator on the parsed digits `ar`: an accepted
   identifier has the scheme's length and is not degenerate.
   */
  predicate Accepts(s: Scheme, ar: seq<Digit>)
    ensures Accepts(s, ar) ==> |ar| == s.Size() && !AllSame(ar)
  {
    DistinctBelowTwoIffAllSame(ar);
    && |ar| == s.Size()
    && |Distinct(ar)| >= 2
    && Extend(s, ar[..|ar| - 2]) == ar
  }

  /**
   cnpjValidator / cpfValidator on digit input: the length and uniqueness
   checks, then the `while (valid.length < SIZE)` loop that pushes check
   digits, then the comparison of the grown array with the input.
   */
  method Validate(s: Scheme, ar: seq<Digit>) returns (ok: bool)
    ensures ok == Accepts(s, ar)
  {
    if |ar| != s.Size() || |Distinct(ar)| < 2 {
      return false;
    }
    var valid: seq<Digit> := ar[..|ar| - 2];
    ghost var rounds := 0;
    while |valid| < s.Size()
      invariant |ar| - 2 <= |valid| <= s.Size()
      invariant rounds == |valid| - (|ar| - 2)
      invariant Extend(s, valid) == Extend(s, ar[..|ar| - 2])
      decreases s.Size() - |valid|
    {
      var sum := WeightedSum(s, valid);
      if sum % s.Modulus() < 2 {
        valid := valid + [0];
      } else {
        valid := valid + [s.Modulus() - sum % s.Modulus()];
      }
      rounds := rounds + 1;
    }
    // the loop ran exactly twice
    assert rounds == 2;
    ok := ar == valid;
  }

  /* ---- The extension loop ---- */

  /**
   From a payload two digits short, the loop runs exactly two rounds: the
   result is the payload followed by its first check digit, then by the
   check digit of the payload extended with the first.
   */
  lemma ExtendFromPayload(s: Scheme, p: seq<Digit>)
    requires |p| == s.Size() - 2
    ensures Extend(s, p) == p + [NextCheckDigit(s, p), NextCheckDigit(s, p + [NextCheckDigit(s, p)])]
  {
    var d1 := NextCheckDigit(s, p);
    var d2 := NextCheckDigit(s, p + [d1]);
    calc {
      Extend(s, p);
      Extend(s, p + [d1]);
      Extend(s, p + [d1] + [d2]);
      { assert p + [d1] + [d2] == p + [d1, d2]; }
      p + [d1, d2];
    }
  }

  /* ---- The uniqueness check ---- */

  /** Looking at more elements never shrinks the filtered array. */
  lemma {:induction false} FirstOccurrencesGrow(xs: seq<Digit>, k1: nat, k2: nat)
    requires k1 <= k2 <= |xs|
    ensures |FirstOccurrences(xs, k1)| <= |FirstOccurrences(xs, k2)|
    decreases k2
  {
    if k1 < k2 {
      FirstOccurrencesGrow(xs, k1, k2 - 1);
    }
  }

  /** In a degenerate array only the element at index 0 passes the filter. */
  lemma {:induction false} FirstOccurrencesOfAllSame(xs: seq<Digit>, k: nat)
    requires AllSame(xs) && 1 <= k <= |xs|
    ensures |FirstOccurrences(xs, k)| == 1
  {
    if k > 1 {
      FirstOccurrencesOfAllSame(xs, k - 1);
      assert xs[0] == xs[k - 1];
      assert IndexOf(xs, xs[k - 1]) == 0;
    } else {
      assert IndexOf(xs, xs[0]) == 0;
    }
  }

  /**
   The uniqueness check `filter(...).length < 2` fails exactly on the
   degenerate arrays, whose digits are all the same.
   */
  lemma DistinctBelowTwoIffAllSame(xs: seq<Digit>)
    ensures |Distinct(xs)| < 2 <==> AllSame(xs)
  {
    if AllSame(xs) {
      if |xs| > 0 {
        FirstOccurrencesOfAllSame(xs, |xs|);
      }
    } else {
      var j :| 0 <= j < |xs| && xs[j] != xs[0];
      var r := Distinct(xs);
      assert xs[0] in r && xs[j] in r;
    }
  }

  /* ---- What acceptance means ---- */

  /**
   The validator accepts exactly the identifiers of the right length that
   are not degenerate and whose last two digits are the check digits of the
   digits before each of them.
   */
  lemma AcceptsIff(s: Scheme, ar: seq<Digit>)
    ensures Accepts(s, ar) <==>
      && |ar| == s.Size()
      && !AllSame(ar)
      && ar[s.Size() - 2] == NextCheckDigit(s, ar[..s.Size() - 2])
      && ar[s.Size() - 1] == NextCheckDigit(s, ar[..s.Size() - 1])
  {
    DistinctBelowTwoIffAllSame(ar);
    if |ar| == s.Size() {
      var n := s.Size();
      var p := ar[..n - 2];
      ExtendFromPayload(s, p);
      var d1 := NextCheckDigit(s, p);
      if ar[n - 2] == d1 {
        assert p + [d1] == ar[..n - 1];
      }
      if Extend(s, p) == ar {
        assert ar[n - 2] == d1;
      }
      assert ar == p + [ar[n - 2], ar[n - 1]];
    }
  }

  /** An all-equal identifier is rejected, whatever its check digits. */
  lemma DegenerateRejected(s: Scheme, ar: seq<Digit>)
    requires AllSame(ar)
    ensures !Accepts(s, ar)
  {
    DistinctBelowTwoIffAllSame(ar);
  }

  /**
   Round trip: appending the derived check digits to a payload gives an
   identifier the validator accepts unless it is degenerate; in particular
   every payload with two distinct digits completes to an accepted one.
   */
  lemma CompletionAccepted(s: Scheme, p: seq<Digit>)
    requires |p| == s.Size() - 2
    ensures Accepts(s, Extend(s, p)) <==> !AllSame(Extend(s, p))
    ensures !AllSame(p) ==> Accepts(s, Extend(s, p))
  {
    var x := Extend(s, p);
    DistinctBelowTwoIffAllSame(x);
    assert x[..|x| - 2] == p;
    if !AllSame(p) {
      var j :| 0 <= j < |p| && p[j] != p[0];
      assert x[j] == p[j] && x[0] == p[0];
    }
  }

  /**
   The 11-digit array of zeros satisfies the check-digit arithmetic, yet CPF
   rejects it: the uniqueness check is what turns it away.
   */
  lemma ZerosPassArithmeticButRejected()
    ensures Extend(Cpf, seq(9, _ => 0)) == seq(11, _ => 0)
    ensures !Accepts(Cpf, seq(11, _ => 0))
  {
    var p: seq<Digit> := seq(9, _ => 0);
    ExtendFromPayload(Cpf, p);
    assert WeightedSum(Cpf, p) == 0;
    assert WeightedSum(Cpf, p + [0]) == 0;
    assert p + [0, 0] == seq(11, _ => 0);
    DegenerateRejected(Cpf, seq(11, _ => 0));
  }

  /* ---- Error detection ---- */

  /**
   Changing the digit at index `i` from `src[i]` to `d` changes the weighted
   sum by the difference times that index's weight.
   */
  lemma {:induction false} PartialSumUpdate(s: Scheme, src: seq<Digit>, i: nat, d: Digit, k: nat)
    requires i < |src| && k <= |src|
    ensures PartialSum(s, src[i := d], k)
         == PartialSum(s, src, k) + (if i < k then (d - src[i]) * s.Weight(|src|, i) else 0)
  {
    if k > 0 {
      PartialSumUpdate(s, src, i, d, k - 1);
      var w := s.Weight(|src|, k - 1);
      var before := PartialSum(s, src[i := d], k - 1);
      assert PartialSum(s, src[i := d], k) == before + src[i := d][k - 1] * w;
      if i == k - 1 {
        assert before == PartialSum(s, src, k - 1);
        assert d * w == src[i] * w + (d - src[i]) * w;
      }
    }
  }

  /** WeightedSum is linear in each digit. */
  lemma WeightedSumUpdate(s: Scheme, src: seq<Digit>, i: nat, d: Digit)
    requires i < |src|
    ensures WeightedSum(s, src[i := d]) == WeightedSum(s, src) + (d - src[i]) * s.Weight(|src|, i)
  {
    PartialSumUpdate(s, src, i, d, |src|);
  }

  /** 11 is prime, so a non-zero digit difference times a weight in 2..10 is never a multiple of 11. */
  lemma ProductNotMultipleOfEleven(w: int, delta: int)
    requires 2 <= w <= 10 && -9 <= delta <= 9 && delta != 0
    ensures (w * delta) % 11 != 0
  {
    var m := w * delta;
    assert m == 11 * (m / 11) + m % 11;
  }

  /**
   The weights of the first round (payload length 12 for CNPJ, 9 for CPF)
   lie in 2..10.
   */
  lemma FirstRoundWeights(s: Scheme, i: nat)
    requires i < s.Size() - 2
    ensures 2 <= s.Weight(s.Size() - 2, i) <= 10
  {
  }

  /**
   Check digits from sums with a remainder of at least 2 are one-to-one:
   moving such a sum by a non-multiple of 11 changes its check digit.
   */
  lemma CheckDigitSeparates(s: Scheme, sum: nat, sum': nat)
    requires sum % 11 >= 2 && (sum' - sum) % 11 != 0
    ensures CheckDigit(s, sum') != CheckDigit(s, sum)
  {
    var q, q' := sum / 11, sum' / 11;
    assert sum == 11 * q + sum % 11 && sum' == 11 * q' + sum' % 11;
  }

  /**
   When the first weighted sum of an accepted identifier leaves a remainder
   of at least 2, changing any single digit makes the validator reject it.
   (When the remainder is 0 or 1 both collapse to check digit 0, and some
   single changes can go unnoticed.)
   */
  lemma SingleErrorDetected(s: Scheme, ar: seq<Digit>, i: nat, d: Digit)
    requires Accepts(s, ar)
    requires WeightedSum(s, ar[..s.Size() - 2]) % 11 >= 2
    requires i < |ar| && d != ar[i]
    ensures !Accepts(s, ar[i := d])
  {
    var n := s.Size();
    var ar' := ar[i := d];
    AcceptsIff(s, ar);
    AcceptsIff(s, ar');
    if i < n - 2 {
      var p := ar[..n - 2];
      assert ar'[..n - 2] == p[i := d];
      FirstRoundsChecksDiffer(s, p, i, d);
    } else if i == n - 2 {
      assert ar'[..n - 2] == ar[..n - 2];
    } else {
      assert ar'[..n - 1] == ar[..n - 1];
    }
  }

  /** The payload step of SingleErrorDetected: a changed payload digit changes the first check digit. */
  lemma FirstRoundsChecksDiffer(s: Scheme, p: seq<Digit>, i: nat, d: Digit)
    requires |p| == s.Size() - 2 && i < |p| && d != p[i]
    requires WeightedSum(s, p) % 11 >= 2
    ensures NextCheckDigit(s, p[i := d]) != NextCheckDigit(s, p)
  {
    var w := s.Weight(|p|, i);
    var delta := d - p[i];
    WeightedSumUpdate(s, p, i, d);
    FirstRoundWeights(s, i);
    ProductNotMultipleOfEleven(w, delta);
    var sum: int, sum': int := WeightedSum(s, p), WeightedSum(s, p[i := d]);
    assert sum' - sum == delta * w == w * delta;
    CheckDigitSeparates(s, sum, sum');
  }
}
