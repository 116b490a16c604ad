/**
 The CNPJ and CPF check-digit rules as the Receita Federal states them:
 fixed weight tables, a dot product and the modulo-11 digit rule. They are
 an independent reference for the weight formulas the validators compute
 per index, and the two source validators are proved against them.
 */
module Receita {
  import opened Checksum

  /** CNPJ, first check digit: the weights of the 12 payload digits. */
  const CnpjFirstWeights: seq<int> := [5, 4, 3, 2, 9, 8, 7, 6, 5, 4, 3, 2]
  /** CNPJ, second check digit: the weights of the 13 digits before it. */
  const CnpjSecondWeights: seq<int> := [6, 5, 4, 3, 2, 9, 8, 7, 6, 5, 4, 3, 2]
  /** CPF, first check digit: the weights of the 9 payload digits. */
  const CpfFirstWeights: seq<int> := [10, 9, 8, 7, 6, 5, 4, 3, 2]
  /** CPF, second check digit: the weights of the 10 digits before it. */
  const CpfSecondWeights: seq<int> := [11, 10, 9, 8, 7, 6, 5, 4, 3, 2]

  function FirstWeights(s: Scheme): seq<int> {
    if s.Cnpj? then CnpjFirstWeights else CpfFirstWeights
  }

  function SecondWeights(s: Scheme): seq<int> {
    if s.Cnpj? then CnpjSecondWeights else CpfSecondWeights
  }

  /** The weights the validator's formula gives to a payload of length `len`. */
  function Weights(s: Scheme, len: nat): (ws: seq<int>)
    ensures |ws| == len
  {
    seq(len, i requires 0 <= i < len => s.Weight(len, i))
  }

  /** The sum of products of corresponding elements. */
  function Dot(xs: seq<int>, ws: seq<int>): int
    requires |xs| == |ws|
  {
    if |xs| == 0 then 0 else xs[0] * ws[0] + Dot(xs[1..], ws[1..])
  }

  /** The published digit rule: 0 for remainders 0 and 1, else 11 minus the remainder. */
  function Mod11Digit(sum: int): int {
    var r := sum % 11;
    if r < 2 then 0 else 11 - r
  }

  /**
   A valid identifier: the right length and both check digits as the
   published tables and digit rule give them. The `!AllSame` conjunct is not
   part of the published rule; it is the validators' own uniqueness filter.
   */
  predicate Valid(s: Scheme, x: seq<Digit>) {
    var n := s.Size();
    && |x| == n
    && !AllSame(x)
    && x[n - 2] == Mod11Digit(Dot(x[..n - 2], FirstWeights(s)))
    && x[n - 1] == Mod11Digit(Dot(x[..n - 1], SecondWeights(s)))
  }

  /**
   The CNPJ formula `len - 7 - i` (plus 8 below 2) gives weights in 2..9
   for every index of a payload of up to 16 digits; in particular the
   wrap-around after weight 2 lands on 9, not 1.
   */
  lemma CnpjWeightRange(len: nat, i: nat)
    requires i < len <= 16
    ensures 2 <= Cnpj.Weight(len, i) <= 9
    ensures Cnpj.Weight(len, i) == 2 && i + 1 < len ==> Cnpj.Weight(len, i + 1) == 9
  {
  }

  /**
   The per-index formulas reproduce the published tables: CNPJ 5..2,9..2
   and 6..2,9..2; CPF 10..2 and 11..2.
   */
  lemma WeightTables(s: Scheme)
    ensures Weights(s, s.Size() - 2) == FirstWeights(s)
    ensures Weights(s, s.Size() - 1) == SecondWeights(s)
  {
  }

  /** Extending both sequences by one pair adds that pair's product. */
  lemma {:induction false} DotSnoc(xs: seq<int>, ws: seq<int>, x: int, w: int)
    requires |xs| == |ws|
    ensures Dot(xs + [x], ws + [w]) == Dot(xs, ws) + x * w
    decreases |xs|
  {
    if |xs| > 0 {
      assert (xs + [x])[1..] == xs[1..] + [x];
      assert (ws + [w])[1..] == ws[1..] + [w];
      DotSnoc(xs[1..], ws[1..], x, w);
    }
  }

  /** The dot product of concatenations is the sum of the parts' dot products. */
  lemma {:induction false} DotAppend(xs: seq<int>, ws: seq<int>, ys: seq<int>, vs: seq<int>)
    requires |xs| == |ws| && |ys| == |vs|
    ensures Dot(xs + ys, ws + vs) == Dot(xs, ws) + Dot(ys, vs)
    decreases |xs|
  {
    if |xs| > 0 {
      assert (xs + ys)[1..] == xs[1..] + ys;
      assert (ws + vs)[1..] == ws[1..] + vs;
      DotAppend(xs[1..], ws[1..], ys, vs);
    } else {
      assert xs + ys == ys && ws + vs == vs;
    }
  }

  /** The source's left fold equals the dot product with the formula's weights. */
  lemma {:induction false} PartialSumIsDot(s: Scheme, src: seq<Digit>, k: nat)
    requires k <= |src|
    ensures PartialSum(s, src, k) == Dot(src[..k], Weights(s, |src|)[..k])
  {
    if k > 0 {
      var ws := Weights(s, |src|);
      PartialSumIsDot(s, src, k - 1);
      assert src[..k] == src[..k - 1] + [src[k - 1]];
      assert ws[..k] == ws[..k - 1] + [ws[k - 1]];
      DotSnoc(src[..k - 1], ws[..k - 1], src[k - 1], ws[k - 1]);
    }
  }

  /** The weighted sum of a payload is its dot product with the published table. */
  lemma WeightedSumIsDot(s: Scheme, src: seq<Digit>)
    requires |src| == s.Size() - 2 || |src| == s.Size() - 1
    ensures |src| == s.Size() - 2 ==> WeightedSum(s, src) == Dot(src, FirstWeights(s))
    ensures |src| == s.Size() - 1 ==> WeightedSum(s, src) == Dot(src, SecondWeights(s))
  {
    var ws := Weights(s, |src|);
    PartialSumIsDot(s, src, |src|);
    assert src[..|src|] == src && ws[..|src|] == ws;
    WeightTables(s);
  }

  /** The validator's digit rule is the published one. */
  lemma CheckDigitIsMod11Digit(s: Scheme, sum: nat)
    ensures CheckDigit(s, sum) == Mod11Digit(sum)
  {
  }

  /** The validator accepts exactly the identifiers the published rules call valid. */
  lemma AcceptsIffValid(s: Scheme, x: seq<Digit>)
    ensures Accepts(s, x) <==> Valid(s, x)
  {
    AcceptsIff(s, x);
    var n := s.Size();
    if |x| == n {
      WeightedSumIsDot(s, x[..n - 2]);
      WeightedSumIsDot(s, x[..n - 1]);
      CheckDigitIsMod11Digit(s, WeightedSum(s, x[..n - 2]));
      CheckDigitIsMod11Digit(s, WeightedSum(s, x[..n - 1]));
    }
  }

  /** cnpjValidator: accepts exactly the CNPJ numbers valid under the published rules. */
  method CnpjValidator(cnpj: seq<Digit>) returns (ok: bool)
    ensures ok <==> Valid(Cnpj, cnpj)
  {
    ok := Validate(Cnpj, cnpj);
    AcceptsIffValid(Cnpj, cnpj);
  }

  /** cpfValidator: accepts exactly the CPF numbers valid under the published rules. */
  method CpfValidator(cpf: seq<Digit>) returns (ok: bool)
    ensures ok <==> Valid(Cpf, cpf)
  {
    ok := Validate(Cpf, cpf);
    AcceptsIffValid(Cpf, cpf);
  }

  /** The CPF 111.444.777-35: weighted sums 162 and 204 give check digits 3 and 5. */
  const SampleCpf: seq<Digit> := [1, 1, 1, 4, 4, 4, 7, 7, 7, 3, 5]

  /** The CNPJ 11.222.333/0001-81: weighted sums 102 and 120 give check digits 8 and 1. */
  const SampleCnpj: seq<Digit> := [1, 1, 2, 2, 2, 3, 3, 3, 0, 0, 0, 1, 8, 1]

  lemma SampleCpfAccepted()
    ensures WeightedSum(Cpf, SampleCpf[..9]) == 162
    ensures Accepts(Cpf, SampleCpf)
  {
    SampleCpfFirstSum();
    SampleCpfSecondSum();
    assert !AllSame(SampleCpf) by {
      assert SampleCpf[3] != SampleCpf[0];
    }
    assert Valid(Cpf, SampleCpf);
    AcceptsIffValid(Cpf, SampleCpf);
    WeightedSumIsDot(Cpf, SampleCpf[..9]);
  }

  lemma SampleCpfFirstSum()
    ensures Dot(SampleCpf[..9], CpfFirstWeights) == 162
  {
    assert SampleCpf[..9] == [1, 1, 1, 4] + [4, 4, 7, 7, 7];
    assert CpfFirstWeights == [10, 9, 8, 7] + [6, 5, 4, 3, 2];
    DotAppend([1, 1, 1, 4], [10, 9, 8, 7], [4, 4, 7, 7, 7], [6, 5, 4, 3, 2]);
    assert Dot([1, 1, 1, 4], [10, 9, 8, 7]) == 55;
    assert Dot([4, 4, 7, 7, 7], [6, 5, 4, 3, 2]) == 107;
  }

  lemma SampleCpfSecondSum()
    ensures Dot(SampleCpf[..10], CpfSecondWeights) == 204
  {
    assert SampleCpf[..10] == [1, 1, 1, 4, 4] + [4, 7, 7, 7, 3];
    assert CpfSecondWeights == [11, 10, 9, 8, 7] + [6, 5, 4, 3, 2];
    DotAppend([1, 1, 1, 4, 4], [11, 10, 9, 8, 7], [4, 7, 7, 7, 3], [6, 5, 4, 3, 2]);
    assert Dot([1, 1, 1, 4, 4], [11, 10, 9, 8, 7]) == 90;
    assert Dot([4, 7, 7, 7, 3], [6, 5, 4, 3, 2]) == 114;
  }

  lemma SampleCnpjAccepted()
    ensures Accepts(Cnpj, SampleCnpj)
  {
    SampleCnpjFirstSum();
    SampleCnpjSecondSum();
    assert !AllSame(SampleCnpj) by {
      assert SampleCnpj[2] != SampleCnpj[0];
    }
    assert Valid(Cnpj, SampleCnpj);
    AcceptsIffValid(Cnpj, SampleCnpj);
  }

  lemma SampleCnpjFirstSum()
    ensures Dot(SampleCnpj[..12], CnpjFirstWeights) == 102
  {
    assert SampleCnpj[..12] == [1, 1, 2, 2, 2, 3] + [3, 3, 0, 0, 0, 1];
    assert CnpjFirstWeights == [5, 4, 3, 2, 9, 8] + [7, 6, 5, 4, 3, 2];
    DotAppend([1, 1, 2, 2, 2, 3], [5, 4, 3, 2, 9, 8], [3, 3, 0, 0, 0, 1], [7, 6, 5, 4, 3, 2]);
    assert Dot([1, 1, 2, 2, 2, 3], [5, 4, 3, 2, 9, 8]) == 61;
    assert Dot([3, 3, 0, 0, 0, 1], [7, 6, 5, 4, 3, 2]) == 41;
  }

  lemma SampleCnpjSecondSum()
    ensures Dot(SampleCnpj[..13], CnpjSecondWeights) == 120
  {
    assert SampleCnpj[..13] == [1, 1, 2, 2, 2, 3] + [3, 3, 0, 0, 0, 1, 8];
    assert CnpjSecondWeights == [6, 5, 4, 3, 2, 9] + [8, 7, 6, 5, 4, 3, 2];
    DotAppend([1, 1, 2, 2, 2, 3], [6, 5, 4, 3, 2, 9], [3, 3, 0, 0, 0, 1, 8], [8, 7, 6, 5, 4, 3, 2]);
    assert Dot([1, 1, 2, 2, 2, 3], [6, 5, 4, 3, 2, 9]) == 56;
    assert Dot([3, 3, 0, 0, 0, 1, 8], [8, 7, 6, 5, 4, 3, 2]) == 64;
  }

  /** Changing any one digit of the sample CPF makes the validator reject it. */
  lemma SampleCpfOneDigitChanged(i: nat, d: Digit)
    requires i < |SampleCpf| && d != SampleCpf[i]
    ensures !Accepts(Cpf, SampleCpf[i := d])
  {
    SampleCpfAccepted();
    SingleErrorDetected(Cpf, SampleCpf, i, d);
  }
}
