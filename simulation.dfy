// The day-by-day balance simulation of the savings box (cofrinho.py:27-38).
// The running balance starts at the initial amount; on every day `dia` in
// 1..dias it first earns one day of yield and then, on days that are a
// multiple of 30, receives the monthly contribution. The stored series holds
// each day's balance rounded to cents, while the carried balance stays exact.
module Simulation {
  import opened Rounding

  /** Contributions arrive every this many days. */
  const Period: nat := 30

  /** The daily yield the script uses: 10.65% a year spread over 365 days. */
  const DailyRate: real := 0.1065 / 365.0

  /** One day of the loop body: compound first, then add the contribution on a multiple of 30. */
  function Step(saldo: real, dia: nat, aporteMensal: real, rendimentoDia: real): real {
    var compounded := saldo + saldo * rendimentoDia;
    if dia % Period == 0 then compounded + aporteMensal else compounded
  }

  /** The exact running balance `saldo` after `dia` days of the loop. */
  function Balance(valorInicial: real, aporteMensal: real, rendimentoDia: real, dia: nat): real
    decreases dia
  {
    if dia == 0 then valorInicial
    else Step(Balance(valorInicial, aporteMensal, rendimentoDia, dia - 1), dia, aporteMensal, rendimentoDia)
  }

  // ---------------------------------------------------------------------------
  // An independent closed form of the balance.

  /** `g` raised to the power `n`. */
  function Pow(g: real, n: nat): real {
    if n == 0 then 1.0 else g * Pow(g, n - 1)
  }

  /**
   * What one unit contributed on each of the days 30, 60, ..., 30*m has grown
   * to by day `dia`: the sum of g^(dia - 30k) for k in 1..m.
   */
  function Grown(g: real, dia: nat, m: nat): real
    requires Period * m <= dia
  {
    if m == 0 then 0.0 else Grown(g, dia, m - 1) + Pow(g, dia - Period * m)
  }

  /** The closed form: the initial amount compounded over all days plus each contribution compounded since it arrived. */
  function ClosedBalance(valorInicial: real, aporteMensal: real, rendimentoDia: real, dia: nat): real {
    var g := 1.0 + rendimentoDia;
    valorInicial * Pow(g, dia) + aporteMensal * Grown(g, dia, dia / Period)
  }

  /** One more day of compounding multiplies every grown contribution by `g`. */
  lemma {:induction false} GrownShift(g: real, dia: nat, m: nat)
    requires Period * m <= dia
    ensures Grown(g, dia, m) * g == Grown(g, dia + 1, m)
  {
    if m > 0 {
      GrownShift(g, dia, m - 1);
      assert Pow(g, dia + 1 - Period * m) == g * Pow(g, dia - Period * m);
    }
  }

  /** Compounding a balance made of two compounded parts by one more day. */
  lemma Regroup(prev: real, a: real, b: real, p: real, q: real, r: real)
    requires prev == a * p + b * q
    ensures prev + prev * r == a * ((1.0 + r) * p) + b * (q * (1.0 + r))
  {
    calc {
      prev + prev * r;
      (a * p + b * q) + (a * p + b * q) * r;
      a * p + b * q + a * p * r + b * q * r;
      a * (p + r * p) + b * (q + q * r);
      a * ((1.0 + r) * p) + b * (q * (1.0 + r));
    }
  }

  /** The division facts that decide whether a new contribution joins on day `dia`. */
  lemma ContributionCount(dia: nat)
    requires dia > 0
    ensures dia % Period == 0 ==> dia / Period == (dia - 1) / Period + 1
    ensures dia % Period != 0 ==> dia / Period == (dia - 1) / Period
  {
  }

  /** A day of compounding takes the closed form of day `d0` to day `d0 + 1`, before any contribution. */
  lemma ClosedCompound(valorInicial: real, aporteMensal: real, rendimentoDia: real, d0: nat)
    ensures ClosedBalance(valorInicial, aporteMensal, rendimentoDia, d0)
            + ClosedBalance(valorInicial, aporteMensal, rendimentoDia, d0) * rendimentoDia
         == valorInicial * Pow(1.0 + rendimentoDia, d0 + 1)
            + aporteMensal * Grown(1.0 + rendimentoDia, d0 + 1, d0 / Period)
  {
    var g := 1.0 + rendimentoDia;
    var m := d0 / Period;
    var p, q := Pow(g, d0), Grown(g, d0, m);
    GrownShift(g, d0, m);
    Regroup(ClosedBalance(valorInicial, aporteMensal, rendimentoDia, d0), valorInicial, aporteMensal, p, q, rendimentoDia);
    assert Pow(g, d0 + 1) == g * p;
  }

  /** The closed form obeys the loop body: one `Step` takes day `dia - 1` to day `dia`. */
  lemma ClosedStep(valorInicial: real, aporteMensal: real, rendimentoDia: real, dia: nat)
    requires dia > 0
    ensures ClosedBalance(valorInicial, aporteMensal, rendimentoDia, dia)
         == Step(ClosedBalance(valorInicial, aporteMensal, rendimentoDia, dia - 1), dia, aporteMensal, rendimentoDia)
  {
    var g := 1.0 + rendimentoDia;
    var d0: nat := dia - 1;
    var m := d0 / Period;
    ClosedCompound(valorInicial, aporteMensal, rendimentoDia, d0);
    ContributionCount(dia);
    if dia % Period == 0 {
      assert dia / Period == m + 1;
      var q := Grown(g, dia, m);
      assert Grown(g, dia, m + 1) == q + 1.0;
      assert aporteMensal * (q + 1.0) == aporteMensal * q + aporteMensal;
    } else {
      assert dia / Period == m;
    }
  }

  /**
   * The loop's balance equals the closed form: the running balance on day
   * `dia` holds exactly dia / 30 contributions, each compounded from the day
   * it arrived, on top of the compounded initial amount.
   */
  lemma {:induction false} BalanceClosedForm(valorInicial: real, aporteMensal: real, rendimentoDia: real, dia: nat)
    ensures Balance(valorInicial, aporteMensal, rendimentoDia, dia)
         == ClosedBalance(valorInicial, aporteMensal, rendimentoDia, dia)
  {
    if dia > 0 {
      BalanceClosedForm(valorInicial, aporteMensal, rendimentoDia, dia - 1);
      ClosedStep(valorInicial, aporteMensal, rendimentoDia, dia);
    }
  }

  /** Days 1..29 receive no contribution: until day 30 the balance is the initial amount compounded. */
  lemma NoContributionBeforeDay30(valorInicial: real, aporteMensal: real, rendimentoDia: real, dia: nat)
    requires dia < Period
    ensures Balance(valorInicial, aporteMensal, rendimentoDia, dia)
         == valorInicial * Pow(1.0 + rendimentoDia, dia)
  {
    BalanceClosedForm(valorInicial, aporteMensal, rendimentoDia, dia);
  }

  /** Without yield, the balance on day `dia` is the initial amount plus one contribution per completed 30 days. */
  lemma {:induction false} ZeroRateCountsContributions(valorInicial: real, aporteMensal: real, dia: nat)
    ensures Balance(valorInicial, aporteMensal, 0.0, dia)
         == valorInicial + aporteMensal * (dia / Period) as real
  {
    if dia > 0 {
      ZeroRateCountsContributions(valorInicial, aporteMensal, dia - 1);
      ContributionCount(dia);
      var prev := Balance(valorInicial, aporteMensal, 0.0, dia - 1);
      var k := ((dia - 1) / Period) as real;
      assert prev == valorInicial + aporteMensal * k;
      assert prev + prev * 0.0 == prev;
      if dia % Period == 0 {
        assert Balance(valorInicial, aporteMensal, 0.0, dia) == prev + aporteMensal;
        assert (dia / Period) as real == k + 1.0;
        assert aporteMensal * (dia / Period) as real == aporteMensal * k + aporteMensal;
      } else {
        assert Balance(valorInicial, aporteMensal, 0.0, dia) == prev;
        assert (dia / Period) as real == k;
      }
    }
  }

  /**
   * Day 30 both compounds day 29's balance and receives the whole
   * contribution, so its balance is exactly the contribution above the
   * balance a run without contributions reaches on day 30.
   */
  lemma Day30(valorInicial: real, aporteMensal: real, rendimentoDia: real)
    ensures Balance(valorInicial, aporteMensal, rendimentoDia, 30)
         == Balance(valorInicial, aporteMensal, rendimentoDia, 29) * (1.0 + rendimentoDia) + aporteMensal
    ensures Balance(valorInicial, aporteMensal, rendimentoDia, 30)
         == Balance(valorInicial, 0.0, rendimentoDia, 30) + aporteMensal
  {
    var g := 1.0 + rendimentoDia;
    BalanceClosedForm(valorInicial, aporteMensal, rendimentoDia, 30);
    BalanceClosedForm(valorInicial, 0.0, rendimentoDia, 30);
    assert Grown(g, 30, 1) == 1.0;
  }

  // ---------------------------------------------------------------------------
  // Monotonicity for non-negative inputs.

  /** With non-negative inputs the running balance is never negative. */
  lemma {:induction false} BalanceNonNegative(valorInicial: real, aporteMensal: real, rendimentoDia: real, dia: nat)
    requires valorInicial >= 0.0 && aporteMensal >= 0.0 && rendimentoDia >= 0.0
    ensures Balance(valorInicial, aporteMensal, rendimentoDia, dia) >= 0.0
  {
    if dia > 0 {
      BalanceNonNegative(valorInicial, aporteMensal, rendimentoDia, dia - 1);
      var prev := Balance(valorInicial, aporteMensal, rendimentoDia, dia - 1);
      assert prev * rendimentoDia >= 0.0;
    }
  }

  /** With non-negative inputs the running balance never decreases from one day to the next. */
  lemma BalanceStepNonDecreasing(valorInicial: real, aporteMensal: real, rendimentoDia: real, dia: nat)
    requires valorInicial >= 0.0 && aporteMensal >= 0.0 && rendimentoDia >= 0.0
    ensures Balance(valorInicial, aporteMensal, rendimentoDia, dia)
         <= Balance(valorInicial, aporteMensal, rendimentoDia, dia + 1)
  {
    BalanceNonNegative(valorInicial, aporteMensal, rendimentoDia, dia);
    var prev := Balance(valorInicial, aporteMensal, rendimentoDia, dia);
    assert prev * rendimentoDia >= 0.0;
  }

  /** With non-negative inputs a later running balance is never below an earlier one. */
  lemma {:induction false} BalanceMonotone(valorInicial: real, aporteMensal: real, rendimentoDia: real, i: nat, j: nat)
    requires valorInicial >= 0.0 && aporteMensal >= 0.0 && rendimentoDia >= 0.0
    requires i <= j
    ensures Balance(valorInicial, aporteMensal, rendimentoDia, i)
         <= Balance(valorInicial, aporteMensal, rendimentoDia, j)
    decreases j - i
  {
    if i < j {
      BalanceStepNonDecreasing(valorInicial, aporteMensal, rendimentoDia, i);
      BalanceMonotone(valorInicial, aporteMensal, rendimentoDia, i + 1, j);
    }
  }

  /** With non-negative inputs the stored, rounded series never decreases either. */
  lemma StoredMonotone(valorInicial: real, aporteMensal: real, rendimentoDia: real, i: nat, j: nat)
    requires valorInicial >= 0.0 && aporteMensal >= 0.0 && rendimentoDia >= 0.0
    requires i <= j
    ensures Round2(Balance(valorInicial, aporteMensal, rendimentoDia, i))
         <= Round2(Balance(valorInicial, aporteMensal, rendimentoDia, j))
  {
    BalanceMonotone(valorInicial, aporteMensal, rendimentoDia, i, j);
    Round2Monotone(Balance(valorInicial, aporteMensal, rendimentoDia, i),
                   Balance(valorInicial, aporteMensal, rendimentoDia, j));
  }

  // ---------------------------------------------------------------------------
  // The loop itself.

  /**
   * The simulation loop. Day `dia` appends the balance rounded to cents to
   * `saldos` and the day offset `dataAtual + dia` to `datas`; the carried
   * balance is never rounded.
   */
  method Simulate(valorInicial: real, aporteMensal: real, rendimentoDia: real, dias: nat, dataAtual: int)
    returns (saldos: seq<real>, datas: seq<int>)
    ensures |saldos| == dias && |datas| == dias
    ensures forall i :: 0 <= i < dias ==>
              saldos[i] == Round2(Balance(valorInicial, aporteMensal, rendimentoDia, i + 1))
    ensures forall i :: 0 <= i < dias ==> datas[i] == dataAtual + i + 1
    ensures forall i, j :: 0 <= i < j < dias ==> dataAtual < datas[i] < datas[j]
    ensures valorInicial >= 0.0 && aporteMensal >= 0.0 && rendimentoDia >= 0.0 ==>
              forall i, j :: 0 <= i <= j < dias ==> saldos[i] <= saldos[j]
  {
    saldos, datas := [], [];
    var saldo := valorInicial;
    var dia := 1;
    while dia <= dias
      invariant 1 <= dia <= dias + 1
      invariant |saldos| == dia - 1 && |datas| == dia - 1
      invariant saldo == Balance(valorInicial, aporteMensal, rendimentoDia, dia - 1)
      invariant forall i :: 0 <= i < dia - 1 ==>
                  saldos[i] == Round2(Balance(valorInicial, aporteMensal, rendimentoDia, i + 1))
      invariant forall i :: 0 <= i < dia - 1 ==> datas[i] == dataAtual + i + 1
    {
      ghost var before := saldo;
      saldo := saldo + saldo * rendimentoDia;
      if dia % Period == 0 {
        saldo := saldo + aporteMensal;
      }
      assert saldo == Step(before, dia, aporteMensal, rendimentoDia);
      assert saldo == Balance(valorInicial, aporteMensal, rendimentoDia, dia);
      saldos := saldos + [Round2(saldo)];
      datas := datas + [dataAtual + dia];
      dia := dia + 1;
    }
    if valorInicial >= 0.0 && aporteMensal >= 0.0 && rendimentoDia >= 0.0 {
      forall i, j | 0 <= i <= j < dias
        ensures saldos[i] <= saldos[j]
      {
        StoredMonotone(valorInicial, aporteMensal, rendimentoDia, i + 1, j + 1);
      }
    }
  }
}
