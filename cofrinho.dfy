// One run of the savings-box simulator script (cofrinho.py): simulate the
// balance over `dias` days at the fixed daily yield, format the last stored
// balance in reais, and build the record offered for export.
module Cofrinho {
  import opened Rounding
  import opened Simulation
  import opened BrlFormat

  /**
   * The exported record `data_export`. Dates are day offsets from an epoch;
   * their text form `YYYY-MM-DD` is not part of this model.
   */
  datatype DataExport = DataExport(
    valorInicial: real,
    aporteMensal: real,
    dias: nat,
    resultados: seq<real>,
    datas: seq<int>)

  /**
   * The script from its inputs to its outputs. The inputs are bounded as the
   * widgets bound them: both amounts are at least zero and the number of days
   * is between 30 and 365. `hoje` is the day the script reads as today.
   * `saldoFinal` is the formatted last balance the script shows.
   */
  method RunScript(valorInicial: real, aporteMensal: real, dias: nat, hoje: int)
    returns (saldoFinal: seq<char>, dataExport: DataExport)
    requires valorInicial >= 0.0 && aporteMensal >= 0.0
    requires 30 <= dias <= 365
    ensures dataExport.valorInicial == valorInicial && dataExport.aporteMensal == aporteMensal
    ensures dataExport.dias == dias && |dataExport.resultados| == dias && |dataExport.datas| == dias
    ensures forall i :: 0 <= i < dias ==>
              dataExport.resultados[i] == Round2(Balance(valorInicial, aporteMensal, DailyRate, i + 1))
    ensures forall i :: 0 <= i < dias ==> dataExport.datas[i] == hoje + i + 1
    ensures forall i, j :: 0 <= i <= j < dias ==> dataExport.resultados[i] <= dataExport.resultados[j]
    ensures var c := RoundCents(Balance(valorInicial, aporteMensal, DailyRate, dias));
            c >= 0 && saldoFinal == FormatarBrl(c)
  {
    var saldos, datas := Simulate(valorInicial, aporteMensal, DailyRate, dias, hoje);
    var ultimo := saldos[|saldos| - 1];
    ghost var exact := Balance(valorInicial, aporteMensal, DailyRate, dias);
    BalanceNonNegative(valorInicial, aporteMensal, DailyRate, dias);
    RoundCentsNonNegative(exact);
    RoundCentsOfCents(RoundCents(exact));
    var cents := RoundCents(ultimo);
    saldoFinal := FormatarBrl(cents);
    dataExport := DataExport(valorInicial, aporteMensal, dias, saldos, datas);
  }
}
