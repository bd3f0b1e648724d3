# Cofrinho savings simulator, modelled in Dafny

The original program is a single script, `cofrinho.py`. It simulates a savings box
("cofrinho") that earns the yield of 100% of the CDI rate, taken as 10.65% a year,
spread evenly over 365 days. It also receives a monthly contribution ("aporte
mensal") every 30 days. The script shows the final balance in Brazilian reais and
offers the day-by-day series for export.

This project models the script's logic and proves properties of it:

- `rounding.dfy` (module `Rounding`): `round(saldo, 2)` on exact reals, as
  rounding to the nearest cent with ties going to the even cent.
- `simulation.dfy` (module `Simulation`): the simulation loop. `Balance` is the
  exact running balance `saldo` after a given day. `Simulate` is the loop itself,
  a method with a `while` loop that appends to `saldos` and `datas`. The lemmas
  cover these properties:
  - the balance equals an independent closed form: the initial amount
    compounded daily, plus `dia / 30` contributions, each compounded from the
    day it arrived;
  - days 1..29 never receive a contribution;
  - day 30 both compounds and receives the whole contribution;
  - the running balance and the stored series never decrease when the inputs
    are non-negative.
- `brl_format.dfy` (module `BrlFormat`): `formatar_brl`. The US-style rendering
  `"{:,.2f}"` is built from a whole number of cents, and the three
  `str.replace` passes are modelled as functions on `seq<char>`. The lemmas
  cover these properties:
  - the three passes swap `,` and `.` exactly when the string has no `X`;
  - the result is the Brazilian rendering `R$ 1.234,56`;
  - the result's digits, read back, give exactly the cents formatted.
- `cofrinho.dfy` (module `Cofrinho`): one run of the script, from the inputs to
  the formatted final balance and the `data_export` record.

Policies the code fixes, stated here:

- The carried balance is never rounded. Only the stored copy is rounded, so
  compounding always works on the exact value. `Simulate` keeps
  `saldo == Balance(..)` as a loop invariant and stores `Round2(Balance(..))`.
- The program does not check its parameters. It relies on its input widgets:
  both amounts are at least 0.0, and the number of days is between 30 and 365.
  `RunScript` takes these bounds as preconditions. `Simulate` accepts any
  inputs, as the loop does.
- The import path only calls `json.load` and displays whatever it receives. It
  has no validation, error taxonomy or length check, so no decoder is modelled.
- Dates are whole-day offsets: entry `i` is the day `hoje + i + 1`, where
  `hoje` is the day read as today.

## Model

| member | source | states |
|---|---|---|
| Rounding.RoundCents | cofrinho.py:37 | the stored amount is a nearest whole number of cents to the exact balance (within half a cent), and an exact tie goes to the even cent |
| Rounding.Round2 | cofrinho.py:37 | `round(saldo, 2)`: the stored value is a whole number of cents (`RoundCents`) and lies within half a cent of the exact balance |
| Rounding.RoundCentsUnique | cofrinho.py:37 | any whole number of cents that is nearest under the ties-to-even rule is the one `RoundCents` returns, so the rounding is fully determined |
| Rounding.Round2Monotone | cofrinho.py:37 | rounding to two places never reverses the order of two amounts |
| Rounding.RoundCentsNonNegative | cofrinho.py:37 | a non-negative balance rounds to a non-negative number of cents |
| Rounding.RoundCentsOfCents | cofrinho.py:60 | rounding an amount that is already whole cents (the stored last balance, formatted at line 60) gives back the same cents |
| Rounding.Round2Idempotent | cofrinho.py:37 | rounding twice to two places is the same as rounding once |
| Simulation.Step | cofrinho.py:34-36 | one pass of the loop body as a function of the carried balance and the day number: one day of yield `saldo * rendimento_dia` first, then the contribution when the day is a multiple of 30; its meaning is stated by `ClosedStep`, `Day30` and `BalanceStepNonDecreasing` |
| Simulation.Balance | cofrinho.py:30-36 | the exact, never rounded `saldo` after `dia` passes of the loop, starting from `valor_inicial`; its meaning is stated by `BalanceClosedForm` and the monotonicity lemmas |
| Simulation.Simulate | cofrinho.py:27-38 | after the loop, `saldos` and `datas` each have `dias` entries; entry `i` of `saldos` is the exact balance of day `i + 1` rounded to cents; entry `i` of `datas` is `start + i + 1`, so the dates strictly increase and never include day 0; with non-negative inputs the stored series never decreases |
| Simulation.BalanceClosedForm | cofrinho.py:33-36 | the balance on day `dia` equals the initial amount times `(1 + rate)^dia`, plus one contribution for each multiple of 30 up to `dia`, each compounded from its day of arrival: compounding comes before the contribution, and a contribution arrives exactly on multiples of 30 |
| Simulation.ClosedStep | cofrinho.py:34-36 | the closed form satisfies the loop body: one day of compounding, then the contribution when the day is a multiple of 30 |
| Simulation.NoContributionBeforeDay30 | cofrinho.py:33-36 | on days 0..29 the balance is the initial amount compounded, whatever the contribution |
| Simulation.ZeroRateCountsContributions | cofrinho.py:35-36 | with zero yield, the balance on day `dia` is the initial amount plus exactly `dia / 30` contributions |
| Simulation.Day30 | cofrinho.py:34-36 | day 30's balance is day 29's balance times `(1 + rate)` plus the contribution, and it is exactly the contribution above the day-30 balance of a run without contributions |
| Simulation.BalanceNonNegative | cofrinho.py:30-36 | with a non-negative initial amount, contribution and rate, the running balance is never negative |
| Simulation.BalanceStepNonDecreasing | cofrinho.py:34-36 | with non-negative inputs, the running balance never decreases from one day to the next |
| Simulation.BalanceMonotone | cofrinho.py:33-36 | with non-negative inputs, a later running balance is never below an earlier one |
| Simulation.StoredMonotone | cofrinho.py:33-37 | with non-negative inputs, the stored rounded balances never decrease |
| BrlFormat.Grouped | cofrinho.py:8 | the `,`-grouped numeral of the `{:,}` format is non-empty, starts with a digit and holds only digits and the separator |
| BrlFormat.GroupedSeparators | cofrinho.py:8 | in the grouped numeral a character is the separator exactly when its distance from the right end is a multiple of four, i.e. groups of three digits counted from the right |
| BrlFormat.GroupedNoLeadingZero | cofrinho.py:8 | the grouped numeral of a positive number does not start with `0` |
| BrlFormat.UsFixed2 | cofrinho.py:8 | `f"{valor:,.2f}"` of an amount in cents: grouped reais, then the only `.`, the decimal point, followed by exactly two digits; everything before it is a digit or `,` |
| BrlFormat.ValueGrouped | cofrinho.py:8 | the grouped numeral, read without separators, denotes the number grouped |
| BrlFormat.Replace | cofrinho.py:8 | `str.replace` of one character keeps the length and changes exactly the occurrences of the old character into the new one |
| BrlFormat.ReplaceChain | cofrinho.py:8 | the three chained `replace` calls keep the length and map each character on its own: `,` and `X` become `.`, `.` becomes `,`, everything else is unchanged |
| BrlFormat.ReplaceChainSwapsIff | cofrinho.py:8 | the three replace passes through the placeholder `X` swap every `,` with `.` and leave everything else unchanged if and only if the string contains no `X` |
| BrlFormat.NoPlaceholder | cofrinho.py:8 | the US-style rendering with its `R$ ` prefix never contains the placeholder `X` |
| BrlFormat.SwapGrouped | cofrinho.py:8 | swapping separators turns the `,`-grouped numeral into the `.`-grouped one |
| BrlFormat.FormatarBrl | cofrinho.py:7-8 | `formatar_brl` of an amount in cents: the f-string `"R$ "` plus the US-style rendering, through the three replaces; the result is three characters longer than the US-style rendering and starts with `R$ ` |
| BrlFormat.FormatarBrlIsBrazilian | cofrinho.py:7-8 | `formatar_brl` equals the Brazilian rendering: `R$ `, the reais grouped by `.`, a decimal `,` and two digits of cents |
| BrlFormat.FormatarBrlShape | cofrinho.py:7-8 | the result starts with `R$ `, ends with `,` and exactly two digits, and that `,` is the only one in it |
| BrlFormat.FormatarBrlDenotesCents | cofrinho.py:7-8 | reading the digits of `formatar_brl(c)`, ignoring the currency symbol and both separators, gives back exactly `c` cents |
| BrlFormat.FormatarBrlInjective | cofrinho.py:7-8 | different amounts are never formatted alike |
| Cofrinho.RunScript | cofrinho.py:22-69 | for inputs within the widget bounds, the exported record `data_export` (the datatype `DataExport`, lines 63-69: the three inputs, `resultados` and `datas`) keeps the inputs and holds `dias` balances and `dias` dates; balance `i` is day `i + 1`'s exact balance at the fixed daily rate `0.1065/365`, rounded to cents; date `i` is `hoje + i + 1`; the balances never decrease; the message shows `formatar_brl` of the last balance, a non-negative number of cents |

## Left out

- The Streamlit page setup, input widgets, markdown, success message text and
  download and upload widgets (cofrinho.py:10-24, 57, 60, 71, 74-79). They are
  UI on an external framework. Only the bounds the widgets put on the inputs are
  kept, as preconditions of `RunScript`.
- The Plotly chart (cofrinho.py:41-56). It is rendering through a library.
- `json.dumps` and `json.load` (cofrinho.py:70, 77). They are library
  serialisation. The import path performs no validation, so there is nothing of
  it to model.
- `datetime.date.today()` (cofrinho.py:31). It reads the clock, so the day is
  the parameter `hoje`.
- Calendar arithmetic of `timedelta`, and `str(date)` producing the `YYYY-MM-DD`
  form of section 4.1.2.2 of ISO 8601:2004. Dates are integer day offsets
  instead.
- Binary floating point. Balances and the rate `0.1065/365` are exact reals.
  Python's `round` on binary floats is modelled as ties-to-even on exact values.
  A float that only looks like a tie may round differently in the program.
- BrlFormat.FormatarBrl: formats a non-negative whole number of cents, not a
  float. The script only formats a stored balance, which is already rounded to
  cents and is never negative. A negative amount's `-` sign is not modelled.
