# Coreum multi-send balance changes

This project models `calculate_balance_changes` in `coreum/src/main.rs`. The
function takes three things:

- the original balances;
- the denomination definitions (an issuer, a burn rate and a commission rate per
  denomination);
- a multi-send transaction, which is a list of input balances and a list of
  output balances.

It returns either a list of balance changes or an error. It works in four
stages. Each loop of the source before the output loop at lines 117-131 is a
Dafny method, and the modules group the stages as the table shows:

- `BuildHoldings`, `BuildDefinitions`, `ValidateInputs`, `TotalOutputs` and
  `ComputeDebits` are each proved equal to a recursive specification function.
- `FindMismatch` states its property directly: what a returned denomination
  satisfies, and that none qualifies when it returns nothing.

| stage | source lines | Dafny |
|---|---|---|
| lookup tables `balance_map` / `definition_map` | 34-46 | `Indexes` (`indexes.dfy`) |
| input scan: checks and the non-issuer input sum | 48-72 | `Validation` (`validation.dfy`) |
| output totals and the mismatch check | 73-83 | `Validation` |
| debit list, with proportional fee shares | 85-116 | `DebitList` (`debits.dfy`), `FeeShares` (`fees.dfy`) |

Two more modules complete the project:

- `MultiSendTypes` (`types.dfy`) holds the records (lines 3-27), the error values
  and the flattened list of input pairs (address, coin) that the specifications
  range over. That list is in the same order as the nested loops.
- `BalanceChanges` (`balance_changes.dfy`) holds the whole call and the
  end-to-end properties.

The model follows the code as written:

- Every input coin is checked against the original holding alone. Earlier
  input coins never draw the holding down.
- An input coin whose sender, or whose denomination, is missing from the
  original balances is passed over silently.
- `input_total` and `non_issuer_input_sum` are updated in the same branch, so
  they are always equal, and issuer inputs are not counted in either.
- `output_total` counts every output, the issuer's included.
- The result holds one balance per input balance, and only debits. Coins without
  a definition are dropped. The loop over the outputs only changes the local
  `balance_map`, which is thrown away: receivers and the issuer's commission
  never appear in the result.

The code does not check that a sender can pay the fees on top of the amount.
It does not credit receivers or the issuer, and it does not net changes per
address and denomination. Its output total also counts the issuer's outputs.

The outcome of a call is `Success(changes)`, `Failure(error)` or `Panic`:

- `Panic` stands for an `unwrap` on a missing key (lines 91, 95, 98, 102, 105,
  109). Callers are not required to rule it out.
- Each error is a value naming the same address and denomination as the source's
  message (lines 64, 67, 81).

The mismatch loop visits a `HashMap` in an unspecified order. `FindMismatch`
therefore picks any pending denomination, and the specification `Admits`
accepts any mismatching denomination.

## Model

| member | source | states |
|---|---|---|
| MultiSendTypes.AddCoin | coreum/src/main.rs:58-61 | `entry(d).or_insert(0) += amount`: the key set gains `d`, the value of `d` grows by the amount (from 0 when absent), and every other value is unchanged |
| Indexes.BuildHoldings | coreum/src/main.rs:34-41 | the nested loops build exactly `HoldingsIndex` of the original balances |
| Indexes.BuildDefinitions | coreum/src/main.rs:43-46 | the loop builds exactly `DefinitionIndex` of the definitions |
| Indexes.CoinIndexKeys | coreum/src/main.rs:36-39 | a denomination has a held amount exactly when some coin of the balance carries it |
| Indexes.CoinIndexLastWins | coreum/src/main.rs:36-39 | the last coin of a denomination in a balance gives the held amount |
| Indexes.HoldingsIndexKeys | coreum/src/main.rs:35-41 | an address is in the holdings exactly when some original balance carries it |
| Indexes.HoldingsIndexLastWins | coreum/src/main.rs:35-41 | the last balance of an address replaces every earlier one as a whole, with no merging |
| Indexes.DefinitionIndexKeys | coreum/src/main.rs:43-46 | a denomination is defined exactly when some definition names it |
| Indexes.DefinitionIndexLastWins | coreum/src/main.rs:43-46 | the last definition of a denomination is the one in force |
| Indexes.DefinitionIndexValues | coreum/src/main.rs:43-46 | every definition in force is one of the given definitions |
| Validation.ValidateInputs | coreum/src/main.rs:48-72 | the nested scan returns the first error of `Validate`, or its non-issuer sums; on success `input_total` equals `non_issuer_input_sum`. `Validate` folds `EntryError` (one coin's checks, lines 53-68) and adds the coins that `Counted` accepts (lines 56-62) |
| Validation.ValidateStep | coreum/src/main.rs:51-62 | one more coin, with the checks in the source's order: a coin whose sender or denomination is not held changes nothing; a short holding or an undefined denomination ends the scan with its error; otherwise a non-issuer's coin is added to the sums and an issuer's is not |
| Validation.ValidateOkIffAllPass | coreum/src/main.rs:51-72 | the scan succeeds if and only if every input coin passes its own check (`EntryError`, lines 53-68) |
| Validation.ValidateReportsFirstFailure | coreum/src/main.rs:51-72 | the scan returns the error of the first input coin, in loop order, that fails its check |
| Validation.ValidateFailsAtFirstFailure | coreum/src/main.rs:51-72 | a failing scan fails at a first failing coin, with that coin's error |
| Validation.InsufficientBalanceReported | coreum/src/main.rs:53-55 | if earlier coins pass, a sender holding less of a denomination than it sends gets `InsufficientBalance(address, denom)` (the error of lines 66-68) |
| Validation.UnknownDenominationReported | coreum/src/main.rs:55-65 | if earlier coins pass, a sender holding enough of an undefined denomination gets `UnknownDenomination(denom)`; the balance check comes first |
| Validation.ValidateSums | coreum/src/main.rs:57-62 | on success a denomination has a non-issuer sum exactly when some counted non-issuer coin carries it, and the sum is those coins' total |
| Validation.CountedSumCovers | coreum/src/main.rs:57-62 | with non-negative amounts, a counted coin's amount is at most its denomination's non-issuer sum |
| Validation.CountedSumNonNegative | coreum/src/main.rs:57-62 | with non-negative amounts, every non-issuer sum is non-negative |
| Validation.TotalOutputs | coreum/src/main.rs:73-78 | the nested loop builds exactly `OutputTotals` of the output coins |
| Validation.OutputTotalsMeaning | coreum/src/main.rs:73-78 | a denomination has an output total exactly when some output coin carries it, and the total is the sum of all its output coins, the issuer's included |
| Validation.FindMismatch | coreum/src/main.rs:79-83 | a returned denomination is `Mismatched` (line 80): it has an input total that differs from its output total (0 when absent); when none is returned, no denomination does |
| FeeShares.Ceil | coreum/src/main.rs:93-96 | `ceil`: the least integer not below its argument |
| FeeShares.Min | coreum/src/main.rs:91 | `min`: a lower bound of both arguments and equal to one of them |
| FeeShares.FeeShare | coreum/src/main.rs:91-103 | a share is its exact proportional value rounded up (share - 1 < exact <= share), or 0 for the 0/0 case |
| FeeShares.ShareWithinAmount | coreum/src/main.rs:91-103 | with a rate in [0, 1], a fee base within the sum and a non-negative amount, a share lies between 0 and the sender's amount |
| FeeShares.ShareAtFullBase | coreum/src/main.rs:91-103 | for a non-zero sum, when the fee base is the whole non-issuer sum, the share is the rate applied to the sender's own amount, rounded up |
| FeeShares.RoundedWithinAmount | coreum/src/main.rs:93-96 | a rate in [0, 1] applied to a non-negative amount and rounded up lies in [0, amount], and is 0 at rate 0 |
| FeeShares.SharesOvershootBelowCount | coreum/src/main.rs:93-103 | rounding each sender's share up collects at least the exact total, and less than one unit more per sender |
| FeeShares.FeeWithinBase | coreum/src/main.rs:91-92 | with a fee base in [0, S] and a rate in [0, 1], the total fee (`total_burn`, `total_commission`) lies in [0, S] |
| FeeShares.ExactTotalIsProportional | coreum/src/main.rs:91-103 | the exact shares of several senders add up to the exact share of their amounts together |
| FeeShares.SharesSplitTotalFee | coreum/src/main.rs:91-103 | senders whose amounts make up S split exactly the whole total fee (`total_burn` or `total_commission`) between them |
| DebitList.ComputeDebits | coreum/src/main.rs:85-116 | the nested debit loop returns exactly `Debits`, or panics exactly when `Debits` is None; a coin panics unless `Payable` (the `unwrap` calls at lines 91, 95, 98, 102, 105 and 109 all succeed), and its debit is `Charge` (lines 89-111) |
| DebitList.DebitCoinsMeaning | coreum/src/main.rs:88-113 | one balance's deltas exist exactly when every defined coin is `Payable`; they are the negated `Charge` of those coins, in order, with undefined denominations dropped |
| DebitList.DebitsMeaning | coreum/src/main.rs:86-116 | the debit list exists exactly when every balance's deltas do; it then has one balance per input balance, in order, with the same address |
| DebitList.PanicsAt | coreum/src/main.rs:91-109 | a non-issuer's coin with a missing sum or output total, or any defined coin whose sender does not hold its denomination, makes the whole debit stage panic |
| BalanceChanges.CalculateBalanceChanges | coreum/src/main.rs:29-133 | the call's outcome is one that `Admits` allows: the first validation error, else a mismatching denomination, else the debit list or a panic |
| BalanceChanges.ValidationErrorIsFirstFailure | coreum/src/main.rs:51-72 | an insufficient-balance or unknown-denomination error is returned exactly when some input coin fails its check; it is the first such coin's error, and it comes before any mismatch |
| BalanceChanges.MismatchExactlyWhenUnbalanced | coreum/src/main.rs:57-83 | once every input coin passes, the call fails with a mismatch exactly when some denomination's non-issuer inputs differ from all of its outputs, and it names such a denomination |
| BalanceChanges.MismatchedMeans | coreum/src/main.rs:57-83 | after a successful scan, a denomination fails the comparison with the output totals exactly when its counted non-issuer inputs exist and differ from the sum of all its outputs |
| BalanceChanges.SuccessIsBalanced | coreum/src/main.rs:57-83 | on success, every denomination with a counted non-issuer input has those inputs equal to all of its outputs |
| BalanceChanges.ClosedFormBounds | coreum/src/main.rs:90-111 | with a non-negative amount and rates in [0, 1], a coin's debit lies between its amount and three times its amount; with both rates 0 it is exactly the amount |
| BalanceChanges.ChargeOnSuccess | coreum/src/main.rs:91-107 | with non-negative input amounts, on the success path min(S, O) = S, so a non-issuer is charged amount + ceil(burn × amount) + ceil(commission × amount) and the issuer is charged the amount |
| BalanceChanges.DebitCoinsClosedForm | coreum/src/main.rs:88-113 | with non-negative input amounts, on the success path, the deltas of a balance whose coins were all scanned are its closed-form deltas: each defined coin in order with its negated closed-form debit |
| BalanceChanges.SuccessDebits | coreum/src/main.rs:85-116 | with non-negative input amounts, on success the result has one balance per input balance, in order, with the same address, holding that balance's closed-form deltas |
| BalanceChanges.SuccessHasNoCredits | coreum/src/main.rs:85-133 | with non-negative amounts and rates in [0, 1], a successful result holds no positive delta and no address other than an input sender's |
| BalanceChanges.CountedHasSum | coreum/src/main.rs:57-62 | after a successful scan, a held non-issuer coin with a definition has a non-issuer input sum, so the `unwrap` calls on `non_issuer_input_sum` at lines 91, 95, 98 and 102 succeed for it |
| BalanceChanges.OutputHasTotal | coreum/src/main.rs:73-78 | every output coin's denomination has an output total, so the `unwrap` calls on `output_total` at lines 91 and 98 succeed for it |
| BalanceChanges.PayableWhenSupplied | coreum/src/main.rs:89-110 | after a successful scan, a defined input coin whose sender holds it, and whose denomination appears among the outputs when the sender is not the issuer, is `Payable` |
| BalanceChanges.NoPanicWhenSupplied | coreum/src/main.rs:89-110 | if every sender holds each defined denomination it sends, and every non-issuer's denomination appears among the outputs, no `unwrap` panics |
| BalanceChanges.HoldingIsNotDrawnDown | coreum/src/main.rs:51-62 | two input coins that each take a sender's whole holding of 100 both pass, and the non-issuer sum reaches 200 |

## Left out

- Floating point: the rates are exact reals, and `rate * amount`, the quotient and `ceil` are computed exactly. The source uses `f64`, which rounds, and its conversions of large `i128` values to `f64` lose precision.
- FeeShares.FeeShare: a zero non-issuer sum gives a share of 0. This models the NaN that `0.0 / 0.0` gives and that `as i128` turns into 0. On every path that reaches the debit stage, a zero sum comes with a zero output total, so the fee base is 0 and the numerator is indeed 0. The model does not capture the saturating casts of an infinite quotient.
- Negative amounts: the code accepts them, and so does the model. The closed-form results (`ClosedFormBounds`, `ChargeOnSuccess`, `DebitCoinsClosedForm`, `SuccessDebits`, `SuccessHasNoCredits`) hold only for non-negative amounts. A negative input can bring a non-issuer sum to 0, and then the fee shares are 0 rather than the rounded rate times the amount.
- `i128` overflow in the sums (lines 59, 61, 76) and in the deltas (lines 106-107): amounts are unbounded integers.
- The updates of `balance_map` values in the debit loop (lines 105-110) and the output loop (lines 117-131). Neither reaches the returned list. Only the key lookups matter, and they decide whether an `unwrap` panics. Key sets do not change during the debit loop, so the model checks them against the original holdings.
- The error messages are values naming the address and denomination, not formatted strings.
- The `tests` module (lines 135-247) is not part of this model.
- Behaviour the code does not have, and the model therefore does not give it:
  - a fee-inclusive sufficiency check;
  - cumulative sufficiency across several input coins;
  - receiver credits;
  - issuer commission credits;
  - netting per address and denomination;
  - an output sum without the issuer's outputs;
  - a comparison for every denomination: the mismatch check (lines 79-83) covers
    only denominations with a counted non-issuer input. A denomination that
    appears only in outputs, or is sent only by its issuer, is never compared.
    A balanced transfer that includes the issuer's own input is rejected: an
    issuer sending 100 and `a` sending 50 against outputs of 150 counts only
    50 (lines 57-61), so the comparison at line 80 fails.
