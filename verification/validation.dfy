/** Stages 2 and 3: the scan over the input coins that checks each one
    against the original holdings and the definitions and sums the
    non-issuer inputs per denomination; the per-denomination output
    totals; and the search for a denomination whose totals disagree. */
module Validation {
  import opened MultiSendTypes
  import opened Indexes

  /** The two lookup tables of stage 1. */
  datatype Tables = Tables(holdings: Holdings, definitions: Definitions)

  /** The two sums the scan keeps. They are updated in the same branch. */
  datatype InputSums = InputSums(inputTotal: map<Denom, int>, nonIssuerInputSum: map<Denom, int>)

  /** The sender holds the coin's denomination in the original balances.
      An input coin for which this fails is passed over by the scan. */
  predicate Held(t: Tables, e: Entry)
  {
    e.address in t.holdings && e.coin.denom in t.holdings[e.address]
  }

  /** The error one input coin, on its own, makes the scan return. The
      comparison is with the original holding only, never with what
      earlier input coins already took from it. */
  function EntryError(t: Tables, e: Entry): Option<Error>
  {
    if !Held(t, e) then None
    else if t.holdings[e.address][e.coin.denom] < e.coin.amount then Some(InsufficientBalance(e.address, e.coin.denom))
    else if e.coin.denom !in t.definitions then Some(UnknownDenomination(e.coin.denom))
    else None
  }

  /** The coin is added to the non-issuer input sum of its denomination. */
  predicate Counted(t: Tables, e: Entry)
  {
    && Held(t, e)
    && EntryError(t, e).None?
    && e.coin.denom in t.definitions
    && e.address != t.definitions[e.coin.denom].issuer
  }

  /** The scan over input coins, in order: the first coin's error, or the
      non-issuer input sum per denomination. */
  function Validate(t: Tables, es: seq<Entry>): Result<map<Denom, int>>
  {
    if es == [] then Ok(map[])
    else
      match Validate(t, es[..|es| - 1])
      case Err(err) => Err(err)
      case Ok(sums) =>
        var e := es[|es| - 1];
        match EntryError(t, e)
        case Some(err) => Err(err)
        case None => Ok(if Counted(t, e) then AddCoin(sums, e.coin) else sums)
  }

  /** Coin `k` is the first whose check fails. */
  ghost predicate FirstFailure(t: Tables, es: seq<Entry>, k: int)
  {
    && 0 <= k < |es|
    && EntryError(t, es[k]).Some?
    && forall j :: 0 <= j < k ==> EntryError(t, es[j]).None?
  }

  /** The scan succeeds exactly when every coin passes its own check. */
  lemma {:induction false} ValidateOkIffAllPass(t: Tables, es: seq<Entry>)
    ensures Validate(t, es).Ok? <==> forall e :: e in es ==> EntryError(t, e).None?
    decreases |es|
  {
    if es != [] {
      var p := es[..|es| - 1];
      ValidateOkIffAllPass(t, p);
      assert es == p + [es[|es| - 1]];
    }
  }

  /** Once a prefix of the coins fails, the whole scan fails the same way. */
  lemma {:induction false} ValidatePrefixErr(t: Tables, es: seq<Entry>, n: nat)
    requires n <= |es| && Validate(t, es[..n]).Err?
    ensures Validate(t, es) == Validate(t, es[..n])
    decreases |es| - n
  {
    if n < |es| {
      var p := es[..|es| - 1];
      assert p[..n] == es[..n];
      ValidatePrefixErr(t, p, n);
    } else {
      assert es[..n] == es;
    }
  }

  /** The scan returns the error of the first coin that fails its check ... */
  lemma {:induction false} ValidateReportsFirstFailure(t: Tables, es: seq<Entry>, k: int)
    requires FirstFailure(t, es, k)
    ensures Validate(t, es) == Err(EntryError(t, es[k]).value)
  {
    var p := es[..k];
    ValidateOkIffAllPass(t, p);
    var q := es[..k + 1];
    assert q[..|q| - 1] == p;
    ValidatePrefixErr(t, es, k + 1);
  }

  /** ... and fails only at such a coin. */
  lemma {:induction false} ValidateFailsAtFirstFailure(t: Tables, es: seq<Entry>)
    ensures Validate(t, es).Err? ==>
              exists k :: FirstFailure(t, es, k) && Validate(t, es).error == EntryError(t, es[k]).value
    decreases |es|
  {
    if es != [] && Validate(t, es).Err? {
      var p := es[..|es| - 1];
      if Validate(t, p).Err? {
        ValidateFailsAtFirstFailure(t, p);
        var k :| FirstFailure(t, p, k) && Validate(t, p).error == EntryError(t, p[k]).value;
        assert FirstFailure(t, es, k);
      } else {
        ValidateOkIffAllPass(t, p);
        assert FirstFailure(t, es, |es| - 1);
      }
    }
  }

  /** A sender holding less of a denomination than it sends makes the scan
      fail with an insufficient-balance error, unless an earlier coin failed. */
  lemma InsufficientBalanceReported(t: Tables, es: seq<Entry>, k: int)
    requires 0 <= k < |es| && forall j :: 0 <= j < k ==> EntryError(t, es[j]).None?
    requires Held(t, es[k]) && t.holdings[es[k].address][es[k].coin.denom] < es[k].coin.amount
    ensures Validate(t, es) == Err(InsufficientBalance(es[k].address, es[k].coin.denom))
  {
    ValidateReportsFirstFailure(t, es, k);
  }

  /** A sender that holds enough of a denomination without a definition
      makes the scan fail with an unknown-denomination error, unless an
      earlier coin failed. */
  lemma UnknownDenominationReported(t: Tables, es: seq<Entry>, k: int)
    requires 0 <= k < |es| && forall j :: 0 <= j < k ==> EntryError(t, es[j]).None?
    requires Held(t, es[k]) && t.holdings[es[k].address][es[k].coin.denom] >= es[k].coin.amount
    requires es[k].coin.denom !in t.definitions
    ensures Validate(t, es) == Err(UnknownDenomination(es[k].coin.denom))
  {
    ValidateReportsFirstFailure(t, es, k);
  }

  /** The non-issuer amounts of one denomination that the scan counts, added up. */
  function CountedSum(t: Tables, es: seq<Entry>, d: Denom): int
  {
    if es == [] then 0
    else
      var e := es[|es| - 1];
      CountedSum(t, es[..|es| - 1], d) + (if Counted(t, e) && e.coin.denom == d then e.coin.amount else 0)
  }

  ghost predicate HasCounted(t: Tables, es: seq<Entry>, d: Denom)
  {
    exists e :: e in es && Counted(t, e) && e.coin.denom == d
  }

  /** On success the scan has a sum for exactly the denominations some
      counted coin carries, and each sum is the total of those coins. */
  lemma {:induction false} ValidateSums(t: Tables, es: seq<Entry>)
    ensures Validate(t, es).Ok? ==>
              forall d :: && (d in Validate(t, es).value <==> HasCounted(t, es, d))
                          && GetOrZero(Validate(t, es).value, d) == CountedSum(t, es, d)
    decreases |es|
  {
    if es != [] && Validate(t, es).Ok? {
      var p, e := es[..|es| - 1], es[|es| - 1];
      ValidateSums(t, p);
      assert es == p + [e];
      forall d
        ensures HasCounted(t, es, d) <==> HasCounted(t, p, d) || (Counted(t, e) && e.coin.denom == d)
      {
        if HasCounted(t, es, d) {
          var x :| x in es && Counted(t, x) && x.coin.denom == d;
          if x != e {
            assert x in p;
          }
        }
      }
    }
  }

  /** With non-negative amounts, a counted coin's amount is at most the
      sum of its denomination. */
  lemma {:induction false} CountedSumCovers(t: Tables, es: seq<Entry>, e: Entry)
    requires forall x :: x in es ==> x.coin.amount >= 0
    requires e in es && Counted(t, e)
    ensures CountedSum(t, es, e.coin.denom) >= e.coin.amount
    decreases |es|
  {
    var p, last := es[..|es| - 1], es[|es| - 1];
    assert es == p + [last];
    CountedSumNonNegative(t, p, e.coin.denom);
    if e != last {
      CountedSumCovers(t, p, e);
    }
  }

  lemma {:induction false} CountedSumNonNegative(t: Tables, es: seq<Entry>, d: Denom)
    requires forall x :: x in es ==> x.coin.amount >= 0
    ensures CountedSum(t, es, d) >= 0
    decreases |es|
  {
    if es != [] {
      var p := es[..|es| - 1];
      assert forall x :: x in p ==> x in es;
      CountedSumNonNegative(t, p, d);
    }
  }

  /** `output_total`: every output coin, the issuer's included, added to
      the total of its denomination. */
  function OutputTotals(es: seq<Entry>): map<Denom, int>
  {
    if es == [] then map[] else AddCoin(OutputTotals(es[..|es| - 1]), es[|es| - 1].coin)
  }

  /** The amounts of one denomination, added up. */
  function AmountSum(es: seq<Entry>, d: Denom): int
  {
    if es == [] then 0
    else AmountSum(es[..|es| - 1], d) + (if es[|es| - 1].coin.denom == d then es[|es| - 1].coin.amount else 0)
  }

  /** A denomination has an output total exactly when some output coin
      carries it, and the total is the sum of those coins (0 when none). */
  lemma {:induction false} OutputTotalsMeaning(es: seq<Entry>)
    ensures forall d :: && (d in OutputTotals(es) <==> exists e :: e in es && e.coin.denom == d)
                        && GetOrZero(OutputTotals(es), d) == AmountSum(es, d)
    decreases |es|
  {
    if es != [] {
      var p, e := es[..|es| - 1], es[|es| - 1];
      OutputTotalsMeaning(p);
      assert es == p + [e];
      forall d | d in OutputTotals(es)
        ensures exists x :: x in es && x.coin.denom == d
      {
        if d != e.coin.denom {
          assert d in OutputTotals(p);
          var x :| x in p && x.coin.denom == d;
          assert x in es;
        }
      }
    }
  }

  /** The mismatch test of one denomination of the input total. */
  predicate Mismatched(inputTotal: map<Denom, int>, outputTotal: map<Denom, int>, d: Denom)
  {
    d in inputTotal && GetOrZero(outputTotal, d) != inputTotal[d]
  }

  /** The scan over the input balances and their coins. */
  method ValidateInputs(t: Tables, inputs: seq<Balance>) returns (r: Result<InputSums>)
    ensures r.Ok? ==> Validate(t, Entries(inputs)) == Ok(r.value.nonIssuerInputSum)
    ensures r.Ok? ==> r.value.inputTotal == r.value.nonIssuerInputSum
    ensures r.Err? ==> Validate(t, Entries(inputs)) == Err(r.error)
  {
    var inputTotal: map<Denom, int> := map[];
    var nonIssuerInputSum: map<Denom, int> := map[];
    for i := 0 to |inputs|
      invariant inputTotal == nonIssuerInputSum
      invariant Validate(t, Entries(inputs[..i])) == Ok(nonIssuerInputSum)
    {
      var balance := inputs[i];
      EntriesStepBalance(inputs, i);
      for j := 0 to |balance.coins|
        invariant inputTotal == nonIssuerInputSum
        invariant Validate(t, Entries(inputs[..i]) + Pairs(balance.address, balance.coins[..j])) == Ok(nonIssuerInputSum)
      {
        var coin := balance.coins[j];
        ghost var scanned := Entries(inputs[..i]) + Pairs(balance.address, balance.coins[..j]);
        ghost var e := Entry(balance.address, coin);
        EntriesStepCoin(inputs, i, j);
        assert Entries(inputs[..i]) + Pairs(balance.address, balance.coins[..j + 1]) == scanned + [e];
        ValidateStep(t, scanned, e);
        if balance.address in t.holdings {
          if coin.denom in t.holdings[balance.address] {
            if t.holdings[balance.address][coin.denom] >= coin.amount {
              if coin.denom in t.definitions {
                if balance.address != t.definitions[coin.denom].issuer {
                  nonIssuerInputSum := AddCoin(nonIssuerInputSum, coin);
                  inputTotal := AddCoin(inputTotal, coin);
                }
              } else {
                ValidateStopsAt(t, inputs, i, j + 1);
                return Err(UnknownDenomination(coin.denom));
              }
            } else {
              ValidateStopsAt(t, inputs, i, j + 1);
              return Err(InsufficientBalance(balance.address, coin.denom));
            }
          }
        }
      }
    }
    assert inputs[..|inputs|] == inputs;
    r := Ok(InputSums(inputTotal, nonIssuerInputSum));
  }

  /** One more coin of the scan, case by case in the order of the checks. */
  lemma ValidateStep(t: Tables, es: seq<Entry>, e: Entry)
    requires Validate(t, es).Ok?
    ensures Validate(t, es + [e]) ==
              if !Held(t, e) then Validate(t, es)
              else if t.holdings[e.address][e.coin.denom] < e.coin.amount then Err(InsufficientBalance(e.address, e.coin.denom))
              else if e.coin.denom !in t.definitions then Err(UnknownDenomination(e.coin.denom))
              else if e.address != t.definitions[e.coin.denom].issuer then Ok(AddCoin(Validate(t, es).value, e.coin))
              else Validate(t, es)
  {
    assert (es + [e])[..|es|] == es;
  }

  lemma ValidateStopsAt(t: Tables, inputs: seq<Balance>, i: nat, j: nat)
    requires i < |inputs| && j <= |inputs[i].coins|
    requires Validate(t, Entries(inputs[..i]) + Pairs(inputs[i].address, inputs[i].coins[..j])).Err?
    ensures Validate(t, Entries(inputs)) == Validate(t, Entries(inputs[..i]) + Pairs(inputs[i].address, inputs[i].coins[..j]))
  {
    var p := Entries(inputs[..i]) + Pairs(inputs[i].address, inputs[i].coins[..j]);
    EntriesPrefix(inputs, i, j);
    ValidatePrefixErr(t, Entries(inputs), |p|);
  }

  /** The loop that fills `output_total`. */
  method TotalOutputs(outputs: seq<Balance>) returns (outputTotal: map<Denom, int>)
    ensures outputTotal == OutputTotals(Entries(outputs))
  {
    outputTotal := map[];
    for i := 0 to |outputs|
      invariant outputTotal == OutputTotals(Entries(outputs[..i]))
    {
      var balance := outputs[i];
      EntriesStepBalance(outputs, i);
      for j := 0 to |balance.coins|
        invariant outputTotal == OutputTotals(Entries(outputs[..i]) + Pairs(balance.address, balance.coins[..j]))
      {
        EntriesStepCoin(outputs, i, j);
        OutputTotalsStep(Entries(outputs[..i]) + Pairs(balance.address, balance.coins[..j]), Entry(balance.address, balance.coins[j]));
        outputTotal := AddCoin(outputTotal, balance.coins[j]);
      }
    }
    assert outputs[..|outputs|] == outputs;
  }

  lemma OutputTotalsStep(es: seq<Entry>, e: Entry)
    ensures OutputTotals(es + [e]) == AddCoin(OutputTotals(es), e.coin)
  {
    assert (es + [e])[..|es|] == es;
  }

  /** The loop over `input_total`. It visits the denominations in the map's
      own order, which is not specified: any mismatching denomination may
      be the one reported. */
  method FindMismatch(inputTotal: map<Denom, int>, outputTotal: map<Denom, int>) returns (found: Option<Denom>)
    ensures found.Some? ==> Mismatched(inputTotal, outputTotal, found.value)
    ensures found.None? ==> forall d :: !Mismatched(inputTotal, outputTotal, d)
  {
    var pending := inputTotal.Keys;
    while pending != {}
      invariant pending <= inputTotal.Keys
      invariant forall d :: d in inputTotal && d !in pending ==> !Mismatched(inputTotal, outputTotal, d)
      decreases pending
    {
      var denom :| denom in pending;
      if GetOrZero(outputTotal, denom) != inputTotal[denom] {
        return Some(denom);
      }
      pending := pending - {denom};
    }
    return None;
  }
}
