/** The whole calculation: build the tables, scan the inputs, total the
    outputs, look for a mismatching denomination, and build the debit
    list; and what it guarantees from end to end. */
module BalanceChanges {
  import opened MultiSendTypes
  import opened Indexes
  import opened Validation
  import opened DebitList
  import opened FeeShares

  function TablesOf(originalBalances: seq<Balance>, definitions: seq<DenomDefinition>): Tables
  {
    Tables(HoldingsIndex(originalBalances), DefinitionIndex(definitions))
  }

  /** The outcomes a call may end in. The first input coin that fails its
      check decides the error; failing that, any denomination whose
      non-issuer input total differs from its output total may be the
      one reported; failing that, the debit list, or a panic. */
  ghost predicate Admits(originalBalances: seq<Balance>, definitions: seq<DenomDefinition>, tx: MultiSend, r: Outcome)
  {
    var t := TablesOf(originalBalances, definitions);
    var outputTotal := OutputTotals(Entries(tx.outputs));
    match Validate(t, Entries(tx.inputs))
    case Err(err) => r == Failure(err)
    case Ok(sums) =>
      if exists d :: Mismatched(sums, outputTotal, d) then
        r.Failure? && r.error.Mismatch? && Mismatched(sums, outputTotal, r.error.denom)
      else
        r == match Debits(t, FeeBasis(sums, outputTotal), tx.inputs)
             case None => Panic
             case Some(changes) => Success(changes)
  }

  /** `calculate_balance_changes` */
  method CalculateBalanceChanges(originalBalances: seq<Balance>, definitions: seq<DenomDefinition>, tx: MultiSend)
    returns (r: Outcome)
    ensures Admits(originalBalances, definitions, tx, r)
  {
    var holdings := BuildHoldings(originalBalances);
    var definitionMap := BuildDefinitions(definitions);
    var t := Tables(holdings, definitionMap);
    var validated := ValidateInputs(t, tx.inputs);
    if validated.Err? {
      return Failure(validated.error);
    }
    var sums := validated.value;
    var outputTotal := TotalOutputs(tx.outputs);
    var mismatch := FindMismatch(sums.inputTotal, outputTotal);
    if mismatch.Some? {
      return Failure(Mismatch(mismatch.value));
    }
    var changes := ComputeDebits(t, FeeBasis(sums.nonIssuerInputSum, outputTotal), tx.inputs);
    if changes.None? {
      return Panic;
    }
    return Success(changes.value);
  }

  /** An insufficient-balance or unknown-denomination error is returned
      exactly when some input coin fails its own check, and it is the
      error of the first such coin in input order: before any mismatch. */
  lemma ValidationErrorIsFirstFailure(originalBalances: seq<Balance>, definitions: seq<DenomDefinition>, tx: MultiSend, r: Outcome)
    requires Admits(originalBalances, definitions, tx, r)
    ensures r.Failure? && !r.error.Mismatch? ==>
              exists k :: FirstFailure(TablesOf(originalBalances, definitions), Entries(tx.inputs), k)
    ensures (exists k :: FirstFailure(TablesOf(originalBalances, definitions), Entries(tx.inputs), k)) ==>
              r.Failure? && !r.error.Mismatch?
    ensures forall k :: FirstFailure(TablesOf(originalBalances, definitions), Entries(tx.inputs), k) ==>
              r == Failure(EntryError(TablesOf(originalBalances, definitions), Entries(tx.inputs)[k]).value)
  {
    var t, es := TablesOf(originalBalances, definitions), Entries(tx.inputs);
    forall k | FirstFailure(t, es, k)
      ensures r == Failure(EntryError(t, es[k]).value)
    {
      ValidateReportsFirstFailure(t, es, k);
    }
    match Validate(t, es)
    case Err(err) =>
      ValidateFailsAtFirstFailure(t, es);
      var k :| FirstFailure(t, es, k) && err == EntryError(t, es[k]).value;
      assert FirstFailure(TablesOf(originalBalances, definitions), Entries(tx.inputs), k);
    case Ok(_) =>
      ValidateOkIffAllPass(t, es);
  }

  /** The denomination has counted non-issuer inputs, and they do not add
      up to all of its outputs. */
  ghost predicate Unbalanced(t: Tables, es: seq<Entry>, os: seq<Entry>, d: Denom)
  {
    HasCounted(t, es, d) && CountedSum(t, es, d) != AmountSum(os, d)
  }

  /** Once every input coin passes its check, the call fails with a
      mismatch exactly when some denomination's counted non-issuer inputs
      do not add up to all of its outputs (the issuer's included), and the
      denomination it names is such a one. */
  lemma MismatchExactlyWhenUnbalanced(originalBalances: seq<Balance>, definitions: seq<DenomDefinition>, tx: MultiSend, r: Outcome)
    requires Admits(originalBalances, definitions, tx, r)
    requires var t := TablesOf(originalBalances, definitions);
             forall e :: e in Entries(tx.inputs) ==> EntryError(t, e).None?
    ensures (r.Failure? && r.error.Mismatch?) ==>
              exists d :: Unbalanced(TablesOf(originalBalances, definitions), Entries(tx.inputs), Entries(tx.outputs), d)
    ensures (exists d :: Unbalanced(TablesOf(originalBalances, definitions), Entries(tx.inputs), Entries(tx.outputs), d)) ==>
              (r.Failure? && r.error.Mismatch?)
    ensures r.Failure? && r.error.Mismatch? ==>
              Unbalanced(TablesOf(originalBalances, definitions), Entries(tx.inputs), Entries(tx.outputs), r.error.denom)
  {
    var t, es, os := TablesOf(originalBalances, definitions), Entries(tx.inputs), Entries(tx.outputs);
    ValidateOkIffAllPass(t, es);
    var sums, outputTotal := Validate(t, es).value, OutputTotals(os);
    assert Validate(t, es) == Ok(sums);
    if exists d :: Mismatched(sums, outputTotal, d) {
      var d :| Mismatched(sums, outputTotal, d);
      MismatchedMeans(t, es, os, d);
      assert r.Failure? && r.error.Mismatch?;
      MismatchedMeans(t, es, os, r.error.denom);
    } else {
      forall d
        ensures !Unbalanced(t, es, os, d)
      {
        MismatchedMeans(t, es, os, d);
      }
    }
  }

  /** After a successful scan, a denomination fails the comparison with
      the output totals exactly when it has counted non-issuer inputs whose
      sum differs from the sum of all its outputs. */
  lemma MismatchedMeans(t: Tables, es: seq<Entry>, os: seq<Entry>, d: Denom)
    requires Validate(t, es).Ok?
    ensures Mismatched(Validate(t, es).value, OutputTotals(os), d) <==> Unbalanced(t, es, os, d)
  {
    ValidateSums(t, es);
    OutputTotalsMeaning(os);
    var sums := Validate(t, es).value;
    assert d in sums <==> HasCounted(t, es, d);
    assert GetOrZero(sums, d) == CountedSum(t, es, d);
    assert GetOrZero(OutputTotals(os), d) == AmountSum(os, d);
  }

  /** On success, for every denomination with a counted non-issuer input,
      those inputs add up to all of its outputs. */
  lemma SuccessIsBalanced(originalBalances: seq<Balance>, definitions: seq<DenomDefinition>, tx: MultiSend, r: Outcome)
    requires Admits(originalBalances, definitions, tx, r) && r.Success?
    ensures var t, es, os := TablesOf(originalBalances, definitions), Entries(tx.inputs), Entries(tx.outputs);
            forall d :: HasCounted(t, es, d) ==> CountedSum(t, es, d) == AmountSum(os, d)
  {
    var t, es, os := TablesOf(originalBalances, definitions), Entries(tx.inputs), Entries(tx.outputs);
    var sums, outputTotal := Validate(t, es).value, OutputTotals(os);
    assert forall d :: !Mismatched(sums, outputTotal, d);
    forall d | HasCounted(t, es, d)
      ensures CountedSum(t, es, d) == AmountSum(os, d)
    {
      MismatchedMeans(t, es, os, d);
    }
  }


  /** The debit for one coin once the fee base has collapsed to the
      non-issuer input sum: the amount alone for the issuer, else the
      amount plus each rate applied to it, rounded up. */
  function ClosedFormDebit(definition: DenomDefinition, address: Address, c: Coin): int
  {
    if address == definition.issuer then c.amount
    else c.amount + Rounded(definition.burnRate, c.amount) + Rounded(definition.commissionRate, c.amount)
  }

  /** With rates in [0, 1] and a non-negative amount, a debit lies between
      the amount and three times the amount, and with both rates 0 it is
      the amount. */
  lemma ClosedFormBounds(definition: DenomDefinition, address: Address, c: Coin)
    requires 0.0 <= definition.burnRate <= 1.0 && 0.0 <= definition.commissionRate <= 1.0
    requires c.amount >= 0
    ensures c.amount <= ClosedFormDebit(definition, address, c) <= 3 * c.amount
    ensures definition.burnRate == 0.0 && definition.commissionRate == 0.0 ==>
              ClosedFormDebit(definition, address, c) == c.amount
  {
    RoundedWithinAmount(definition.burnRate, c.amount);
    RoundedWithinAmount(definition.commissionRate, c.amount);
  }

  /** On the success path a payable coin is charged its closed-form debit:
      it was counted, so its denomination's non-issuer sum is at least its
      amount and equals the output total, making the fee base that sum. */
  lemma ChargeOnSuccess(t: Tables, es: seq<Entry>, outputTotal: map<Denom, int>, address: Address, c: Coin)
    requires Validate(t, es).Ok?
    requires forall d :: !Mismatched(Validate(t, es).value, outputTotal, d)
    requires forall x :: x in es ==> x.coin.amount >= 0
    requires Entry(address, c) in es && c.denom in t.definitions
    requires Payable(t, FeeBasis(Validate(t, es).value, outputTotal), address, c)
    ensures Charge(t, FeeBasis(Validate(t, es).value, outputTotal), address, c)
            == ClosedFormDebit(t.definitions[c.denom], address, c)
  {
    var sums := Validate(t, es).value;
    var definition := t.definitions[c.denom];
    if address != definition.issuer {
      var e := Entry(address, c);
      ValidateOkIffAllPass(t, es);
      assert Counted(t, e);
      ValidateSums(t, es);
      CountedSumCovers(t, es, e);
      assert !Mismatched(sums, outputTotal, c.denom);
      var sum := sums[c.denom];
      assert outputTotal[c.denom] == sum;
      if sum == 0 {
        assert c.amount == 0;
      } else {
        ShareAtFullBase(definition.burnRate, c.amount, sum);
        ShareAtFullBase(definition.commissionRate, c.amount, sum);
      }
    }
  }

  predicate InputsNonNegative(tx: MultiSend)
  {
    forall b, c :: b in tx.inputs && c in b.coins ==> c.amount >= 0
  }

  /** The deltas of one input balance in closed form: each coin with a
      definition, in order, with its closed-form debit negated. */
  function ClosedFormDeltas(definitions: Definitions, address: Address, cs: seq<Coin>): seq<Coin>
  {
    if cs == [] then []
    else
      var c := cs[|cs| - 1];
      ClosedFormDeltas(definitions, address, cs[..|cs| - 1]) +
        (if c.denom in definitions then [Coin(c.denom, -ClosedFormDebit(definitions[c.denom], address, c))] else [])
  }

  /** Every closed-form delta comes from a defined coin of the balance. */
  lemma {:induction false} ClosedFormDeltasFrom(definitions: Definitions, address: Address, cs: seq<Coin>)
    ensures forall d :: d in ClosedFormDeltas(definitions, address, cs) ==>
              exists c :: c in cs && c.denom in definitions && d == Coin(c.denom, -ClosedFormDebit(definitions[c.denom], address, c))
    decreases |cs|
  {
    if cs != [] {
      var p := cs[..|cs| - 1];
      ClosedFormDeltasFrom(definitions, address, p);
      assert cs == p + [cs[|cs| - 1]];
    }
  }

  /** On the success path the deltas of a balance whose coins were all
      scanned are the closed-form deltas. */
  lemma {:induction false} DebitCoinsClosedForm(t: Tables, es: seq<Entry>, outputTotal: map<Denom, int>, address: Address, cs: seq<Coin>)
    requires Validate(t, es).Ok?
    requires forall d :: !Mismatched(Validate(t, es).value, outputTotal, d)
    requires forall x :: x in es ==> x.coin.amount >= 0
    requires forall c :: c in cs ==> Entry(address, c) in es
    requires DebitCoins(t, FeeBasis(Validate(t, es).value, outputTotal), address, cs).Some?
    ensures DebitCoins(t, FeeBasis(Validate(t, es).value, outputTotal), address, cs).value
            == ClosedFormDeltas(t.definitions, address, cs)
    decreases |cs|
  {
    if cs != [] {
      var f := FeeBasis(Validate(t, es).value, outputTotal);
      var p, c := cs[..|cs| - 1], cs[|cs| - 1];
      assert DebitCoins(t, f, address, p).Some?;
      DebitCoinsClosedForm(t, es, outputTotal, address, p);
      if c.denom in t.definitions {
        assert Payable(t, f, address, c);
        ChargeOnSuccess(t, es, outputTotal, address, c);
      }
    }
  }

  /** On success the result has one balance per input balance, in order,
      with the same address, holding that balance's closed-form deltas. */
  lemma SuccessDebits(originalBalances: seq<Balance>, definitions: seq<DenomDefinition>, tx: MultiSend, r: Outcome)
    requires Admits(originalBalances, definitions, tx, r) && r.Success?
    requires InputsNonNegative(tx)
    ensures |r.changes| == |tx.inputs|
    ensures forall i :: 0 <= i < |tx.inputs| ==>
              r.changes[i] == Balance(tx.inputs[i].address,
                                      ClosedFormDeltas(DefinitionIndex(definitions), tx.inputs[i].address, tx.inputs[i].coins))
  {
    var t, es, os := TablesOf(originalBalances, definitions), Entries(tx.inputs), Entries(tx.outputs);
    var sums, outputTotal := Validate(t, es).value, OutputTotals(os);
    var f := FeeBasis(sums, outputTotal);
    EntriesMembers(tx.inputs);
    assert forall x :: x in es ==> x.coin.amount >= 0;
    DebitsMeaning(t, f, tx.inputs);
    forall i | 0 <= i < |tx.inputs|
      ensures r.changes[i] == Balance(tx.inputs[i].address, ClosedFormDeltas(t.definitions, tx.inputs[i].address, tx.inputs[i].coins))
    {
      var b := tx.inputs[i];
      assert b in tx.inputs;
      DebitCoinsClosedForm(t, es, outputTotal, b.address, b.coins);
    }
  }

  predicate RatesInUnitRange(definitions: seq<DenomDefinition>)
  {
    forall definition :: definition in definitions ==>
      0.0 <= definition.burnRate <= 1.0 && 0.0 <= definition.commissionRate <= 1.0
  }

  /** With non-negative input amounts and rates in [0, 1], a successful
      result only ever debits: every delta is at most 0, and every
      address in it is an input sender, never a receiver. */
  lemma SuccessHasNoCredits(originalBalances: seq<Balance>, definitions: seq<DenomDefinition>, tx: MultiSend, r: Outcome)
    requires Admits(originalBalances, definitions, tx, r) && r.Success?
    requires InputsNonNegative(tx) && RatesInUnitRange(definitions)
    ensures forall b, d :: b in r.changes && d in b.coins ==> d.amount <= 0
    ensures forall b :: b in r.changes ==> exists i :: i in tx.inputs && i.address == b.address
  {
    var defs := DefinitionIndex(definitions);
    SuccessDebits(originalBalances, definitions, tx, r);
    DefinitionIndexValues(definitions);
    forall b, d | b in r.changes && d in b.coins
      ensures d.amount <= 0
    {
      var i :| 0 <= i < |r.changes| && r.changes[i] == b;
      var input := tx.inputs[i];
      ClosedFormDeltasFrom(defs, input.address, input.coins);
      var c :| c in input.coins && c.denom in defs && d == Coin(c.denom, -ClosedFormDebit(defs[c.denom], input.address, c));
      assert input in tx.inputs;
      ClosedFormBounds(defs[c.denom], input.address, c);
    }
    forall b | b in r.changes
      ensures exists i :: i in tx.inputs && i.address == b.address
    {
      var i :| 0 <= i < |r.changes| && r.changes[i] == b;
      assert tx.inputs[i] in tx.inputs;
    }
  }

  /** Every input coin with a definition is held by its sender in the
      original balances, and every such coin sent by a non-issuer has its
      denomination among the outputs. */
  ghost predicate Supplied(originalBalances: seq<Balance>, definitions: seq<DenomDefinition>, tx: MultiSend)
  {
    var t := TablesOf(originalBalances, definitions);
    forall b, c :: b in tx.inputs && c in b.coins && c.denom in t.definitions ==>
      && Held(t, Entry(b.address, c))
      && (b.address != t.definitions[c.denom].issuer ==>
            exists o, oc :: o in tx.outputs && oc in o.coins && oc.denom == c.denom)
  }

  /** Under that condition none of the `unwrap` calls panics. */
  lemma NoPanicWhenSupplied(originalBalances: seq<Balance>, definitions: seq<DenomDefinition>, tx: MultiSend, r: Outcome)
    requires Admits(originalBalances, definitions, tx, r)
    requires Supplied(originalBalances, definitions, tx)
    ensures !r.Panic?
  {
    var t, es, os := TablesOf(originalBalances, definitions), Entries(tx.inputs), Entries(tx.outputs);
    if Validate(t, es).Ok? {
      var sums, outputTotal := Validate(t, es).value, OutputTotals(os);
      var f := FeeBasis(sums, outputTotal);
      forall i | 0 <= i < |tx.inputs|
        ensures DebitCoins(t, f, tx.inputs[i].address, tx.inputs[i].coins).Some?
      {
        var b := tx.inputs[i];
        forall c | c in b.coins && c.denom in t.definitions
          ensures Payable(t, f, b.address, c)
        {
          assert b in tx.inputs;
          PayableWhenSupplied(originalBalances, definitions, tx, b, c);
        }
        DebitCoinsMeaning(t, f, b.address, b.coins);
      }
      DebitsMeaning(t, f, tx.inputs);
    }
  }

  /** A coin of a balance is one of the flattened pairs. */
  lemma EntryOfCoin(bs: seq<Balance>, b: Balance, c: Coin)
    requires b in bs && c in b.coins
    ensures Entry(b.address, c) in Entries(bs)
  {
    EntriesMembers(bs);
  }

  /** After a successful scan, a counted coin's denomination has a sum. */
  lemma CountedHasSum(t: Tables, es: seq<Entry>, e: Entry)
    requires Validate(t, es).Ok? && e in es
    requires e.coin.denom in t.definitions && e.address != t.definitions[e.coin.denom].issuer && Held(t, e)
    ensures e.coin.denom in Validate(t, es).value
  {
    ValidateOkIffAllPass(t, es);
    assert Counted(t, e);
    ValidateSums(t, es);
    assert HasCounted(t, es, e.coin.denom);
  }

  /** Every output coin's denomination has an output total. */
  lemma OutputHasTotal(es: seq<Entry>, e: Entry)
    requires e in es
    ensures e.coin.denom in OutputTotals(es)
  {
    OutputTotalsMeaning(es);
  }

  /** One supplied input coin with a definition is payable once the scan
      has succeeded. */
  lemma PayableWhenSupplied(originalBalances: seq<Balance>, definitions: seq<DenomDefinition>, tx: MultiSend, b: Balance, c: Coin)
    requires Supplied(originalBalances, definitions, tx)
    requires Validate(TablesOf(originalBalances, definitions), Entries(tx.inputs)).Ok?
    requires b in tx.inputs && c in b.coins && c.denom in DefinitionIndex(definitions)
    ensures Payable(TablesOf(originalBalances, definitions),
                    FeeBasis(Validate(TablesOf(originalBalances, definitions), Entries(tx.inputs)).value,
                             OutputTotals(Entries(tx.outputs))),
                    b.address, c)
  {
    var t := TablesOf(originalBalances, definitions);
    var e := Entry(b.address, c);
    assert Held(t, e);
    if b.address != t.definitions[c.denom].issuer {
      EntryOfCoin(tx.inputs, b, c);
      CountedHasSum(t, Entries(tx.inputs), e);
      var o, oc :| o in tx.outputs && oc in o.coins && oc.denom == c.denom;
      EntryOfCoin(tx.outputs, o, oc);
      OutputHasTotal(Entries(tx.outputs), Entry(o.address, oc));
    }
  }

  /** The scan checks each coin against the original holding alone: two
      coins that each take the whole holding of 100 both pass, and the
      non-issuer input sum reaches 200. */
  lemma HoldingIsNotDrawnDown()
    ensures var t := Tables(map["alice" := map["ucore" := 100]],
                            map["ucore" := DenomDefinition("ucore", "issuer", 0.5, 0.5)]);
            var inputs := [Balance("alice", [Coin("ucore", 100), Coin("ucore", 100)])];
            Validate(t, Entries(inputs)) == Ok(map["ucore" := 200])
  {
    var t := Tables(map["alice" := map["ucore" := 100]],
                    map["ucore" := DenomDefinition("ucore", "issuer", 0.5, 0.5)]);
    var inputs := [Balance("alice", [Coin("ucore", 100), Coin("ucore", 100)])];
    var e := Entry("alice", Coin("ucore", 100));
    var es := Entries(inputs);
    assert es == [e, e] by {
      assert inputs[..0] == [];
      assert Pairs("alice", [Coin("ucore", 100), Coin("ucore", 100)]) == [e, e];
    }
    assert Counted(t, e);
    assert [e, e][..1] == [e] && [e][..0] == [];
    assert Validate(t, [e]) == Ok(map["ucore" := 100]);
    assert Validate(t, [e, e]) == Ok(AddCoin(map["ucore" := 100], e.coin));
    assert AddCoin(map["ucore" := 100], e.coin) == map["ucore" := 200];
  }
}
