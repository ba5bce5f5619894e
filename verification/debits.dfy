/** Stage 4: the debit list. One balance per input balance, in input
    order, holding a negative delta for each of its coins whose
    denomination has a definition: the amount alone for the issuer, the
    amount plus a burn share and a commission share for anyone else. */
module DebitList {
  import opened MultiSendTypes
  import opened Validation
  import opened FeeShares

  /** The two sums of stages 2 and 3 that the fee computation reads. */
  datatype FeeBasis = FeeBasis(nonIssuerInputSum: map<Denom, int>, outputTotal: map<Denom, int>)

  /** None of the `unwrap` calls fails for this coin: a non-issuer's
      denomination has a non-issuer input sum and an output total, and
      every sender, the issuer too, holds the denomination. */
  predicate Payable(t: Tables, f: FeeBasis, address: Address, c: Coin)
    requires c.denom in t.definitions
  {
    && (address != t.definitions[c.denom].issuer ==> c.denom in f.nonIssuerInputSum && c.denom in f.outputTotal)
    && address in t.holdings && c.denom in t.holdings[address]
  }

  /** What the sender is charged for one coin. */
  function Charge(t: Tables, f: FeeBasis, address: Address, c: Coin): int
    requires c.denom in t.definitions && Payable(t, f, address, c)
  {
    var definition := t.definitions[c.denom];
    if address == definition.issuer then c.amount
    else
      var sum := f.nonIssuerInputSum[c.denom];
      var base := Min(sum, f.outputTotal[c.denom]);
      c.amount + FeeShare(base, definition.burnRate, c.amount, sum)
               + FeeShare(base, definition.commissionRate, c.amount, sum)
  }

  /** The coins whose denomination has a definition, in order. */
  function Defined(t: Tables, cs: seq<Coin>): seq<Coin>
  {
    if cs == [] then []
    else Defined(t, cs[..|cs| - 1]) + (if cs[|cs| - 1].denom in t.definitions then [cs[|cs| - 1]] else [])
  }

  /** The deltas of one input balance, or None where an `unwrap` panics. */
  function DebitCoins(t: Tables, f: FeeBasis, address: Address, cs: seq<Coin>): Option<seq<Coin>>
  {
    if cs == [] then Some([])
    else
      match DebitCoins(t, f, address, cs[..|cs| - 1])
      case None => None
      case Some(ds) =>
        var c := cs[|cs| - 1];
        if c.denom !in t.definitions then Some(ds)
        else if !Payable(t, f, address, c) then None
        else Some(ds + [Coin(c.denom, -Charge(t, f, address, c))])
  }

  /** The debit list of all input balances, or None where an `unwrap` panics. */
  function Debits(t: Tables, f: FeeBasis, bs: seq<Balance>): Option<seq<Balance>>
  {
    if bs == [] then Some([])
    else
      match Debits(t, f, bs[..|bs| - 1])
      case None => None
      case Some(rs) =>
        var b := bs[|bs| - 1];
        match DebitCoins(t, f, b.address, b.coins)
        case None => None
        case Some(ds) => Some(rs + [Balance(b.address, ds)])
  }

  /** One balance's deltas exist exactly when every defined coin is
      payable, and they are then the charges of its defined coins, negated,
      in order: coins without a definition are dropped. */
  lemma {:induction false} DebitCoinsMeaning(t: Tables, f: FeeBasis, address: Address, cs: seq<Coin>)
    ensures DebitCoins(t, f, address, cs).Some? <==>
              forall c :: c in cs && c.denom in t.definitions ==> Payable(t, f, address, c)
    ensures DebitCoins(t, f, address, cs).Some? ==>
              var ds, dc := DebitCoins(t, f, address, cs).value, Defined(t, cs);
              && |ds| == |dc|
              && forall k :: 0 <= k < |ds| ==>
                   && dc[k].denom in t.definitions
                   && Payable(t, f, address, dc[k])
                   && ds[k] == Coin(dc[k].denom, -Charge(t, f, address, dc[k]))
    decreases |cs|
  {
    if cs != [] {
      var p, c := cs[..|cs| - 1], cs[|cs| - 1];
      DebitCoinsMeaning(t, f, address, p);
      assert cs == p + [c];
    }
  }

  /** The debit list exists exactly when every balance's deltas do, and
      then it has one balance per input balance, in order, with the same
      address. */
  lemma {:induction false} DebitsMeaning(t: Tables, f: FeeBasis, bs: seq<Balance>)
    ensures Debits(t, f, bs).Some? <==>
              forall i :: 0 <= i < |bs| ==> DebitCoins(t, f, bs[i].address, bs[i].coins).Some?
    ensures Debits(t, f, bs).Some? ==>
              var rs := Debits(t, f, bs).value;
              && |rs| == |bs|
              && forall i :: 0 <= i < |bs| ==>
                   rs[i] == Balance(bs[i].address, DebitCoins(t, f, bs[i].address, bs[i].coins).value)
    decreases |bs|
  {
    if bs != [] {
      var p := bs[..|bs| - 1];
      DebitsMeaning(t, f, p);
      assert forall i :: 0 <= i < |p| ==> p[i] == bs[i];
    }
  }

  lemma DebitCoinsStep(t: Tables, f: FeeBasis, address: Address, cs: seq<Coin>, j: nat)
    requires j < |cs| && DebitCoins(t, f, address, cs[..j]).Some?
    ensures DebitCoins(t, f, address, cs[..j + 1]) ==
              var ds, c := DebitCoins(t, f, address, cs[..j]).value, cs[j];
              if c.denom !in t.definitions then Some(ds)
              else if !Payable(t, f, address, c) then None
              else Some(ds + [Coin(c.denom, -Charge(t, f, address, c))])
  {
    assert cs[..j + 1][..j] == cs[..j];
  }

  lemma DebitsStep(t: Tables, f: FeeBasis, bs: seq<Balance>, i: nat)
    requires i < |bs| && Debits(t, f, bs[..i]).Some?
    requires DebitCoins(t, f, bs[i].address, bs[i].coins).Some?
    ensures Debits(t, f, bs[..i + 1]) ==
              Some(Debits(t, f, bs[..i]).value + [Balance(bs[i].address, DebitCoins(t, f, bs[i].address, bs[i].coins).value)])
  {
    assert bs[..i + 1][..i] == bs[..i];
  }

  /** The loop that builds `balance_changes`. */
  method ComputeDebits(t: Tables, f: FeeBasis, inputs: seq<Balance>) returns (r: Option<seq<Balance>>)
    ensures r == Debits(t, f, inputs)
  {
    var balanceChanges: seq<Balance> := [];
    for i := 0 to |inputs|
      invariant Debits(t, f, inputs[..i]) == Some(balanceChanges)
    {
      var balance := inputs[i];
      var newCoins: seq<Coin> := [];
      assert balance.coins[..0] == [];
      for j := 0 to |balance.coins|
        invariant DebitCoins(t, f, balance.address, balance.coins[..j]) == Some(newCoins)
      {
        var coin := balance.coins[j];
        DebitCoinsStep(t, f, balance.address, balance.coins, j);
        if coin.denom in t.definitions {
          var definition := t.definitions[coin.denom];
          if balance.address != definition.issuer {
            if coin.denom !in f.nonIssuerInputSum || coin.denom !in f.outputTotal {
              PanicsAt(t, f, inputs, i, j);
              return None;
            }
            var sum := f.nonIssuerInputSum[coin.denom];
            var base := Min(sum, f.outputTotal[coin.denom]);
            var burnShare := FeeShare(base, definition.burnRate, coin.amount, sum);
            var commissionShare := FeeShare(base, definition.commissionRate, coin.amount, sum);
            if balance.address !in t.holdings || coin.denom !in t.holdings[balance.address] {
              PanicsAt(t, f, inputs, i, j);
              return None;
            }
            newCoins := newCoins + [Coin(coin.denom, -coin.amount - burnShare - commissionShare)];
          } else {
            if balance.address !in t.holdings || coin.denom !in t.holdings[balance.address] {
              PanicsAt(t, f, inputs, i, j);
              return None;
            }
            newCoins := newCoins + [Coin(coin.denom, -coin.amount)];
          }
        }
      }
      assert balance.coins[..|balance.coins|] == balance.coins;
      DebitsStep(t, f, inputs, i);
      balanceChanges := balanceChanges + [Balance(balance.address, newCoins)];
    }
    assert inputs[..|inputs|] == inputs;
    r := Some(balanceChanges);
  }

  /** A coin that is not payable makes the whole debit list panic. */
  lemma PanicsAt(t: Tables, f: FeeBasis, bs: seq<Balance>, i: nat, j: nat)
    requires i < |bs| && j < |bs[i].coins|
    requires bs[i].coins[j].denom in t.definitions && !Payable(t, f, bs[i].address, bs[i].coins[j])
    ensures Debits(t, f, bs) == None
  {
    DebitCoinsMeaning(t, f, bs[i].address, bs[i].coins);
    DebitsMeaning(t, f, bs);
  }
}
