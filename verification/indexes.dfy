/** Stage 1: the lookup tables built from the original balances and the
    denomination definitions. In each table a later entry with the same
    key replaces an earlier one, as `HashMap::insert` does. */
module Indexes {
  import opened MultiSendTypes

  /** address -> denomination -> amount held */
  type Holdings = map<Address, map<Denom, int>>

  type Definitions = map<Denom, DenomDefinition>

  function CoinIndex(cs: seq<Coin>): map<Denom, int>
  {
    if cs == [] then map[]
    else CoinIndex(cs[..|cs| - 1])[cs[|cs| - 1].denom := cs[|cs| - 1].amount]
  }

  function HoldingsIndex(bs: seq<Balance>): Holdings
  {
    if bs == [] then map[]
    else HoldingsIndex(bs[..|bs| - 1])[bs[|bs| - 1].address := CoinIndex(bs[|bs| - 1].coins)]
  }

  function DefinitionIndex(ds: seq<DenomDefinition>): Definitions
  {
    if ds == [] then map[]
    else DefinitionIndex(ds[..|ds| - 1])[ds[|ds| - 1].denom := ds[|ds| - 1]]
  }

  /** A denomination is indexed exactly when some coin carries it. */
  lemma {:induction false} CoinIndexKeys(cs: seq<Coin>)
    ensures CoinIndex(cs).Keys == set c | c in cs :: c.denom
    decreases |cs|
  {
    if cs != [] {
      CoinIndexKeys(cs[..|cs| - 1]);
      assert cs == cs[..|cs| - 1] + [cs[|cs| - 1]];
    }
  }

  /** The last coin of a denomination gives its amount. */
  lemma {:induction false} CoinIndexLastWins(cs: seq<Coin>, k: nat)
    requires k < |cs|
    requires forall j :: k < j < |cs| ==> cs[j].denom != cs[k].denom
    ensures cs[k].denom in CoinIndex(cs) && CoinIndex(cs)[cs[k].denom] == cs[k].amount
    decreases |cs|
  {
    if k < |cs| - 1 {
      CoinIndexLastWins(cs[..|cs| - 1], k);
    }
  }

  /** An address is indexed exactly when some balance carries it. */
  lemma {:induction false} HoldingsIndexKeys(bs: seq<Balance>)
    ensures HoldingsIndex(bs).Keys == set b | b in bs :: b.address
    decreases |bs|
  {
    if bs != [] {
      HoldingsIndexKeys(bs[..|bs| - 1]);
      assert bs == bs[..|bs| - 1] + [bs[|bs| - 1]];
    }
  }

  /** The last balance of an address gives all of its holdings: an earlier
      balance of the same address is replaced, not merged. */
  lemma {:induction false} HoldingsIndexLastWins(bs: seq<Balance>, k: nat)
    requires k < |bs|
    requires forall j :: k < j < |bs| ==> bs[j].address != bs[k].address
    ensures bs[k].address in HoldingsIndex(bs) && HoldingsIndex(bs)[bs[k].address] == CoinIndex(bs[k].coins)
    decreases |bs|
  {
    if k < |bs| - 1 {
      HoldingsIndexLastWins(bs[..|bs| - 1], k);
    }
  }

  /** A denomination is defined exactly when some definition names it. */
  lemma {:induction false} DefinitionIndexKeys(ds: seq<DenomDefinition>)
    ensures DefinitionIndex(ds).Keys == set d | d in ds :: d.denom
    decreases |ds|
  {
    if ds != [] {
      DefinitionIndexKeys(ds[..|ds| - 1]);
      assert ds == ds[..|ds| - 1] + [ds[|ds| - 1]];
    }
  }

  /** The last definition of a denomination is the one in force. */
  lemma {:induction false} DefinitionIndexLastWins(ds: seq<DenomDefinition>, k: nat)
    requires k < |ds|
    requires forall j :: k < j < |ds| ==> ds[j].denom != ds[k].denom
    ensures ds[k].denom in DefinitionIndex(ds) && DefinitionIndex(ds)[ds[k].denom] == ds[k]
    decreases |ds|
  {
    if k < |ds| - 1 {
      DefinitionIndexLastWins(ds[..|ds| - 1], k);
    }
  }

  /** Every definition in force is one of the given definitions. */
  lemma {:induction false} DefinitionIndexValues(ds: seq<DenomDefinition>)
    ensures forall d :: d in DefinitionIndex(ds) ==> DefinitionIndex(ds)[d] in ds
    decreases |ds|
  {
    if ds != [] {
      var p := ds[..|ds| - 1];
      DefinitionIndexValues(p);
      assert ds == p + [ds[|ds| - 1]];
    }
  }

  /** Builds `balance_map`. */
  method BuildHoldings(original: seq<Balance>) returns (holdings: Holdings)
    ensures holdings == HoldingsIndex(original)
  {
    holdings := map[];
    for i := 0 to |original|
      invariant holdings == HoldingsIndex(original[..i])
    {
      var balance := original[i];
      var coinMap: map<Denom, int> := map[];
      for j := 0 to |balance.coins|
        invariant coinMap == CoinIndex(balance.coins[..j])
      {
        var coin := balance.coins[j];
        coinMap := coinMap[coin.denom := coin.amount];
        assert balance.coins[..j + 1][..j] == balance.coins[..j];
      }
      assert balance.coins[..|balance.coins|] == balance.coins;
      holdings := holdings[balance.address := coinMap];
      assert original[..i + 1][..i] == original[..i];
    }
    assert original[..|original|] == original;
  }

  /** Builds `definition_map`. */
  method BuildDefinitions(definitions: seq<DenomDefinition>) returns (table: Definitions)
    ensures table == DefinitionIndex(definitions)
  {
    table := map[];
    for i := 0 to |definitions|
      invariant table == DefinitionIndex(definitions[..i])
    {
      var definition := definitions[i];
      table := table[definition.denom := definition];
      assert definitions[..i + 1][..i] == definitions[..i];
    }
    assert definitions[..|definitions|] == definitions;
  }
}
