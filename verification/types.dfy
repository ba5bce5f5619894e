/** The records of a batched multi-asset transfer (a "multi-send"), the
    errors the calculation returns, and the flattened view of a list of
    balances that the calculation's nested loops walk through. */
module MultiSendTypes {

  type Address = string
  type Denom = string

  /** An amount of one denomination. In a result it is a signed delta. */
  datatype Coin = Coin(denom: Denom, amount: int)

  /** The coins of one address: a holding, a transfer leg or a debit list. */
  datatype Balance = Balance(address: Address, coins: seq<Coin>)

  datatype MultiSend = MultiSend(inputs: seq<Balance>, outputs: seq<Balance>)

  /** A denomination's issuer and fee rates. The rates are exact reals
      here, where the source holds them as 64-bit floats. */
  datatype DenomDefinition =
    DenomDefinition(denom: Denom, issuer: Address, burnRate: real, commissionRate: real)

  /** The three errors the calculation returns (as message strings in the source). */
  datatype Error =
    | InsufficientBalance(address: Address, denom: Denom)
    | UnknownDenomination(denom: Denom)
    | Mismatch(denom: Denom)

  datatype Option<T> = None | Some(value: T)

  datatype Result<T> = Ok(value: T) | Err(error: Error)

  /** How one calculation ends: the debit list, a returned error, or a
      panic of one of the `unwrap` calls in the debit stage. */
  datatype Outcome = Success(changes: seq<Balance>) | Failure(error: Error) | Panic

  /** One (address, coin) pair, as the nested loops over a list of balances visit it. */
  datatype Entry = Entry(address: Address, coin: Coin)

  /** The value at `d`, or 0 when `d` is absent (`unwrap_or(&0)`, `or_insert(0)`). */
  function GetOrZero(m: map<Denom, int>, d: Denom): int
  {
    if d in m then m[d] else 0
  }

  /** `*m.entry(c.denom).or_insert(0) += c.amount` */
  function AddCoin(m: map<Denom, int>, c: Coin): (r: map<Denom, int>)
    ensures r.Keys == m.Keys + {c.denom}
    ensures forall d :: GetOrZero(r, d) == GetOrZero(m, d) + (if d == c.denom then c.amount else 0)
  {
    m[c.denom := GetOrZero(m, c.denom) + c.amount]
  }

  /** The coins of one balance, each paired with its address, in order. */
  function Pairs(address: Address, coins: seq<Coin>): (es: seq<Entry>)
    ensures |es| == |coins|
    ensures forall k :: 0 <= k < |coins| ==> es[k] == Entry(address, coins[k])
  {
    if coins == [] then []
    else Pairs(address, coins[..|coins| - 1]) + [Entry(address, coins[|coins| - 1])]
  }

  /** Every (address, coin) pair of a list of balances, in loop order. */
  function Entries(bs: seq<Balance>): seq<Entry>
  {
    if bs == [] then []
    else Entries(bs[..|bs| - 1]) + Pairs(bs[|bs| - 1].address, bs[|bs| - 1].coins)
  }

  /** The pairs visited before the inner loop reaches coin `j` of balance `i`
      are a prefix of all the pairs. */
  lemma {:induction false} EntriesPrefix(bs: seq<Balance>, i: nat, j: nat)
    requires i < |bs| && j <= |bs[i].coins|
    ensures var p := Entries(bs[..i]) + Pairs(bs[i].address, bs[i].coins[..j]);
            |p| <= |Entries(bs)| && Entries(bs)[..|p|] == p
    decreases |bs|
  {
    var init := bs[..|bs| - 1];
    var tail := Pairs(bs[|bs| - 1].address, bs[|bs| - 1].coins);
    assert Entries(bs) == Entries(init) + tail;
    if i == |bs| - 1 {
      assert init == bs[..i];
      assert tail[..j] == Pairs(bs[i].address, bs[i].coins[..j]);
      assert (Entries(init) + tail)[..|Entries(init)| + j] == Entries(init) + tail[..j];
    } else {
      assert init[..i] == bs[..i] && init[i] == bs[i];
      EntriesPrefix(init, i, j);
      var p := Entries(bs[..i]) + Pairs(bs[i].address, bs[i].coins[..j]);
      assert Entries(bs)[..|p|] == Entries(init)[..|p|];
    }
  }

  /** One more coin of balance `i` visited by the inner loop. */
  lemma EntriesStepCoin(bs: seq<Balance>, i: nat, j: nat)
    requires i < |bs| && j < |bs[i].coins|
    ensures Entries(bs[..i]) + Pairs(bs[i].address, bs[i].coins[..j + 1])
            == Entries(bs[..i]) + Pairs(bs[i].address, bs[i].coins[..j]) + [Entry(bs[i].address, bs[i].coins[j])]
  {
    assert bs[i].coins[..j + 1][..j] == bs[i].coins[..j];
  }

  /** The outer loop starting and finishing balance `i`. */
  lemma EntriesStepBalance(bs: seq<Balance>, i: nat)
    requires i < |bs|
    ensures Entries(bs[..i]) + Pairs(bs[i].address, bs[i].coins[..0]) == Entries(bs[..i])
    ensures Entries(bs[..i + 1]) == Entries(bs[..i]) + Pairs(bs[i].address, bs[i].coins[..|bs[i].coins|])
  {
    assert bs[..i + 1][..i] == bs[..i];
    assert bs[i].coins[..|bs[i].coins|] == bs[i].coins;
  }

  /** A pair is visited exactly when its coin belongs to a balance of its address. */
  lemma {:induction false} EntriesMembers(bs: seq<Balance>)
    ensures forall e :: e in Entries(bs) <==> exists b :: b in bs && b.address == e.address && e.coin in b.coins
    decreases |bs|
  {
    if bs != [] {
      var n := |bs|;
      var last := bs[n - 1];
      EntriesMembers(bs[..n - 1]);
      assert bs == bs[..n - 1] + [last];
      forall e
        ensures e in Entries(bs) <==> exists b :: b in bs && b.address == e.address && e.coin in b.coins
      {
        if e in Pairs(last.address, last.coins) {
          var k :| 0 <= k < |last.coins| && Pairs(last.address, last.coins)[k] == e;
          assert last in bs && e.coin in last.coins;
        }
        if e.address == last.address && e.coin in last.coins {
          var k :| 0 <= k < |last.coins| && last.coins[k] == e.coin;
          assert Pairs(last.address, last.coins)[k] == e;
        }
      }
    }
  }
}
