/**
 What the lockdrop report keeps for each Edgeware key: an amount, its effective value
 and the addresses it came from. Both locks and signals are kept this way.
 */
module LockdropHoldings {
  import opened LockdropKeys
  import opened Tally

  datatype Holding = Holding(amount: nat, effective: nat, addrs: seq<EthAddress>)

  const NO_HOLDING := Holding(0, 0, [])

  function Lookup(holdings: map<EdgewareKey, Holding>, key: EdgewareKey): Holding
  {
    if key in holdings then holdings[key] else NO_HOLDING
  }

  function Amounts(holdings: map<EdgewareKey, Holding>): map<EdgewareKey, nat>
  {
    map k | k in holdings :: holdings[k].amount
  }

  function Effectives(holdings: map<EdgewareKey, Holding>): map<EdgewareKey, nat>
  {
    map k | k in holdings :: holdings[k].effective
  }

  function AddrLists(holdings: map<EdgewareKey, Holding>): map<EdgewareKey, seq<EthAddress>>
  {
    map k | k in holdings :: holdings[k].addrs
  }

  lemma ProjectionsUpdate(holdings: map<EdgewareKey, Holding>, key: EdgewareKey, x: Holding)
    ensures Amounts(holdings[key := x]) == Amounts(holdings)[key := x.amount]
    ensures Effectives(holdings[key := x]) == Effectives(holdings)[key := x.effective]
    ensures AddrLists(holdings[key := x]) == AddrLists(holdings)[key := x.addrs]
  {
  }

  /** Replacing one entry changes the three sums by the difference of the entries. */
  lemma ReplaceConserves(holdings: map<EdgewareKey, Holding>, key: EdgewareKey, x: Holding, y: Holding, extra: multiset<EthAddress>)
    requires y == Lookup(holdings, key)
    requires multiset(x.addrs) == multiset(y.addrs) + extra
    ensures var after := holdings[key := x];
      && MapSum(Amounts(after)) + y.amount == MapSum(Amounts(holdings)) + x.amount
      && MapSum(Effectives(after)) + y.effective == MapSum(Effectives(holdings)) + x.effective
      && MapUnion(AddrLists(after)) == MapUnion(AddrLists(holdings)) + extra
  {
    ProjectionsUpdate(holdings, key, x);
    MapSumUpdate(Amounts(holdings), key, x.amount);
    MapSumUpdate(Effectives(holdings), key, x.effective);
    MapUnionUpdate(AddrLists(holdings), key, x.addrs, extra);
  }

  // ----- grouping contributions by key

  datatype Contribution = Contribution(key: EdgewareKey, amount: nat, value: nat, addr: EthAddress)

  /** Locks list their newest address first, signals their oldest. */
  datatype Order = NewestFirst | OldestFirst

  function Listed(addrs: seq<EthAddress>, addr: EthAddress, order: Order): seq<EthAddress>
  {
    if order.NewestFirst? then [addr] + addrs else addrs + [addr]
  }

  function SumAmount(cs: seq<Contribution>): nat
  {
    if cs == [] then 0 else SumAmount(cs[..|cs| - 1]) + cs[|cs| - 1].amount
  }

  function SumValue(cs: seq<Contribution>): nat
  {
    if cs == [] then 0 else SumValue(cs[..|cs| - 1]) + cs[|cs| - 1].value
  }

  function Addrs(cs: seq<Contribution>, order: Order): seq<EthAddress>
  {
    if cs == [] then [] else Listed(Addrs(cs[..|cs| - 1], order), cs[|cs| - 1].addr, order)
  }

  function ForKey(cs: seq<Contribution>, key: EdgewareKey): seq<Contribution>
  {
    if cs == [] then [] else
    var rest := ForKey(cs[..|cs| - 1], key);
    if cs[|cs| - 1].key == key then rest + [cs[|cs| - 1]] else rest
  }

  function Keys(cs: seq<Contribution>): set<EdgewareKey>
  {
    set c | c in cs :: c.key
  }

  function HoldingOf(cs: seq<Contribution>, order: Order): Holding
  {
    Holding(SumAmount(cs), SumValue(cs), Addrs(cs, order))
  }

  /** Every key that occurs, with the holding made of its own contributions. */
  function HoldingsOf(cs: seq<Contribution>, order: Order): map<EdgewareKey, Holding>
  {
    map k | k in Keys(cs) :: HoldingOf(ForKey(cs, k), order)
  }

  /** Adds one contribution to its key's holding, or starts the holding. */
  function Credit(holdings: map<EdgewareKey, Holding>, c: Contribution, order: Order): map<EdgewareKey, Holding>
  {
    if c.key in holdings then
      var x := holdings[c.key];
      holdings[c.key := Holding(c.amount + x.amount, x.effective + c.value, Listed(x.addrs, c.addr, order))]
    else
      holdings[c.key := Holding(c.amount, c.value, [c.addr])]
  }

  function Increased(x: Holding, c: Contribution, order: Order): Holding
  {
    Holding(x.amount + c.amount, x.effective + c.value, Listed(x.addrs, c.addr, order))
  }

  lemma CreditIncreases(holdings: map<EdgewareKey, Holding>, c: Contribution, order: Order)
    ensures Credit(holdings, c, order) == holdings[c.key := Increased(Lookup(holdings, c.key), c, order)]
  {
    assert Listed([], c.addr, order) == [c.addr];
  }

  lemma SumsSnoc(cs: seq<Contribution>, c: Contribution, order: Order)
    ensures SumAmount(cs + [c]) == SumAmount(cs) + c.amount
    ensures SumValue(cs + [c]) == SumValue(cs) + c.value
    ensures Addrs(cs + [c], order) == Listed(Addrs(cs, order), c.addr, order)
  {
  }

  lemma ForKeySnoc(cs: seq<Contribution>, c: Contribution, key: EdgewareKey)
    ensures ForKey(cs + [c], key) == if c.key == key then ForKey(cs, key) + [c] else ForKey(cs, key)
  {
  }

  lemma KeysSnoc(cs: seq<Contribution>, c: Contribution)
    ensures Keys(cs + [c]) == Keys(cs) + {c.key}
  {
  }

  lemma {:induction false} ForKeyEmpty(cs: seq<Contribution>, key: EdgewareKey)
    ensures ForKey(cs, key) == [] <==> key !in Keys(cs)
  {
    if cs != [] {
      var n := |cs| - 1;
      assert cs == cs[..n] + [cs[n]];
      ForKeyEmpty(cs[..n], key);
      KeysSnoc(cs[..n], cs[n]);
    }
  }

  /** What one more contribution does to the holding of any key. */
  lemma HoldingExtends(cs: seq<Contribution>, c: Contribution, order: Order, k: EdgewareKey)
    ensures var x := HoldingOf(ForKey(cs, k), order);
      && (k !in Keys(cs) ==> x == NO_HOLDING)
      && HoldingOf(ForKey(cs + [c], k), order) == if k == c.key then Increased(x, c, order) else x
  {
    hide Keys, ForKey, Listed;
    ForKeySnoc(cs, c, k);
    ForKeyEmpty(cs, k);
    SumsSnoc(ForKey(cs, k), c, order);
  }

  lemma HoldingsExtend(cs: seq<Contribution>, c: Contribution, order: Order)
    ensures var before, after := HoldingsOf(cs, order), HoldingsOf(cs + [c], order);
      && after.Keys == before.Keys + {c.key}
      && after[c.key] == Increased(Lookup(before, c.key), c, order)
      && (forall k :: k in before && k != c.key ==> after[k] == before[k])
  {
    hide ForKey, HoldingOf;
    KeysSnoc(cs, c);
    HoldingExtends(cs, c, order, c.key);
    forall k | k in Keys(cs) && k != c.key ensures HoldingsOf(cs + [c], order)[k] == HoldingsOf(cs, order)[k] {
      HoldingExtends(cs, c, order, k);
    }
  }

  /** Crediting a contribution extends the grouping by exactly that contribution. */
  lemma CreditExtends(cs: seq<Contribution>, c: Contribution, order: Order)
    ensures HoldingsOf(cs + [c], order) == Credit(HoldingsOf(cs, order), c, order)
  {
    hide *;
    var before, after := HoldingsOf(cs, order), HoldingsOf(cs + [c], order);
    HoldingsExtend(cs, c, order);
    IsUpdate(before, after, c.key, Increased(Lookup(before, c.key), c, order));
    CreditIncreases(before, c, order);
  }

  lemma NoContributions(order: Order)
    ensures HoldingsOf([], order) == map[]
    ensures MapSum(Amounts(map[])) == MapSum(Effectives(map[])) == 0
    ensures MapUnion(AddrLists(map[])) == multiset{}
  {
  }

  lemma CreditConserves(holdings: map<EdgewareKey, Holding>, c: Contribution, order: Order)
    ensures var after := Credit(holdings, c, order);
      && MapSum(Amounts(after)) == MapSum(Amounts(holdings)) + c.amount
      && MapSum(Effectives(after)) == MapSum(Effectives(holdings)) + c.value
      && MapUnion(AddrLists(after)) == MapUnion(AddrLists(holdings)) + multiset{c.addr}
  {
    hide Amounts, Effectives, AddrLists, MapSum, MapUnion, Credit, Lookup;
    CreditIncreases(holdings, c, order);
    var x := Lookup(holdings, c.key);
    ReplaceConserves(holdings, c.key, Increased(x, c, order), x, multiset{c.addr});
  }

  /** Grouping by key loses nothing and counts nothing twice. */
  lemma {:induction false} GroupingConserves(cs: seq<Contribution>, order: Order)
    ensures MapSum(Amounts(HoldingsOf(cs, order))) == SumAmount(cs)
    ensures MapSum(Effectives(HoldingsOf(cs, order))) == SumValue(cs)
    ensures MapUnion(AddrLists(HoldingsOf(cs, order))) == multiset(Addrs(cs, order))
  {
    hide HoldingsOf, Amounts, Effectives, AddrLists, MapSum, MapUnion, Credit;
    if cs == [] {
      NoContributions(order);
    } else {
      var n := |cs| - 1;
      assert cs == cs[..n] + [cs[n]];
      GroupingConserves(cs[..n], order);
      CreditExtends(cs[..n], cs[n], order);
      CreditConserves(HoldingsOf(cs[..n], order), cs[n], order);
    }
  }

  ghost predicate IsListed(holdings: map<EdgewareKey, Holding>, key: EdgewareKey, addr: EthAddress)
  {
    key in holdings && addr in holdings[key].addrs
  }

  lemma CreditLists(holdings: map<EdgewareKey, Holding>, c: Contribution, order: Order, key: EdgewareKey, addr: EthAddress)
    ensures IsListed(Credit(holdings, c, order), key, addr) <==>
            IsListed(holdings, key, addr) || (key == c.key && addr == c.addr)
  {
    hide Credit, Listed;
    CreditIncreases(holdings, c, order);
    ListedMembers(Lookup(holdings, c.key).addrs, c.addr, order);
  }

  /** An address is listed under a key exactly when a contribution from it was made for that key. */
  lemma {:induction false} ListedUnderOwnKey(cs: seq<Contribution>, order: Order, key: EdgewareKey, addr: EthAddress)
    ensures IsListed(HoldingsOf(cs, order), key, addr) <==> exists c :: c in cs && c.key == key && c.addr == addr
  {
    if cs != [] {
      hide HoldingsOf, IsListed, Credit;
      var n := |cs| - 1;
      assert cs == cs[..n] + [cs[n]];
      assert forall c :: c in cs <==> c in cs[..n] || c == cs[n];
      ListedUnderOwnKey(cs[..n], order, key, addr);
      CreditExtends(cs[..n], cs[n], order);
      CreditLists(HoldingsOf(cs[..n], order), cs[n], order, key, addr);
    }
  }

  lemma ListedMembers(addrs: seq<EthAddress>, addr: EthAddress, order: Order)
    ensures forall a :: a in Listed(addrs, addr, order) <==> a in addrs || a == addr
  {
  }

  /** Holding `x` is part of holding `y`. */
  ghost predicate Within(x: Holding, y: Holding)
  {
    x.amount <= y.amount && x.effective <= y.effective && multiset(x.addrs) <= multiset(y.addrs)
  }

  lemma WithinExtends(x: Holding, y: Holding, c: Contribution, order: Order)
    requires Within(x, y)
    ensures Within(x, Increased(y, c, order))
    ensures Within(Increased(x, c, order), Increased(y, c, order))
  {
  }
}
