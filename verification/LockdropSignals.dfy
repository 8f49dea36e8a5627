/**
 The fold over signal events. Only the first signal of a contract counts; generalised
 locks are valued like three-month locks and kept apart from the other signals.
 The balance of a contract at the closing block is an input.
 */
module LockdropSignals {
  import opened Wrappers
  import opened Tally
  import opened LockdropKeys
  import opened LockdropHoldings
  import opened LockdropValue

  datatype SignalEvent = SignalEvent(contractAddr: EthAddress, edgewareAddr: string)

  datatype SignalStats = SignalStats(signals: map<EdgewareKey, Holding>, totalETHSignaled: nat,
                                     totalEffectiveETHSignaled: nat, genLocks: map<EdgewareKey, nat>,
                                     numSignals: nat)

  type Balances = EthAddress -> nat

  function GeneralizedLocks(): set<EthAddress>
  {
    {
      EthAddress("0x94bD4150e41c717B7E7564484693073239715376"),
      EthAddress("0xdB0E7d784D6A7ca2CBDA6CE26ac3b1Bd348C06F8"),
      EthAddress("0x3BfC20f0B9aFcAcE800D73D2191166FF16540258")
    }
  }

  predicate IsGeneralized(addr: EthAddress)
  {
    addr in GeneralizedLocks()
  }

  /** What one counted contract is worth. */
  function SignalValue(addr: EthAddress, balance: Balances): nat
  {
    EffectiveValue(balance(addr), if IsGeneralized(addr) then THREE_MONTHS else SIGNALING, None, None)
  }

  function ContributionOf(e: SignalEvent, balance: Balances): Contribution
  {
    Contribution(FirstKey(e.edgewareAddr), balance(e.contractAddr), SignalValue(e.contractAddr, balance), e.contractAddr)
  }

  // ----- what the report should be

  function Contracts(events: seq<SignalEvent>): set<EthAddress>
  {
    set e | e in events :: e.contractAddr
  }

  /** The first signal of each contract, in order. */
  function FirstSignals(events: seq<SignalEvent>): seq<SignalEvent>
  {
    if events == [] then [] else
    var earlier := FirstSignals(events[..|events| - 1]);
    var e := events[|events| - 1];
    if e.contractAddr in Contracts(events[..|events| - 1]) then earlier else earlier + [e]
  }

  /** The contributions of the generalised, or of the other, first signals. */
  function Contributions(firsts: seq<SignalEvent>, generalized: bool, balance: Balances): seq<Contribution>
  {
    if firsts == [] then [] else
    var earlier := Contributions(firsts[..|firsts| - 1], generalized, balance);
    var e := firsts[|firsts| - 1];
    if IsGeneralized(e.contractAddr) == generalized then earlier + [ContributionOf(e, balance)] else earlier
  }

  function SumBalance(firsts: seq<SignalEvent>, balance: Balances): nat
  {
    if firsts == [] then 0
    else SumBalance(firsts[..|firsts| - 1], balance) + balance(firsts[|firsts| - 1].contractAddr)
  }

  function SumEffective(firsts: seq<SignalEvent>, balance: Balances): nat
  {
    if firsts == [] then 0
    else SumEffective(firsts[..|firsts| - 1], balance) + SignalValue(firsts[|firsts| - 1].contractAddr, balance)
  }

  function SignalsOf(firsts: seq<SignalEvent>, balance: Balances): map<EdgewareKey, Holding>
  {
    HoldingsOf(Contributions(firsts, false, balance), OldestFirst)
  }

  function GeneralizedOf(firsts: seq<SignalEvent>, balance: Balances): map<EdgewareKey, nat>
  {
    Effectives(HoldingsOf(Contributions(firsts, true, balance), OldestFirst))
  }

  function StatsOf(events: seq<SignalEvent>, balance: Balances): SignalStats
  {
    var firsts := FirstSignals(events);
    SignalStats(SignalsOf(firsts, balance), SumBalance(firsts, balance), SumEffective(firsts, balance),
                GeneralizedOf(firsts, balance), |events|)
  }

  // ----- the fold

  lemma NoSignals(balance: Balances)
    ensures SignalsOf([], balance) == map[] && GeneralizedOf([], balance) == map[]
    ensures SumBalance([], balance) == SumEffective([], balance) == 0
    ensures FirstSignals([]) == []
  {
  }

  lemma OneMoreSignal(events: seq<SignalEvent>, e: SignalEvent)
    ensures FirstSignals(events + [e]) ==
            if e.contractAddr in Contracts(events) then FirstSignals(events) else FirstSignals(events) + [e]
    ensures Contracts(events + [e]) == Contracts(events) + {e.contractAddr}
  {
  }

  lemma OneMoreFirst(firsts: seq<SignalEvent>, e: SignalEvent, balance: Balances)
    ensures SumBalance(firsts + [e], balance) == SumBalance(firsts, balance) + balance(e.contractAddr)
    ensures SumEffective(firsts + [e], balance) == SumEffective(firsts, balance) + SignalValue(e.contractAddr, balance)
    ensures var g := IsGeneralized(e.contractAddr);
      && Contributions(firsts + [e], g, balance) == Contributions(firsts, g, balance) + [ContributionOf(e, balance)]
      && Contributions(firsts + [e], !g, balance) == Contributions(firsts, !g, balance)
  {
  }

  function AddGeneralized(gLocks: map<EdgewareKey, nat>, key: EdgewareKey, value: nat): map<EdgewareKey, nat>
  {
    if key in gLocks then gLocks[key := gLocks[key] + value] else gLocks[key := value]
  }

  lemma AddGeneralizedIsCredit(holdings: map<EdgewareKey, Holding>, c: Contribution)
    ensures Effectives(Credit(holdings, c, OldestFirst)) == AddGeneralized(Effectives(holdings), c.key, c.value)
  {
  }

  /** A counted signal changes exactly one of the two collections. */
  lemma CollectionsExtend(firsts: seq<SignalEvent>, e: SignalEvent, balance: Balances)
    ensures var c := ContributionOf(e, balance);
      if IsGeneralized(e.contractAddr) then
        && SignalsOf(firsts + [e], balance) == SignalsOf(firsts, balance)
        && GeneralizedOf(firsts + [e], balance) == AddGeneralized(GeneralizedOf(firsts, balance), c.key, c.value)
      else
        && SignalsOf(firsts + [e], balance) == Credit(SignalsOf(firsts, balance), c, OldestFirst)
        && GeneralizedOf(firsts + [e], balance) == GeneralizedOf(firsts, balance)
  {
    hide IsGeneralized, HoldingsOf, Effectives, Contributions, ContributionOf, Credit, AddGeneralized;
    var c, g := ContributionOf(e, balance), IsGeneralized(e.contractAddr);
    OneMoreFirst(firsts, e, balance);
    CreditExtends(Contributions(firsts, g, balance), c, OldestFirst);
    if g {
      AddGeneralizedIsCredit(HoldingsOf(Contributions(firsts, true, balance), OldestFirst), c);
    }
  }

  /** The accumulated report depends on the first signal of each contract only. */
  method CalculateEffectiveSignals(signalEvents: seq<SignalEvent>, getBalance: Balances) returns (stats: SignalStats)
    ensures stats == StatsOf(signalEvents, getBalance)
  {
    hide SignalsOf, GeneralizedOf, SumBalance, SumEffective, FirstSignals, Contracts, Credit, AddGeneralized,
         EffectiveValue, FirstKey, IsGeneralized;
    NoSignals(getBalance);
    var totalETHSignaled: nat, totalEffectiveETHSignaled: nat := 0, 0;
    var signals: map<EdgewareKey, Holding>, gLocks: map<EdgewareKey, nat> := map[], map[];
    var seenContracts: set<EthAddress> := {};
    assert Contracts([]) == {} by { NoContracts(); }
    for i := 0 to |signalEvents|
      invariant seenContracts == Contracts(signalEvents[..i])
      invariant signals == SignalsOf(FirstSignals(signalEvents[..i]), getBalance)
      invariant gLocks == GeneralizedOf(FirstSignals(signalEvents[..i]), getBalance)
      invariant totalETHSignaled == SumBalance(FirstSignals(signalEvents[..i]), getBalance)
      invariant totalEffectiveETHSignaled == SumEffective(FirstSignals(signalEvents[..i]), getBalance)
    {
      var data := signalEvents[i];
      ghost var done := signalEvents[..i];
      assert signalEvents[..i + 1] == done + [data];
      OneMoreSignal(done, data);
      var balance := getBalance(data.contractAddr);
      if data.contractAddr !in seenContracts {
        OneMoreFirst(FirstSignals(done), data, getBalance);
        CollectionsExtend(FirstSignals(done), data, getBalance);
        seenContracts := seenContracts + {data.contractAddr};
        var key := FirstKey(data.edgewareAddr);
        if IsGeneralized(data.contractAddr) {
          var value := EffectiveValue(balance, THREE_MONTHS, None, None);
          gLocks := AddGeneralized(gLocks, key, value);
          totalETHSignaled := totalETHSignaled + balance;
          totalEffectiveETHSignaled := totalEffectiveETHSignaled + value;
        } else {
          var value := EffectiveValue(balance, SIGNALING, None, None);
          totalETHSignaled := totalETHSignaled + balance;
          totalEffectiveETHSignaled := totalEffectiveETHSignaled + value;
          signals := Credit(signals, Contribution(key, balance, value, data.contractAddr), OldestFirst);
        }
      }
    }
    assert signalEvents[..|signalEvents|] == signalEvents;
    stats := SignalStats(signals, totalETHSignaled, totalEffectiveETHSignaled, gLocks, |signalEvents|);
  }

  lemma NoContracts()
    ensures Contracts([]) == {}
  {
  }

  // ----- the totals depend on the set of contracts only

  /** The sum of `f` over a set of contracts. */
  ghost function SetSum(s: set<EthAddress>, f: EthAddress -> nat): nat
  {
    if s == {} then 0 else
    var a :| a in s;
    f(a) + SetSum(s - {a}, f)
  }

  lemma {:induction false} SetSumRemove(s: set<EthAddress>, f: EthAddress -> nat, a: EthAddress)
    requires a in s
    ensures SetSum(s, f) == f(a) + SetSum(s - {a}, f)
    decreases |s|
  {
    var b :| b in s && SetSum(s, f) == f(b) + SetSum(s - {b}, f);
    if a != b {
      SetSumRemove(s - {b}, f, a);
      SetSumRemove(s - {a}, f, b);
      assert s - {a} - {b} == s - {b} - {a};
    }
  }

  lemma SetSumAdd(s: set<EthAddress>, f: EthAddress -> nat, a: EthAddress)
    requires a !in s
    ensures SetSum(s + {a}, f) == SetSum(s, f) + f(a)
  {
    SetSumRemove(s + {a}, f, a);
    assert s + {a} - {a} == s;
  }

  /** The reference definition of the totals: one balance, one value, per distinct contract. */
  lemma {:induction false} TotalsArePerContract(events: seq<SignalEvent>, balance: Balances)
    ensures var stats := StatsOf(events, balance);
      && stats.totalETHSignaled == SetSum(Contracts(events), balance)
      && stats.totalEffectiveETHSignaled == SetSum(Contracts(events), a => SignalValue(a, balance))
  {
    hide SignalsOf, GeneralizedOf, SumBalance, SumEffective, FirstSignals, SignalValue, Contracts, SetSum,
         Contributions, ContributionOf, IsGeneralized;
    var value := a => SignalValue(a, balance);
    if events == [] {
      NoSignals(balance);
      NoContracts();
      EmptySetSum(balance);
      EmptySetSum(value);
    } else {
      var n := |events| - 1;
      var done, e := events[..n], events[n];
      assert events == done + [e];
      TotalsArePerContract(done, balance);
      OneMoreSignal(done, e);
      if e.contractAddr in Contracts(done) {
        assert Contracts(done) + {e.contractAddr} == Contracts(done);
      } else {
        OneMoreFirst(FirstSignals(done), e, balance);
        SetSumAdd(Contracts(done), balance, e.contractAddr);
        SetSumAdd(Contracts(done), value, e.contractAddr);
      }
    }
  }

  lemma EmptySetSum(f: EthAddress -> nat)
    ensures SetSum({}, f) == 0
  {
  }

  /**
   Reordering or repeating signal events changes neither total: two lists that name the
   same contracts report the same amounts.
   */
  lemma TotalsDependOnContractsOnly(events: seq<SignalEvent>, events': seq<SignalEvent>, balance: Balances)
    requires Contracts(events) == Contracts(events')
    ensures StatsOf(events, balance).totalETHSignaled == StatsOf(events', balance).totalETHSignaled
    ensures StatsOf(events, balance).totalEffectiveETHSignaled == StatsOf(events', balance).totalEffectiveETHSignaled
  {
    hide StatsOf, SetSum, Contracts;
    TotalsArePerContract(events, balance);
    TotalsArePerContract(events', balance);
  }

  // ----- conservation

  lemma {:induction false} ContributionSums(firsts: seq<SignalEvent>, balance: Balances)
    ensures var plain, general := Contributions(firsts, false, balance), Contributions(firsts, true, balance);
      && SumAmount(plain) + SumAmount(general) == SumBalance(firsts, balance)
      && SumValue(plain) + SumValue(general) == SumEffective(firsts, balance)
      && SumAmount(general) == SumValue(general)
  {
    if firsts != [] {
      hide Contributions, SumBalance, SumEffective, SumAmount, SumValue, IsGeneralized, EffectiveValue, FirstKey;
      var n := |firsts| - 1;
      var done, e := firsts[..n], firsts[n];
      assert firsts == done + [e];
      ContributionSums(done, balance);
      OneMoreFirst(done, e, balance);
      var g := IsGeneralized(e.contractAddr);
      SumsSnoc(Contributions(done, g, balance), ContributionOf(e, balance), OldestFirst);
      GeneralizedLockIsExact(balance(e.contractAddr));
    }
  }

  /**
   The amounts signalled per key plus the generalised locks add up to the total signalled
   (generalised locks being valued exactly), and the same holds for the effective total.
   */
  lemma SignalsConserveTotals(events: seq<SignalEvent>, balance: Balances)
    ensures var stats := StatsOf(events, balance);
      && MapSum(Amounts(stats.signals)) + MapSum(stats.genLocks) == stats.totalETHSignaled
      && MapSum(Effectives(stats.signals)) + MapSum(stats.genLocks) == stats.totalEffectiveETHSignaled
  {
    hide HoldingsOf, Contributions, Amounts, Effectives, AddrLists, MapSum, MapUnion, SumBalance, SumEffective,
         SumAmount, SumValue, FirstSignals;
    var firsts := FirstSignals(events);
    GroupingConserves(Contributions(firsts, false, balance), OldestFirst);
    GroupingConserves(Contributions(firsts, true, balance), OldestFirst);
    ContributionSums(firsts, balance);
  }

  // ----- first signal wins

  lemma {:induction false} FirstSignalsCoverContracts(events: seq<SignalEvent>)
    ensures Contracts(FirstSignals(events)) == Contracts(events)
  {
    if events != [] {
      hide FirstSignals, Contracts;
      var n := |events| - 1;
      var done, e := events[..n], events[n];
      assert events == done + [e];
      FirstSignalsCoverContracts(done);
      OneMoreSignal(done, e);
      OneMoreSignal(FirstSignals(done), e);
      if e.contractAddr in Contracts(done) {
        assert Contracts(done) + {e.contractAddr} == Contracts(done);
      }
    } else {
      NoContracts();
    }
  }

  function PlainContracts(contracts: set<EthAddress>): set<EthAddress>
  {
    set a | a in contracts && !IsGeneralized(a)
  }

  function GeneralContracts(contracts: set<EthAddress>): set<EthAddress>
  {
    set a | a in contracts && IsGeneralized(a)
  }

  lemma PlainContractsAdd(contracts: set<EthAddress>, a: EthAddress)
    requires a !in contracts
    ensures multiset(PlainContracts(contracts + {a})) ==
            multiset(PlainContracts(contracts)) + if IsGeneralized(a) then multiset{} else multiset{a}
  {
  }

  lemma {:induction false} PlainAddrs(events: seq<SignalEvent>, balance: Balances)
    ensures multiset(Addrs(Contributions(FirstSignals(events), false, balance), OldestFirst)) ==
            multiset(PlainContracts(Contracts(events)))
  {
    hide FirstSignals, Contracts, Contributions, SignalValue, IsGeneralized, PlainContracts, SumAmount, SumValue, Addrs;
    if events == [] {
      NoContracts();
      NoSignals(balance);
      NoContributionsYet(balance);
    } else {
      var n := |events| - 1;
      var done, e := events[..n], events[n];
      assert events == done + [e];
      PlainAddrs(done, balance);
      OneMoreSignal(done, e);
      var all, addr := Contracts(done), e.contractAddr;
      if addr in all {
        assert all + {addr} == all;
      } else {
        OneMoreFirst(FirstSignals(done), e, balance);
        PlainContractsAdd(all, addr);
        SumsSnoc(Contributions(FirstSignals(done), false, balance), ContributionOf(e, balance), OldestFirst);
      }
    }
  }

  lemma NoContributionsYet(balance: Balances)
    ensures Addrs(Contributions([], false, balance), OldestFirst) == [] && PlainContracts({}) == {}
  {
  }

  /** Over all keys together, every signalling contract is listed once, and no generalised lock is. */
  lemma EveryContractListedOnce(events: seq<SignalEvent>, balance: Balances)
    ensures MapUnion(AddrLists(StatsOf(events, balance).signals)) == multiset(PlainContracts(Contracts(events)))
  {
    hide HoldingsOf, Contributions, AddrLists, MapUnion, MapSum, FirstSignals, Contracts, Addrs, GeneralizedOf, PlainContracts;
    GroupingConserves(Contributions(FirstSignals(events), false, balance), OldestFirst);
    PlainAddrs(events, balance);
  }

  /** The `i`-th event is the first signal of contract `a`. */
  ghost predicate IsFirstSignal(events: seq<SignalEvent>, i: nat, a: EthAddress)
  {
    i < |events| && events[i].contractAddr == a && a !in Contracts(events[..i])
  }

  /** Some first signal of contract `a` names `key`. */
  ghost predicate FirstSignalNames(events: seq<SignalEvent>, a: EthAddress, key: EdgewareKey)
  {
    exists i: nat :: IsFirstSignal(events, i, a) && FirstKey(events[i].edgewareAddr) == key
  }

  lemma FirstSignalUnique(events: seq<SignalEvent>, i: nat, j: nat, a: EthAddress)
    requires IsFirstSignal(events, i, a) && IsFirstSignal(events, j, a)
    ensures i == j
  {
    assert forall k, m :: 0 <= k < m < |events| && events[k].contractAddr == a ==> a in Contracts(events[..m]) by {
      forall k, m | 0 <= k < m < |events| && events[k].contractAddr == a ensures a in Contracts(events[..m]) {
        HasContract(events[..m], k);
      }
    }
  }

  lemma FirstSignalSnoc(events: seq<SignalEvent>, e: SignalEvent, a: EthAddress, key: EdgewareKey)
    ensures FirstSignalNames(events + [e], a, key) <==>
            FirstSignalNames(events, a, key) || (e.contractAddr == a && a !in Contracts(events) && FirstKey(e.edgewareAddr) == key)
    ensures FirstSignalNames(events, a, key) ==> a in Contracts(events)
  {
    hide Contracts, FirstKey;
    var all, n := events + [e], |events|;
    assert all[..n] == events && all[n] == e;
    forall i: nat | i < n ensures IsFirstSignal(all, i, a) <==> IsFirstSignal(events, i, a) {
      assert all[..i] == events[..i];
    }
    if FirstSignalNames(events, a, key) {
      var i: nat :| IsFirstSignal(events, i, a) && FirstKey(events[i].edgewareAddr) == key;
      assert IsFirstSignal(all, i, a) && all[i] == events[i];
      HasContract(events, i);
    }
    assert e.contractAddr == a && a !in Contracts(events) ==> IsFirstSignal(all, n, a);
    if FirstSignalNames(all, a, key) {
      var i: nat :| IsFirstSignal(all, i, a) && FirstKey(all[i].edgewareAddr) == key;
      assert i < n ==> IsFirstSignal(events, i, a) && all[i] == events[i];
    }
  }

  lemma HasContract(events: seq<SignalEvent>, i: nat)
    requires i < |events|
    ensures events[i].contractAddr in Contracts(events)
  {
  }

  /**
   The first signal of a contract decides: a contract is listed under a key exactly when it
   is no generalised lock and its first signal names that key. No later signal moves it.
   */
  lemma {:induction false} FirstSignalWins(events: seq<SignalEvent>, balance: Balances, a: EthAddress, key: EdgewareKey)
    ensures IsListed(StatsOf(events, balance).signals, key, a) <==> !IsGeneralized(a) && FirstSignalNames(events, a, key)
  {
    hide FirstSignals, Contracts, SignalsOf, GeneralizedOf, FirstKey, IsGeneralized, IsListed, SignalValue, Credit, FirstSignalNames;
    if events == [] {
      NoSignals(balance);
      NothingListed(a, key);
    } else {
      var n := |events| - 1;
      var done, e := events[..n], events[n];
      assert events == done + [e];
      FirstSignalWins(done, balance, a, key);
      OneMoreSignal(done, e);
      FirstSignalSnoc(done, e, a, key);
      if e.contractAddr !in Contracts(done) {
        CollectionsExtend(FirstSignals(done), e, balance);
        CreditLists(SignalsOf(FirstSignals(done), balance), ContributionOf(e, balance), OldestFirst, key, a);
      }
    }
  }

  lemma NothingListed(a: EthAddress, key: EdgewareKey)
    ensures !IsListed(map[], key, a) && !FirstSignalNames([], a, key)
  {
    hide FirstKey;
  }

  /** So the order of two signals does matter to the map, if not to the totals. */
  lemma OrderDecidesTheKey(a: EthAddress, one: string, other: string, balance: Balances)
    requires !IsGeneralized(a) && FirstKey(one) != FirstKey(other)
    ensures StatsOf([SignalEvent(a, one), SignalEvent(a, other)], balance).signals !=
            StatsOf([SignalEvent(a, other), SignalEvent(a, one)], balance).signals
  {
    hide *;
    FirstOfTwo(a, one, other, FirstKey(one));
    FirstOfTwo(a, other, one, FirstKey(one));
    FirstSignalWins([SignalEvent(a, one), SignalEvent(a, other)], balance, a, FirstKey(one));
    FirstSignalWins([SignalEvent(a, other), SignalEvent(a, one)], balance, a, FirstKey(one));
  }

  lemma FirstOfTwo(a: EthAddress, one: string, other: string, key: EdgewareKey)
    ensures FirstSignalNames([SignalEvent(a, one), SignalEvent(a, other)], a, key) <==> key == FirstKey(one)
  {
    hide FirstKey;
    var events := [SignalEvent(a, one), SignalEvent(a, other)];
    assert IsFirstSignal(events, 0, a);
    forall i: nat | IsFirstSignal(events, i, a) ensures i == 0 {
      FirstSignalUnique(events, 0, i, a);
    }
  }

  /** For example two signals of one contract for the keys 0x01 and 0x02. */
  lemma TwoSignalsInTwoOrders(balance: Balances)
    ensures var a := EthAddress("0xa1");
      StatsOf([SignalEvent(a, "0x01"), SignalEvent(a, "0x02")], balance).signals !=
      StatsOf([SignalEvent(a, "0x02"), SignalEvent(a, "0x01")], balance).signals
  {
    assert "0x01"[3] != "0x02"[3];
    assert |"0xa1"| == 4;
    hide StatsOf;
    OrderDecidesTheKey(EthAddress("0xa1"), "0x01", "0x02", balance);
  }

  // ----- the holding of one key

  /** The addresses of generalised locks, as the program's table lists them. */
  lemma GeneralizedTable(a: EthAddress)
    ensures IsGeneralized(a) <==>
      || a.hex == "0x94bD4150e41c717B7E7564484693073239715376"
      || a.hex == "0xdB0E7d784D6A7ca2CBDA6CE26ac3b1Bd348C06F8"
      || a.hex == "0x3BfC20f0B9aFcAcE800D73D2191166FF16540258"
  {
  }

  /** A fifth of the balance, rounded down: what a plain signal is worth. */
  function Fifth(balance: Balances): Balances
  {
    a => balance(a) / 5
  }

  lemma ValueOfSignal(a: EthAddress, balance: Balances)
    ensures SignalValue(a, balance) == if IsGeneralized(a) then balance(a) else Fifth(balance)(a)
  {
    hide IsGeneralized;
    GeneralizedLockIsExact(balance(a));
    ValueWithoutTime(balance(a), "signaling", None, None);
  }

  /** The generalised, or the other, contracts whose first signal names a key. */
  ghost function CreditedTo(events: seq<SignalEvent>, key: EdgewareKey, generalized: bool): set<EthAddress>
  {
    set a | a in Contracts(events) && IsGeneralized(a) == generalized && FirstSignalNames(events, a, key)
  }

  lemma CreditedSnoc(events: seq<SignalEvent>, e: SignalEvent, key: EdgewareKey, generalized: bool)
    ensures var a := e.contractAddr;
      CreditedTo(events + [e], key, generalized) ==
      if a !in Contracts(events) && IsGeneralized(a) == generalized && FirstKey(e.edgewareAddr) == key
      then CreditedTo(events, key, generalized) + {a} else CreditedTo(events, key, generalized)
  {
    hide Contracts, IsGeneralized, FirstKey, FirstSignalNames;
    OneMoreSignal(events, e);
    forall a ensures a in CreditedTo(events + [e], key, generalized) <==>
        a in CreditedTo(events, key, generalized)
        || (a == e.contractAddr && a !in Contracts(events) && IsGeneralized(a) == generalized && FirstKey(e.edgewareAddr) == key) {
      FirstSignalSnoc(events, e, a, key);
    }
  }

  /** Amount and value of a key's plain signals, and of its generalised locks. */
  ghost predicate MatchesContracts(stats: SignalStats, events: seq<SignalEvent>, balance: Balances, key: EdgewareKey)
  {
    var plain, general := CreditedTo(events, key, false), CreditedTo(events, key, true);
    && (key in stats.signals <==> plain != {})
    && Lookup(stats.signals, key).amount == SetSum(plain, balance)
    && Lookup(stats.signals, key).effective == SetSum(plain, Fifth(balance))
    && (key in stats.genLocks <==> general != {})
    && (key in stats.genLocks ==> stats.genLocks[key] == SetSum(general, balance))
  }

  lemma CreditedNothing(key: EdgewareKey, generalized: bool, balance: Balances)
    ensures CreditedTo([], key, generalized) == {}
    ensures SetSum({}, balance) == 0
  {
  }

  lemma LookupAfterCredit(holdings: map<EdgewareKey, Holding>, c: Contribution, key: EdgewareKey)
    ensures var x, y := Lookup(holdings, key), Lookup(Credit(holdings, c, OldestFirst), key);
      && y.amount == x.amount + (if key == c.key then c.amount else 0)
      && y.effective == x.effective + (if key == c.key then c.value else 0)
      && (key in Credit(holdings, c, OldestFirst) <==> key in holdings || key == c.key)
  {
  }

  lemma AfterAddGeneralized(gLocks: map<EdgewareKey, nat>, k: EdgewareKey, value: nat, key: EdgewareKey)
    ensures var after := AddGeneralized(gLocks, k, value);
      && (key in after <==> key in gLocks || key == k)
      && (key in after ==> after[key] == (if key in gLocks then gLocks[key] else 0) + if key == k then value else 0)
  {
  }

  /**
   The reference for the two maps: a key holds the balances of the plain contracts whose
   first signal names it, and a fifth of each as effective value; the generalised locks of
   a key hold their whole balances.
   */
  lemma {:induction false} SignalsPerKey(events: seq<SignalEvent>, balance: Balances, key: EdgewareKey)
    ensures MatchesContracts(StatsOf(events, balance), events, balance, key)
  {
    hide FirstSignals, SignalsOf, GeneralizedOf, SumBalance, SumEffective, SignalValue, Contracts, IsGeneralized, FirstKey,
         CreditedTo, SetSum, Credit, AddGeneralized, Fifth, Lookup;
    if events == [] {
      NoSignals(balance);
      CreditedNothing(key, false, balance);
      CreditedNothing(key, true, balance);
      CreditedNothing(key, true, Fifth(balance));
      NoLookup(key);
    } else {
      var n := |events| - 1;
      var done, e := events[..n], events[n];
      assert events == done + [e];
      SignalsPerKey(done, balance, key);
      OneMoreSignal(done, e);
      CreditedSnoc(done, e, key, false);
      CreditedSnoc(done, e, key, true);
      if e.contractAddr !in Contracts(done) {
        var c, firsts := ContributionOf(e, balance), FirstSignals(done);
        CollectionsExtend(firsts, e, balance);
        ValueOfSignal(e.contractAddr, balance);
        NotYetCredited(done, e.contractAddr, key);
        LookupAfterCredit(SignalsOf(firsts, balance), c, key);
        AfterAddGeneralized(GeneralizedOf(firsts, balance), c.key, c.value, key);
        SetSumAdd(CreditedTo(done, key, false), balance, e.contractAddr);
        SetSumAdd(CreditedTo(done, key, false), Fifth(balance), e.contractAddr);
        SetSumAdd(CreditedTo(done, key, true), balance, e.contractAddr);
        if key !in GeneralizedOf(firsts, balance) {
          CreditedNothing(key, true, balance);
        }
      }
    }
  }

  lemma NoLookup(key: EdgewareKey)
    ensures Lookup(map[], key) == NO_HOLDING
  {
  }

  lemma NotYetCredited(events: seq<SignalEvent>, a: EthAddress, key: EdgewareKey)
    requires a !in Contracts(events)
    ensures a !in CreditedTo(events, key, false) && a !in CreditedTo(events, key, true)
  {
  }

  // ----- the deduction

  lemma {:induction false} FifthsAddUp(s: set<EthAddress>, balance: Balances)
    ensures 5 * SetSum(s, Fifth(balance)) <= SetSum(s, balance) <= 5 * SetSum(s, Fifth(balance)) + 4 * |s|
    decreases |s|
  {
    if s != {} {
      var a :| a in s;
      SetSumRemove(s, balance, a);
      SetSumRemove(s, Fifth(balance), a);
      hide SetSum;
      FifthsAddUp(s - {a}, balance);
    }
  }

  /**
   A plain signal loses 80 percent: per key the effective value is a fifth of the amount, up
   to less than one unit for each contract.
   */
  lemma SignalsAreDeducted(events: seq<SignalEvent>, balance: Balances, key: EdgewareKey)
    ensures var x := Lookup(StatsOf(events, balance).signals, key);
      5 * x.effective <= x.amount <= 5 * x.effective + 4 * |CreditedTo(events, key, false)|
  {
    hide StatsOf, CreditedTo, Lookup, SetSum;
    SignalsPerKey(events, balance, key);
    FifthsAddUp(CreditedTo(events, key, false), balance);
  }

  lemma {:induction false} TotalBySort(s: set<EthAddress>, balance: Balances)
    ensures SetSum(s, a => SignalValue(a, balance)) ==
            SetSum(GeneralContracts(s), balance) + SetSum(PlainContracts(s), Fifth(balance))
    decreases |s|
  {
    var value := a => SignalValue(a, balance);
    var general, plain := GeneralContracts(s), PlainContracts(s);
    hide SignalValue, Fifth, SetSum, IsGeneralized;
    if s == {} {
      EmptySetSum(value);
      EmptySetSum(balance);
      EmptySetSum(Fifth(balance));
      assert general == {} && plain == {};
    } else {
      var a :| a in s;
      TotalBySort(s - {a}, balance);
      SetSumRemove(s, value, a);
      ValueOfSignal(a, balance);
      if IsGeneralized(a) {
        SetSumRemove(general, balance, a);
        assert general - {a} == GeneralContracts(s - {a});
        assert plain == PlainContracts(s - {a});
      } else {
        SetSumRemove(plain, Fifth(balance), a);
        assert general == GeneralContracts(s - {a});
        assert plain - {a} == PlainContracts(s - {a});
      }
    }
  }

  /** The effective total: the whole balance of a generalised lock, a fifth of every other contract's. */
  lemma EffectiveTotalBySort(events: seq<SignalEvent>, balance: Balances)
    ensures StatsOf(events, balance).totalEffectiveETHSignaled ==
            SetSum(GeneralContracts(Contracts(events)), balance)
            + SetSum(PlainContracts(Contracts(events)), Fifth(balance))
  {
    hide StatsOf, Contracts, IsGeneralized, PlainContracts, GeneralContracts, SetSum;
    TotalsArePerContract(events, balance);
    TotalBySort(Contracts(events), balance);
  }

  /** Repeated signals are counted but credited to nobody: the count is that of the contracts exactly when none repeats. */
  lemma {:induction false} SignalsAreCounted(events: seq<SignalEvent>, balance: Balances)
    ensures StatsOf(events, balance).numSignals >= |Contracts(events)|
    ensures StatsOf(events, balance).numSignals == |Contracts(events)| <==>
            forall i, j :: 0 <= i < j < |events| ==> events[i].contractAddr != events[j].contractAddr
  {
    hide Contracts, FirstSignals, SignalsOf, GeneralizedOf, SumBalance, SumEffective;
    if events == [] {
      NoContracts();
    } else {
      var n := |events| - 1;
      var done, e := events[..n], events[n];
      assert events == done + [e];
      SignalsAreCounted(done, balance);
      OneMoreSignal(done, e);
      ContractsAre(done, e.contractAddr);
      if e.contractAddr in Contracts(done) {
        assert Contracts(events) == Contracts(done);
      } else {
        assert |Contracts(events)| == |Contracts(done)| + 1;
        assert forall i :: 0 <= i < n ==> events[i] == done[i];
      }
    }
  }

  lemma ContractsAre(events: seq<SignalEvent>, a: EthAddress)
    ensures a in Contracts(events) <==> exists i :: 0 <= i < |events| && events[i].contractAddr == a
  {
  }

  /** A signal with an ordinary key, alone or first of several, is credited to that very key. */
  lemma OrdinarySignalIsReported(events: seq<SignalEvent>, balance: Balances, i: nat, s: string, rest: string)
    requires i < |events| && IsFirstSignal(events, i, events[i].contractAddr)
    requires IsOrdinaryKey(s) && events[i].edgewareAddr == s + rest
    ensures var a, stats := events[i].contractAddr, StatsOf(events, balance);
      if IsGeneralized(a) then EdgewareKey(s) in stats.genLocks
      else IsListed(stats.signals, EdgewareKey(s), a)
  {
    hide FirstKey, StatsOf, IsGeneralized, IsFirstSignal, Contracts;
    var a := events[i].contractAddr;
    OrdinaryKeyIsItself(s, rest);
    assert FirstSignalNames(events, a, EdgewareKey(s));
    FirstSignalWins(events, balance, a, EdgewareKey(s));
    SignalsPerKey(events, balance, EdgewareKey(s));
    HasContract(events, i);
    assert IsGeneralized(a) ==> a in CreditedTo(events, EdgewareKey(s), true);
  }

  /** Addresses are listed in the order of their first signals: later signals only append. */
  lemma {:induction false} ListedInOrder(events: seq<SignalEvent>, n: nat, balance: Balances, key: EdgewareKey)
    requires n <= |events|
    ensures Lookup(StatsOf(events[..n], balance).signals, key).addrs <= Lookup(StatsOf(events, balance).signals, key).addrs
  {
    if n == |events| {
      assert events[..n] == events;
    } else {
      hide FirstSignals, SignalsOf, GeneralizedOf, SumBalance, SumEffective, Contracts, IsGeneralized, Lookup, Credit, ContributionOf;
      var m := |events| - 1;
      var done, e := events[..m], events[m];
      assert events == done + [e] && done[..n] == events[..n];
      ListedInOrder(done, n, balance, key);
      OneMoreSignal(done, e);
      if e.contractAddr !in Contracts(done) {
        CollectionsExtend(FirstSignals(done), e, balance);
        CreditAppends(SignalsOf(FirstSignals(done), balance), ContributionOf(e, balance), key);
      }
    }
  }

  lemma CreditAppends(holdings: map<EdgewareKey, Holding>, c: Contribution, key: EdgewareKey)
    ensures Lookup(holdings, key).addrs <= Lookup(Credit(holdings, c, OldestFirst), key).addrs
  {
  }
}
